/**
 The budget of the cache as it is meant: the counter holds what is cached, a write charges what
 its entry grows by, and `get_space` counts down what it has still to free. Over every run the
 counter is the total and the total is within the budget. The accounting as written is compared
 with it.
 */
module CacheBudget {
  import opened Octets
  import opened Wire
  import opened CacheModel

  /** What `get_space` leaves. */
  datatype Space = Space(items: seq<Item>, cur: int, enough: bool)

  /** `get_space` with a loop that ends: each entry it frees is taken off the counter and off `size`. */
  function Freed(items: seq<Item>, cur: int, size: int): Space
    decreases |items|
  {
    if size <= 0 then Space(items, cur, true)
    else if items == [] then Space(items, cur, false)
    else Freed(items[1..], cur - |items[0].data|, size - |items[0].data|)
  }

  datatype Meant = Meant(items: seq<Item>, cur: int)
  datatype Attempt = Attempt(next: Meant, refused: bool)

  /** Room for the growth, the first time like all others; then the growth is charged. */
  function Attempted(s: Meant, max: nat, entry: Item): Attempt {
    var was := DataOf(s.items, entry.path);
    var rest := Rest(s.items, entry.path);
    var grow := |entry.data| - |was|;
    var space :=
      if grow > 0 && s.cur + grow > max then Freed(rest, s.cur, s.cur + grow - max) else Space(rest, s.cur, true);
    if space.enough then Attempt(Meant(space.items + [entry], space.cur + grow), false)
    else Attempt(Meant(space.items, space.cur - |was|), true)
  }

  /** `cache_write` as it is meant. */
  function WriteAttempted(s: Meant, max: nat, path: string, buf: Bytes, offset: nat, junk: nat -> byte): Attempt {
    Attempted(s, max, Item(path, Blended(DataOf(s.items, path), offset, buf, junk)))
  }

  function MeantAfter(s: Meant, a: Access, max: nat): Meant {
    match a
    case Put(path, buf, offset, junk) => WriteAttempted(s, max, path, buf, offset, junk).next
    case Get(path) => s.(items := Looked(State(s.items, 0), path).items)
    case Move(path, newpath) => s.(items := Renamed(State(s.items, 0), path, newpath).items)
  }

  function MeantRun(s: Meant, accesses: seq<Access>, max: nat): Meant
    decreases |accesses|
  {
    if accesses == [] then s else MeantRun(MeantAfter(s, accesses[0], max), accesses[1..], max)
  }

  ghost predicate WithinBudget(s: Meant, max: nat) {
    s.cur == Total(s.items) <= max
  }

  // ------------------------------------------------------------------ eviction

  /** How many entries the loop frees. */
  function FreedCount(items: seq<Item>, size: int): (k: nat)
    ensures k <= |items|
    decreases |items|
  {
    if size <= 0 || items == [] then 0 else 1 + FreedCount(items[1..], size - |items[0].data|)
  }

  /** The loop takes a prefix of oldest entries, and its counter keeps step. */
  lemma {:induction false} FreedIsPrefix(items: seq<Item>, cur: int, size: int)
    ensures Freed(items, cur, size).items == items[FreedCount(items, size)..]
    ensures Freed(items, cur, size).cur - Total(Freed(items, cur, size).items) == cur - Total(items)
    decreases |items|
  {
    if size > 0 && items != [] {
      FreedIsPrefix(items[1..], cur - |items[0].data|, size - |items[0].data|);
      assert items[1..][FreedCount(items, size) - 1..] == items[FreedCount(items, size)..];
    } else {
      assert items[0..] == items;
    }
  }

  /** No shorter prefix frees enough. */
  lemma {:induction false} FreedIsShortest(items: seq<Item>, size: int, j: nat)
    requires j < FreedCount(items, size)
    ensures Total(items) - Total(items[j..]) < size
    decreases |items|
  {
    if j > 0 {
      FreedIsShortest(items[1..], size - |items[0].data|, j - 1);
      assert items[1..][j - 1..] == items[j..];
    } else {
      assert items[0..] == items;
    }
  }

  lemma {:induction false} FreedAllIffTooMuch(items: seq<Item>, cur: int, size: int)
    ensures Freed(items, cur, size).enough <==> size <= Total(items) || size <= 0
    ensures !Freed(items, cur, size).enough ==> Freed(items, cur, size).items == []
    decreases |items|
  {
    if size > 0 && items != [] {
      FreedAllIffTooMuch(items[1..], cur - |items[0].data|, size - |items[0].data|);
    }
  }

  lemma {:induction false} FreedEnough(items: seq<Item>, size: int)
    requires size <= Total(items)
    ensures Total(items) - Total(items[FreedCount(items, size)..]) >= size
    decreases |items|
  {
    if size > 0 {
      FreedEnough(items[1..], size - |items[0].data|);
      assert items[1..][FreedCount(items, size) - 1..] == items[FreedCount(items, size)..];
    } else {
      assert items[0..] == items;
    }
  }

  /** The loop takes the shortest prefix that frees enough. */
  lemma FreedMakesRoom(items: seq<Item>, size: int)
    requires size <= Total(items)
    ensures Total(items[FreedCount(items, size)..]) <= Total(items) - size
    ensures forall j | 0 <= j < FreedCount(items, size) :: Total(items[j..]) > Total(items) - size
  {
    FreedEnough(items, size);
    forall j | 0 <= j < FreedCount(items, size) ensures Total(items[j..]) > Total(items) - size {
      FreedIsShortest(items, size, j);
    }
  }

  // ------------------------------------------------------------------ one write

  /** How many of the others a write evicts. */
  function EvictedCount(s: Meant, max: nat, entry: Item): (k: nat)
    ensures k <= |Rest(s.items, entry.path)|
  {
    var grow := |entry.data| - |DataOf(s.items, entry.path)|;
    if grow > 0 && s.cur + grow > max then FreedCount(Rest(s.items, entry.path), s.cur + grow - max) else 0
  }

  lemma RefusedAsMeant(s: Meant, max: nat, entry: Item)
    requires WithinBudget(s, max)
    ensures var t := Attempted(s, max, entry);
      && (t.refused <==> |entry.data| > max)
      && (t.refused ==> t.next.items == [])
  {
    var rest := Rest(s.items, entry.path);
    var grow := |entry.data| - |DataOf(s.items, entry.path)|;
    TotalOfRest(s.items, entry.path);
    FreedAllIffTooMuch(rest, s.cur, s.cur + grow - max);
  }

  lemma EvictedAsMeant(s: Meant, max: nat, entry: Item)
    requires WithinBudget(s, max) && |entry.data| <= max
    ensures Attempted(s, max, entry).next.items == Rest(s.items, entry.path)[EvictedCount(s, max, entry)..] + [entry]
  {
    var rest, size := Rest(s.items, entry.path), s.cur + |entry.data| - |DataOf(s.items, entry.path)| - max;
    RefusedAsMeant(s, max, entry);
    if |entry.data| > |DataOf(s.items, entry.path)| && size > 0 {
      assert Attempted(s, max, entry).next.items == Freed(rest, s.cur, size).items + [entry];
      FreedIsPrefix(rest, s.cur, size);
    } else {
      assert rest[0..] == rest;
    }
  }

  lemma CountedAsMeant(s: Meant, max: nat, entry: Item)
    requires WithinBudget(s, max)
    ensures var t := Attempted(s, max, entry); t.next.cur == Total(t.next.items)
  {
    var rest := Rest(s.items, entry.path);
    var size := s.cur + |entry.data| - |DataOf(s.items, entry.path)| - max;
    TotalOfRest(s.items, entry.path);
    FreedIsPrefix(rest, s.cur, size);
    TotalOfConcat(rest, [entry]);
    TotalOfConcat(Freed(rest, s.cur, size).items, [entry]);
    assert Total([entry]) == |entry.data|;
  }

  /** The prefix is the shortest that makes room. */
  lemma RoomAsMeant(s: Meant, max: nat, entry: Item)
    requires WithinBudget(s, max) && |entry.data| <= max
    ensures var rest, k := Rest(s.items, entry.path), EvictedCount(s, max, entry);
      && Total(rest[k..]) + |entry.data| <= max
      && forall j | 0 <= j < k :: Total(rest[j..]) + |entry.data| > max
  {
    var was, rest := DataOf(s.items, entry.path), Rest(s.items, entry.path);
    var k, size := EvictedCount(s, max, entry), s.cur + |entry.data| - |was| - max;
    TotalOfRest(s.items, entry.path);
    assert rest[0..] == rest;
    if |entry.data| > |was| && size > 0 {
      assert k == FreedCount(rest, size);
      FreedMakesRoom(rest, size);
    }
  }

  /**
   A write from a state within the budget is refused exactly when it alone exceeds the budget.
   Otherwise the oldest others go, the fewest that make room, and the entry is the newest.
   */
  lemma WriteAsMeant(s: Meant, max: nat, entry: Item)
    requires WithinBudget(s, max)
    ensures var t, rest, k := Attempted(s, max, entry), Rest(s.items, entry.path), EvictedCount(s, max, entry);
      && WithinBudget(t.next, max)
      && (t.refused <==> |entry.data| > max)
      && (t.refused ==> t.next.items == [])
      && (!t.refused ==>
            t.next.items == rest[k..] + [entry] && forall j | 0 <= j < k :: Total(rest[j..]) + |entry.data| > max)
  {
    CountedAsMeant(s, max, entry);
    RefusedAsMeant(s, max, entry);
    if |entry.data| <= max {
      EvictedAsMeant(s, max, entry);
      RoomAsMeant(s, max, entry);
      TotalOfConcat(Rest(s.items, entry.path)[EvictedCount(s, max, entry)..], [entry]);
      assert Total([entry]) == |entry.data|;
    }
  }

  // ------------------------------------------------------------------ every run

  lemma TotalOfLooked(s: State, path: string)
    ensures Total(Looked(s, path).items) == Total(s.items)
  {
    var item := Item(path, DataOf(s.items, path));
    TotalOfRest(s.items, path);
    TotalOfConcat(Rest(s.items, path), [item]);
    assert Total([item]) == |item.data|;
  }

  lemma TotalOfUpdated(items: seq<Item>, k: nat, item: Item)
    requires k < |items| && |item.data| == |items[k].data|
    ensures Total(items[k := item]) == Total(items)
  {
    var a, b := items[..k], items[k + 1..];
    assert items == (a + [items[k]]) + b && items[k := item] == (a + [item]) + b;
    TotalOfConcat(a + [items[k]], b);
    TotalOfConcat(a + [item], b);
    TotalOfConcat(a, [items[k]]);
    TotalOfConcat(a, [item]);
  }

  lemma TotalOfRenamed(s: State, path: string, newpath: string)
    ensures Total(Renamed(s, path, newpath).items) == Total(s.items)
  {
    if Cached(s.items, path) {
      var k := IndexOf(s.items, path);
      TotalOfUpdated(s.items, k, s.items[k].(path := newpath));
    }
  }

  lemma AccessStaysWithinBudget(s: Meant, a: Access, max: nat)
    requires WithinBudget(s, max)
    ensures WithinBudget(MeantAfter(s, a, max), max)
  {
    match a
    case Put(path, buf, offset, junk) =>
      WriteAsMeant(s, max, Item(path, Blended(DataOf(s.items, path), offset, buf, junk)));
    case Get(path) => TotalOfLooked(State(s.items, 0), path);
    case Move(path, newpath) => TotalOfRenamed(State(s.items, 0), path, newpath);
  }

  lemma {:induction false} RunStaysWithinBudget(s: Meant, accesses: seq<Access>, max: nat)
    requires WithinBudget(s, max)
    ensures WithinBudget(MeantRun(s, accesses, max), max)
    decreases |accesses|
  {
    if accesses != [] {
      AccessStaysWithinBudget(s, accesses[0], max);
      RunStaysWithinBudget(MeantAfter(s, accesses[0], max), accesses[1..], max);
    }
  }

  /** Over every run from the empty cache the counter is the sum of the entries and within the budget. */
  lemma EveryRunIsWithinBudget(accesses: seq<Access>, max: nat)
    ensures var r := MeantRun(Meant([], 0), accesses, max); r.cur == Total(r.items) <= max
  {
    RunStaysWithinBudget(Meant([], 0), accesses, max);
  }

  // ------------------------------------------------------------------ the code against what is meant

  /** What a write by the accounting as meant makes of what is cached, the counter being right. */
  function MeantItems(items: seq<Item>, max: nat, path: string, buf: Bytes, offset: nat, junk: nat -> byte): seq<Item> {
    WriteAttempted(Meant(items, Total(items)), max, path, buf, offset, junk).next.items
  }

  /** The entry grows and the cache with it beyond the budget. */
  predicate Overflows(items: seq<Item>, max: nat, path: string, end: nat) {
    end > |DataOf(items, path)| && Total(items) - |DataOf(items, path)| + end > max
  }

  lemma MeantItemsAre(items: seq<Item>, max: nat, path: string, buf: Bytes, offset: nat, junk: nat -> byte)
    ensures var meant, rest := MeantItems(items, max, path, buf, offset, junk), Rest(items, path);
      if !Overflows(items, max, path, offset + |buf|) then
        meant == rest + [Item(path, Blended(DataOf(items, path), offset, buf, junk))]
      else if offset + |buf| > max then meant == []
      else 0 < |meant| <= |rest|
  {
    var rest, size := Rest(items, path), Total(items) - |DataOf(items, path)| + offset + |buf| - max;
    TotalOfRest(items, path);
    FreedAllIffTooMuch(rest, Total(items), size);
    FreedIsPrefix(rest, Total(items), size);
  }

  /**
   A write does what is meant, the meant counter being right, if and only if it is refused and the
   entry grows and alone exceeds the budget, or it is accepted and the cache does not overflow.
   */
  lemma WrittenIsMeantIff(s: State, evicted: nat, max: nat, path: string, buf: Bytes, offset: nat, junk: nat -> byte)
    requires CountsEvictions(s, evicted) && |DataOf(s.items, path)| < HALF
    requires evicted < HALF && max < HALF && offset + |buf| < HALF
    ensures Written(s, max, path, buf, offset, junk).items == MeantItems(s.items, max, path, buf, offset, junk) <==>
      if s.items != [] && Outgrows(evicted, max, |DataOf(s.items, path)|, offset + |buf|) then
        offset + |buf| > max && offset + |buf| > |DataOf(s.items, path)|
      else !Overflows(s.items, max, path, offset + |buf|)
  {
    TotalOfRest(s.items, path);
    RefusesIffOutgrows(s, evicted, max, path, offset + |buf|);
    MeantItemsAre(s.items, max, path, buf, offset, junk);
    if !Refuses(s, max, path, offset + |buf|) {
      assert |Written(s, max, path, buf, offset, junk).items| == |Rest(s.items, path)| + 1;
    }
  }

  /**
   A budget of 2 GB as an `int` is negative: rewriting the head of a cached file, which needs no
   room at all, is refused and empties the cache.
   */
  lemma RewriteCanBeRefused(path: string, data: Bytes, buf: Bytes, junk: nat -> byte)
    requires 0 < |buf| < |data| < INT_LIMIT
    ensures var s := State([Item(path, data)], 0);
      && Written(s, INT_LIMIT, path, buf, 0, junk).items == []
      && MeantItems(s.items, INT_LIMIT, path, buf, 0, junk) == [Item(path, Blended(data, 0, buf, junk))]
  {
    var s := State([Item(path, data)], 0);
    assert IndexOf(s.items, path) == 0 && DataOf(s.items, path) == data && Rest(s.items, path) == [];
    RefusesIffOutgrows(s, 0, INT_LIMIT, path, |buf|);
    assert Total(s.items) == |data|;
    MeantItemsAre(s.items, INT_LIMIT, path, buf, 0, junk);
  }

  /** Once 2 GB have been evicted, a write that adds one byte to an almost empty cache is refused. */
  lemma AppendCanBeRefused(path: string, data: Bytes, b: byte, junk: nat -> byte)
    requires |data| + 1 < 0x10_0000
    ensures var s := State([Item(path, data)], ToSize(0 - INT_LIMIT));
      && CountsEvictions(s, INT_LIMIT)
      && Written(s, 0x10_0000, path, [b], |data|, junk).items == []
      && MeantItems(s.items, 0x10_0000, path, [b], |data|, junk) == [Item(path, Blended(data, |data|, [b], junk))]
  {
    var s := State([Item(path, data)], ToSize(0 - INT_LIMIT));
    assert IndexOf(s.items, path) == 0 && DataOf(s.items, path) == data && Rest(s.items, path) == [];
    RefusesIffOutgrows(s, INT_LIMIT, 0x10_0000, path, |data| + 1);
    assert Total(s.items) == |data|;
    MeantItemsAre(s.items, 0x10_0000, path, [b], |data|, junk);
  }
}
