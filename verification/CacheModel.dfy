/**
 The client cache as a sequence of entries, the oldest first, with the accounting of
 client/client_cache.c as written: `cur_size` is a 64-bit unsigned number that is decreased by
 evictions and never increased, and `get_space` takes a 32-bit signed number that its loop does
 not change.
 */
module CacheModel {
  import opened Octets
  import opened Wire

  datatype Item = Item(path: string, data: Bytes)
  datatype State = State(items: seq<Item>, cur: nat)

  const SIZE_LIMIT: int := 0x1_0000_0000_0000_0000

  function ToSize(x: int): (r: nat)
    ensures r < SIZE_LIMIT
  {
    x % SIZE_LIMIT
  }

  function ToInt(n: nat): int {
    var low := n % (2 * INT_LIMIT);
    if low < INT_LIMIT then low else low - 2 * INT_LIMIT
  }

  function Total(items: seq<Item>): nat {
    if items == [] then 0 else |items[0].data| + Total(items[1..])
  }

  /** The first entry with this path, or the number of entries. */
  function IndexOf(items: seq<Item>, path: string): (k: nat)
    ensures k <= |items|
    ensures forall j | 0 <= j < k :: items[j].path != path
    ensures k < |items| ==> items[k].path == path
  {
    if items == [] || items[0].path == path then 0 else 1 + IndexOf(items[1..], path)
  }

  predicate Cached(items: seq<Item>, path: string) {
    IndexOf(items, path) < |items|
  }

  function DataOf(items: seq<Item>, path: string): Bytes {
    if Cached(items, path) then items[IndexOf(items, path)].data else []
  }

  function Rest(items: seq<Item>, path: string): seq<Item> {
    if Cached(items, path) then items[..IndexOf(items, path)] + items[IndexOf(items, path) + 1..] else items
  }

  /** The buffer after a write; what lies between its old end and the offset is left as it comes. */
  function Blended(was: Bytes, offset: nat, buf: Bytes, junk: nat -> byte): Bytes {
    seq(offset, j requires 0 <= j < offset => if j < |was| then was[j] else junk(j)) + buf
  }

  /** `cache_write` gives up: the computed shortage, as an `int`, is positive. */
  predicate Refused(cur: nat, max: nat, was: nat, end: nat) {
    var grow := ToSize(end - was);
    grow > 0 && ToSize(cur + grow) > max && ToInt(ToSize(cur + grow - max)) > 0
  }

  predicate Refuses(s: State, max: nat, path: string, end: nat) {
    s.items != [] && Refused(s.cur, max, |DataOf(s.items, path)|, end)
  }

  /** A refused write leaves an empty cache, an accepted one moves the entry to the newest end. */
  function Written(s: State, max: nat, path: string, buf: Bytes, offset: nat, junk: nat -> byte): State {
    if Refuses(s, max, path, offset + |buf|) then State([], ToSize(s.cur - Total(s.items)))
    else s.(items := Rest(s.items, path) + [Item(path, Blended(DataOf(s.items, path), offset, buf, junk))])
  }

  /** A read that finds its entry moves it, whether or not the entry is long enough. */
  function Looked(s: State, path: string): State {
    if Cached(s.items, path) then s.(items := Rest(s.items, path) + [Item(path, DataOf(s.items, path))]) else s
  }

  function Hit(s: State, path: string, size: nat, offset: nat): Option<Bytes> {
    if Cached(s.items, path) && offset + size <= |DataOf(s.items, path)|
    then Some(DataOf(s.items, path)[offset..offset + size]) else None
  }

  function Renamed(s: State, path: string, newpath: string): State {
    if Cached(s.items, path) then
      var k := IndexOf(s.items, path);
      s.(items := s.items[k := s.items[k].(path := newpath)])
    else s
  }

  // ------------------------------------------------------------------ entries and totals

  lemma {:induction false} TotalOfConcat(a: seq<Item>, b: seq<Item>)
    ensures Total(a + b) == Total(a) + Total(b)
  {
    if a == [] {
      assert a + b == b;
    } else {
      assert (a + b)[1..] == a[1..] + b;
      TotalOfConcat(a[1..], b);
    }
  }

  lemma TotalOfRest(items: seq<Item>, path: string)
    ensures Total(items) == Total(Rest(items, path)) + |DataOf(items, path)|
  {
    if Cached(items, path) {
      var k := IndexOf(items, path);
      assert items == items[..k] + [items[k]] + items[k + 1..];
      TotalOfConcat(items[..k] + [items[k]], items[k + 1..]);
      TotalOfConcat(items[..k], [items[k]]);
      TotalOfConcat(items[..k], items[k + 1..]);
    }
  }

  lemma TotalOfWritten(s: State, max: nat, path: string, buf: Bytes, offset: nat, junk: nat -> byte)
    requires !Refuses(s, max, path, offset + |buf|)
    ensures Total(Written(s, max, path, buf, offset, junk).items)
      == Total(s.items) - |DataOf(s.items, path)| + offset + |buf|
  {
    TotalOfRest(s.items, path);
    var item := Item(path, Blended(DataOf(s.items, path), offset, buf, junk));
    TotalOfConcat(Rest(s.items, path), [item]);
    assert Total([item]) == |item.data|;
  }

  /** What a write leaves: nothing if it is refused, else the entry as the newest and the others as they were. */
  lemma WrittenIs(s: State, max: nat, path: string, buf: Bytes, offset: nat, junk: nat -> byte)
    ensures var after, k := Written(s, max, path, buf, offset, junk).items, IndexOf(s.items, path);
      if Refuses(s, max, path, offset + |buf|) then after == [] else
        && after != [] && Written(s, max, path, buf, offset, junk).cur == s.cur
        && after[..|after| - 1] == (if k < |s.items| then s.items[..k] + s.items[k + 1..] else s.items)
        && var e := after[|after| - 1];
           && e.path == path && |e.data| == offset + |buf| && e.data[offset..] == buf
           && forall b | 0 <= b < offset && k < |s.items| && b < |s.items[k].data| :: e.data[b] == s.items[k].data[b]
  {
    var entry := Item(path, Blended(DataOf(s.items, path), offset, buf, junk));
    assert (Rest(s.items, path) + [entry])[..|Rest(s.items, path)|] == Rest(s.items, path);
  }

  ghost predicate UniquePaths(items: seq<Item>) {
    forall a, b | 0 <= a < b < |items| :: items[a].path != items[b].path
  }

  lemma RestIsUnique(items: seq<Item>, path: string)
    requires UniquePaths(items)
    ensures UniquePaths(Rest(items, path)) && !Cached(Rest(items, path), path)
    ensures forall x | x in Rest(items, path) :: x.path != path
  {
  }

  /** The entries of all other files, in their order. */
  function Others(items: seq<Item>, path: string): seq<Item> {
    if items == [] then []
    else (if items[0].path == path then [] else [items[0]]) + Others(items[1..], path)
  }

  lemma {:induction false} OthersOfConcat(a: seq<Item>, b: seq<Item>, path: string)
    ensures Others(a + b, path) == Others(a, path) + Others(b, path)
  {
    if a == [] {
      assert a + b == b;
    } else {
      assert (a + b)[1..] == a[1..] + b;
      OthersOfConcat(a[1..], b, path);
    }
  }

  lemma {:induction false} OthersAreAll(items: seq<Item>, path: string)
    requires forall x | x in items :: x.path != path
    ensures Others(items, path) == items
  {
    if items != [] {
      OthersAreAll(items[1..], path);
    }
  }

  lemma OthersAfterMove(items: seq<Item>, path: string, item: Item)
    requires UniquePaths(items) && item.path == path
    ensures Others(Rest(items, path) + [item], path) == Others(items, path)
  {
    RestIsUnique(items, path);
    OthersOfConcat(Rest(items, path), [item], path);
    if Cached(items, path) {
      var k := IndexOf(items, path);
      assert items == items[..k] + [items[k]] + items[k + 1..];
      OthersOfConcat(items[..k] + [items[k]], items[k + 1..], path);
      OthersOfConcat(items[..k], [items[k]], path);
      OthersOfConcat(items[..k], items[k + 1..], path);
    }
  }

  /** What a read finds and what a write accepts becomes the newest entry; the others keep their order. */
  lemma UsedBecomesNewest(s: State, max: nat, path: string, buf: Bytes, offset: nat, junk: nat -> byte)
    requires UniquePaths(s.items)
    ensures Others(Looked(s, path).items, path) == Others(s.items, path)
    ensures Cached(s.items, path) ==>
      var r := Looked(s, path).items;
      r != [] && r[|r| - 1] in s.items && r[|r| - 1].path == path
    ensures !Refuses(s, max, path, offset + |buf|) ==>
      var r := Written(s, max, path, buf, offset, junk).items;
      && Others(r, path) == Others(s.items, path)
      && r != [] && r[|r| - 1].path == path && |r[|r| - 1].data| == offset + |buf|
  {
    OthersAfterMove(s.items, path, Item(path, DataOf(s.items, path)));
    OthersAfterMove(s.items, path, Item(path, Blended(DataOf(s.items, path), offset, buf, junk)));
  }

  lemma {:induction false} IndexOfNewest(rest: seq<Item>, item: Item)
    requires forall x | x in rest :: x.path != item.path
    ensures IndexOf(rest + [item], item.path) == |rest|
  {
    if rest != [] {
      assert (rest + [item])[1..] == rest[1..] + [item];
      IndexOfNewest(rest[1..], item);
    }
  }

  /** When a read hits, and what it gives. */
  lemma HitIff(s: State, path: string, size: nat, offset: nat)
    ensures var r, k := Hit(s, path, size, offset), IndexOf(s.items, path);
      && (r.Some? <==> k < |s.items| && offset + size <= |s.items[k].data|)
      && (r.Some? ==> |r.value| == size && forall b | 0 <= b < size :: r.value[b] == s.items[k].data[offset + b])
  {
  }

  /** After an accepted write a read of the same bytes hits and gives what was written. */
  lemma WrittenIsHit(s: State, max: nat, path: string, buf: Bytes, offset: nat, junk: nat -> byte)
    requires UniquePaths(s.items) && !Refuses(s, max, path, offset + |buf|)
    ensures Hit(Written(s, max, path, buf, offset, junk), path, |buf|, offset) == Some(buf)
  {
    var entry := Item(path, Blended(DataOf(s.items, path), offset, buf, junk));
    RestIsUnique(s.items, path);
    IndexOfNewest(Rest(s.items, path), entry);
    assert entry.data[offset..offset + |buf|] == buf;
  }

  lemma WritesAndReadsKeepPathsUnique(s: State, max: nat, path: string, buf: Bytes, offset: nat, junk: nat -> byte)
    requires UniquePaths(s.items)
    ensures UniquePaths(Written(s, max, path, buf, offset, junk).items)
    ensures UniquePaths(Looked(s, path).items)
  {
    RestIsUnique(s.items, path);
  }

  /** A rename onto a path that another entry has leaves two entries with one path. */
  lemma RenameKeepsPathsUniqueIff(s: State, path: string, newpath: string)
    requires UniquePaths(s.items)
    ensures UniquePaths(Renamed(s, path, newpath).items)
      <==> !Cached(s.items, path) || newpath == path || !Cached(s.items, newpath)
  {
    var k, l := IndexOf(s.items, path), IndexOf(s.items, newpath);
    var r := Renamed(s, path, newpath).items;
    if Cached(s.items, path) && newpath != path && Cached(s.items, newpath) {
      assert r[k].path == r[l].path && k != l;
    }
  }

  // ------------------------------------------------------------------ the accounting as written

  lemma ToSizeOfDifference(x: int, y: int)
    ensures ToSize(ToSize(x) - y) == ToSize(x - y)
  {
  }

  lemma ToSizeNear(x: int)
    requires -SIZE_LIMIT <= x < 2 * SIZE_LIMIT
    ensures ToSize(x) == if x < 0 then x + SIZE_LIMIT else if x < SIZE_LIMIT then x else x - SIZE_LIMIT
  {
  }

  /** The counter never holds what is cached: it is minus what refused writes have evicted. */
  ghost predicate CountsEvictions(s: State, evicted: nat) {
    s.cur == ToSize(0 - evicted)
  }

  /** The low 32 bits of a number, read as an `int`. */
  function LowInt(x: int): (r: int)
    ensures -INT_LIMIT <= r < INT_LIMIT
  {
    var low := x % (2 * INT_LIMIT);
    if low < INT_LIMIT then low else low - 2 * INT_LIMIT
  }

  lemma RemainderIs(x: int, q: int, r: int)
    requires x == q * (2 * INT_LIMIT) + r && 0 <= r < 2 * INT_LIMIT
    ensures x % (2 * INT_LIMIT) == r
  {
  }

  lemma LowIntOfSize(x: int)
    ensures ToInt(ToSize(x)) == LowInt(x)
  {
    var n := ToSize(x);
    var q, high, low := x / SIZE_LIMIT, n / (2 * INT_LIMIT), n % (2 * INT_LIMIT);
    assert x == n + q * SIZE_LIMIT;
    RemainderIs(x, q * (2 * INT_LIMIT) + high, low);
  }

  lemma ToSizeOfSum(x: int, y: int)
    ensures ToSize(ToSize(x) + y) == ToSize(x + y)
  {
  }

  /**
   The entry changes its size, and the growth beyond all that was ever evicted is not between 0
   and the budget (modulo 2^64), and by how much it exceeds the budget is positive as an `int`.
   */
  predicate Outgrows(evicted: nat, max: nat, was: nat, end: nat) {
    var growth := end - was - evicted;
    && end != was
    && (if growth < 0 then growth + SIZE_LIMIT > max else growth > max)
    && LowInt(growth - max) > 0
  }

  const HALF: int := SIZE_LIMIT / 2

  lemma CountersMeet(evicted: nat, max: nat, was: nat, end: nat)
    ensures var growth := end - was - evicted;
      var cur, grow := ToSize(0 - evicted), ToSize(end - was);
      ToSize(cur + grow) == ToSize(growth) && ToSize(cur + grow - max) == ToSize(growth - max)
  {
    var cur, grow := ToSize(0 - evicted), ToSize(end - was);
    ToSizeOfSum(0 - evicted, grow);
    ToSizeOfSum(end - was, 0 - evicted);
    ToSizeOfSum(0 - evicted, grow - max);
    ToSizeOfSum(end - was, 0 - evicted - max);
  }

  /** When a write is refused, for all sizes that an `off_t` can hold. */
  lemma RefusedIffOutgrows(evicted: nat, max: nat, was: nat, end: nat)
    requires evicted < HALF && max < HALF && was < HALF && end < HALF
    ensures Refused(ToSize(0 - evicted), max, was, end) <==> Outgrows(evicted, max, was, end)
  {
    CountersMeet(evicted, max, was, end);
    LowIntOfSize(end - was - evicted - max);
    ToSizeNear(end - was - evicted);
    ToSizeNear(end - was);
  }

  /**
   When a write is refused while all sizes together are below 2 GB: not when the cache holds too
   much, but when the one entry grows by more than the budget and everything ever evicted.
   */
  lemma SmallRefusedIffEntryOutgrows(evicted: nat, max: nat, was: nat, end: nat)
    requires evicted + max + was + end < INT_LIMIT
    ensures Refused(ToSize(0 - evicted), max, was, end) <==> end - was > max + evicted
  {
    RefusedIffOutgrows(evicted, max, was, end);
  }

  datatype Access =
    | Put(path: string, buf: Bytes, offset: nat, junk: nat -> byte)
    | Get(path: string)
    | Move(path: string, newpath: string)

  datatype Ledger = Ledger(s: State, evicted: nat)

  function Accessed(l: Ledger, a: Access, max: nat): Ledger {
    match a
    case Put(path, buf, offset, junk) =>
      Ledger(Written(l.s, max, path, buf, offset, junk),
             if Refuses(l.s, max, path, offset + |buf|) then l.evicted + Total(l.s.items) else l.evicted)
    case Get(path) => l.(s := Looked(l.s, path))
    case Move(path, newpath) => l.(s := Renamed(l.s, path, newpath))
  }

  function Replayed(l: Ledger, accesses: seq<Access>, max: nat): Ledger
    decreases |accesses|
  {
    if accesses == [] then l else Replayed(Accessed(l, accesses[0], max), accesses[1..], max)
  }

  lemma AccessCountsEvictions(l: Ledger, a: Access, max: nat)
    requires CountsEvictions(l.s, l.evicted)
    ensures CountsEvictions(Accessed(l, a, max).s, Accessed(l, a, max).evicted)
  {
    ToSizeOfDifference(0 - l.evicted, Total(l.s.items));
    assert 0 - l.evicted - Total(l.s.items) == 0 - (l.evicted + Total(l.s.items));
  }

  /** Over every run from the empty cache: the counter is minus the evicted bytes, zero until a write is refused. */
  lemma {:induction false} EveryRunCountsEvictions(l: Ledger, accesses: seq<Access>, max: nat)
    requires CountsEvictions(l.s, l.evicted)
    ensures var r := Replayed(l, accesses, max); CountsEvictions(r.s, r.evicted)
    decreases |accesses|
  {
    if accesses != [] {
      AccessCountsEvictions(l, accesses[0], max);
      EveryRunCountsEvictions(Accessed(l, accesses[0], max), accesses[1..], max);
    }
  }

  lemma RefusesIffOutgrows(s: State, evicted: nat, max: nat, path: string, end: nat)
    requires CountsEvictions(s, evicted) && evicted < HALF && max < HALF && end < HALF
    requires |DataOf(s.items, path)| < HALF
    ensures Refuses(s, max, path, end) <==> s.items != [] && Outgrows(evicted, max, |DataOf(s.items, path)|, end)
  {
    RefusedIffOutgrows(evicted, max, |DataOf(s.items, path)|, end);
  }

  /**
   The budget after a write, as written: kept exactly if the write is refused, which empties the
   cache, or if the bytes happen to fit; nothing is evicted to make them fit.
   */
  lemma WriteKeepsBudgetIff(s: State, evicted: nat, max: nat, path: string, buf: Bytes, offset: nat, junk: nat -> byte)
    requires CountsEvictions(s, evicted) && evicted < HALF && max < HALF && offset + |buf| < HALF
    requires |DataOf(s.items, path)| < HALF
    ensures Total(Written(s, max, path, buf, offset, junk).items) <= max <==>
      || (s.items != [] && Outgrows(evicted, max, |DataOf(s.items, path)|, offset + |buf|))
      || Total(s.items) - |DataOf(s.items, path)| + offset + |buf| <= max
  {
    RefusesIffOutgrows(s, evicted, max, path, offset + |buf|);
    if !Refuses(s, max, path, offset + |buf|) {
      TotalOfWritten(s, max, path, buf, offset, junk);
    } else {
      TotalOfRest(s.items, path);
    }
  }

  /** Two files of the size of the budget are both kept. */
  lemma BudgetCanBeExceeded(max: nat, one: Bytes, two: Bytes, junk: nat -> byte)
    requires |one| == |two| == max && 0 < max < HALF
    ensures var s1 := Written(State([], 0), max, "/a", one, 0, junk);
      Total(Written(s1, max, "/b", two, 0, junk).items) == 2 * max > max
  {
    var s0 := State([], 0);
    TotalOfWritten(s0, max, "/a", one, 0, junk);
    var s1 := Written(s0, max, "/a", one, 0, junk);
    assert s1.items == [Item("/a", Blended([], 0, one, junk))];
    RefusedIffOutgrows(0, max, 0, max);
    TotalOfWritten(s1, max, "/b", two, 0, junk);
  }
}
