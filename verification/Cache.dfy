/**
 The client cache in memory: a doubly linked list of entries between two sentinels, relinked in
 place. Every method is proved to make the step of `CacheModel`, which is where its properties
 are stated.
 */
module Cache {
  import opened Octets
  import opened Wire
  import opened CacheModel

  class Entry {
    var data: Bytes
    var path: string
    var older: Entry?
    var newer: Entry?

    constructor (path: string)
      ensures this.path == path && data == [] && older == null && newer == null
    {
      this.path := path;
      data, older, newer := [], null, null;
    }
  }

  ghost predicate Distinct(ns: seq<Entry>) {
    forall a, b | 0 <= a < b < |ns| :: ns[a] != ns[b]
  }

  /** Each node points at the next one, and the next one back at it. */
  ghost predicate Chain(ns: seq<Entry>)
    reads ns
  {
    forall k | 0 <= k < |ns| - 1 :: ns[k].newer == ns[k + 1] && ns[k + 1].older == ns[k]
  }

  ghost function ItemsOf(es: seq<Entry>): (r: seq<Item>)
    reads es
    ensures |r| == |es| && forall k | 0 <= k < |es| :: r[k] == Item(es[k].path, es[k].data)
  {
    seq(|es|, k requires 0 <= k < |es| reads es => Item(es[k].path, es[k].data))
  }

  lemma IndexOfIs(items: seq<Item>, path: string, k: nat)
    requires k <= |items| && (forall j | 0 <= j < k :: items[j].path != path)
    requires k < |items| ==> items[k].path == path
    ensures IndexOf(items, path) == k
  {
  }

  lemma ShorterIsDistinct(ns: seq<Entry>, k: nat)
    requires Distinct(ns) && k < |ns|
    ensures Distinct(ns[..k] + ns[k + 1..]) && ns[k] !in ns[..k] + ns[k + 1..]
  {
  }

  function WithoutOldest(s: State): State
    requires s.items != []
  {
    State(s.items[1..], ToSize(s.cur - |s.items[0].data|))
  }

  lemma WithoutFirst<T>(s: seq<T>)
    requires s != []
    ensures s[..0] + s[1..] == s[1..]
  {
  }

  /** The counter after evicting all entries one by one. */
  ghost function Charged(s: State): nat
    decreases |s.items|
  {
    if s.items == [] then s.cur else Charged(WithoutOldest(s))
  }

  lemma {:induction false} ChargedForAll(s: State)
    requires s.cur < SIZE_LIMIT
    ensures Charged(s) == ToSize(s.cur - Total(s.items))
    decreases |s.items|
  {
    if s.items != [] {
      ChargedForAll(WithoutOldest(s));
      ToSizeOfDifference(s.cur - |s.items[0].data|, Total(s.items[1..]));
    }
  }

  /** The neighbours of node `k` point at each other. */
  method Bypass(e: Entry, ghost ns: seq<Entry>, ghost k: nat)
    requires 0 < k < |ns| - 1 && Distinct(ns) && Chain(ns) && e == ns[k]
    modifies ns
    ensures Chain(ns[..k] + ns[k + 1..])
    ensures forall n | n in ns :: n.data == old(n.data) && n.path == old(n.path)
    ensures ns[0].newer != null && ns[|ns| - 1].newer == old(ns[|ns| - 1].newer)
  {
    assert ns[k - 1].newer == e && ns[k].newer == ns[k + 1] && ns[k].older == ns[k - 1] && ns[k + 1].older == e;
    assert ns[0].newer == ns[1];
    e.older.newer := e.newer;
    e.newer.older := e.older;
    ghost var ms := ns[..k] + ns[k + 1..];
    forall j | 0 <= j < |ms| - 1 ensures ms[j].newer == ms[j + 1] && ms[j + 1].older == ms[j] {
      if j < k - 1 {
        assert ms[j] == ns[j] && ms[j + 1] == ns[j + 1];
      } else if j >= k {
        assert ms[j] == ns[j + 1] && ms[j + 1] == ns[j + 2];
      }
    }
  }

  /** What `cache_write` makes of the list from which it took the old data `was`. */
  function PutBackState(
    s: State, max: nat, path: string, was: Bytes, buf: Bytes, offset: nat, junk: nat -> byte): State
  {
    if Refused(s.cur, max, |was|, offset + |buf|) then State([], ToSize(s.cur - Total(s.items) - |was|))
    else s.(items := s.items + [Item(path, Blended(was, offset, buf, junk))])
  }

  lemma PutBackIsWritten(s: State, max: nat, path: string, buf: Bytes, offset: nat, junk: nat -> byte)
    requires s.items != []
    ensures PutBackState(State(Rest(s.items, path), s.cur), max, path, DataOf(s.items, path), buf, offset, junk)
      == Written(s, max, path, buf, offset, junk)
    ensures Refuses(s, max, path, offset + |buf|) <==> Refused(s.cur, max, |DataOf(s.items, path)|, offset + |buf|)
  {
    TotalOfRest(s.items, path);
  }

  lemma WrittenFirst(s: State, max: nat, path: string, buf: Bytes, offset: nat, junk: nat -> byte)
    requires s.items == []
    ensures Written(s, max, path, buf, offset, junk) == State([Item(path, Blended([], offset, buf, junk))], s.cur)
    ensures !Refuses(s, max, path, offset + |buf|)
  {
  }

  class Cache {
    const oldest: Entry
    const newest: Entry
    const maxSize: nat
    var curSize: nat
    ghost var spine: seq<Entry>

    ghost function Nodes(): seq<Entry>
      reads this
    {
      [oldest] + spine + [newest]
    }

    /** Before the first write the sentinels are not linked. */
    ghost predicate Valid()
      reads this, oldest, newest, spine
    {
      && Distinct(Nodes()) && curSize < SIZE_LIMIT
      && oldest.path == "" && newest.path == "" && newest.newer == null
      && (forall e | e in spine :: e.path != "")
      && if oldest.newer == null then spine == [] && newest.older == null else Chain(Nodes())
    }

    ghost function View(): State
      reads this, spine
    {
      State(ItemsOf(spine), curSize)
    }

    lemma NodesApart()
      requires Valid()
      ensures oldest != newest
      ensures forall k | 0 <= k < |spine| :: spine[k] != oldest && spine[k] != newest
      ensures forall a, b | 0 <= a < b < |spine| :: spine[a] != spine[b]
    {
      assert Nodes()[0] == oldest && Nodes()[|spine| + 1] == newest;
      assert forall k | 0 <= k < |spine| :: Nodes()[k + 1] == spine[k];
    }

    constructor (size: nat, dim: nat)
      ensures Valid() && fresh(Nodes()) && maxSize == ToSize(size * dim) && View() == State([], 0)
    {
      oldest := new Entry("");
      newest := new Entry("");
      maxSize := ToSize(size * dim);
      curSize := 0;
      spine := [];
    }

    method Find(path: string) returns (e: Entry?, ghost k: nat)
      requires Valid() && path != ""
      ensures k == IndexOf(View().items, path)
      ensures if k < |spine| then e == spine[k] && oldest.newer != null else e == null
      ensures e != null <==> Cached(View().items, path)
      ensures e != null ==> e.path == path && e.data == DataOf(View().items, path)
    {
      e := oldest;
      ghost var m := 0;
      while e != null && e.path != path
        invariant if e == null then m == |Nodes()| else m < |Nodes()| && e == Nodes()[m]
        invariant forall j | 0 <= j < m :: Nodes()[j].path != path
        decreases |Nodes()| - m
      {
        assert Nodes()[|spine| + 1] == newest;
        assert oldest.newer == null ==> Nodes() == [oldest, newest];
        assert oldest.newer != null && m + 1 < |Nodes()| ==> e.newer == Nodes()[m + 1];
        e := e.newer;
        m := if e == null then |Nodes()| else m + 1;
      }
      k := if e == null then |spine| else m - 1;
      assert forall j | 0 <= j < k :: spine[j] == Nodes()[j + 1];
      IndexOfIs(View().items, path, k);
    }

    twostate lemma ItemsAfterInsert(e: Entry)
      requires spine == old(spine) + [e] && curSize == old(curSize)
      requires forall n | n in old(spine) :: n.data == old(n.data) && n.path == old(n.path)
      ensures View() == State(old(View()).items + [Item(e.path, e.data)], curSize)
    {
    }

    twostate lemma ItemsAfterUnlink(k: nat)
      requires k < |old(spine)| && spine == old(spine)[..k] + old(spine)[k + 1..] && curSize == old(curSize)
      requires forall n | n in old(spine) :: n.data == old(n.data) && n.path == old(n.path)
      ensures View() == State(old(View()).items[..k] + old(View()).items[k + 1..], curSize)
    {
    }

    twostate lemma ItemsAfterRename(k: nat)
      requires k < |spine| && spine == old(spine) && curSize == old(curSize)
      requires forall j | 0 <= j < |spine| :: spine[j].data == old(spine[j].data)
      requires forall j | 0 <= j < |spine| && j != k :: spine[j].path == old(spine[j].path)
      ensures View().items == old(View()).items[k := old(View()).items[k].(path := spine[k].path)]
    {
    }

    twostate lemma ValidAfterRename(k: nat)
      requires old(Valid()) && k < |spine| && spine == old(spine) && curSize == old(curSize)
      requires unchanged(oldest, newest) && spine[k].path != ""
      requires forall j | 0 <= j < |spine| ::
        spine[j].older == old(spine[j].older) && spine[j].newer == old(spine[j].newer)
      requires forall j | 0 <= j < |spine| && j != k :: spine[j].path == old(spine[j].path)
      ensures Valid()
    {
      if oldest.newer != null {
        forall j | 0 <= j < |Nodes()| - 1
          ensures Nodes()[j].newer == Nodes()[j + 1] && Nodes()[j + 1].older == Nodes()[j]
        {
          assert old(Nodes()[j].newer == Nodes()[j + 1] && Nodes()[j + 1].older == Nodes()[j]);
        }
      }
    }

    method InsertNew(e: Entry)
      requires Valid() && oldest.newer != null && e !in Nodes() && e.path != ""
      modifies this`spine, oldest, newest, spine, e
      ensures Valid() && oldest.newer != null && spine == old(spine) + [e]
      ensures View() == State(old(View()).items + [Item(e.path, e.data)], curSize)
      ensures e.data == old(e.data) && e.path == old(e.path)
    {
      ghost var ns := Nodes();
      ghost var l := |spine|;
      assert ns[l + 1] == newest;
      assert ns[l].newer == newest && newest.older == ns[l];
      e.newer := newest;
      newest.older.newer := e;
      e.older := newest.older;
      newest.older := e;
      spine := spine + [e];
      assert Nodes() == ns[..l + 1] + [e, newest];
      forall j | 0 <= j < l + 2
        ensures Nodes()[j].newer == Nodes()[j + 1] && Nodes()[j + 1].older == Nodes()[j]
      {
        assert j < l ==> old(ns[j].newer == ns[j + 1] && ns[j + 1].older == ns[j]);
      }
      ItemsAfterInsert(e);
    }

    /** Takes the entry at position `k` out of the list; the entry itself keeps its pointers. */
    method Unlink(e: Entry, ghost k: nat)
      requires Valid() && oldest.newer != null && k < |spine| && e == spine[k]
      modifies this`spine, oldest, newest, spine
      ensures Valid() && oldest.newer != null && spine == old(spine)[..k] + old(spine)[k + 1..]
      ensures View() == State(old(View()).items[..k] + old(View()).items[k + 1..], curSize)
      ensures e !in Nodes() && e.data == old(e.data) && e.path == old(e.path)
    {
      ghost var ns := Nodes();
      Bypass(e, ns, k + 1);
      spine := spine[..k] + spine[k + 1..];
      ShorterIsDistinct(ns, k + 1);
      assert Nodes() == ns[..k + 1] + ns[k + 2..];
      ItemsAfterUnlink(k);
    }

    /** The entry moves to the newest end. */
    method Touch(e: Entry, ghost k: nat)
      requires Valid() && oldest.newer != null && k < |spine| && e == spine[k]
      modifies this`spine, oldest, newest, spine
      ensures Valid() && oldest.newer != null && spine == old(spine)[..k] + old(spine)[k + 1..] + [e]
      ensures View() == State(old(View()).items[..k] + old(View()).items[k + 1..] + [old(View()).items[k]], curSize)
      ensures e.data == old(e.data) && e.path == old(e.path)
    {
      Unlink(e, k);
      InsertNew(e);
    }

    lemma FirstIsNext()
      requires Valid() && oldest.newer != null
      ensures oldest.newer == if spine == [] then newest else spine[0]
      ensures spine != [] ==> spine[0] != newest
    {
      assert Nodes()[0] == oldest && Nodes()[1] == if spine == [] then newest else spine[0];
      assert Nodes()[|spine| + 1] == newest;
    }

    method Discharge(bytes: nat)
      requires Valid()
      modifies this`curSize
      ensures Valid() && View() == State(old(View()).items, ToSize(old(curSize) - bytes))
    {
      curSize := ToSize(curSize - bytes);
    }

    method DropFirst(first: Entry)
      requires Valid() && oldest.newer != null && spine != [] && first == spine[0]
      modifies this`spine, oldest, newest, spine
      ensures Valid() && oldest.newer != null && spine == old(spine)[1..]
      ensures View() == State(old(View()).items[1..], curSize)
    {
      WithoutFirst(View().items);
      WithoutFirst(spine);
      Unlink(first, 0);
    }

    method EvictOldest()
      requires Valid() && oldest.newer != null && spine != []
      modifies this, oldest, newest, spine
      ensures Valid() && oldest.newer != null && spine == old(spine)[1..]
      ensures View() == WithoutOldest(old(View()))
    {
      FirstIsNext();
      var first := oldest.newer;
      assert View().items[0].data == first.data;
      Discharge(|first.data|);
      DropFirst(first);
    }

    /** The loop never changes the number it tests: nothing is evicted, or everything. */
    method GetSpace(size: int) returns (r: int)
      requires Valid() && oldest.newer != null
      modifies this, oldest, newest, spine
      ensures Valid() && oldest.newer != null
      ensures r == if size > 0 then -1 else 0
      ensures if size > 0 then View() == State([], Charged(old(View())))
              else View() == old(View()) && spine == old(spine)
    {
      ghost var s := View();
      while size > 0
        invariant Valid() && oldest.newer != null && s == View()
        invariant size <= 0 ==> s == old(View()) && spine == old(spine)
        invariant forall k | 0 <= k < |spine| :: spine[k] in old(spine)
        invariant Charged(s) == Charged(old(View()))
        decreases |spine|
      {
        FirstIsNext();
        if oldest.newer == newest {
          return -1;
        }
        EvictOldest();
        s := WithoutOldest(s);
      }
      r := 0;
    }

    /** Takes the entry for `path`, if there is one, out of the list and hands over its data. */
    method RemoveEntry(path: string) returns (data: Bytes)
      requires Valid() && oldest.newer != null && path != ""
      modifies this`spine, oldest, newest, spine
      ensures Valid() && oldest.newer != null
      ensures View() == State(Rest(old(View()).items, path), old(curSize))
      ensures data == DataOf(old(View()).items, path)
      ensures forall k | 0 <= k < |spine| :: spine[k] in old(spine)
    {
      var e, k := Find(path);
      data := [];
      if e != null {
        assert Rest(View().items, path) == View().items[..k] + View().items[k + 1..];
        data := e.data;
        Unlink(e, k);
      }
    }

    /** The first entry goes between the sentinels without a look at the budget. */
    method InsertFirst(e: Entry)
      requires Valid() && (oldest.newer == null || oldest.newer == newest) && e !in Nodes() && e.path != ""
      modifies this`spine, oldest, newest, e
      ensures Valid() && oldest.newer != null && spine == [e] && old(spine) == []
      ensures e.data == old(e.data) && e.path == old(e.path)
    {
      NodesApart();
      if oldest.newer != null {
        FirstIsNext();
      }
      oldest.newer := e;
      newest.older := e;
      e.newer := newest;
      e.older := oldest;
      spine := [e];
      assert Nodes() == [oldest, e, newest];
    }

    /** Asks for the bytes by which the entry grows; the entry itself is already out of the list. */
    method MakeRoom(was: nat, end: nat) returns (refused: bool)
      requires Valid() && oldest.newer != null
      modifies this, oldest, newest, spine
      ensures Valid() && oldest.newer != null
      ensures refused <==> Refused(old(curSize), maxSize, was, end)
      ensures if refused then View() == State([], ToSize(old(curSize) - Total(old(View()).items) - was))
              else View() == old(View()) && spine == old(spine)
    {
      ghost var s := View();
      var newSize := ToSize(end - was);
      refused := false;
      if newSize > 0 && ToSize(curSize + newSize) > maxSize {
        var r := GetSpace(ToInt(ToSize(curSize + newSize - maxSize)));
        if r < 0 {
          ChargedForAll(s);
          ToSizeOfDifference(s.cur - Total(s.items), was);
          Discharge(was);
          refused := true;
        }
      }
    }

    /** A write to a cache with entries, once `RemoveEntry` has taken the one for `path` out. */
    method PutBack(entry: Entry, path: string, was: Bytes, buf: Bytes, offset: nat, junk: nat -> byte) returns (r: int)
      requires Valid() && oldest.newer != null && entry !in Nodes() && entry.path == path != "" && entry.data == []
      modifies this, oldest, newest, spine, entry
      ensures Valid()
      ensures r == if Refused(old(curSize), maxSize, |was|, offset + |buf|) then -1 else 0
      ensures View() == PutBackState(old(View()), maxSize, path, was, buf, offset, junk)
    {
      ghost var s := View();
      var refused := MakeRoom(|was|, offset + |buf|);
      if refused {
        return -1;
      }
      entry.data := Blended(was, offset, buf, junk);
      assert View() == s;
      InsertNew(entry);
      r := 0;
    }

    method Rewrite(entry: Entry, path: string, buf: Bytes, offset: nat, junk: nat -> byte) returns (r: int)
      requires Valid() && oldest.newer != null && entry !in Nodes() && entry.path == path != "" && entry.data == []
      modifies this, oldest, newest, spine, entry
      ensures Valid()
      ensures var items := old(View()).items;
        && View() == PutBackState(
             State(Rest(items, path), old(curSize)), maxSize, path, DataOf(items, path), buf, offset, junk)
        && r == if Refused(old(curSize), maxSize, |DataOf(items, path)|, offset + |buf|) then -1 else 0
    {
      var was := RemoveEntry(path);
      r := PutBack(entry, path, was, buf, offset, junk);
    }

    method WriteFirst(entry: Entry, buf: Bytes, offset: nat, junk: nat -> byte)
      requires Valid() && (oldest.newer == null || oldest.newer == newest) && entry !in Nodes() && entry.path != ""
      modifies this`spine, oldest, newest, entry
      ensures Valid() && old(View()).items == []
      ensures View() == State([Item(old(entry.path), Blended([], offset, buf, junk))], old(curSize))
    {
      entry.data := Blended([], offset, buf, junk);
      InsertFirst(entry);
    }

    method CacheWrite(path: string, buf: Bytes, offset: nat, junk: nat -> byte) returns (r: int)
      requires Valid() && path != ""
      modifies this, oldest, newest, spine
      ensures Valid()
      ensures View() == Written(old(View()), maxSize, path, buf, offset, junk)
      ensures r == if Refuses(old(View()), maxSize, path, offset + |buf|) then -1 else 0
      ensures r != 0 ==> View().items == []
      ensures r == 0 ==>
        var items, after := old(View()).items, View().items;
        var k := IndexOf(items, path);
        && after != [] && curSize == old(curSize)
        && after[..|after| - 1] == (if k < |items| then items[..k] + items[k + 1..] else items)
        && var e := after[|after| - 1];
           && e.path == path && |e.data| == offset + |buf| && e.data[offset..] == buf
           && forall b | 0 <= b < offset && k < |items| && b < |items[k].data| :: e.data[b] == items[k].data[b]
    {
      ghost var s := View();
      WrittenIs(s, maxSize, path, buf, offset, junk);
      var entry := new Entry(path);
      if oldest.newer == null || oldest.newer == newest {
        WriteFirst(entry, buf, offset, junk);
        WrittenFirst(s, maxSize, path, buf, offset, junk);
        return 0;
      }
      NotEmpty();
      PutBackIsWritten(s, maxSize, path, buf, offset, junk);
      r := Rewrite(entry, path, buf, offset, junk);
    }

    lemma NotEmpty()
      requires Valid() && oldest.newer != null && oldest.newer != newest
      ensures View().items != []
    {
      FirstIsNext();
    }

    method CacheRead(path: string, size: nat, offset: nat) returns (res: Option<Bytes>)
      requires Valid() && path != ""
      modifies this`spine, oldest, newest, spine
      ensures Valid() && forall n | n in Nodes() :: n in old(Nodes())
      ensures View() == Looked(old(View()), path)
      ensures res == Hit(old(View()), path, size, offset)
      ensures var items := old(View()).items;
        var k := IndexOf(items, path);
        && (res.Some? <==> k < |items| && offset + size <= |items[k].data|)
        && (res.Some? ==> |res.value| == size && forall b | 0 <= b < size :: res.value[b] == items[k].data[offset + b])
        && View().items == if k < |items| then items[..k] + items[k + 1..] + [items[k]] else items
    {
      var e, k := Find(path);
      if e == null {
        return None;
      }
      Touch(e, k);
      if |e.data| < offset + size {
        return None;
      }
      res := Some(e.data[offset..offset + size]);
    }

    method CacheRename(path: string, newpath: string) returns (r: int)
      requires Valid() && path != "" && newpath != ""
      modifies spine
      ensures Valid() && View() == Renamed(old(View()), path, newpath)
      ensures r == if Cached(old(View()).items, path) then 1 else -1
      ensures var items := old(View()).items;
        var k := IndexOf(items, path);
        && (r == 1 <==> k < |items|) && |View().items| == |items| && curSize == old(curSize)
        && forall j | 0 <= j < |items| ::
             View().items[j] == if j == k then Item(newpath, items[j].data) else items[j]
    {
      var e, k := Find(path);
      if e == null {
        return -1;
      }
      NodesApart();
      e.path := newpath;
      ValidAfterRename(k);
      ItemsAfterRename(k);
      r := 1;
    }
  }
}
