/**
 The packed directory listing: a count, a table of offsets and the NUL-terminated names one after
 the other. `ServerReaddir` fills the buffer, `PayloadLength` is what the dispatcher computes
 from it again, and `ClientReaddir` hands the names to the caller one by one.
 */
module Listing {
  import opened Octets
  import opened Wire

  /** Where name `k` starts: behind the count, the table and the names before it. */
  function Start(names: seq<Bytes>, k: nat): (r: nat)
    requires k <= |names|
    ensures r >= 4 * (|names| + 1)
  {
    if k == 0 then 4 * (|names| + 1) else Start(names, k - 1) + |names[k - 1]| + 1
  }

  lemma {:induction false} StartGrows(names: seq<Bytes>, j: nat, k: nat)
    requires j <= k <= |names|
    ensures Start(names, j) <= Start(names, k)
  {
    if j < k {
      StartGrows(names, j, k - 1);
    }
  }

  function PackedSize(names: seq<Bytes>): nat {
    if names == [] then 5 else Start(names, |names|)
  }

  /** What a directory can hold and an `int` can address. */
  ghost predicate Listable(names: seq<Bytes>) {
    && PackedSize(names) < INT_LIMIT
    && forall k | 0 <= k < |names| :: 0 !in names[k]
  }

  /** The first `k` names are in place. */
  ghost predicate Placed(data: Bytes, names: seq<Bytes>, k: nat)
    requires k <= |names|
  {
    && 4 * (|names| + 1) <= |data| && Start(names, k) <= |data| && Start(names, k) < INT_LIMIT
    && forall j | 0 <= j < k :: PlacedAt(data, names, j)
  }

  ghost predicate PlacedAt(data: Bytes, names: seq<Bytes>, j: nat)
    requires j < |names|
  {
    && Start(names, j) + |names[j]| + 1 <= |data| && Start(names, j) < INT_LIMIT && 4 * j + 8 <= |data|
    && data[4 * j + 4..4 * j + 8] == PutInt(Start(names, j))
    && data[Start(names, j)..Start(names, j) + |names[j]| + 1] == names[j] + [0]
  }

  ghost predicate Packs(data: Bytes, names: seq<Bytes>) {
    && |data| == PackedSize(names) && |names| < INT_LIMIT
    && data[..4] == PutInt(|names|)
    && if names == [] then data[4] == 0 else Placed(data, names, |names|)
  }

  // ------------------------------------------------------------------ memory

  function Overlay(b: Bytes, at: nat, bytes: Bytes): (r: Bytes)
    requires at + |bytes| <= |b|
    ensures |r| == |b| && r[at..at + |bytes|] == bytes
    ensures forall lo, hi | 0 <= lo <= hi <= at :: r[lo..hi] == b[lo..hi]
    ensures forall lo, hi | at + |bytes| <= lo <= hi <= |b| :: r[lo..hi] == b[lo..hi]
  {
    b[..at] + bytes + b[at + |bytes|..]
  }

  /** The string that starts at `at`, unless the buffer ends before it does. */
  function CString(b: Bytes, at: nat): (r: Option<Bytes>)
    decreases |b| - at
  {
    if at >= |b| then None
    else if b[at] == 0 then Some([])
    else match CString(b, at + 1)
      case None => None
      case Some(rest) => Some([b[at]] + rest)
  }

  lemma {:induction false} CStringIs(b: Bytes, at: nat, s: Bytes)
    requires at + |s| + 1 <= |b| && b[at..at + |s| + 1] == s + [0] && 0 !in s
    ensures CString(b, at) == Some(s)
    decreases |s|
  {
    assert b[at] == b[at..at + |s| + 1][0];
    if s != [] {
      assert b[at + 1..at + 1 + |s|] == b[at..at + |s| + 1][1..] == s[1..] + [0];
      CStringIs(b, at + 1, s[1..]);
      assert s == [s[0]] + s[1..];
    }
  }

  // ------------------------------------------------------------------ the server

  /** Memory from `malloc` and `realloc` holds whatever `junk` says. */
  method ServerReaddir(names: seq<Bytes>, junk: nat -> byte) returns (data: Bytes)
    requires Listable(names)
    ensures Packs(data, names)
  {
    var count := |names|;
    if count == 0 {
      return PutInt(0) + [0];
    }
    StartGrows(names, 0, count);
    var offset := (count + 1) * 4;
    data := seq(offset, i requires 0 <= i < offset => junk(i));
    data := Overlay(data, 0, PutInt(count));
    for i := 1 to count + 1
      invariant |data| == offset == Start(names, i - 1)
      invariant data[..4] == PutInt(count)
      invariant Placed(data, names, i - 1)
    {
      var name := names[i - 1];
      StartGrows(names, i, count);
      var newSize := offset + |name| + 1;
      var grown := data + seq(newSize - offset, j requires 0 <= j < newSize - offset => junk(offset + j));
      var listed := Overlay(grown, 4 * i, PutInt(offset));
      var next := Overlay(listed, offset, name + [0]);
      EarlierStay(data, grown, listed, next, names, i - 1);
      data := next;
      offset := newSize;
    }
  }

  lemma SliceOfSlice(b: Bytes, from: nat, to: nat, lo: nat, hi: nat)
    requires from <= lo <= hi <= to <= |b|
    ensures b[from..to][lo - from..hi - from] == b[lo..hi]
  {
    var part := b[from..to];
    forall k | 0 <= k < hi - lo ensures part[lo - from..hi - from][k] == b[lo..hi][k] {
      assert part[lo - from + k] == b[lo + k];
    }
    assert |part[lo - from..hi - from]| == |b[lo..hi]|;
  }

  lemma SlicesStay(data: Bytes, grown: Bytes, listed: Bytes, next: Bytes, lo: nat, hi: nat, cell: nat)
    requires lo <= hi <= |data| <= |grown| == |listed| == |next| && (hi <= cell || cell + 4 <= lo)
    requires grown[0..|data|] == data && cell + 4 <= |data|
    requires next[0..|data|] == listed[0..|data|]
    requires listed[0..cell] == grown[0..cell] && listed[cell + 4..|data|] == grown[cell + 4..|data|]
    ensures next[lo..hi] == data[lo..hi]
  {
    SliceOfSlice(next, 0, |data|, lo, hi);
    SliceOfSlice(listed, 0, |data|, lo, hi);
    SliceOfSlice(grown, 0, |data|, lo, hi);
    if hi <= cell {
      SliceOfSlice(listed, 0, cell, lo, hi);
      SliceOfSlice(grown, 0, cell, lo, hi);
    } else {
      SliceOfSlice(listed, cell + 4, |data|, lo, hi);
      SliceOfSlice(grown, cell + 4, |data|, lo, hi);
    }
  }

  /** The buffer grown for name `k`, with its offset in the table and the name at the end. */
  ghost predicate Extended(data: Bytes, grown: Bytes, listed: Bytes, next: Bytes, names: seq<Bytes>, k: nat) {
    && k < |names| && |data| == Start(names, k) && Start(names, k + 1) < INT_LIMIT
    && |grown| == |data| + |names[k]| + 1 && grown[..|data|] == data
    && listed == Overlay(grown, 4 * k + 4, PutInt(|data|))
    && next == Overlay(listed, |data|, names[k] + [0])
  }

  lemma EarlierSliceStays(
    data: Bytes, grown: Bytes, listed: Bytes, next: Bytes, names: seq<Bytes>, k: nat, lo: nat, hi: nat)
    requires Extended(data, grown, listed, next, names, k)
    requires lo <= hi <= |data| && (hi <= 4 * k + 4 || 4 * k + 8 <= lo)
    ensures next[lo..hi] == data[lo..hi]
  {
    assert next[0..|data|] == listed[0..|data|] && listed[0..4 * k + 4] == grown[0..4 * k + 4];
    SlicesStay(data, grown, listed, next, lo, hi, 4 * k + 4);
  }

  lemma EarlierNameStays(
    data: Bytes, grown: Bytes, listed: Bytes, next: Bytes, names: seq<Bytes>, k: nat, j: nat)
    requires Extended(data, grown, listed, next, names, k) && j < k && PlacedAt(data, names, j)
    ensures PlacedAt(next, names, j)
  {
    StartGrows(names, j + 1, k);
    EarlierSliceStays(data, grown, listed, next, names, k, 4 * j + 4, 4 * j + 8);
    EarlierSliceStays(data, grown, listed, next, names, k, Start(names, j), Start(names, j + 1));
  }

  lemma NewNameIsPlaced(data: Bytes, grown: Bytes, listed: Bytes, next: Bytes, names: seq<Bytes>, k: nat)
    requires Extended(data, grown, listed, next, names, k)
    ensures PlacedAt(next, names, k)
  {
    assert next[4 * k + 4..4 * k + 8] == listed[4 * k + 4..4 * k + 8];
  }

  /** Growing the buffer and writing name `k` leaves what was placed before. */
  lemma EarlierStay(data: Bytes, grown: Bytes, listed: Bytes, next: Bytes, names: seq<Bytes>, k: nat)
    requires Extended(data, grown, listed, next, names, k) && Placed(data, names, k)
    ensures Placed(next, names, k + 1) && next[..4] == data[..4]
  {
    EarlierSliceStays(data, grown, listed, next, names, k, 0, 4);
    NewNameIsPlaced(data, grown, listed, next, names, k);
    forall j | 0 <= j < k ensures PlacedAt(next, names, j) {
      assert PlacedAt(data, names, j);
      EarlierNameStays(data, grown, listed, next, names, k, j);
    }
  }

  /**
   The length that the dispatcher sends: the entry of the table with the index that stands in its
   first cell is the last offset, or, in an empty listing, the count itself.
   */
  function PayloadLength(res: Bytes): Option<nat>
    requires |res| >= 4
  {
    var count := GetInt(res, 0);
    if count < 0 || 4 * count + 4 > |res| then None
    else
      var last := GetInt(res, 4 * count);
      if last == 0 then Some(5)
      else if last < 0 then None
      else match CString(res, last)
        case None => None
        case Some(name) => Some(last + |name| + 1)
  }

  lemma TableEntry(data: Bytes, names: seq<Bytes>, j: nat)
    requires Packs(data, names) && Listable(names) && j < |names|
    ensures 4 * j + 8 <= |data| && GetInt(data, 4 * j + 4) == Start(names, j)
    ensures CString(data, Start(names, j)) == Some(names[j])
    ensures Start(names, j) + |names[j]| + 1 == Start(names, j + 1) <= |data|
  {
    assert PlacedAt(data, names, j);
    GetPut(Start(names, j), data, 4 * j + 4);
    CStringIs(data, Start(names, j), names[j]);
    StartGrows(names, j + 1, |names|);
  }

  lemma CountEntry(data: Bytes, names: seq<Bytes>)
    requires Packs(data, names) && Listable(names)
    ensures |data| >= 5 && GetInt(data, 0) == |names|
  {
    StartGrows(names, 0, |names|);
    assert data[0..4] == data[..4];
    GetPut(|names|, data, 0);
  }

  /** The recomputed length is the length of the buffer, of the empty listing too. */
  lemma PayloadLengthIsExact(data: Bytes, names: seq<Bytes>)
    requires Packs(data, names) && Listable(names)
    ensures PayloadLength(data) == Some(|data|)
  {
    CountEntry(data, names);
    if names != [] {
      TableEntry(data, names, |names| - 1);
    }
  }

  /** A buffer is the listing of one sequence of names only. */
  lemma ListingIsUnambiguous(data: Bytes, a: seq<Bytes>, b: seq<Bytes>)
    requires Listable(a) && Listable(b) && Packs(data, a) && Packs(data, b)
    ensures a == b
  {
    CountEntry(data, a);
    CountEntry(data, b);
    forall k | 0 <= k < |a| ensures a[k] == b[k] {
      TableEntry(data, a, k);
      TableEntry(data, b, k);
    }
  }

  // ------------------------------------------------------------------ the client

  /** `filler(j)` says whether the caller takes name `j`; the first refusal ends the call. */
  method ClientReaddir(entries: Bytes, filler: nat -> bool, ghost names: seq<Bytes>)
    returns (taken: seq<Bytes>, ok: bool)
    requires Listable(names) && Packs(entries, names)
    ensures ok <==> forall j | 0 <= j < |names| :: filler(j)
    ensures taken <= names && (ok ==> taken == names)
    ensures forall j | 0 <= j < |taken| :: filler(j)
    ensures !ok ==> |taken| < |names| && !filler(|taken|)
  {
    taken := [];
    CountEntry(entries, names);
    var count := GetInt(entries, 0);
    if count < 0 {
      return taken, false;
    }
    for j := 0 to count
      invariant taken == names[..j]
      invariant forall l | 0 <= l < j :: filler(l)
    {
      TableEntry(entries, names, j);
      var name := CString(entries, GetInt(entries, 4 + 4 * j)).value;
      if !filler(j) {
        return taken, false;
      }
      taken := taken + [name];
    }
    ok := true;
  }

  /** From the directory through the dispatcher and the framed reply to the caller. */
  method ListDirectory(names: seq<Bytes>, junk: nat -> byte, filler: nat -> bool)
    returns (taken: seq<Bytes>, ok: bool)
    requires Listable(names)
    ensures ok <==> forall j | 0 <= j < |names| :: filler(j)
    ensures taken <= names && (ok ==> taken == names)
    ensures forall j | 0 <= j < |taken| :: filler(j)
    ensures !ok ==> |taken| < |names| && !filler(|taken|)
  {
    var data := ServerReaddir(names, junk);
    CountEntry(data, names);
    PayloadLengthIsExact(data, names);
    FrameRoundTrip(data);
    var arrived := Received(Framed(data, PayloadLength(data).value));
    taken, ok := ClientReaddir(arrived.value, filler, names);
  }
}
