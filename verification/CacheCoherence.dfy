/**
 The cache in front of the files in slot 0: `client_read`, `client_write` and `client_rename` as
 far as they touch both, every request answered.
 */
module CacheCoherence {
  import opened Octets
  import opened Trees
  import opened Wire
  import opened CacheModel

  type Files = map<string, Bytes>

  /** Every entry is a prefix of the file it shadows. */
  ghost predicate Coherent(items: seq<Item>, fs: Files) {
    forall k | 0 <= k < |items| :: items[k].path in fs && items[k].data <= fs[items[k].path]
  }

  datatype Access =
    | Read(path: string, size: nat, offset: nat, junk: nat -> byte)
    | Write(path: string, buf: Bytes, offset: nat, junk: nat -> byte)
    | Rename(path: string, newpath: string)

  datatype Client = Client(s: State, fs: Files)

  /** What `client_read` hands to its caller: the cached bytes, or those the server sends. */
  function Served(c: Client, path: string, size: nat, offset: nat): Bytes
    requires path in c.fs && offset + size <= |c.fs[path]|
  {
    match Hit(c.s, path, size, offset)
    case Some(data) => data
    case None => c.fs[path][offset..offset + size]
  }

  /** The access is to a file on the server, and a read stays inside it. */
  predicate Possible(c: Client, a: Access) {
    a.path in c.fs && (a.Read? ==> a.offset + a.size <= |c.fs[a.path]|)
  }

  function FilesAfterRename(fs: Files, path: string, newpath: string): Files
    requires path in fs
  {
    if newpath == path then fs else (fs - {path})[newpath := fs[path]]
  }

  /** A miss caches what the server sends; a write goes to the server and then to the cache. */
  function Done(c: Client, a: Access, max: nat): Client
    requires Possible(c, a)
  {
    match a
    case Read(path, size, offset, junk) =>
      var moved := Looked(c.s, path);
      if Hit(c.s, path, size, offset).Some? then c.(s := moved)
      else c.(s := Written(moved, max, path, c.fs[path][offset..offset + size], offset, junk))
    case Write(path, buf, offset, junk) =>
      Client(Written(c.s, max, path, buf, offset, junk), c.fs[path := Overwritten(c.fs[path], offset, buf)])
    case Rename(path, newpath) =>
      Client(Renamed(c.s, path, newpath), FilesAfterRename(c.fs, path, newpath))
  }

  // ------------------------------------------------------------------ one access

  lemma RestIsCoherent(items: seq<Item>, path: string, fs: Files, data: Bytes)
    requires UniquePaths(items) && Coherent(items, fs) && path in fs
    ensures Coherent(Rest(items, path), fs[path := data])
  {
    RestIsUnique(items, path);
    var rest := Rest(items, path);
    forall k | 0 <= k < |rest|
      ensures rest[k].path in fs[path := data] && rest[k].data <= fs[path := data][rest[k].path]
    {
      assert rest[k] in rest;
      assert rest[k] in items;
    }
  }

  lemma CachedIsPrefix(items: seq<Item>, path: string, fs: Files)
    requires Coherent(items, fs) && path in fs
    ensures DataOf(items, path) <= fs[path]
  {
  }

  lemma BlendedPrefix(was: Bytes, file: Bytes, offset: nat, buf: Bytes, junk: nat -> byte)
    requires was <= file && offset <= |was|
    ensures Blended(was, offset, buf, junk) == file[..offset] + buf
    ensures Blended(was, offset, buf, junk) <= Overwritten(file, offset, buf)
  {
    assert Blended(was, offset, buf, junk)[..offset] == file[..offset];
    if buf != [] {
      assert Resized(file, offset) == file[..offset];
    }
  }

  /** A gap is filled with whatever was in memory, and something that is not in the file may be. */
  lemma GapCanDiffer(was: Bytes, file: Bytes, offset: nat, buf: Bytes) returns (junk: nat -> byte)
    requires offset > |was|
    ensures !(Blended(was, offset, buf, junk) <= file)
  {
    var other: byte := if |was| < |file| && file[|was|] == 0 then 1 else 0;
    junk := (j: nat) => other;
    var b := Blended(was, offset, buf, junk);
    assert b[|was|] == other;
  }

  lemma AppendIsCoherentIff(items: seq<Item>, item: Item, fs: Files)
    requires Coherent(items, fs) && item.path in fs
    ensures Coherent(items + [item], fs) <==> item.data <= fs[item.path]
  {
    var all := items + [item];
    assert all[|items|] == item;
  }

  /**
   A write, whatever is in uninitialised memory, leaves the cache coherent exactly if the cache
   refuses it or it starts inside or at the end of what is cached.
   */
  lemma WriteIsCoherentIff(c: Client, max: nat, path: string, buf: Bytes, offset: nat)
    requires UniquePaths(c.s.items) && Coherent(c.s.items, c.fs) && path in c.fs
    ensures (forall junk: nat -> byte ::
        var d := Done(c, Access.Write(path, buf, offset, junk), max); Coherent(d.s.items, d.fs))
      <==> Refuses(c.s, max, path, offset + |buf|) || offset <= |DataOf(c.s.items, path)|
  {
    var was := DataOf(c.s.items, path);
    var file := Overwritten(c.fs[path], offset, buf);
    RestIsCoherent(c.s.items, path, c.fs, file);
    CachedIsPrefix(c.s.items, path, c.fs);
    if !Refuses(c.s, max, path, offset + |buf|) {
      forall junk: nat -> byte
        ensures var d := Done(c, Access.Write(path, buf, offset, junk), max);
          Coherent(d.s.items, d.fs) <==> Blended(was, offset, buf, junk) <= file
      {
        AppendIsCoherentIff(Rest(c.s.items, path), Item(path, Blended(was, offset, buf, junk)), c.fs[path := file]);
      }
      if offset <= |was| {
        forall junk: nat -> byte ensures Blended(was, offset, buf, junk) <= file {
          BlendedPrefix(was, c.fs[path], offset, buf, junk);
        }
      } else {
        var junk := GapCanDiffer(was, file, offset, buf);
        var d := Done(c, Access.Write(path, buf, offset, junk), max);
        assert !Coherent(d.s.items, d.fs);
      }
    }
  }

  lemma LookedIsCoherent(s: State, path: string, fs: Files)
    requires UniquePaths(s.items) && Coherent(s.items, fs) && path in fs
    ensures UniquePaths(Looked(s, path).items) && Coherent(Looked(s, path).items, fs)
    ensures DataOf(Looked(s, path).items, path) == DataOf(s.items, path)
  {
    if Cached(s.items, path) {
      var item := Item(path, DataOf(s.items, path));
      RestIsUnique(s.items, path);
      RestIsCoherent(s.items, path, fs, fs[path]);
      assert fs[path := fs[path]] == fs;
      AppendIsCoherentIff(Rest(s.items, path), item, fs);
      assert Looked(s, path).items[|Rest(s.items, path)|] == item;
    }
  }

  lemma MissIsCoherent(s: State, fs: Files, max: nat, path: string, size: nat, offset: nat, junk: nat -> byte)
    requires UniquePaths(s.items) && Coherent(s.items, fs) && path in fs
    requires offset <= |DataOf(s.items, path)| && offset + size <= |fs[path]|
    ensures Coherent(Written(s, max, path, fs[path][offset..offset + size], offset, junk).items, fs)
  {
    var data := fs[path][offset..offset + size];
    CachedIsPrefix(s.items, path, fs);
    BlendedPrefix(DataOf(s.items, path), fs[path], offset, data, junk);
    assert fs[path][..offset] + data == fs[path][..offset + size];
    RestIsCoherent(s.items, path, fs, fs[path]);
    assert fs[path := fs[path]] == fs;
    AppendIsCoherentIff(Rest(s.items, path), Item(path, Blended(DataOf(s.items, path), offset, data, junk)), fs);
  }

  /** What the files hold under the path of an entry after a rename. */
  lemma EntryAfterRename(c: Client, path: string, newpath: string, k: nat)
    requires UniquePaths(c.s.items) && Coherent(c.s.items, c.fs) && path in c.fs && newpath != path
    requires k < |c.s.items|
    ensures |Renamed(c.s, path, newpath).items| == |c.s.items|
    ensures var e, fs := Renamed(c.s, path, newpath).items[k], FilesAfterRename(c.fs, path, newpath);
      (e.path in fs && e.data <= fs[e.path])
      <==> c.s.items[k].path != newpath || c.s.items[k].data <= c.fs[path]
  {
    assert c.s.items[k].path in c.fs && c.s.items[k].data <= c.fs[c.s.items[k].path];
    var l := IndexOf(c.s.items, path);
    if c.s.items[k].path == path {
      assert Cached(c.s.items, path) && l == k;
    }
  }

  /**
   A rename takes the entry of the file along and leaves one that is there for the new path: the
   cache stays coherent if and only if there is none, or it happens to be a prefix of the file.
   */
  lemma RenameIsCoherentIff(c: Client, path: string, newpath: string)
    requires UniquePaths(c.s.items) && Coherent(c.s.items, c.fs) && path in c.fs
    ensures Coherent(Renamed(c.s, path, newpath).items, FilesAfterRename(c.fs, path, newpath))
      <==> newpath == path || !Cached(c.s.items, newpath) || DataOf(c.s.items, newpath) <= c.fs[path]
  {
    var items, fs := Renamed(c.s, path, newpath).items, FilesAfterRename(c.fs, path, newpath);
    if newpath == path {
      assert items == c.s.items;
    } else {
      forall k | 0 <= k < |items|
        ensures (items[k].path in fs && items[k].data <= fs[items[k].path])
          <==> c.s.items[k].path != newpath || c.s.items[k].data <= c.fs[path]
      {
        EntryAfterRename(c, path, newpath, k);
      }
      if Cached(c.s.items, newpath) {
        var l := IndexOf(c.s.items, newpath);
        assert c.s.items[l].path == newpath && DataOf(c.s.items, newpath) == c.s.items[l].data;
      }
    }
  }

  // ------------------------------------------------------------------ every run

  /** The access leaves no gap in its entry, and no entry of another file under its new path. */
  predicate Adjoining(c: Client, a: Access) {
    && Possible(c, a)
    && if a.Rename? then a.newpath == a.path || !Cached(c.s.items, a.newpath)
       else a.offset <= |DataOf(c.s.items, a.path)|
  }

  ghost predicate Sane(c: Client) {
    UniquePaths(c.s.items) && Coherent(c.s.items, c.fs)
  }

  lemma MissKeepsSane(c: Client, path: string, size: nat, offset: nat, junk: nat -> byte, max: nat)
    requires Sane(c) && path in c.fs && offset <= |DataOf(c.s.items, path)| && offset + size <= |c.fs[path]|
    ensures Sane(c.(s := Written(c.s, max, path, c.fs[path][offset..offset + size], offset, junk)))
  {
    MissIsCoherent(c.s, c.fs, max, path, size, offset, junk);
    WritesAndReadsKeepPathsUnique(c.s, max, path, c.fs[path][offset..offset + size], offset, junk);
  }

  lemma ReadKeepsSane(c: Client, path: string, size: nat, offset: nat, junk: nat -> byte, max: nat)
    requires Sane(c) && Adjoining(c, Read(path, size, offset, junk))
    ensures Sane(Done(c, Read(path, size, offset, junk), max))
  {
    LookedIsCoherent(c.s, path, c.fs);
    var moved := c.(s := Looked(c.s, path));
    assert Sane(moved);
    if Hit(c.s, path, size, offset).Some? {
      assert Done(c, Read(path, size, offset, junk), max) == moved;
    } else {
      MissKeepsSane(moved, path, size, offset, junk, max);
      assert Done(c, Read(path, size, offset, junk), max)
          == moved.(s := Written(moved.s, max, path, c.fs[path][offset..offset + size], offset, junk));
    }
  }

  lemma WriteKeepsSane(c: Client, path: string, buf: Bytes, offset: nat, junk: nat -> byte, max: nat)
    requires Sane(c) && Adjoining(c, Access.Write(path, buf, offset, junk))
    ensures Sane(Done(c, Access.Write(path, buf, offset, junk), max))
  {
    WriteIsCoherentIff(c, max, path, buf, offset);
    WritesAndReadsKeepPathsUnique(c.s, max, path, buf, offset, junk);
  }

  lemma RenameKeepsSane(c: Client, path: string, newpath: string)
    requires Sane(c) && path in c.fs && (newpath == path || !Cached(c.s.items, newpath))
    ensures Sane(Client(Renamed(c.s, path, newpath), FilesAfterRename(c.fs, path, newpath)))
  {
    RenameKeepsPathsUniqueIff(c.s, path, newpath);
    RenameIsCoherentIff(c, path, newpath);
  }

  lemma AccessKeepsSane(c: Client, a: Access, max: nat)
    requires Sane(c) && Adjoining(c, a)
    ensures Sane(Done(c, a, max))
  {
    match a
    case Read(path, size, offset, junk) => ReadKeepsSane(c, path, size, offset, junk, max);
    case Write(path, buf, offset, junk) => WriteKeepsSane(c, path, buf, offset, junk, max);
    case Rename(path, newpath) => RenameKeepsSane(c, path, newpath);
  }

  /** A hit is a slice of a prefix. */
  lemma ServedIsTheFile(c: Client, path: string, size: nat, offset: nat)
    requires Sane(c) && path in c.fs && offset + size <= |c.fs[path]|
    ensures Served(c, path, size, offset) == c.fs[path][offset..offset + size]
  {
    CachedIsPrefix(c.s.items, path, c.fs);
    if Hit(c.s, path, size, offset).Some? {
      var was := DataOf(c.s.items, path);
      assert was == c.fs[path][..|was|];
    }
  }

  /** Every access of the run adjoins what is cached when it is made. */
  predicate RunAdjoins(c: Client, accesses: seq<Access>, max: nat)
    decreases |accesses|
  {
    accesses == [] || (Adjoining(c, accesses[0]) && RunAdjoins(Done(c, accesses[0], max), accesses[1..], max))
  }

  /** Every read of the run is served the bytes the server holds at that moment. */
  predicate RunServesTheFiles(c: Client, accesses: seq<Access>, max: nat)
    requires RunAdjoins(c, accesses, max)
    decreases |accesses|
  {
    accesses == [] ||
    (var a := accesses[0];
     && (a.Read? ==> Served(c, a.path, a.size, a.offset) == c.fs[a.path][a.offset..a.offset + a.size])
     && RunServesTheFiles(Done(c, a, max), accesses[1..], max))
  }

  /** Over every such run, across evictions and refusals, reads see the server's files. */
  lemma {:induction false} EveryRunServesTheFiles(c: Client, accesses: seq<Access>, max: nat)
    requires Sane(c) && RunAdjoins(c, accesses, max)
    ensures RunServesTheFiles(c, accesses, max)
    decreases |accesses|
  {
    if accesses != [] {
      var a := accesses[0];
      AccessKeepsSane(c, a, max);
      if a.Read? {
        ServedIsTheFile(c, a.path, a.size, a.offset);
      }
      EveryRunServesTheFiles(Done(c, a, max), accesses[1..], max);
    }
  }

  /** What a read was served from the server is served from the cache the next time, unless it was refused. */
  lemma ReadAgainHits(c: Client, path: string, size: nat, offset: nat, junk: nat -> byte, max: nat)
    requires Sane(c) && Possible(c, Read(path, size, offset, junk))
    ensures var d := Done(c, Read(path, size, offset, junk), max);
      Hit(c.s, path, size, offset).Some? || !Refuses(Looked(c.s, path), max, path, offset + size) ==>
        Hit(d.s, path, size, offset) == Some(c.fs[path][offset..offset + size])
  {
    LookedIsCoherent(c.s, path, c.fs);
    if Hit(c.s, path, size, offset).Some? {
      RestIsUnique(c.s.items, path);
      IndexOfNewest(Rest(c.s.items, path), Item(path, DataOf(c.s.items, path)));
      ServedIsTheFile(c, path, size, offset);
    } else if !Refuses(Looked(c.s, path), max, path, offset + size) {
      WrittenIsHit(Looked(c.s, path), max, path, c.fs[path][offset..offset + size], offset, junk);
    }
  }

  // ------------------------------------------------------------------ requests that bypass the cache

  /** truncate does not touch the cache: it stays coherent exactly if the cached part is kept. */
  lemma TruncateIsCoherentIff(c: Client, path: string, size: nat)
    requires Sane(c) && Cached(c.s.items, path)
    ensures path in c.fs
    ensures Coherent(c.s.items, c.fs[path := Resized(c.fs[path], size)]) <==> |DataOf(c.s.items, path)| <= size
  {
    var k := IndexOf(c.s.items, path);
    assert c.s.items[k].path == path && path in c.fs;
    var cut := Resized(c.fs[path], size);
    CachedIsPrefix(c.s.items, path, c.fs);
    if |DataOf(c.s.items, path)| <= size {
      assert DataOf(c.s.items, path) <= cut;
      forall l | 0 <= l < |c.s.items|
        ensures c.s.items[l].path in c.fs && c.s.items[l].data <= c.fs[path := cut][c.s.items[l].path]
      {
      }
    }
  }

  /** unlink does not touch the cache either: it stays coherent exactly if the file is not cached. */
  lemma UnlinkIsCoherentIff(c: Client, path: string)
    requires Sane(c)
    ensures Coherent(c.s.items, c.fs - {path}) <==> !Cached(c.s.items, path)
  {
    if Cached(c.s.items, path) {
      assert c.s.items[IndexOf(c.s.items, path)].path == path;
    }
  }
}
