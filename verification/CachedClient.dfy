/**
 The client's read, write and rename as they go through the cache to the files of slot 0, every
 request answered.
 */
module CachedClient {
  import opened Octets
  import opened Trees
  import opened Wire
  import opened CacheModel
  import opened CacheCoherence
  import C = Cache

  lemma ServedIs(c: Client, path: string, size: nat, offset: nat)
    requires path in c.fs && offset + size <= |c.fs[path]|
    ensures var items := c.s.items;
      var k := IndexOf(items, path);
      Served(c, path, size, offset) ==
        if k < |items| && offset + size <= |items[k].data| then items[k].data[offset..offset + size]
        else c.fs[path][offset..offset + size]
  {
  }

  lemma ReadThatHits(c: Client, path: string, size: nat, offset: nat, junk: nat -> byte, max: nat)
    requires path in c.fs && offset + size <= |c.fs[path]| && Hit(c.s, path, size, offset).Some?
    ensures Done(c, CacheCoherence.Access.Read(path, size, offset, junk), max) == Client(Looked(c.s, path), c.fs)
    ensures Served(c, path, size, offset) == Hit(c.s, path, size, offset).value
  {
  }

  lemma ReadThatMisses(c: Client, path: string, size: nat, offset: nat, junk: nat -> byte, max: nat)
    requires path in c.fs && offset + size <= |c.fs[path]| && Hit(c.s, path, size, offset).None?
    ensures var data := c.fs[path][offset..offset + size];
      && Done(c, CacheCoherence.Access.Read(path, size, offset, junk), max)
           == Client(Written(Looked(c.s, path), max, path, data, offset, junk), c.fs)
      && Served(c, path, size, offset) == data
  {
  }

  class Mount {
    const cache: C.Cache
    var files: Files

    ghost predicate Valid()
      reads this, cache, cache.oldest, cache.newest, cache.spine
    {
      cache.Valid() && "" !in files
    }

    ghost function View(): Client
      reads this, cache, cache.spine
    {
      Client(cache.View(), files)
    }

    constructor (cache: C.Cache, files: Files)
      requires cache.Valid() && "" !in files
      ensures Valid() && this.cache == cache && View() == Client(cache.View(), files)
    {
      this.cache := cache;
      this.files := files;
    }

    method Look(path: string, size: nat, offset: nat) returns (cached: Option<Bytes>)
      requires Valid() && path in files
      modifies cache`spine, cache.oldest, cache.newest, cache.spine
      ensures Valid() && cache.View() == Looked(old(cache.View()), path)
      ensures cached == Hit(old(cache.View()), path, size, offset)
      ensures forall k | 0 <= k < |cache.spine| :: cache.spine[k] in old(cache.spine)
    {
      cached := cache.CacheRead(path, size, offset);
      cache.NodesApart();
      forall n | n in cache.spine ensures n in old(cache.spine) {
        assert n in cache.Nodes() && n != cache.oldest && n != cache.newest;
      }
    }

    method Fill(path: string, data: Bytes, offset: nat, junk: nat -> byte)
      requires Valid() && path in files
      modifies cache, cache.oldest, cache.newest, cache.spine
      ensures Valid() && cache.View() == Written(old(cache.View()), cache.maxSize, path, data, offset, junk)
    {
      var _ := cache.CacheWrite(path, data, offset, junk);
    }

    /** A hit gives the cached bytes; a miss those of the server, which are then cached. */
    method ReadThrough(path: string, size: nat, offset: nat, junk: nat -> byte) returns (data: Bytes)
      requires Valid() && path in files && offset + size <= |files[path]|
      modifies cache, cache.oldest, cache.newest, cache.spine
      ensures Valid() && files == old(files)
      ensures View() == Done(old(View()), CacheCoherence.Access.Read(path, size, offset, junk), cache.maxSize)
      ensures data == Served(old(View()), path, size, offset)
    {
      ghost var c := View();
      var cached := Look(path, size, offset);
      if cached.Some? {
        ReadThatHits(c, path, size, offset, junk, cache.maxSize);
        return cached.value;
      }
      ReadThatMisses(c, path, size, offset, junk, cache.maxSize);
      data := files[path][offset..offset + size];
      Fill(path, data, offset, junk);
    }

    /** `client_read`; while the cache is coherent it gives the bytes of the file. */
    method Read(path: string, size: nat, offset: nat, junk: nat -> byte) returns (data: Bytes)
      requires Valid() && path in files && offset + size <= |files[path]|
      modifies cache, cache.oldest, cache.newest, cache.spine
      ensures Valid() && files == old(files)
      ensures View() == Done(old(View()), CacheCoherence.Access.Read(path, size, offset, junk), cache.maxSize)
      ensures Sane(old(View())) ==> data == files[path][offset..offset + size]
      ensures var items := old(cache.View()).items;
        var k := IndexOf(items, path);
        data == if k < |items| && offset + size <= |items[k].data| then items[k].data[offset..offset + size]
                else files[path][offset..offset + size]
    {
      ghost var c := View();
      ServedIs(c, path, size, offset);
      if Sane(c) {
        ServedIsTheFile(c, path, size, offset);
      }
      data := ReadThrough(path, size, offset, junk);
    }

    /** `client_write`: the server first, then the cache. */
    method Write(path: string, buf: Bytes, offset: nat, junk: nat -> byte)
      requires Valid() && path in files
      modifies this`files, cache, cache.oldest, cache.newest, cache.spine
      ensures Valid()
      ensures View() == Done(old(View()), CacheCoherence.Access.Write(path, buf, offset, junk), cache.maxSize)
    {
      files := files[path := Overwritten(files[path], offset, buf)];
      Fill(path, buf, offset, junk);
    }

    /** `client_rename` of a regular file. */
    method Rename(path: string, newpath: string)
      requires Valid() && path in files && newpath != ""
      modifies this`files, cache.spine
      ensures Valid() && View() == Done(old(View()), CacheCoherence.Access.Rename(path, newpath), cache.maxSize)
    {
      if newpath != path {
        files := (files - {path})[newpath := files[path]];
      }
      var _ := cache.CacheRename(path, newpath);
    }
  }
}
