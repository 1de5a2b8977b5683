/**
 The file tree a server exports, the path operations the client fans out, and the tree a
 rebuild leaves behind.

 A path is the list of its names below the exported root, so `[]` is the root itself. The
 operations have the effect of the system calls the server makes for them; an operation that
 the system call refuses leaves the tree alone.
 */
module Trees {
  import opened Octets

  type Path = seq<string>

  datatype Tree<V> = Tree(dirs: set<Path>, files: map<Path, V>)

  datatype Op =
    | Mknod(path: Path)
    | Mkdir(path: Path)
    | Unlink(path: Path)
    | Rmdir(path: Path)
    | Rename(path: Path, newpath: Path)
    | Truncate(path: Path, size: nat)
    | Write(path: Path, offset: nat, data: Bytes)

  function Parent(p: Path): Path
    requires p != []
  {
    p[..|p| - 1]
  }

  predicate Below(d: Path, p: Path) {
    d < p
  }

  predicate Exists<V>(t: Tree<V>, p: Path) {
    p in t.dirs || p in t.files
  }

  /** The root is a directory, no path is both a file and a directory, every parent is a directory. */
  ghost predicate WellFormed<V>(t: Tree<V>) {
    && [] in t.dirs
    && [] !in t.files
    && t.dirs !! t.files.Keys
    && forall p: Path {:trigger Parent(p)} :: Exists(t, p) && p != [] ==> Parent(p) in t.dirs
  }

  predicate Childless<V>(t: Tree<V>, d: Path) {
    && (forall p | p in t.dirs :: !Below(d, p))
    && (forall p | p in t.files :: !Below(d, p))
  }

  lemma {:induction false} AncestorsAreDirs<V>(t: Tree<V>, p: Path, d: Path)
    requires WellFormed(t) && Exists(t, p) && Below(d, p)
    ensures d in t.dirs
    decreases |p|
  {
    var q := Parent(p);
    assert q in t.dirs;
    if q != d {
      assert Below(d, q);
      AncestorsAreDirs(t, q, d);
    }
  }

  // ------------------------------------------------------------------ contents of one file

  function Zeros(n: nat): Bytes {
    seq(n, _ => 0)
  }

  /** truncate(2): cut, or pad with zeros. */
  function Resized(data: Bytes, size: nat): (r: Bytes)
    ensures |r| == size
  {
    if size <= |data| then data[..size] else data + Zeros(size - |data|)
  }

  /** pwrite(2): an empty write changes nothing; a gap before the offset reads as zeros. */
  function Overwritten(was: Bytes, offset: nat, data: Bytes): Bytes {
    if data == [] then was
    else
      var start := Resized(was, offset);
      if offset + |data| <= |was| then start + data + was[offset + |data|..] else start + data
  }

  /** What pwrite(2) leaves at each position. */
  lemma OverwrittenAt(was: Bytes, offset: nat, data: Bytes, k: nat)
    requires data != []
    ensures var r := Overwritten(was, offset, data);
      |r| == if offset + |data| <= |was| then |was| else offset + |data|
    ensures var r := Overwritten(was, offset, data);
      k < |r| ==>
        r[k] == if offset <= k < offset + |data| then data[k - offset] else if k < |was| then was[k] else 0
  {
  }

  // ------------------------------------------------------------------ operations

  function Back(p: Path, q: Path, g: Path): Path
    requires q <= g
  {
    p + g[|q|..]
  }

  function MovedDirs<V>(t: Tree<V>, p: Path, q: Path): set<Path> {
    set d | d in t.dirs && p <= d :: Back(q, p, d)
  }

  function MovedFiles<V>(t: Tree<V>, p: Path, q: Path): set<Path> {
    set f | f in t.files && p <= f :: Back(q, p, f)
  }

  lemma BackIsInverse(p: Path, q: Path)
    ensures forall f: Path | p <= f :: q <= Back(q, p, f) && Back(p, q, Back(q, p, f)) == f
  {
    forall f: Path | p <= f
      ensures q <= Back(q, p, f) && Back(p, q, Back(q, p, f)) == f
    {
      assert Back(q, p, f)[|q|..] == f[|p|..];
    }
  }

  /** Everything at or below `p` moves to the same place at or below `q`. */
  function Moved<V>(t: Tree<V>, p: Path, q: Path): Tree<V> {
    BackIsInverse(p, q);
    Tree((set d | d in t.dirs && !(p <= d)) + MovedDirs(t, p, q),
         (map f | f in t.files && !(p <= f) :: t.files[f]) +
         (map g | g in MovedFiles(t, p, q) :: t.files[Back(p, q, g)]))
  }

  /** The cases in which rename(2) changes something. */
  predicate Renames<V>(t: Tree<V>, p: Path, q: Path) {
    && p != [] && q != [] && Exists(t, p) && !(p <= q)
    && Parent(q) in t.dirs
    && if p in t.files then q !in t.dirs else q !in t.files && (q in t.dirs ==> Childless(t, q))
  }

  predicate Creates<V>(t: Tree<V>, p: Path) {
    p != [] && !Exists(t, p) && Parent(p) in t.dirs
  }

  function Apply(op: Op, t: Tree<Bytes>): Tree<Bytes> {
    match op
    case Mknod(p) => if Creates(t, p) then t.(files := t.files[p := []]) else t
    case Mkdir(p) => if Creates(t, p) then t.(dirs := t.dirs + {p}) else t
    case Unlink(p) => if p in t.files then t.(files := t.files - {p}) else t
    case Rmdir(p) => if p in t.dirs && p != [] && Childless(t, p) then t.(dirs := t.dirs - {p}) else t
    case Rename(p, q) => if Renames(t, p, q) then Moved(t, p, q) else t
    case Truncate(p, n) => if p in t.files then t.(files := t.files[p := Resized(t.files[p], n)]) else t
    case Write(p, off, data) =>
      if p in t.files then t.(files := t.files[p := Overwritten(t.files[p], off, data)]) else t
  }

  // ------------------------------------------------------------------ what each operation does

  /** A write: the length, every byte, and nothing else. */
  lemma WriteLandsAt(t: Tree<Bytes>, p: Path, offset: nat, data: Bytes, k: nat)
    ensures var u := Apply(Write(p, offset, data), t);
      && u.dirs == t.dirs && u.files.Keys == t.files.Keys
      && (forall f | f in t.files && f != p :: u.files[f] == t.files[f])
      && (data == [] ==> u == t)
    ensures p in t.files && data != [] ==>
      var was, now := t.files[p], Apply(Write(p, offset, data), t).files[p];
      && |now| == (if offset + |data| <= |was| then |was| else offset + |data|)
      && (offset <= k < offset + |data| ==> now[k] == data[k - offset])
      && (k < |now| && !(offset <= k < offset + |data|) ==> now[k] == if k < |was| then was[k] else 0)
  {
    if p in t.files && data != [] {
      OverwrittenAt(t.files[p], offset, data, k);
    }
  }

  /** A truncate: the length, every byte, and nothing else. */
  lemma TruncateCutsAt(t: Tree<Bytes>, p: Path, size: nat, k: nat)
    ensures var u := Apply(Truncate(p, size), t);
      && u.dirs == t.dirs && u.files.Keys == t.files.Keys
      && (forall f | f in t.files && f != p :: u.files[f] == t.files[f])
    ensures p in t.files ==>
      var was, now := t.files[p], Apply(Truncate(p, size), t).files[p];
      |now| == size && (k < size ==> now[k] == if k < |was| then was[k] else 0)
  {
  }

  /** mknod and mkdir make something only where nothing is, in a directory, and leave all else. */
  lemma MakingMakesOne(t: Tree<Bytes>, p: Path, x: Path)
    ensures var u, can := Apply(Mknod(p), t), p != [] && p !in t.dirs && p !in t.files && p[..|p| - 1] in t.dirs;
      && u.dirs == t.dirs
      && (x in u.files <==> x in t.files || (can && x == p))
      && (x in u.files ==> u.files[x] == if x in t.files then t.files[x] else [])
    ensures var u, can := Apply(Mkdir(p), t), p != [] && p !in t.dirs && p !in t.files && p[..|p| - 1] in t.dirs;
      u.files == t.files && (x in u.dirs <==> x in t.dirs || (can && x == p))
  {
  }

  /** unlink removes a file, rmdir a directory below which there is nothing, and all else stays. */
  lemma RemovingRemovesOne(t: Tree<Bytes>, p: Path, x: Path)
    ensures var u := Apply(Unlink(p), t);
      && u.dirs == t.dirs
      && (x in u.files <==> x in t.files && x != p) && (x in u.files ==> u.files[x] == t.files[x])
    ensures var u, can := Apply(Rmdir(p), t), p != [] && forall y | y in t.dirs || y in t.files :: !(p < y);
      u.files == t.files && (x in u.dirs <==> x in t.dirs && !(can && x == p))
  {
  }

  /**
   A rename: when it does something, and what it then leaves at every place `s` below the new
   path, below the old path, and at every other path `x`.
   */
  lemma RenamedAt<V>(t: Tree<V>, u: Tree<V>, p: Path, q: Path, s: Path, x: Path)
    requires WellFormed(t) && u == if Renames(t, p, q) then Moved(t, p, q) else t
    ensures !Renames(t, p, q) ==> u == t
    ensures Renames(t, p, q) ==>
      && (q + s in u.dirs <==> p + s in t.dirs) && (q + s in u.files <==> p + s in t.files)
      && (p + s in t.files ==> u.files[q + s] == t.files[p + s])
      && p + s !in u.dirs && p + s !in u.files
      && (!(p <= x) && !(q <= x) ==>
            && (x in u.dirs <==> x in t.dirs) && (x in u.files <==> x in t.files)
            && (x in t.files ==> u.files[x] == t.files[x]))
  {
    if Renames(t, p, q) {
      ArrivedAt(t, p, q, s);
      NothingIsLeft(t, p, q, s);
      MovedAt(t, p, q, x);
    }
  }

  lemma ArrivedAt<V>(t: Tree<V>, p: Path, q: Path, s: Path)
    requires WellFormed(t) && Renames(t, p, q)
    ensures var u := Moved(t, p, q);
      && (q + s in u.dirs <==> p + s in t.dirs) && (q + s in u.files <==> p + s in t.files)
      && (p + s in t.files ==> u.files[q + s] == t.files[p + s])
  {
    assert Back(p, q, q + s) == p + s;
    MovedAt(t, p, q, q + s);
    if Exists(t, q + s) {
      RenameTargetIsFree(t, p, q, q + s);
      assert p + s == p;
    }
  }

  lemma NothingIsLeft<V>(t: Tree<V>, p: Path, q: Path, s: Path)
    requires WellFormed(t) && Renames(t, p, q)
    ensures p + s !in Moved(t, p, q).dirs && p + s !in Moved(t, p, q).files
  {
    MovedAt(t, p, q, p + s);
    if q <= p + s {
      PrefixesAreNested(q, p, p + s);
      assert Below(q, p);
      AncestorsAreDirs(t, p, q);
    }
  }

  lemma PrefixesAreNested(a: Path, b: Path, c: Path)
    requires a <= c && b <= c
    ensures a <= b || b <= a
  {
    if |a| <= |b| {
      assert a == c[..|a|] && b == c[..|b|];
      assert a == b[..|a|];
    } else {
      assert a == c[..|a|] && b == c[..|b|];
      assert b == a[..|b|];
    }
  }

  /** When a rename does something: the source is there, and the target free or replaceable. */
  lemma RenamesWhen<V>(t: Tree<V>, p: Path, q: Path)
    requires WellFormed(t)
    ensures Renames(t, p, q) <==>
      && p != [] && q != [] && (p in t.dirs || p in t.files) && !(p <= q) && q[..|q| - 1] in t.dirs
      && (p in t.files ==> q !in t.dirs)
      && (p in t.dirs ==> q !in t.files && forall y | y in t.dirs || y in t.files :: !(q < y))
  {
    if p in t.dirs {
      if q !in t.dirs {
        forall y | y in t.dirs || y in t.files ensures !(q < y) {
          if q < y { AncestorsAreDirs(t, y, q); }
        }
      } else {
        assert Childless(t, q) <==> forall y | y in t.dirs || y in t.files :: !(q < y);
      }
    }
  }

  /** What a rename that does something leaves, at every place and path. */
  lemma RenamedEverywhere<V>(t: Tree<V>, u: Tree<V>, p: Path, q: Path)
    requires WellFormed(t) && Renames(t, p, q) && u == Moved(t, p, q)
    ensures forall s: Path ::
      && (q + s in u.dirs <==> p + s in t.dirs) && (q + s in u.files <==> p + s in t.files)
      && (p + s in t.files ==> u.files[q + s] == t.files[p + s])
      && p + s !in u.dirs && p + s !in u.files
    ensures forall x: Path | !(p <= x) && !(q <= x) ::
      && (x in u.dirs <==> x in t.dirs) && (x in u.files <==> x in t.files)
      && (x in t.files ==> u.files[x] == t.files[x])
  {
    forall s: Path
      ensures (q + s in u.dirs <==> p + s in t.dirs) && (q + s in u.files <==> p + s in t.files)
      ensures p + s in t.files ==> u.files[q + s] == t.files[p + s]
      ensures p + s !in u.dirs && p + s !in u.files
    {
      RenamedAt(t, u, p, q, s, []);
    }
    forall x: Path | !(p <= x) && !(q <= x)
      ensures (x in u.dirs <==> x in t.dirs) && (x in u.files <==> x in t.files)
      ensures x in t.files ==> u.files[x] == t.files[x]
    {
      RenamedAt(t, u, p, q, [], x);
    }
  }

  /** The same for the operation. */
  lemma RenameMovesAt(t: Tree<Bytes>, p: Path, q: Path, s: Path, x: Path)
    requires WellFormed(t)
    ensures var u := Apply(Rename(p, q), t);
      if p != [] && q != [] && (p in t.dirs || p in t.files) && !(p <= q) && q[..|q| - 1] in t.dirs
         && (p in t.files ==> q !in t.dirs)
         && (p in t.dirs ==> q !in t.files && forall y | y in t.dirs || y in t.files :: !(q < y))
      then
        && (q + s in u.dirs <==> p + s in t.dirs) && (q + s in u.files <==> p + s in t.files)
        && (p + s in t.files ==> u.files[q + s] == t.files[p + s])
        && p + s !in u.dirs && p + s !in u.files
        && (!(p <= x) && !(q <= x) ==>
              && (x in u.dirs <==> x in t.dirs) && (x in u.files <==> x in t.files)
              && (x in t.files ==> u.files[x] == t.files[x]))
      else u == t
  {
    RenamesWhen(t, p, q);
    RenamedAt(t, Apply(Rename(p, q), t), p, q, s, x);
  }

  // ------------------------------------------------------------------ well-formedness is kept

  lemma MovedDirsMember<V>(t: Tree<V>, p: Path, q: Path, g: Path)
    requires q <= g
    ensures g in MovedDirs(t, p, q) <==> Back(p, q, g) in t.dirs
  {
    BackIsInverse(p, q);
    BackIsInverse(q, p);
  }

  lemma MovedFilesMember<V>(t: Tree<V>, p: Path, q: Path, g: Path)
    requires q <= g
    ensures g in MovedFiles(t, p, q) <==> Back(p, q, g) in t.files
  {
    BackIsInverse(p, q);
    BackIsInverse(q, p);
  }

  /** What a rename leaves at each path. */
  lemma MovedAt<V>(t: Tree<V>, p: Path, q: Path, x: Path)
    requires !(p <= q)
    ensures x in Moved(t, p, q).dirs <==> (x in t.dirs && !(p <= x)) || (q <= x && Back(p, q, x) in t.dirs)
    ensures x in Moved(t, p, q).files <==> (x in t.files && !(p <= x)) || (q <= x && Back(p, q, x) in t.files)
    ensures q <= x && Back(p, q, x) in t.files ==> Moved(t, p, q).files[x] == t.files[Back(p, q, x)]
    ensures x in t.files && !(p <= x) && !(q <= x) ==> Moved(t, p, q).files[x] == t.files[x]
  {
    BackIsInverse(p, q);
    if q <= x {
      MovedDirsMember(t, p, q, x);
      MovedFilesMember(t, p, q, x);
    }
  }

  lemma RenameTargetIsFree<V>(t: Tree<V>, p: Path, q: Path, x: Path)
    requires WellFormed(t) && Renames(t, p, q) && q <= x && Exists(t, x)
    ensures x == q
    ensures p in t.files ==> x in t.files
    ensures p !in t.files ==> x in t.dirs
  {
    if x != q {
      assert Below(q, x);
      AncestorsAreDirs(t, x, q);
    }
  }

  /** The parent of a path that stays where it is. */
  lemma StayingParent<V>(t: Tree<V>, p: Path, q: Path, x: Path)
    requires WellFormed(t) && Renames(t, p, q) && Exists(t, x) && x != [] && !(p <= x)
    ensures Parent(x) in Moved(t, p, q).dirs
  {
    MovedAt(t, p, q, Parent(x));
    assert Parent(x) in t.dirs && !(p <= Parent(x));
  }

  /** The parent of a path that was moved. */
  lemma MovedParent<V>(t: Tree<V>, p: Path, q: Path, x: Path)
    requires WellFormed(t) && Renames(t, p, q) && q <= x && Exists(t, Back(p, q, x))
    ensures Parent(x) in Moved(t, p, q).dirs
  {
    MovedAt(t, p, q, Parent(x));
    if x == q {
      assert !(p <= Parent(q));
    } else {
      var y := Back(p, q, x);
      assert q <= Parent(x);
      assert Parent(y) == Back(p, q, Parent(x));
    }
  }

  lemma MovedStaysWellFormed<V>(t: Tree<V>, p: Path, q: Path)
    requires WellFormed(t) && Renames(t, p, q)
    ensures WellFormed(Moved(t, p, q))
  {
    var m := Moved(t, p, q);
    MovedAt(t, p, q, []);
    forall x: Path | Exists(m, x) && x != [] ensures Parent(x) in m.dirs {
      MovedAt(t, p, q, x);
      if Exists(t, x) && !(p <= x) {
        StayingParent(t, p, q, x);
      } else {
        MovedParent(t, p, q, x);
      }
    }
    forall x: Path ensures !(x in m.dirs && x in m.files) {
      MovedAt(t, p, q, x);
      if q <= x && Exists(t, x) {
        RenameTargetIsFree(t, p, q, x);
        assert Back(p, q, x) == p;
      }
    }
  }

  lemma ApplyKeepsWellFormed(op: Op, t: Tree<Bytes>)
    requires WellFormed(t)
    ensures WellFormed(Apply(op, t))
  {
    var u := Apply(op, t);
    match op
    case Rename(p, q) =>
      if Renames(t, p, q) { MovedStaysWellFormed(t, p, q); }
    case Rmdir(d) =>
      forall x: Path | Exists(u, x) && x != [] ensures Parent(x) in u.dirs {
        if Parent(x) == d && u != t { assert Below(d, x); }
      }
    case _ =>
  }

  // ------------------------------------------------------------------ operations are idempotent

  lemma OverwrittenTwice(was: Bytes, offset: nat, data: Bytes)
    ensures Overwritten(Overwritten(was, offset, data), offset, data) == Overwritten(was, offset, data)
  {
    if data != [] {
      var once := Overwritten(was, offset, data);
      assert once[..offset] == Resized(was, offset);
      assert once == once[..offset] + data + once[offset + |data|..];
    }
  }

  lemma RenamedAway(t: Tree<Bytes>, p: Path, q: Path)
    requires WellFormed(t) && Renames(t, p, q)
    ensures !Exists(Moved(t, p, q), p)
  {
    MovedAt(t, p, q, p);
    if q <= p {
      assert Below(q, p);
      AncestorsAreDirs(t, p, q);
    }
  }

  /**
   A server that executes an operation whose effect it already holds stays as it is. A replica
   that is rebuilt in the middle of a fan-out depends on it: it copies a predecessor that has
   executed the operation and then executes it again.
   */
  lemma ApplyIsIdempotent(op: Op, t: Tree<Bytes>)
    requires WellFormed(t)
    ensures Apply(op, Apply(op, t)) == Apply(op, t)
  {
    match op
    case Rename(p, q) =>
      if Renames(t, p, q) { RenamedAway(t, p, q); }
    case Write(p, off, data) =>
      if p in t.files { OverwrittenTwice(t.files[p], off, data); }
    case Truncate(p, n) =>
      if p in t.files { assert Resized(Resized(t.files[p], n), n) == Resized(t.files[p], n); }
    case _ =>
  }

  // ------------------------------------------------------------------ the tree a rebuild leaves

  /** The proper ancestors of a path, the root included. */
  function Ancestors(p: Path): set<Path> {
    set k | 0 <= k < |p| :: p[..k]
  }

  function AncestorsOf(ps: set<Path>): set<Path> {
    set p, d | p in ps && d in Ancestors(p) :: d
  }

  /** A rebuild copies the regular files and creates a directory only on the way to one. */
  function Rebuilt<V>(t: Tree<V>): Tree<V> {
    Tree({[]} + AncestorsOf(t.files.Keys), t.files)
  }

  lemma AncestorIff(p: Path, d: Path)
    ensures d in Ancestors(p) <==> Below(d, p)
  {
    if Below(d, p) { assert d == p[..|d|]; }
  }

  lemma AncestorsOfIff(ps: set<Path>, d: Path)
    ensures d in AncestorsOf(ps) <==> exists p :: p in ps && Below(d, p)
  {
    if d in AncestorsOf(ps) {
      var p :| p in ps && d in Ancestors(p);
      AncestorIff(p, d);
    }
    if p :| p in ps && Below(d, p) {
      AncestorIff(p, d);
    }
  }

  /** Every directory has a regular file somewhere below it. */
  ghost predicate FileBacked<V>(t: Tree<V>) {
    forall d | d in t.dirs && d != [] :: exists f :: f in t.files && Below(d, f)
  }

  /** The rebuilt tree is well formed, and it is the source exactly when no directory is lost. */
  lemma RebuiltExactlyWhenFileBacked<V>(t: Tree<V>)
    requires WellFormed(t)
    ensures WellFormed(Rebuilt(t))
    ensures Rebuilt(t).files == t.files && Rebuilt(t).dirs <= t.dirs
    ensures Rebuilt(t) == t <==> FileBacked(t)
  {
    var r := Rebuilt(t);
    forall d ensures d in r.dirs <==> d == [] || exists f :: f in t.files && Below(d, f) {
      AncestorsOfIff(t.files.Keys, d);
    }
    forall d | d in r.dirs ensures d in t.dirs {
      if d != [] {
        var f :| f in t.files && Below(d, f);
        AncestorsAreDirs(t, f, d);
      }
    }
    forall p: Path | Exists(r, p) && p != [] ensures Parent(p) in r.dirs {
      if p in t.files {
        assert Below(Parent(p), p);
      } else {
        var f :| f in t.files && Below(p, f);
        assert Below(Parent(p), f);
      }
    }
    if FileBacked(t) {
      assert r.dirs == t.dirs;
    }
    if r == t {
      forall d | d in t.dirs && d != [] ensures exists f :: f in t.files && Below(d, f) {
        assert d in r.dirs;
      }
    }
  }
}
