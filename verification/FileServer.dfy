/**
 A server: the disk behind it and the methods that change it, one per request. The digest is a
 parameter; it is stored beside each file by some methods and checked by `open`.
 */
module FileServer {
  import opened Octets
  import opened Trees
  import opened Wire

  type Digest = string

  /** A regular file with the digest stored beside it in the attribute `user.hash`. */
  datatype File = File(data: Bytes, stored: Digest, mtime: nat)

  predicate Intact(f: File, md5: Bytes -> Digest) {
    f.stored == md5(f.data)
  }

  ghost predicate AllIntact(t: Tree<File>, md5: Bytes -> Digest) {
    forall p | p in t.files :: Intact(t.files[p], md5)
  }

  function Contents(t: Tree<File>): Tree<Bytes> {
    Tree(t.dirs, map p | p in t.files :: t.files[p].data)
  }

  datatype OpenReply = OpenReply(corrupt: bool, mtime: nat, digest: Digest)

  /** `server_open` of an existing file: the digest is computed anew and compared with the stored one. */
  function Opened(f: File, md5: Bytes -> Digest): OpenReply {
    OpenReply(!Intact(f, md5), f.mtime, md5(f.data))
  }

  function Truncated(f: File, size: nat, now: nat): File {
    f.(data := Resized(f.data, size), mtime := now)
  }

  /** pwrite(2): an empty write does not set the time. */
  function Overwriting(f: File, offset: nat, data: Bytes, now: nat): File {
    File(Overwritten(f.data, offset, data), f.stored, if data == [] then f.mtime else now)
  }

  ghost predicate CollisionFree(md5: Bytes -> Digest) {
    forall a, b :: md5(a) == md5(b) ==> a == b
  }

  /** `server_truncate` does not refresh the digest: an intact file stays so only at its own size. */
  lemma TruncateKeepsIntactIffSameSize(f: File, size: nat, now: nat, md5: Bytes -> Digest)
    requires Intact(f, md5) && CollisionFree(md5)
    ensures Intact(Truncated(f, size, now), md5) <==> size == |f.data|
  {
    if size == |f.data| {
      assert Resized(f.data, size) == f.data;
    } else {
      assert |Resized(f.data, size)| != |f.data|;
    }
  }

  // ------------------------------------------------------------------ trees below a path

  /** No directory lists a file under a name that readdir uses for the directory or its parent. */
  ghost predicate ProperNames<V>(t: Tree<V>) {
    forall p, k | Exists(t, p) && 0 <= k < |p| :: p[k] != "." && p[k] != ".."
  }

  ghost function DirsFrom(dirs: set<Path>, path: Path): set<Path> {
    set d | d in dirs && path <= d
  }

  function Child(path: Path, name: string): Path {
    path + [name]
  }

  function ChildNames<V>(t: Tree<V>, path: Path): set<string> {
    (set d | d in t.dirs && Below(path, d) && |d| == |path| + 1 :: d[|path|]) +
    (set f | f in t.files && Below(path, f) && |f| == |path| + 1 :: f[|path|])
  }

  lemma ChildNamesExist<V>(t: Tree<V>, path: Path, name: string)
    ensures name in ChildNames(t, path) <==> Exists(t, Child(path, name))
  {
    var c := Child(path, name);
    assert Below(path, c) && c[|path|] == name;
    forall d: Path | Below(path, d) && |d| == |path| + 1 && d[|path|] == name ensures d == c {
    }
  }

  lemma FirstStep(path: Path, name: string, d: Path)
    ensures Child(path, name) <= d <==> Below(path, d) && d[|path|] == name
  {
    var c := Child(path, name);
    if c <= d {
      assert d[..|path|] == c[..|path|] == path;
    }
    if Below(path, d) && d[|path|] == name {
      assert d[..|path| + 1] == c;
    }
  }

  lemma DirsFromShrinks(dirs: set<Path>, path: Path, name: string)
    requires path in dirs
    ensures DirsFrom(dirs, Child(path, name)) < DirsFrom(dirs, path)
  {
    assert path in DirsFrom(dirs, path) && path !in DirsFrom(dirs, Child(path, name));
    forall d | d in DirsFrom(dirs, Child(path, name)) ensures d in DirsFrom(dirs, path) {
      FirstStep(path, name, d);
    }
  }

  /** What is left of a disk when all below `path` under the first `j` names is gone. */
  ghost function Cleared<V>(t: Tree<V>, path: Path, names: seq<string>, j: nat): Tree<V>
    requires j <= |names|
  {
    Tree((set d | d in t.dirs && !(Below(path, d) && d[|path|] in names[..j])),
         t.files - FilesUnder(t, path, names, j))
  }

  lemma ClearedOneMore<V>(t: Tree<V>, path: Path, names: seq<string>, j: nat)
    requires WellFormed(t) && j < |names|
    ensures var c := Child(path, names[j]); var before := Cleared(t, path, names, j);
      && Cleared(t, path, names, j + 1).dirs == (set d | d in before.dirs && !(c <= d))
      && Cleared(t, path, names, j + 1).files == before.files - (if c in t.files then {c} else FilesBelow(t, c))
  {
    assert names[..j + 1] == names[..j] + [names[j]];
    FilesUnderGrows(t, path, names, j);
    forall d { FirstStep(path, names[j], d); }
  }

  lemma ClearedWellFormed<V>(t: Tree<V>, path: Path, names: seq<string>, j: nat)
    requires WellFormed(t) && j <= |names|
    ensures WellFormed(Cleared(t, path, names, j))
  {
    var u := Cleared(t, path, names, j);
    forall p: Path | Exists(u, p) && p != [] ensures Parent(p) in u.dirs {
      if Below(path, Parent(p)) { assert Parent(p)[|path|] == p[|path|] && Below(path, p); }
    }
  }

  lemma FileHasNothingBelow<V>(t: Tree<V>, p: Path)
    requires WellFormed(t) && p in t.files
    ensures forall x | Exists(t, x) && p <= x :: x == p
  {
    forall x | Exists(t, x) && p <= x ensures x == p {
      if x != p { AncestorsAreDirs(t, x, p); }
    }
  }

  lemma ProperChildren<V>(t: Tree<V>, path: Path)
    requires ProperNames(t)
    ensures "." !in ChildNames(t, path) && ".." !in ChildNames(t, path)
  {
    ChildNamesExist(t, path, ".");
    ChildNamesExist(t, path, "..");
    assert Child(path, ".")[|path|] == "." && Child(path, "..")[|path|] == "..";
  }

  lemma NothingUnderDots<V>(t: Tree<V>, path: Path, name: string)
    requires ProperNames(t) && (name == "." || name == "..")
    ensures forall p | Exists(t, p) :: !(Child(path, name) <= p)
  {
    forall p | Exists(t, p) ensures !(Child(path, name) <= p) {
      FirstStep(path, name, p);
    }
  }

  lemma AllCleared<V>(t: Tree<V>, path: Path, names: seq<string>)
    requires WellFormed(t) && forall n :: n in ChildNames(t, path) ==> n in names
    ensures Cleared(t, path, names, |names|).dirs == set d | d in t.dirs && !Below(path, d)
  {
    forall d | d in t.dirs && Below(path, d) ensures d[|path|] in names[..|names|] {
      var c := Child(path, d[|path|]);
      FirstStep(path, d[|path|], d);
      if c != d { AncestorsAreDirs(t, d, c); }
      ChildNamesExist(t, path, d[|path|]);
    }
  }

  /** The files below `path` whose first step is one of the first `j` names. */
  ghost function FilesUnder<V>(t: Tree<V>, path: Path, names: seq<string>, j: nat): set<Path>
    requires j <= |names|
  {
    set f | f in t.files && Below(path, f) && f[|path|] in names[..j]
  }

  ghost function FilesBelow<V>(t: Tree<V>, path: Path): set<Path> {
    set f | f in t.files && Below(path, f)
  }

  lemma FilesUnderGrows<V>(t: Tree<V>, path: Path, names: seq<string>, j: nat)
    requires WellFormed(t) && j < |names|
    ensures var c := Child(path, names[j]);
      FilesUnder(t, path, names, j + 1) ==
        FilesUnder(t, path, names, j) + (if c in t.files then {c} else FilesBelow(t, c))
  {
    var c := Child(path, names[j]);
    var under := if c in t.files then {c} else FilesBelow(t, c);
    assert names[..j + 1] == names[..j] + [names[j]];
    forall f: Path
      ensures f in t.files && Below(path, f) && f[|path|] == names[j] <==> f in under
    {
      if f in t.files && c <= f && c != f {
        AncestorsAreDirs(t, f, c);
      }
      if f in t.files && Below(path, f) && f[|path|] == names[j] {
        assert f[..|path| + 1] == c;
      }
      if c <= f {
        assert f[..|path| + 1] == c && f[..|path|] == path;
      }
    }
  }

  lemma FilesUnderAll<V>(t: Tree<V>, path: Path, names: seq<string>)
    requires WellFormed(t)
    requires forall n :: n in ChildNames(t, path) ==> n in names
    ensures FilesUnder(t, path, names, |names|) == FilesBelow(t, path)
  {
    forall f | f in t.files && Below(path, f) ensures f[|path|] in names[..|names|] {
      var c := Child(path, f[|path|]);
      assert c == f[..|path| + 1];
      if c != f { AncestorsAreDirs(t, f, c); }
      ChildNamesExist(t, path, f[|path|]);
    }
  }

  lemma AncestorsOfUnion(a: set<Path>, b: set<Path>)
    ensures AncestorsOf(a + b) == AncestorsOf(a) + AncestorsOf(b)
  {
  }

  lemma AncestorsOfOne(p: Path)
    ensures AncestorsOf({p}) == Ancestors(p)
  {
  }

  lemma ContentsCommute(t: Tree<File>, p: Path, q: Path)
    requires WellFormed(t) && Renames(t, p, q)
    ensures Renames(Contents(t), p, q)
    ensures Contents(Moved(t, p, q)) == Moved(Contents(t), p, q)
  {
    var c := Contents(t);
    forall x ensures x in Moved(t, p, q).files <==> x in Moved(c, p, q).files
      ensures x in Moved(t, p, q).files ==> Moved(t, p, q).files[x].data == Moved(c, p, q).files[x]
      ensures x in Moved(t, p, q).dirs <==> x in Moved(c, p, q).dirs
    {
      MovedAt(t, p, q, x);
      MovedAt(c, p, q, x);
      if q <= x && x in t.files { RenameTargetIsFree(t, p, q, x); }
    }
  }

  lemma MovedKeepsIntact(t: Tree<File>, p: Path, q: Path, md5: Bytes -> Digest)
    requires WellFormed(t) && Renames(t, p, q)
    ensures AllIntact(t, md5) ==> AllIntact(Moved(t, p, q), md5)
  {
    forall x | x in Moved(t, p, q).files
      ensures exists y :: y in t.files && Moved(t, p, q).files[x] == t.files[y]
    {
      MovedAt(t, p, q, x);
      if q <= x && x in t.files {
        RenameTargetIsFree(t, p, q, x);
        assert Back(p, q, x) == p;
      }
      var y := if q <= x then Back(p, q, x) else x;
      assert y in t.files && Moved(t, p, q).files[x] == t.files[y];
    }
  }

  lemma RenameOfContents(t: Tree<File>, p: Path, q: Path, md5: Bytes -> Digest)
    requires WellFormed(t)
    ensures Renames(Contents(t), p, q) <==> Renames(t, p, q)
    ensures Apply(Op.Rename(p, q), Contents(t)) == if Renames(t, p, q) then Contents(Moved(t, p, q)) else Contents(t)
    ensures Renames(t, p, q) && AllIntact(t, md5) ==> AllIntact(Moved(t, p, q), md5)
  {
    if Renames(t, p, q) {
      ContentsCommute(t, p, q);
      MovedKeepsIntact(t, p, q, md5);
    }
  }

  // ------------------------------------------------------------------ requests

  /** The disk with the digest of the file at `p` stored anew; `hasher_save_for`. */
  function Hashed(t: Tree<File>, p: Path, md5: Bytes -> Digest): Tree<File> {
    if p in t.files then t.(files := t.files[p := t.files[p].(stored := md5(t.files[p].data))]) else t
  }

  /** What each mutating request makes of the disk, digests and times included. */
  function Handled(op: Op, t: Tree<File>, md5: Bytes -> Digest, now: nat): Tree<File> {
    match op
    case Mknod(p) => Hashed(if Creates(t, p) then t.(files := t.files[p := File([], "", now)]) else t, p, md5)
    case Mkdir(p) => if Creates(t, p) then t.(dirs := t.dirs + {p}) else t
    case Unlink(p) => t.(files := t.files - {p})
    case Rmdir(p) => if p in t.dirs && p != [] && Childless(t, p) then t.(dirs := t.dirs - {p}) else t
    case Rename(p, q) => if Renames(t, p, q) then Moved(t, p, q) else t
    case Truncate(p, n) => if p in t.files then t.(files := t.files[p := Truncated(t.files[p], n, now)]) else t
    case Write(p, off, data) =>
      if p !in t.files then t
      else
        var f := Overwriting(t.files[p], off, data, now);
        Hashed(t.(files := t.files[p := f]), p, md5)
  }

  lemma SameShape(t: Tree<File>)
    ensures WellFormed(Contents(t)) <==> WellFormed(t)
  {
    assert Contents(t).files.Keys == t.files.Keys;
    forall p: Path ensures Exists(Contents(t), p) <==> Exists(t, p) {
    }
    if WellFormed(Contents(t)) {
      forall p: Path | Exists(t, p) && p != [] ensures Parent(p) in t.dirs {
        assert Exists(Contents(t), p);
      }
    }
    if WellFormed(t) {
      forall p: Path | Exists(Contents(t), p) && p != [] ensures Parent(p) in t.dirs {
        assert Exists(t, p);
      }
    }
  }

  lemma ContentsOfHashed(t: Tree<File>, p: Path, md5: Bytes -> Digest)
    ensures Contents(Hashed(t, p, md5)) == Contents(t)
  {
  }

  lemma ContentsOfFile(t: Tree<File>, p: Path, f: File)
    ensures Contents(t.(files := t.files[p := f])) == Contents(t).(files := Contents(t).files[p := f.data])
  {
  }

  lemma ContentsOfHandled(op: Op, t: Tree<File>, md5: Bytes -> Digest, now: nat)
    requires WellFormed(t)
    ensures Contents(Handled(op, t, md5, now)) == Apply(op, Contents(t))
  {
    match op
    case Mknod(p) =>
      var f := File([], "", now);
      ContentsOfFile(t, p, f);
      ContentsOfHashed(t.(files := t.files[p := f]), p, md5);
      ContentsOfHashed(t, p, md5);
    case Mkdir(p) =>
    case Unlink(p) => assert Contents(t.(files := t.files - {p})).files == Contents(t).files - {p};
    case Rmdir(p) =>
    case Rename(p, q) => RenameOfContents(t, p, q, md5);
    case Truncate(p, n) => if p in t.files { ContentsOfFile(t, p, Truncated(t.files[p], n, now)); }
    case Write(p, off, data) =>
      if p in t.files {
        var f := Overwriting(t.files[p], off, data, now);
        ContentsOfFile(t, p, f);
        ContentsOfHashed(t.(files := t.files[p := f]), p, md5);
      }
  }

  /** Seen without digests and times a request has the effect of its path operation. */
  lemma HandledIsApplied(op: Op, t: Tree<File>, md5: Bytes -> Digest, now: nat)
    requires WellFormed(t)
    ensures WellFormed(Handled(op, t, md5, now))
    ensures Contents(Handled(op, t, md5, now)) == Apply(op, Contents(t))
  {
    ContentsOfHandled(op, t, md5, now);
    SameShape(t);
    ApplyKeepsWellFormed(op, Contents(t));
    SameShape(Handled(op, t, md5, now));
  }

  /** The request cuts or pads a file. */
  predicate ChangesSize(op: Op, t: Tree<File>) {
    op.Truncate? && op.path in t.files && op.size != |t.files[op.path].data|
  }

  lemma HandledStaysIntact(op: Op, t: Tree<File>, md5: Bytes -> Digest, now: nat)
    requires WellFormed(t) && AllIntact(t, md5) && !ChangesSize(op, t)
    ensures AllIntact(Handled(op, t, md5, now), md5)
  {
    match op
    case Rename(p, q) => RenameOfContents(t, p, q, md5);
    case Truncate(p, n) =>
      if p in t.files { assert Resized(t.files[p].data, n) == t.files[p].data; }
    case _ =>
  }

  /** Only a truncation that changes the size leaves a file whose digest is not that of its content. */
  lemma HandledKeepsIntactIff(op: Op, t: Tree<File>, md5: Bytes -> Digest, now: nat)
    requires WellFormed(t) && AllIntact(t, md5) && CollisionFree(md5)
    ensures AllIntact(Handled(op, t, md5, now), md5) <==> !ChangesSize(op, t)
  {
    if ChangesSize(op, t) {
      TruncateKeepsIntactIffSameSize(t.files[op.path], op.size, now, md5);
      assert Handled(op, t, md5, now).files[op.path] == Truncated(t.files[op.path], op.size, now);
    } else {
      HandledStaysIntact(op, t, md5, now);
    }
  }

  lemma AncestorsStep(p: Path)
    requires p != []
    ensures Ancestors(p) == Ancestors(Parent(p)) + {Parent(p)}
  {
    forall d ensures d in Ancestors(p) <==> d in Ancestors(Parent(p)) || d == Parent(p) {
      AncestorIff(p, d);
      AncestorIff(Parent(p), d);
    }
  }

  lemma AncestorsExist<V>(t: Tree<V>, p: Path)
    requires WellFormed(t) && Exists(t, p)
    ensures Ancestors(p) <= t.dirs
  {
    forall d | d in Ancestors(p) ensures d in t.dirs {
      AncestorIff(p, d);
      AncestorsAreDirs(t, p, d);
    }
  }

  // ------------------------------------------------------------------ runs of requests and rebuilds

  function Stamped(data: Bytes, md5: Bytes -> Digest, time: nat): File {
    File(data, md5(data), time)
  }

  /** What a whole rebuild leaves: the files of the source, stamped, and the directories on the way to them. */
  function Duplicated(source: Tree<File>, md5: Bytes -> Digest, time: nat): Tree<File> {
    Tree({[]} + AncestorsOf(source.files.Keys),
         map f | f in source.files :: Stamped(source.files[f].data, md5, time))
  }

  /** Contents and directories are those of the rebuilt source, and every digest is right. */
  lemma DuplicatedIsRebuilt(source: Tree<File>, md5: Bytes -> Digest, time: nat)
    ensures Contents(Duplicated(source, md5, time)) == Rebuilt(Contents(source))
    ensures AllIntact(Duplicated(source, md5, time), md5)
  {
    assert Contents(source).files.Keys == source.files.Keys;
  }

  /** No ancestor of the path is a file, and the path is no directory. */
  predicate Restorable(t: Tree<File>, path: Path) {
    path != [] && path !in t.dirs && forall d | d in Ancestors(path) :: d !in t.files
  }

  lemma ParentDecides(t: Tree<File>, path: Path)
    requires WellFormed(t) && path != [] && path !in t.dirs
    ensures Parent(path) in t.dirs ==> Restorable(t, path) && t.dirs + Ancestors(path) == t.dirs
    ensures Parent(path) in t.files ==> !Restorable(t, path)
  {
    AncestorsStep(path);
    if Parent(path) in t.dirs {
      AncestorsExist(t, Parent(path));
    }
  }

  /** What a restore of one file leaves; a source without the file sends an empty one. */
  function Restocked(t: Tree<File>, path: Path, data: Bytes, md5: Bytes -> Digest, time: nat): Tree<File> {
    if Restorable(t, path) then Tree(t.dirs + Ancestors(path), t.files[path := Stamped(data, md5, time)]) else t
  }

  lemma RestockedIs(t: Tree<File>, path: Path, data: Bytes, md5: Bytes -> Digest, time: nat)
    ensures var u := Restocked(t, path, data, md5, time);
      if path != [] && path !in t.dirs && (forall k | 0 <= k < |path| :: path[..k] !in t.files) then
        && Restorable(t, path)
        && u.files == t.files[path := File(data, md5(data), time)]
        && (forall d :: d in u.dirs <==> d in t.dirs || d < path)
      else !Restorable(t, path) && u == t
  {
    forall d { AncestorIff(path, d); }
    forall k | 0 <= k < |path| ensures path[..k] in Ancestors(path) {
    }
  }

  lemma RestockedStaysWellFormed(t: Tree<File>, path: Path, data: Bytes, md5: Bytes -> Digest, time: nat)
    requires WellFormed(t)
    ensures WellFormed(Restocked(t, path, data, md5, time))
  {
    var u := Restocked(t, path, data, md5, time);
    if Restorable(t, path) {
      AncestorIff(path, path);
      forall p: Path | Exists(u, p) && p != [] ensures Parent(p) in u.dirs {
        AncestorIff(path, p);
        AncestorIff(path, Parent(p));
      }
    }
  }

  lemma DuplicatedIsWellFormed(source: Tree<File>, md5: Bytes -> Digest, time: nat)
    requires WellFormed(source)
    ensures WellFormed(Duplicated(source, md5, time))
  {
    SameShape(source);
    SameShape(Duplicated(source, md5, time));
    DuplicatedIsRebuilt(source, md5, time);
    RebuiltExactlyWhenFileBacked(Contents(source));
  }

  /** What a server is asked to do; the data of a restore and the disk of a rebuild come from another server. */
  datatype Task =
    | Handle(op: Op, time: nat)
    | Restore(path: Path, data: Bytes, time: nat)
    | RestoreAll(source: Tree<File>, time: nat)

  function Performed(task: Task, t: Tree<File>, md5: Bytes -> Digest): Tree<File> {
    match task
    case Handle(op, time) => Handled(op, t, md5, time)
    case Restore(path, data, time) => Restocked(t, path, data, md5, time)
    case RestoreAll(source, time) => Duplicated(source, md5, time)
  }

  ghost function AllPerformed(tasks: seq<Task>, t: Tree<File>, md5: Bytes -> Digest): Tree<File> {
    if tasks == [] then t else AllPerformed(tasks[1..], Performed(tasks[0], t, md5), md5)
  }

  /** The rebuilds copy disks that are well formed; whether their digests are right does not matter. */
  ghost predicate Workable(tasks: seq<Task>) {
    forall task | task in tasks :: task.RestoreAll? ==> WellFormed(task.source)
  }

  ghost predicate NoTruncates(tasks: seq<Task>) {
    forall task | task in tasks :: task.Handle? ==> !task.op.Truncate?
  }

  lemma PerformedStaysIntact(task: Task, t: Tree<File>, md5: Bytes -> Digest)
    requires WellFormed(t) && AllIntact(t, md5)
    requires task.RestoreAll? ==> WellFormed(task.source)
    requires task.Handle? ==> !task.op.Truncate?
    ensures WellFormed(Performed(task, t, md5)) && AllIntact(Performed(task, t, md5), md5)
  {
    match task
    case Handle(op, time) =>
      HandledIsApplied(op, t, md5, time);
      HandledStaysIntact(op, t, md5, time);
    case Restore(path, data, time) => RestockedStaysWellFormed(t, path, data, md5, time);
    case RestoreAll(source, time) =>
      DuplicatedIsWellFormed(source, md5, time);
      DuplicatedIsRebuilt(source, md5, time);
  }

  /**
   Over every run of requests other than truncate, restores and rebuilds no file becomes corrupt:
   no `open` reports ERRHASH.
   */
  lemma {:induction false} RunsKeepIntact(tasks: seq<Task>, t: Tree<File>, md5: Bytes -> Digest)
    requires WellFormed(t) && AllIntact(t, md5) && Workable(tasks) && NoTruncates(tasks)
    ensures var u := AllPerformed(tasks, t, md5);
      WellFormed(u) && AllIntact(u, md5) && forall p | p in u.files :: !Opened(u.files[p], md5).corrupt
  {
    if tasks != [] {
      assert tasks[0] in tasks;
      PerformedStaysIntact(tasks[0], t, md5);
      RunsKeepIntact(tasks[1..], Performed(tasks[0], t, md5), md5);
    }
  }

  ghost function Applied(ops: seq<Op>, t: Tree<Bytes>): Tree<Bytes> {
    if ops == [] then t else Applied(ops[1..], Apply(ops[0], t))
  }

  function Handles(ops: seq<Op>, clock: nat -> nat): (r: seq<Task>)
    ensures |r| == |ops| && forall k | 0 <= k < |ops| :: r[k] == Handle(ops[k], clock(|ops| - 1 - k))
  {
    seq(|ops|, k requires 0 <= k < |ops| => Handle(ops[k], clock(|ops| - 1 - k)))
  }

  /** Over every run of requests, truncate included, the contents are those of the path operations. */
  lemma {:induction false} RunsAreApplied(ops: seq<Op>, t: Tree<File>, md5: Bytes -> Digest, clock: nat -> nat)
    requires WellFormed(t)
    ensures Contents(AllPerformed(Handles(ops, clock), t, md5)) == Applied(ops, Contents(t))
  {
    if ops != [] {
      var u := Handled(ops[0], t, md5, clock(|ops| - 1));
      HandledIsApplied(ops[0], t, md5, clock(|ops| - 1));
      assert Handles(ops, clock)[1..] == Handles(ops[1..], clock);
      RunsAreApplied(ops[1..], u, md5, clock);
    }
  }

  // ------------------------------------------------------------------ copying from another disk

  /** `now` is `base` with the files of `done` as `source` has them, stamped, and the directories on the way. */
  ghost predicate Filled(
    base: Tree<File>, now: Tree<File>, source: Tree<File>, done: set<Path>, md5: Bytes -> Digest, time: nat)
  {
    && now.dirs == base.dirs + AncestorsOf(done)
    && now.files.Keys == base.files.Keys + done
    && (forall f | f in done :: f in source.files && now.files[f] == Stamped(source.files[f].data, md5, time))
    && (forall f | f in base.files && f !in done :: now.files[f] == base.files[f])
  }

  /** Every file fits into an image whose length is an `int`. */
  ghost predicate Shippable(t: Tree<File>) {
    forall f | f in t.files :: |t.files[f].data| + 4 < INT_LIMIT
  }

  lemma EmptiedRoot(before: Tree<File>, after: Tree<File>)
    requires WellFormed(before)
    requires after.dirs == set d | d in before.dirs && !Below([], d)
    requires after.files == before.files - FilesBelow(before, [])
    ensures after == Tree({[]}, map[])
  {
    forall d: Path ensures Below([], d) <==> d != [] {
    }
    assert after.dirs == {[]};
    assert FilesBelow(before, []) == before.files.Keys;
  }

  /** Every path of `t` has in `s` the kind it has in `t`. */
  ghost predicate Within(t: Tree<File>, s: Tree<File>) {
    t.dirs <= s.dirs && t.files.Keys <= s.files.Keys
  }

  lemma FilledInSteps(a: Tree<File>, b: Tree<File>, c: Tree<File>, source: Tree<File>,
                      x: set<Path>, y: set<Path>, md5: Bytes -> Digest, time: nat)
    requires Filled(a, b, source, x, md5, time) && Filled(b, c, source, y, md5, time)
    ensures Filled(a, c, source, x + y, md5, time)
  {
    AncestorsOfUnion(x, y);
  }

  lemma FilledStaysWithin(
    base: Tree<File>, now: Tree<File>, source: Tree<File>, done: set<Path>, md5: Bytes -> Digest, time: nat)
    requires Filled(base, now, source, done, md5, time) && WellFormed(source) && Within(base, source)
    ensures Within(now, source)
  {
    forall d | d in AncestorsOf(done) ensures d in source.dirs {
      var f :| f in done && d in Ancestors(f);
      AncestorsExist(source, f);
    }
  }

  /** The files that copying the child `name` of `path` brings. */
  ghost function Brought(source: Tree<File>, path: Path, name: string): set<Path> {
    var c := Child(path, name);
    if c in source.files then {c} else FilesBelow(source, c)
  }

  lemma CopiedOneMore(base: Tree<File>, mid: Tree<File>, now: Tree<File>, source: Tree<File>,
                      path: Path, names: seq<string>, j: nat, md5: Bytes -> Digest, time: nat)
    requires WellFormed(source) && Within(mid, source) && j < |names|
    requires Filled(base, mid, source, FilesUnder(source, path, names, j), md5, time)
    requires Filled(mid, now, source, Brought(source, path, names[j]), md5, time)
    ensures Within(now, source) && Filled(base, now, source, FilesUnder(source, path, names, j + 1), md5, time)
  {
    FilesUnderGrows(source, path, names, j);
    var before, brought := FilesUnder(source, path, names, j), Brought(source, path, names[j]);
    FilledInSteps(base, mid, now, source, before, brought, md5, time);
    FilledStaysWithin(mid, now, source, Brought(source, path, names[j]), md5, time);
  }

  lemma NothingBelowDots(mid: Tree<File>, source: Tree<File>, path: Path, name: string, md5: Bytes -> Digest, time: nat)
    requires ProperNames(source) && (name == "." || name == "..")
    ensures Filled(mid, mid, source, Brought(source, path, name), md5, time)
  {
    NothingUnderDots(source, path, name);
    forall f ensures f !in Brought(source, path, name) {
      assert f in Brought(source, path, name) ==> Exists(source, f) && Child(path, name) <= f;
    }
    assert Brought(source, path, name) == {};
    assert AncestorsOf({}) == {};
  }

  lemma FilledFromEmpty(now: Tree<File>, source: Tree<File>, md5: Bytes -> Digest, time: nat)
    requires WellFormed(source) && Filled(Tree({[]}, map[]), now, source, FilesBelow(source, []), md5, time)
    ensures now == Duplicated(source, md5, time)
  {
    assert FilesBelow(source, []) == source.files.Keys;
  }

  // ------------------------------------------------------------------ the server

  class Server {
    const md5: Bytes -> Digest
    var dirs: set<Path>
    var files: map<Path, File>

    ghost function Disk(): Tree<File>
      reads this
    {
      Tree(dirs, files)
    }

    ghost function View(): Tree<Bytes>
      reads this
    {
      Contents(Disk())
    }

    constructor (md5: Bytes -> Digest)
      ensures Disk() == Tree({[]}, map[]) && WellFormed(Disk()) && this.md5 == md5
    {
      this.md5 := md5;
      dirs := {[]};
      files := map[];
    }

    /** `hasher_save_for`: a path without a regular file gets no digest. */
    method SaveHash(path: Path)
      modifies this`files
      ensures Disk() == Hashed(old(Disk()), path, md5)
      ensures files.Keys == old(files).Keys && forall f | f in files ::
        if f == path then files[f] == File(old(files)[f].data, md5(old(files)[f].data), old(files)[f].mtime)
        else files[f] == old(files)[f]
    {
      if path in files {
        files := files[path := files[path].(stored := md5(files[path].data))];
      }
    }

    method Mknod(path: Path, now: nat) returns (created: bool)
      modifies this`files
      ensures created <==> Creates(old(Disk()), path)
      ensures Disk() == Handled(Op.Mknod(path), old(Disk()), md5, now)
      ensures created <==>
        path != [] && path !in dirs && path !in old(files) && path[..|path| - 1] in dirs
      ensures created ==> files == old(files)[path := File([], md5([]), now)]
      ensures !created ==> files.Keys == old(files).Keys && forall f | f in files ::
        if f == path then files[f] == File(old(files)[f].data, md5(old(files)[f].data), old(files)[f].mtime)
        else files[f] == old(files)[f]
    {
      created := path != [] && path !in dirs && path !in files && Parent(path) in dirs;
      if created {
        files := files[path := File([], "", now)];
      }
      SaveHash(path);
    }

    method Mkdir(path: Path) returns (created: bool)
      modifies this`dirs
      ensures created <==> Creates(old(Disk()), path)
      ensures Disk() == Handled(Op.Mkdir(path), old(Disk()), md5, 0)
      ensures created <==>
        path != [] && path !in old(dirs) && path !in files && path[..|path| - 1] in old(dirs)
      ensures dirs == if created then old(dirs) + {path} else old(dirs)
    {
      created := path != [] && path !in dirs && path !in files && Parent(path) in dirs;
      if created {
        dirs := dirs + {path};
      }
    }

    method Unlink(path: Path) returns (removed: bool)
      modifies this`files
      ensures removed <==> path in old(files)
      ensures Disk() == Handled(Op.Unlink(path), old(Disk()), md5, 0)
      ensures files == old(files) - {path}
    {
      removed := path in files;
      files := files - {path};
    }

    method Rmdir(path: Path) returns (removed: bool)
      modifies this`dirs
      ensures removed <==> path in old(dirs) && path != [] && Childless(old(Disk()), path)
      ensures Disk() == Handled(Op.Rmdir(path), old(Disk()), md5, 0)
      ensures removed <==>
        path in old(dirs) && path != [] && forall y | y in old(dirs) || y in files :: !(path < y)
      ensures dirs == if removed then old(dirs) - {path} else old(dirs)
    {
      removed := path in dirs && path != [] && Childless(Tree(dirs, files), path);
      if removed {
        dirs := dirs - {path};
      }
    }

    method Rename(path: Path, newpath: Path) returns (renamed: bool)
      modifies this
      ensures renamed <==> Renames(old(Disk()), path, newpath)
      ensures Disk() == Handled(Op.Rename(path, newpath), old(Disk()), md5, 0)
      ensures WellFormed(old(Disk())) ==> (renamed <==>
        && path != [] && newpath != [] && (path in old(dirs) || path in old(files)) && !(path <= newpath)
        && newpath[..|newpath| - 1] in old(dirs)
        && (path in old(files) ==> newpath !in old(dirs))
        && (path in old(dirs) ==>
              newpath !in old(files) && forall y | y in old(dirs) || y in old(files) :: !(newpath < y)))
      ensures !renamed ==> dirs == old(dirs) && files == old(files)
      ensures renamed && WellFormed(old(Disk())) ==> forall s: Path ::
        && (newpath + s in dirs <==> path + s in old(dirs)) && (newpath + s in files <==> path + s in old(files))
        && (path + s in old(files) ==> files[newpath + s] == old(files)[path + s])
        && path + s !in dirs && path + s !in files
      ensures renamed && WellFormed(old(Disk())) ==> forall x: Path | !(path <= x) && !(newpath <= x) ::
        && (x in dirs <==> x in old(dirs)) && (x in files <==> x in old(files))
        && (x in files ==> files[x] == old(files)[x])
    {
      var before := Tree(dirs, files);
      renamed := Renames(before, path, newpath);
      if WellFormed(before) {
        RenamesWhen(before, path, newpath);
      }
      if renamed {
        var after := Moved(before, path, newpath);
        if WellFormed(before) {
          RenamedEverywhere(before, after, path, newpath);
        }
        dirs, files := after.dirs, after.files;
        assert Disk() == after == Handled(Op.Rename(path, newpath), before, md5, 0);
      }
    }

    method Truncate(path: Path, size: nat, now: nat) returns (done: bool)
      modifies this`files
      ensures done <==> path in old(files)
      ensures Disk() == Handled(Op.Truncate(path, size), old(Disk()), md5, now)
      ensures files.Keys == old(files).Keys && forall f | f in files && f != path :: files[f] == old(files)[f]
      ensures done ==>
        var was := old(files)[path];
        && |files[path].data| == size && files[path].stored == was.stored && files[path].mtime == now
        && forall k | 0 <= k < size :: files[path].data[k] == if k < |was.data| then was.data[k] else 0
    {
      done := path in files;
      if done {
        files := files[path := files[path].(data := Resized(files[path].data, size), mtime := now)];
      }
    }

    /** `server_write` through a descriptor that names the file at `path`. */
    method Write(path: Path, offset: nat, data: Bytes, now: nat) returns (done: bool)
      modifies this`files
      ensures done <==> path in old(files)
      ensures Disk() == Handled(Op.Write(path, offset, data), old(Disk()), md5, now)
      ensures files.Keys == old(files).Keys && forall f | f in files && f != path :: files[f] == old(files)[f]
      ensures done && data == [] ==>
        files[path].data == old(files)[path].data && files[path].mtime == old(files)[path].mtime
      ensures done && data != [] ==>
        var was, after, end := old(files)[path].data, files[path].data, offset + |data|;
        && files[path].mtime == now && |after| == (if end <= |was| then |was| else end)
        && (forall k | offset <= k < end :: after[k] == data[k - offset])
        && (forall k | 0 <= k < |after| && !(offset <= k < end) :: after[k] == if k < |was| then was[k] else 0)
      ensures done ==> files[path].stored == md5(files[path].data)
    {
      if path in files && data != [] {
        forall k: nat { OverwrittenAt(files[path].data, offset, data, k); }
      }
      done := path in files;
      if done {
        files := files[path := Overwriting(files[path], offset, data, now)];
        SaveHash(path);
      }
    }

    method Open(path: Path) returns (reply: OpenReply)
      requires path in files
      ensures reply == Opened(files[path], md5)
      ensures reply.corrupt <==> files[path].stored != md5(files[path].data)
      ensures reply.mtime == files[path].mtime && reply.digest == md5(files[path].data)
    {
      var hash := md5(files[path].data);
      reply := OpenReply(hash != files[path].stored, files[path].mtime, hash);
    }

    // ---------------------------------------------------------------- rebuilding

    /** A missing file is sent as an empty one. */
    method ReadAll(path: Path) returns (image: Bytes)
      requires path in files ==> |files[path].data| + 4 < INT_LIMIT
      ensures image == Image(if path in files then files[path].data else [])
    {
      if path in files {
        image := PutInt(|files[path].data|) + files[path].data;
      } else {
        image := PutInt(0);
        assert image == Image([]);
      }
    }

    /** Success means: the parent was missing, no ancestor is a file, and now exactly the ancestors exist too. */
    method MkdirRecursive(path: Path) returns (ok: bool)
      requires WellFormed(Disk())
      modifies this`dirs
      ensures WellFormed(Disk())
      ensures ok <==> path != [] && !Exists(old(Disk()), Parent(path)) && forall d | d in Ancestors(path) :: d !in files
      ensures dirs == if ok then old(dirs) + Ancestors(path) else old(dirs)
      decreases |path|
    {
      if path == [] {
        return false;
      }
      var parent := Parent(path);
      AncestorsStep(path);
      ok := Mkdir(parent);
      if ok {
        AncestorsStep(parent);
        AncestorsExist(old(Disk()), Parent(parent));
        return;
      }
      ok := MkdirRecursive(parent);
      if ok {
        AncestorsStep(parent);
        ok := Mkdir(parent);
      }
    }

    /** Asks `source` for the image of a file and takes the content out of what arrives. */
    method Fetch(path: Path, source: Server) returns (data: Bytes)
      requires path in source.files ==> |source.files[path].data| + 4 < INT_LIMIT
      ensures data == if path in source.files then source.files[path].data else []
    {
      var image := source.ReadAll(path);
      ghost var content := if path in source.files then source.files[path].data else [];
      ImageLengthIsExact(content);
      ImageRoundTrip(content);
      FrameRoundTrip(image);
      assert image[..|image|] == image;
      var arrived := Received(Framed(image, ImageLength(image)));
      data := Restored(arrived.value).value;
    }

    /** open(2) with O_CREAT and O_TRUNC, after the missing ancestors have been made; write; the digest. */
    method PutFile(path: Path, data: Bytes, now: nat) returns (ok: bool)
      requires WellFormed(Disk())
      modifies this
      ensures WellFormed(Disk()) && ok == Restorable(old(Disk()), path)
      ensures Disk() == Restocked(old(Disk()), path, data, md5, now)
    {
      ghost var before := Disk();
      if path != [] && path !in dirs {
        ParentDecides(before, path);
      }
      if !CanCreate(path) {
        ok := MkdirRecursive(path);
        if !ok {
          return;
        }
      }
      RestockedStaysWellFormed(before, path, data, md5, now);
      files := files[path := File(data, "", now)];
      SaveHash(path);
      ok := true;
      assert Disk() == Restocked(before, path, data, md5, now);
    }

    /** `server_restore`: the file as the source has it, with a fresh digest. */
    method Restore(path: Path, source: Server, now: nat) returns (ok: bool)
      requires WellFormed(Disk())
      requires path in source.files ==> |source.files[path].data| + 4 < INT_LIMIT
      modifies this
      ensures WellFormed(Disk())
      ensures ok <==> Restorable(old(Disk()), path)
      ensures
        var data := if path in old(source.files) then old(source.files)[path].data else [];
        Disk() == Restocked(old(Disk()), path, data, md5, now)
      ensures ok <==> path != [] && path !in old(dirs) && forall k | 0 <= k < |path| :: path[..k] !in old(files)
      ensures
        var data := if path in old(source.files) then old(source.files)[path].data else [];
        files == if ok then old(files)[path := File(data, md5(data), now)] else old(files)
      ensures !ok ==> dirs == old(dirs)
      ensures ok ==> forall d :: d in dirs <==> d in old(dirs) || d < path
    {
      var data := Fetch(path, source);
      RestockedIs(Disk(), path, data, md5, now);
      ok := PutFile(path, data, now);
    }

    /** A file that has been restored is found intact by the next open, with the content of the source. */
    method RestoreThenOpen(path: Path, source: Server, now: nat) returns (reply: Option<OpenReply>)
      requires WellFormed(Disk()) && path in source.files && |source.files[path].data| + 4 < INT_LIMIT
      modifies this
      ensures reply.None? ==> dirs == old(dirs) && files == old(files)
      ensures reply.None? <==> path == [] || path in old(dirs) || exists d :: d in Ancestors(path) && d in old(files)
      ensures reply.Some? ==>
        && reply.value == OpenReply(false, now, md5(old(source.files)[path].data))
        && path in files && files[path].data == old(source.files)[path].data
    {
      var ok := Restore(path, source, now);
      if !ok {
        return None;
      }
      var answer := Open(path);
      reply := Some(answer);
    }

    /** open(2) with O_CREAT and O_TRUNC. */
    predicate CanCreate(path: Path)
      reads this
    {
      path != [] && path !in dirs && Parent(path) in dirs
    }

    /** readdir(3): the children in any order, and the two names every directory has. */
    method ListNames(path: Path) returns (names: seq<string>)
      requires ProperNames(Disk())
      ensures forall n :: n in names <==> n in ChildNames(Disk(), path) || n == "." || n == ".."
      ensures forall a, b | 0 <= a < b < |names| :: names[a] != names[b]
    {
      var rest := ChildNames(Tree(dirs, files), path);
      names := [".", ".."];
      ProperChildren(Disk(), path);
      while rest != {}
        invariant forall n :: n in names || n in rest <==> n in ChildNames(Disk(), path) || n == "." || n == ".."
        invariant forall n :: !(n in names && n in rest)
        invariant forall a, b | 0 <= a < b < |names| :: names[a] != names[b]
        decreases rest
      {
        var n :| n in rest;
        names := names + [n];
        rest := rest - {n};
      }
    }

    /** One entry of the directory: a directory is emptied and removed, a file is unlinked. */
    method RemoveChild(path: Path, name: string, ghost before: Tree<File>, ghost names: seq<string>, ghost j: nat)
      returns (r: int)
      requires WellFormed(before) && ProperNames(before) && j < |names| && names[j] == name
      requires name !in names[..j] && Exists(before, Child(path, name))
      requires Disk() == Cleared(before, path, names, j) && WellFormed(Disk())
      modifies this
      ensures Disk() == Cleared(before, path, names, j + 1) && r == 0
      decreases DirsFrom(dirs, Child(path, name)), 1
    {
      var child := Child(path, name);
      FirstStep(path, name, child);
      ClearedOneMore(before, path, names, j);
      forall d: Path | child <= d && !Below(child, d) ensures d == child {
        assert d == d[..|child|];
      }
      ghost var mid := Disk();
      assert (child in before.dirs <==> child in dirs) && (child in before.files <==> child in files);
      if child in dirs {
        var emptied := EmptyDirectory(child);
        assert Childless(Disk(), child);
        var removed := Rmdir(child);
        r := if removed then 0 else -1;
        assert files == mid.files - FilesBelow(before, child);
        assert dirs == set d | d in mid.dirs && !(child <= d);
      } else {
        var removed := Unlink(child);
        r := if removed then 0 else -1;
        FileHasNothingBelow(before, child);
        forall d | d in dirs ensures !(child <= d) {
          assert Exists(before, d);
        }
        assert dirs == set d | d in mid.dirs && !(child <= d);
      }
    }

    /** Removes everything below `path`, a directory after what is in it. */
    method EmptyDirectory(path: Path) returns (r: int)
      requires WellFormed(Disk()) && ProperNames(Disk()) && path in dirs
      modifies this
      ensures WellFormed(Disk()) && ProperNames(Disk()) && r == 0
      ensures dirs == set d | d in old(dirs) && !Below(path, d)
      ensures files == old(files) - FilesBelow(old(Disk()), path)
      decreases DirsFrom(dirs, path), 0
    {
      ghost var before := Disk();
      var names := ListNames(path);
      var j := 0;
      r := 0;
      while r == 0 && j < |names|
        invariant 0 <= j <= |names| && r == 0
        invariant Disk() == Cleared(before, path, names, j)
      {
        var name := names[j];
        ClearedWellFormed(before, path, names, j);
        ClearedOneMore(before, path, names, j);
        if name != "." && name != ".." {
          ChildNamesExist(before, path, name);
          DirsFromShrinks(before.dirs, path, name);
          assert DirsFrom(dirs, Child(path, name)) <= DirsFrom(before.dirs, Child(path, name));
          r := RemoveChild(path, name, before, names, j);
        } else {
          NothingUnderDots(before, path, name);
        }
        j := j + 1;
      }
      FilesUnderAll(before, path, names);
      AllCleared(before, path, names);
      ClearedWellFormed(before, path, names, |names|);
    }

    /** One entry of a listing of `path` on the source: a file is restored, a directory is copied below. */
    method CopyChild(path: Path, name: string, source: Server, now: nat) returns (status: int)
      requires this != source && path in source.dirs && Exists(source.Disk(), Child(path, name))
      requires WellFormed(source.Disk()) && ProperNames(source.Disk()) && Shippable(source.Disk())
      requires WellFormed(Disk()) && Within(Disk(), source.Disk())
      modifies this
      ensures status == 0 && WellFormed(Disk())
      ensures Filled(old(Disk()), Disk(), source.Disk(), Brought(source.Disk(), path, name), md5, now)
      decreases DirsFrom(source.dirs, Child(path, name)), 2
    {
      var child := Child(path, name);
      status := -1;
      if child in source.files {
        AncestorsExist(source.Disk(), child);
        AncestorsOfOne(child);
        var ok := Restore(child, source, now);
        status := if ok then 0 else -1;
      } else if child in source.dirs {
        status := RestoreAll(child, source, false, now);
      }
    }

    /** The loop of `server_restoreall` over a listing of `path` on the source. */
    method CopyListing(path: Path, names: seq<string>, source: Server, now: nat) returns (status: int)
      requires this != source && path in source.dirs
      requires forall n | n in names :: n in ChildNames(source.Disk(), path) || n == "." || n == ".."
      requires WellFormed(source.Disk()) && ProperNames(source.Disk()) && Shippable(source.Disk())
      requires WellFormed(Disk()) && Within(Disk(), source.Disk())
      modifies this
      ensures status == 0 && WellFormed(Disk())
      ensures Filled(old(Disk()), Disk(), source.Disk(), FilesUnder(source.Disk(), path, names, |names|), md5, now)
      decreases DirsFrom(source.dirs, path), 0
    {
      ghost var base := Disk();
      ghost var origin := source.Disk();
      var j := 0;
      status := 0;
      assert AncestorsOf({}) == {};
      while j < |names|
        invariant 0 <= j <= |names| && status == 0
        invariant WellFormed(Disk()) && Within(Disk(), origin) && source.Disk() == origin
        invariant Filled(base, Disk(), origin, FilesUnder(origin, path, names, j), md5, now)
      {
        ghost var mid := Disk();
        var name := names[j];
        if name != "." && name != ".." {
          ChildNamesExist(origin, path, name);
          DirsFromShrinks(origin.dirs, path, name);
          status := CopyChild(path, name, source, now);
        } else {
          NothingBelowDots(mid, origin, path, name, md5, now);
        }
        CopiedOneMore(base, mid, Disk(), origin, path, names, j, md5, now);
        j := j + 1;
      }
    }

    /**
     `server_restoreall`: empties the disk if it is the first call, then copies what is below
     `path` on the source. The directories it leaves are the root and the ancestors of the files.
     */
    method RestoreAll(path: Path, source: Server, first: bool, now: nat) returns (status: int)
      requires this != source && path in source.dirs && (first ==> path == [])
      requires WellFormed(source.Disk()) && ProperNames(source.Disk()) && Shippable(source.Disk())
      requires WellFormed(Disk())
      requires if first then ProperNames(Disk()) else Within(Disk(), source.Disk())
      modifies this
      ensures status == 0 && WellFormed(Disk())
      ensures Filled(if first then Tree({[]}, map[]) else old(Disk()), Disk(), source.Disk(),
                     FilesBelow(source.Disk(), path), md5, now)
      ensures first ==> Disk() == Duplicated(source.Disk(), md5, now)
      ensures first ==> View() == Rebuilt(source.View()) && AllIntact(Disk(), md5)
      ensures first ==> files.Keys == source.files.Keys && forall f | f in files ::
        files[f] == File(source.files[f].data, md5(source.files[f].data), now)
      ensures first ==> forall d :: d in dirs <==> d == [] || exists f :: f in source.files && d < f
      decreases DirsFrom(source.dirs, path), 1
    {
      if first {
        var r := EmptyDirectory(path);
        EmptiedRoot(old(Disk()), Disk());
      }
      var names := source.ListNames(path);
      FilesUnderAll(source.Disk(), path, names);
      status := CopyListing(path, names, source, now);
      if first {
        FilledFromEmpty(Disk(), source.Disk(), md5, now);
        DuplicatedIsRebuilt(source.Disk(), md5, now);
        forall d { AncestorsOfIff(source.files.Keys, d); }
      }
    }
  }
}
