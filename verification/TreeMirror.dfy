/**
 The mirror theorem for file trees: path operations as requests, and the rebuild that creates a
 directory only on the way to a regular file.
 */
module TreeMirror {
  import opened Octets
  import opened Trees
  import opened Replication
  import opened ReplicationSafety
  import opened Mirror

  type Disk = Tree<Bytes>

  const EMPTY: Disk := Tree({[]}, map[])

  function TreeRules(): Rules<Disk> {
    Rules((t: Disk) => Rebuilt(t), EMPTY)
  }

  function Requested(op: Op): Request<Disk> {
    Change((t: Disk) => Apply(op, t))
  }

  ghost predicate Performs(r: Request<Disk>, op: Op) {
    forall t: Disk :: Effect(r, t) == Apply(op, t)
  }

  /** Every mutation in the run is one of the path operations. */
  ghost predicate PathOperations(es: seq<Event<Disk>>) {
    forall e | e in es && e.Invoke? && e.request.Change? :: exists op :: Performs(e.request, op)
  }

  lemma PathOperationsAreLawful(es: seq<Event<Disk>>)
    requires PathOperations(es)
    ensures AllLawful(es, t => WellFormed(t))
  {
    forall e | e in es && e.Invoke? ensures Lawful(e.request, t => WellFormed(t)) {
      if e.request.Change? {
        var op :| Performs(e.request, op);
        forall t: Disk | WellFormed(t)
          ensures WellFormed(Effect(e.request, t)) && Effect(e.request, Effect(e.request, t)) == Effect(e.request, t)
        {
          ApplyKeepsWellFormed(op, t);
          ApplyIsIdempotent(op, t);
        }
      }
    }
  }

  /** Two servers that start with the same well-formed tree mirror one server over every such run. */
  lemma TwoFileServersMirrorOne(w: World<Disk>, fs: Disk, es: seq<Event<Disk>>, timeout: int)
    requires Initial(w, fs) && |w.slots| == 2 && w.rules == TreeRules()
    requires WellFormed(fs) && PathOperations(es)
    ensures var h := Ran(Started(w, fs), es, timeout);
      WellFormed(h.fs) && (h.alwaysSomeUp && h.lossless && h.w.running ==> Mirrored(h.w, h.fs) && FirstOfTwoUp(h.w))
  {
    PathOperationsAreLawful(es);
    TwoServersMirrorOne(w, fs, es, timeout, t => WellFormed(t));
    InitialIsSafe(w, fs);
    EveryRunIsFaithful(Started(w, fs), es, timeout, t => WellFormed(t));
  }

  /**
   A rebuild during a call whose result is the tree `now` is seen as lossless exactly when every
   directory of `now` leads to a regular file.
   */
  lemma RebuildIsFullIffFileBacked(now: Disk)
    requires WellFormed(now)
    ensures TreeRules().copy(now) == now <==> FileBacked(now)
  {
    RebuiltExactlyWhenFileBacked(now);
  }

  /** Every directory leads to a regular file, but for the root and one that the operation itself makes. */
  ghost predicate FileBackedBut(t: Disk, op: Op) {
    forall d | d in t.dirs && d != [] && !(op.Mkdir? && d == op.path) :: exists f :: f in t.files && Below(d, f)
  }

  lemma RebuiltDirs(u: Disk, d: Path)
    requires WellFormed(u)
    ensures d in Rebuilt(u).dirs <==> d == [] || exists f :: f in u.files && Below(d, f)
    ensures d in Rebuilt(u).dirs ==> d in u.dirs
  {
    AncestorsOfIff(u.files.Keys, d);
    RebuiltExactlyWhenFileBacked(u);
  }

  lemma AgainOnTheCopy(u: Disk, op: Op)
    requires WellFormed(u) && Apply(op, u) == u && FileBackedBut(u, op)
    ensures Apply(op, Rebuilt(u)) == u
  {
    var r := Rebuilt(u);
    RebuiltExactlyWhenFileBacked(u);
    if !FileBacked(u) {
      var p := op.path;
      forall d | d in u.dirs ensures d in r.dirs || d == p {
        RebuiltDirs(u, d);
      }
      assert p in u.dirs && p != [];
      RebuiltDirs(u, Parent(p));
      RebuiltDirs(u, p);
      assert Parent(p) in r.dirs && Creates(r, p);
      assert r.dirs + {p} == u.dirs;
    }
  }

  /** Only mkdir makes a directory, and only its own; all else that the copy lacks stays away. */
  lemma NotRemade(u: Disk, op: Op, d: Path)
    requires WellFormed(u) && Apply(op, u) == u && Apply(op, Rebuilt(u)) == u
    requires d in u.dirs && !(op.Mkdir? && d == op.path)
    ensures d in Rebuilt(u).dirs
  {
    var r := Rebuilt(u);
    RebuiltExactlyWhenFileBacked(u);
    if op.Rename? && Renames(r, op.path, op.newpath) {
      RenamedAway(r, op.path, op.newpath);
      assert Exists(r, op.path) && Exists(u, op.path);
    }
  }

  /** An operation carried out again on the copy restores what the copy lacks exactly under this condition. */
  lemma CopySufficesIff(u: Disk, op: Op)
    requires WellFormed(u) && Apply(op, u) == u
    ensures Apply(op, Rebuilt(u)) == u <==> FileBackedBut(u, op)
  {
    if FileBackedBut(u, op) {
      AgainOnTheCopy(u, op);
    } else if Apply(op, Rebuilt(u)) == u {
      forall d | d in u.dirs && d != [] && !(op.Mkdir? && d == op.path)
        ensures exists f :: f in u.files && Below(d, f)
      {
        NotRemade(u, op, d);
        RebuiltDirs(u, d);
      }
    }
  }

  /**
   One server is UP and the other waits for its rebuild; the network answers everything. The call
   leaves a mirror if and only if in the tree after it every directory leads to a regular file,
   but for the one that a mkdir makes.
   */
  lemma RebuildKeepsMirrorIff(w: World<Disk>, op: Op, env: nat -> Reply<Disk>, fs: Disk)
    requires Safe(w) && w.running && w.rules == TreeRules() && WellFormed(fs) && Mirrored(w, fs)
    requires |w.slots| == 2 && w.slots[0].status == Up && w.slots[1].status == Starting
    requires forall k :: env(k).rebuild.Copied? && env(k).answer.Answered?
    ensures Mirrored(Called(w, Requested(op), env).w, Apply(op, fs)) <==> FileBackedBut(Apply(op, fs), op)
  {
    ApplyKeepsWellFormed(op, fs);
    ApplyIsIdempotent(op, fs);
    RebuildMirrorsIffCopySuffices(w, Requested(op), env, fs);
    CopySufficesIff(Apply(op, fs), op);
  }

  /**
   The hypothesis is needed: with one empty directory on the UP server, a call against a network
   that answers everything leaves two UP replicas with different trees, and the next `mknod` in
   that directory leaves them with different files.
   */
  lemma EmptyDirectoryBreaksTheMirror(w: World<Disk>, env: nat -> Reply<Disk>)
    requires Safe(w) && w.running && w.rules == TreeRules()
    requires |w.slots| == 2 && w.slots[0].status == Up && w.slots[1].status == Starting
    requires DiskOf(w, w.slots[0].name) == Tree({[], ["d"]}, map[])
    requires forall k :: env(k).rebuild.Copied? && env(k).answer.Answered?
    ensures !Mirrored(Called(w, Requested(Unlink(["x"])), env).w, Tree({[], ["d"]}, map[]))
    ensures Apply(Mknod(["d", "f"]), Rebuilt(Tree({[], ["d"]}, map[]))).files == map[]
    ensures Apply(Mknod(["d", "f"]), Tree({[], ["d"]}, map[])).files == map[["d", "f"] := []]
  {
    var fs: Disk := Tree({[], ["d"]}, map[]);
    assert AncestorsOf(fs.files.Keys) == {};
    assert ["d"] !in Rebuilt(fs).dirs;
    assert Mirrored(w, fs);
    assert Effect(Requested(Unlink(["x"])), fs) == fs;
    RebuildMirrorsIffCopySuffices(w, Requested(Unlink(["x"])), env, fs);
    assert Parent(["d", "f"]) == ["d"];
  }
}
