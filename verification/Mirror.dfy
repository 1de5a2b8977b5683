/**
 The UP replicas hold what one server would hold after the same operations.

 First for any number of servers: a call keeps the mirror if it starts with no exposed slot and
 every rebuild in it copies an UP slot without loss. Then for two servers, where it is enough
 that some replica is UP all the time and that no rebuild loses a directory.
 */
module Mirror {
  import opened Replication
  import opened ReplicationSafety
  import opened FanOut

  ghost predicate Mirrored<D>(w: World<D>, fs: D) {
    forall j | 0 <= j < |w.slots| :: w.slots[j].status == Up ==> DiskOf(w, w.slots[j].name) == fs
  }

  /** A mutation that keeps a disk good and, done twice, does no more than once. */
  ghost predicate Lawful<D(!new)>(r: Request<D>, good: D -> bool) {
    forall d :: good(d) ==> good(Effect(r, d)) && Effect(r, Effect(r, d)) == Effect(r, d)
  }

  // ------------------------------------------------------------------ one call

  /** UP slots behind the index hold the new disk, UP slots from the index on still hold the old one. */
  ghost predicate HalfWay<D>(c: Call<D>, was: D, now: D) {
    && (forall j | 0 <= j < |c.w.slots| && j < c.i ::
          c.w.slots[j].status == Up ==> DiskOf(c.w, c.w.slots[j].name) == now)
    && (forall j | c.i <= j < |c.w.slots| :: c.w.slots[j].status == Up ==> DiskOf(c.w, c.w.slots[j].name) == was)
  }

  /** As `HalfWay`, but with nothing said about slot `i`. */
  ghost predicate HalfWayElsewhere<D>(c: Call<D>, was: D, now: D) {
    && c.i < |c.w.slots|
    && (forall j | 0 <= j < c.i :: c.w.slots[j].status == Up ==> DiskOf(c.w, c.w.slots[j].name) == now)
    && (forall j | c.i < j < |c.w.slots| :: c.w.slots[j].status == Up ==> DiskOf(c.w, c.w.slots[j].name) == was)
  }

  /** A rebuild may have given slot `i` the new disk already. */
  ghost predicate NearlyHalfWay<D>(c: Call<D>, was: D, now: D) {
    && HalfWayElsewhere(c, was, now)
    && (DiskOf(c.w, c.w.slots[c.i].name) == was || DiskOf(c.w, c.w.slots[c.i].name) == now)
  }

  lemma ExecutedMirrors<D>(c: Call<D>, r: Request<D>, fd: nat, was: D, now: D)
    requires DistinctNames(c.w) && NearlyHalfWay(c, was, now)
    requires Effect(r, was) == now && Effect(r, now) == now
    ensures HalfWay(Executed(c, r, fd), was, now)
  {
  }

  lemma SpoiledMirrors<D>(c: Call<D>, r: Request<D>, left: D, was: D, now: D)
    requires DistinctNames(c.w) && HalfWayElsewhere(c, was, now)
    ensures HalfWayElsewhere(c.(w := Spoiled(c.w, c.i, r, left)), was, now)
  {
    assert forall j | 0 <= j < |c.w.slots| && j != c.i :: Spoiled(c.w, c.i, r, left).slots[j] == c.w.slots[j];
  }

  lemma LostMirrors<D>(c: Call<D>, r: Request<D>, left: D, was: D, now: D)
    requires DistinctNames(c.w) && HalfWayElsewhere(c, was, now)
    ensures HalfWay(c.(w := Reconnected(Spoiled(c.w, c.i, r, left), c.i)), was, now)
  {
    SpoiledMirrors(c, r, left, was, now);
  }

  lemma AskedMirrors<D>(c: Call<D>, r: Request<D>, a: Answer<D>, was: D, now: D)
    requires DistinctNames(c.w) && NearlyHalfWay(c, was, now)
    requires Effect(r, was) == now && Effect(r, now) == now
    ensures HalfWay(Asked(c, r, a), was, now)
  {
    match a
    case Answered(fd) => ExecutedMirrors(c, r, fd, was, now);
    case Lost(left) => LostMirrors(c, r, left, was, now);
  }

  /** The predecessor of a slot has executed the request, the last slot, for slot 0, has not. */
  lemma RestockedMirrors<D>(c: Call<D>, was: D, now: D)
    requires DistinctNames(c.w) && c.i < |c.w.slots| && HalfWay(c, was, now)
    requires c.w.slots[c.i].status == Starting && Restocked(c).sourcesUp && Restocked(c).lossless
    ensures DistinctNames(Restocked(c).w) && NearlyHalfWay(Restocked(c), was, now)
  {
    var source := SourceSlot(c.w, c.i);
    assert source.status == Up;
    assert DiskOf(c.w, source.name) == if c.i == 0 then was else now;
    var d := Restocked(c);
    assert DiskOf(d.w, d.w.slots[c.i].name) == DiskOf(c.w, source.name);
    assert forall j | 0 <= j < |c.w.slots| && j != c.i :: d.w.slots[j] == c.w.slots[j];
  }

  lemma RefusedMirrors<D>(c: Call<D>, left: D, was: D, now: D)
    requires DistinctNames(c.w) && c.i < |c.w.slots| && HalfWay(c, was, now) && c.w.slots[c.i].status == Starting
    ensures HalfWay(c.(w := Spoiled(c.w, c.i, Probe, left), i := c.i + 1), was, now)
  {
    SpoiledMirrors(c, Probe, left, was, now);
  }

  lemma UnreachableMirrors<D>(c: Call<D>, left: D, was: D, now: D)
    requires DistinctNames(c.w) && c.i < |c.w.slots| && HalfWay(c, was, now) && c.w.slots[c.i].status == Starting
    requires !Exposed(c.w.slots, c.i)
    ensures HalfWay(c.(w := Reconnected(Spoiled(c.w, c.i, Probe, left), c.i), i := c.i + 1), was, now)
  {
    LostMirrors(c, Probe, left, was, now);
    SpoiledKeepsStatuses(c.w, c.i, Probe, left);
    assert Reconnected(Spoiled(c.w, c.i, Probe, left), c.i).slots[c.i].status != Up;
  }

  lemma RevivedMirrors<D>(c: Call<D>, r: Request<D>, reply: Reply<D>, was: D, now: D)
    requires DistinctNames(c.w) && c.i < |c.w.slots| && HalfWay(c, was, now) && !Exposed(c.w.slots, c.i)
    requires c.w.slots[c.i].status == Starting
    requires Effect(r, was) == now && Effect(r, now) == now
    requires Revived(c, r, reply).sourcesUp && Revived(c, r, reply).lossless
    ensures HalfWay(Revived(c, r, reply), was, now)
  {
    match reply.rebuild
    case Copied =>
      RestockedMirrors(c, was, now);
      AskedMirrors(Restocked(c), r, reply.answer, was, now);
    case Refused(left) => RefusedMirrors(c, left, was, now);
    case Unreachable(left) => UnreachableMirrors(c, left, was, now);
  }

  lemma VisitedMirrors<D>(c: Call<D>, r: Request<D>, reply: Reply<D>, was: D, now: D)
    requires DistinctNames(c.w) && c.i < |c.w.slots| && HalfWay(c, was, now) && !Exposed(c.w.slots, c.i)
    requires Effect(r, was) == now && Effect(r, now) == now
    requires Visited(c, r, reply).sourcesUp && Visited(c, r, reply).lossless
    ensures HalfWay(Visited(c, r, reply), was, now)
  {
    match c.w.slots[c.i].status
    case Down =>
    case Up => AskedMirrors(c, r, reply.answer, was, now);
    case Starting => RevivedMirrors(c, r, reply, was, now);
  }

  lemma VisitedObserves<D>(c: Call<D>, r: Request<D>, reply: Reply<D>)
    requires c.i < |c.w.slots|
    ensures Visited(c, r, reply).sourcesUp ==> c.sourcesUp
    ensures Visited(c, r, reply).lossless ==> c.lossless
    ensures Visited(c, r, reply).alwaysSomeUp == c.alwaysSomeUp
  {
  }

  lemma {:induction false} FinishedObserves<D>(c: Call<D>, r: Request<D>, limit: nat, env: nat -> Reply<D>, k: nat)
    requires c.i <= limit <= |c.w.slots|
    ensures Finished(c, r, limit, env, k).sourcesUp ==> c.sourcesUp
    ensures Finished(c, r, limit, env, k).lossless ==> c.lossless
    ensures Finished(c, r, limit, env, k).alwaysSomeUp ==> c.alwaysSomeUp
    decreases Remaining(c, limit)
  {
    if c.i < limit && c.w.running {
      VisitedCosts(c, r, env(k), limit);
      VisitedObserves(c, r, env(k));
      FinishedObserves(Observed(Visited(c, r, env(k))), r, limit, env, k + 1);
    }
  }

  lemma {:induction false} FinishedMirrors<D>(
    c: Call<D>, r: Request<D>, limit: nat, env: nat -> Reply<D>, k: nat, was: D, now: D)
    requires Safe(c.w) && c.i <= limit <= |c.w.slots| && Tally(c)
    requires HalfWay(c, was, now) && OrderedFrom(c.w.slots, c.i)
    requires Effect(r, was) == now && Effect(r, now) == now
    requires Finished(c, r, limit, env, k).sourcesUp && Finished(c, r, limit, env, k).lossless
    ensures HalfWay(Finished(c, r, limit, env, k), was, now)
    decreases Remaining(c, limit)
  {
    if c.i < limit && c.w.running {
      var d := Observed(Visited(c, r, env(k)));
      VisitedIsSafe(c, r, env(k));
      VisitedCosts(c, r, env(k), limit);
      VisitedKeepsTally(c, r, env(k));
      FinishedObserves(d, r, limit, env, k + 1);
      VisitedMirrors(c, r, env(k), was, now);
      FinishedMirrors(d, r, limit, env, k + 1, was, now);
    }
  }

  /** One client call, any number of servers: the UP replicas all make the step from `fs` to its effect. */
  lemma CallKeepsMirror<D>(w: World<D>, r: Request<D>, env: nat -> Reply<D>, fs: D)
    requires Safe(w) && Mirrored(w, fs) && Ordered(w.slots)
    requires Effect(r, Effect(r, fs)) == Effect(r, fs)
    requires Called(w, r, env).sourcesUp && Called(w, r, env).lossless && Called(w, r, env).w.running
    ensures Mirrored(Called(w, r, env).w, Effect(r, fs))
  {
    FinishedMirrors(Begin(w), r, Limit(w, r), env, 0, fs, Effect(r, fs));
  }

  /**
   The order of the slots before the call decides: without an exposed slot every network leaves
   the replicas mirrored, with one there is a network that leaves an UP replica behind, although
   no rebuild in the call loses anything.
   */
  lemma CallKeepsMirrorIffOrdered<D(!new)>(w: World<D>, r: Request<D>, fs: D)
    requires Safe(w) && w.running && Mirrored(w, fs)
    requires Effect(r, Effect(r, fs)) == Effect(r, fs) && Effect(r, fs) != fs
    ensures Ordered(w.slots) <==> forall env: nat -> Reply<D> ::
      var c := Called(w, r, env); c.sourcesUp && c.lossless && c.w.running ==> Mirrored(c.w, Effect(r, fs))
  {
    if Ordered(w.slots) {
      forall env: nat -> Reply<D> | var c := Called(w, r, env); c.sourcesUp && c.lossless && c.w.running
        ensures Mirrored(Called(w, r, env).w, Effect(r, fs))
      {
        CallKeepsMirror(w, r, env, fs);
      }
    } else {
      var p: nat :| Exposed(w.slots, p);
      var env := ExposedServerIsMissed(w, r, p);
      var c := Called(w, r, env);
      assert DiskOf(c.w, c.w.slots[p].name) == fs;
      assert !Mirrored(c.w, Effect(r, fs));
    }
  }

  lemma SourceExecutes<D>(w: World<D>, r: Request<D>, reply: Reply<D>, fs: D)
    requires |w.slots| == 2 && w.running && w.slots[0].status == Up && w.slots[0].name != w.slots[1].name
    requires DiskOf(w, w.slots[0].name) == fs && reply.answer.Answered?
    ensures var c := Observed(Visited(Begin(w), r, reply));
      && c.w.running && c.w.rules == w.rules && c.i == 1 && c.alwaysSomeUp && c.sourcesUp && |c.w.slots| == 2
      && c.w.slots[0].status == Up && c.w.slots[0].name == w.slots[0].name && c.w.slots[1] == w.slots[1]
      && DiskOf(c.w, w.slots[0].name) == Effect(r, fs)
  {
    var c := Observed(Visited(Begin(w), r, reply));
    assert c.w.slots[0].status == Up;
  }

  lemma CopyExecutes<D>(c: Call<D>, r: Request<D>, reply: Reply<D>)
    requires |c.w.slots| == 2 && c.w.running && c.i == 1 && c.alwaysSomeUp && c.sourcesUp
    requires c.w.slots[0].status == Up && c.w.slots[1].status == Starting && c.w.slots[0].name != c.w.slots[1].name
    requires reply.rebuild.Copied? && reply.answer.Answered?
    ensures var d, source := Observed(Visited(c, r, reply)), DiskOf(c.w, c.w.slots[0].name);
      && d.w.running && d.i == 2 && d.alwaysSomeUp && d.sourcesUp && |d.w.slots| == 2
      && d.w.slots[0] == c.w.slots[0] && DiskOf(d.w, c.w.slots[0].name) == source
      && d.w.slots[1].status == Up && d.w.slots[1].name == c.w.slots[1].name
      && DiskOf(d.w, c.w.slots[1].name) == Effect(r, c.w.rules.copy(source))
  {
    var d := Observed(Visited(c, r, reply));
    assert SourceSlot(c.w, 1) == c.w.slots[0];
    assert d.w.slots[0] == c.w.slots[0];
  }

  /**
   One server is UP and the other waits for its rebuild; the network answers everything. The
   call leaves a mirror exactly when the request, executed on the copy, ends where it ended on
   the source.
   */
  lemma RebuildMirrorsIffCopySuffices<D>(w: World<D>, r: Request<D>, env: nat -> Reply<D>, fs: D)
    requires Safe(w) && w.running && Mirrored(w, fs) && !r.Probe?
    requires |w.slots| == 2 && w.slots[0].status == Up && w.slots[1].status == Starting
    requires forall k :: env(k).rebuild.Copied? && env(k).answer.Answered?
    ensures var c := Called(w, r, env);
      && c.alwaysSomeUp && c.sourcesUp
      && (Mirrored(c.w, Effect(r, fs)) <==> Effect(r, w.rules.copy(Effect(r, fs))) == Effect(r, fs))
  {
    var c0 := Begin(w);
    var c1 := Observed(Visited(c0, r, env(0)));
    SourceExecutes(w, r, env(0), fs);
    var c2 := Observed(Visited(c1, r, env(1)));
    CopyExecutes(c1, r, env(1));
    assert Finished(c1, r, 2, env, 1) == Finished(c2, r, 2, env, 2) == c2;
    assert Called(w, r, env) == Finished(c0, r, 2, env, 0) == c2;
    assert forall j | 0 <= j < 2 :: c2.w.slots[j].name == w.slots[j].name;
  }

  // ------------------------------------------------------------------ every run

  ghost predicate AllLawful<D(!new)>(es: seq<Event<D>>, good: D -> bool) {
    forall e | e in es :: e.Invoke? ==> Lawful(e.request, good)
  }

  /** `Mirrored` as long as the observations allow the claim. */
  ghost predicate Faithful<D>(h: History<D>, good: D -> bool) {
    && Safe(h.w) && good(h.fs)
    && (h.sourcesUp && h.lossless && h.ordered && h.w.running ==> Mirrored(h.w, h.fs))
  }

  lemma TickKeepsMirror<D>(w: World<D>, k: nat, pong: bool, timeout: int, fs: D)
    requires Safe(w) && Mirrored(w, fs) && k < |w.watchers|
    ensures Mirrored(Ticked(w, k, pong, timeout), fs)
  {
    var at := w.watchers[k].slot;
    var v := Ticked(w, k, pong, timeout);
    assert v.slots == w.slots[at := v.slots[at]] && v.slots[at].status != Up;
  }

  lemma NextIsFaithful<D(!new)>(h: History<D>, e: Event<D>, timeout: int, good: D -> bool)
    requires Faithful(h, good) && (e.Invoke? ==> Lawful(e.request, good))
    ensures Faithful(Next(h, e, timeout), good)
  {
    NextIsSafe(h, e, timeout);
    var n := Next(h, e, timeout);
    if h.w.running && n.sourcesUp && n.lossless && n.ordered && n.w.running {
      match e
      case Tick(k, pong) =>
        if k < |h.w.watchers| { TickKeepsMirror(h.w, k, pong, timeout, h.fs); }
      case Invoke(r, env) => CallKeepsMirror(h.w, r, env, h.fs);
    }
  }

  lemma {:induction false} EveryRunIsFaithful<D(!new)>(h: History<D>, es: seq<Event<D>>, timeout: int, good: D -> bool)
    requires Faithful(h, good) && AllLawful(es, good)
    ensures Faithful(Ran(h, es, timeout), good)
    decreases |es|
  {
    if es != [] {
      assert es[0] in es;
      NextIsFaithful(h, es[0], timeout, good);
      EveryRunIsFaithful(Next(h, es[0], timeout), es[1..], timeout, good);
    }
  }

  /**
   Any number of servers: over every run whose calls start ordered and whose rebuilds copy UP
   slots without loss, all UP replicas hold what a single server would.
   */
  lemma ReplicasMirrorOneServer<D(!new)>(w: World<D>, fs: D, es: seq<Event<D>>, timeout: int, good: D -> bool)
    requires Initial(w, fs) && good(fs) && AllLawful(es, good)
    ensures var h := Ran(Started(w, fs), es, timeout);
      h.sourcesUp && h.lossless && h.ordered && h.w.running ==> Mirrored(h.w, h.fs)
  {
    InitialIsSafe(w, fs);
    EveryRunIsFaithful(Started(w, fs), es, timeout, good);
  }

  // ------------------------------------------------------------------ two servers

  /** Two slots of which the first is UP: the second one's rebuild has a source. */
  ghost predicate FirstOfTwoUp<D>(w: World<D>) {
    |w.slots| == 2 && (w.running ==> w.slots[0].status == Up)
  }

  lemma FirstOfTwoUpAskedFirst<D>(c: Call<D>, r: Request<D>, a: Answer<D>)
    requires FirstOfTwoUp(c.w) && c.w.running && c.i == 0
    requires Asked(c, r, a).w.running ==> SomeUp(Asked(c, r, a).w.slots)
    ensures FirstOfTwoUp(Asked(c, r, a).w) && Asked(c, r, a).sourcesUp == c.sourcesUp
  {
  }

  lemma FirstOfTwoUpAskedSecond<D>(c: Call<D>, r: Request<D>, a: Answer<D>)
    requires FirstOfTwoUp(c.w) && c.w.running && c.i == 1
    ensures FirstOfTwoUp(Asked(c, r, a).w) && Asked(c, r, a).sourcesUp == c.sourcesUp
  {
  }

  lemma FirstOfTwoUpRevivedSecond<D>(c: Call<D>, r: Request<D>, reply: Reply<D>)
    requires FirstOfTwoUp(c.w) && c.w.running && c.i == 1
    ensures FirstOfTwoUp(Revived(c, r, reply).w) && (c.sourcesUp ==> Revived(c, r, reply).sourcesUp)
  {
    if reply.rebuild.Copied? {
      assert SourceSlot(c.w, 1) == c.w.slots[0];
      FirstOfTwoUpAskedSecond(Restocked(c), r, reply.answer);
    }
  }

  lemma FirstOfTwoUpVisited<D>(c: Call<D>, r: Request<D>, reply: Reply<D>)
    requires FirstOfTwoUp(c.w) && c.w.running && c.i < 2
    requires Observed(Visited(c, r, reply)).alwaysSomeUp
    ensures FirstOfTwoUp(Visited(c, r, reply).w) && (c.sourcesUp ==> Visited(c, r, reply).sourcesUp)
  {
    if c.i == 0 {
      FirstOfTwoUpAskedFirst(c, r, reply.answer);
    } else if c.w.slots[1].status == Up {
      FirstOfTwoUpAskedSecond(c, r, reply.answer);
    } else if c.w.slots[1].status == Starting {
      FirstOfTwoUpRevivedSecond(c, r, reply);
    }
  }

  lemma {:induction false} FirstOfTwoUpFinished<D>(c: Call<D>, r: Request<D>, limit: nat, env: nat -> Reply<D>, k: nat)
    requires FirstOfTwoUp(c.w) && c.i <= limit <= 2
    requires Finished(c, r, limit, env, k).alwaysSomeUp
    ensures FirstOfTwoUp(Finished(c, r, limit, env, k).w) && (c.sourcesUp ==> Finished(c, r, limit, env, k).sourcesUp)
    decreases Remaining(c, limit)
  {
    if c.i < limit && c.w.running {
      VisitedCosts(c, r, env(k), limit);
      FinishedObserves(Observed(Visited(c, r, env(k))), r, limit, env, k + 1);
      FirstOfTwoUpVisited(c, r, env(k));
      FirstOfTwoUpFinished(Observed(Visited(c, r, env(k))), r, limit, env, k + 1);
    }
  }

  lemma FirstOfTwoUpNext<D>(h: History<D>, e: Event<D>, timeout: int)
    requires Safe(h.w) && FirstOfTwoUp(h.w) && Next(h, e, timeout).alwaysSomeUp
    ensures FirstOfTwoUp(Next(h, e, timeout).w) && h.alwaysSomeUp
    ensures h.sourcesUp ==> Next(h, e, timeout).sourcesUp
    ensures h.ordered ==> Next(h, e, timeout).ordered
    ensures Next(h, e, timeout).lossless ==> h.lossless
  {
    if h.w.running && e.Invoke? {
      FirstOfTwoUpFinished(Begin(h.w), e.request, Limit(h.w, e.request), e.env, 0);
      assert Ordered(h.w.slots);
    }
  }

  lemma {:induction false} FirstOfTwoUpRan<D>(h: History<D>, es: seq<Event<D>>, timeout: int)
    requires Safe(h.w) && (h.alwaysSomeUp ==> FirstOfTwoUp(h.w) && h.sourcesUp && h.ordered)
    ensures var g := Ran(h, es, timeout); g.alwaysSomeUp ==> FirstOfTwoUp(g.w) && g.sourcesUp && g.ordered
    decreases |es|
  {
    if es != [] {
      NextIsSafe(h, es[0], timeout);
      if Next(h, es[0], timeout).alwaysSomeUp {
        if h.alwaysSomeUp { FirstOfTwoUpNext(h, es[0], timeout); }
      }
      FirstOfTwoUpRan(Next(h, es[0], timeout), es[1..], timeout);
    }
  }

  /**
   Two servers: over every run of calls, lost requests, watcher ticks, hotswap exchanges and
   rebuilds in which some replica is UP all the time and no rebuild loses a directory, the UP
   replicas hold what a single server would, and slot 0 is one of them.
   */
  lemma TwoServersMirrorOne<D(!new)>(w: World<D>, fs: D, es: seq<Event<D>>, timeout: int, good: D -> bool)
    requires Initial(w, fs) && |w.slots| == 2 && good(fs) && AllLawful(es, good)
    ensures var h := Ran(Started(w, fs), es, timeout);
      h.alwaysSomeUp && h.lossless && h.w.running ==> Mirrored(h.w, h.fs) && FirstOfTwoUp(h.w)
  {
    InitialIsSafe(w, fs);
    FirstOfTwoUpRan(Started(w, fs), es, timeout);
    ReplicasMirrorOneServer(w, fs, es, timeout, good);
  }

  // ------------------------------------------------------------------ rebuilds that copy everything

  ghost predicate CopiesAll<D(!new)>(rules: Rules<D>) {
    forall d :: rules.copy(d) == d
  }

  lemma AskedStaysLossless<D>(c: Call<D>, r: Request<D>, a: Answer<D>)
    requires c.i < |c.w.slots|
    ensures Asked(c, r, a).w.rules == c.w.rules && Asked(c, r, a).lossless == c.lossless
  {
  }

  lemma RestockedStaysLossless<D(!new)>(c: Call<D>)
    requires c.i < |c.w.slots| && CopiesAll(c.w.rules)
    ensures |Restocked(c).w.slots| == |c.w.slots| && Restocked(c).i == c.i
    ensures Restocked(c).w.rules == c.w.rules && Restocked(c).lossless == c.lossless
  {
  }

  lemma RevivedStaysLossless<D(!new)>(c: Call<D>, r: Request<D>, reply: Reply<D>)
    requires c.i < |c.w.slots| && CopiesAll(c.w.rules)
    ensures Revived(c, r, reply).w.rules == c.w.rules && Revived(c, r, reply).lossless == c.lossless
  {
    if reply.rebuild.Copied? {
      RestockedStaysLossless(c);
      AskedStaysLossless(Restocked(c), r, reply.answer);
    }
  }

  lemma VisitedStaysLossless<D(!new)>(c: Call<D>, r: Request<D>, reply: Reply<D>)
    requires c.i < |c.w.slots| && CopiesAll(c.w.rules)
    ensures Visited(c, r, reply).w.rules == c.w.rules && Visited(c, r, reply).lossless == c.lossless
  {
    match c.w.slots[c.i].status
    case Down =>
    case Up => AskedStaysLossless(c, r, reply.answer);
    case Starting => RevivedStaysLossless(c, r, reply);
  }

  lemma {:induction false} FinishedStaysLossless<D(!new)>(
    c: Call<D>, r: Request<D>, limit: nat, env: nat -> Reply<D>, k: nat)
    requires c.i <= limit <= |c.w.slots| && CopiesAll(c.w.rules)
    ensures var d := Finished(c, r, limit, env, k); d.w.rules == c.w.rules && d.lossless == c.lossless
    decreases Remaining(c, limit)
  {
    if c.i < limit && c.w.running {
      VisitedCosts(c, r, env(k), limit);
      VisitedStaysLossless(c, r, env(k));
      FinishedStaysLossless(Observed(Visited(c, r, env(k))), r, limit, env, k + 1);
    }
  }

  lemma {:induction false} RanStaysLossless<D(!new)>(h: History<D>, es: seq<Event<D>>, timeout: int)
    requires CopiesAll(h.w.rules)
    ensures Ran(h, es, timeout).lossless == h.lossless
    decreases |es|
  {
    if es != [] {
      if h.w.running && es[0].Invoke? {
        FinishedStaysLossless(Begin(h.w), es[0].request, Limit(h.w, es[0].request), es[0].env, 0);
      }
      RanStaysLossless(Next(h, es[0], timeout), es[1..], timeout);
    }
  }

  /** With a rebuild that duplicates everything it is enough that some replica is UP all the time. */
  lemma TwoServersMirrorOneIfRebuildsCopyAll<D(!new)>(
    w: World<D>, fs: D, es: seq<Event<D>>, timeout: int, good: D -> bool)
    requires Initial(w, fs) && |w.slots| == 2 && good(fs) && AllLawful(es, good) && CopiesAll(w.rules)
    ensures var h := Ran(Started(w, fs), es, timeout);
      h.alwaysSomeUp && h.w.running ==> Mirrored(h.w, h.fs) && FirstOfTwoUp(h.w)
  {
    RanStaysLossless(Started(w, fs), es, timeout);
    TwoServersMirrorOne(w, fs, es, timeout, good);
  }
}
