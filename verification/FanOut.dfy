/**
 What the fan-out loop and the rotation inside it do to the servers, for any number of servers
 and whatever the network answers.
 */
module FanOut {
  import opened Replication
  import opened ReplicationSafety

  // ------------------------------------------------------------------ rotation

  /** Exactly the first `k` slots are live. */
  predicate LivePrefix(slots: seq<Slot>, k: nat) {
    k <= |slots| && forall j | 0 <= j < |slots| :: slots[j].Live() <==> j < k
  }

  function Removed(slots: seq<Slot>, i: nat): seq<Slot>
    requires i < |slots|
  {
    slots[..i] + slots[i + 1..]
  }

  /** A failed server is taken out, put back as DOWN further on, and the others keep their order. */
  lemma RotationKeepsTheOthersInOrder<D>(w: World<D>, i: nat)
    requires i < |w.slots|
    ensures var at := Landing(w.slots, i);
      && at < |w.slots|
      && Reconnected(w, i).slots[at] == w.slots[i].(status := Down)
      && Removed(Reconnected(w, i).slots, at) == Removed(w.slots, i)
  {
    var at := Landing(w.slots, i);
    var v := Reconnected(w, i).slots;
    if at == i + 1 {
      assert Removed(v, at) == w.slots[..i] + [w.slots[i + 1]] + w.slots[i + 2..];
    }
  }

  /**
   The loop guard tests `servers[i + 1]`, so a failed server moves at most one place: the live
   servers stay a prefix exactly when it was the last or the last but one of them.
   */
  lemma RotationKeepsPrefixExactlyNearItsEnd<D>(w: World<D>, k: nat, i: nat)
    requires LivePrefix(w.slots, k) && i < k
    ensures LivePrefix(Reconnected(w, i).slots, k - 1) <==> i + 2 >= k
    ensures w.running ==> (Reconnected(w, i).running <==> k > 1)
  {
    var v := Reconnected(w, i).slots;
    if i + 2 < k {
      assert RotatesTo(w.slots, i) && !v[i + 1].Live();
    } else {
      assert i + 1 < |v| && i + 1 < k ==> v[i].Live();
    }
  }

  /** The client shuts down exactly if slot 0 fails and slot 1 is down, whatever stands behind it. */
  lemma ShutsDownIffFirstIsCutOff<D>(w: World<D>, i: nat)
    requires w.running && i < |w.slots|
    ensures !Reconnected(w, i).running <==> i == 0 && !RotatesTo(w.slots, 0)
  {
  }

  predicate NoneLive(slots: seq<Slot>) {
    forall j | 0 <= j < |slots| :: !slots[j].Live()
  }

  /**
   A shutdown means that no server is left exactly if all slots from 2 on are down: always with
   two servers, and not in general with more.
   */
  lemma ShutdownLeavesNoneLiveIff<D>(w: World<D>, i: nat)
    requires w.running && i < |w.slots| && !Reconnected(w, i).running
    ensures NoneLive(Reconnected(w, i).slots) <==> forall j | 2 <= j < |w.slots| :: !w.slots[j].Live()
    ensures |w.slots| <= 2 ==> NoneLive(Reconnected(w, i).slots)
  {
    ShutsDownIffFirstIsCutOff(w, i);
    var v := Reconnected(w, i).slots;
    assert !v[0].Live() && forall j | 1 <= j < |v| :: v[j] == w.slots[j];
    assert |v| > 1 ==> !v[1].Live();
    if NoneLive(v) {
      assert forall j | 2 <= j < |w.slots| :: !v[j].Live();
    }
  }

  // ------------------------------------------------------------------ exactly once

  /** Nobody is sent the request twice, whether or not an answer came back, and only the asked answer. */
  ghost predicate AtMostOnce<D>(c: Call<D>) {
    forall x :: multiset(c.answered)[x] <= multiset(c.asked)[x] <= 1
  }

  /** No server that can still be visited has been sent the request. */
  ghost predicate Tally<D>(c: Call<D>) {
    && AtMostOnce(c)
    && (forall j | c.i <= j < |c.w.slots| && c.w.slots[j].Live() :: c.w.slots[j].name !in c.asked)
  }

  ghost predicate NoneMissed<D>(c: Call<D>) {
    forall j | 0 <= j < |c.w.slots| && j < c.i :: c.w.slots[j].status == Up ==> c.w.slots[j].name in c.answered
  }

  ghost predicate OrderedFrom(slots: seq<Slot>, i: nat) {
    forall p | p >= i :: !Exposed(slots, p)
  }

  lemma ExecutedKeepsTally<D>(c: Call<D>, r: Request<D>, fd: nat)
    requires DistinctNames(c.w) && c.i < |c.w.slots| && c.w.slots[c.i].Live() && Tally(c)
    ensures Tally(Executed(c, r, fd))
    ensures NoneMissed(c) ==> NoneMissed(Executed(c, r, fd))
    ensures OrderedFrom(c.w.slots, c.i + 1) ==> OrderedFrom(Executed(c, r, fd).w.slots, c.i + 1)
  {
    var d := Executed(c, r, fd);
    assert multiset(d.asked) == multiset(c.asked) + multiset{c.w.slots[c.i].name};
    assert multiset(d.answered) == multiset(c.answered) + multiset{c.w.slots[c.i].name};
    forall p | p >= d.i ensures Exposed(d.w.slots, p) ==> Exposed(c.w.slots, p) {
    }
  }

  lemma DemotedKeepsOrder(slots: seq<Slot>, i: nat)
    requires i < |slots| && OrderedFrom(slots, i + 1)
    ensures OrderedFrom(Demoted(slots, i), i)
  {
    forall p | p >= i ensures Exposed(Demoted(slots, i), p) ==> p >= i + 1 && Exposed(slots, p) {
    }
  }

  lemma SpoiledKeepsOrder<D>(w: World<D>, i: nat, r: Request<D>, left: D)
    requires i < |w.slots|
    ensures forall p :: Exposed(Spoiled(w, i, r, left).slots, p) <==> Exposed(w.slots, p)
  {
    SpoiledKeepsStatuses(w, i, r, left);
  }

  lemma LostKeepsOrder<D>(w: World<D>, i: nat, r: Request<D>, left: D)
    requires i < |w.slots| && OrderedFrom(w.slots, i + 1)
    ensures OrderedFrom(Reconnected(Spoiled(w, i, r, left), i).slots, i)
  {
    SpoiledKeepsOrder(w, i, r, left);
    DemotedKeepsOrder(Spoiled(w, i, r, left).slots, i);
  }

  lemma LostRebuildKeepsTally<D>(c: Call<D>, r: Request<D>, left: D)
    requires c.i < |c.w.slots| && Tally(c)
    ensures Tally(c.(w := Reconnected(Spoiled(c.w, c.i, r, left), c.i), i := c.i + 1))
  {
    SpoiledKeepsStatuses(c.w, c.i, r, left);
  }

  lemma LostRequestCounts<D>(c: Call<D>, r: Request<D>, left: D)
    requires c.i < |c.w.slots| && c.w.slots[c.i].Live() && Tally(c)
    ensures AtMostOnce(Asked(c, r, Lost(left)))
  {
    var d := Asked(c, r, Lost(left));
    assert multiset(d.asked) == multiset(c.asked) + multiset{c.w.slots[c.i].name};
    assert d.answered == c.answered;
  }

  lemma DemotedNames(slots: seq<Slot>, i: nat, j: nat)
    requires i < |slots| && i <= j < |slots| && Demoted(slots, i)[j].Live()
    ensures exists k :: i < k < |slots| && slots[k] == Demoted(slots, i)[j]
  {
    var k := if j == i then i + 1 else j;
    assert slots[k] == Demoted(slots, i)[j];
  }

  /** The server that was asked in vain stays in reach of the loop, but it is down. */
  lemma LostRequestKeepsTally<D>(c: Call<D>, r: Request<D>, left: D)
    requires DistinctNames(c.w) && c.i < |c.w.slots| && c.w.slots[c.i].Live() && Tally(c)
    ensures Tally(Asked(c, r, Lost(left)))
  {
    var d := Asked(c, r, Lost(left));
    var s := Spoiled(c.w, c.i, r, left).slots;
    LostRequestCounts(c, r, left);
    SpoiledKeepsStatuses(c.w, c.i, r, left);
    forall j | c.i <= j < |d.w.slots| && d.w.slots[j].Live() ensures d.w.slots[j].name !in d.asked {
      DemotedNames(s, c.i, j);
      var k :| c.i < k < |s| && s[k] == Demoted(s, c.i)[j];
      assert c.w.slots[k].name == d.w.slots[j].name;
    }
  }

  lemma LostRequestMissesNone<D>(c: Call<D>, r: Request<D>, left: D)
    requires c.i < |c.w.slots| && NoneMissed(c)
    ensures NoneMissed(Asked(c, r, Lost(left)))
  {
    SpoiledKeepsStatuses(c.w, c.i, r, left);
  }

  lemma LostRebuildMissesNone<D>(c: Call<D>, left: D)
    requires c.i < |c.w.slots| && NoneMissed(c)
    requires c.w.slots[c.i].status == Starting && !Exposed(c.w.slots, c.i)
    ensures NoneMissed(c.(w := Reconnected(Spoiled(c.w, c.i, Probe, left), c.i), i := c.i + 1))
  {
    SpoiledKeepsStatuses(c.w, c.i, Probe, left);
  }

  lemma AskedKeepsTally<D>(c: Call<D>, r: Request<D>, a: Answer<D>)
    requires DistinctNames(c.w) && c.i < |c.w.slots| && c.w.slots[c.i].Live() && Tally(c)
    ensures Tally(Asked(c, r, a))
    ensures NoneMissed(c) ==> NoneMissed(Asked(c, r, a))
    ensures OrderedFrom(c.w.slots, c.i + 1) ==> OrderedFrom(Asked(c, r, a).w.slots, Asked(c, r, a).i)
  {
    match a
    case Answered(fd) => ExecutedKeepsTally(c, r, fd);
    case Lost(left) =>
      LostRequestKeepsTally(c, r, left);
      if NoneMissed(c) { LostRequestMissesNone(c, r, left); }
      if OrderedFrom(c.w.slots, c.i + 1) { LostKeepsOrder(c.w, c.i, r, left); }
  }

  lemma RestockedKeepsTally<D>(c: Call<D>)
    requires DistinctNames(c.w) && c.i < |c.w.slots| && c.w.slots[c.i].Live() && Tally(c)
    ensures DistinctNames(Restocked(c).w) && Tally(Restocked(c))
    ensures NoneMissed(c) ==> NoneMissed(Restocked(c))
    ensures OrderedFrom(c.w.slots, c.i + 1) ==> OrderedFrom(Restocked(c).w.slots, c.i + 1)
  {
    var d := Restocked(c);
    forall p | p >= c.i + 1 ensures Exposed(d.w.slots, p) ==> Exposed(c.w.slots, p) {
    }
  }

  ghost predicate Counted<D>(c: Call<D>, d: Call<D>) {
    && Tally(d)
    && (NoneMissed(c) && OrderedFrom(c.w.slots, c.i) ==> NoneMissed(d))
    && (OrderedFrom(c.w.slots, c.i) ==> OrderedFrom(d.w.slots, d.i))
  }

  lemma CopiedKeepsTally<D>(c: Call<D>, r: Request<D>, a: Answer<D>)
    requires DistinctNames(c.w) && c.i < |c.w.slots| && c.w.slots[c.i].Live() && Tally(c)
    ensures Counted(c, Asked(Restocked(c), r, a))
  {
    RestockedKeepsTally(c);
    AskedKeepsTally(Restocked(c), r, a);
  }

  lemma RefusedKeepsTally<D>(c: Call<D>, left: D)
    requires c.i < |c.w.slots| && Tally(c) && c.w.slots[c.i].status == Starting
    ensures Counted(c, c.(w := Spoiled(c.w, c.i, Probe, left), i := c.i + 1))
  {
    SpoiledKeepsStatuses(c.w, c.i, Probe, left);
    SpoiledKeepsOrder(c.w, c.i, Probe, left);
  }

  lemma UnreachableKeepsTally<D>(c: Call<D>, left: D)
    requires c.i < |c.w.slots| && Tally(c) && c.w.slots[c.i].status == Starting
    ensures Counted(c, c.(w := Reconnected(Spoiled(c.w, c.i, Probe, left), c.i), i := c.i + 1))
  {
    LostRebuildKeepsTally(c, Probe, left);
    if OrderedFrom(c.w.slots, c.i) {
      LostKeepsOrder(c.w, c.i, Probe, left);
      if NoneMissed(c) { LostRebuildMissesNone(c, left); }
    }
  }

  lemma RevivedKeepsTally<D>(c: Call<D>, r: Request<D>, reply: Reply<D>)
    requires DistinctNames(c.w) && c.i < |c.w.slots| && c.w.slots[c.i].status == Starting && Tally(c)
    ensures Counted(c, Revived(c, r, reply))
  {
    match reply.rebuild
    case Copied => CopiedKeepsTally(c, r, reply.answer);
    case Refused(left) => RefusedKeepsTally(c, left);
    case Unreachable(left) => UnreachableKeepsTally(c, left);
  }

  lemma VisitedKeepsTally<D>(c: Call<D>, r: Request<D>, reply: Reply<D>)
    requires DistinctNames(c.w) && c.i < |c.w.slots| && Tally(c)
    ensures Counted(c, Visited(c, r, reply))
  {
    match c.w.slots[c.i].status
    case Down =>
    case Up => AskedKeepsTally(c, r, reply.answer);
    case Starting => RevivedKeepsTally(c, r, reply);
  }

  lemma {:induction false} FinishedKeepsTally<D>(c: Call<D>, r: Request<D>, limit: nat, env: nat -> Reply<D>, k: nat)
    requires Safe(c.w) && c.i <= limit <= |c.w.slots| && Tally(c)
    ensures Tally(Finished(c, r, limit, env, k))
    ensures NoneMissed(c) && OrderedFrom(c.w.slots, c.i) ==> NoneMissed(Finished(c, r, limit, env, k))
    decreases Remaining(c, limit)
  {
    if c.i < limit && c.w.running {
      VisitedIsSafe(c, r, env(k));
      VisitedKeepsTally(c, r, env(k));
      VisitedCosts(c, r, env(k), limit);
      FinishedKeepsTally(Observed(Visited(c, r, env(k))), r, limit, env, k + 1);
    }
  }

  /**
   Every server that is UP when a call ends was sent the request once and has answered it, and
   nobody was sent it twice: a request whose answer is lost may have been executed.
   */
  ghost predicate ExactlyOnce<D>(c: Call<D>) {
    && AtMostOnce(c)
    && (c.w.running ==> forall j | 0 <= j < |c.w.slots| ::
          c.w.slots[j].status == Up ==>
            multiset(c.asked)[c.w.slots[j].name] == multiset(c.answered)[c.w.slots[j].name] == 1)
  }

  lemma OrderedFanOutIsExactlyOnce<D>(w: World<D>, r: Request<D>, env: nat -> Reply<D>)
    requires Safe(w) && !r.Probe? && Ordered(w.slots)
    ensures ExactlyOnce(Called(w, r, env))
  {
    FinishedKeepsTally(Begin(w), r, |w.slots|, env, 0);
  }

  /** No server is sent a request twice, answered or not, whatever the order of the slots. */
  lemma FanOutIsAtMostOnce<D>(w: World<D>, r: Request<D>, env: nat -> Reply<D>)
    requires Safe(w)
    ensures AtMostOnce(Called(w, r, env))
  {
    FinishedKeepsTally(Begin(w), r, Limit(w, r), env, 0);
  }

  // ------------------------------------------------------------------ the missed server

  /** Requests are answered, rebuilds are not. */
  predicate Calm<D>(reply: Reply<D>) {
    reply.rebuild.Refused? && reply.answer.Answered?
  }

  /** An iteration with a calm reply: only the slot at the index and its server can change. */
  ghost predicate Smooth<D>(c: Call<D>, d: Call<D>) {
    && c.i < |c.w.slots| == |d.w.slots|
    && d.w.running == c.w.running && d.i == c.i + 1 && d.sourcesUp == c.sourcesUp && d.lossless == c.lossless
    && d.w.slots == c.w.slots[c.i := d.w.slots[c.i]]
    && d.w.slots[c.i].name == c.w.slots[c.i].name
    && (d.asked == c.asked || d.asked == c.asked + [c.w.slots[c.i].name])
    && forall x :: x != c.w.slots[c.i].name ==> DiskOf(d.w, x) == DiskOf(c.w, x)
  }

  lemma SmoothExecution<D>(c: Call<D>, r: Request<D>, fd: nat)
    requires c.i < |c.w.slots|
    ensures Smooth(c, Executed(c, r, fd))
  {
  }

  lemma SmoothSkip<D>(c: Call<D>, r: Request<D>, reply: Reply<D>)
    requires c.i < |c.w.slots| && c.w.slots[c.i].status == Down
    ensures Smooth(c, Visited(c, r, reply))
  {
  }

  lemma SmoothUp<D>(c: Call<D>, r: Request<D>, reply: Reply<D>)
    requires c.i < |c.w.slots| && reply.answer.Answered? && c.w.slots[c.i].status == Up
    ensures Smooth(c, Visited(c, r, reply))
  {
    SmoothExecution(c, r, reply.answer.fd);
  }

  lemma SmoothStart<D>(c: Call<D>, r: Request<D>, reply: Reply<D>)
    requires c.i < |c.w.slots| && reply.rebuild.Refused? && c.w.slots[c.i].status == Starting
    ensures Smooth(c, Visited(c, r, reply))
  {
  }

  lemma SmoothVisit<D>(c: Call<D>, r: Request<D>, reply: Reply<D>)
    requires c.i < |c.w.slots| && Calm(reply)
    ensures Smooth(c, Visited(c, r, reply))
  {
    match c.w.slots[c.i].status
    case Down => SmoothSkip(c, r, reply);
    case Up => SmoothUp(c, r, reply);
    case Starting => SmoothStart(c, r, reply);
  }

  /** No other slot names the server in slot `q`. */
  ghost predicate Alone(slots: seq<Slot>, q: nat) {
    q < |slots| && forall j | 0 <= j < |slots| && j != q :: slots[j].name != slots[q].name
  }

  /** Slot `p` holds an UP server that no other slot names and that has not been asked. */
  ghost predicate Overlooked<D>(c: Call<D>, p: nat) {
    Alone(c.w.slots, p) && c.w.slots[p].status == Up && c.w.slots[p].name !in c.asked
  }

  /** How a call ends that has overlooked server `x`: still UP, not asked, its disk as it was. */
  ghost predicate Misses<D>(c: Call<D>, d: Call<D>, p: nat, x: Name) {
    && d.w.running && d.sourcesUp == c.sourcesUp && d.lossless == c.lossless
    && Overlooked(d, p) && d.w.slots[p].name == x
    && DiskOf(d.w, x) == DiskOf(c.w, x)
  }

  /** Once it is behind the index an overlooked server stays so while the replies are calm. */
  lemma {:induction false} PassedSlotStays<D>(c: Call<D>, r: Request<D>, env: nat -> Reply<D>, k: nat, p: nat)
    requires c.w.running && p < c.i <= |c.w.slots| && Overlooked(c, p)
    requires forall m: nat | m >= k :: Calm(env(m))
    ensures Misses(c, Finished(c, r, |c.w.slots|, env, k), p, c.w.slots[p].name)
    decreases |c.w.slots| - c.i
  {
    if c.i < |c.w.slots| {
      SmoothVisit(c, r, env(k));
      PassedSlotStays(Observed(Visited(c, r, env(k))), r, env, k + 1, p);
    }
  }

  lemma MissedByLostRebuild<D>(c: Call<D>, r: Request<D>, reply: Reply<D>)
    requires c.w.running && Exposed(c.w.slots, c.i) && Overlooked(c, c.i + 1) && reply.rebuild.Unreachable?
    ensures var d := Visited(c, r, reply);
      |d.w.slots| == |c.w.slots| && d.i == c.i + 1 && Misses(c, d, c.i, c.w.slots[c.i + 1].name)
  {
    var s := Spoiled(c.w, c.i, Probe, reply.rebuild.left).slots;
    assert s == c.w.slots;
    assert Demoted(s, c.i) == s[c.i := s[c.i + 1]][c.i + 1 := s[c.i].(status := Down)];
  }

  /** The rebuild in slot `p` is lost, everything else is calm. */
  ghost predicate LosesRebuild<D>(env: nat -> Reply<D>, p: nat) {
    && env(p).rebuild.Unreachable?
    && forall m: nat | m != p :: Calm(env(m))
  }

  lemma LeavesExposedSlot<D>(c: Call<D>, r: Request<D>, env: nat -> Reply<D>, p: nat)
    requires c.w.running && c.i == p && Exposed(c.w.slots, p) && Overlooked(c, p + 1) && LosesRebuild(env, p)
    ensures Misses(c, Finished(c, r, |c.w.slots|, env, p), p, c.w.slots[p + 1].name)
  {
    MissedByLostRebuild(c, r, env(p));
    PassedSlotStays(Observed(Visited(c, r, env(p))), r, env, p + 1, p);
  }

  lemma {:induction false} ReachesExposedSlot<D>(c: Call<D>, r: Request<D>, env: nat -> Reply<D>, p: nat)
    requires c.w.running && c.i <= p && Exposed(c.w.slots, p) && Overlooked(c, p + 1) && LosesRebuild(env, p)
    ensures Misses(c, Finished(c, r, |c.w.slots|, env, c.i), p, c.w.slots[p + 1].name)
    decreases p - c.i
  {
    if c.i == p {
      LeavesExposedSlot(c, r, env, p);
    } else {
      SmoothVisit(c, r, env(c.i));
      ReachesExposedSlot(Observed(Visited(c, r, env(c.i))), r, env, p);
    }
  }

  /** With an exposed slot there is a network against which a call misses the UP server behind it. */
  lemma ExposedServerIsMissed<D>(w: World<D>, r: Request<D>, p: nat) returns (env: nat -> Reply<D>)
    requires DistinctNames(w) && w.running && !r.Probe? && Exposed(w.slots, p)
    ensures Misses(Begin(w), Called(w, r, env), p, w.slots[p + 1].name)
  {
    env := (k: nat) => Reply(if k == p then Unreachable(w.rules.blank) else Refused(w.rules.blank), Answered(0));
    ReachesExposedSlot(Begin(w), r, env, p);
  }

  /**
   The fan-out reaches every server exactly once against every network if and only if no slot
   that waits for its rebuild stands directly before a slot that is UP. After a lost rebuild
   the rotation brings that UP server into the slot just visited, and `restoreall` does not
   step the index back.
   */
  lemma FanOutIsExactlyOnceIffOrdered<D(!new)>(w: World<D>, r: Request<D>)
    requires Safe(w) && w.running && !r.Probe?
    ensures (forall env: nat -> Reply<D> :: ExactlyOnce(Called(w, r, env))) <==> Ordered(w.slots)
  {
    if Ordered(w.slots) {
      forall env: nat -> Reply<D> ensures ExactlyOnce(Called(w, r, env)) {
        OrderedFanOutIsExactlyOnce(w, r, env);
      }
    } else {
      var p: nat :| Exposed(w.slots, p);
      var env := ExposedServerIsMissed(w, r, p);
      var d := Called(w, r, env);
      assert multiset(d.asked)[d.w.slots[p].name] == 0;
      assert !ExactlyOnce(d);
    }
  }
}
