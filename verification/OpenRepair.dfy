/**
 The repair loop of `client_open` over the replicas of one file, every server answering. The
 loop index moves in both directions: a slot is restored from its predecessor, or, when it is
 intact and newer, its predecessor is restored from it and visited again.
 */
module OpenRepair {
  import opened Octets
  import opened Trees
  import opened FileServer

  type Md5 = Bytes -> Digest

  function DigestOf(f: File, md5: Md5): Digest {
    md5(f.data)
  }

  /** What `restore` leaves: the content of the other replica, its digest, the time of the write. */
  function Restamped(f: File, md5: Md5, now: nat): File {
    File(f.data, md5(f.data), now)
  }

  datatype Turn = Turn(replicas: seq<File>, next: nat)

  ghost predicate Differs(rs: seq<File>, i: nat, md5: Md5)
    requires i < |rs|
  {
    i > 0 && DigestOf(rs[i - 1], md5) != DigestOf(rs[i], md5)
  }

  ghost predicate NewerThanPredecessor(rs: seq<File>, i: nat)
    requires i < |rs|
  {
    i > 0 && rs[i - 1].mtime < rs[i].mtime
  }

  /** One iteration at index `i`, and the index of the next one. */
  ghost function Visit(rs: seq<File>, i: nat, md5: Md5, now: nat): Turn
    requires i < |rs|
  {
    if Intact(rs[i], md5) && !Differs(rs, i, md5) then Turn(rs, i + 1)
    else if Intact(rs[i], md5) && NewerThanPredecessor(rs, i) then
      Turn(rs[i - 1 := Restamped(rs[i], md5, now)], i - 1)
    else
      Turn(rs[i := Restamped(rs[if i == 0 then |rs| - 1 else i - 1], md5, now)], i)
  }

  // ------------------------------------------------------------------ where the loop is

  /**
   `f` is the first slot not yet known to agree with those before it. `Explore`: the index is
   there. `Back`: slot `f` was newer and its content is on its way to slot 0. `Level`: the slots
   from the index to `f` agree with those before it. `Mending`: the way back has met a slot that
   is not older, and the content of that slot is on its way to `f`; `Mended`: slot `i` has just
   received it.
   */
  datatype Phase = Explore | Back | Level | Mending | Mended
  datatype Mark = Mark(f: nat, phase: Phase)

  ghost function NextMark(m: Mark, rs: seq<File>, i: nat, md5: Md5): Mark
    requires i < |rs|
  {
    match m.phase
    case Explore =>
      if !Intact(rs[i], md5) then Mark(m.f, Level)
      else if !Differs(rs, i, md5) then Mark(m.f + 1, Explore)
      else if NewerThanPredecessor(rs, i) then Mark(m.f, Back)
      else Mark(m.f, Level)
    case Back =>
      if i == 0 then Mark(m.f, Level)
      else if NewerThanPredecessor(rs, i) then Mark(m.f, Back)
      else Mark(m.f, Mended)
    case Level => if i == m.f then Mark(m.f + 1, Explore) else m
    case Mending => if i < m.f then Mark(m.f, Mended) else Mark(m.f, Level)
    case Mended => Mark(m.f, Mending)
  }

  ghost function PhaseRank(p: Phase): nat {
    match p
    case Explore => 2
    case Back => 1
    case _ => 0
  }

  /** How far the loop is inside its phase. */
  ghost function Distance(m: Mark, i: nat): int {
    match m.phase
    case Explore => 0
    case Back => i
    case Level => 2 * (m.f - i)
    case Mending => 2 * (m.f - i) + 1
    case Mended => 2 * (m.f - i)
  }

  /** The slots in front of `k` are intact and agree. */
  ghost predicate Agreed(rs: seq<File>, k: nat, md5: Md5)
    requires k <= |rs|
  {
    forall j | 0 <= j < k :: Intact(rs[j], md5) && DigestOf(rs[j], md5) == DigestOf(rs[0], md5)
  }

  /** The slots from `i` to `f` are intact and hold the content of slot `f`. */
  ghost predicate Stretch(rs: seq<File>, i: nat, f: nat, md5: Md5)
    requires f < |rs|
  {
    forall j | i <= j <= f :: Intact(rs[j], md5) && DigestOf(rs[j], md5) == DigestOf(rs[f], md5)
  }

  ghost predicate NotOlder(rs: seq<File>, k: nat, f: nat)
    requires k < |rs| && f < |rs|
  {
    forall j | k < j <= f :: rs[j].mtime <= rs[k].mtime
  }

  ghost predicate LocatedIn(rs: seq<File>, i: nat, m: Mark, md5: Md5)
    requires i <= m.f < |rs|
  {
    match m.phase
    case Explore => i == m.f
    case Back =>
      i < m.f && Stretch(rs, i, m.f, md5) && (i > 0 ==> DigestOf(rs[i - 1], md5) != DigestOf(rs[m.f], md5))
    case Level =>
      Stretch(rs, i, m.f, md5) && (i > 0 ==> DigestOf(rs[i - 1], md5) == DigestOf(rs[m.f], md5))
    case Mending =>
      && 0 < i && Stretch(rs, i, m.f, md5) && NotOlder(rs, i - 1, m.f)
      && DigestOf(rs[i - 1], md5) != DigestOf(rs[m.f], md5)
    case Mended =>
      (0 < i < m.f && Stretch(rs, i + 1, m.f, md5) && NotOlder(rs, i, m.f) && Intact(rs[i], md5)
       && DigestOf(rs[i], md5) == DigestOf(rs[i - 1], md5) != DigestOf(rs[m.f], md5))
  }

  ghost predicate Located(rs: seq<File>, i: nat, m: Mark, md5: Md5) {
    && i <= m.f <= |rs|
    && Agreed(rs, i, md5)
    && if m.f == |rs| then i == |rs| && m.phase == Explore else LocatedIn(rs, i, m, md5)
  }

  /** No replica carries a time that is still to come; two replicas do not need it. */
  ghost predicate Timely(rs: seq<File>, now: nat) {
    |rs| == 2 || forall j | 0 <= j < |rs| :: rs[j].mtime <= now
  }

  lemma ExploreStep(rs: seq<File>, i: nat, m: Mark, md5: Md5, now: nat)
    requires |rs| >= 2 && i < |rs| && m.phase == Explore && Located(rs, i, m, md5)
    ensures var t := Visit(rs, i, md5, now); Located(t.replicas, t.next, NextMark(m, rs, i, md5), md5)
  {
  }

  lemma BackStep(rs: seq<File>, i: nat, m: Mark, md5: Md5, now: nat)
    requires |rs| >= 2 && i < |rs| && m.phase == Back && Located(rs, i, m, md5) && Timely(rs, now)
    ensures var t := Visit(rs, i, md5, now); Located(t.replicas, t.next, NextMark(m, rs, i, md5), md5)
  {
  }

  lemma ForwardStep(rs: seq<File>, i: nat, m: Mark, md5: Md5, now: nat)
    requires |rs| >= 2 && i < |rs| && m.phase != Explore && m.phase != Back
    requires Located(rs, i, m, md5) && Timely(rs, now)
    ensures var t := Visit(rs, i, md5, now); Located(t.replicas, t.next, NextMark(m, rs, i, md5), md5)
  {
  }

  lemma VisitIsLocated(rs: seq<File>, i: nat, m: Mark, md5: Md5, now: nat)
    requires |rs| >= 2 && i < |rs| && Located(rs, i, m, md5) && Timely(rs, now)
    ensures var t := Visit(rs, i, md5, now); Located(t.replicas, t.next, NextMark(m, rs, i, md5), md5)
  {
    match m.phase
    case Explore => ExploreStep(rs, i, m, md5, now);
    case Back => BackStep(rs, i, m, md5, now);
    case _ => ForwardStep(rs, i, m, md5, now);
  }

  /** Every iteration moves the frontier on, leaves a phase for a later one, or goes on inside it. */
  lemma VisitGoesOn(rs: seq<File>, i: nat, m: Mark, md5: Md5, now: nat)
    requires |rs| >= 2 && i < |rs| && Located(rs, i, m, md5) && Timely(rs, now)
    ensures var t := Visit(rs, i, md5, now); var n := NextMark(m, rs, i, md5);
      || n.f > m.f
      || (n.f == m.f && PhaseRank(n.phase) < PhaseRank(m.phase))
      || (n.f == m.f && PhaseRank(n.phase) == PhaseRank(m.phase) && 0 <= Distance(n, t.next) < Distance(m, i))
  {
  }

  lemma VisitIsTimely(rs: seq<File>, i: nat, md5: Md5, now: nat, later: nat)
    requires i < |rs| && Timely(rs, now) && now <= later
    ensures Timely(Visit(rs, i, md5, now).replicas, later)
  {
  }

  /** What is in front of the index agrees, whatever the times are. */
  lemma VisitStaysAgreed(rs: seq<File>, i: nat, md5: Md5, now: nat)
    requires |rs| >= 2 && i < |rs| && Agreed(rs, i, md5)
    ensures var t := Visit(rs, i, md5, now);
      |t.replicas| == |rs| && t.next <= |rs| && Agreed(t.replicas, t.next, md5)
  {
  }

  // ------------------------------------------------------------------ the loop ends

  ghost predicate Forward(clock: nat -> nat) {
    forall s, t | s <= t :: clock(s) <= clock(t)
  }

  ghost predicate TimesUpTo(rs: seq<File>, limit: nat) {
    forall j | 0 <= j < |rs| :: rs[j].mtime <= limit
  }

  /**
   The loop at its visit number `t`, when the clock has passed all stored times by visit
   `settled`: until then what matters is the number of visits left, from then on the mark.
   */
  ghost predicate Progressing(rs: seq<File>, i: nat, m: Mark, md5: Md5, clock: nat -> nat, t: nat, settled: nat) {
    && |rs| >= 2 && i <= |rs| && Agreed(rs, i, md5)
    && if t < settled then |rs| > 2 && TimesUpTo(rs, clock(settled))
       else Located(rs, i, m, md5) && Timely(rs, clock(t))
  }

  /** The mark is set where the loop is when the clock has passed all times, and then goes with it. */
  ghost function Guided(m: Mark, rs: seq<File>, i: nat, md5: Md5, now: nat, t: nat, settled: nat): Mark
    requires i < |rs|
  {
    if t < settled then Mark(Visit(rs, i, md5, now).next, Explore) else NextMark(m, rs, i, md5)
  }

  lemma VisitsLeftFall(rs: seq<File>, i: nat, m: Mark, md5: Md5, clock: nat -> nat, t: nat, settled: nat)
    requires i < |rs| && Forward(clock) && t < settled && Progressing(rs, i, m, md5, clock, t, settled)
    ensures var v := Visit(rs, i, md5, clock(t));
      Progressing(v.replicas, v.next, Mark(v.next, Explore), md5, clock, t + 1, settled)
  {
    VisitStaysAgreed(rs, i, md5, clock(t));
    assert clock(t) <= clock(settled);
  }

  lemma VisitProgresses(rs: seq<File>, i: nat, m: Mark, md5: Md5, clock: nat -> nat, t: nat, settled: nat)
    requires i < |rs| && Forward(clock) && Progressing(rs, i, m, md5, clock, t, settled)
    ensures var v := Visit(rs, i, md5, clock(t));
      Progressing(v.replicas, v.next, Guided(m, rs, i, md5, clock(t), t, settled), md5, clock, t + 1, settled)
    ensures var v, n := Visit(rs, i, md5, clock(t)), Guided(m, rs, i, md5, clock(t), t, settled);
      || t < settled
      || n.f > m.f
      || (n.f == m.f && PhaseRank(n.phase) < PhaseRank(m.phase))
      || (n.f == m.f && PhaseRank(n.phase) == PhaseRank(m.phase) && 0 <= Distance(n, v.next) < Distance(m, i))
  {
    if t < settled {
      VisitsLeftFall(rs, i, m, md5, clock, t, settled);
    } else {
      assert clock(t) <= clock(t + 1);
      VisitStaysAgreed(rs, i, md5, clock(t));
      VisitIsLocated(rs, i, m, md5, clock(t));
      VisitGoesOn(rs, i, m, md5, clock(t));
      VisitIsTimely(rs, i, md5, clock(t), clock(t + 1));
    }
  }

  /** The first `k` visits from index `i` on, the first of them at time `clock(t)`. */
  ghost function Visits(rs: seq<File>, i: nat, md5: Md5, clock: nat -> nat, t: nat, k: nat): Turn
    decreases k
  {
    if k == 0 || i >= |rs| then Turn(rs, i)
    else var v := Visit(rs, i, md5, clock(t)); Visits(v.replicas, v.next, md5, clock, t + 1, k - 1)
  }

  ghost predicate Ends(rs: seq<File>, md5: Md5, clock: nat -> nat) {
    exists k: nat :: Visits(rs, 0, md5, clock, 0, k).next == |rs|
  }

  lemma {:induction false} ProgressEnds(
    rs: seq<File>, i: nat, m: Mark, md5: Md5, clock: nat -> nat, t: nat, settled: nat) returns (k: nat)
    requires Forward(clock) && Progressing(rs, i, m, md5, clock, t, settled)
    ensures Visits(rs, i, md5, clock, t, k).next == |rs|
    decreases if t < settled then settled - t else 0, |rs| - m.f, PhaseRank(m.phase), Distance(m, i)
  {
    if i == |rs| {
      k := 0;
    } else {
      var v := Visit(rs, i, md5, clock(t));
      VisitProgresses(rs, i, m, md5, clock, t, settled);
      var n := Guided(m, rs, i, md5, clock(t), t, settled);
      var l := ProgressEnds(v.replicas, v.next, n, md5, clock, t + 1, settled);
      k := l + 1;
    }
  }

  /** Slot 1 is older than both its neighbours, which differ: its content changes for ever. */
  ghost predicate Stuck(rs: seq<File>, i: nat, md5: Md5, limit: nat) {
    && |rs| == 3 && i < 3
    && rs[0] == File([0], md5([0]), limit) && rs[2] == File([1], md5([1]), limit)
    && rs[1].mtime < limit && Intact(rs[1], md5)
    && (rs[1].data == [0] || (rs[1].data == [1] && i < 2))
  }

  lemma {:induction false} StuckStays(rs: seq<File>, i: nat, md5: Md5, clock: nat -> nat, t: nat, limit: nat, k: nat)
    requires Stuck(rs, i, md5, limit) && md5([0]) != md5([1]) && forall n: nat :: clock(n) < limit
    ensures Visits(rs, i, md5, clock, t, k).next < 3
    decreases k
  {
    if k > 0 {
      var v := Visit(rs, i, md5, clock(t));
      assert Stuck(v.replicas, v.next, md5, limit);
      StuckStays(v.replicas, v.next, md5, clock, t + 1, limit, k - 1);
    }
  }

  /**
   The loop ends for all replicas with stored times up to `limit` if and only if the clock
   reaches `limit`. (Two replicas do not need it, and neither do times that have passed.)
   */
  lemma EndsIffClockPasses(md5: Md5, clock: nat -> nat, limit: nat)
    requires Forward(clock) && md5([0]) != md5([1])
    ensures (exists t: nat :: limit <= clock(t))
      <==> forall rs :: |rs| >= 2 && TimesUpTo(rs, limit) ==> Ends(rs, md5, clock)
  {
    if t: nat :| limit <= clock(t) {
      forall rs | |rs| >= 2 && TimesUpTo(rs, limit) ensures Ends(rs, md5, clock) {
        var settled := if |rs| == 2 then 0 else t;
        assert Progressing(rs, 0, Mark(0, Explore), md5, clock, 0, settled);
        var k := ProgressEnds(rs, 0, Mark(0, Explore), md5, clock, 0, settled);
      }
    } else {
      var rs := [File([0], md5([0]), limit), File([0], md5([0]), clock(0)), File([1], md5([1]), limit)];
      forall k: nat ensures Visits(rs, 0, md5, clock, 0, k).next < 3 {
        StuckStays(rs, 0, md5, clock, 0, limit, k);
      }
      assert TimesUpTo(rs, limit) && !Ends(rs, md5, clock);
    }
  }

  // ------------------------------------------------------------------ restores that fail

  /** The iteration asks for a restore. */
  predicate Asks(rs: seq<File>, i: nat, md5: Md5)
    requires i < |rs|
  {
    !Intact(rs[i], md5) || (i > 0 && DigestOf(rs[i - 1], md5) != DigestOf(rs[i], md5))
  }

  /** One iteration; a restore that fails leaves the replicas as they are, and the index goes on past the slot. */
  ghost function Passed(rs: seq<File>, i: nat, md5: Md5, now: nat, fails: bool): Turn
    requires i < |rs|
  {
    if fails && Asks(rs, i, md5) then Turn(rs, i + 1) else Visit(rs, i, md5, now)
  }

  /** The content of slot `j` would be taken back to its predecessor. */
  predicate GoesBack(rs: seq<File>, j: nat, md5: Md5)
    requires j < |rs|
  {
    Intact(rs[j], md5) && Asks(rs, j, md5) && j > 0 && rs[j - 1].mtime < rs[j].mtime
  }

  function PowerOfTwo(k: nat): nat {
    if k == 0 then 1 else 2 * PowerOfTwo(k - 1)
  }

  /** The slots whose content would go back, as a binary number. */
  function Weight(rs: seq<File>, k: nat, md5: Md5): nat
    requires k <= |rs|
  {
    if k == 0 then 0
    else Weight(rs, k - 1, md5) + (if GoesBack(rs, k - 1, md5) then PowerOfTwo(k - 1) else 0)
  }

  lemma {:induction false} WeightIsMonotone(rs: seq<File>, vs: seq<File>, k: nat, md5: Md5)
    requires k <= |rs| == |vs| && forall j | 0 <= j < k :: GoesBack(vs, j, md5) ==> GoesBack(rs, j, md5)
    ensures Weight(vs, k, md5) <= Weight(rs, k, md5)
  {
    if k > 0 {
      WeightIsMonotone(rs, vs, k - 1, md5);
    }
  }

  lemma {:induction false} PowerIsPositive(k: nat)
    ensures PowerOfTwo(k) > 0
  {
    if k > 0 {
      PowerIsPositive(k - 1);
    }
  }

  /** Slot `i` has been taken back; at most the slot before it may go back now that did not before. */
  lemma {:induction false} WeightFalls(rs: seq<File>, vs: seq<File>, i: nat, k: nat, md5: Md5)
    requires 0 < i < k <= |rs| == |vs| && GoesBack(rs, i, md5) && !GoesBack(vs, i, md5)
    requires forall j | 0 <= j < k && j != i - 1 :: GoesBack(vs, j, md5) ==> GoesBack(rs, j, md5)
    ensures Weight(vs, k, md5) < Weight(rs, k, md5)
  {
    if k > i + 1 {
      WeightFalls(rs, vs, i, k - 1, md5);
    } else {
      WeightIsMonotone(rs, vs, i - 1, md5);
      PowerIsPositive(i - 1);
      assert Weight(vs, k, md5) == Weight(vs, i, md5) <= Weight(vs, i - 1, md5) + PowerOfTwo(i - 1);
      assert Weight(rs, k, md5) == Weight(rs, i, md5) + PowerOfTwo(i);
    }
  }

  lemma TakenBackCosts(rs: seq<File>, i: nat, md5: Md5, now: nat)
    requires |rs| >= 2 && i < |rs| && Timely(rs, now) && GoesBack(rs, i, md5)
    ensures Weight(rs[i - 1 := Restamped(rs[i], md5, now)], |rs|, md5) < Weight(rs, |rs|, md5)
  {
    WeightFalls(rs, rs[i - 1 := Restamped(rs[i], md5, now)], i, |rs|, md5);
  }

  lemma RestoredCosts(rs: seq<File>, i: nat, md5: Md5, now: nat)
    requires |rs| >= 2 && i < |rs| && Timely(rs, now)
    ensures var vs := rs[i := Restamped(rs[if i == 0 then |rs| - 1 else i - 1], md5, now)];
      Weight(vs, |rs|, md5) <= Weight(rs, |rs|, md5) && !Asks(vs, i, md5)
  {
    var vs := rs[i := Restamped(rs[if i == 0 then |rs| - 1 else i - 1], md5, now)];
    forall j | 0 <= j < |rs| ensures GoesBack(vs, j, md5) ==> GoesBack(rs, j, md5) {
      if j == i + 1 {
        assert |rs| > 2 ==> vs[i].mtime >= vs[j].mtime;
      }
    }
    WeightIsMonotone(rs, vs, |rs|, md5);
  }

  /** Each iteration lowers the weight, or moves the index on, or leaves a slot that asks no more. */
  lemma PassedCosts(rs: seq<File>, i: nat, md5: Md5, now: nat, fails: bool)
    requires |rs| >= 2 && i < |rs| && Timely(rs, now)
    ensures var v := Passed(rs, i, md5, now, fails);
      && |v.replicas| == |rs| && v.next <= |rs|
      && (Weight(v.replicas, |rs|, md5) < Weight(rs, |rs|, md5)
          || (Weight(v.replicas, |rs|, md5) <= Weight(rs, |rs|, md5)
              && (v.next == i + 1 || (v.next == i && Asks(rs, i, md5) && !Asks(v.replicas, i, md5)))))
  {
    if Asks(rs, i, md5) && !fails {
      if GoesBack(rs, i, md5) {
        TakenBackCosts(rs, i, md5, now);
      } else {
        RestoredCosts(rs, i, md5, now);
      }
    }
  }

  /** Times the loop can live with at visit `t`, if the clock has passed them all by visit `settled`. */
  ghost predicate InTime(rs: seq<File>, clock: nat -> nat, t: nat, settled: nat) {
    if t < settled then |rs| > 2 && TimesUpTo(rs, clock(settled)) else Timely(rs, clock(t))
  }

  lemma PassedStaysInTime(rs: seq<File>, i: nat, md5: Md5, clock: nat -> nat, t: nat, settled: nat, fails: bool)
    requires |rs| >= 2 && i < |rs| && Forward(clock) && InTime(rs, clock, t, settled)
    ensures InTime(Passed(rs, i, md5, clock(t), fails).replicas, clock, t + 1, settled)
  {
    assert clock(t) <= clock(t + 1) && (t < settled ==> clock(t) <= clock(settled));
  }

  ghost predicate WasThere(was: seq<File>, data: Bytes) {
    exists o :: 0 <= o < |was| && data == was[o].data
  }

  /** Every replica keeps its file or has been given a content that was there at the start, with a right digest. */
  ghost predicate KeptOrGiven(rs: seq<File>, was: seq<File>, md5: Md5) {
    && |rs| == |was|
    && forall j | 0 <= j < |rs| :: rs[j] == was[j] || (rs[j].stored == md5(rs[j].data) && WasThere(was, rs[j].data))
  }

  lemma OneMoreIsGiven(rs: seq<File>, was: seq<File>, from: nat, to: nat, md5: Md5, now: nat)
    requires KeptOrGiven(rs, was, md5) && from < |rs| && to < |rs|
    ensures KeptOrGiven(rs[to := Restamped(rs[from], md5, now)], was, md5)
  {
    assert WasThere(was, rs[from].data) by {
      if rs[from] == was[from] {
        assert rs[from].data == was[from].data;
      }
    }
  }

  lemma PassedIsKeptOrGiven(rs: seq<File>, was: seq<File>, i: nat, md5: Md5, now: nat, fails: bool)
    requires |rs| >= 2 && i < |rs| && KeptOrGiven(rs, was, md5)
    ensures KeptOrGiven(Passed(rs, i, md5, now, fails).replicas, was, md5)
  {
    if Asks(rs, i, md5) && !fails {
      if GoesBack(rs, i, md5) {
        OneMoreIsGiven(rs, was, i, i - 1, md5, now);
      } else {
        OneMoreIsGiven(rs, was, if i == 0 then |rs| - 1 else i - 1, i, md5, now);
      }
    }
  }

  // ------------------------------------------------------------------ which content wins

  ghost function ContentsIn(rs: seq<File>): set<Bytes> {
    set f | f in rs :: f.data
  }

  /** Every replica holds a content that some replica held at the start. */
  ghost predicate Inherited(rs: seq<File>, was: seq<File>) {
    ContentsIn(rs) <= ContentsIn(was)
  }

  lemma VisitInherits(rs: seq<File>, was: seq<File>, i: nat, md5: Md5, now: nat)
    requires i < |rs| && Inherited(rs, was)
    ensures Inherited(Visit(rs, i, md5, now).replicas, was)
  {
  }

  /** The slots in front of `Touched` have been visited, the others are as they were. */
  ghost function Touched(m: Mark): nat {
    if m.phase == Explore then m.f else m.f + 1
  }

  ghost predicate Untouched(rs: seq<File>, was: seq<File>, k: nat) {
    |rs| == |was| && forall j | k <= j < |rs| :: rs[j] == was[j]
  }

  lemma VisitLeavesTheRest(rs: seq<File>, was: seq<File>, i: nat, m: Mark, md5: Md5, now: nat)
    requires |rs| >= 2 && i < |rs| && Located(rs, i, m, md5) && Untouched(rs, was, Touched(m))
    ensures Untouched(Visit(rs, i, md5, now).replicas, was, Touched(NextMark(m, rs, i, md5)))
  {
  }

  /** Some replica that was intact at the start has this digest. */
  ghost predicate Sound(was: seq<File>, md5: Md5, d: Digest) {
    exists o :: 0 <= o < |was| && Intact(was[o], md5) && DigestOf(was[o], md5) == d
  }

  /**
   The condition under which a repair ends with an intact content: the first replica is intact,
   or the last one, from which a corrupt first one is restored, holds a content that some intact
   replica has.
   */
  ghost predicate Salvageable(was: seq<File>, md5: Md5)
    requires |was| > 0
  {
    Intact(was[0], md5) || Sound(was, md5, DigestOf(was[|was| - 1], md5))
  }

  /** Every replica is as it was, or it is intact and holds the content of one that was. */
  ghost predicate Kept(rs: seq<File>, was: seq<File>, md5: Md5) {
    && |rs| == |was|
    && forall j | 0 <= j < |rs| :: rs[j] == was[j] || (Intact(rs[j], md5) && Sound(was, md5, DigestOf(rs[j], md5)))
  }

  lemma KeptIsSound(rs: seq<File>, was: seq<File>, j: nat, md5: Md5)
    requires Kept(rs, was, md5) && j < |rs| && Intact(rs[j], md5)
    ensures Sound(was, md5, DigestOf(rs[j], md5))
  {
    if rs[j] == was[j] {
      assert Intact(was[j], md5);
    }
  }

  /** Only contents of intact replicas are passed on, whatever the times are. */
  lemma VisitKeeps(rs: seq<File>, was: seq<File>, i: nat, md5: Md5, now: nat)
    requires |rs| >= 2 && i < |rs| && Agreed(rs, i, md5) && Kept(rs, was, md5) && Salvageable(was, md5)
    ensures Kept(Visit(rs, i, md5, now).replicas, was, md5)
  {
    if Intact(rs[i], md5) {
      KeptIsSound(rs, was, i, md5);
    }
    if i > 0 {
      KeptIsSound(rs, was, i - 1, md5);
    } else if !Intact(rs[0], md5) {
      assert Sound(was, md5, DigestOf(rs[|rs| - 1], md5));
    }
  }

  /** Otherwise the damaged content of the last replica spreads: it is newer than all that follow. */
  ghost predicate Spreading(rs: seq<File>, was: seq<File>, i: nat, m: Mark, md5: Md5) {
    && |rs| == |was| && 0 < |rs| && Touched(m) <= |rs|
    && (m.phase == Explore || m.phase == Level) && i == m.f
    && (forall j | 0 <= j < Touched(m) :: DigestOf(rs[j], md5) == DigestOf(was[|was| - 1], md5))
    && (|rs| > 2 && Touched(m) > 0 ==> NotOlder(rs, Touched(m) - 1, |rs| - 1))
  }

  lemma VisitSpreads(rs: seq<File>, was: seq<File>, i: nat, m: Mark, md5: Md5, now: nat)
    requires |rs| >= 2 && i < |rs| && Located(rs, i, m, md5) && Untouched(rs, was, Touched(m)) && Timely(rs, now)
    requires !Salvageable(was, md5) && Spreading(rs, was, i, m, md5)
    ensures var t := Visit(rs, i, md5, now); Spreading(t.replicas, was, t.next, NextMark(m, rs, i, md5), md5)
  {
    if m.phase == Explore {
      assert rs[i] == was[i];
      assert Intact(rs[i], md5) ==> DigestOf(rs[i], md5) != DigestOf(was[|was| - 1], md5);
    }
  }

  // ------------------------------------------------------------------ two replicas

  /** Whose content wins: the intact one's, else the later one's, else the first's; of two corrupt ones the second's. */
  ghost function Winner(was: seq<File>, md5: Md5): nat
    requires |was| == 2
  {
    if !Intact(was[0], md5) then 1
    else if !Intact(was[1], md5) then 0
    else if was[0].mtime < was[1].mtime then 1 else 0
  }

  ghost predicate Deciding(rs: seq<File>, was: seq<File>, m: Mark, md5: Md5) {
    && |rs| == |was| == 2 && Touched(m) <= 2
    && if m.phase == Explore && m.f < 2 then
         m.f == 0 || (Intact(was[0], md5) && rs[0] == was[0])
         || (!Intact(was[0], md5) && DigestOf(rs[0], md5) == DigestOf(was[1], md5))
       else
         && (m.f == 0 ==> !Intact(was[0], md5))
         && forall j | 0 <= j < Touched(m) :: DigestOf(rs[j], md5) == DigestOf(was[Winner(was, md5)], md5)
  }

  lemma VisitDecides(rs: seq<File>, was: seq<File>, i: nat, m: Mark, md5: Md5, now: nat)
    requires |rs| == 2 && i < |rs| && Located(rs, i, m, md5) && Untouched(rs, was, Touched(m))
    requires Deciding(rs, was, m, md5)
    ensures Deciding(Visit(rs, i, md5, now).replicas, was, NextMark(m, rs, i, md5), md5)
  {
  }

  // ------------------------------------------------------------------ the loop

  /** What holds at the head of the loop whatever the times are. */
  ghost predicate Faithful(rs: seq<File>, was: seq<File>, md5: Md5) {
    |was| > 0 && Inherited(rs, was) && (Salvageable(was, md5) ==> Kept(rs, was, md5))
  }

  lemma VisitIsFaithful(rs: seq<File>, was: seq<File>, i: nat, md5: Md5, now: nat)
    requires |rs| >= 2 && i < |rs| == |was| && Agreed(rs, i, md5) && Faithful(rs, was, md5)
    ensures Faithful(Visit(rs, i, md5, now).replicas, was, md5)
  {
    VisitInherits(rs, was, i, md5, now);
    if Salvageable(was, md5) {
      VisitKeeps(rs, was, i, md5, now);
    }
  }

  /** What holds besides if no stored time was still to come when the loop started. */
  ghost predicate OnTheWay(rs: seq<File>, was: seq<File>, i: nat, m: Mark, md5: Md5) {
    && |rs| >= 2 && Untouched(rs, was, Touched(m))
    && (!Salvageable(was, md5) ==> Spreading(rs, was, i, m, md5))
    && (|rs| == 2 ==> Deciding(rs, was, m, md5))
  }

  lemma StaysOnTheWay(rs: seq<File>, was: seq<File>, i: nat, m: Mark, md5: Md5, now: nat)
    requires |rs| >= 2 && i < |rs| && Located(rs, i, m, md5) && Timely(rs, now) && OnTheWay(rs, was, i, m, md5)
    ensures var t := Visit(rs, i, md5, now); OnTheWay(t.replicas, was, t.next, NextMark(m, rs, i, md5), md5)
  {
    VisitLeavesTheRest(rs, was, i, m, md5, now);
    if !Salvageable(was, md5) {
      VisitSpreads(rs, was, i, m, md5, now);
    }
    if |rs| == 2 {
      VisitDecides(rs, was, i, m, md5, now);
    }
  }

  /** The replies seen so far are those the servers in front of the index would still give. */
  ghost predicate Current(msgs: seq<OpenReply>, rs: seq<File>, k: nat, md5: Md5) {
    k <= |rs| == |msgs| && forall j | 0 <= j < k :: msgs[j] == Opened(rs[j], md5)
  }

  /** One iteration: ask the server in slot `i`, compare its reply with the previous one, restore. */
  method OpenOne(replicas: array<File>, msgs: array<OpenReply>, i: nat, md5: Md5, now: nat, fails: bool)
    returns (next: nat)
    requires i < replicas.Length && Current(msgs[..], replicas[..], i, md5)
    modifies replicas, msgs
    ensures Turn(replicas[..], next) == Passed(old(replicas[..]), i, md5, now, fails)
    ensures Current(msgs[..], replicas[..], next, md5)
    ensures var f := old(replicas[i]);
      f.stored == md5(f.data) && (i > 0 ==> md5(old(replicas[i - 1]).data) == md5(f.data)) ==>
        replicas[..] == old(replicas[..]) && next == i + 1
    ensures var f := old(replicas[i]);
      !(f.stored == md5(f.data) && (i > 0 ==> md5(old(replicas[i - 1]).data) == md5(f.data))) ==>
        if fails then replicas[..] == old(replicas[..]) && next == i + 1
        else if i > 0 && f.stored == md5(f.data) && old(replicas[i - 1]).mtime < f.mtime then
          replicas[..] == old(replicas[..])[i - 1 := File(f.data, md5(f.data), now)] && next == i - 1
        else
          var data := old(replicas[if i == 0 then replicas.Length - 1 else i - 1]).data;
          replicas[..] == old(replicas[..])[i := File(data, md5(data), now)] && next == i
  {
    ghost var rs := replicas[..];
    next := i;
    msgs[next] := Opened(replicas[next], md5);
    assert Current(msgs[..], rs, i + 1, md5);
    var oldHash := next > 0 && msgs[next - 1].digest != msgs[next].digest;
    assert oldHash <==> Differs(rs, i, md5);
    if msgs[next].corrupt || oldHash {
      var ind := if next == 0 then replicas.Length - 1 else next - 1;
      var i2 := next;
      if !msgs[next].corrupt && oldHash && msgs[next - 1].mtime < msgs[next].mtime {
        next, ind := ind, next;
      }
      if fails {
        next := i2 + 1;
      } else {
        replicas[next] := File(replicas[ind].data, md5(replicas[ind].data), now);
      }
    } else {
      next := next + 1;
    }
  }

  /** All replicas are intact and agree, on a content that was there, and whose it is. */
  ghost predicate Repaired(rs: seq<File>, was: seq<File>, md5: Md5)
    requires |rs| == |was| >= 2
  {
    && Agreed(rs, |rs|, md5)
    && Inherited(rs, was)
    && (Salvageable(was, md5) ==> Sound(was, md5, DigestOf(rs[0], md5)))
    && (|rs| == 2 ==> DigestOf(rs[0], md5) == DigestOf(was[Winner(was, md5)], md5))
  }

  /** Which content it is in all cases, if no time was still to come. */
  ghost predicate RepairedInTime(rs: seq<File>, was: seq<File>, md5: Md5)
    requires |rs| == |was| >= 2
  {
    && (Salvageable(was, md5) <==> Sound(was, md5, DigestOf(rs[0], md5)))
    && (!Salvageable(was, md5) ==> DigestOf(rs[0], md5) == DigestOf(was[|was| - 1], md5))
  }

  /** What holds at the head of the loop while no restore fails. */
  ghost predicate UnderRepair(
    rs: seq<File>, was: seq<File>, i: nat, m: Mark, md5: Md5, clock: nat -> nat, t: nat, start: nat)
  {
    && |rs| == |was|
    && Progressing(rs, i, m, md5, clock, t, start)
    && Faithful(rs, was, md5)
    && (start == 0 ==> OnTheWay(rs, was, i, m, md5))
  }

  lemma VisitIsUnderRepair(
    rs: seq<File>, was: seq<File>, i: nat, m: Mark, md5: Md5, clock: nat -> nat, t: nat, start: nat)
    requires i < |rs| && Forward(clock) && UnderRepair(rs, was, i, m, md5, clock, t, start)
    ensures var v := Visit(rs, i, md5, clock(t));
      UnderRepair(v.replicas, was, v.next, Guided(m, rs, i, md5, clock(t), t, start), md5, clock, t + 1, start)
  {
    VisitProgresses(rs, i, m, md5, clock, t, start);
    VisitIsFaithful(rs, was, i, md5, clock(t));
    if start == 0 {
      StaysOnTheWay(rs, was, i, m, md5, clock(t));
    }
  }

  ghost predicate NoneFail(fails: nat -> bool) {
    forall t: nat :: !fails(t)
  }

  ghost predicate AllFail(fails: nat -> bool) {
    forall t: nat :: fails(t)
  }

  /** What holds at the head of the loop whatever restores fail. */
  ghost predicate Looping(
    rs: seq<File>, was: seq<File>, i: nat, m: Mark, md5: Md5, clock: nat -> nat, fails: nat -> bool, t: nat, start: nat)
  {
    && |rs| == |was| >= 2 && i <= |rs|
    && InTime(rs, clock, t, start)
    && KeptOrGiven(rs, was, md5)
    && (AllFail(fails) ==> rs == was && t == i)
    && (NoneFail(fails) ==> UnderRepair(rs, was, i, m, md5, clock, t, start))
  }

  lemma PassedIsLooping(
    rs: seq<File>, was: seq<File>, i: nat, m: Mark, md5: Md5, clock: nat -> nat, fails: nat -> bool, t: nat, start: nat)
    requires i < |rs| && Forward(clock) && Looping(rs, was, i, m, md5, clock, fails, t, start)
    ensures var v := Passed(rs, i, md5, clock(t), fails(t));
      Looping(v.replicas, was, v.next, Guided(m, rs, i, md5, clock(t), t, start), md5, clock, fails, t + 1, start)
  {
    PassedStaysInTime(rs, i, md5, clock, t, start, fails(t));
    PassedIsKeptOrGiven(rs, was, i, md5, clock(t), fails(t));
    if NoneFail(fails) {
      VisitIsUnderRepair(rs, was, i, m, md5, clock, t, start);
    }
  }

  /** The measure of the loop. */
  lemma LoopingCosts(
    rs: seq<File>, was: seq<File>, i: nat, m: Mark, md5: Md5, clock: nat -> nat, fails: nat -> bool, t: nat, start: nat)
    requires i < |rs| && Looping(rs, was, i, m, md5, clock, fails, t, start)
    ensures var v := Passed(rs, i, md5, clock(t), fails(t));
      && |v.replicas| == |rs| && v.next <= |rs|
      && (t < start
          || Weight(v.replicas, |rs|, md5) < Weight(rs, |rs|, md5)
          || (Weight(v.replicas, |rs|, md5) == Weight(rs, |rs|, md5)
              && (v.next == i + 1 || (v.next == i && Asks(rs, i, md5) && !Asks(v.replicas, i, md5)))))
  {
    if t >= start {
      PassedCosts(rs, i, md5, clock(t), fails(t));
    }
  }

  lemma ArrivedMeans(rs: seq<File>, was: seq<File>, m: Mark, md5: Md5)
    requires |rs| == |was| >= 2 && Agreed(rs, |rs|, md5) && Faithful(rs, was, md5)
    ensures Salvageable(was, md5) ==> Sound(was, md5, DigestOf(rs[0], md5))
    ensures OnTheWay(rs, was, |rs|, m, md5) && Located(rs, |rs|, m, md5) ==>
      && RepairedInTime(rs, was, md5)
      && (|rs| == 2 ==> DigestOf(rs[0], md5) == DigestOf(was[Winner(was, md5)], md5))
  {
    assert Intact(rs[0], md5);
    if Salvageable(was, md5) {
      KeptIsSound(rs, was, 0, md5);
    }
  }

  /** Without collisions what agrees is the content. */
  lemma AgreementIsOfContents(rs: seq<File>, was: seq<File>, md5: Md5)
    requires CollisionFree(md5) && |rs| == |was| >= 2 && Repaired(rs, was, md5)
    ensures forall j | 0 <= j < |rs| :: rs[j].data == rs[0].data
    ensures |rs| == 2 ==> rs[0].data == rs[1].data == was[Winner(was, md5)].data
  {
    assert forall j | 0 <= j < |rs| :: DigestOf(rs[j], md5) == DigestOf(rs[0], md5);
  }

  lemma LoopStarts(was: seq<File>, md5: Md5, clock: nat -> nat, fails: nat -> bool, start: nat)
    requires |was| >= 2 && InTime(was, clock, 0, start)
    ensures Looping(was, was, 0, Mark(0, Explore), md5, clock, fails, 0, start)
  {
  }

  lemma LoopedMeans(
    rs: seq<File>, was: seq<File>, m: Mark, md5: Md5, clock: nat -> nat, fails: nat -> bool, t: nat, start: nat)
    requires Looping(rs, was, |rs|, m, md5, clock, fails, t, start)
    requires Timely(was, clock(0)) ==> start == 0
    ensures NoneFail(fails) ==>
      && Repaired(rs, was, md5)
      && (Timely(was, clock(0)) ==> RepairedInTime(rs, was, md5))
      && (CollisionFree(md5) ==> forall j | 0 <= j < |rs| :: rs[j].data == rs[0].data)
      && (CollisionFree(md5) && |rs| == 2 ==>
            rs[0].data ==
              if was[0].stored != md5(was[0].data) then was[1].data
              else if was[1].stored != md5(was[1].data) then was[0].data
              else if was[0].mtime < was[1].mtime then was[1].data else was[0].data)
  {
    if NoneFail(fails) {
      ArrivedMeans(rs, was, m, md5);
      if CollisionFree(md5) {
        AgreementIsOfContents(rs, was, md5);
      }
    }
  }

  /**
   `client_open` on a file that all servers hold, when the clock passes all stored times by visit
   `settled`; two replicas do not need that. The restore that visit `t` may ask for fails if
   `fails(t)`. The loop ends, and every replica has its file or a content that was there.

   If no restore fails all replicas are intact and agree; which content it is follows if the
   times have passed when the loop starts, and for two replicas always. If all fail, each slot is
   visited once and nothing changes.
   */
  method ClientOpen(replicas: array<File>, md5: Md5, clock: nat -> nat, fails: nat -> bool, ghost settled: nat)
    returns (visits: nat)
    requires replicas.Length >= 2 && Forward(clock)
    requires replicas.Length == 2 || TimesUpTo(replicas[..], clock(settled))
    modifies replicas
    ensures KeptOrGiven(replicas[..], old(replicas[..]), md5)
    ensures AllFail(fails) ==> replicas[..] == old(replicas[..]) && visits == replicas.Length
    ensures NoneFail(fails) ==>
      && Repaired(replicas[..], old(replicas[..]), md5)
      && (Timely(old(replicas[..]), clock(0)) ==> RepairedInTime(replicas[..], old(replicas[..]), md5))
      && (CollisionFree(md5) ==> forall j | 0 <= j < replicas.Length :: replicas[j].data == replicas[0].data)
      && (CollisionFree(md5) && replicas.Length == 2 ==>
            var a, b := old(replicas[0]), old(replicas[1]);
            replicas[0].data ==
              if a.stored != md5(a.data) then b.data
              else if b.stored != md5(b.data) then a.data
              else if a.mtime < b.mtime then b.data else a.data)
  {
    ghost var was := replicas[..];
    ghost var start := if Timely(was, clock(0)) then 0 else settled;
    var msgs := new OpenReply[replicas.Length];
    var i := 0;
    visits := 0;
    ghost var m := Mark(0, Explore);
    LoopStarts(was, md5, clock, fails, start);
    while i < replicas.Length
      invariant 0 <= i <= replicas.Length
      invariant Looping(replicas[..], was, i, m, md5, clock, fails, visits, start)
      invariant Current(msgs[..], replicas[..], i, md5)
      decreases if visits < start then start - visits else 0,
        Weight(replicas[..], replicas.Length, md5),
        replicas.Length - i,
        if i < replicas.Length && Asks(replicas[..], i, md5) then 1 else 0
    {
      ghost var rs := replicas[..];
      LoopingCosts(rs, was, i, m, md5, clock, fails, visits, start);
      PassedIsLooping(rs, was, i, m, md5, clock, fails, visits, start);
      m := Guided(m, rs, i, md5, clock(visits), visits, start);
      i := OpenOne(replicas, msgs, i, md5, clock(visits), fails(visits));
      visits := visits + 1;
    }
    LoopedMeans(replicas[..], was, m, md5, clock, fails, visits, start);
  }

  /** `client_truncate` answered by every server: each content is cut, no digest is refreshed. */
  method TruncateAll(replicas: array<File>, size: nat, now: nat)
    modifies replicas
    ensures forall j | 0 <= j < replicas.Length :: replicas[j] == Truncated(old(replicas[j]), size, now)
  {
    for i := 0 to replicas.Length
      invariant forall j | 0 <= j < i :: replicas[j] == Truncated(old(replicas[j]), size, now)
      invariant forall j | i <= j < replicas.Length :: replicas[j] == old(replicas[j])
    {
      replicas[i] := Truncated(replicas[i], size, now);
    }
  }

  /** Replicas that agree are cut, their digests go stale, and the next open makes them valid again. */
  method TruncateThenOpen(replicas: array<File>, content: Bytes, size: nat, md5: Md5, clock: nat -> nat)
    requires replicas.Length >= 2
    requires forall j | 0 <= j < replicas.Length :: replicas[j].data == content
    requires Forward(clock)
    modifies replicas
    ensures forall j | 0 <= j < replicas.Length ::
      replicas[j].data == Resized(content, size) && Intact(replicas[j], md5)
    ensures forall j | 0 <= j < replicas.Length ::
      && |replicas[j].data| == size && replicas[j].stored == md5(replicas[j].data)
      && forall k | 0 <= k < size :: replicas[j].data[k] == if k < |content| then content[k] else 0
  {
    TruncateAll(replicas, size, clock(0));
    ghost var cut := replicas[..];
    assert forall f | f in cut :: f.data == Resized(content, size);
    var _ := ClientOpen(replicas, md5, clock, _ => false, 0);
    forall j | 0 <= j < replicas.Length ensures replicas[j].data == Resized(content, size) {
      assert replicas[j] in replicas[..];
      assert replicas[j].data in ContentsIn(replicas[..]);
    }
  }

  /**
   With three replicas an intact copy in the middle does not help: the corrupt first one is
   restored from the corrupt last one, and its content, now the newest, replaces the intact one.
   */
  lemma IntactCopyCanLose(md5: Md5, a: Bytes, b: Bytes, stale: Digest)
    requires md5(a) != md5(b) && stale != md5(a)
    ensures var was := [File(a, stale, 0), File(b, md5(b), 0), File(a, stale, 0)];
      Intact(was[1], md5) && !Salvageable(was, md5)
  {
    var was := [File(a, stale, 0), File(b, md5(b), 0), File(a, stale, 0)];
    forall o | 0 <= o < 3 ensures !(Intact(was[o], md5) && DigestOf(was[o], md5) == md5(a)) {
    }
  }
}
