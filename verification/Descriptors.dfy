/**
 Which descriptors an `open` or `opendir` leaves in the slots: in each slot that is UP the one that
 the server of this slot answered, and under all other handles what was there.
 */
module Descriptors {
  import opened Replication
  import opened ReplicationSafety
  import opened FanOut

  // ------------------------------------------------------------------ iterations of a call

  /** The call after `n` iterations, or where it ended before. */
  ghost function Stepped<D>(c: Call<D>, r: Request<D>, limit: nat, env: nat -> Reply<D>, n: nat): (d: Call<D>)
    requires c.i <= limit <= |c.w.slots|
    ensures d.i <= limit <= |d.w.slots|
  {
    if n == 0 then c
    else
      var d := Stepped(c, r, limit, env, n - 1);
      if d.i == limit || !d.w.running then d
      else
        VisitedCosts(d, r, env(n - 1), limit);
        Observed(Visited(d, r, env(n - 1)))
  }

  /** In iteration `m` server `name` was asked and answered with descriptor `fd`. */
  ghost predicate Answers<D>(
    c: Call<D>, r: Request<D>, limit: nat, env: nat -> Reply<D>, m: nat, name: Name, fd: nat)
    requires c.i <= limit <= |c.w.slots|
  {
    var d := Stepped(c, r, limit, env, m);
    && d.i < limit && d.w.slots[d.i].name == name
    && Stepped(c, r, limit, env, m + 1).answered == d.answered + [name]
    && env(m).answer == Answered(fd)
  }

  /** The slot holds under `fh` what its own server answered. */
  ghost predicate HoldsAnswer<D>(c: Call<D>, fh: nat, limit: nat, env: nat -> Reply<D>, s: Slot)
    requires c.i <= limit <= |c.w.slots|
  {
    && fh in s.fds && s.fds[fh].Issued? && s.fds[fh].issuer == s.name
    && exists m: nat :: Answers(c, Open(fh), limit, env, m, s.name, s.fds[fh].fd)
  }

  // ------------------------------------------------------------------ other handles

  /** The slot of the same server, with the same descriptors under all handles but `fh`. */
  ghost predicate SameSlotBut(s: Slot, t: Slot, fh: nat) {
    && s.name == t.name
    && forall h | h != fh :: (h in s.fds <==> h in t.fds) && (h in s.fds ==> s.fds[h] == t.fds[h])
  }

  ghost predicate ComesFrom(was: seq<Slot>, s: Slot, fh: nat) {
    exists o :: 0 <= o < |was| && SameSlotBut(was[o], s, fh)
  }

  ghost predicate Descends(was: seq<Slot>, now: seq<Slot>, fh: nat) {
    forall j | 0 <= j < |now| :: ComesFrom(was, now[j], fh)
  }

  lemma SameInSteps(s: Slot, t: Slot, u: Slot, fh: nat)
    requires SameSlotBut(s, t, fh) && SameSlotBut(t, u, fh)
    ensures SameSlotBut(s, u, fh)
  {
  }

  lemma DescendsInSteps(a: seq<Slot>, b: seq<Slot>, c: seq<Slot>, fh: nat)
    requires Descends(a, b, fh) && Descends(b, c, fh)
    ensures Descends(a, c, fh)
  {
    forall j | 0 <= j < |c| ensures ComesFrom(a, c[j], fh) {
      assert ComesFrom(b, c[j], fh);
      var p :| 0 <= p < |b| && SameSlotBut(b[p], c[j], fh);
      assert ComesFrom(a, b[p], fh);
      var o :| 0 <= o < |a| && SameSlotBut(a[o], b[p], fh);
      SameInSteps(a[o], b[p], c[j], fh);
    }
  }

  lemma OneSlotDescends(slots: seq<Slot>, i: nat, s: Slot, fh: nat)
    requires i < |slots| && SameSlotBut(slots[i], s, fh)
    ensures Descends(slots, slots[i := s], fh)
  {
    var now := slots[i := s];
    forall j | 0 <= j < |now| ensures ComesFrom(slots, now[j], fh) {
      assert SameSlotBut(slots[j], now[j], fh);
    }
  }

  lemma UnchangedDescends(slots: seq<Slot>, fh: nat)
    ensures Descends(slots, slots, fh)
  {
    forall j | 0 <= j < |slots| ensures ComesFrom(slots, slots[j], fh) {
      assert SameSlotBut(slots[j], slots[j], fh);
    }
  }

  lemma DemotedDescends(slots: seq<Slot>, i: nat, fh: nat)
    requires i < |slots|
    ensures Descends(slots, Demoted(slots, i), fh)
  {
    var v := Demoted(slots, i);
    forall j | 0 <= j < |v| ensures ComesFrom(slots, v[j], fh) {
      var o := if !RotatesTo(slots, i) then j else if j == i then i + 1 else if j == i + 1 then i else j;
      assert SameSlotBut(slots[o], v[j], fh);
    }
  }

  lemma LostDescends<D>(w: World<D>, i: nat, r: Request<D>, left: D, fh: nat)
    requires i < |w.slots| && (r == Open(fh) || r.Probe?)
    ensures Descends(w.slots, Spoiled(w, i, r, left).slots, fh)
    ensures Descends(w.slots, Reconnected(Spoiled(w, i, r, left), i).slots, fh)
  {
    var s := Spoiled(w, i, r, left).slots;
    OneSlotDescends(w.slots, i, s[i], fh);
    DemotedDescends(s, i, fh);
    DescendsInSteps(w.slots, s, Demoted(s, i), fh);
  }

  lemma AskedDescends<D>(c: Call<D>, a: Answer<D>, fh: nat)
    requires c.i < |c.w.slots|
    ensures Descends(c.w.slots, Asked(c, Open(fh), a).w.slots, fh)
  {
    match a
    case Answered(fd) => OneSlotDescends(c.w.slots, c.i, Executed(c, Open(fh), fd).w.slots[c.i], fh);
    case Lost(left) => LostDescends(c.w, c.i, Open(fh), left, fh);
  }

  lemma VisitedDescends<D>(c: Call<D>, reply: Reply<D>, fh: nat)
    requires c.i < |c.w.slots|
    ensures Descends(c.w.slots, Visited(c, Open(fh), reply).w.slots, fh)
  {
    match c.w.slots[c.i].status
    case Down => UnchangedDescends(c.w.slots, fh);
    case Up => AskedDescends(c, reply.answer, fh);
    case Starting =>
      match reply.rebuild
      case Copied =>
        OneSlotDescends(c.w.slots, c.i, Restocked(c).w.slots[c.i], fh);
        AskedDescends(Restocked(c), reply.answer, fh);
        DescendsInSteps(c.w.slots, Restocked(c).w.slots, Asked(Restocked(c), Open(fh), reply.answer).w.slots, fh);
      case Refused(left) => LostDescends(c.w, c.i, Probe, left, fh);
      case Unreachable(left) => LostDescends(c.w, c.i, Probe, left, fh);
  }

  // ------------------------------------------------------------------ the handle itself

  /**
   What an iteration does to the slots in front of the index: none changes, and the slot it
   passes is not UP or holds the answer.
   */
  ghost predicate Records<D>(c: Call<D>, d: Call<D>, fh: nat, a: Answer<D>) {
    && c.i <= d.i <= c.i + 1 && d.i <= |d.w.slots| == |c.w.slots| && c.i < |c.w.slots|
    && (forall j | 0 <= j < c.i :: d.w.slots[j] == c.w.slots[j])
    && (d.i == c.i + 1 && d.w.slots[c.i].status == Up ==>
          && a.Answered? && d.answered == c.answered + [c.w.slots[c.i].name]
          && d.w.slots[c.i].name == c.w.slots[c.i].name
          && fh in d.w.slots[c.i].fds && d.w.slots[c.i].fds[fh] == Issued(c.w.slots[c.i].name, a.fd))
  }

  lemma AskedRecords<D>(c: Call<D>, a: Answer<D>, fh: nat)
    requires c.i < |c.w.slots|
    ensures Records(c, Asked(c, Open(fh), a), fh, a)
  {
    if a.Lost? { SpoiledKeepsStatuses(c.w, c.i, Open(fh), a.left); }
  }

  lemma CopiedRecords<D>(c: Call<D>, a: Answer<D>, fh: nat)
    requires c.i < |c.w.slots|
    ensures Records(c, Asked(Restocked(c), Open(fh), a), fh, a)
  {
    AskedRecords(Restocked(c), a, fh);
  }

  lemma RefusedRecords<D>(c: Call<D>, left: D, fh: nat, a: Answer<D>)
    requires c.i < |c.w.slots| && c.w.slots[c.i].status == Starting
    ensures Records(c, c.(w := Spoiled(c.w, c.i, Probe, left), i := c.i + 1), fh, a)
  {
  }

  lemma UnreachableRecords<D>(c: Call<D>, left: D, fh: nat, a: Answer<D>)
    requires c.i < |c.w.slots| && c.w.slots[c.i].status == Starting && !Exposed(c.w.slots, c.i)
    ensures Records(c, c.(w := Reconnected(Spoiled(c.w, c.i, Probe, left), c.i), i := c.i + 1), fh, a)
  {
    SpoiledKeepsStatuses(c.w, c.i, Probe, left);
  }

  lemma RevivedRecords<D>(c: Call<D>, reply: Reply<D>, fh: nat)
    requires c.i < |c.w.slots| && c.w.slots[c.i].status == Starting && !Exposed(c.w.slots, c.i)
    ensures Records(c, Revived(c, Open(fh), reply), fh, reply.answer)
  {
    match reply.rebuild
    case Copied => CopiedRecords(c, reply.answer, fh);
    case Refused(left) => RefusedRecords(c, left, fh, reply.answer);
    case Unreachable(left) => UnreachableRecords(c, left, fh, reply.answer);
  }

  lemma VisitedRecords<D>(c: Call<D>, reply: Reply<D>, fh: nat)
    requires c.i < |c.w.slots| && !Exposed(c.w.slots, c.i)
    ensures Records(c, Visited(c, Open(fh), reply), fh, reply.answer)
  {
    match c.w.slots[c.i].status
    case Down =>
    case Up => AskedRecords(c, reply.answer, fh);
    case Starting => RevivedRecords(c, reply, fh);
  }

  /** Every slot in front of the index that is UP holds the answer of its server. */
  ghost predicate AllHold<D>(c0: Call<D>, fh: nat, limit: nat, env: nat -> Reply<D>, c: Call<D>)
    requires c0.i <= limit <= |c0.w.slots|
  {
    forall j | 0 <= j < |c.w.slots| && j < c.i && c.w.slots[j].status == Up ::
      HoldsAnswer(c0, fh, limit, env, c.w.slots[j])
  }

  lemma VisitedHolds<D>(c0: Call<D>, fh: nat, limit: nat, env: nat -> Reply<D>, c: Call<D>, k: nat)
    requires c0.i <= limit <= |c0.w.slots| && c == Stepped(c0, Open(fh), limit, env, k)
    requires c.i < limit && c.w.running && !Exposed(c.w.slots, c.i) && AllHold(c0, fh, limit, env, c)
    ensures AllHold(c0, fh, limit, env, Observed(Visited(c, Open(fh), env(k))))
  {
    var d := Observed(Visited(c, Open(fh), env(k)));
    VisitedRecords(c, env(k), fh);
    assert d == Stepped(c0, Open(fh), limit, env, k + 1);
    forall j | 0 <= j < |d.w.slots| && j < d.i && d.w.slots[j].status == Up
      ensures HoldsAnswer(c0, fh, limit, env, d.w.slots[j])
    {
      if j == c.i {
        assert Answers(c0, Open(fh), limit, env, k, d.w.slots[j].name, env(k).answer.fd);
      }
    }
  }

  /** What holds before iteration `k` of an open. */
  ghost predicate Holding<D>(c0: Call<D>, fh: nat, limit: nat, env: nat -> Reply<D>, c: Call<D>, k: nat) {
    && c0.i <= limit <= |c0.w.slots| == |c.w.slots|
    && c == Stepped(c0, Open(fh), limit, env, k)
    && Safe(c.w) && Tally(c) && OrderedFrom(c.w.slots, c.i)
    && AllHold(c0, fh, limit, env, c)
    && Descends(c0.w.slots, c.w.slots, fh)
  }

  lemma VisitedIsHolding<D>(c0: Call<D>, fh: nat, limit: nat, env: nat -> Reply<D>, c: Call<D>, k: nat)
    requires Holding(c0, fh, limit, env, c, k) && c.i < limit && c.w.running
    ensures Holding(c0, fh, limit, env, Observed(Visited(c, Open(fh), env(k))), k + 1)
  {
    var r: Request<D> := Open(fh);
    var d := Observed(Visited(c, r, env(k)));
    VisitedIsSafe(c, r, env(k));
    VisitedKeepsTally(c, r, env(k));
    VisitedCosts(c, r, env(k), limit);
    VisitedHolds(c0, fh, limit, env, c, k);
    VisitedDescends(c, env(k), fh);
    DescendsInSteps(c0.w.slots, c.w.slots, d.w.slots, fh);
  }

  lemma {:induction false} FinishedHolds<D>(
    c0: Call<D>, fh: nat, limit: nat, env: nat -> Reply<D>, c: Call<D>, k: nat) returns (n: nat)
    requires Holding(c0, fh, limit, env, c, k)
    ensures Holding(c0, fh, limit, env, Finished(c, Open(fh), limit, env, k), n)
    decreases Remaining(c, limit)
  {
    n := k;
    if c.i < limit && c.w.running {
      VisitedCosts(c, Open(fh), env(k), limit);
      VisitedIsHolding(c0, fh, limit, env, c, k);
      n := FinishedHolds(c0, fh, limit, env, Observed(Visited(c, Open(fh), env(k))), k + 1);
    }
  }

  lemma CalledHolds<D>(w: World<D>, fh: nat, env: nat -> Reply<D>) returns (n: nat)
    requires Safe(w) && Ordered(w.slots)
    ensures Holding(Begin(w), fh, |w.slots|, env, Called(w, Open(fh), env), n)
  {
    UnchangedDescends(w.slots, fh);
    n := FinishedHolds(Begin(w), fh, |w.slots|, env, Begin(w), 0);
  }

  /**
   After an open from an ordered state every slot that is UP holds under the handle the
   descriptor that its own server answered in this call.
   */
  lemma OpenRecordsEachServersAnswer<D>(w: World<D>, fh: nat, env: nat -> Reply<D>, j: nat)
    requires Safe(w) && Ordered(w.slots)
    ensures var v := Called(w, Open(fh), env).w;
      v.running && j < |v.slots| && v.slots[j].status == Up ==>
        var s := v.slots[j];
        && fh in s.fds && s.fds[fh].Issued? && s.fds[fh].issuer == s.name
        && exists m: nat :: Answers(Begin(w), Open(fh), |w.slots|, env, m, s.name, s.fds[fh].fd)
  {
    var n := CalledHolds(w, fh, env);
    var v := Called(w, Open(fh), env).w;
    if v.running && j < |v.slots| && v.slots[j].status == Up {
      assert HoldsAnswer(Begin(w), fh, |w.slots|, env, v.slots[j]);
    }
  }

  /** And every slot holds under the other handles what the slot of the same server held. */
  lemma OpenKeepsOtherHandles<D>(w: World<D>, fh: nat, env: nat -> Reply<D>, j: nat) returns (o: nat)
    requires Safe(w) && Ordered(w.slots) && j < |Called(w, Open(fh), env).w.slots|
    ensures var s := Called(w, Open(fh), env).w.slots[j];
      && o < |w.slots| && w.slots[o].name == s.name
      && forall h | h != fh ::
           (h in w.slots[o].fds <==> h in s.fds) && (h in s.fds ==> s.fds[h] == w.slots[o].fds[h])
  {
    var n := CalledHolds(w, fh, env);
    var s := Called(w, Open(fh), env).w.slots[j];
    assert ComesFrom(w.slots, s, fh);
    o :| 0 <= o < |w.slots| && SameSlotBut(w.slots[o], s, fh);
  }
}
