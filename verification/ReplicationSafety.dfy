/**
 What every reachable state of the client satisfies, for any number of servers: slot 0 can be
 used, watchers sit on distinct slots that are down, server names are only permuted, and every
 descriptor belongs to the server now named in its slot.
 */
module ReplicationSafety {
  import opened Replication

  ghost predicate WatchersSafe<D>(w: World<D>) {
    && (forall a | 0 <= a < |w.watchers| ::
          w.watchers[a].slot < |w.slots| && w.slots[w.watchers[a].slot].status == Down)
    && (forall a, b | 0 <= a < b < |w.watchers| :: w.watchers[a].slot != w.watchers[b].slot)
  }

  ghost predicate DistinctNames<D>(w: World<D>) {
    && (forall a, b | 0 <= a < b < |w.slots| :: w.slots[a].name != w.slots[b].name)
    && (forall a | 0 <= a < |w.slots| :: w.slots[a].name != w.hotswap)
  }

  ghost predicate OwnedSlot(s: Slot) {
    forall fh | fh in s.fds :: s.fds[fh].Issued? ==> s.fds[fh].issuer == s.name
  }

  ghost predicate Owned<D>(w: World<D>) {
    forall j | 0 <= j < |w.slots| :: OwnedSlot(w.slots[j])
  }

  ghost predicate FirstIsLive<D>(w: World<D>) {
    |w.slots| > 0 && (w.running ==> w.slots[0].Live())
  }

  ghost predicate Safe<D>(w: World<D>) {
    FirstIsLive(w) && WatchersSafe(w) && DistinctNames(w) && Owned(w)
  }

  ghost function SlotNames(slots: seq<Slot>): (r: seq<Name>)
    ensures |r| == |slots| && forall j | 0 <= j < |slots| :: r[j] == slots[j].name
  {
    seq(|slots|, j requires 0 <= j < |slots| => slots[j].name)
  }

  /** All the server names the client knows, with multiplicity. */
  ghost function Names<D>(w: World<D>): multiset<Name> {
    multiset(SlotNames(w.slots)) + multiset{w.hotswap}
  }

  // ------------------------------------------------------------------ one step

  /** Slot `i` keeps its name and is live before and after; nothing else changes but the disks. */
  ghost predicate Retouched<D>(w: World<D>, v: World<D>, i: nat) {
    && i < |w.slots| == |v.slots|
    && v == w.(slots := w.slots[i := v.slots[i]], disks := v.disks)
    && v.slots[i].name == w.slots[i].name
    && w.slots[i].Live() && v.slots[i].Live()
    && (OwnedSlot(w.slots[i]) ==> OwnedSlot(v.slots[i]))
  }

  lemma RetouchedIsSafe<D>(w: World<D>, v: World<D>, i: nat)
    requires Retouched(w, v, i) && Safe(w)
    ensures Safe(v)
    ensures Names(v) == Names(w)
  {
    assert SlotNames(v.slots) == SlotNames(w.slots);
    assert DistinctNames(v);
    assert WatchersSafe(v);
  }

  /** The slots that a running watcher points at are the ones `reconnect` does not touch. */
  lemma ReconnectLeavesWatchedSlots<D>(w: World<D>, i: nat, a: nat)
    requires WatchersSafe(w) && i < |w.slots| && w.slots[i].Live() && a < |w.watchers|
    ensures w.watchers[a].slot != i && w.watchers[a].slot != Landing(w.slots, i)
    ensures Reconnected(w, i).slots[w.watchers[a].slot] == w.slots[w.watchers[a].slot]
  {
  }

  lemma ReconnectKeepsWatchersSafe<D>(w: World<D>, i: nat)
    requires WatchersSafe(w) && i < |w.slots| && w.slots[i].Live()
    ensures WatchersSafe(Reconnected(w, i))
  {
    var v := Reconnected(w, i);
    forall a: nat | a < |w.watchers|
      ensures w.watchers[a].slot != Landing(w.slots, i) && v.slots[w.watchers[a].slot].status == Down
    {
      ReconnectLeavesWatchedSlots(w, i, a);
    }
  }

  lemma ReconnectPermutesNames<D>(w: World<D>, i: nat)
    requires i < |w.slots|
    ensures Names(Reconnected(w, i)) == Names(w)
  {
    var v := Reconnected(w, i);
    var before := SlotNames(w.slots);
    if RotatesTo(w.slots, i) {
      assert SlotNames(v.slots) == before[i := before[i + 1]][i + 1 := before[i]];
    } else {
      assert SlotNames(v.slots) == before;
    }
  }

  lemma ReconnectKeepsNames<D>(w: World<D>, i: nat)
    requires DistinctNames(w) && i < |w.slots|
    ensures DistinctNames(Reconnected(w, i))
  {
  }

  lemma ReconnectKeepsOwned<D>(w: World<D>, i: nat)
    requires Owned(w) && i < |w.slots|
    ensures Owned(Reconnected(w, i))
  {
    var v := Reconnected(w, i).slots;
    forall j | 0 <= j < |v| ensures OwnedSlot(v[j]) {
      assert OwnedSlot(w.slots[i]);
      if v[j] != w.slots[i].(status := Down) {
        assert v[j] == w.slots[if j == i then i + 1 else j];
      }
    }
  }

  lemma ReconnectIsSafe<D>(w: World<D>, i: nat)
    requires Safe(w) && i < |w.slots| && w.slots[i].Live()
    ensures Safe(Reconnected(w, i))
    ensures Names(Reconnected(w, i)) == Names(w)
  {
    ReconnectKeepsWatchersSafe(w, i);
    ReconnectKeepsNames(w, i);
    ReconnectPermutesNames(w, i);
    ReconnectKeepsOwned(w, i);
  }

  lemma SpoiledIsSafe<D>(w: World<D>, i: nat, r: Request<D>, left: D)
    requires Safe(w) && i < |w.slots| && w.slots[i].Live()
    ensures Safe(Spoiled(w, i, r, left)) && Names(Spoiled(w, i, r, left)) == Names(w)
  {
    RetouchedIsSafe(w, Spoiled(w, i, r, left), i);
  }

  lemma LostIsSafe<D>(w: World<D>, i: nat, r: Request<D>, left: D)
    requires Safe(w) && i < |w.slots| && w.slots[i].Live()
    ensures Safe(Reconnected(Spoiled(w, i, r, left), i))
    ensures Names(Reconnected(Spoiled(w, i, r, left), i)) == Names(w)
  {
    SpoiledIsSafe(w, i, r, left);
    SpoiledKeepsStatuses(w, i, r, left);
    ReconnectIsSafe(Spoiled(w, i, r, left), i);
  }

  lemma AskedIsSafe<D>(c: Call<D>, r: Request<D>, a: Answer<D>)
    requires Safe(c.w) && c.i < |c.w.slots| && c.w.slots[c.i].Live()
    ensures Safe(Asked(c, r, a).w)
    ensures Names(Asked(c, r, a).w) == Names(c.w)
  {
    match a
    case Answered(fd) => RetouchedIsSafe(c.w, Executed(c, r, fd).w, c.i);
    case Lost(left) => LostIsSafe(c.w, c.i, r, left);
  }

  lemma RestockedIsSafe<D>(c: Call<D>)
    requires Safe(c.w) && c.i < |c.w.slots| && c.w.slots[c.i].Live()
    ensures Safe(Restocked(c).w) && Names(Restocked(c).w) == Names(c.w)
  {
    RetouchedIsSafe(c.w, Restocked(c).w, c.i);
  }

  lemma RevivedIsSafe<D>(c: Call<D>, r: Request<D>, reply: Reply<D>)
    requires Safe(c.w) && c.i < |c.w.slots| && c.w.slots[c.i].Live()
    ensures Safe(Revived(c, r, reply).w)
    ensures Names(Revived(c, r, reply).w) == Names(c.w)
  {
    match reply.rebuild
    case Copied =>
      RestockedIsSafe(c);
      RestockedCosts(c);
      AskedIsSafe(Restocked(c), r, reply.answer);
    case Refused(left) => SpoiledIsSafe(c.w, c.i, Probe, left);
    case Unreachable(left) => LostIsSafe(c.w, c.i, Probe, left);
  }

  lemma VisitedIsSafe<D>(c: Call<D>, r: Request<D>, reply: Reply<D>)
    requires Safe(c.w) && c.i < |c.w.slots|
    ensures Safe(Visited(c, r, reply).w)
    ensures Names(Visited(c, r, reply).w) == Names(c.w)
  {
    match c.w.slots[c.i].status
    case Down =>
    case Up => AskedIsSafe(c, r, reply.answer);
    case Starting => RevivedIsSafe(c, r, reply);
  }

  lemma {:induction false} FinishedIsSafe<D>(c: Call<D>, r: Request<D>, limit: nat, env: nat -> Reply<D>, k: nat)
    requires Safe(c.w) && c.i <= limit <= |c.w.slots|
    ensures Safe(Finished(c, r, limit, env, k).w)
    ensures Names(Finished(c, r, limit, env, k).w) == Names(c.w)
    decreases Remaining(c, limit)
  {
    if c.i < limit && c.w.running {
      VisitedIsSafe(c, r, env(k));
      VisitedCosts(c, r, env(k), limit);
      FinishedIsSafe(Observed(Visited(c, r, env(k))), r, limit, env, k + 1);
    }
  }

  lemma TickKeepsWatchersSafe<D>(w: World<D>, k: nat, pong: bool, timeout: int)
    requires WatchersSafe(w) && k < |w.watchers|
    ensures WatchersSafe(Ticked(w, k, pong, timeout))
  {
    var v := Ticked(w, k, pong, timeout);
    forall a | 0 <= a < |v.watchers|
      ensures v.watchers[a].slot == w.watchers[if |v.watchers| == |w.watchers| || a < k then a else a + 1].slot
    {
    }
  }

  lemma TickKeepsNames<D>(w: World<D>, k: nat, pong: bool, timeout: int)
    requires DistinctNames(w) && k < |w.watchers| && w.watchers[k].slot < |w.slots|
    ensures DistinctNames(Ticked(w, k, pong, timeout))
    ensures Names(Ticked(w, k, pong, timeout)) == Names(w)
  {
    var v := Ticked(w, k, pong, timeout);
    var at := w.watchers[k].slot;
    var before := SlotNames(w.slots);
    assert SlotNames(v.slots) == before[at := v.slots[at].name];
  }

  lemma TickedIsSafe<D>(w: World<D>, k: nat, pong: bool, timeout: int)
    requires Safe(w) && w.running && k < |w.watchers|
    ensures Safe(Ticked(w, k, pong, timeout))
    ensures Names(Ticked(w, k, pong, timeout)) == Names(w)
  {
    TickKeepsWatchersSafe(w, k, pong, timeout);
    TickKeepsNames(w, k, pong, timeout);
    assert Owned(Ticked(w, k, pong, timeout));
  }

  // ------------------------------------------------------------------ every run

  /**
   In every reachable state, whatever the network does: a running client has a live server in
   slot 0, watchers sit on distinct down slots, names are conserved, descriptors are owned.
   */
  lemma NextIsSafe<D>(h: History<D>, e: Event<D>, timeout: int)
    requires Safe(h.w)
    ensures Safe(Next(h, e, timeout).w)
    ensures Names(Next(h, e, timeout).w) == Names(h.w)
  {
    if h.w.running {
      match e
      case Tick(k, pong) =>
        if k < |h.w.watchers| { TickedIsSafe(h.w, k, pong, timeout); }
      case Invoke(r, env) =>
        FinishedIsSafe(Begin(h.w), r, Limit(h.w, r), env, 0);
    }
  }

  lemma {:induction false} EveryRunIsSafe<D>(h: History<D>, es: seq<Event<D>>, timeout: int)
    requires Safe(h.w)
    ensures Safe(Ran(h, es, timeout).w)
    ensures Names(Ran(h, es, timeout).w) == Names(h.w)
    decreases |es|
  {
    if es != [] {
      NextIsSafe(h, es[0], timeout);
      EveryRunIsSafe(Next(h, es[0], timeout), es[1..], timeout);
    }
  }

  lemma InitialIsSafe<D>(w: World<D>, fs: D)
    requires Initial(w, fs)
    ensures Safe(w)
  {
  }
}
