/**
 Every server that goes down is watched: as long as the client runs, each slot that is down has
 exactly one watcher, or it was given up after all pings of the server and of the hotswap failed.
 The pings of a run are logged beside it, whatever the watchers make of them.
 */
module Watching {
  import opened Replication
  import opened ReplicationSafety

  // ------------------------------------------------------------------ the log of pings

  datatype Ping = Ping(slot: nat, name: Name, pong: bool)

  function PingsOf(log: seq<Ping>, slot: nat): seq<Ping> {
    if log == [] then [] else
      var last := log[|log| - 1];
      PingsOf(log[..|log| - 1], slot) + (if last.slot == slot then [last] else [])
  }

  lemma PingsOfLonger(log: seq<Ping>, p: Ping, slot: nat)
    ensures PingsOf(log + [p], slot) == PingsOf(log, slot) + (if p.slot == slot then [p] else [])
  {
    assert (log + [p])[..|log|] == log;
  }

  /** The `n` pings before the last `skip` ones failed, and went to `name` or, after an exchange, not to it. */
  ghost predicate Failed(ps: seq<Ping>, n: int, skip: int, name: Name, same: bool) {
    && 0 <= skip && 0 <= n && n + skip <= |ps|
    && forall j | |ps| - skip - n <= j < |ps| - skip :: !ps[j].pong && (ps[j].name == name <==> same)
  }

  /** `timeout` pings of a former name and then `timeout` pings of the present one have failed. */
  ghost predicate GivenUp<D>(w: World<D>, log: seq<Ping>, slot: nat, timeout: int) {
    && slot < |w.slots|
    && var tries := if timeout < 1 then 1 else timeout;
       var ps := PingsOf(log, slot);
       Failed(ps, tries, 0, w.slots[slot].name, true) && Failed(ps, tries, tries, w.slots[slot].name, false)
  }

  ghost predicate HasWatcher<D>(w: World<D>, slot: nat) {
    exists a :: 0 <= a < |w.watchers| && w.watchers[a].slot == slot
  }

  /** What a watcher has behind it. */
  ghost predicate Counting<D>(w: World<D>, log: seq<Ping>, t: Watcher, timeout: int) {
    && t.slot < |w.slots|
    && var tries := if timeout < 1 then 1 else timeout;
       var ps := PingsOf(log, t.slot);
       && 1 <= t.tries <= tries
       && Failed(ps, t.tries - 1, 0, w.slots[t.slot].name, true)
       && (t.swapped ==> Failed(ps, tries, t.tries - 1, w.slots[t.slot].name, false))
  }

  ghost predicate AllCounting<D>(w: World<D>, log: seq<Ping>, timeout: int) {
    forall a | 0 <= a < |w.watchers| :: Counting(w, log, w.watchers[a], timeout)
  }

  ghost predicate DownAreWatched<D>(w: World<D>, log: seq<Ping>, timeout: int) {
    forall s | 0 <= s < |w.slots| && w.slots[s].status == Down :: HasWatcher(w, s) || GivenUp(w, log, s, timeout)
  }

  ghost predicate Attended<D>(w: World<D>, log: seq<Ping>, timeout: int) {
    Safe(w) && (w.running ==> AllCounting(w, log, timeout) && DownAreWatched(w, log, timeout))
  }

  // ------------------------------------------------------------------ one call

  lemma RetouchedIsAttended<D>(w: World<D>, v: World<D>, i: nat, log: seq<Ping>, timeout: int)
    requires Retouched(w, v, i) && Attended(w, log, timeout)
    ensures Attended(v, log, timeout)
  {
    RetouchedIsSafe(w, v, i);
    if w.running {
      forall s | 0 <= s < |v.slots| && v.slots[s].status == Down
        ensures HasWatcher(v, s) || GivenUp(v, log, s, timeout)
      {
        assert s != i && v.slots[s] == w.slots[s];
        if HasWatcher(w, s) {
          var a :| 0 <= a < |w.watchers| && w.watchers[a].slot == s;
          assert v.watchers[a].slot == s;
        }
      }
      forall a | 0 <= a < |v.watchers| ensures Counting(v, log, v.watchers[a], timeout) {
        assert Counting(w, log, w.watchers[a], timeout);
      }
    }
  }

  lemma WatcherStays<D>(w: World<D>, v: World<D>, s: nat)
    requires w.watchers <= v.watchers && HasWatcher(w, s)
    ensures HasWatcher(v, s)
  {
    var a :| 0 <= a < |w.watchers| && w.watchers[a].slot == s;
    assert v.watchers[a].slot == s;
  }

  lemma ReconnectedIsAttended<D>(w: World<D>, i: nat, log: seq<Ping>, timeout: int)
    requires Attended(w, log, timeout) && i < |w.slots| && w.slots[i].Live()
    ensures Attended(Reconnected(w, i), log, timeout)
  {
    var v := Reconnected(w, i);
    ReconnectIsSafe(w, i);
    if v.running {
      var at := ReconnectIsWatched(w, i);
      forall s | 0 <= s < |v.slots| && v.slots[s].status == Down
        ensures HasWatcher(v, s) || GivenUp(v, log, s, timeout)
      {
        if s == at {
          assert v.watchers[|w.watchers|].slot == at;
        } else {
          DownElsewhere(w, i, at, s);
          if HasWatcher(w, s) { WatcherStays(w, v, s); }
        }
      }
      forall a | 0 <= a < |v.watchers| ensures Counting(v, log, v.watchers[a], timeout) {
        if a < |w.watchers| {
          ReconnectLeavesWatchedSlots(w, i, a);
          assert Counting(w, log, w.watchers[a], timeout);
        }
      }
    }
  }

  lemma DownElsewhere<D>(w: World<D>, i: nat, at: nat, s: nat)
    requires i < |w.slots| && w.slots[i].Live() && DistinctNames(w)
    requires at < |w.slots| && s < |w.slots| && s != at
    requires Reconnected(w, i).slots[at] == w.slots[i].(status := Down)
    requires Reconnected(w, i).slots[s].status == Down
    ensures Reconnected(w, i).slots[s] == w.slots[s]
  {
    assert at == Landing(w.slots, i);
  }

  lemma SpoiledIsAttended<D>(w: World<D>, i: nat, r: Request<D>, left: D, log: seq<Ping>, timeout: int)
    requires Attended(w, log, timeout) && i < |w.slots| && w.slots[i].Live()
    ensures Attended(Spoiled(w, i, r, left), log, timeout)
  {
    RetouchedIsAttended(w, Spoiled(w, i, r, left), i, log, timeout);
  }

  lemma LostIsAttended<D>(w: World<D>, i: nat, r: Request<D>, left: D, log: seq<Ping>, timeout: int)
    requires Attended(w, log, timeout) && i < |w.slots| && w.slots[i].Live()
    ensures Attended(Reconnected(Spoiled(w, i, r, left), i), log, timeout)
  {
    SpoiledIsAttended(w, i, r, left, log, timeout);
    SpoiledKeepsStatuses(w, i, r, left);
    ReconnectedIsAttended(Spoiled(w, i, r, left), i, log, timeout);
  }

  lemma AskedIsAttended<D>(c: Call<D>, r: Request<D>, a: Answer<D>, log: seq<Ping>, timeout: int)
    requires Attended(c.w, log, timeout) && c.i < |c.w.slots| && c.w.slots[c.i].Live()
    ensures Attended(Asked(c, r, a).w, log, timeout)
  {
    match a
    case Answered(fd) => RetouchedIsAttended(c.w, Executed(c, r, fd).w, c.i, log, timeout);
    case Lost(left) => LostIsAttended(c.w, c.i, r, left, log, timeout);
  }

  lemma RevivedIsAttended<D>(c: Call<D>, r: Request<D>, reply: Reply<D>, log: seq<Ping>, timeout: int)
    requires Attended(c.w, log, timeout) && c.i < |c.w.slots| && c.w.slots[c.i].Live()
    ensures Attended(Revived(c, r, reply).w, log, timeout)
  {
    match reply.rebuild
    case Copied =>
      RetouchedIsAttended(c.w, Restocked(c).w, c.i, log, timeout);
      RestockedCosts(c);
      AskedIsAttended(Restocked(c), r, reply.answer, log, timeout);
    case Refused(left) => SpoiledIsAttended(c.w, c.i, Probe, left, log, timeout);
    case Unreachable(left) => LostIsAttended(c.w, c.i, Probe, left, log, timeout);
  }

  lemma VisitedIsAttended<D>(c: Call<D>, r: Request<D>, reply: Reply<D>, log: seq<Ping>, timeout: int)
    requires Attended(c.w, log, timeout) && c.i < |c.w.slots|
    ensures Attended(Visited(c, r, reply).w, log, timeout)
  {
    match c.w.slots[c.i].status
    case Down =>
    case Up => AskedIsAttended(c, r, reply.answer, log, timeout);
    case Starting => RevivedIsAttended(c, r, reply, log, timeout);
  }

  lemma {:induction false} FinishedIsAttended<D>(
    c: Call<D>, r: Request<D>, limit: nat, env: nat -> Reply<D>, k: nat, log: seq<Ping>, timeout: int)
    requires Attended(c.w, log, timeout) && c.i <= limit <= |c.w.slots|
    ensures Attended(Finished(c, r, limit, env, k).w, log, timeout)
    decreases Remaining(c, limit)
  {
    if c.i < limit && c.w.running {
      VisitedIsAttended(c, r, env(k), log, timeout);
      VisitedCosts(c, r, env(k), limit);
      FinishedIsAttended(Observed(Visited(c, r, env(k))), r, limit, env, k + 1, log, timeout);
    }
  }

  // ------------------------------------------------------------------ one tick

  lemma FailedLonger(ps: seq<Ping>, p: Ping, n: int, skip: int, name: Name, same: bool)
    requires Failed(ps, n, skip, name, same)
    ensures Failed(ps + [p], n, skip + 1, name, same)
    ensures skip == 0 && !p.pong && (p.name == name <==> same) ==> Failed(ps + [p], n + 1, 0, name, same)
  {
  }

  /** A ping of one slot leaves what is known about another. */
  lemma OtherSlotStays<D>(w: World<D>, v: World<D>, log: seq<Ping>, p: Ping, t: Watcher, timeout: int)
    requires Counting(w, log, t, timeout) && t.slot != p.slot && t.slot < |v.slots|
    requires v.slots[t.slot].name == w.slots[t.slot].name
    ensures Counting(v, log + [p], t, timeout)
  {
    PingsOfLonger(log, p, t.slot);
  }

  /** What the watcher that pings has behind it after a failure, whether it goes on, exchanges or gives up. */
  lemma FailureCounts<D>(w: World<D>, k: nat, log: seq<Ping>, timeout: int)
    requires Safe(w) && k < |w.watchers| && Counting(w, log, w.watchers[k], timeout)
    ensures var t := w.watchers[k];
      var v, longer := Ticked(w, k, false, timeout), log + [Ping(t.slot, w.slots[t.slot].name, false)];
      && (t.tries < timeout || !t.swapped ==> k < |v.watchers| && Counting(v, longer, v.watchers[k], timeout))
      && (t.tries >= timeout && t.swapped ==> GivenUp(v, longer, t.slot, timeout))
  {
    var t := w.watchers[k];
    var name := w.slots[t.slot].name;
    var p := Ping(t.slot, name, false);
    var tries := if timeout < 1 then 1 else timeout;
    var ps := PingsOf(log, t.slot);
    PingsOfLonger(log, p, t.slot);
    FailedLonger(ps, p, t.tries - 1, 0, name, true);
    if t.swapped { FailedLonger(ps, p, tries, t.tries - 1, name, false); }
    if t.tries >= timeout && !t.swapped {
      var longer := ps + [p];
      assert Failed(longer, tries, 0, w.hotswap, false) by {
        assert Failed(longer, tries, 0, name, true) && name != w.hotswap;
      }
    }
  }

  lemma TickLeavesOthers<D>(w: World<D>, k: nat, pong: bool, timeout: int)
    requires Safe(w) && k < |w.watchers|
    ensures var v := Ticked(w, k, pong, timeout);
      && |v.slots| == |w.slots| && v.running == w.running
      && (forall s | 0 <= s < |w.slots| && s != w.watchers[k].slot :: v.slots[s] == w.slots[s])
      && (v.watchers == Without(w.watchers, k)
          || (|v.watchers| == |w.watchers| && v.watchers == w.watchers[k := v.watchers[k]]
              && v.watchers[k].slot == w.watchers[k].slot))
      && (|v.watchers| < |w.watchers| <==> pong || (w.watchers[k].tries >= timeout && w.watchers[k].swapped))
      && (pong ==> v.slots[w.watchers[k].slot].status != Down)
  {
  }

  /** Another slot keeps its watcher. */
  lemma OtherKeepsWatcher<D>(w: World<D>, v: World<D>, k: nat, s: nat)
    requires k < |w.watchers| && HasWatcher(w, s) && s != w.watchers[k].slot
    requires v.watchers == Without(w.watchers, k)
      || (|v.watchers| == |w.watchers| && v.watchers == w.watchers[k := v.watchers[k]])
    ensures HasWatcher(v, s)
  {
    var a :| 0 <= a < |w.watchers| && w.watchers[a].slot == s;
    if v.watchers == Without(w.watchers, k) && a > k {
      assert v.watchers[a - 1] == w.watchers[a];
    } else {
      assert v.watchers[a] == w.watchers[a];
    }
  }

  lemma OtherStillCounts<D>(w: World<D>, k: nat, pong: bool, log: seq<Ping>, timeout: int, b: nat)
    requires Safe(w) && k < |w.watchers| && AllCounting(w, log, timeout) && b < |w.watchers| && b != k
    ensures var t := w.watchers[k];
      Counting(Ticked(w, k, pong, timeout), log + [Ping(t.slot, w.slots[t.slot].name, pong)], w.watchers[b], timeout)
  {
    var t := w.watchers[k];
    TickLeavesOthers(w, k, pong, timeout);
    assert Counting(w, log, w.watchers[b], timeout) && w.watchers[b].slot != t.slot;
    OtherSlotStays(
      w, Ticked(w, k, pong, timeout), log, Ping(t.slot, w.slots[t.slot].name, pong), w.watchers[b], timeout);
  }

  lemma TickedIsCounting<D>(w: World<D>, k: nat, pong: bool, log: seq<Ping>, timeout: int)
    requires Safe(w) && k < |w.watchers| && AllCounting(w, log, timeout)
    ensures var t := w.watchers[k];
      AllCounting(Ticked(w, k, pong, timeout), log + [Ping(t.slot, w.slots[t.slot].name, pong)], timeout)
  {
    var t := w.watchers[k];
    var v, longer := Ticked(w, k, pong, timeout), log + [Ping(t.slot, w.slots[t.slot].name, pong)];
    TickLeavesOthers(w, k, pong, timeout);
    if !pong { FailureCounts(w, k, log, timeout); }
    forall a | 0 <= a < |v.watchers| ensures Counting(v, longer, v.watchers[a], timeout) {
      var b := if |v.watchers| == |w.watchers| || a < k then a else a + 1;
      if b != k {
        OtherStillCounts(w, k, pong, log, timeout, b);
      }
    }
  }

  lemma TickedIsWatched<D>(w: World<D>, k: nat, pong: bool, log: seq<Ping>, timeout: int, s: nat)
    requires Safe(w) && k < |w.watchers| && Counting(w, log, w.watchers[k], timeout)
    requires DownAreWatched(w, log, timeout)
    requires s < |w.slots| && Ticked(w, k, pong, timeout).slots[s].status == Down
    ensures var t := w.watchers[k];
      var v, longer := Ticked(w, k, pong, timeout), log + [Ping(t.slot, w.slots[t.slot].name, pong)];
      HasWatcher(v, s) || GivenUp(v, longer, s, timeout)
  {
    var t := w.watchers[k];
    var v, p := Ticked(w, k, pong, timeout), Ping(t.slot, w.slots[t.slot].name, pong);
    TickLeavesOthers(w, k, pong, timeout);
    if s == t.slot {
      FailureCounts(w, k, log, timeout);
      if |v.watchers| == |w.watchers| { assert v.watchers[k].slot == s; }
    } else {
      PingsOfLonger(log, p, s);
      if HasWatcher(w, s) { OtherKeepsWatcher(w, v, k, s); }
    }
  }

  lemma TickedIsAttended<D>(w: World<D>, k: nat, pong: bool, log: seq<Ping>, timeout: int)
    requires Attended(w, log, timeout) && w.running && k < |w.watchers|
    ensures var t := w.watchers[k];
      Attended(Ticked(w, k, pong, timeout), log + [Ping(t.slot, w.slots[t.slot].name, pong)], timeout)
  {
    var t := w.watchers[k];
    var v, p := Ticked(w, k, pong, timeout), Ping(t.slot, w.slots[t.slot].name, pong);
    TickedIsSafe(w, k, pong, timeout);
    TickedIsCounting(w, k, pong, log, timeout);
    TickLeavesOthers(w, k, pong, timeout);
    forall s | 0 <= s < |v.slots| && v.slots[s].status == Down
      ensures HasWatcher(v, s) || GivenUp(v, log + [p], s, timeout)
    {
      TickedIsWatched(w, k, pong, log, timeout, s);
    }
  }

  // ------------------------------------------------------------------ every run

  /** The log of a run: for every tick of a running watcher the slot, the server named in it and the answer. */
  ghost function Logged<D>(h: History<D>, es: seq<Event<D>>, timeout: int): seq<Ping>
    decreases |es|
  {
    if es == [] then [] else
      var rest := Logged(Next(h, es[0], timeout), es[1..], timeout);
      if h.w.running && es[0].Tick? && es[0].which < |h.w.watchers| && h.w.watchers[es[0].which].slot < |h.w.slots| then
        var at := h.w.watchers[es[0].which].slot;
        [Ping(at, h.w.slots[at].name, es[0].pong)] + rest
      else rest
  }

  lemma {:induction false} RunIsAttended<D>(h: History<D>, es: seq<Event<D>>, log: seq<Ping>, timeout: int)
    requires Attended(h.w, log, timeout)
    ensures Attended(Ran(h, es, timeout).w, log + Logged(h, es, timeout), timeout)
    decreases |es|
  {
    if es == [] {
      assert log + [] == log;
    } else {
      var n, rest := Next(h, es[0], timeout), Logged(Next(h, es[0], timeout), es[1..], timeout);
      NextIsSafe(h, es[0], timeout);
      if h.w.running && es[0].Tick? && es[0].which < |h.w.watchers| {
        var at := h.w.watchers[es[0].which].slot;
        var p := Ping(at, h.w.slots[at].name, es[0].pong);
        TickedIsAttended(h.w, es[0].which, es[0].pong, log, timeout);
        RunIsAttended(n, es[1..], log + [p], timeout);
        assert log + [p] + rest == log + ([p] + rest);
      } else {
        if h.w.running && es[0].Invoke? {
          FinishedIsAttended(Begin(h.w), es[0].request, Limit(h.w, es[0].request), es[0].env, 0, log, timeout);
        }
        RunIsAttended(n, es[1..], log, timeout);
      }
    }
  }

  /**
   Over every run: while the client runs, a slot that is down has exactly one watcher, or it has
   none and the last pings of this slot, first of the former and then of the present server, as
   many as the timeout says each, have all failed.
   */
  lemma EveryDownSlotIsWatchedOrGivenUp<D>(w: World<D>, fs: D, es: seq<Event<D>>, timeout: int, s: nat)
    requires Initial(w, fs)
    ensures var v := Ran(Started(w, fs), es, timeout).w;
      v.running && s < |v.slots| && v.slots[s].status == Down ==>
        || (exists a :: 0 <= a < |v.watchers| && v.watchers[a].slot == s
              && forall b | 0 <= b < |v.watchers| && v.watchers[b].slot == s :: b == a)
        || GivenUp(v, Logged(Started(w, fs), es, timeout), s, timeout)
  {
    InitialIsSafe(w, fs);
    RunIsAttended(Started(w, fs), es, [], timeout);
    assert [] + Logged(Started(w, fs), es, timeout) == Logged(Started(w, fs), es, timeout);
    var v := Ran(Started(w, fs), es, timeout).w;
    if v.running && s < |v.slots| && v.slots[s].status == Down && HasWatcher(v, s) {
      var a :| 0 <= a < |v.watchers| && v.watchers[a].slot == s;
      assert forall b | 0 <= b < |v.watchers| && v.watchers[b].slot == s :: b == a;
    }
  }
}
