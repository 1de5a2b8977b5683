/**
 The client's storage as it is in memory: an array of server slots that are swapped in place and
 the loops that visit them. Every method is proved to make the step that the state machine in
 `Replication` makes.
 */
module Cluster {
  import opened Replication

  // ------------------------------------------------------------------ one iteration, seen from the world

  function WorldAfterRequest<D>(w: World<D>, i: nat, r: Request<D>, a: Answer<D>): World<D>
    requires i < |w.slots|
  {
    match a
    case Answered(fd) => Executed(Begin(w).(i := i), r, fd).w
    case Lost(left) => Reconnected(Spoiled(w, i, r, left), i)
  }

  function IndexAfterRequest<D>(i: nat, a: Answer<D>): nat {
    if a.Lost? then i else i + 1
  }

  function WorldAfterRebuild<D>(w: World<D>, i: nat, reply: RebuildReply<D>): World<D>
    requires i < |w.slots|
  {
    match reply
    case Copied => Refilled(w, i)
    case Refused(left) => Spoiled(w, i, Probe, left)
    case Unreachable(left) => Reconnected(Spoiled(w, i, Probe, left), i)
  }

  lemma AskedIs<D>(c: Call<D>, r: Request<D>, a: Answer<D>)
    requires c.i < |c.w.slots|
    ensures Asked(c, r, a).w == WorldAfterRequest(c.w, c.i, r, a) && Asked(c, r, a).i == IndexAfterRequest(c.i, a)
  {
  }

  lemma VisitedUpIs<D>(c: Call<D>, r: Request<D>, reply: Reply<D>)
    requires c.i < |c.w.slots| && c.w.slots[c.i].status == Up
    ensures Visited(c, r, reply).w == WorldAfterRequest(c.w, c.i, r, reply.answer)
    ensures Visited(c, r, reply).i == IndexAfterRequest(c.i, reply.answer)
  {
    AskedIs(c, r, reply.answer);
  }

  lemma VisitedStartingIs<D>(c: Call<D>, r: Request<D>, reply: Reply<D>)
    requires c.i < |c.w.slots| && c.w.slots[c.i].status == Starting
    ensures var v := WorldAfterRebuild(c.w, c.i, reply.rebuild);
      if reply.rebuild.Copied? then
        && Visited(c, r, reply).w == WorldAfterRequest(v, c.i, r, reply.answer)
        && Visited(c, r, reply).i == IndexAfterRequest(c.i, reply.answer)
      else Visited(c, r, reply).w == v && Visited(c, r, reply).i == c.i + 1
  {
    if reply.rebuild.Copied? {
      AskedIs(Restocked(c), r, reply.answer);
    }
  }

  lemma RequestLeavesFirstLive<D>(w: World<D>, r: Request<D>, a: Answer<D>)
    requires |w.slots| > 0 && w.slots[0].Live()
    ensures var v := WorldAfterRequest(w, 0, r, a); v.running ==> |v.slots| == |w.slots| && v.slots[0].Live()
  {
    if a.Lost? {
      SpoiledKeepsStatuses(w, 0, r, a.left);
    }
  }

  lemma RebuildLeavesFirstLive<D>(w: World<D>, reply: RebuildReply<D>)
    requires |w.slots| > 0 && w.slots[0].Live()
    ensures var v := WorldAfterRebuild(w, 0, reply); v.running ==> |v.slots| == |w.slots| && v.slots[0].Live()
  {
    if reply.Unreachable? {
      RequestLeavesFirstLive(w, Probe, Lost(reply.left));
    }
  }

  lemma FirstStaysLive<D>(c: Call<D>, r: Request<D>, reply: Reply<D>)
    requires |c.w.slots| > 0 && c.i == 0 && c.w.slots[0].Live()
    ensures var v := Visited(c, r, reply).w; v.running ==> |v.slots| == |c.w.slots| && v.slots[0].Live()
  {
    if c.w.slots[0].status == Up {
      VisitedUpIs(c, r, reply);
      RequestLeavesFirstLive(c.w, r, reply.answer);
    } else {
      VisitedStartingIs(c, r, reply);
      RebuildLeavesFirstLive(c.w, reply.rebuild);
      RequestLeavesFirstLive(Refilled(c.w, 0), r, reply.answer);
    }
  }

  /** A query that slot 0 answers asks nobody else. */
  lemma AnsweredQuery<D>(w: World<D>, env: nat -> Reply<D>)
    requires |w.slots| > 0 && w.running && w.slots[0].status == Up && env(0).answer.Answered?
    ensures var v := Called(w, Probe, env).w;
      v == w.(disks := v.disks) && forall x :: DiskOf(v, x) == DiskOf(w, x)
    ensures Called(w, Probe, env).asked == [w.slots[0].name]
  {
    var c := Observed(Visited(Begin(w), Probe, env(0)));
    VisitedUpIs(Begin(w), Probe, env(0));
    assert w.slots[0 := w.slots[0]] == w.slots;
    assert Called(w, Probe, env) == Finished(c, Probe, 1, env, 1) == c;
  }

  class Storage<!D> {
    const servers: array<Slot>
    const timeout: int
    const rules: Rules<D>
    var hotswap: Name
    var watchers: seq<Watcher>
    var disks: map<Name, D>
    var running: bool

    ghost function View(): World<D>
      reads this, servers
    {
      World(servers[..], hotswap, watchers, disks, rules, running)
    }

    constructor (names: seq<Name>, hotswap: Name, disks: map<Name, D>, rules: Rules<D>, timeout: int)
      requires names != []
      ensures fresh(servers) && this.timeout == timeout
      ensures View() == World(seq(|names|, j requires 0 <= j < |names| => Slot(names[j], Up, map[])),
                              hotswap, [], disks, rules, true)
    {
      this.servers := new Slot[|names|](j requires 0 <= j < |names| => Slot(names[j], Up, map[]));
      this.hotswap := hotswap;
      this.disks := disks;
      this.rules := rules;
      this.timeout := timeout;
      this.watchers := [];
      this.running := true;
      new;
      assert servers[..] == seq(|names|, j requires 0 <= j < |names| => Slot(names[j], Up, map[]));
    }

    /** The loop swaps at most once: its guard looks at the slot the failed server has just moved to. */
    method Reconnect(i: nat)
      requires i < servers.Length
      modifies this, servers
      ensures View() == Reconnected(old(View()), i)
      ensures forall j | 0 <= j < servers.Length && j != i && j != i + 1 :: servers[j] == old(servers[j])
      ensures i + 1 < servers.Length && old(servers[i + 1]).Live() ==>
        servers[i] == old(servers[i + 1]) && servers[i + 1] == old(servers[i]).(status := Down)
      ensures i + 1 == servers.Length || !old(servers[i + 1]).Live() ==>
        && servers[i] == old(servers[i]).(status := Down)
        && (i + 1 < servers.Length ==> servers[i + 1] == old(servers[i + 1]))
      ensures hotswap == old(hotswap) && disks == old(disks)
      ensures old(running) ==> exists at ::
        && 0 <= at < servers.Length && servers[at] == old(servers[i]).(status := Down)
        && watchers == if running then old(watchers) + [Watcher(at, 1, false)] else old(watchers)
    {
      ghost var slots := servers[..];
      servers[i] := servers[i].(status := Down);
      var i2 := i;
      while i2 != servers.Length - 1 && servers[i + 1].Live()
        invariant i <= i2 < servers.Length
        invariant i2 == i ==> servers[..] == slots[i := slots[i].(status := Down)]
        invariant i2 != i ==> i2 == i + 1 && RotatesTo(slots, i) && servers[..] == Demoted(slots, i)
        invariant unchanged(`hotswap) && unchanged(`watchers) && unchanged(`disks) && unchanged(`running)
        decreases servers.Length - i2
      {
        var next := if i2 + 1 == servers.Length then 0 else i2 + 1;
        servers[i2], servers[next] := servers[next], servers[i2];
        i2 := next;
      }
      assert i2 == Landing(slots, i);
      if i2 == 0 {
        running := false;
      } else {
        watchers := watchers + [Watcher(i2, 1, false)];
      }
      assert servers[i2] == slots[i].(status := Down);
    }

    /** The index is the caller's: whatever happens it is not moved. */
    method RestoreAll(i: nat, reply: RebuildReply<D>) returns (restored: bool)
      requires i < servers.Length
      modifies this, servers
      ensures restored <==> reply.Copied?
      ensures View() == WorldAfterRebuild(old(View()), i, reply)
      ensures restored ==>
        && servers[i] == old(servers[i]).(status := Up)
        && (forall j | 0 <= j < servers.Length && j != i :: servers[j] == old(servers[j]))
        && watchers == old(watchers) && hotswap == old(hotswap) && running == old(running)
      ensures restored ==>
        var n := servers.Length;
        var source := old(servers[..])[(n + i - 1) % n].name;
        var content := if source in old(disks) then old(disks)[source] else rules.blank;
        disks == old(disks)[old(servers[i]).name := rules.copy(content)]
    {
      SourceIsCyclic(servers.Length, i);
      ghost var w := View();
      var name := servers[i].name;
      match reply {
        case Copied =>
          var ind := if i == 0 then servers.Length - 1 else i - 1;
          var source := servers[ind].name;
          var copied := rules.copy(if source in disks then disks[source] else rules.blank);
          disks := disks[name := copied];
          servers[i] := servers[i].(status := Up);
          restored := true;
          assert View() == Refilled(w, i);
        case Refused(left) =>
          disks := disks[name := left];
          restored := false;
          assert servers[..] == w.slots[i := w.slots[i]];
        case Unreachable(left) =>
          disks := disks[name := left];
          assert servers[..] == w.slots[i := w.slots[i]];
          assert View() == Spoiled(w, i, Probe, left);
          Reconnect(i);
          restored := false;
      }
    }

    /** One request to the server in slot `i`; an `open` stores the descriptor or the error first. */
    method Send(i: nat, r: Request<D>, a: Answer<D>) returns (lost: bool)
      requires i < servers.Length
      modifies this, servers
      ensures lost <==> a.Lost?
      ensures View() ==
        match a
        case Answered(fd) => Executed(Begin(old(View())).(i := i), r, fd).w
        case Lost(left) => Spoiled(old(View()), i, r, left)
      ensures !r.Open? ==> servers[i] == old(servers[i])
      ensures r.Open? ==>
        var s, got := old(servers[i]), if lost then Failed else Issued(old(servers[i]).name, a.fd);
        servers[i] == s.(fds := s.fds[r.fh := got])
      ensures forall j | 0 <= j < servers.Length && j != i :: servers[j] == old(servers[j])
      ensures watchers == old(watchers) && hotswap == old(hotswap) && running == old(running)
      ensures
        var was := if old(servers[i]).name in old(disks) then old(disks)[old(servers[i]).name] else rules.blank;
        disks == old(disks)[old(servers[i]).name := if lost then a.left else if r.Change? then r.effect(was) else was]
    {
      ghost var w := View();
      var s := servers[i];
      if r.Open? {
        servers[i] := s.(fds := s.fds[r.fh := if a.Answered? then Issued(s.name, a.fd) else Failed]);
      }
      match a {
        case Answered(fd) =>
          var d := if s.name in disks then disks[s.name] else rules.blank;
          disks := disks[s.name := if r.Change? then r.effect(d) else d];
          lost := false;
          assert View() == Executed(Begin(w).(i := i), r, fd).w;
        case Lost(left) =>
          disks := disks[s.name := left];
          lost := true;
          assert View() == Spoiled(w, i, r, left);
      }
    }

    /** The request and, if it is lost, `reconnect(i--)`; the increment of the loop is included. */
    method Ask(i: nat, r: Request<D>, a: Answer<D>) returns (next: nat)
      requires i < servers.Length
      modifies this, servers
      ensures View() == WorldAfterRequest(old(View()), i, r, a) && next == IndexAfterRequest(i, a)
    {
      next := i + 1;
      var lost := Send(i, r, a);
      if lost {
        Reconnect(i);
        next := i;
      }
    }

    /** One iteration at a slot that is not down: a slot that waits is rebuilt before it is asked. */
    method Visit(i: nat, r: Request<D>, reply: Reply<D>, ghost c: Call<D>) returns (next: nat)
      requires i < servers.Length && servers[i].Live() && c.w == View() && c.i == i
      modifies this, servers
      ensures View() == Visited(c, r, reply).w && next == Visited(c, r, reply).i
      ensures old(servers[i]).status == Starting && !reply.rebuild.Copied? ==>
        next == i + 1 && disks == old(disks)[old(servers[i]).name := reply.rebuild.left]
      ensures old(servers[i]).status == Starting && reply.rebuild.Refused? ==>
        servers[..] == old(servers[..]) && watchers == old(watchers) && running == old(running)
      ensures old(servers[i]).status == Up || reply.rebuild.Copied? ==>
        next == if reply.answer.Lost? then i else i + 1
    {
      if servers[i].status == Starting {
        VisitedStartingIs(c, r, reply);
        var restored := RestoreAll(i, reply.rebuild);
        if !restored {
          return i + 1;
        }
      } else {
        VisitedUpIs(c, r, reply);
      }
      next := Ask(i, r, reply.answer);
    }

    /** The loop shared by mknod, mkdir, unlink, rmdir, rename, truncate, opendir and write. */
    method FanOut(r: Request<D>, env: nat -> Reply<D>)
      requires running && !r.Probe?
      modifies this, servers
      ensures View() == Called(old(View()), r, env).w
    {
      ghost var c := Begin(View());
      ghost var end := Called(View(), r, env);
      var i: nat := 0;
      var k: nat := 0;
      while i < servers.Length && running
        invariant i <= servers.Length
        invariant c.w == View() && c.i == i
        invariant Finished(c, r, servers.Length, env, k) == end
        decreases Remaining(c, servers.Length)
      {
        ghost var c0 := c;
        VisitedCosts(c0, r, env(k), servers.Length);
        c := Observed(Visited(c0, r, env(k)));
        if servers[i].status == Down {
          i := i + 1;
        } else {
          i := Visit(i, r, env(k), c0);
        }
        k := k + 1;
      }
    }

    /** getattr, read and readdir ask slot 0 only, and do not test whether it is down. */
    method Query(env: nat -> Reply<D>)
      requires servers.Length > 0 && running && servers[0].Live()
      modifies this, servers
      ensures View() == Called(old(View()), Probe, env).w
      ensures running ==> servers[0].Live()
      ensures old(servers[0]).status == Up && env(0).answer.Answered? ==>
        servers[..] == old(servers[..]) && watchers == old(watchers) && running
    {
      if servers[0].status == Up && env(0).answer.Answered? {
        AnsweredQuery(View(), env);
      }
      ghost var c := Begin(View());
      ghost var end := Called(View(), Probe, env);
      var i: nat := 0;
      var k: nat := 0;
      while i < 1 && running
        invariant i <= 1
        invariant c.w == View() && c.i == i
        invariant running ==> servers[0].Live()
        invariant Finished(c, Probe, 1, env, k) == end
        decreases Remaining(c, 1)
      {
        ghost var c0 := c;
        VisitedCosts(c0, Probe, env(k), 1);
        FirstStaysLive(c0, Probe, env(k));
        c := Observed(Visited(c0, Probe, env(k)));
        i := Visit(i, Probe, env(k), c0);
        k := k + 1;
      }
    }

    /** One ping of a watcher thread. */
    method WatcherTick(k: nat, pong: bool)
      requires k < |watchers| && watchers[k].slot < servers.Length
      modifies this, servers
      ensures View() == Ticked(old(View()), k, pong, timeout)
      ensures forall j | 0 <= j < servers.Length && j != old(watchers[k]).slot :: servers[j] == old(servers[j])
      ensures disks == old(disks) && running == old(running)
      ensures var t, s := old(watchers[k]), old(servers[watchers[k].slot]);
        && (pong ==>
              && servers[t.slot] == s.(status := Starting) && hotswap == old(hotswap)
              && watchers == old(watchers)[..k] + old(watchers)[k + 1..])
        && (!pong && t.tries < timeout ==>
              && servers[t.slot] == s && hotswap == old(hotswap)
              && watchers == old(watchers)[k := Watcher(t.slot, t.tries + 1, t.swapped)])
        && (!pong && t.tries >= timeout && !t.swapped ==>
              && servers[t.slot] == Slot(old(hotswap), Down, map[]) && hotswap == s.name
              && watchers == old(watchers)[k := Watcher(t.slot, 1, true)])
        && (!pong && t.tries >= timeout && t.swapped ==>
              && servers[t.slot] == s.(status := Down) && hotswap == old(hotswap)
              && watchers == old(watchers)[..k] + old(watchers)[k + 1..])
    {
      ghost var w := View();
      var t := watchers[k];
      var s := servers[t.slot];
      if pong {
        servers[t.slot] := s.(status := Starting);
        watchers := watchers[..k] + watchers[k + 1..];
      } else if t.tries >= timeout {
        servers[t.slot] := s.(status := Down);
        if !t.swapped {
          servers[t.slot] := servers[t.slot].(name := hotswap, fds := map[]);
          hotswap := s.name;
          watchers := watchers[k := Watcher(t.slot, 1, true)];
        } else {
          watchers := watchers[..k] + watchers[k + 1..];
        }
      } else {
        watchers := watchers[k := t.(tries := t.tries + 1)];
        assert servers[..] == w.slots;
      }
    }
  }
}
