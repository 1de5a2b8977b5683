/**
 Two runs of three servers that start UP and equal. In both the first request to slot 0 is lost
 and its server moves one place, in front of a server that is UP; then the client leaves that
 server behind, or shuts down although it is UP.
 */
module ThreeServers {
  import opened Replication
  import opened ReplicationSafety
  import opened FanOut
  import opened Mirror

  /** The first request is lost, whatever it did, the others are answered. */
  function FirstLost<D>(left: D): nat -> Reply<D> {
    (k: nat) => Reply(Refused(left), if k == 0 then Lost(left) else Answered(k))
  }

  /** An iteration that asks the UP server in slot `c.i` and gets an answer. */
  lemma AnsweredChange<D>(c: Call<D>, r: Request<D>, reply: Reply<D>)
    requires c.i < |c.w.slots| && c.w.slots[c.i].status == Up && r.Change? && reply.answer.Answered?
    ensures var d := Observed(Visited(c, r, reply));
      && d.i == c.i + 1 && d.w == WithDisk(c.w, c.w.slots[c.i].name, r.effect(DiskOf(c.w, c.w.slots[c.i].name)))
      && d.sourcesUp == c.sourcesUp && d.lossless == c.lossless
  {
  }

  lemma LostChange<D>(w: World<D>, r: Request<D>, reply: Reply<D>)
    requires |w.slots| == 3 && w.slots[0].status == w.slots[1].status == Up && r.Change? && reply.answer.Lost?
    ensures var d := Observed(Visited(Begin(w), r, reply));
      && d.i == 0 && d.sourcesUp && d.lossless
      && d.w.slots == [w.slots[1], w.slots[0].(status := Down), w.slots[2]]
      && d.w == w.(slots := d.w.slots, disks := w.disks[w.slots[0].name := reply.answer.left],
                   watchers := w.watchers + [Watcher(1, 1, false)])
  {
    assert w.slots[0 := w.slots[0]] == w.slots;
  }

  /** What the first call of both runs leaves. */
  ghost predicate FirstMovedBack<D>(c: Call<D>, now: D) {
    && c.w.running && c.sourcesUp && c.lossless && |c.w.slots| == 3 && c.w.watchers == [Watcher(1, 1, false)]
    && c.w.slots[0].status == c.w.slots[2].status == Up && c.w.slots[1].status == Down
    && Mirrored(c.w, now)
  }

  lemma CallWithFirstLost<D>(w: World<D>, fs: D, r: Request<D>, left: D)
    requires Initial(w, fs) && Safe(w) && |w.slots| == 3 && r.Change?
    ensures FirstMovedBack(Called(w, r, FirstLost(left)), Effect(r, fs))
  {
    var env := FirstLost(left);
    var c1 := Observed(Visited(Begin(w), r, env(0)));
    LostChange(w, r, env(0));
    var c2 := Observed(Visited(c1, r, env(1)));
    AnsweredChange(c1, r, env(1));
    var c3 := Observed(Visited(c2, r, env(2)));
    assert c3.i == 2 && c3.w == c2.w;
    var c4 := Observed(Visited(c3, r, env(3)));
    AnsweredChange(c3, r, env(3));
    assert Called(w, r, env) == Finished(c1, r, 3, env, 1);
    assert Finished(c1, r, 3, env, 1) == Finished(c2, r, 3, env, 2);
    assert Finished(c2, r, 3, env, 2) == Finished(c3, r, 3, env, 3);
    assert Finished(c3, r, 3, env, 3) == Finished(c4, r, 3, env, 4) == c4;
  }

  /**
   Three servers need not mirror one although every rebuild copies an UP slot without loss: a
   request lost once, a ping answered and a rebuild lost once leave an UP server behind. The
   first request is any mutation, one that changes nothing included.
   */
  lemma ThreeServersCanDiverge<D(!new)>(w: World<D>, fs: D, first: Request<D>, second: Request<D>, timeout: int)
    returns (es: seq<Event<D>>)
    requires Initial(w, fs) && |w.slots| == 3 && first.Change? && second.Change?
    requires Effect(second, Effect(first, fs)) != Effect(first, fs)
    ensures |es| == 3 && es[0].Invoke? && es[0].request == first && es[2].Invoke? && es[2].request == second
    ensures var h := Ran(Started(w, fs), es, timeout);
      && h.w.running && h.sourcesUp && h.lossless
      && h.fs == Effect(second, Effect(first, fs)) && !Mirrored(h.w, h.fs)
  {
    InitialIsSafe(w, fs);
    var h0 := Started(w, fs);
    var e0 := Invoke(first, FirstLost(fs));
    CallWithFirstLost(w, fs, first, fs);
    var h1 := Next(h0, e0, timeout);
    NextIsSafe(h0, e0, timeout);
    var h2 := Next(h1, Tick(0, true), timeout);
    NextIsSafe(h1, Tick(0, true), timeout);
    TickKeepsMirror(h1.w, 0, true, timeout, h1.fs);
    assert Exposed(h2.w.slots, 1);
    var env := ExposedServerIsMissed(h2.w, second, 1);
    var e2 := Invoke(second, env);
    var h3 := Next(h2, e2, timeout);
    assert DiskOf(h3.w, h3.w.slots[1].name) == h1.fs;
    es := [e0, Tick(0, true), e2];
    RanThrice(h0, e0, Tick(0, true), e2, timeout);
  }

  lemma RanOnce<D>(h: History<D>, a: Event<D>, timeout: int)
    ensures Ran(h, [a], timeout) == Next(h, a, timeout)
  {
    assert [a][1..] == [];
  }

  lemma RanTwice<D>(h: History<D>, a: Event<D>, b: Event<D>, timeout: int)
    ensures Ran(h, [a, b], timeout) == Next(Next(h, a, timeout), b, timeout)
  {
    assert [a, b][1..] == [b];
    RanOnce(Next(h, a, timeout), b, timeout);
  }

  lemma RanThrice<D>(h: History<D>, a: Event<D>, b: Event<D>, c: Event<D>, timeout: int)
    ensures Ran(h, [a, b, c], timeout) == Next(Next(Next(h, a, timeout), b, timeout), c, timeout)
  {
    assert [a, b, c][1..] == [b, c];
    RanTwice(Next(h, a, timeout), b, c, timeout);
  }

  /** Two lost requests, and the client shuts down although the third server is UP and mirrors. */
  lemma ThreeServersCanShutDownWithOneUp<D>(w: World<D>, fs: D, first: Request<D>, second: Request<D>, timeout: int)
    returns (es: seq<Event<D>>)
    requires Initial(w, fs) && |w.slots| == 3 && first.Change? && second.Change?
    ensures |es| == 2 && es[0].Invoke? && es[0].request == first && es[1].Invoke? && es[1].request == second
    ensures var v := Ran(Started(w, fs), es, timeout).w;
      && !v.running && |v.slots| == 3 && v.slots[2].status == Up
      && DiskOf(v, v.slots[2].name) == Effect(first, fs)
  {
    InitialIsSafe(w, fs);
    var h0 := Started(w, fs);
    var e0, e1 := Invoke(first, FirstLost(fs)), Invoke(second, FirstLost(fs));
    CallWithFirstLost(w, fs, first, fs);
    var h1 := Next(h0, e0, timeout);
    NextIsSafe(h0, e0, timeout);
    LastButOneFails(h1.w, second, fs);
    es := [e0, e1];
    RanTwice(h0, e0, e1, timeout);
  }

  lemma LastButOneFails<D>(w: World<D>, r: Request<D>, left: D)
    requires Safe(w) && w.running && |w.slots| == 3 && r.Change?
    requires w.slots[0].status == w.slots[2].status == Up && w.slots[1].status == Down
    ensures var v := Called(w, r, FirstLost(left)).w;
      && !v.running && |v.slots| == 3 && v.slots[2] == w.slots[2]
      && DiskOf(v, w.slots[2].name) == DiskOf(w, w.slots[2].name)
  {
    var env := FirstLost(left);
    var c := Observed(Visited(Begin(w), r, env(0)));
    ShutsDownIffFirstIsCutOff(Spoiled(w, 0, r, left), 0);
    assert w.slots[0 := w.slots[0]] == w.slots;
    assert Called(w, r, env) == Finished(c, r, 3, env, 1) == c;
  }
}
