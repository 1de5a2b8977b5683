/**
 The replication protocol of the client as a state machine over values.

 A world holds the client's array of server slots, the hotswap name, the running watcher
 threads and what is on the disk behind every server name. What the network does is an input: a
 reply says for every request whether it was answered or lost, and a lost request leaves
 anything at all on the disk of the server it was sent to.

 The protocol does not look into the disks, so their type `D` is a parameter, a mutation is a
 function on `D`, and a rebuild gives the target `copy` of its source.

 The functions follow client/client.c and client/client_config.c as written, including the loop
 guard of `reconnect`, which tests `servers[i + 1]`, and the index that `restoreall` leaves
 unchanged after a lost rebuild.
 */
module Replication {
  type Name = string

  datatype Status = Down | Up | Starting

  /** A descriptor in a slot's map: issued by a server, or the error code of a failed open. */
  datatype Descriptor = Issued(issuer: Name, fd: nat) | Failed

  datatype Slot = Slot(name: Name, status: Status, fds: map<nat, Descriptor>) {
    predicate Live() { status != Down }
  }

  /** A thread that pings the server in one slot; `tries` counts from 1. */
  datatype Watcher = Watcher(slot: nat, tries: nat, swapped: bool)

  /** What a rebuild makes of its source, and what a server nobody wrote to holds. */
  datatype Rules<!D> = Rules(copy: D -> D, blank: D)

  datatype World<!D> = World(
    slots: seq<Slot>,
    hotswap: Name,
    watchers: seq<Watcher>,
    disks: map<Name, D>,
    rules: Rules<D>,
    running: bool)

  // ------------------------------------------------------------------ the network

  datatype RebuildReply<D> = Copied | Refused(left: D) | Unreachable(left: D)
  datatype Answer<D> = Answered(fd: nat) | Lost(left: D)
  datatype Reply<D> = Reply(rebuild: RebuildReply<D>, answer: Answer<D>)

  /** What one client call asks every live server to do. */
  datatype Request<!D> = Change(effect: D -> D) | Open(fh: nat) | Probe

  function Effect<D>(r: Request<D>, d: D): D {
    if r.Change? then r.effect(d) else d
  }

  // ------------------------------------------------------------------ reconnect

  predicate RotatesTo(slots: seq<Slot>, i: nat) {
    i + 1 < |slots| && slots[i + 1].Live()
  }

  /** The slots after `reconnect(i)`: slot `i` is down and has changed places with a live successor. */
  function Demoted(slots: seq<Slot>, i: nat): seq<Slot>
    requires i < |slots|
  {
    var down := slots[i].(status := Down);
    if RotatesTo(slots, i) then slots[i := slots[i + 1]][i + 1 := down] else slots[i := down]
  }

  /** The slot in which `reconnect(i)` leaves the failed server. */
  function Landing(slots: seq<Slot>, i: nat): nat {
    if RotatesTo(slots, i) then i + 1 else i
  }

  /** A server that lands in slot 0 was the last one: the client shuts down. */
  function Reconnected<D>(w: World<D>, i: nat): World<D>
    requires i < |w.slots|
  {
    var at := Landing(w.slots, i);
    var w1 := w.(slots := Demoted(w.slots, i));
    if at == 0 then w1.(running := false)
    else w1.(watchers := w.watchers + [Watcher(at, 1, false)])
  }

  /**
   After a reconnect the failed server is down in some slot, and there is one more watcher, on
   that slot, unless the client shuts down.
   */
  lemma ReconnectIsWatched<D>(w: World<D>, i: nat) returns (at: nat)
    requires w.running && i < |w.slots|
    ensures var v := Reconnected(w, i);
      && at < |v.slots| == |w.slots|
      && v.slots[at] == w.slots[i].(status := Down)
      && v.watchers == if v.running then w.watchers + [Watcher(at, 1, false)] else w.watchers
  {
    at := Landing(w.slots, i);
  }

  // ------------------------------------------------------------------ one client call

  /** The index of the slot a rebuild copies from: the predecessor, for slot 0 the last slot. */
  function Source(n: nat, i: nat): (r: nat)
    requires i < n
    ensures r < n
  {
    if i == 0 then n - 1 else i - 1
  }

  lemma SourceIsCyclic(n: nat, i: nat)
    requires i < n
    ensures Source(n, i) == (n + i - 1) % n
  {
    if i > 0 {
      assert (n + (i - 1)) % n == i - 1;
    }
  }

  /**
   A client call under way: the world, the loop index, the servers the request was sent to and
   those that have answered it, both in order, and three observations of the run so far:
   `sourcesUp` - every rebuild copied from a slot that was UP,
   `lossless` - every rebuild copied a disk of which nothing is lost in copying,
   `alwaysSomeUp` - some slot was UP after every iteration in which the client went on.
   */
  datatype Call<!D> = Call(
    w: World<D>,
    i: nat,
    asked: seq<Name>,
    answered: seq<Name>,
    sourcesUp: bool,
    lossless: bool,
    alwaysSomeUp: bool)

  ghost predicate SomeUp(slots: seq<Slot>) {
    exists j :: 0 <= j < |slots| && slots[j].status == Up
  }

  function DiskOf<D>(w: World<D>, name: Name): D {
    if name in w.disks then w.disks[name] else w.rules.blank
  }

  function WithDisk<D>(w: World<D>, name: Name, d: D): World<D> {
    w.(disks := w.disks[name := d])
  }

  function WithSlot<D>(w: World<D>, i: nat, s: Slot): World<D>
    requires i < |w.slots|
  {
    w.(slots := w.slots[i := s])
  }

  function Executed<D>(c: Call<D>, r: Request<D>, fd: nat): Call<D>
    requires c.i < |c.w.slots|
  {
    var s := c.w.slots[c.i];
    var s1 := if r.Open? then s.(fds := s.fds[r.fh := Issued(s.name, fd)]) else s;
    c.(w := WithDisk(WithSlot(c.w, c.i, s1), s.name, Effect(r, DiskOf(c.w, s.name))),
       i := c.i + 1,
       asked := c.asked + [s.name],
       answered := c.answered + [s.name])
  }

  /** A lost request leaves its server with some disk; an `open` has recorded the error first. */
  function Spoiled<D>(w: World<D>, i: nat, r: Request<D>, left: D): World<D>
    requires i < |w.slots|
  {
    var s := w.slots[i];
    WithDisk(WithSlot(w, i, if r.Open? then s.(fds := s.fds[r.fh := Failed]) else s), s.name, left)
  }

  /** The request to the server in slot `i`: after a lost one the same index is visited again. */
  function Asked<D>(c: Call<D>, r: Request<D>, a: Answer<D>): Call<D>
    requires c.i < |c.w.slots|
  {
    match a
    case Answered(fd) => Executed(c, r, fd)
    case Lost(left) =>
      c.(w := Reconnected(Spoiled(c.w, c.i, r, left), c.i), asked := c.asked + [c.w.slots[c.i].name])
  }

  function SourceSlot<D>(w: World<D>, i: nat): Slot
    requires i < |w.slots|
  {
    w.slots[Source(|w.slots|, i)]
  }

  /** The world after a rebuild of slot `i` that reported success. */
  function Refilled<D>(w: World<D>, i: nat): World<D>
    requires i < |w.slots|
  {
    var s := w.slots[i];
    WithDisk(WithSlot(w, i, s.(status := Up)), s.name, w.rules.copy(DiskOf(w, SourceSlot(w, i).name)))
  }

  ghost function Restocked<D>(c: Call<D>): Call<D>
    requires c.i < |c.w.slots|
  {
    var source := SourceSlot(c.w, c.i);
    var d := DiskOf(c.w, source.name);
    c.(w := Refilled(c.w, c.i),
       sourcesUp := c.sourcesUp && source.status == Up,
       lossless := c.lossless && c.w.rules.copy(d) == d)
  }

  /** A slot that waits for its rebuild: only a rebuild that succeeds is followed by the request. */
  ghost function Revived<D>(c: Call<D>, r: Request<D>, reply: Reply<D>): Call<D>
    requires c.i < |c.w.slots|
  {
    match reply.rebuild
    case Copied => Asked(Restocked(c), r, reply.answer)
    case Refused(left) => c.(w := Spoiled(c.w, c.i, Probe, left), i := c.i + 1)
    case Unreachable(left) => c.(w := Reconnected(Spoiled(c.w, c.i, Probe, left), c.i), i := c.i + 1)
  }

  /** One iteration of the loop, the increment included. */
  ghost function Visited<D>(c: Call<D>, r: Request<D>, reply: Reply<D>): Call<D>
    requires c.i < |c.w.slots|
  {
    match c.w.slots[c.i].status
    case Down => c.(i := c.i + 1)
    case Up => Asked(c, r, reply.answer)
    case Starting => Revived(c, r, reply)
  }

  ghost function Observed<D>(c: Call<D>): Call<D> {
    c.(alwaysSomeUp := c.alwaysSomeUp && (c.w.running ==> SomeUp(c.w.slots)))
  }

  // ------------------------------------------------------------------ the loop ends

  function LiveSlots(slots: seq<Slot>): set<nat> {
    set j | 0 <= j < |slots| && slots[j].Live()
  }

  lemma DemotionCostsOneLiveSlot(slots: seq<Slot>, i: nat)
    requires i < |slots| && slots[i].Live()
    ensures LiveSlots(Demoted(slots, i)) == LiveSlots(slots) - {Landing(slots, i)}
    ensures Landing(slots, i) in LiveSlots(slots)
    ensures |LiveSlots(Demoted(slots, i))| == |LiveSlots(slots)| - 1
  {
    assert LiveSlots(Demoted(slots, i)) == LiveSlots(slots) - {Landing(slots, i)};
  }

  /** Live slots plus indices still to visit: the loop moves forward or loses a live slot. */
  ghost function Remaining<D>(c: Call<D>, limit: nat): int {
    |LiveSlots(c.w.slots)| + limit - c.i
  }

  lemma LiveCountOfSameStatuses(a: seq<Slot>, b: seq<Slot>)
    requires |a| == |b| && forall j :: 0 <= j < |a| ==> (a[j].Live() <==> b[j].Live())
    ensures LiveSlots(a) == LiveSlots(b)
  {
  }

  lemma SpoiledKeepsStatuses<D>(w: World<D>, i: nat, r: Request<D>, left: D)
    requires i < |w.slots|
    ensures |Spoiled(w, i, r, left).slots| == |w.slots|
    ensures forall j | 0 <= j < |w.slots| ::
      && Spoiled(w, i, r, left).slots[j].status == w.slots[j].status
      && Spoiled(w, i, r, left).slots[j].name == w.slots[j].name
    ensures LiveSlots(Spoiled(w, i, r, left).slots) == LiveSlots(w.slots)
  {
    LiveCountOfSameStatuses(w.slots, Spoiled(w, i, r, left).slots);
  }

  lemma LostCosts<D>(w: World<D>, i: nat, r: Request<D>, left: D)
    requires i < |w.slots| && w.slots[i].Live()
    ensures |LiveSlots(Reconnected(Spoiled(w, i, r, left), i).slots)| == |LiveSlots(w.slots)| - 1
    ensures |Reconnected(Spoiled(w, i, r, left), i).slots| == |w.slots|
  {
    SpoiledKeepsStatuses(w, i, r, left);
    DemotionCostsOneLiveSlot(Spoiled(w, i, r, left).slots, i);
  }

  lemma AskedCosts<D>(c: Call<D>, r: Request<D>, a: Answer<D>, limit: nat)
    requires c.i < limit <= |c.w.slots| && c.w.slots[c.i].Live()
    ensures |Asked(c, r, a).w.slots| == |c.w.slots| && Asked(c, r, a).i <= limit
    ensures Remaining(Asked(c, r, a), limit) < Remaining(c, limit)
  {
    match a
    case Answered(fd) => LiveCountOfSameStatuses(c.w.slots, Executed(c, r, fd).w.slots);
    case Lost(left) => LostCosts(c.w, c.i, r, left);
  }

  lemma RestockedCosts<D>(c: Call<D>)
    requires c.i < |c.w.slots| && c.w.slots[c.i].Live()
    ensures |Restocked(c).w.slots| == |c.w.slots| && Restocked(c).i == c.i
    ensures Restocked(c).w.slots[c.i].Live()
    ensures LiveSlots(Restocked(c).w.slots) == LiveSlots(c.w.slots)
  {
    LiveCountOfSameStatuses(c.w.slots, Restocked(c).w.slots);
  }

  lemma RevivedCosts<D>(c: Call<D>, r: Request<D>, reply: Reply<D>, limit: nat)
    requires c.i < limit <= |c.w.slots| && c.w.slots[c.i].Live()
    ensures |Revived(c, r, reply).w.slots| == |c.w.slots| && Revived(c, r, reply).i <= limit
    ensures Remaining(Revived(c, r, reply), limit) < Remaining(c, limit)
  {
    match reply.rebuild
    case Copied =>
      RestockedCosts(c);
      AskedCosts(Restocked(c), r, reply.answer, limit);
    case Refused(left) => SpoiledKeepsStatuses(c.w, c.i, Probe, left);
    case Unreachable(left) => LostCosts(c.w, c.i, Probe, left);
  }

  lemma VisitedCosts<D>(c: Call<D>, r: Request<D>, reply: Reply<D>, limit: nat)
    requires c.i < limit <= |c.w.slots|
    ensures |Visited(c, r, reply).w.slots| == |c.w.slots| && Visited(c, r, reply).i <= limit
    ensures Remaining(Visited(c, r, reply), limit) < Remaining(c, limit)
  {
    match c.w.slots[c.i].status
    case Down =>
    case Up => AskedCosts(c, r, reply.answer, limit);
    case Starting => RevivedCosts(c, r, reply, limit);
  }

  /** The loop from index `c.i` up to `limit`; iteration `k` uses the reply `env(k)`. */
  ghost function Finished<D>(c: Call<D>, r: Request<D>, limit: nat, env: nat -> Reply<D>, k: nat): (d: Call<D>)
    requires c.i <= limit <= |c.w.slots|
    ensures |d.w.slots| == |c.w.slots|
    ensures d.w.running ==> d.i == limit
    decreases Remaining(c, limit)
  {
    if c.i == limit || !c.w.running then c
    else
      VisitedCosts(c, r, env(k), limit);
      Finished(Observed(Visited(c, r, env(k))), r, limit, env, k + 1)
  }

  function Begin<D>(w: World<D>): Call<D> {
    Call(w, 0, [], [], true, true, true)
  }

  /** A fan-out visits every slot, a query visits slot 0 only. */
  function Limit<D>(w: World<D>, r: Request<D>): nat {
    if r.Probe? && |w.slots| > 0 then 1 else |w.slots|
  }

  ghost function Called<D>(w: World<D>, r: Request<D>, env: nat -> Reply<D>): Call<D> {
    Finished(Begin(w), r, Limit(w, r), env, 0)
  }

  // ------------------------------------------------------------------ watcher threads

  function Without(ws: seq<Watcher>, k: nat): seq<Watcher>
    requires k < |ws|
  {
    ws[..k] + ws[k + 1..]
  }

  /** One ping of watcher `k`: success, one more try, exchange with the hotswap, or giving up. */
  function Ticked<D>(w: World<D>, k: nat, pong: bool, timeout: int): World<D>
    requires k < |w.watchers| && w.watchers[k].slot < |w.slots|
  {
    var t := w.watchers[k];
    var s := w.slots[t.slot];
    if pong then WithSlot(w, t.slot, s.(status := Starting)).(watchers := Without(w.watchers, k))
    else if t.tries < timeout then w.(watchers := w.watchers[k := t.(tries := t.tries + 1)])
    else if !t.swapped then
      WithSlot(w, t.slot, Slot(w.hotswap, Down, map[]))
        .(hotswap := s.name, watchers := w.watchers[k := Watcher(t.slot, 1, true)])
    else WithSlot(w, t.slot, s.(status := Down)).(watchers := Without(w.watchers, k))
  }

  // ------------------------------------------------------------------ runs

  datatype Event<!D> =
    | Invoke(request: Request<D>, env: nat -> Reply<D>)
    | Tick(which: nat, pong: bool)

  /** A slot that waits for its rebuild directly before a slot that is UP. */
  ghost predicate Exposed(slots: seq<Slot>, p: int) {
    0 <= p && p + 1 < |slots| && slots[p].status == Starting && slots[p + 1].status == Up
  }

  ghost predicate Ordered(slots: seq<Slot>) {
    forall p :: !Exposed(slots, p)
  }

  /**
   A run so far: the world, the disk one server would hold after the same operations, and the
   observations of all its calls; `ordered` - every call started with no exposed slot.
   */
  datatype History<!D> = History(
    w: World<D>,
    fs: D,
    sourcesUp: bool,
    lossless: bool,
    alwaysSomeUp: bool,
    ordered: bool)

  ghost function Next<D>(h: History<D>, e: Event<D>, timeout: int): History<D> {
    if !h.w.running then h
    else match e
      case Tick(k, pong) =>
        if k < |h.w.watchers| && h.w.watchers[k].slot < |h.w.slots| then h.(w := Ticked(h.w, k, pong, timeout)) else h
      case Invoke(r, env) =>
        var c := Called(h.w, r, env);
        History(
          c.w, Effect(r, h.fs), h.sourcesUp && c.sourcesUp, h.lossless && c.lossless,
          h.alwaysSomeUp && c.alwaysSomeUp, h.ordered && Ordered(h.w.slots))
  }

  ghost function Ran<D>(h: History<D>, es: seq<Event<D>>, timeout: int): History<D>
    decreases |es|
  {
    if es == [] then h else Ran(Next(h, es[0], timeout), es[1..], timeout)
  }

  /** Every server is UP with the same disk and no thread is running. */
  ghost predicate Initial<D>(w: World<D>, fs: D) {
    && w.running && |w.slots| > 0 && w.watchers == []
    && (forall j | 0 <= j < |w.slots| ::
          w.slots[j].status == Up && w.slots[j].fds == map[] && DiskOf(w, w.slots[j].name) == fs)
    && (forall a, b | 0 <= a < b < |w.slots| :: w.slots[a].name != w.slots[b].name)
    && (forall a | 0 <= a < |w.slots| :: w.slots[a].name != w.hotswap)
  }

  ghost function Started<D>(w: World<D>, fs: D): History<D> {
    History(w, fs, true, true, true, true)
  }
}
