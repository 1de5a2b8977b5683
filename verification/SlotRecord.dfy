/**
 One server slot of the client as the record it is: its table of descriptors, and the thread that
 watches it while it is down.
 */
module SlotRecord {
  import opened Replication

  datatype FdWrapper = FdWrapper(fd: int, serverFd: int)

  /** What a lookup returns that finds nothing. */
  const NO_FD: int := -1

  ghost predicate UniqueKeys(fds: seq<FdWrapper>) {
    forall a, b | 0 <= a < b < |fds| :: fds[a].fd != fds[b].fd
  }

  function KeysOf(fds: seq<FdWrapper>): (r: seq<int>)
    ensures |r| == |fds| && forall k | 0 <= k < |fds| :: r[k] == fds[k].fd
  {
    seq(|fds|, k requires 0 <= k < |fds| => fds[k].fd)
  }

  /** The table as a map; of two entries with one key the later one would count. */
  function Table(fds: seq<FdWrapper>): (m: map<int, int>)
    ensures m.Keys == set k | 0 <= k < |fds| :: fds[k].fd
  {
    if fds == [] then map[] else
      var last := fds[|fds| - 1];
      Table(fds[..|fds| - 1])[last.fd := last.serverFd]
  }

  lemma {:induction false} TableHolds(fds: seq<FdWrapper>, k: nat)
    requires UniqueKeys(fds) && k < |fds|
    ensures fds[k].fd in Table(fds) && Table(fds)[fds[k].fd] == fds[k].serverFd
  {
    if k < |fds| - 1 {
      TableHolds(fds[..|fds| - 1], k);
    }
  }

  lemma {:induction false} TableAfterUpdate(fds: seq<FdWrapper>, k: nat, v: int)
    requires UniqueKeys(fds) && k < |fds|
    ensures Table(fds[k := FdWrapper(fds[k].fd, v)]) == Table(fds)[fds[k].fd := v]
    decreases |fds|
  {
    var n := |fds| - 1;
    var after := fds[k := FdWrapper(fds[k].fd, v)];
    if k == n {
      assert after[..n] == fds[..n];
    } else {
      TableAfterUpdate(fds[..n], k, v);
      assert after[..n] == fds[..n][k := FdWrapper(fds[k].fd, v)];
      assert fds[n].fd != fds[k].fd;
    }
  }

  /** The first entry with this key, or the number of entries. */
  function KeyAt(fds: seq<FdWrapper>, fd: int): (k: nat)
    ensures k <= |fds| && (k < |fds| ==> fds[k].fd == fd)
    ensures forall j | 0 <= j < k :: fds[j].fd != fd
  {
    if fds == [] || fds[0].fd == fd then 0 else 1 + KeyAt(fds[1..], fd)
  }

  lemma KeyAtIs(fds: seq<FdWrapper>, fd: int, k: nat)
    requires k <= |fds| && (forall j | 0 <= j < k :: fds[j].fd != fd) && (k < |fds| ==> fds[k].fd == fd)
    ensures KeyAt(fds, fd) == k
  {
  }

  /** An entry with the key is overwritten where it is, a new key is put at the end. */
  function Inserted(fds: seq<FdWrapper>, w: FdWrapper): seq<FdWrapper> {
    var k := KeyAt(fds, w.fd);
    if k < |fds| then fds[k := FdWrapper(w.fd, w.serverFd)] else fds + [w]
  }

  lemma InsertedSetsKey(fds: seq<FdWrapper>, w: FdWrapper)
    requires UniqueKeys(fds)
    ensures UniqueKeys(Inserted(fds, w))
    ensures Table(Inserted(fds, w)) == Table(fds)[w.fd := w.serverFd]
    ensures KeysOf(Inserted(fds, w)) == if w.fd in KeysOf(fds) then KeysOf(fds) else KeysOf(fds) + [w.fd]
  {
    var k := KeyAt(fds, w.fd);
    if k < |fds| {
      TableAfterUpdate(fds, k, w.serverFd);
      assert KeysOf(fds)[k] == w.fd;
    } else {
      assert (fds + [w])[..|fds|] == fds;
    }
  }

  /** Pings of `name` with the numbers `from`, `from + 1`, …: how many fail before one succeeds, at most `n`. */
  function Failures(pong: (Name, nat) -> bool, name: Name, from: nat, n: nat): (k: nat)
    ensures k <= n
    ensures forall j | from <= j < from + k :: !pong(name, j)
    ensures k < n ==> pong(name, from + k)
    decreases n
  {
    if n == 0 || pong(name, from) then 0 else 1 + Failures(pong, name, from + 1, n - 1)
  }

  /** How a watch ends: with or without a last success and an exchange, and after which ping. */
  datatype Outcome = Outcome(alive: bool, swapped: bool, pings: nat)

  /** At most `tries` pings of the server, then at most `again` of the hotswap. */
  function Outlook(pong: (Name, nat) -> bool, name: Name, spare: Name, from: nat, tries: nat, again: nat): Outcome {
    var a := Failures(pong, name, from, tries);
    var b := Failures(pong, spare, from + tries, again);
    if a < tries then Outcome(true, false, from + a + 1)
    else if b < again then Outcome(true, true, from + tries + b + 1)
    else Outcome(false, true, from + tries + again)
  }

  /** A thread pings once even if the timeout is not positive. */
  function Tries(timeout: int): nat {
    if timeout < 1 then 1 else timeout
  }

  class Hotswap {
    var name: Name
  }

  class Server {
    var name: Name
    var state: Status
    var fds: seq<FdWrapper>

    method InsertFdWrapper(w: FdWrapper)
      requires UniqueKeys(fds)
      modifies this`fds
      ensures fds == Inserted(old(fds), w)
      ensures forall j | 0 <= j < |old(fds)| && old(fds)[j].fd == w.fd :: fds == old(fds)[j := w]
      ensures (forall j | 0 <= j < |old(fds)| :: old(fds)[j].fd != w.fd) ==> fds == old(fds) + [w]
      ensures UniqueKeys(fds) && Table(fds) == old(Table(fds))[w.fd := w.serverFd]
      ensures KeysOf(fds) == if w.fd in old(KeysOf(fds)) then old(KeysOf(fds)) else old(KeysOf(fds)) + [w.fd]
    {
      InsertedSetsKey(fds, w);
      for i := 0 to |fds|
        invariant forall j | 0 <= j < i :: fds[j].fd != w.fd
        invariant fds == old(fds)
      {
        if fds[i].fd == w.fd {
          KeyAtIs(fds, w.fd, i);
          fds := fds[i := FdWrapper(fds[i].fd, w.serverFd)];
          return;
        }
      }
      KeyAtIs(fds, w.fd, |fds|);
      fds := fds + [w];
    }

    method GetServerFd(fd: int) returns (r: int)
      requires UniqueKeys(fds)
      ensures r == if fd in Table(fds) then Table(fds)[fd] else NO_FD
      ensures forall j | 0 <= j < |fds| && fds[j].fd == fd :: r == fds[j].serverFd
      ensures (forall j | 0 <= j < |fds| :: fds[j].fd != fd) ==> r == -1
    {
      for i := 0 to |fds|
        invariant forall j | 0 <= j < i :: fds[j].fd != fd
      {
        if fds[i].fd == fd {
          TableHolds(fds, i);
          return fds[i].serverFd;
        }
      }
      r := NO_FD;
    }

    /**
     The watcher thread from ping number `from` on. `pong(name, k)` is the answer to ping `k`,
     which goes to whoever is named in the slot by then.
     */
    method ReconnectThread(hotswap: Hotswap, timeout: int, isSwap: bool, pong: (Name, nat) -> bool, from: nat)
      returns (k: nat)
      modifies this, hotswap
      ensures var again := if isSwap then 0 else Tries(timeout);
        var o := Outlook(pong, old(name), old(hotswap.name), from, Tries(timeout), again);
        && k == o.pings && state == (if o.alive then Starting else Down)
        && if isSwap || !o.swapped then name == old(name) && fds == old(fds) && hotswap.name == old(hotswap.name)
           else name == old(hotswap.name) && fds == [] && hotswap.name == old(name)
      decreases !isSwap
    {
      var i := 1;
      k := from;
      while true
        invariant 1 <= i <= Tries(timeout) && k == from + i - 1
        invariant name == old(name) && fds == old(fds) && hotswap.name == old(hotswap.name)
        invariant Failures(pong, name, from, Tries(timeout))
               == i - 1 + Failures(pong, name, k, Tries(timeout) - (i - 1))
        decreases Tries(timeout) - i
      {
        var status := pong(name, k);
        k := k + 1;
        if status {
          state := Starting;
          return;
        } else if i >= timeout {
          state := Down;
          if !isSwap {
            name, hotswap.name := hotswap.name, name;
            fds := [];
            k := ReconnectThread(hotswap, timeout, true, pong, k);
          }
          return;
        }
        i := i + 1;
      }
    }

    /** The thread that `connector_reconnect` starts, to its end. */
    method Watch(hotswap: Hotswap, timeout: int, pong: (Name, nat) -> bool) returns (pings: nat)
      modifies this, hotswap
      ensures var tries, first, spare := if timeout < 1 then 1 else timeout, old(name), old(hotswap.name);
        && 1 <= pings <= 2 * tries
        && (state == Starting <==> pong(name, pings - 1)) && (state == Starting || state == Down)
        && (forall j | 0 <= j < pings - 1 && j < tries :: !pong(first, j))
        && (forall j | tries <= j < pings - 1 :: !pong(spare, j))
        && (state == Down ==> pings == 2 * tries)
        && (pings <= tries ==> name == first && hotswap.name == spare && fds == old(fds))
        && (pings > tries ==> name == spare && hotswap.name == first && fds == [])
    {
      WatchEnds(pong, name, hotswap.name, timeout);
      pings := ReconnectThread(hotswap, timeout, false, pong, 0);
    }
  }

  // ------------------------------------------------------------------ descriptors

  function AllInserted(fds: seq<FdWrapper>, ws: seq<FdWrapper>): seq<FdWrapper>
    decreases |ws|
  {
    if ws == [] then fds else AllInserted(Inserted(fds, ws[0]), ws[1..])
  }

  /** After any sequence of inserts keys are unique and a lookup finds what was inserted last under its key. */
  lemma {:induction false} LookupFindsLastInserted(fds: seq<FdWrapper>, ws: seq<FdWrapper>, k: nat)
    requires UniqueKeys(fds) && k < |ws| && forall j | k < j < |ws| :: ws[j].fd != ws[k].fd
    ensures var all := AllInserted(fds, ws);
      && UniqueKeys(all)
      && KeyAt(all, ws[k].fd) < |all| && all[KeyAt(all, ws[k].fd)].serverFd == ws[k].serverFd
      && ws[k].fd in Table(all) && Table(all)[ws[k].fd] == ws[k].serverFd
    decreases |ws|
  {
    InsertedSetsKey(fds, ws[0]);
    if k == 0 {
      OthersStay(Inserted(fds, ws[0]), ws[1..], ws[0].fd);
      var all := AllInserted(fds, ws);
      TableHolds(all, KeyAt(all, ws[0].fd));
    } else {
      LookupFindsLastInserted(Inserted(fds, ws[0]), ws[1..], k - 1);
    }
  }

  lemma {:induction false} OthersStay(fds: seq<FdWrapper>, ws: seq<FdWrapper>, fd: int)
    requires UniqueKeys(fds) && forall j | 0 <= j < |ws| :: ws[j].fd != fd
    ensures UniqueKeys(AllInserted(fds, ws))
    ensures fd in Table(AllInserted(fds, ws)) <==> fd in Table(fds)
    ensures fd in Table(fds) ==> Table(AllInserted(fds, ws))[fd] == Table(fds)[fd]
    ensures fd in Table(fds) ==> KeyAt(AllInserted(fds, ws), fd) < |AllInserted(fds, ws)|
    decreases |ws|
  {
    if ws != [] {
      InsertedSetsKey(fds, ws[0]);
      OthersStay(Inserted(fds, ws[0]), ws[1..], fd);
    }
  }

  // ------------------------------------------------------------------ the watch

  /**
   The pings of one watch, numbered from 0: a first round to the server, a second one, after an
   exchange, to the spare one, each as long as the timeout says and at least one ping. Only the
   last ping can succeed, and the watch ends alive exactly if it does.
   */
  lemma WatchEnds(pong: (Name, nat) -> bool, name: Name, spare: Name, timeout: int)
    ensures var tries := if timeout < 1 then 1 else timeout;
      var o := Outlook(pong, name, spare, 0, Tries(timeout), Tries(timeout));
      && 1 <= o.pings <= 2 * tries
      && (o.alive <==> pong(if o.pings > tries then spare else name, o.pings - 1))
      && (o.swapped <==> forall j | 0 <= j < tries :: !pong(name, j))
      && (o.swapped <==> o.pings > tries)
      && (forall j | 0 <= j < o.pings - 1 && j < tries :: !pong(name, j))
      && (forall j | tries <= j < o.pings - 1 :: !pong(spare, j))
      && (!o.alive ==> o.pings == 2 * tries)
  {
  }

  /** The ticks of one watcher until it is gone, and the number of the ping after its last. */
  function Watched<D>(w: World<D>, k: nat, pong: (Name, nat) -> bool, n: nat, timeout: int): (World<D>, nat)
    requires k < |w.watchers| && w.watchers[k].slot < |w.slots|
    decreases !w.watchers[k].swapped, timeout - w.watchers[k].tries
  {
    var t := w.watchers[k];
    var w1 := Ticked(w, k, pong(w.slots[t.slot].name, n), timeout);
    if pong(w.slots[t.slot].name, n) || (t.tries >= timeout && t.swapped) then (w1, n + 1)
    else Watched(w1, k, pong, n + 1, timeout)
  }

  /** What the thread leaves behind, told from its outlook. */
  function Left<D>(w: World<D>, k: nat, o: Outcome): World<D>
    requires k < |w.watchers| && w.watchers[k].slot < |w.slots|
  {
    var t := w.watchers[k];
    var s := w.slots[t.slot];
    var status := if o.alive then Starting else Down;
    var w1 := w.(watchers := Without(w.watchers, k));
    if o.swapped && !t.swapped then WithSlot(w1, t.slot, Slot(w.hotswap, status, map[])).(hotswap := s.name)
    else WithSlot(w1, t.slot, s.(status := status))
  }

  function PingsLeft(t: Watcher, timeout: int): nat {
    if t.tries >= timeout then 1 else timeout - t.tries + 1
  }

  lemma OutlookAfterFailure(pong: (Name, nat) -> bool, name: Name, spare: Name, n: nat, tries: nat, again: nat)
    requires tries > 0 && !pong(name, n)
    ensures tries > 1 ==>
      Outlook(pong, name, spare, n, tries, again) == Outlook(pong, name, spare, n + 1, tries - 1, again)
    ensures tries == 1 ==>
      var o := Outlook(pong, spare, name, n + 1, again, 0);
      Outlook(pong, name, spare, n, 1, again) == Outcome(o.alive, true, o.pings)
  {
    assert tries == 1 ==> Failures(pong, name, n, tries) == 1;
  }

  lemma LeftAfterFailure<D>(w: World<D>, k: nat, timeout: int, o: Outcome)
    requires k < |w.watchers| && w.watchers[k].slot < |w.slots|
    ensures var t := w.watchers[k];
      && (t.tries < timeout ==> Left(Ticked(w, k, false, timeout), k, o) == Left(w, k, o))
      && (t.tries >= timeout && !t.swapped ==>
            Left(Ticked(w, k, false, timeout), k, o) == Left(w, k, o.(swapped := true)))
  {
    var w1 := Ticked(w, k, false, timeout);
    var t := w.watchers[k];
    if t.tries < timeout || !t.swapped {
      assert Without(w1.watchers, k) == Without(w.watchers, k);
    }
  }

  ghost predicate TicksAsTheThread<D>(w: World<D>, k: nat, pong: (Name, nat) -> bool, n: nat, timeout: int)
    requires k < |w.watchers| && w.watchers[k].slot < |w.slots|
  {
    var t := w.watchers[k];
    var again := if t.swapped then 0 else Tries(timeout);
    var o := Outlook(pong, w.slots[t.slot].name, w.hotswap, n, PingsLeft(t, timeout), again);
    Watched(w, k, pong, n, timeout) == (Left(w, k, o), o.pings)
  }

  lemma TryAgain<D>(w: World<D>, k: nat, pong: (Name, nat) -> bool, n: nat, timeout: int)
    requires k < |w.watchers| && w.watchers[k].slot < |w.slots|
    requires !pong(w.slots[w.watchers[k].slot].name, n) && w.watchers[k].tries < timeout
    requires TicksAsTheThread(Ticked(w, k, false, timeout), k, pong, n + 1, timeout)
    ensures TicksAsTheThread(w, k, pong, n, timeout)
  {
    var t := w.watchers[k];
    var name := w.slots[t.slot].name;
    var again := if t.swapped then 0 else Tries(timeout);
    OutlookAfterFailure(pong, name, w.hotswap, n, PingsLeft(t, timeout), again);
    LeftAfterFailure(w, k, timeout, Outlook(pong, name, w.hotswap, n + 1, PingsLeft(t, timeout) - 1, again));
  }

  lemma TryTheHotswap<D>(w: World<D>, k: nat, pong: (Name, nat) -> bool, n: nat, timeout: int)
    requires k < |w.watchers| && w.watchers[k].slot < |w.slots|
    requires !pong(w.slots[w.watchers[k].slot].name, n) && w.watchers[k].tries >= timeout && !w.watchers[k].swapped
    requires TicksAsTheThread(Ticked(w, k, false, timeout), k, pong, n + 1, timeout)
    ensures TicksAsTheThread(w, k, pong, n, timeout)
  {
    var name := w.slots[w.watchers[k].slot].name;
    OutlookAfterFailure(pong, name, w.hotswap, n, 1, Tries(timeout));
    LeftAfterFailure(w, k, timeout, Outlook(pong, w.hotswap, name, n + 1, Tries(timeout), 0));
  }

  /** Tick by tick, a watcher of the state machine does exactly what the thread does. */
  lemma {:induction false} TicksAreTheThread<D>(w: World<D>, k: nat, pong: (Name, nat) -> bool, n: nat, timeout: int)
    requires k < |w.watchers| && w.watchers[k].slot < |w.slots|
    ensures TicksAsTheThread(w, k, pong, n, timeout)
    decreases !w.watchers[k].swapped, timeout - w.watchers[k].tries
  {
    var t := w.watchers[k];
    if !pong(w.slots[t.slot].name, n) && (t.tries < timeout || !t.swapped) {
      TicksAreTheThread(Ticked(w, k, false, timeout), k, pong, n + 1, timeout);
      if t.tries < timeout {
        TryAgain(w, k, pong, n, timeout);
      } else {
        TryTheHotswap(w, k, pong, n, timeout);
      }
    }
  }
}
