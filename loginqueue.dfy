/**
 * LoginQueueManager: admits frontend clients into the game in two FIFO
 * queues, a high-priority one that ignores server capacity and a normal one
 * that is throttled by it, and tells the clients left waiting their place in
 * line (MHServerEmu.PlayerManagement).
 *
 * Clients are identified by number. Whether a client is still connected and
 * its account's user level are supplied by the caller as functions, the
 * process timer's verdict as a boolean; messages sent to clients are
 * appended to an outbox log.
 */
module PlayerManagement {

  type ClientId = nat

  /** The only mux channel the manager sends on. */
  const MuxChannel: nat := 1

  /** AccountUserLevel.User: the level of an ordinary account. */
  const User: nat := 0

  datatype Message =
    | SessionEncryptionChanged(randomNumberIndex: int, encryptedRandomNumber: seq<bv8>)
    | LoginQueueStatus(numberOfPlayersInLine: nat, placeInLine: nat)

  datatype Sent = Sent(client: ClientId, muxChannel: nat, message: Message)

  /** IsClientHighPriority: elevated accounts (above User) skip the capacity check. */
  predicate IsHighPriority(userLevel: nat): (r: bool)
    ensures userLevel == User ==> !r
    ensures userLevel != User ==> r
  {
    userLevel > User
  }

  /** Whether AcceptNewClients puts a client into the high-priority (`high`) or the normal queue. */
  function Routed(connected: ClientId -> bool, userLevel: ClientId -> nat, high: bool): ClientId -> bool {
    (c: ClientId) => connected(c) && IsHighPriority(userLevel(c)) == high
  }

  /** The clients of q satisfying p, in queue order. */
  function Filter(q: seq<ClientId>, p: ClientId -> bool): (r: seq<ClientId>)
    ensures |r| <= |q|
  {
    if q == [] then []
    else Filter(q[..|q| - 1], p) + (if p(q[|q| - 1]) then [q[|q| - 1]] else [])
  }

  /** Filter keeps exactly the clients satisfying p, and Members is the set of them. */
  lemma {:induction false} FilterMembers(q: seq<ClientId>, p: ClientId -> bool, c: ClientId)
    ensures c in Filter(q, p) <==> c in q && p(c)
    ensures c in Members(q, p) <==> c in q && p(c)
    decreases |q|
  {
    if q != [] {
      var init := q[..|q| - 1];
      FilterMembers(init, p, c);
      assert q == init + [q[|q| - 1]];
    }
  }

  lemma {:induction false} FilterFront(q: seq<ClientId>, p: ClientId -> bool)
    requires |q| > 0
    ensures Filter(q, p) == (if p(q[0]) then [q[0]] else []) + Filter(q[1..], p)
    decreases |q|
  {
    if |q| > 1 {
      var init := q[..|q| - 1];
      FilterFront(init, p);
      assert init[1..] == q[1..][..|q[1..]| - 1];
    } else {
      assert q[1..] == [];
      assert q[..0] == [];
    }
  }

  /** The first message a passing client receives. */
  const Passing: Message := SessionEncryptionChanged(0, [])

  /** What ProcessQueuedClient sends to each connected client of q, in order. */
  function PassMessages(q: seq<ClientId>, connected: ClientId -> bool): seq<Sent> {
    var passing := Filter(q, connected);
    seq(|passing|, i requires 0 <= i < |passing| => Sent(passing[i], MuxChannel, Passing))
  }

  /** The status sent to the clients left waiting: the count and places 1 .. n, in queue order. */
  function StatusMessages(q: seq<ClientId>): seq<Sent> {
    seq(|q|, i requires 0 <= i < |q| => Sent(q[i], MuxChannel, LoginQueueStatus(|q|, i + 1)))
  }

  /**
   * How many clients the capacity-checked loop dequeues from q, starting from
   * `available` slots: it dequeues while the capacity check is off
   * (total <= 0) or a slot is left, and only connected clients use a slot.
   */
  function Admitted(q: seq<ClientId>, connected: ClientId -> bool, total: int, available: int): (k: nat)
    ensures k <= |q|
    decreases |q|
  {
    if q == [] || !(total <= 0 || available > 0) then 0
    else 1 + Admitted(q[1..], connected, total, available - (if connected(q[0]) then 1 else 0))
  }

  /** One dequeue of the capacity-checked loop. */
  lemma {:induction false} AdmittedStep(q: seq<ClientId>, connected: ClientId -> bool, total: int, available: int)
    requires q != [] && (total <= 0 || available > 0)
    ensures Admitted(q, connected, total, available)
         == 1 + Admitted(q[1..], connected, total, available - (if connected(q[0]) then 1 else 0))
  {
  }

  /** With capacity checking off, the whole normal queue is let in. */
  lemma {:induction false} AdmittedUnlimited(q: seq<ClientId>, connected: ClientId -> bool, total: int, available: int)
    requires total <= 0
    ensures Admitted(q, connected, total, available) == |q|
    decreases |q|
  {
    if q != [] {
      AdmittedUnlimited(q[1..], connected, total, available - (if connected(q[0]) then 1 else 0));
    }
  }

  /**
   * With capacity checking on, the connected clients let in never outnumber
   * the free slots, and the loop stops early only once every slot is used.
   */
  lemma {:induction false} AdmittedRespectsCapacity(q: seq<ClientId>, connected: ClientId -> bool, total: int, available: int)
    requires total > 0
    ensures var k := Admitted(q, connected, total, available);
      |Filter(q[..k], connected)| <= (if available > 0 then available else 0)
      && (k < |q| ==> |Filter(q[..k], connected)| >= available)
    decreases |q|
  {
    var k := Admitted(q, connected, total, available);
    if q == [] || available <= 0 {
      assert q[..k] == [];
    } else {
      var a' := available - (if connected(q[0]) then 1 else 0);
      AdmittedRespectsCapacity(q[1..], connected, total, a');
      FilterFront(q[..k], connected);
      assert q[..k][1..] == q[1..][..k - 1];
    }
  }

  /** Every place 1 .. n is given to exactly one waiting client, and all are told n. */
  lemma {:induction false} StatusPlacesAreDistinct(q: seq<ClientId>)
    ensures |StatusMessages(q)| == |q|
    ensures forall i :: 0 <= i < |q| ==> StatusMessages(q)[i].client == q[i]
    ensures forall m :: m in StatusMessages(q) ==>
      1 <= m.message.placeInLine <= |q| && m.message.numberOfPlayersInLine == |q|
    ensures forall i, j :: 0 <= i < j < |q| ==>
      StatusMessages(q)[i].message.placeInLine != StatusMessages(q)[j].message.placeInLine
  {}

  /** The set of clients of q satisfying p. */
  function Members(q: seq<ClientId>, p: ClientId -> bool): set<ClientId> {
    if q == [] then {}
    else Members(q[..|q| - 1], p) + (if p(q[|q| - 1]) then {q[|q| - 1]} else {})
  }

  lemma {:induction false} MembersSnoc(q: seq<ClientId>, c: ClientId, p: ClientId -> bool)
    ensures Members(q + [c], p) == Members(q, p) + (if p(c) then {c} else {})
  {
    assert (q + [c])[..|q + [c]| - 1] == q;
  }

  lemma {:induction false} PassMessagesSnoc(q: seq<ClientId>, c: ClientId, connected: ClientId -> bool)
    ensures PassMessages(q + [c], connected)
         == PassMessages(q, connected) + (if connected(c) then [Sent(c, MuxChannel, Passing)] else [])
  {
    FilterSnoc(q, c, connected);
  }

  lemma {:induction false} FilterSnoc(q: seq<ClientId>, c: ClientId, p: ClientId -> bool)
    ensures Filter(q + [c], p) == Filter(q, p) + (if p(c) then [c] else [])
  {
    assert (q + [c])[..|q + [c]| - 1] == q;
  }

  /** One dequeue of the accept loop: the accepted prefix grows by the client at i. */
  lemma {:induction false} AcceptStep(q: seq<ClientId>, i: nat, connected: ClientId -> bool, userLevel: ClientId -> nat)
    requires i < |q|
    ensures Filter(q[..i + 1], Routed(connected, userLevel, true)) == Filter(q[..i], Routed(connected, userLevel, true))
      + (if connected(q[i]) && IsHighPriority(userLevel(q[i])) then [q[i]] else [])
    ensures Filter(q[..i + 1], Routed(connected, userLevel, false)) == Filter(q[..i], Routed(connected, userLevel, false))
      + (if connected(q[i]) && !IsHighPriority(userLevel(q[i])) then [q[i]] else [])
    ensures Members(q[..i + 1], connected) == Members(q[..i], connected) + (if connected(q[i]) then {q[i]} else {})
  {
    assert q[..i + 1] == q[..i] + [q[i]];
    AcceptSnoc(q[..i], q[i], connected, userLevel);
  }

  /** One dequeue of a drain loop: the processed prefix grows by the client at i. */
  lemma {:induction false} DrainStep(q: seq<ClientId>, i: nat, connected: ClientId -> bool)
    requires i < |q|
    ensures |Filter(q[..i + 1], connected)| == |Filter(q[..i], connected)| + (if connected(q[i]) then 1 else 0)
    ensures Members(q[..i + 1], connected) == Members(q[..i], connected) + (if connected(q[i]) then {q[i]} else {})
    ensures PassMessages(q[..i + 1], connected)
         == PassMessages(q[..i], connected) + (if connected(q[i]) then [Sent(q[i], MuxChannel, Passing)] else [])
  {
    assert q[..i + 1] == q[..i] + [q[i]];
    FilterSnoc(q[..i], q[i], connected);
    MembersSnoc(q[..i], q[i], connected);
    PassMessagesSnoc(q[..i], q[i], connected);
  }

  /** Accepting partitions the connected new clients between the two queues. */
  /** One more client handed over: where it goes, if anywhere. */
  lemma {:induction false} AcceptSnoc(q: seq<ClientId>, c: ClientId, connected: ClientId -> bool, userLevel: ClientId -> nat)
    ensures Filter(q + [c], Routed(connected, userLevel, true)) == Filter(q, Routed(connected, userLevel, true))
      + (if connected(c) && IsHighPriority(userLevel(c)) then [c] else [])
    ensures Filter(q + [c], Routed(connected, userLevel, false)) == Filter(q, Routed(connected, userLevel, false))
      + (if connected(c) && !IsHighPriority(userLevel(c)) then [c] else [])
    ensures Members(q + [c], connected) == Members(q, connected) + (if connected(c) then {c} else {})
  {
    FilterSnoc(q, c, Routed(connected, userLevel, true));
    FilterSnoc(q, c, Routed(connected, userLevel, false));
    MembersSnoc(q, c, connected);
  }

  lemma {:induction false} AcceptPartition(cs: seq<ClientId>, connected: ClientId -> bool, userLevel: ClientId -> nat, c: ClientId)
    ensures var high := Filter(cs, Routed(connected, userLevel, true));
      var normal := Filter(cs, Routed(connected, userLevel, false));
      ((c in high || c in normal) <==> (c in cs && connected(c)))
      && !(c in high && c in normal)
      && |high| + |normal| == |Filter(cs, connected)|
  {
    FilterSplit(cs, connected, userLevel);
    FilterMembers(cs, Routed(connected, userLevel, true), c);
    FilterMembers(cs, Routed(connected, userLevel, false), c);
  }

  lemma {:induction false} FilterSplit(cs: seq<ClientId>, connected: ClientId -> bool, userLevel: ClientId -> nat)
    ensures |Filter(cs, Routed(connected, userLevel, true))|
          + |Filter(cs, Routed(connected, userLevel, false))| == |Filter(cs, connected)|
    decreases |cs|
  {
    if cs != [] {
      FilterSplit(cs[..|cs| - 1], connected, userLevel);
    }
  }

  class LoginQueueManager {
    /** `_newClientQueue`, clients handed over by the frontend since the last Update */
    var newClientQueue: seq<ClientId>
    var loginQueue: seq<ClientId>
    var highPriorityLoginQueue: seq<ClientId>
    /** Clients whose session has LoginQueuePassed set. */
    var passed: set<ClientId>
    /** Clients whose receive timeout has been suspended. */
    var suspended: set<ClientId>
    /** Every message sent, oldest first. */
    var outbox: seq<Sent>

    constructor ()
      ensures newClientQueue == [] && loginQueue == [] && highPriorityLoginQueue == []
      ensures passed == {} && suspended == {} && outbox == []
    {
      newClientQueue := [];
      loginQueue := [];
      highPriorityLoginQueue := [];
      passed := {};
      suspended := {};
      outbox := [];
    }

    method EnqueueNewClient(client: ClientId)
      modifies this
      ensures newClientQueue == old(newClientQueue) + [client]
      ensures loginQueue == old(loginQueue) && highPriorityLoginQueue == old(highPriorityLoginQueue)
      ensures passed == old(passed) && suspended == old(suspended) && outbox == old(outbox)
    {
      newClientQueue := newClientQueue + [client];
    }

    method Update(connected: ClientId -> bool, userLevel: ClientId -> nat, timerReady: bool,
                  serverCapacity: int, playerCount: int)
      modifies this
      ensures newClientQueue == []
      ensures suspended == old(suspended) + Members(old(newClientQueue), connected)
      ensures var high := old(highPriorityLoginQueue) + Filter(old(newClientQueue), Routed(connected, userLevel, true));
        var normal := old(loginQueue) + Filter(old(newClientQueue), Routed(connected, userLevel, false));
        if timerReady then
          var k := Admitted(normal, connected, serverCapacity, serverCapacity - playerCount - |Filter(high, connected)|);
          highPriorityLoginQueue == [] && loginQueue == normal[k..]
          && passed == old(passed) + Members(high, connected) + Members(normal[..k], connected)
          && outbox == old(outbox) + PassMessages(high, connected) + PassMessages(normal[..k], connected)
                                   + StatusMessages(normal[k..])
        else
          highPriorityLoginQueue == high && loginQueue == normal && passed == old(passed) && outbox == old(outbox)
    {
      ghost var high := highPriorityLoginQueue + Filter(newClientQueue, Routed(connected, userLevel, true));
      ghost var normal := loginQueue + Filter(newClientQueue, Routed(connected, userLevel, false));
      AcceptNewClients(connected, userLevel);
      assert highPriorityLoginQueue == high && loginQueue == normal;
      ghost var passed0, outbox0 := passed, outbox;
      ProcessLoginQueue(connected, timerReady, serverCapacity, playerCount);
      assert passed0 == old(passed) && outbox0 == old(outbox);
    }

    /**
     * Drain the new clients: drop the disconnected ones, suspend the receive
     * timeout of the rest and append each to the high-priority or normal queue.
     */
    method AcceptNewClients(connected: ClientId -> bool, userLevel: ClientId -> nat)
      modifies this
      ensures newClientQueue == []
      ensures highPriorityLoginQueue == old(highPriorityLoginQueue)
        + Filter(old(newClientQueue), Routed(connected, userLevel, true))
      ensures loginQueue == old(loginQueue)
        + Filter(old(newClientQueue), Routed(connected, userLevel, false))
      ensures suspended == old(suspended) + Members(old(newClientQueue), connected)
      ensures passed == old(passed) && outbox == old(outbox)
    {
      ghost var incoming, high0, normal0, suspended0 := newClientQueue, highPriorityLoginQueue, loginQueue, suspended;
      ghost var passed0, outbox0 := passed, outbox;
      ghost var i := 0;
      while |newClientQueue| > 0
        invariant 0 <= i <= |incoming| && newClientQueue == incoming[i..]
        invariant highPriorityLoginQueue == high0 + Filter(incoming[..i], Routed(connected, userLevel, true))
        invariant loginQueue == normal0 + Filter(incoming[..i], Routed(connected, userLevel, false))
        invariant suspended == suspended0 + Members(incoming[..i], connected)
        invariant passed == passed0 && outbox == outbox0
      {
        var client := newClientQueue[0];
        assert client == incoming[i] && newClientQueue[1..] == incoming[i + 1..];
        newClientQueue := newClientQueue[1..];
        AcceptStep(incoming, i, connected, userLevel);
        i := i + 1;
        AcceptClient(client, connected(client), IsHighPriority(userLevel(client)));
      }
      assert incoming[..i] == incoming;
    }

    /**
     * The body of the accept loop for one dequeued client: a disconnected
     * client is dropped; a connected one has its receive timeout suspended and
     * joins the high-priority queue when elevated, the normal queue otherwise.
     */
    method AcceptClient(client: ClientId, isConnected: bool, isHighPriority: bool)
      modifies this
      ensures suspended == old(suspended) + (if isConnected then {client} else {})
      ensures highPriorityLoginQueue == old(highPriorityLoginQueue) + (if isConnected && isHighPriority then [client] else [])
      ensures loginQueue == old(loginQueue) + (if isConnected && !isHighPriority then [client] else [])
      ensures newClientQueue == old(newClientQueue) && passed == old(passed) && outbox == old(outbox)
    {
      if !isConnected {
        return;
      }
      suspended := suspended + {client};
      if isHighPriority {
        highPriorityLoginQueue := highPriorityLoginQueue + [client];
      } else {
        loginQueue := loginQueue + [client];
      }
    }

    /**
     * Let every high-priority client in, then normal clients in FIFO order
     * while capacity allows, then send a LoginQueueStatus to each client left.
     */
    method ProcessLoginQueue(connected: ClientId -> bool, timerReady: bool, serverCapacity: int, playerCount: int)
      modifies this
      ensures newClientQueue == old(newClientQueue) && suspended == old(suspended)
      ensures !timerReady ==>
        loginQueue == old(loginQueue) && highPriorityLoginQueue == old(highPriorityLoginQueue)
        && passed == old(passed) && outbox == old(outbox)
      ensures timerReady ==>
        var high := old(highPriorityLoginQueue);
        var available := serverCapacity - playerCount - |Filter(high, connected)|;
        var k := Admitted(old(loginQueue), connected, serverCapacity, available);
        highPriorityLoginQueue == []
        && loginQueue == old(loginQueue)[k..]
        && passed == old(passed) + Members(high, connected)
                                 + Members(old(loginQueue)[..k], connected)
        && outbox == old(outbox) + PassMessages(high, connected)
                                 + PassMessages(old(loginQueue)[..k], connected)
                                 + StatusMessages(loginQueue)
    {
      if !timerReady {
        return;
      }
      var totalCapacity := serverCapacity;
      var availableCapacity := totalCapacity - playerCount;
      ghost var high := highPriorityLoginQueue;
      ghost var normal := loginQueue;
      availableCapacity := DrainHighPriorityQueue(connected, availableCapacity);
      ghost var available := availableCapacity;
      ghost var passedHigh := passed;
      ghost var sentHigh := outbox;
      availableCapacity := DrainLoginQueue(connected, totalCapacity, availableCapacity);
      ghost var k := Admitted(normal, connected, totalCapacity, available);
      assert passed == passedHigh + Members(normal[..k], connected);
      if |loginQueue| == 0 {
        assert StatusMessages(loginQueue) == [];
        return;
      }
      SendQueueStatus();
    }

    /** The high-priority loop: every client in it is processed, whatever the capacity. */
    method DrainHighPriorityQueue(connected: ClientId -> bool, availableCapacity: int) returns (remaining: int)
      modifies this
      ensures highPriorityLoginQueue == []
      ensures remaining == availableCapacity - |Filter(old(highPriorityLoginQueue), connected)|
      ensures passed == old(passed) + Members(old(highPriorityLoginQueue), connected)
      ensures outbox == old(outbox) + PassMessages(old(highPriorityLoginQueue), connected)
      ensures loginQueue == old(loginQueue)
      ensures newClientQueue == old(newClientQueue) && suspended == old(suspended)
    {
      remaining := availableCapacity;
      ghost var high, passed0, outbox0 := highPriorityLoginQueue, passed, outbox;
      ghost var normal0, new0, suspended0 := loginQueue, newClientQueue, suspended;
      ghost var i := 0;
      while |highPriorityLoginQueue| > 0
        invariant 0 <= i <= |high| && highPriorityLoginQueue == high[i..]
        invariant remaining == availableCapacity - |Filter(high[..i], connected)|
        invariant passed == passed0 + Members(high[..i], connected)
        invariant outbox == outbox0 + PassMessages(high[..i], connected)
        invariant loginQueue == normal0
        invariant newClientQueue == new0 && suspended == suspended0
      {
        var client := highPriorityLoginQueue[0];
        assert client == high[i] && highPriorityLoginQueue[1..] == high[i + 1..];
        highPriorityLoginQueue := highPriorityLoginQueue[1..];
        DrainStep(high, i, connected);
        var _, left := ProcessQueuedClient(client, connected(client), remaining);
        remaining := left;
        i := i + 1;
      }
      assert high[..i] == high;
    }

    /** The normal loop: FIFO, while the capacity check is off or a slot is left. */
    method DrainLoginQueue(connected: ClientId -> bool, totalCapacity: int, availableCapacity: int) returns (remaining: int)
      modifies this
      ensures var k := Admitted(old(loginQueue), connected, totalCapacity, availableCapacity);
        loginQueue == old(loginQueue)[k..]
        && passed == old(passed) + Members(old(loginQueue)[..k], connected)
        && outbox == old(outbox) + PassMessages(old(loginQueue)[..k], connected)
      ensures highPriorityLoginQueue == old(highPriorityLoginQueue)
      ensures newClientQueue == old(newClientQueue) && suspended == old(suspended)
    {
      remaining := availableCapacity;
      ghost var normal, passed0, outbox0 := loginQueue, passed, outbox;
      ghost var high0, new0, suspended0 := highPriorityLoginQueue, newClientQueue, suspended;
      ghost var j := 0;
      while |loginQueue| > 0 && (totalCapacity <= 0 || remaining > 0)
        invariant 0 <= j <= |normal| && loginQueue == normal[j..]
        invariant Admitted(normal, connected, totalCapacity, availableCapacity)
                  == j + Admitted(loginQueue, connected, totalCapacity, remaining)
        invariant passed == passed0 + Members(normal[..j], connected)
        invariant outbox == outbox0 + PassMessages(normal[..j], connected)
        invariant highPriorityLoginQueue == high0
        invariant newClientQueue == new0 && suspended == suspended0
      {
        var client := loginQueue[0];
        AdmittedStep(loginQueue, connected, totalCapacity, remaining);
        assert loginQueue[1..] == normal[j + 1..];
        loginQueue := loginQueue[1..];
        assert client == normal[j];
        DrainStep(normal, j, connected);
        var _, left := ProcessQueuedClient(client, connected(client), remaining);
        remaining := left;
        j := j + 1;
      }
      assert Admitted(loginQueue, connected, totalCapacity, remaining) == 0;
    }

    /** The status loop: the i-th waiting client is told the queue length and place i + 1. */
    method SendQueueStatus()
      modifies this
      ensures outbox == old(outbox) + StatusMessages(loginQueue)
      ensures loginQueue == old(loginQueue) && highPriorityLoginQueue == old(highPriorityLoginQueue)
      ensures passed == old(passed) && newClientQueue == old(newClientQueue) && suspended == old(suspended)
    {
      var playersInLine := |loginQueue|;
      var placeInLine := 1;
      var n := 0;
      while n < |loginQueue|
        invariant 0 <= n <= |loginQueue| && placeInLine == n + 1
        invariant outbox == old(outbox) + StatusMessages(loginQueue)[..n]
        invariant loginQueue == old(loginQueue) && highPriorityLoginQueue == old(highPriorityLoginQueue)
        invariant passed == old(passed) && newClientQueue == old(newClientQueue) && suspended == old(suspended)
      {
        outbox := outbox + [Sent(loginQueue[n], MuxChannel, LoginQueueStatus(playersInLine, placeInLine))];
        assert StatusMessages(loginQueue)[..n + 1] == StatusMessages(loginQueue)[..n] + [StatusMessages(loginQueue)[n]];
        placeInLine := placeInLine + 1;
        n := n + 1;
      }
      assert StatusMessages(loginQueue)[..n] == StatusMessages(loginQueue);
    }

    /**
     * Let one client in: a disconnected client is refused and uses no slot;
     * a connected one is marked as past the queue, sent SessionEncryptionChanged
     * and uses exactly one slot.
     */
    method ProcessQueuedClient(client: ClientId, isConnected: bool, availableCapacity: int)
      returns (ok: bool, newAvailableCapacity: int)
      modifies this
      ensures ok == isConnected
      ensures newAvailableCapacity == availableCapacity - (if isConnected then 1 else 0)
      ensures passed == old(passed) + (if isConnected then {client} else {})
      ensures outbox == old(outbox) + (if isConnected then [Sent(client, MuxChannel, Passing)] else [])
      ensures newClientQueue == old(newClientQueue) && loginQueue == old(loginQueue)
      ensures highPriorityLoginQueue == old(highPriorityLoginQueue) && suspended == old(suspended)
    {
      if !isConnected {
        return false, availableCapacity;
      }
      passed := passed + {client};
      outbox := outbox + [Sent(client, MuxChannel, Passing)];
      return true, availableCapacity - 1;
    }
  }
}
