/** The message bus as the plugin sees it, and `Utils::IARM`, which connects to it with a bounded number of retries. */
module Iarm {

  /** The events for which handlers are installed, in the order of installation. */
  datatype EventId = RcuStatus | FirmwareUpdateProgress | ValidationStatus | ConfigurationComplete | PairingWindowTimeout

  const EVENTS: seq<EventId> :=
    [RcuStatus, FirmwareUpdateProgress, ValidationStatus, ConfigurationComplete, PairingWindowTimeout]

  datatype BusResult = Success | InvalidState | Failed

  /** How the bus answers one attempt to connect: the results of the two calls, and whether the query is answered. */
  datatype Attempt = Attempt(init: BusResult, connect: BusResult, answered: bool) {
    /** The attempt gets as far as asking whether there is a connection. */
    predicate Asks() {
      !init.Failed? && !connect.Failed?
    }

    predicate Connects() {
      !init.Failed? && connect.Success?
    }
  }

  /** The calls that undo something on the bus. */
  datatype Undo = RemovedHandler(e: EventId) | Disconnected | Terminated

  class IarmBus {
    var inited: bool
    var connected: bool
    var handlers: seq<EventId>
    ghost var undone: seq<Undo>

    method Init(r: BusResult)
      modifies this`inited
      ensures inited == (old(inited) || r.Success?)
    {
      if r.Success? {
        inited := true;
      }
    }

    method Connect(r: BusResult)
      modifies this`connected
      ensures connected == (old(connected) || r.Success?)
    {
      if r.Success? {
        connected := true;
      }
    }

    /** A query that is not answered leaves the caller's flag at zero. */
    method IsConnected(answered: bool) returns (isRegistered: bool)
      ensures isRegistered == (connected && answered)
    {
      isRegistered := connected && answered;
    }

    method RegisterEventHandler(e: EventId, accepted: bool) returns (r: BusResult)
      modifies this`handlers
      ensures r.Success? <==> accepted
      ensures handlers == if accepted then old(handlers) + [e] else old(handlers)
    {
      if accepted {
        handlers := handlers + [e];
        r := Success;
      } else {
        r := Failed;
      }
    }

    /** Removes the handler that was installed last. */
    method RemoveEventHandler(e: EventId)
      requires handlers != [] && handlers[|handlers| - 1] == e
      modifies this`handlers, this`undone
      ensures handlers == old(handlers)[..|old(handlers)| - 1]
      ensures undone == old(undone) + [RemovedHandler(e)]
    {
      handlers := handlers[..|handlers| - 1];
      undone := undone + [RemovedHandler(e)];
    }

    method Disconnect()
      modifies this`connected, this`undone
      ensures !connected && undone == old(undone) + [Disconnected]
    {
      connected := false;
      undone := undone + [Disconnected];
    }

    method Term()
      modifies this`inited, this`undone
      ensures !inited && undone == old(undone) + [Terminated]
    {
      inited := false;
      undone := undone + [Terminated];
    }
  }

  /** One more attempt than `retryCount` is compared with: the count is compared before it is increased. */
  const ATTEMPTS: nat := 21

  /** Whether a connection exists after the first `k` attempts. */
  ghost predicate ConnectedAfter(before: bool, attempts: seq<Attempt>, k: nat)
    requires k <= |attempts|
  {
    before || exists i :: 0 <= i < k && attempts[i].Connects()
  }

  /** Whether attempt `k` is answered that there is a connection. */
  ghost predicate Confirmed(before: bool, attempts: seq<Attempt>, k: nat)
    requires k < |attempts|
  {
    attempts[k].Asks() && attempts[k].answered && ConnectedAfter(before, attempts, k + 1)
  }

  /** Whether the function finds or makes a connection. */
  ghost predicate Succeeds(before: bool, asked: bool, attempts: seq<Attempt>) {
    (before && asked) || exists k :: 0 <= k < |attempts| && Confirmed(before, attempts, k)
  }

  /** The same answer to each of some attempts. */
  function Each(n: nat, a: Attempt): (r: seq<Attempt>)
    ensures |r| == n && forall i :: 0 <= i < n ==> r[i] == a
  {
    seq(n, _ => a)
  }

  /**
    * What leads to success. The last of 21 attempts may still be confirmed. A bus that is connected already refuses both
    * calls with an invalid state, and is asked all the same. Without a connection, with a refused call, or without an
    * answer there is no success.
    */
  lemma WhatSucceeds()
    ensures ATTEMPTS == 21
    ensures Succeeds(false, true, Each(20, Attempt(Failed, Success, true)) + [Attempt(Success, Success, true)])
    ensures Succeeds(false, true, Each(20, Attempt(Success, Failed, true)) + [Attempt(InvalidState, Success, true)])
    ensures Succeeds(true, false, [Attempt(InvalidState, InvalidState, true)] + Each(20, Attempt(Failed, Failed, false)))
    ensures !Succeeds(false, true, Each(21, Attempt(InvalidState, InvalidState, true)))
    ensures !Succeeds(true, false, Each(21, Attempt(Failed, Success, true)))
    ensures !Succeeds(true, false, Each(21, Attempt(Success, Failed, true)))
    ensures !Succeeds(true, false, Each(21, Attempt(Success, Success, false)))
  {
    var late := Each(20, Attempt(Failed, Success, true)) + [Attempt(Success, Success, true)];
    assert late[20].Connects() && Confirmed(false, late, 20);
    var later := Each(20, Attempt(Success, Failed, true)) + [Attempt(InvalidState, Success, true)];
    assert later[20].Connects() && Confirmed(false, later, 20);
    var early := [Attempt(InvalidState, InvalidState, true)] + Each(20, Attempt(Failed, Failed, false));
    assert Confirmed(true, early, 0);
  }

  /**
    * `Utils::IARM::init`. It tries until it is told that there is a connection, 21 times at most; when it gives up, a
    * connection it made without being told so is left behind.
    */
  method InitIarm(bus: IarmBus, asked: bool, attempts: seq<Attempt>) returns (result: bool, ghost made: nat)
    requires |attempts| == ATTEMPTS
    modifies bus`inited, bus`connected
    ensures result <==> Succeeds(old(bus.connected), asked, attempts)
    ensures result ==> bus.connected
    ensures !result ==> made == ATTEMPTS
    ensures made <= ATTEMPTS && bus.connected == ConnectedAfter(old(bus.connected), attempts, made)
    ensures bus.inited == (old(bus.inited) || exists i :: 0 <= i < made && attempts[i].init.Success?)
    ensures forall k :: 0 <= k < made - 1 ==> !Confirmed(old(bus.connected), attempts, k)
    ensures made == 0 <==> old(bus.connected) && asked
    ensures made > 0 ==> (result <==> Confirmed(old(bus.connected), attempts, made - 1))
  {
    ghost var before := bus.connected;
    result := false;
    made := 0;
    var known := bus.IsConnected(asked);
    if known {
      result := true;
    } else {
      var retryCount := 0;
      var again := true;
      while again
        invariant 0 <= retryCount <= ATTEMPTS && made == retryCount
        invariant again ==> retryCount < ATTEMPTS && !result
        invariant !again ==> result || retryCount == ATTEMPTS
        invariant made == 0 ==> again
        invariant bus.connected == ConnectedAfter(before, attempts, made)
        invariant bus.inited == (old(bus.inited) || exists i :: 0 <= i < made && attempts[i].init.Success?)
        invariant forall k :: 0 <= k < made - 1 ==> !Confirmed(before, attempts, k)
        invariant made > 0 ==> (result <==> Confirmed(before, attempts, made - 1))
        decreases ATTEMPTS - retryCount, again
      {
        var a := attempts[retryCount];
        bus.Init(a.init);
        if a.init.Success? || a.init.InvalidState? {
          bus.Connect(a.connect);
          if a.connect.Success? || a.connect.InvalidState? {
            result := bus.IsConnected(a.answered);
          }
        }
        made := made + 1;
        again := !result && retryCount < 20;
        retryCount := retryCount + 1;
      }
      assert result <==> Confirmed(before, attempts, made - 1);
    }
  }
}
