/** `RemoteControlImplementation`: the observer registry, the event handlers on the bus, and their teardown. */
module Implementation {
  import opened Observers
  import opened Iarm

  datatype HResult = ErrorNone | ErrorBadRequest | ErrorGeneral

  datatype NullableObserver = Null | Address(o: Observer)

  /** One of the three event kinds an observer is told about. */
  datatype Event = OnStatus | OnValidation | OnFirmwareUpdateProgress

  /** A call of `OnStatus`, `OnValidation` or `OnFirmwareUpdateProgress` on an observer. */
  datatype Callback = Callback(o: Observer, e: Event)

  /** The observer objects: their counters, and the callbacks that reached them. */
  class ObserverHost {
    var refs: Refs
    var callbacks: seq<Callback>

    method AddRef(o: Observer)
      requires o in refs
      modifies this`refs
      ensures refs == Observers.AddRef(old(refs), o)
    {
      refs := refs[o := refs[o] + 1];
    }

    method Release(o: Observer)
      requires o in refs && refs[o] > 0
      modifies this`refs
      ensures refs == Observers.Release(old(refs), o)
    {
      if refs[o] == 1 {
        refs := refs - {o};
      } else {
        refs := refs[o := refs[o] - 1];
      }
    }

    method Call(o: Observer, e: Event)
      requires o in refs
      modifies this`callbacks
      ensures callbacks == old(callbacks) + [Callback(o, e)]
    {
      callbacks := callbacks + [Callback(o, e)];
    }
  }

  /** The host service of the plugin: its reference counter, and the notifications registered with it. */
  class Shell {
    var refs: nat
    var connectionSinks: nat
    var connectionRefs: nat
    var terminations: nat
    var submissions: nat

    method AddRef()
      modifies this`refs
      ensures refs == old(refs) + 1
    {
      refs := refs + 1;
    }

    method Release()
      requires refs > 0
      modifies this`refs
      ensures refs == old(refs) - 1
    {
      refs := refs - 1;
    }
  }

  function CallEach(os: seq<Observer>, e: Event): (r: seq<Callback>)
    ensures |r| == |os| && forall i :: 0 <= i < |os| ==> r[i] == Callback(os[i], e)
  {
    seq(|os|, i requires 0 <= i < |os| => Callback(os[i], e))
  }

  /** The answers of the bus during one `Configure`. */
  datatype Answers = Answers(before: bool, asked: bool, attempts: seq<Attempt>, accepted: seq<bool>, after: bool) {
    predicate Valid() {
      |attempts| == ATTEMPTS && |accepted| == |EVENTS|
    }

    /** Handler `k` is the first that the bus refuses. */
    ghost predicate RefusedFirst(k: nat) {
      k < |accepted| && k < |EVENTS| && !accepted[k] && forall i :: 0 <= i < k ==> accepted[i]
    }

    predicate AllAccepted() {
      forall i :: 0 <= i < |accepted| ==> accepted[i]
    }
  }

  /** Whether `Configure` succeeds on a bus whose connection flag is `connected`. */
  ghost predicate Configures(connected: bool, a: Answers) {
    Succeeds(connected, a.asked, a.attempts) && a.AllAccepted() && a.after
  }

  /**
    * Whether the connection flag is as it was before, once a configuration that succeeded or failed has been undone. It
    * is not if an existing connection was not reported, for then it is taken for the implementation's own and closed;
    * and it is not if the attempts were given up although one of them made a connection.
    */
  ghost predicate ConnectionKept(connected: bool, a: Answers)
    requires a.Valid()
  {
    if Succeeds(connected, a.asked, a.attempts) then connected ==> a.before
    else ConnectedAfter(connected, a.attempts, ATTEMPTS) ==> connected
  }

  /** When the bus answers every query, the connection flag is kept. */
  lemma AnsweredQueriesKeepConnection(connected: bool, a: Answers)
    requires a.Valid() && a.before && forall k :: 0 <= k < |a.attempts| ==> a.attempts[k].answered
    ensures ConnectionKept(connected, a)
  {
    if !connected && ConnectedAfter(connected, a.attempts, ATTEMPTS) {
      var k :| 0 <= k < ATTEMPTS && a.attempts[k].Connects();
      assert Confirmed(connected, a.attempts, k);
    }
  }

  /** A bus that is connected but leaves the first query unanswered: the implementation closes a connection of others. */
  lemma UnansweredQueryLosesConnection(attempts: seq<Attempt>)
    requires |attempts| == ATTEMPTS
    ensures var a := Answers(false, true, attempts, [true, true, true, true, true], true);
            a.Valid() && Configures(true, a) && !ConnectionKept(true, a)
  {
  }

  /** A bus that is not connected accepts every attempt to connect, but never answers that it did: 21 times. */
  const UNCONFIRMED: Answers :=
    Answers(true, true, seq(ATTEMPTS, _ => Attempt(Success, Success, false)), [true, true, true, true, true], true)

  /** The attempts are given up, and the connection they made is left behind. */
  lemma UnconfirmedConnectionIsLeft()
    ensures UNCONFIRMED.Valid() && !Configures(false, UNCONFIRMED) && !ConnectionKept(false, UNCONFIRMED)
  {
    assert UNCONFIRMED.attempts[0].Connects();
  }

  /** The removals for the first `n` handlers: in reverse order of their installation. */
  function Removals(n: nat): seq<Undo>
    requires n <= |EVENTS|
  {
    if n == 0 then [] else [RemovedHandler(EVENTS[n - 1])] + Removals(n - 1)
  }

  /** All five, the last one first. */
  lemma RemovalsOfAll()
    ensures Removals(5) == [RemovedHandler(PairingWindowTimeout), RemovedHandler(ConfigurationComplete),
                            RemovedHandler(ValidationStatus), RemovedHandler(FirmwareUpdateProgress), RemovedHandler(RcuStatus)]
  {
    assert Removals(2) == [RemovedHandler(EVENTS[1])] + ([RemovedHandler(EVENTS[0])] + Removals(0));
    assert Removals(4) == [RemovedHandler(EVENTS[3])] + ([RemovedHandler(EVENTS[2])] + Removals(2));
    assert Removals(5) == [RemovedHandler(EVENTS[4])] + Removals(4);
  }

  function ClosingOwn(own: bool): seq<Undo> {
    if own then [Disconnected, Terminated] else []
  }

  class RemoteControlImplementation {
    const bus: IarmBus
    const host: ObserverHost
    var refs: nat
    var service: Shell?
    var notifications: seq<Observer>
    var hasOwnProcess: bool
    var handlersRegistered: nat

    constructor (bus: IarmBus, host: ObserverHost)
      ensures this.bus == bus && this.host == host && refs == 1 && service == null && notifications == []
      ensures !hasOwnProcess && handlersRegistered == 0
    {
      this.bus, this.host, refs, service, notifications := bus, host, 1, null, [];
      hasOwnProcess, handlersRegistered := false, 0;
    }

    // -------------------------------------------------------------- observers

    function View(): Registry
      reads this, host
    {
      Registry(notifications, host.refs)
    }

    ghost predicate AllAlive()
      reads this, host
    {
      NoDuplicates(notifications) && Positive(host.refs) && forall o :: o in notifications ==> o in host.refs
    }

    /** `std::find` on the vector; its length stands for `end()`. */
    method Find(o: Observer) returns (it: nat)
      ensures it <= |notifications|
      ensures it < |notifications| ==> notifications[it] == o && Without(notifications, o) == notifications[..it] + notifications[it + 1..]
      ensures it == |notifications| <==> o !in notifications
    {
      it := 0;
      while it < |notifications| && notifications[it] != o
        invariant it <= |notifications| && o !in notifications[..it]
      {
        it := it + 1;
      }
      if it < |notifications| {
        WithoutAt(notifications, o, it);
      }
    }

    method Register(notification: NullableObserver) returns (hr: HResult)
      requires notification.Address? ==> notification.o in host.refs
      modifies this`notifications, host`refs
      ensures notification.Null? ==> hr == ErrorBadRequest && View() == old(View())
      ensures notification.Address? ==> hr == ErrorNone && View() == old(View()).Register(notification.o)
    {
      if notification.Null? {
        return ErrorBadRequest;
      }
      var it := Find(notification.o);
      if it == |notifications| {
        host.AddRef(notification.o);
        notifications := notifications + [notification.o];
      }
      return ErrorNone;
    }

    method Unregister(notification: NullableObserver) returns (hr: HResult)
      requires AllAlive()
      modifies this`notifications, host`refs
      ensures notification.Null? ==> hr == ErrorBadRequest && View() == old(View())
      ensures notification.Address? ==> hr == ErrorNone && View() == old(View()).Unregister(notification.o)
    {
      if notification.Null? {
        return ErrorBadRequest;
      }
      var it := Find(notification.o);
      if it != |notifications| {
        host.Release(notifications[it]);
        notifications := notifications[..it] + notifications[it + 1..];
      }
      return ErrorNone;
    }

    method ObserverSnapshot() returns (observers: seq<Observer>)
      requires AllAlive()
      modifies host`refs
      ensures observers == notifications
      ensures host.refs == AddRefAll(old(host.refs), notifications)
    {
      observers := [];
      var i := 0;
      while i < |notifications|
        invariant 0 <= i <= |notifications| && observers == notifications[..i]
        invariant host.refs == AddRefAll(old(host.refs), notifications[..i])
        invariant forall o :: o in notifications ==> o in host.refs
      {
        AddRefAllStep(old(host.refs), notifications, i);
        host.AddRef(notifications[i]);
        observers := observers + [notifications[i]];
        i := i + 1;
      }
      assert notifications[..i] == notifications;
    }

    method ReleaseObserverSnapshot(observers: seq<Observer>) returns (cleared: seq<Observer>)
      requires NoDuplicates(observers) && Positive(host.refs) && forall o :: o in observers ==> o in host.refs
      modifies host`refs
      ensures cleared == [] && host.refs == ReleaseAll(old(host.refs), observers)
    {
      var i := 0;
      while i < |observers|
        invariant 0 <= i <= |observers|
        invariant host.refs == ReleaseAll(old(host.refs), observers[..i])
      {
        ReleaseAllStep(old(host.refs), observers, i);
        host.Release(observers[i]);
        i := i + 1;
      }
      assert observers[..i] == observers;
      cleared := [];
    }

    /** What the three `Notify` functions do once the event data is built. */
    method Notify(e: Event)
      requires AllAlive()
      modifies host
      ensures host.callbacks == old(host.callbacks) + CallEach(notifications, e)
      ensures View() == old(View())
    {
      SnapshotIsNeutral(host.refs, notifications);
      var observers := ObserverSnapshot();
      StillAlive(old(host.refs), notifications);
      var i := 0;
      while i < |observers|
        invariant 0 <= i <= |observers|
        invariant host.refs == AddRefAll(old(host.refs), notifications)
        invariant host.callbacks == old(host.callbacks) + CallEach(observers[..i], e)
      {
        host.Call(observers[i], e);
        assert CallEach(observers[..i + 1], e) == CallEach(observers[..i], e) + [Callback(observers[i], e)];
        i := i + 1;
      }
      assert observers[..i] == observers;
      observers := ReleaseObserverSnapshot(observers);
    }

    // -------------------------------------------------------------- the bus

    /** The handlers on top of the bus's list are the first `handlersRegistered` of the five, in order. */
    ghost predicate Installed()
      reads this, bus
    {
      && handlersRegistered <= |EVENTS| && handlersRegistered <= |bus.handlers|
      && bus.handlers[|bus.handlers| - handlersRegistered..] == EVENTS[..handlersRegistered]
    }

    /** The handlers that others installed. */
    ghost function Others(): seq<EventId>
      reads this, bus
      requires Installed()
    {
      bus.handlers[..|bus.handlers| - handlersRegistered]
    }

    /** Removes the handler of event number `n`, if that many are installed. */
    method RemoveIfInstalled(n: nat, ghost left: nat, ghost others: seq<EventId>)
      requires 1 <= n <= |EVENTS| && left == (if handlersRegistered < n then handlersRegistered else n)
      requires bus.handlers == others + EVENTS[..left]
      modifies bus`handlers, bus`undone
      ensures var now := if left == n then n - 1 else left;
              && bus.handlers == others + EVENTS[..now]
              && bus.undone + Removals(now) == old(bus.undone) + Removals(left)
    {
      if handlersRegistered >= n {
        assert EVENTS[..n] == EVENTS[..n - 1] + [EVENTS[n - 1]];
        bus.RemoveEventHandler(EVENTS[n - 1]);
        assert bus.undone + Removals(n - 1) == old(bus.undone) + ([RemovedHandler(EVENTS[n - 1])] + Removals(n - 1));
      }
    }

    method DeinitializeIARM()
      requires Installed()
      modifies this`handlersRegistered, this`hasOwnProcess, bus
      ensures handlersRegistered == 0 && !hasOwnProcess && bus.handlers == old(Others())
      ensures bus.connected == (old(bus.connected) && !old(hasOwnProcess))
      ensures bus.inited == (old(bus.inited) && !old(hasOwnProcess))
      ensures bus.undone == old(bus.undone) + Removals(old(handlersRegistered)) + ClosingOwn(old(hasOwnProcess))
    {
      ghost var n, others := handlersRegistered, Others();
      assert bus.handlers == others + EVENTS[..n];
      if handlersRegistered > 0 {
        RemoveIfInstalled(5, n, others);
        RemoveIfInstalled(4, if n < 4 then n else 4, others);
        RemoveIfInstalled(3, if n < 3 then n else 3, others);
        RemoveIfInstalled(2, if n < 2 then n else 2, others);
        RemoveIfInstalled(1, if n < 1 then n else 1, others);
        handlersRegistered := 0;
        assert bus.handlers == others + [] == others;
        assert bus.undone + [] == bus.undone;
      } else {
        assert bus.undone == old(bus.undone) + Removals(n);
      }
      assert bus.undone == old(bus.undone) + Removals(n);
      if hasOwnProcess {
        bus.Disconnect();
        bus.Term();
        hasOwnProcess := false;
      }
    }

    /** `RC_REGISTER`: installs one more handler, or undoes everything. */
    method InstallOrRollBack(accepted: bool) returns (ok: bool)
      requires Installed() && handlersRegistered < |EVENTS|
      modifies this`handlersRegistered, this`hasOwnProcess, bus
      ensures ok == accepted
      ensures ok ==> Installed() && Others() == old(Others()) && handlersRegistered == old(handlersRegistered) + 1
      ensures ok ==> hasOwnProcess == old(hasOwnProcess) && bus.connected == old(bus.connected) && bus.undone == old(bus.undone)
      ensures ok ==> bus.inited == old(bus.inited)
      ensures !ok ==> handlersRegistered == 0 && !hasOwnProcess && bus.handlers == old(Others())
      ensures !ok ==> bus.connected == (old(bus.connected) && !old(hasOwnProcess))
      ensures !ok ==> bus.undone == old(bus.undone) + Removals(old(handlersRegistered)) + ClosingOwn(old(hasOwnProcess))
    {
      var res := bus.RegisterEventHandler(EVENTS[handlersRegistered], accepted);
      if !res.Success? {
        DeinitializeIARM();
        return false;
      }
      handlersRegistered := handlersRegistered + 1;
      return true;
    }

    /** The five registrations, one after the other, each rolling everything back when it fails. */
    method InstallAll(accepted: seq<bool>) returns (ok: bool, ghost failed: nat)
      requires Installed() && handlersRegistered == 0 && |accepted| == |EVENTS|
      modifies this`handlersRegistered, this`hasOwnProcess, bus
      ensures ok <==> forall i :: 0 <= i < |accepted| ==> accepted[i]
      ensures ok ==> Installed() && Others() == old(bus.handlers) && handlersRegistered == |EVENTS|
      ensures ok ==> hasOwnProcess == old(hasOwnProcess) && bus.connected == old(bus.connected) && bus.undone == old(bus.undone)
      ensures !ok ==> handlersRegistered == 0 && !hasOwnProcess && bus.handlers == old(bus.handlers)
      ensures !ok ==> bus.connected == (old(bus.connected) && !old(hasOwnProcess))
      ensures !ok ==> failed < |accepted| && !accepted[failed] && forall i :: 0 <= i < failed ==> accepted[i]
      ensures !ok ==> bus.undone == old(bus.undone) + Removals(failed) + ClosingOwn(old(hasOwnProcess))
    {
      assert Others() == bus.handlers;
      failed := 0;
      ok := InstallOrRollBack(accepted[0]);
      if !ok {
        return;
      }
      failed := 1;
      ok := InstallOrRollBack(accepted[1]);
      if !ok {
        return;
      }
      failed := 2;
      ok := InstallOrRollBack(accepted[2]);
      if !ok {
        return;
      }
      failed := 3;
      ok := InstallOrRollBack(accepted[3]);
      if !ok {
        return;
      }
      failed := 4;
      ok := InstallOrRollBack(accepted[4]);
    }

    method InitializeIARM(a: Answers) returns (ok: bool)
      requires a.Valid() && Installed() && handlersRegistered == 0 && !hasOwnProcess
      modifies this`handlersRegistered, this`hasOwnProcess, bus
      ensures ok <==> Succeeds(old(bus.connected), a.asked, a.attempts) && a.AllAccepted()
      ensures ok ==> Installed() && Others() == old(bus.handlers) && handlersRegistered == |EVENTS|
      ensures ok ==> bus.handlers == old(bus.handlers)
                       + [RcuStatus, FirmwareUpdateProgress, ValidationStatus, ConfigurationComplete, PairingWindowTimeout]
      ensures ok ==> bus.connected && hasOwnProcess == !(old(bus.connected) && a.before) && bus.undone == old(bus.undone)
      ensures !ok && Succeeds(old(bus.connected), a.asked, a.attempts) ==>
                exists k :: a.RefusedFirst(k)
                         && bus.undone == old(bus.undone) + Removals(k) + ClosingOwn(!(old(bus.connected) && a.before))
      ensures !ok ==> handlersRegistered == 0 && !hasOwnProcess && bus.handlers == old(bus.handlers)
      ensures !ok ==> (bus.connected == old(bus.connected) <==> ConnectionKept(old(bus.connected), a))
    {
      var alreadyConnected := bus.IsConnected(a.before);
      ghost var made;
      ok, made := InitIarm(bus, a.asked, a.attempts);
      if ok {
        hasOwnProcess := !alreadyConnected;
        ghost var failed;
        ok, failed := InstallAll(a.accepted);
        if ok {
          assert bus.handlers == Others() + EVENTS[..5];
        }
      } else {
        hasOwnProcess := false;
      }
    }

    /** Nothing is configured, and nothing is installed. */
    ghost predicate Unconfigured()
      reads this
    {
      service == null && handlersRegistered == 0 && !hasOwnProcess
    }

    /** Fully configured for `s`. */
    ghost predicate ConfiguredFor(s: Shell)
      reads this, bus
    {
      service == s && Installed() && handlersRegistered == |EVENTS| && bus.connected
    }

    method Configure(s: Shell, a: Answers) returns (hr: HResult)
      requires a.Valid() && Unconfigured()
      modifies this`service, this`handlersRegistered, this`hasOwnProcess, bus, s`refs
      ensures hr.ErrorNone? <==> Configures(old(bus.connected), a)
      ensures hr.ErrorNone? ==> ConfiguredFor(s) && Others() == old(bus.handlers) && s.refs == old(s.refs) + 1
      ensures hr.ErrorNone? ==> hasOwnProcess == !(old(bus.connected) && a.before)
      ensures !hr.ErrorNone? ==> Unconfigured() && bus.handlers == old(bus.handlers) && s.refs == old(s.refs)
      ensures !hr.ErrorNone? ==> (bus.connected == old(bus.connected) <==> ConnectionKept(old(bus.connected), a))
    {
      service := s;
      s.AddRef();
      var initialized := InitializeIARM(a);
      if !initialized {
        s.Release();
        service := null;
        return ErrorGeneral;
      }
      var connected := bus.IsConnected(a.after);
      if !connected {
        DeinitializeIARM();
        s.Release();
        service := null;
        return ErrorGeneral;
      }
      return ErrorNone;
    }

    // -------------------------------------------------------------- lifetime

    /** The destructor: the bus first, then the observers, then the service. */
    method Destroy()
      requires Installed() && AllAlive() && (service != null ==> service.refs > 0)
      modifies this, bus, host`refs, service
      ensures notifications == [] && Unconfigured() && refs == old(refs)
      ensures View() == old(View()).Destroy()
      ensures bus.undone == old(bus.undone) + Removals(old(handlersRegistered)) + ClosingOwn(old(hasOwnProcess))
      ensures bus.handlers == old(Others()) && bus.connected == (old(bus.connected) && !old(hasOwnProcess))
      ensures old(service) != null ==>
                && old(service).refs == old(service.refs) - 1
                && unchanged(old(service)`connectionSinks, old(service)`connectionRefs)
                && unchanged(old(service)`terminations, old(service)`submissions)
    {
      DeinitializeIARM();
      var i := 0;
      while i < |notifications|
        invariant 0 <= i <= |notifications|
        invariant host.refs == ReleaseAll(old(host.refs), notifications[..i])
        modifies host`refs
      {
        ReleaseAllStep(old(host.refs), notifications, i);
        host.Release(notifications[i]);
        i := i + 1;
      }
      assert notifications[..i] == notifications;
      notifications := [];
      if service != null {
        service.Release();
        service := null;
      }
    }

    method AddRef()
      modifies this`refs
      ensures refs == old(refs) + 1
    {
      refs := refs + 1;
    }

    /** The last release runs the destructor. */
    method Release() returns (left: nat)
      requires refs > 0
      requires Installed() && AllAlive() && (service != null ==> service.refs > 0)
      modifies this, bus, host`refs, service
      ensures left == refs == old(refs) - 1
      ensures left > 0 ==> unchanged(this`service, this`notifications, this`hasOwnProcess, this`handlersRegistered)
      ensures left > 0 ==> unchanged(bus) && unchanged(host) && (service != null ==> unchanged(service))
      ensures left == 0 ==> notifications == [] && Unconfigured() && View() == old(View()).Destroy()
      ensures left == 0 ==>
                && bus.handlers == old(Others()) && bus.connected == (old(bus.connected) && !old(hasOwnProcess))
      ensures left == 0 && old(service) != null ==>
                && old(service).refs == old(service.refs) - 1
                && unchanged(old(service)`connectionSinks, old(service)`connectionRefs)
                && unchanged(old(service)`terminations, old(service)`submissions)
    {
      refs := refs - 1;
      if refs == 0 {
        Destroy();
      }
      left := refs;
    }
  }

  lemma {:induction false} WithoutAt(os: seq<Observer>, o: Observer, it: nat)
    requires it < |os| && os[it] == o && o !in os[..it]
    ensures Without(os, o) == os[..it] + os[it + 1..]
  {
    if it > 0 {
      assert os[0] in os[..it];
      assert os[1..][..it - 1] == os[..it][1..];
      WithoutAt(os[1..], o, it - 1);
    }
  }

  lemma AddRefAllStep(refs: Refs, os: seq<Observer>, i: nat)
    requires i < |os|
    ensures AddRefAll(refs, os[..i + 1]) == Observers.AddRef(AddRefAll(refs, os[..i]), os[i])
  {
    assert os[..i + 1][..i] == os[..i];
  }

  lemma ReleaseAllStep(refs: Refs, os: seq<Observer>, i: nat)
    requires i < |os| && NoDuplicates(os) && Positive(refs) && forall o :: o in os ==> o in refs
    ensures ReleaseAll(refs, os[..i + 1]) == Observers.Release(ReleaseAll(refs, os[..i]), os[i])
    ensures Count(ReleaseAll(refs, os[..i]), os[i]) > 0
  {
    assert os[..i + 1][..i] == os[..i];
    CountAfterReleaseAll(refs, os[..i]);
    assert os[i] !in os[..i];
  }

  lemma StillAlive(refs: Refs, os: seq<Observer>)
    requires NoDuplicates(os) && Positive(refs)
    ensures Positive(AddRefAll(refs, os)) && forall o :: o in os ==> o in AddRefAll(refs, os)
  {
    CountAfterAddRefAll(refs, os);
    forall o | o in os ensures o in AddRefAll(refs, os) {
      assert Count(AddRefAll(refs, os), o) > 0;
    }
  }
}
