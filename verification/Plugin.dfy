/** `RemoteControl`, the plugin shell: it acquires five resources in order, and gives all of them back. */
module Plugin {
  import opened Observers
  import opened Iarm
  import opened Implementation

  const NOT_CONFIGURED: string := "RemoteControl could not be configured"
  const NO_CONFIGURATION: string := "RemoteControl implementation did not provide a configuration interface"
  const NOT_REGISTERED: string := "RemoteControl failed to register notification handler"
  const NOT_INSTANTIATED: string := "RemoteControl could not be instantiated"

  /** How the world answers one `Initialize`. */
  datatype Replies = Replies(
    instantiated: bool,        // an implementation is created
    connectionId: nat,         // the connection it comes with
    configurable: bool,        // it provides the configuration interface
    bus: Answers,              // what the bus answers while it is configured
    registered: bool,          // the registration of the notification reaches it
    connection: bool)          // the connection can still be looked up when it is undone

  /** Whether `Initialize` succeeds. */
  ghost predicate Initializes(connected: bool, w: Replies) {
    w.instantiated && w.configurable && Configures(connected, w.bus) && w.registered
  }

  /** What goes wrong until an implementation is there and configured, if anything does. */
  ghost function CreationMessage(connected: bool, w: Replies): string {
    if !w.instantiated then NOT_INSTANTIATED
    else if !w.configurable then NO_CONFIGURATION
    else if !Configures(connected, w.bus) then NOT_CONFIGURED
    else ""
  }

  /** The message that `Initialize` returns. */
  ghost function Message(connected: bool, w: Replies): string {
    if CreationMessage(connected, w) != "" then CreationMessage(connected, w)
    else if !w.registered then NOT_REGISTERED
    else ""
  }

  /** The texts of the messages. */
  lemma MessagesAre(connected: bool, w: Replies)
    ensures !w.instantiated ==> Message(connected, w) == "RemoteControl could not be instantiated"
    ensures w.instantiated && !w.configurable ==>
              Message(connected, w) == "RemoteControl implementation did not provide a configuration interface"
    ensures w.instantiated && w.configurable && !Configures(connected, w.bus) ==>
              Message(connected, w) == "RemoteControl could not be configured"
    ensures w.instantiated && w.configurable && Configures(connected, w.bus) && !w.registered ==>
              Message(connected, w) == "RemoteControl failed to register notification handler"
  {
  }

  /** Whether the connection flag of the bus survives an `Initialize` and what undoes it. */
  ghost predicate Kept(connected: bool, w: Replies)
    requires w.bus.Valid()
  {
    w.instantiated && w.configurable ==> ConnectionKept(connected, w.bus)
  }

  ghost predicate Alive(r: Registry) {
    NoDuplicates(r.observers) && Positive(r.refs) && forall o :: o in r.observers ==> o in r.refs
  }

  lemma UnregisterKeepsAlive(r: Registry, o: Observer)
    requires Alive(r)
    ensures Alive(r.Unregister(o))
  {
    WithoutLaw(r.observers, o);
    CountLaws(r.refs, o);
  }

  class RemoteControl {
    const bus: IarmBus
    const host: ObserverHost
    const notification: Observer
    var service: Shell?
    var implementation: RemoteControlImplementation?
    var configure: RemoteControlImplementation?
    var connectionId: nat
    var jsonRegistered: bool

    constructor (bus: IarmBus, host: ObserverHost, notification: Observer)
      ensures this.bus == bus && this.host == host && this.notification == notification && Idle()
    {
      this.bus, this.host, this.notification := bus, host, notification;
      service, implementation, configure, connectionId, jsonRegistered := null, null, null, 0, false;
    }

    /** Everything that can be acquired is not held. */
    ghost predicate Idle()
      reads this
    {
      service == null && implementation == null && configure == null && connectionId == 0 && !jsonRegistered
    }

    /** Everything is held. */
    ghost predicate Active()
      reads this, implementation, bus, host
    {
      && service != null && implementation != null && configure == implementation && jsonRegistered
      && implementation.bus == bus && implementation.host == host && implementation.refs == 2
      && implementation.ConfiguredFor(service)
      && notification in implementation.notifications && implementation.AllAlive()
    }

    /** The connection is looked up, terminated and given back; looking it up may fail. */
    method TerminateConnection(s: Shell, available: bool)
      modifies s`connectionRefs, s`terminations
      ensures s.connectionRefs == old(s.connectionRefs)
      ensures s.terminations == old(s.terminations) + if available then 1 else 0
    {
      if available {
        s.connectionRefs := s.connectionRefs + 1;
        s.terminations := s.terminations + 1;
        s.connectionRefs := s.connectionRefs - 1;
      }
    }

    /** The implementation is there and belongs to this plugin; it is configured for `s` or not at all. */
    ghost predicate Holding(s: Shell)
      reads this, implementation, bus, host
    {
      && implementation != null && implementation.bus == bus && implementation.host == host
      && (configure == null || configure == implementation)
      && implementation.refs == (if configure == null then 1 else 2)
      && implementation.Installed() && implementation.AllAlive()
      && (implementation.service == null || implementation.service == s)
    }

    /** The first part of `Initialize`: an implementation is created and configured. */
    method Create(s: Shell, w: Replies) returns (message: string)
      requires Idle() && w.bus.Valid() && Positive(host.refs)
      modifies this, s`refs, s`connectionSinks, bus
      ensures message == CreationMessage(old(bus.connected), w)
      ensures service == s && !jsonRegistered && connectionId == w.connectionId
      ensures s.connectionSinks == old(s.connectionSinks) + 1
      ensures s.refs == old(s.refs) + if implementation != null && implementation.service != null then 2 else 1
      ensures implementation == null <==> !w.instantiated
      ensures configure == null <==> !w.instantiated || !w.configurable
      ensures configure == null ==> unchanged(bus)
      ensures implementation != null ==> Holding(s) && fresh(implementation) && implementation.notifications == []
      ensures implementation != null ==> implementation.Others() == old(bus.handlers)
      ensures implementation != null && configure == null ==> implementation.Unconfigured()
      ensures configure != null ==>
                if Configures(old(bus.connected), w.bus) then
                  && implementation.ConfiguredFor(s)
                  && implementation.hasOwnProcess == !(old(bus.connected) && w.bus.before)
                else
                  && implementation.Unconfigured()
                  && (bus.connected == old(bus.connected) <==> ConnectionKept(old(bus.connected), w.bus))
    {
      message := "";
      service := s;
      service.AddRef();
      service.connectionSinks := service.connectionSinks + 1;
      connectionId := w.connectionId;
      if w.instantiated {
        implementation := new RemoteControlImplementation(bus, host);
      }
      if implementation == null {
        return NOT_INSTANTIATED;
      }
      if w.configurable {
        implementation.AddRef();
        configure := implementation;
      }
      if configure != null {
        var result := configure.Configure(service, w.bus);
        if result != ErrorNone {
          message := NOT_CONFIGURED;
        }
      } else {
        message := NO_CONFIGURATION;
      }
    }

    /** The second part: once all went well so far, the notification is registered. */
    method RegisterNotification(s: Shell, reaches: bool) returns (message: string)
      requires Holding(s) && notification in host.refs && implementation.notifications == []
      modifies this`jsonRegistered, implementation`notifications, host`refs
      ensures message == if reaches then "" else NOT_REGISTERED
      ensures reaches ==>
                && jsonRegistered && implementation.notifications == [notification] && Holding(s)
                && host.refs == Observers.AddRef(old(host.refs), notification)
      ensures !reaches ==> unchanged(this) && unchanged(implementation) && unchanged(host)
    {
      message := "";
      var registerResult := ErrorGeneral;
      if reaches {
        registerResult := implementation.Register(Address(notification));
      }
      if registerResult != ErrorNone {
        message := NOT_REGISTERED;
      } else {
        jsonRegistered := true;
      }
    }

    /** The implementation and its configuration interface are given back, and the connection is terminated. */
    method ReleaseImplementation(s: Shell, connection: bool)
      requires Holding(s) && service == s && s.refs >= (if implementation.service != null then 2 else 1)
      modifies this`implementation, this`configure, implementation, s, bus, host`refs
      ensures implementation == null && configure == null
      ensures host.refs == old(implementation.View()).Destroy().refs
      ensures s.refs == old(s.refs) - old(if implementation.service != null then 1 else 0)
      ensures unchanged(s`connectionSinks) && unchanged(s`connectionRefs) && unchanged(s`submissions)
      ensures s.terminations == old(s.terminations) + if connection then 1 else 0
      ensures bus.handlers == old(implementation.Others())
      ensures bus.connected == (old(bus.connected) && !old(implementation.hasOwnProcess))
    {
      if configure != null {
        var left := configure.Release();
        configure := null;
      }
      var refCount := implementation.Release();
      implementation := null;
      TerminateConnection(s, connection);
    }

    /** What `Initialize` does when a step has failed. */
    method RollBack(s: Shell, connection: bool)
      requires service == s && !jsonRegistered && s.connectionSinks > 0
      requires implementation != null ==> Holding(s) && implementation.notifications == []
      requires implementation == null ==> configure == null
      requires s.refs >= if implementation != null && implementation.service != null then 2 else 1
      modifies this, implementation, s, bus, host`refs
      ensures Idle() && host.refs == old(host.refs)
      ensures s.refs == old(s.refs) - old(if implementation != null && implementation.service != null then 2 else 1)
      ensures s.connectionSinks == old(s.connectionSinks) - 1 && s.connectionRefs == old(s.connectionRefs)
      ensures s.terminations == old(s.terminations) + (if old(implementation) != null && connection then 1 else 0)
      ensures s.submissions == old(s.submissions)
      ensures old(implementation) == null ==> unchanged(bus)
      ensures old(implementation) != null ==>
                && bus.handlers == old(implementation.Others())
                && bus.connected == (old(bus.connected) && !old(implementation.hasOwnProcess))
    {
      if implementation != null {
        ReleaseImplementation(s, connection);
      }
      connectionId := 0;
      service.connectionSinks := service.connectionSinks - 1;
      service.Release();
      service := null;
    }

    method Initialize(s: Shell, w: Replies) returns (message: string)
      requires Idle() && w.bus.Valid() && Positive(host.refs) && notification in host.refs
      modifies this, s, bus, host`refs
      ensures message == Message(old(bus.connected), w)
      ensures message == "" <==> Initializes(old(bus.connected), w)
      ensures message == "" ==>
                && Active() && service == s && fresh(implementation) && s.refs == old(s.refs) + 2
                && s.connectionSinks == old(s.connectionSinks) + 1
                && host.refs == Observers.AddRef(old(host.refs), notification)
                && implementation.notifications == [notification] && implementation.Others() == old(bus.handlers)
                && implementation.hasOwnProcess == !(old(bus.connected) && w.bus.before)
                && connectionId == w.connectionId
      ensures message != "" ==>
                && Idle() && s.refs == old(s.refs) && s.connectionSinks == old(s.connectionSinks)
                && host.refs == old(host.refs) && bus.handlers == old(bus.handlers)
                && (bus.connected == old(bus.connected) <==> Kept(old(bus.connected), w))
      ensures s.connectionRefs == old(s.connectionRefs) && s.submissions == old(s.submissions)
      ensures s.terminations == old(s.terminations) + if message != "" && w.instantiated && w.connection then 1 else 0
    {
      message := Create(s, w);
      if message == "" {
        message := RegisterNotification(s, w.registered);
      }
      if message != "" {
        RollBack(s, w.connection);
      }
    }

    method Deinitialize(s: Shell, connection: bool)
      requires Idle() || Active()
      requires Active() ==> service.refs >= 2 && service.connectionSinks > 0
      modifies this, implementation, s, bus, host`refs
      ensures old(service) != s ==> unchanged(this) && unchanged(s) && unchanged(bus) && unchanged(host)
      ensures old(service) != s ==> (old(implementation) != null ==> unchanged(old(implementation)))
      ensures old(service) == s ==>
                && Idle() && s.refs == old(s.refs) - 2 && s.connectionSinks == old(s.connectionSinks) - 1
                && s.connectionRefs == old(s.connectionRefs) && s.submissions == old(s.submissions)
                && s.terminations == old(s.terminations) + (if connection then 1 else 0)
                && host.refs == old(implementation.View()).Unregister(notification).Destroy().refs
                && bus.handlers == old(implementation.Others())
                && bus.connected == (old(bus.connected) && !old(implementation.hasOwnProcess))
    {
      if service != s {
        return;
      }
      service.connectionSinks := service.connectionSinks - 1;
      if implementation != null {
        UnregisterKeepsAlive(implementation.View(), notification);
        var hr := implementation.Unregister(Address(notification));
        jsonRegistered := false;
        ReleaseImplementation(s, connection);
      }
      connectionId := 0;
      service.Release();
      service := null;
    }

    /** A lost connection asks the host to deactivate the plugin, if it is the plugin's own connection. */
    method Deactivated(id: nat) returns (submitted: bool)
      modifies service
      ensures submitted <==> id == connectionId && service != null
      ensures service != null ==>
                && service.refs == old(service.refs)
                && service.submissions == old(service.submissions) + (if submitted then 1 else 0)
                && unchanged(service`connectionSinks, service`connectionRefs, service`terminations)
    {
      submitted := false;
      if id == connectionId {
        if service != null {
          service.AddRef();
          service.submissions := service.submissions + 1;
          submitted := true;
          service.Release();
        }
      }
    }
  }

  // ---------------------------------------------------------------- whole runs

  /** What may happen to the plugin, in any order. */
  datatype Operation =
    | Start(w: Replies)
    | Stop(connection: bool)
    | Subscribe(client: Observer)
    | Unsubscribe(client: Observer)
    | Raise(e: Event)
    | LoseConnection(id: nat)

  /** The counters and registrations before the plugin acquires anything. */
  datatype Books = Books(refs: nat, sinks: nat, connectionRefs: nat, observers: Refs, handlers: seq<EventId>)

  /** Every counter is what it was, plus exactly what the plugin holds. */
  ghost predicate Balanced(p: RemoteControl, s: Shell, b: Books)
    reads p, p.implementation, p.bus, p.host, s
  {
    && s.connectionRefs == b.connectionRefs && Positive(b.observers) && p.notification in b.observers
    && if p.service == null then
         && p.Idle() && s.refs == b.refs && s.connectionSinks == b.sinks
         && p.host.refs == b.observers && p.bus.handlers == b.handlers
       else
         && p.Active() && p.service == s && s.refs == b.refs + 2 && s.connectionSinks == b.sinks + 1
         && (forall o :: Count(p.host.refs, o) == Count(b.observers, o) + One(o in p.implementation.notifications))
         && p.implementation.Others() == b.handlers
  }

  /**
    * What can be seen of the plugin: the connection flag of the bus, whether the plugin is active, whether it takes the
    * connection for its own, its observers, its connection, and what the host and the observers have been told.
    */
  datatype Course = Course(connected: bool, active: bool, own: bool, observers: seq<Observer>, connectionId: nat,
                           terminations: nat, submissions: nat, callbacks: seq<Callback>)

  ghost function CourseOf(p: RemoteControl, s: Shell): Course
    reads p, p.implementation, p.bus, p.host, s
  {
    Course(p.bus.connected, p.service != null, p.implementation != null && p.implementation.hasOwnProcess,
           if p.implementation != null then p.implementation.notifications else [], p.connectionId,
           s.terminations, s.submissions, p.host.callbacks)
  }

  ghost function AfterStart(k: Course, w: Replies, notification: Observer): Course
    requires w.bus.Valid()
  {
    if Initializes(k.connected, w) then
      k.(connected := true, active := true, own := !(k.connected && w.bus.before), observers := [notification],
         connectionId := w.connectionId)
    else
      k.(connected := Kept(k.connected, w) <==> k.connected,
         terminations := k.terminations + if w.instantiated && w.connection then 1 else 0)
  }

  ghost function AfterStop(k: Course, connection: bool): Course {
    k.(connected := k.connected && !k.own, active := false, own := false, observers := [], connectionId := 0,
       terminations := k.terminations + if connection then 1 else 0)
  }

  /** A start only happens to an idle plugin, all else only to an active one. */
  ghost function AfterOperation(k: Course, op: Operation, notification: Observer): Course
    requires op.Start? ==> op.w.bus.Valid()
  {
    match op
    case Start(w) => if k.active then k else AfterStart(k, w, notification)
    case Stop(connection) => if k.active then AfterStop(k, connection) else k
    case Subscribe(o) => if k.active && o !in k.observers then k.(observers := k.observers + [o]) else k
    case Unsubscribe(o) => if k.active && o in k.observers then k.(observers := Without(k.observers, o)) else k
    case Raise(e) => if k.active then k.(callbacks := k.callbacks + CallEach(k.observers, e)) else k
    case LoseConnection(id) => if k.active && id == k.connectionId then k.(submissions := k.submissions + 1) else k
  }

  /** The bus can answer whatever a start asks. */
  predicate Answerable(ops: seq<Operation>) {
    forall i :: 0 <= i < |ops| && ops[i].Start? ==> ops[i].w.bus.Valid()
  }

  ghost function AfterAll(k: Course, ops: seq<Operation>, notification: Observer): Course
    requires Answerable(ops)
  {
    if ops == [] then k
    else AfterOperation(AfterAll(k, ops[..|ops| - 1], notification), ops[|ops| - 1], notification)
  }

  ghost predicate KeptByAll(connected: bool, ops: seq<Operation>)
    requires Answerable(ops)
  {
    forall i :: 0 <= i < |ops| && ops[i].Start? ==> Kept(connected, ops[i].w)
  }

  /** Apart from a connection that the active plugin owns, the flag is `connected`. */
  predicate FlagIs(k: Course, connected: bool) {
    (k.connected && !k.own) == connected && (k.own ==> k.active)
  }

  /** When each start keeps the connection flag, it is what it was, apart from a connection that the plugin still owns. */
  lemma {:induction false} FlagIsKept(k: Course, ops: seq<Operation>, notification: Observer)
    requires Answerable(ops) && KeptByAll(k.connected, ops) && !k.active && !k.own
    ensures FlagIs(AfterAll(k, ops, notification), k.connected)
  {
    if ops != [] {
      FlagIsKept(k, ops[..|ops| - 1], notification);
      FlagStep(AfterAll(k, ops[..|ops| - 1], notification), ops[|ops| - 1], notification, k.connected);
    }
  }

  lemma FlagStep(k: Course, op: Operation, notification: Observer, connected: bool)
    requires FlagIs(k, connected) && (op.Start? ==> op.w.bus.Valid() && Kept(connected, op.w))
    ensures FlagIs(AfterOperation(k, op, notification), connected)
  {
  }

  lemma DestroyBalances(r: Registry, base: Refs)
    requires Alive(r) && Positive(base)
    requires forall o :: Count(r.refs, o) == Count(base, o) + One(o in r.observers)
    ensures r.Destroy().refs == base
  {
    CountAfterReleaseAll(r.refs, r.observers);
    SameCounts(r.Destroy().refs, base);
  }

  lemma RegisterBalances(r: Registry, base: Refs, o: Observer)
    requires Alive(r) && o in r.refs
    requires forall x :: Count(r.refs, x) == Count(base, x) + One(x in r.observers)
    ensures Alive(r.Register(o))
    ensures forall x :: Count(r.Register(o).refs, x) == Count(base, x) + One(x in r.Register(o).observers)
  {
    CountLaws(r.refs, o);
    assert forall x :: x in r.observers + [o] <==> x in r.observers || x == o;
  }

  lemma UnregisterBalances(r: Registry, base: Refs, o: Observer)
    requires Alive(r)
    requires forall x :: Count(r.refs, x) == Count(base, x) + One(x in r.observers)
    ensures Alive(r.Unregister(o))
    ensures forall x :: Count(r.Unregister(o).refs, x) == Count(base, x) + One(x in r.Unregister(o).observers)
  {
    UnregisterKeepsAlive(r, o);
    WithoutLaw(r.observers, o);
    CountLaws(r.refs, o);
  }

  method DoStart(p: RemoteControl, s: Shell, w: Replies, ghost b: Books)
    requires p.service == null && Balanced(p, s, b) && w.bus.Valid()
    modifies p, s, p.bus, p.host`refs
    ensures Balanced(p, s, b) && (p.implementation == null || fresh(p.implementation))
    ensures p.service != null <==> Initializes(old(p.bus.connected), w)
    ensures CourseOf(p, s) == AfterStart(old(CourseOf(p, s)), w, p.notification)
  {
    RegisterBalances(Registry([], p.host.refs), b.observers, p.notification);
    var message := p.Initialize(s, w);
  }

  method DoStop(p: RemoteControl, s: Shell, connection: bool, ghost b: Books)
    requires Balanced(p, s, b)
    modifies p, p.implementation, s, p.bus, p.host`refs
    ensures Balanced(p, s, b) && p.service == null && p.implementation == null
    ensures old(p.service) != null ==> CourseOf(p, s) == AfterStop(old(CourseOf(p, s)), connection)
    ensures old(p.service) == null ==> unchanged(p) && unchanged(s) && unchanged(p.bus) && unchanged(p.host)
  {
    if p.service != null {
      UnregisterBalances(p.implementation.View(), b.observers, p.notification);
      DestroyBalances(p.implementation.View().Unregister(p.notification), b.observers);
    }
    p.Deinitialize(s, connection);
  }

  method DoSubscribe(p: RemoteControl, s: Shell, client: Observer, ghost b: Books)
    requires p.service != null && Balanced(p, s, b) && client in b.observers
    modifies p.implementation, p.host
    ensures Balanced(p, s, b) && p.service == old(p.service)
    ensures CourseOf(p, s) == AfterOperation(old(CourseOf(p, s)), Subscribe(client), p.notification)
  {
    assert Count(p.host.refs, client) > 0;
    RegisterBalances(p.implementation.View(), b.observers, client);
    var hr := p.implementation.Register(Address(client));
  }

  method DoUnsubscribe(p: RemoteControl, s: Shell, client: Observer, ghost b: Books)
    requires p.service != null && Balanced(p, s, b) && client != p.notification
    modifies p.implementation, p.host
    ensures Balanced(p, s, b) && p.service == old(p.service)
    ensures CourseOf(p, s) == AfterOperation(old(CourseOf(p, s)), Unsubscribe(client), p.notification)
  {
    UnregisterBalances(p.implementation.View(), b.observers, client);
    WithoutLaw(p.implementation.notifications, client);
    var hr := p.implementation.Unregister(Address(client));
  }

  /** A client registers or unregisters an observer of its own, or an event comes in. */
  method DoServe(p: RemoteControl, s: Shell, op: Operation, ghost b: Books)
    requires p.service != null && Balanced(p, s, b) && (op.Subscribe? || op.Unsubscribe? || op.Raise?)
    requires op.Subscribe? ==> op.client in b.observers
    requires op.Unsubscribe? ==> op.client != p.notification
    modifies p.implementation, p.host
    ensures Balanced(p, s, b) && p.service == old(p.service)
    ensures CourseOf(p, s) == AfterOperation(old(CourseOf(p, s)), op, p.notification)
  {
    match op
    case Subscribe(client) => DoSubscribe(p, s, client, b);
    case Unsubscribe(client) => DoUnsubscribe(p, s, client, b);
    case Raise(e) => p.implementation.Notify(e);
  }

  /** One operation of the host, of a client or of the bus; what cannot happen in the current state does not. */
  method Perform(p: RemoteControl, s: Shell, op: Operation, ghost b: Books)
    requires Balanced(p, s, b)
    requires op.Start? ==> op.w.bus.Valid()
    requires op.Subscribe? ==> op.client in b.observers
    requires op.Unsubscribe? ==> op.client != p.notification
    modifies p, p.implementation, s, p.bus, p.host
    ensures Balanced(p, s, b) && (p.implementation == null || p.implementation == old(p.implementation) || fresh(p.implementation))
    ensures CourseOf(p, s) == AfterOperation(old(CourseOf(p, s)), op, p.notification)
  {
    if op.Start? {
      if p.service == null {
        DoStart(p, s, op.w, b);
      }
    } else if op.Stop? {
      DoStop(p, s, op.connection, b);
    } else if op.LoseConnection? {
      var submitted := p.Deactivated(op.id);
    } else if p.service != null {
      DoServe(p, s, op, b);
    }
  }

  /**
    * Any sequence of operations, with any pattern of failures: the plugin is idle or active after each of them, and
    * whenever it is idle, every counter and every registration is what it was at the beginning. The connection flag of
    * the bus, the observers, the callbacks, and what the host is told take exactly the course of `AfterAll`; the flag is
    * what it was when each start keeps it.
    */
  method Run(p: RemoteControl, s: Shell, ops: seq<Operation>)
    requires p.Idle() && Positive(p.host.refs) && p.notification in p.host.refs && Answerable(ops)
    requires forall i :: 0 <= i < |ops| && ops[i].Subscribe? ==> ops[i].client in p.host.refs
    requires forall i :: 0 <= i < |ops| && ops[i].Unsubscribe? ==> ops[i].client != p.notification
    modifies p, s, p.bus, p.host
    ensures p.Idle() || p.Active()
    ensures p.service == null ==>
              && p.Idle() && s.refs == old(s.refs) && s.connectionSinks == old(s.connectionSinks)
              && s.connectionRefs == old(s.connectionRefs) && p.host.refs == old(p.host.refs)
              && p.bus.handlers == old(p.bus.handlers)
    ensures p.service != null ==>
              && p.Active() && s.refs == old(s.refs) + 2 && s.connectionSinks == old(s.connectionSinks) + 1
              && p.implementation.Others() == old(p.bus.handlers)
    ensures CourseOf(p, s) == AfterAll(old(CourseOf(p, s)), ops, p.notification)
    ensures p.service == null && KeptByAll(old(p.bus.connected), ops) ==> p.bus.connected == old(p.bus.connected)
  {
    ghost var b := Books(s.refs, s.connectionSinks, s.connectionRefs, p.host.refs, p.bus.handlers);
    ghost var start := CourseOf(p, s);
    var i := 0;
    while i < |ops|
      invariant 0 <= i <= |ops|
      invariant Balanced(p, s, b) && (p.implementation == null || fresh(p.implementation))
      invariant CourseOf(p, s) == AfterAll(start, ops[..i], p.notification)
    {
      assert ops[..i + 1][..i] == ops[..i];
      Perform(p, s, ops[i], b);
      i := i + 1;
    }
    assert ops[..i] == ops;
    if KeptByAll(start.connected, ops) {
      FlagIsKept(start, ops, p.notification);
    }
  }

  // ---------------------------------------------------------------- the connection flag of the bus

  /**
    * A start and what undoes it, whether it failed or succeeded: all is given back, and the connection flag is what it
    * was exactly when the start keeps it.
    */
  method StartAndStop(p: RemoteControl, s: Shell, w: Replies, connection: bool)
    requires p.Idle() && w.bus.Valid() && Positive(p.host.refs) && p.notification in p.host.refs
    modifies p, s, p.bus, p.host
    ensures p.Idle() && s.refs == old(s.refs) && s.connectionSinks == old(s.connectionSinks)
    ensures s.connectionRefs == old(s.connectionRefs) && p.host.refs == old(p.host.refs)
    ensures p.bus.handlers == old(p.bus.handlers)
    ensures var found := if Initializes(old(p.bus.connected), w) then connection else w.instantiated && w.connection;
            s.terminations == old(s.terminations) + if found then 1 else 0
    ensures p.bus.connected == old(p.bus.connected) <==> Kept(old(p.bus.connected), w)
    ensures w.bus.before && (forall k :: 0 <= k < ATTEMPTS ==> w.bus.attempts[k].answered) ==>
              p.bus.connected == old(p.bus.connected)
  {
    ghost var b := Books(s.refs, s.connectionSinks, s.connectionRefs, p.host.refs, p.bus.handlers);
    if w.bus.before && forall k :: 0 <= k < ATTEMPTS ==> w.bus.attempts[k].answered {
      AnsweredQueriesKeepConnection(p.bus.connected, w.bus);
    }
    DoStart(p, s, w, b);
    DoStop(p, s, connection, b);
  }

  /** The first query is not answered: the plugin closes a connection that others made. */
  method CloseConnectionOfOthers(p: RemoteControl, s: Shell, attempts: seq<Attempt>)
    requires p.Idle() && Positive(p.host.refs) && p.notification in p.host.refs
    requires p.bus.connected && |attempts| == ATTEMPTS
    modifies p, s, p.bus, p.host
    ensures p.Idle() && !p.bus.connected
  {
    UnansweredQueryLosesConnection(attempts);
    var a := Answers(false, true, attempts, [true, true, true, true, true], true);
    StartAndStop(p, s, Replies(true, 1, true, a, true, true), true);
  }

  /** No attempt to connect is confirmed: the plugin leaves a connection behind that it made. */
  method LeaveConnectionBehind(p: RemoteControl, s: Shell)
    requires p.Idle() && Positive(p.host.refs) && p.notification in p.host.refs && !p.bus.connected
    modifies p, s, p.bus, p.host
    ensures p.Idle() && p.bus.connected
  {
    UnconfirmedConnectionIsLeft();
    StartAndStop(p, s, Replies(true, 1, true, UNCONFIRMED, true, true), true);
  }
}
