/**
  * Observers, their reference counters, and the event fan-out of `RemoteControlImplementation`, as a transition system:
  * a section under the lock is one step, and so is each callback and each release outside the lock. Any number of
  * threads and observers take part, and their steps interleave freely.
  */
module Observers {

  /** The address of an `INotification` object. */
  type Observer = nat

  type Thread = nat

  // ---------------------------------------------------------------- reference counters

  /** The counters of the living observers; one whose counter reaches zero is destroyed and has no entry. */
  type Refs = map<Observer, nat>

  function Count(refs: Refs, o: Observer): nat {
    if o in refs then refs[o] else 0
  }

  function AddRef(refs: Refs, o: Observer): Refs {
    refs[o := Count(refs, o) + 1]
  }

  function Release(refs: Refs, o: Observer): Refs {
    if Count(refs, o) <= 1 then refs - {o} else refs[o := refs[o] - 1]
  }

  function AddRefAll(refs: Refs, os: seq<Observer>): Refs {
    if os == [] then refs else AddRef(AddRefAll(refs, os[..|os| - 1]), os[|os| - 1])
  }

  function ReleaseAll(refs: Refs, os: seq<Observer>): Refs {
    if os == [] then refs else Release(ReleaseAll(refs, os[..|os| - 1]), os[|os| - 1])
  }

  ghost predicate Positive(refs: Refs) {
    forall o :: o in refs ==> refs[o] > 0
  }

  ghost predicate NoDuplicates(os: seq<Observer>) {
    forall i, j :: 0 <= i < j < |os| ==> os[i] != os[j]
  }

  function One(b: bool): nat {
    if b then 1 else 0
  }

  lemma PrefixOf(os: seq<Observer>)
    requires NoDuplicates(os) && os != []
    ensures NoDuplicates(os[..|os| - 1]) && os[|os| - 1] !in os[..|os| - 1]
    ensures forall o :: o in os <==> o in os[..|os| - 1] || o == os[|os| - 1]
  {
    assert os == os[..|os| - 1] + [os[|os| - 1]];
  }

  lemma {:induction false} CountAfterAddRefAll(refs: Refs, os: seq<Observer>)
    requires NoDuplicates(os) && Positive(refs)
    ensures Positive(AddRefAll(refs, os))
    ensures forall o :: Count(AddRefAll(refs, os), o) == Count(refs, o) + One(o in os)
  {
    if os != [] {
      PrefixOf(os);
      CountAfterAddRefAll(refs, os[..|os| - 1]);
    }
  }

  lemma {:induction false} CountAfterReleaseAll(refs: Refs, os: seq<Observer>)
    requires NoDuplicates(os) && Positive(refs)
    requires forall o :: o in os ==> o in refs
    ensures Positive(ReleaseAll(refs, os))
    ensures forall o :: Count(ReleaseAll(refs, os), o) == Count(refs, o) - One(o in os)
  {
    if os != [] {
      PrefixOf(os);
      CountAfterReleaseAll(refs, os[..|os| - 1]);
      assert os[|os| - 1] in os;
      assert Count(ReleaseAll(refs, os[..|os| - 1]), os[|os| - 1]) > 0;
    }
  }

  lemma SameCounts(a: Refs, b: Refs)
    requires Positive(a) && Positive(b)
    requires forall o :: Count(a, o) == Count(b, o)
    ensures a == b
  {
    forall o ensures o in a <==> o in b {
      assert Count(a, o) == Count(b, o);
    }
    forall o | o in a ensures a[o] == b[o] {
      assert Count(a, o) == Count(b, o);
    }
  }

  /** Taking a snapshot and releasing it again leaves every counter as it was. */
  lemma SnapshotIsNeutral(refs: Refs, os: seq<Observer>)
    requires NoDuplicates(os) && Positive(refs)
    ensures ReleaseAll(AddRefAll(refs, os), os) == refs
  {
    CountAfterAddRefAll(refs, os);
    forall o | o in os ensures o in AddRefAll(refs, os) {
      assert Count(AddRefAll(refs, os), o) == Count(refs, o) + 1;
    }
    CountAfterReleaseAll(AddRefAll(refs, os), os);
    SameCounts(ReleaseAll(AddRefAll(refs, os), os), refs);
  }

  // ---------------------------------------------------------------- the registry

  function Without(os: seq<Observer>, o: Observer): seq<Observer> {
    if os == [] then [] else if os[0] == o then os[1..] else [os[0]] + Without(os[1..], o)
  }

  lemma {:induction false} WithoutLaw(os: seq<Observer>, o: Observer)
    requires NoDuplicates(os)
    ensures NoDuplicates(Without(os, o))
    ensures forall x :: x in Without(os, o) <==> x in os && x != o
  {
    if os != [] {
      assert os == [os[0]] + os[1..];
      if os[0] != o {
        WithoutLaw(os[1..], o);
        assert os[0] !in os[1..];
        var rest := Without(os[1..], o);
        assert forall x :: x in [os[0]] + rest <==> x == os[0] || x in rest;
      } else {
        assert o !in os[1..];
      }
    }
  }

  /** The vector of registered observers, together with the counters of all observers. */
  datatype Registry = Registry(observers: seq<Observer>, refs: Refs) {
    function Register(o: Observer): Registry {
      if o in observers then this else Registry(observers + [o], AddRef(refs, o))
    }

    function Unregister(o: Observer): Registry {
      if o !in observers then this else Registry(Without(observers, o), Release(refs, o))
    }

    /** The part of the destructor that concerns the observers. */
    function Destroy(): Registry {
      Registry([], ReleaseAll(refs, observers))
    }
  }

  // ---------------------------------------------------------------- the transition system

  /** A thread inside one of the `Notify` functions: how many of its snapshot it has called, and released again. */
  datatype Fanout = Fanout(snapshot: seq<Observer>, called: nat, released: nat)

  /** `held` counts the references that others than the implementation hold. */
  datatype World = World(registry: Registry, held: Refs, fanouts: map<Thread, Fanout>)

  datatype Step =
    | Create(o: Observer)      // a new observer appears; its creator holds the first reference
    | Acquire(o: Observer)     // a reference to a living observer is taken, by its own callback for example
    | Drop(o: Observer)        // a holder gives its reference up
    | Register(o: Observer)
    | Unregister(o: Observer)
    | Snapshot(t: Thread)
    | Call(t: Thread)
    | ReleaseOne(t: Thread)
    | Finish(t: Thread)

  /**
    * What can happen next. Taking a reference and registering only need the observer to be alive: its own callback can
    * do both when the snapshot of that fan-out holds the last reference.
    */
  predicate Enabled(w: World, s: Step) {
    match s
    case Create(o) => o !in w.registry.refs
    case Acquire(o) => o in w.registry.refs
    case Drop(o) => Count(w.held, o) > 0
    case Register(o) => o in w.registry.refs
    case Unregister(_) => true
    case Snapshot(t) => t !in w.fanouts
    case Call(t) => t in w.fanouts && w.fanouts[t].called < |w.fanouts[t].snapshot|
    case ReleaseOne(t) =>
      t in w.fanouts && w.fanouts[t].called == |w.fanouts[t].snapshot| && w.fanouts[t].released < |w.fanouts[t].snapshot|
    case Finish(t) =>
      t in w.fanouts && w.fanouts[t].called == w.fanouts[t].released == |w.fanouts[t].snapshot|
  }

  function Next(w: World, s: Step): World
    requires Enabled(w, s)
  {
    match s
    case Create(o) =>
      w.(registry := w.registry.(refs := AddRef(w.registry.refs, o)), held := AddRef(w.held, o))
    case Acquire(o) =>
      w.(registry := w.registry.(refs := AddRef(w.registry.refs, o)), held := AddRef(w.held, o))
    case Drop(o) =>
      w.(registry := w.registry.(refs := Release(w.registry.refs, o)), held := Release(w.held, o))
    case Register(o) => w.(registry := w.registry.Register(o))
    case Unregister(o) => w.(registry := w.registry.Unregister(o))
    case Snapshot(t) =>
      w.(registry := w.registry.(refs := AddRefAll(w.registry.refs, w.registry.observers)),
         fanouts := w.fanouts[t := Fanout(w.registry.observers, 0, 0)])
    case Call(t) =>
      w.(fanouts := w.fanouts[t := w.fanouts[t].(called := w.fanouts[t].called + 1)])
    case ReleaseOne(t) =>
      var f := w.fanouts[t];
      w.(registry := w.registry.(refs := Release(w.registry.refs, f.snapshot[f.released])),
         fanouts := w.fanouts[t := f.(released := f.released + 1)])
    case Finish(t) => w.(fanouts := w.fanouts - {t})
  }

  // ---------------------------------------------------------------- the ledger

  /** The threads whose snapshot still holds a reference to `o`. */
  function InFlight(fanouts: map<Thread, Fanout>, o: Observer): set<Thread> {
    set t | t in fanouts && fanouts[t].released <= |fanouts[t].snapshot| && o in fanouts[t].snapshot[fanouts[t].released..]
  }

  ghost predicate GoodFanout(f: Fanout) {
    && NoDuplicates(f.snapshot)
    && f.called <= |f.snapshot| && f.released <= |f.snapshot|
    && (f.released > 0 ==> f.called == |f.snapshot|)
  }

  /** Every reference is accounted for. */
  ghost predicate Ledger(w: World) {
    forall o :: Count(w.registry.refs, o)
             == Count(w.held, o) + One(o in w.registry.observers) + |InFlight(w.fanouts, o)|
  }

  ghost predicate Inv(w: World) {
    && NoDuplicates(w.registry.observers)
    && Positive(w.registry.refs) && Positive(w.held)
    && (forall t :: t in w.fanouts ==> GoodFanout(w.fanouts[t]))
    && Ledger(w)
  }

  lemma CountLaws(refs: Refs, o: Observer)
    requires Positive(refs)
    ensures Positive(AddRef(refs, o)) && Positive(Release(refs, o))
    ensures forall x :: Count(AddRef(refs, o), x) == Count(refs, x) + One(x == o)
    ensures Count(refs, o) > 0 ==> forall x :: Count(Release(refs, o), x) == Count(refs, x) - One(x == o)
  {
  }

  /** An observer that is registered, held, or in flight is alive. */
  lemma AccountedIsAlive(w: World, o: Observer)
    requires Inv(w)
    requires o in w.registry.observers || Count(w.held, o) > 0 || InFlight(w.fanouts, o) != {}
    ensures o in w.registry.refs
  {
    assert Count(w.registry.refs, o) == Count(w.held, o) + One(o in w.registry.observers) + |InFlight(w.fanouts, o)|;
  }

  lemma StepOutside(w: World, s: Step)
    requires Inv(w) && Enabled(w, s) && (s.Create? || s.Acquire? || s.Drop?)
    ensures Inv(Next(w, s))
  {
    var o := s.o;
    CountLaws(w.registry.refs, o);
    CountLaws(w.held, o);
    if s.Drop? {
      AccountedIsAlive(w, o);
    }
    var w' := Next(w, s);
    forall x ensures Count(w'.registry.refs, x)
                  == Count(w'.held, x) + One(x in w'.registry.observers) + |InFlight(w'.fanouts, x)| {
      assert Count(w.registry.refs, x) == Count(w.held, x) + One(x in w.registry.observers) + |InFlight(w.fanouts, x)|;
    }
  }

  lemma StepRegister(w: World, o: Observer)
    requires Inv(w) && Enabled(w, Register(o))
    ensures Inv(Next(w, Register(o)))
  {
    CountLaws(w.registry.refs, o);
    var w' := Next(w, Register(o));
    if o !in w.registry.observers {
      var os := w.registry.observers + [o];
      assert forall x :: x in os <==> x in w.registry.observers || x == o;
      forall x ensures Count(w'.registry.refs, x)
                    == Count(w'.held, x) + One(x in w'.registry.observers) + |InFlight(w'.fanouts, x)| {
        assert Count(w.registry.refs, x) == Count(w.held, x) + One(x in w.registry.observers) + |InFlight(w.fanouts, x)|;
      }
    }
  }

  lemma StepUnregister(w: World, o: Observer)
    requires Inv(w)
    ensures Inv(Next(w, Unregister(o)))
  {
    CountLaws(w.registry.refs, o);
    var w' := Next(w, Unregister(o));
    if o in w.registry.observers {
      AccountedIsAlive(w, o);
      WithoutLaw(w.registry.observers, o);
      forall x ensures Count(w'.registry.refs, x)
                    == Count(w'.held, x) + One(x in w'.registry.observers) + |InFlight(w'.fanouts, x)| {
        assert Count(w.registry.refs, x) == Count(w.held, x) + One(x in w.registry.observers) + |InFlight(w.fanouts, x)|;
      }
    }
  }

  lemma InFlightAfterSnapshot(fanouts: map<Thread, Fanout>, t: Thread, os: seq<Observer>, o: Observer)
    requires t !in fanouts
    ensures |InFlight(fanouts[t := Fanout(os, 0, 0)], o)| == |InFlight(fanouts, o)| + One(o in os)
  {
    OthersInFlight(fanouts, t, Fanout(os, 0, 0), o);
    var before, after := InFlight(fanouts, o), InFlight(fanouts[t := Fanout(os, 0, 0)], o);
    assert os[0..] == os;
    assert t !in before && (t in after <==> o in os);
    MembersOf(before, after, t);
  }

  /** Changing the fan-out of one thread does not concern the others. */
  lemma OthersInFlight(fanouts: map<Thread, Fanout>, t: Thread, f: Fanout, o: Observer)
    ensures forall u :: u != t ==> (u in InFlight(fanouts[t := f], o) <==> u in InFlight(fanouts, o))
  {
  }

  lemma MembersOf(before: set<Thread>, after: set<Thread>, t: Thread)
    requires forall u :: u != t ==> (u in after <==> u in before)
    ensures |after| == |before| - One(t in before) + One(t in after)
  {
    assert after - {t} == before - {t};
    assert t in after ==> after == (after - {t}) + {t};
    assert t in before ==> before == (before - {t}) + {t};
  }

  lemma StepSnapshot(w: World, t: Thread)
    requires Inv(w) && Enabled(w, Snapshot(t))
    ensures Inv(Next(w, Snapshot(t)))
  {
    var os := w.registry.observers;
    var w' := Next(w, Snapshot(t));
    CountAfterAddRefAll(w.registry.refs, os);
    forall x ensures Count(w'.registry.refs, x)
                  == Count(w'.held, x) + One(x in w'.registry.observers) + |InFlight(w'.fanouts, x)| {
      assert Count(w.registry.refs, x) == Count(w.held, x) + One(x in w.registry.observers) + |InFlight(w.fanouts, x)|;
      InFlightAfterSnapshot(w.fanouts, t, os, x);
    }
  }

  lemma SameInFlight(fanouts: map<Thread, Fanout>, t: Thread, f: Fanout, o: Observer)
    requires t in fanouts && f.snapshot == fanouts[t].snapshot && f.released == fanouts[t].released
    ensures InFlight(fanouts[t := f], o) == InFlight(fanouts, o)
  {
  }

  lemma StepCall(w: World, t: Thread)
    requires Inv(w) && Enabled(w, Call(t))
    ensures Inv(Next(w, Call(t)))
  {
    var w' := Next(w, Call(t));
    forall x ensures Count(w'.registry.refs, x)
                  == Count(w'.held, x) + One(x in w'.registry.observers) + |InFlight(w'.fanouts, x)| {
      assert Count(w.registry.refs, x) == Count(w.held, x) + One(x in w.registry.observers) + |InFlight(w.fanouts, x)|;
      SameInFlight(w.fanouts, t, w'.fanouts[t], x);
    }
  }

  lemma InFlightAfterRelease(fanouts: map<Thread, Fanout>, t: Thread, o: Observer)
    requires t in fanouts && GoodFanout(fanouts[t]) && fanouts[t].released < |fanouts[t].snapshot|
    ensures var f := fanouts[t];
            |InFlight(fanouts[t := f.(released := f.released + 1)], o)|
            == |InFlight(fanouts, o)| - One(o == f.snapshot[f.released])
  {
    var f := fanouts[t];
    var before, after := InFlight(fanouts, o), InFlight(fanouts[t := f.(released := f.released + 1)], o);
    var rest := f.snapshot[f.released + 1..];
    OthersInFlight(fanouts, t, f.(released := f.released + 1), o);
    DropOne(f.snapshot, f.released);
    assert t in before <==> o in f.snapshot[f.released..];
    assert t in after <==> o in rest;
    MembersOf(before, after, t);
  }

  lemma DropOne(os: seq<Observer>, k: nat)
    requires NoDuplicates(os) && k < |os|
    ensures os[k] !in os[k + 1..]
    ensures forall o :: o in os[k..] <==> o == os[k] || o in os[k + 1..]
  {
    assert os[k..] == [os[k]] + os[k + 1..];
  }

  lemma StepRelease(w: World, t: Thread)
    requires Inv(w) && Enabled(w, ReleaseOne(t))
    ensures Inv(Next(w, ReleaseOne(t)))
  {
    var w' := Next(w, ReleaseOne(t));
    var f := w.fanouts[t];
    var o := f.snapshot[f.released];
    assert f.snapshot[f.released..][0] == o;
    assert t in InFlight(w.fanouts, o);
    AccountedIsAlive(w, o);
    CountLaws(w.registry.refs, o);
    forall x ensures Count(w'.registry.refs, x)
                  == Count(w'.held, x) + One(x in w'.registry.observers) + |InFlight(w'.fanouts, x)| {
      assert Count(w.registry.refs, x) == Count(w.held, x) + One(x in w.registry.observers) + |InFlight(w.fanouts, x)|;
      InFlightAfterRelease(w.fanouts, t, x);
    }
  }

  lemma StepFinish(w: World, t: Thread)
    requires Inv(w) && Enabled(w, Finish(t))
    ensures Inv(Next(w, Finish(t)))
  {
    var w' := Next(w, Finish(t));
    forall x ensures Count(w'.registry.refs, x)
                  == Count(w'.held, x) + One(x in w'.registry.observers) + |InFlight(w'.fanouts, x)| {
      assert Count(w.registry.refs, x) == Count(w.held, x) + One(x in w.registry.observers) + |InFlight(w.fanouts, x)|;
      assert InFlight(w'.fanouts, x) == InFlight(w.fanouts, x);
    }
  }

  /** Every step keeps the books. */
  lemma StepKeepsInv(w: World, s: Step)
    requires Inv(w) && Enabled(w, s)
    ensures Inv(Next(w, s))
  {
    match s
    case Register(o) => StepRegister(w, o);
    case Unregister(o) => StepUnregister(w, o);
    case Snapshot(t) => StepSnapshot(w, t);
    case Call(t) => StepCall(w, t);
    case ReleaseOne(t) => StepRelease(w, t);
    case Finish(t) => StepFinish(w, t);
    case _ => StepOutside(w, s);
  }

  // ---------------------------------------------------------------- runs

  ghost predicate IsRun(ws: seq<World>, steps: seq<Step>) {
    && |ws| == |steps| + 1
    && forall i :: 0 <= i < |steps| ==> Enabled(ws[i], steps[i]) && ws[i + 1] == Next(ws[i], steps[i])
  }

  /** A new implementation, in whatever company of observers that others hold, has its books in order. */
  lemma FreshWorldHasInv(held: Refs)
    requires Positive(held)
    ensures Inv(World(Registry([], held), held, map[]))
  {
    var w := World(Registry([], held), held, map[]);
    forall o ensures Count(held, o) == Count(held, o) + One(o in w.registry.observers) + |InFlight(w.fanouts, o)| {
      assert InFlight(w.fanouts, o) == {};
    }
  }

  /** In every run, every reference is accounted for at every moment. */
  lemma {:induction false} LedgerAlwaysHolds(ws: seq<World>, steps: seq<Step>, n: nat)
    requires IsRun(ws, steps) && Inv(ws[0]) && n <= |steps|
    ensures Inv(ws[n])
  {
    if n > 0 {
      LedgerAlwaysHolds(ws, steps, n - 1);
      StepKeepsInv(ws[n - 1], steps[n - 1]);
    }
  }

  function Target(w: World, t: Thread): Observer
    requires Enabled(w, Call(t))
  {
    w.fanouts[t].snapshot[w.fanouts[t].called]
  }

  /** Whatever interleaves, a callback is only ever made on a living observer, and the fan-out itself keeps it alive. */
  lemma CallbackHitsLiving(ws: seq<World>, steps: seq<Step>, n: nat)
    requires IsRun(ws, steps) && Inv(ws[0]) && n < |steps| && steps[n].Call?
    ensures var w, t := ws[n], steps[n].t;
            && Count(w.registry.refs, Target(w, t)) >= 1
            && t in InFlight(w.fanouts, Target(w, t))
  {
    LedgerAlwaysHolds(ws, steps, n);
    var w, t := ws[n], steps[n].t;
    var f := w.fanouts[t];
    assert f.released == 0 && f.snapshot[0..] == f.snapshot;
    assert t in InFlight(w.fanouts, Target(w, t));
    AccountedIsAlive(w, Target(w, t));
  }

  /** The observers that thread `t` calls in the steps from `i` up to `j`, in order. */
  function Calls(ws: seq<World>, steps: seq<Step>, t: Thread, i: nat, j: nat): seq<Observer>
    requires IsRun(ws, steps) && i <= j <= |steps|
    decreases j
  {
    if i == j then []
    else Calls(ws, steps, t, i, j - 1) + if steps[j - 1] == Call(t) then [Target(ws[j - 1], t)] else []
  }

  /** A step of another kind or of another thread leaves a fan-out as it is. */
  lemma FanoutIsPrivate(w: World, s: Step, t: Thread)
    requires Enabled(w, s) && t in w.fanouts && s != Call(t) && s != Finish(t) && s != ReleaseOne(t)
    ensures t in Next(w, s).fanouts && Next(w, s).fanouts[t] == w.fanouts[t]
  {
  }

  /** The fan-out that thread `t` began at step `i` has, before step `j`, called a prefix of the observers of then. */
  ghost predicate Underway(ws: seq<World>, steps: seq<Step>, t: Thread, i: nat, j: nat)
    requires IsRun(ws, steps) && i < j <= |steps|
  {
    var os := ws[i].registry.observers;
    && t in ws[j].fanouts && ws[j].fanouts[t].snapshot == os && ws[j].fanouts[t].called <= |os|
    && Calls(ws, steps, t, i + 1, j) == os[..ws[j].fanouts[t].called]
  }

  lemma UnderwayStep(ws: seq<World>, steps: seq<Step>, t: Thread, i: nat, j: nat)
    requires IsRun(ws, steps) && i < j < |steps| && Underway(ws, steps, t, i, j) && steps[j] != Finish(t)
    ensures Underway(ws, steps, t, i, j + 1)
  {
    var w, s := ws[j], steps[j];
    var os, called := ws[i].registry.observers, w.fanouts[t].called;
    assert ws[j + 1] == Next(w, s);
    if s == Call(t) {
      assert os[..called + 1] == os[..called] + [os[called]];
    } else {
      assert Calls(ws, steps, t, i + 1, j + 1) == os[..called] + [] == os[..called];
      if s != ReleaseOne(t) {
        FanoutIsPrivate(w, s, t);
      }
    }
  }

  lemma FanoutProgress(ws: seq<World>, steps: seq<Step>, t: Thread, i: nat, j: nat)
    requires IsRun(ws, steps) && i < j <= |steps| && steps[i] == Snapshot(t)
    requires forall k :: i < k < j ==> steps[k] != Finish(t)
    ensures Underway(ws, steps, t, i, j)
  {
    var m := i + 1;
    assert ws[m] == Next(ws[i], Snapshot(t));
    while m < j
      invariant i < m <= j && Underway(ws, steps, t, i, m)
    {
      UnderwayStep(ws, steps, t, i, m);
      m := m + 1;
    }
  }

  /** A completed fan-out has called the observers registered at its snapshot, once each, in order, and no others. */
  lemma EveryObserverCalledOnce(ws: seq<World>, steps: seq<Step>, t: Thread, i: nat, j: nat)
    requires IsRun(ws, steps) && Inv(ws[0]) && i < j < |steps|
    requires steps[i] == Snapshot(t) && steps[j] == Finish(t) && forall k :: i < k < j ==> steps[k] != Finish(t)
    ensures Calls(ws, steps, t, i + 1, j) == ws[i].registry.observers
    ensures NoDuplicates(ws[i].registry.observers)
    ensures ws[j + 1].fanouts == ws[j].fanouts - {t} && Enabled(ws[j + 1], Snapshot(t))
  {
    FanoutProgress(ws, steps, t, i, j);
    LedgerAlwaysHolds(ws, steps, i);
    var os := ws[i].registry.observers;
    assert os[..|os|] == os;
  }

  // ---------------------------------------------------------------- every fan-out can be completed

  ghost predicate StepsOf(steps: seq<Step>, t: Thread) {
    forall i :: 0 <= i < |steps| ==> steps[i] == Call(t) || steps[i] == ReleaseOne(t) || steps[i] == Finish(t)
  }

  lemma {:induction false} CallsCons(w: World, s: Step, ws: seq<World>, steps: seq<Step>, t: Thread, n: nat)
    requires IsRun(ws, steps) && Enabled(w, s) && ws[0] == Next(w, s) && n <= |steps|
    ensures IsRun([w] + ws, [s] + steps)
    ensures Calls([w] + ws, [s] + steps, t, 0, n + 1)
         == (if s == Call(t) then [Target(w, t)] else []) + Calls(ws, steps, t, 0, n)
  {
    RunCons(w, s, ws, steps);
    if n > 0 {
      CallsCons(w, s, ws, steps, t, n - 1);
      assert ([w] + ws)[n] == ws[n - 1] && ([s] + steps)[n] == steps[n - 1];
    } else {
      assert ([w] + ws)[0] == w && ([s] + steps)[0] == s;
      assert Calls([w] + ws, [s] + steps, t, 0, 0) == [];
    }
  }

  lemma RunCons(w: World, s: Step, ws: seq<World>, steps: seq<Step>)
    requires IsRun(ws, steps) && Enabled(w, s) && ws[0] == Next(w, s)
    ensures IsRun([w] + ws, [s] + steps)
  {
    var all, path := [w] + ws, [s] + steps;
    forall i | 0 <= i < |path| ensures Enabled(all[i], path[i]) && all[i + 1] == Next(all[i], path[i]) {
      if i > 0 {
        assert all[i] == ws[i - 1] && all[i + 1] == ws[i] && path[i] == steps[i - 1];
      }
    }
  }

  /** A run of steps of one thread from `w`, in which the thread calls `called` and leaves its fan-out. */
  ghost predicate Completes(w: World, t: Thread, ws: seq<World>, steps: seq<Step>, called: seq<Observer>) {
    && IsRun(ws, steps) && StepsOf(steps, t) && ws[0] == w
    && Calls(ws, steps, t, 0, |steps|) == called
    && var end := ws[|steps|];
       && end.fanouts == w.fanouts - {t} && end.held == w.held && end.registry.observers == w.registry.observers
  }

  /** Before it ends, a fan-out changes nothing but itself and the counters. */
  lemma StepWithin(w: World, t: Thread, s: Step)
    requires Enabled(w, s) && (s == Call(t) || s == ReleaseOne(t))
    ensures Next(w, s).fanouts - {t} == w.fanouts - {t}
    ensures Next(w, s).held == w.held && Next(w, s).registry.observers == w.registry.observers
  {
  }

  lemma CompletesCons(w: World, t: Thread, s: Step, ws: seq<World>, steps: seq<Step>, called: seq<Observer>)
    requires Enabled(w, s) && (s == Call(t) || s == ReleaseOne(t)) && Completes(Next(w, s), t, ws, steps, called)
    ensures Completes(w, t, [w] + ws, [s] + steps, (if s == Call(t) then [Target(w, t)] else []) + called)
  {
    CallsCons(w, s, ws, steps, t, |steps|);
    assert ([w] + ws)[|steps| + 1] == ws[|steps|];
    StepWithin(w, t, s);
  }

  lemma FinishCompletes(w: World, t: Thread)
    requires Enabled(w, Finish(t))
    ensures Completes(w, t, [w, Next(w, Finish(t))], [Finish(t)], [])
  {
    var ws, steps := [w, Next(w, Finish(t))], [Finish(t)];
    assert Calls(ws, steps, t, 0, 0) == [];
    assert Calls(ws, steps, t, 0, 1) == [];
  }

  /** The observers still to be called. */
  function ToCall(w: World, t: Thread): seq<Observer>
    requires t in w.fanouts && w.fanouts[t].called <= |w.fanouts[t].snapshot|
  {
    w.fanouts[t].snapshot[w.fanouts[t].called..]
  }

  lemma CallFirst(w: World, t: Thread, ws: seq<World>, steps: seq<Step>)
    requires Enabled(w, Call(t)) && Completes(Next(w, Call(t)), t, ws, steps, ToCall(Next(w, Call(t)), t))
    ensures Completes(w, t, [w] + ws, [Call(t)] + steps, ToCall(w, t))
    ensures ([w] + ws)[|steps| + 1] == ws[|steps|]
  {
    CompletesCons(w, t, Call(t), ws, steps, ToCall(Next(w, Call(t)), t));
    var f := w.fanouts[t];
    assert f.snapshot[f.called..] == [f.snapshot[f.called]] + f.snapshot[f.called + 1..];
  }

  lemma ReleaseFirst(w: World, t: Thread, ws: seq<World>, steps: seq<Step>)
    requires Enabled(w, ReleaseOne(t)) && Completes(Next(w, ReleaseOne(t)), t, ws, steps, [])
    ensures Completes(w, t, [w] + ws, [ReleaseOne(t)] + steps, [])
    ensures ([w] + ws)[|steps| + 1] == ws[|steps|]
  {
    CompletesCons(w, t, ReleaseOne(t), ws, steps, []);
  }

  /**
    * No fan-out is ever stuck: whatever has happened around it, its own steps alone call those still to be called, in
    * order, and end it. Nothing else has changed then, and the thread can take its next event.
    */
  lemma {:induction false} FanoutCanFinish(w: World, t: Thread) returns (ws: seq<World>, steps: seq<Step>)
    requires Inv(w) && t in w.fanouts
    ensures Completes(w, t, ws, steps, ToCall(w, t))
    ensures Inv(ws[|steps|]) && Enabled(ws[|steps|], Snapshot(t))
    decreases |w.fanouts[t].snapshot| - w.fanouts[t].called, |w.fanouts[t].snapshot| - w.fanouts[t].released
  {
    var f := w.fanouts[t];
    if f.called < |f.snapshot| {
      StepKeepsInv(w, Call(t));
      ws, steps := FanoutCanFinish(Next(w, Call(t)), t);
      CallFirst(w, t, ws, steps);
      ws, steps := [w] + ws, [Call(t)] + steps;
    } else if f.released < |f.snapshot| {
      StepKeepsInv(w, ReleaseOne(t));
      ws, steps := FanoutCanFinish(Next(w, ReleaseOne(t)), t);
      ReleaseFirst(w, t, ws, steps);
      ws, steps := [w] + ws, [ReleaseOne(t)] + steps;
    } else {
      StepKeepsInv(w, Finish(t));
      FinishCompletes(w, t);
      ws, steps := [w, Next(w, Finish(t))], [Finish(t)];
    }
  }

  lemma SameLedger(a: World, b: World)
    requires Inv(a) && Inv(b)
    requires a.held == b.held && a.registry.observers == b.registry.observers && a.fanouts == b.fanouts
    ensures a == b
  {
    forall o ensures Count(a.registry.refs, o) == Count(b.registry.refs, o) {
      assert Count(a.registry.refs, o) == Count(a.held, o) + One(o in a.registry.observers) + |InFlight(a.fanouts, o)|;
    }
    SameCounts(a.registry.refs, b.registry.refs);
  }

  /** An event on an idle thread: undisturbed, it calls all registered observers in order and leaves all as it was. */
  lemma EventRunsAlone(w: World, t: Thread) returns (ws: seq<World>, steps: seq<Step>)
    requires Inv(w) && t !in w.fanouts
    ensures IsRun(ws, steps) && |steps| > 0 && steps[0] == Snapshot(t) && StepsOf(steps[1..], t)
    ensures ws[0] == w && ws[|steps|] == w
    ensures Calls(ws, steps, t, 0, |steps|) == w.registry.observers
  {
    var w' := Next(w, Snapshot(t));
    StepKeepsInv(w, Snapshot(t));
    var rest, path := FanoutCanFinish(w', t);
    assert w'.fanouts[t].snapshot[0..] == w.registry.observers;
    CallsCons(w, Snapshot(t), rest, path, t, |path|);
    ws, steps := [w] + rest, [Snapshot(t)] + path;
    assert steps[1..] == path && ws[|steps|] == rest[|path|];
    assert w'.fanouts - {t} == w.fanouts;
    SameLedger(rest[|path|], w);
  }

  /** Nobody is ever kept from registering, leaving, or taking and giving up references. */
  lemma RegistryIsNeverBlocked(w: World, o: Observer)
    requires Inv(w)
    ensures Enabled(w, Unregister(o))
    ensures Count(w.registry.refs, o) > 0 <==> Enabled(w, Register(o))
    ensures Count(w.registry.refs, o) > 0 <==> Enabled(w, Acquire(o))
    ensures Count(w.registry.refs, o) == 0 <==> Enabled(w, Create(o))
    ensures Count(w.held, o) > 0 <==> Enabled(w, Drop(o))
  {
  }

  /** What the others hold is changed by them alone, one reference at a time. */
  lemma HeldReferences(w: World, s: Step, x: Observer)
    requires Inv(w) && Enabled(w, s)
    ensures Count(Next(w, s).held, x) - Count(w.held, x)
         == if s == Create(x) || s == Acquire(x) then 1 else if s == Drop(x) then -1 else 0
  {
    CountLaws(w.held, x);
  }

  /** When no fan-out is under way, destruction returns every reference the implementation held. */
  lemma DestructionReturnsReferences(w: World)
    requires Inv(w) && w.fanouts == map[]
    ensures w.registry.Destroy().refs == w.held
  {
    var os := w.registry.observers;
    forall o | o in os ensures o in w.registry.refs {
      AccountedIsAlive(w, o);
    }
    CountAfterReleaseAll(w.registry.refs, os);
    forall o ensures Count(w.registry.Destroy().refs, o) == Count(w.held, o) {
      assert Count(w.registry.refs, o) == Count(w.held, o) + One(o in os) + |InFlight(w.fanouts, o)|;
      assert InFlight(w.fanouts, o) == {};
    }
    SameCounts(w.registry.Destroy().refs, w.held);
  }

  // ---------------------------------------------------------------- the registry as an insertion-ordered set

  /**
    * The step at which `o` joined, judging by the history alone: its first registration since it last left. It is -1
    * for one who never joined or has left.
    */
  function JoinedAt(steps: seq<Step>, o: Observer): (r: int)
    ensures -1 <= r < |steps|
  {
    if steps == [] then -1
    else
      var before := JoinedAt(steps[..|steps| - 1], o);
      match steps[|steps| - 1]
      case Register(x) => if x == o && before < 0 then |steps| - 1 else before
      case Unregister(x) => if x == o then -1 else before
      case _ => before
  }

  ghost predicate Rising(os: seq<Observer>, rank: Observer -> int) {
    forall i, j :: 0 <= i < j < |os| ==> rank(os[i]) < rank(os[j])
  }

  lemma {:induction false} WithoutRises(os: seq<Observer>, o: Observer, rank: Observer -> int)
    requires NoDuplicates(os) && Rising(os, rank)
    ensures Rising(Without(os, o), rank)
  {
    if os != [] && os[0] != o {
      var tail := os[1..];
      WithoutRises(tail, o, rank);
      WithoutLaw(tail, o);
      var rest := Without(tail, o);
      forall x | x in rest ensures rank(os[0]) < rank(x) {
        var k :| 0 <= k < |tail| && tail[k] == x;
        assert os[k + 1] == x;
      }
      ConsRises(os[0], rest, rank);
    }
  }

  lemma ConsRises(o: Observer, rest: seq<Observer>, rank: Observer -> int)
    requires Rising(rest, rank) && forall x :: x in rest ==> rank(o) < rank(x)
    ensures Rising([o] + rest, rank)
  {
  }

  /** The vector holds exactly those who have joined and not left, in the order in which they joined. */
  ghost predicate OrderedByJoining(os: seq<Observer>, steps: seq<Step>) {
    && (forall o :: o in os <==> JoinedAt(steps, o) >= 0)
    && Rising(os, (o: Observer) => JoinedAt(steps, o))
  }

  lemma JoinedAfter(steps: seq<Step>, s: Step, o: Observer)
    ensures JoinedAt(steps + [s], o)
         == match s
            case Register(x) => if x == o && JoinedAt(steps, o) < 0 then |steps| else JoinedAt(steps, o)
            case Unregister(x) => if x == o then -1 else JoinedAt(steps, o)
            case _ => JoinedAt(steps, o)
  {
    assert (steps + [s])[..|steps|] == steps;
  }

  lemma SameRanksRise(os: seq<Observer>, before: seq<Step>, after: seq<Step>)
    requires Rising(os, (o: Observer) => JoinedAt(before, o))
    requires forall o :: o in os ==> JoinedAt(after, o) == JoinedAt(before, o)
    ensures Rising(os, (o: Observer) => JoinedAt(after, o))
  {
    var rank := (o: Observer) => JoinedAt(before, o);
    forall i, j | 0 <= i < j < |os| ensures JoinedAt(after, os[i]) < JoinedAt(after, os[j]) {
      assert rank(os[i]) < rank(os[j]);
      assert os[i] in os && os[j] in os;
    }
  }

  lemma JoiningKeepsOrder(os: seq<Observer>, steps: seq<Step>, o: Observer)
    requires OrderedByJoining(os, steps) && o !in os
    ensures OrderedByJoining(os + [o], steps + [Register(o)])
  {
    forall x ensures x in os + [o] <==> JoinedAt(steps + [Register(o)], x) >= 0 {
      JoinedAfter(steps, Register(o), x);
      assert x in os + [o] <==> x in os || x == o;
    }
    forall x | x in os ensures JoinedAt(steps + [Register(o)], x) == JoinedAt(steps, x) {
      JoinedAfter(steps, Register(o), x);
    }
    SameRanksRise(os, steps, steps + [Register(o)]);
    var rank := (x: Observer) => JoinedAt(steps + [Register(o)], x);
    forall i, j | 0 <= i < j < |os + [o]| ensures rank((os + [o])[i]) < rank((os + [o])[j]) {
      JoinedAfter(steps, Register(o), o);
      if j < |os| {
        assert rank(os[i]) < rank(os[j]);
      } else {
        assert os[i] in os;
        JoinedAfter(steps, Register(o), os[i]);
      }
    }
  }

  lemma LeavingKeepsOrder(os: seq<Observer>, steps: seq<Step>, o: Observer)
    requires OrderedByJoining(os, steps) && NoDuplicates(os)
    ensures OrderedByJoining(Without(os, o), steps + [Unregister(o)])
  {
    WithoutLaw(os, o);
    WithoutRises(os, o, (x: Observer) => JoinedAt(steps, x));
    forall x ensures x in Without(os, o) <==> JoinedAt(steps + [Unregister(o)], x) >= 0 {
      JoinedAfter(steps, Unregister(o), x);
    }
    forall x | x in Without(os, o) ensures JoinedAt(steps + [Unregister(o)], x) == JoinedAt(steps, x) {
      JoinedAfter(steps, Unregister(o), x);
    }
    SameRanksRise(Without(os, o), steps, steps + [Unregister(o)]);
  }

  lemma StayingKeepsOrder(os: seq<Observer>, steps: seq<Step>, s: Step)
    requires OrderedByJoining(os, steps)
    requires s.Register? ==> s.o in os
    requires s.Unregister? ==> s.o !in os
    ensures OrderedByJoining(os, steps + [s])
  {
    forall x ensures JoinedAt(steps + [s], x) == JoinedAt(steps, x) {
      JoinedAfter(steps, s, x);
    }
    SameRanksRise(os, steps, steps + [s]);
  }

  lemma StepKeepsOrder(w: World, s: Step, steps: seq<Step>)
    requires Inv(w) && Enabled(w, s) && OrderedByJoining(w.registry.observers, steps)
    ensures OrderedByJoining(Next(w, s).registry.observers, steps + [s])
  {
    var os := w.registry.observers;
    if s.Register? && s.o !in os {
      JoiningKeepsOrder(os, steps, s.o);
    } else if s.Unregister? && s.o in os {
      LeavingKeepsOrder(os, steps, s.o);
    } else {
      StayingKeepsOrder(os, steps, s);
    }
  }

  lemma OrderStep(ws: seq<World>, steps: seq<Step>, m: nat)
    requires IsRun(ws, steps) && Inv(ws[0]) && m < |steps|
    requires OrderedByJoining(ws[m].registry.observers, steps[..m])
    ensures OrderedByJoining(ws[m + 1].registry.observers, steps[..m + 1])
  {
    LedgerAlwaysHolds(ws, steps, m);
    StepKeepsOrder(ws[m], steps[m], steps[..m]);
    assert steps[..m + 1] == steps[..m] + [steps[m]];
  }

  /** The registry refines an insertion-ordered set, in every run from an empty registry. */
  lemma RegistryIsOrderedSet(ws: seq<World>, steps: seq<Step>, n: nat)
    requires IsRun(ws, steps) && Inv(ws[0]) && ws[0].registry.observers == [] && n <= |steps|
    ensures OrderedByJoining(ws[n].registry.observers, steps[..n])
  {
    var m := 0;
    while m < n
      invariant m <= n && OrderedByJoining(ws[m].registry.observers, steps[..m])
    {
      OrderStep(ws, steps, m);
      m := m + 1;
    }
  }
}
