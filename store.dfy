/**
 * The Flux store (mini/flux/Store.kt): a lazily created state, a setter
 * that stores and emits only a value that differs by `equals`, a stream of
 * states for observers, test helpers that go through the same setter, and
 * the subscriptions the store tracks and disposes on `close`.
 */
module Stores {
  import opened Wrappers
  import opened Flux

  const DEFAULT_INIT_PRIORITY: int := 100

  /** `StoreProperties`: a higher `initOrder` is initialised later. */
  datatype StoreProperties = StoreProperties(initOrder: int)

  /** `StoreProperties()`, the properties every store has unless it overrides them. */
  function DefaultStoreProperties(): (p: StoreProperties)
    ensures p.initOrder == DEFAULT_INIT_PRIORITY == 100
  {
    StoreProperties(DEFAULT_INIT_PRIORITY)
  }

  /**
   * A state object. Kotlin's `==` on states compares their values (they are
   * data classes), while `===` compares the objects themselves; a
   * `StateRef` has both: its `value` and its reference.
   */
  class StateRef<S> {
    const value: S

    constructor(value: S)
      ensures this.value == value
    {
      this.value := value;
    }
  }

  /** A subscriber of `flowable()`: the state it got first, and how many emissions preceded it. */
  datatype StateFlow<S> = StateFlow(first: StateRef<S>, start: nat)

  class Store<S(==)> {
    const properties: StoreProperties
    /** The value `initialState()` builds, as a new object on each call. */
    const initialValue: S
    /** `_state`: null until first read or set. */
    var current: StateRef?<S>
    /** Every value pushed to the store's processor, oldest first. */
    var emissions: seq<StateRef<S>>
    /** The disposables handed to `track()` and held by the `CompositeDisposable`. */
    var tracked: seq<DispatcherSubscription>
    /** Whether the `CompositeDisposable` has been disposed by `close()`. */
    var closed: bool

    /** Nothing is emitted before the state exists, and the last emission is the current state. */
    ghost predicate Valid()
      reads this
    {
      && (current == null ==> emissions == [])
      && (emissions != [] ==> current == emissions[|emissions| - 1])
    }

    constructor(properties: StoreProperties, initialValue: S)
      ensures Valid()
      ensures this.properties == properties && this.initialValue == initialValue
      ensures current == null && emissions == [] && tracked == [] && !closed
    {
      this.properties := properties;
      this.initialValue := initialValue;
      current := null;
      emissions := [];
      tracked := [];
      closed := false;
    }

    /** `initialState()`: a new state object holding the initial value. */
    method InitialState() returns (s: StateRef<S>)
      ensures fresh(s) && s.value == initialValue
    {
      s := new StateRef(initialValue);
    }

    /**
     * The `state` getter: the first read creates the initial state without
     * emitting it; later reads return that same object until it is set.
     */
    method State() returns (s: StateRef<S>)
      requires Valid()
      modifies this`current
      ensures Valid()
      ensures current == s
      ensures old(current) != null ==> s == old(current)
      ensures old(current) == null ==> fresh(s) && s.value == initialValue
    {
      if current == null {
        current := InitialState();
      }
      s := current;
    }

    /** The setter would keep the stored state: it is `equals` to `value`. */
    predicate Keeps(value: StateRef<S>)
      reads this
    {
      current != null && current.value == value.value
    }

    /**
     * The `state` setter: a value `equals` to the stored one changes
     * nothing and emits nothing; any other value is stored and emitted once.
     */
    method SetState(value: StateRef<S>)
      requires Valid()
      modifies this`current, this`emissions
      ensures Valid()
      ensures old(Keeps(value)) ==> current == old(current) && emissions == old(emissions)
      ensures !old(Keeps(value)) ==> current == value && emissions == old(emissions) + [value]
    {
      if current == null || value.value != current.value {
        current := value;
        emissions := emissions + [value];
      }
    }

    /** What a `flowable()` subscriber has received so far. */
    function Seen(f: StateFlow<S>): (r: seq<StateRef<S>>)
      requires f.start <= |emissions|
      reads this
      ensures |r| == 1 + |emissions| - f.start && r[0] == f.first
    {
      [f.first] + emissions[f.start..]
    }

    /**
     * `flowable()`: the subscriber gets the current state (created if need
     * be), then every later emission. Its latest value is always the
     * store's state.
     */
    method Flowable() returns (f: StateFlow<S>)
      requires Valid()
      modifies this`current
      ensures Valid()
      ensures f.start == |emissions| && f.first == current
      ensures Seen(f) == [current]
    {
      var s := State();
      f := StateFlow(s, |emissions|);
    }

    /** A subscriber whose latest value is the store's state. */
    predicate InSync(f: StateFlow<S>)
      reads this
    {
      f.start <= |emissions| && Seen(f)[|Seen(f)| - 1] == current
    }

    /**
     * Setting the state extends what every earlier subscriber has seen by
     * exactly what was emitted, and keeps it in sync with the store.
     */
    method SetStateObserved(value: StateRef<S>, f: StateFlow<S>)
      requires Valid() && InSync(f)
      modifies this`current, this`emissions
      ensures Valid() && InSync(f)
      ensures Seen(f) == old(Seen(f)) + (if old(Keeps(value)) then [] else [value])
    {
      SetState(value);
      assert emissions[f.start..] == old(emissions)[f.start..] + (if old(Keeps(value)) then [] else [value]);
    }

    /** The value the `state` getter returns: the initial value until a state exists. */
    function Value(): S
      reads this
    {
      if current == null then initialValue else current.value
    }

    /**
     * `state = state.copy(...)`: read the state (creating it if need be),
     * then set a new state object holding `next`. The store ends up holding
     * `next`; a new object is emitted exactly when `next` differs from the
     * value read.
     */
    method Assign(next: S)
      requires Valid()
      modifies this`current, this`emissions
      ensures Valid()
      ensures current != null && Value() == next
      ensures old(Value()) == next ==> emissions == old(emissions)
      ensures old(Value()) == next && old(current) != null ==> current == old(current)
      ensures old(Value()) != next ==> fresh(current) && emissions == old(emissions) + [current]
    {
      var _ := State();
      var r := new StateRef(next);
      SetState(r);
    }

    /** `setTestState`: the same setter, run on the UI thread. */
    method SetTestState(other: StateRef<S>)
      requires Valid()
      modifies this`current, this`emissions
      ensures Valid()
      ensures old(Keeps(other)) ==> current == old(current) && emissions == old(emissions)
      ensures !old(Keeps(other)) ==> current == other && emissions == old(emissions) + [other]
    {
      SetState(other);
    }

    /**
     * `resetState`: a new initial state through `setTestState`. A store
     * whose state already equals the initial value keeps its state object
     * and emits nothing.
     */
    method ResetState()
      requires Valid()
      modifies this`current, this`emissions
      ensures Valid()
      ensures current != null && current.value == initialValue
      ensures old(current) != null && old(current).value == initialValue ==>
                current == old(current) && emissions == old(emissions)
      ensures !(old(current) != null && old(current).value == initialValue) ==>
                fresh(current) && emissions == old(emissions) + [current]
    {
      var s := InitialState();
      SetTestState(s);
    }

    /**
     * `Disposable.track()`, that is `CompositeDisposable.add`: an open
     * store keeps the subscription; once the store is closed the
     * subscription is disposed at once and not kept.
     */
    method Track(d: DispatcherSubscription)
      requires closed ==> d.dispatcher.Valid()
      modifies this`tracked, d`disposed, d.dispatcher`registry, d.dispatcher`events
      ensures !closed ==>
                && tracked == old(tracked) + [d] && d.disposed == old(d.disposed)
                && d.dispatcher.registry == old(d.dispatcher.registry) && d.dispatcher.events == old(d.dispatcher.events)
      ensures closed ==>
                && tracked == old(tracked) && d.dispatcher.Valid()
                && d.disposed && !d.dispatcher.IsRegistered(d)
                && (forall x :: d.dispatcher.IsRegistered(x) ==> (x.tag in old(d.dispatcher.registry) && x in old(d.dispatcher.registry)[x.tag]))
                && (forall x: DispatcherSubscription ::
                      (x.tag in old(d.dispatcher.registry) && x in old(d.dispatcher.registry)[x.tag] && !(x.tag == d.tag && SameKey(x, d)))
                      ==> d.dispatcher.IsRegistered(x))
                && (d.dispatcher.events == old(d.dispatcher.events) || d.dispatcher.events == old(d.dispatcher.events) + [UnregisterFailed(d)])
    {
      if closed {
        d.Dispose();
      } else {
        tracked := tracked + [d];
      }
    }

    /** The tracked subscriptions, as a frame. */
    function TrackedSet(): set<DispatcherSubscription>
      reads this
    {
      set d | d in tracked
    }

    /**
     * `close`: dispose the `CompositeDisposable`, and so every tracked
     * subscription; the composite then holds nothing and disposes whatever
     * is tracked later. Afterwards each formerly tracked subscription is
     * disposed and out of the dispatcher's registry; nothing is newly
     * registered; a registration survives unless a tracked subscription
     * shares its tag and its (priority, id) key, since removal goes by key;
     * and the trace only gains the warnings of failed removals.
     */
    method Close(dispatcher: Dispatcher)
      requires dispatcher.Valid()
      requires forall d :: d in tracked ==> d.dispatcher == dispatcher
      modifies this`tracked, this`closed, TrackedSet(), dispatcher`registry, dispatcher`events
      ensures closed && tracked == []
      ensures dispatcher.Valid()
      ensures forall d :: d in old(tracked) ==> d.disposed && !dispatcher.IsRegistered(d)
      ensures forall x :: dispatcher.IsRegistered(x) ==> (x.tag in old(dispatcher.registry) && x in old(dispatcher.registry)[x.tag])
      ensures forall x: DispatcherSubscription :: (x.tag in old(dispatcher.registry) && x in old(dispatcher.registry)[x.tag]) && (forall d :: d in old(tracked) ==> !(d.tag == x.tag && SameKey(d, x)))
                          ==> dispatcher.IsRegistered(x)
      ensures |old(dispatcher.events)| <= |dispatcher.events|
      ensures dispatcher.events[..|old(dispatcher.events)|] == old(dispatcher.events)
      ensures forall i :: |old(dispatcher.events)| <= i < |dispatcher.events| ==>
                dispatcher.events[i].UnregisterFailed? && dispatcher.events[i].sub in old(tracked)
    {
      DisposeAll(tracked, dispatcher);
      tracked := [];
      closed := true;
    }
  }

  /** The loop of `CompositeDisposable.dispose()`: dispose each subscription in turn. */
  method DisposeAll(ds: seq<DispatcherSubscription>, dispatcher: Dispatcher)
    requires dispatcher.Valid()
    requires forall d :: d in ds ==> d.dispatcher == dispatcher
    modifies (set d | d in ds), dispatcher`registry, dispatcher`events
    ensures dispatcher.Valid()
    ensures forall d :: d in ds ==> d.disposed && !dispatcher.IsRegistered(d)
    ensures forall x :: dispatcher.IsRegistered(x) ==> (x.tag in old(dispatcher.registry) && x in old(dispatcher.registry)[x.tag])
    ensures forall x: DispatcherSubscription :: (x.tag in old(dispatcher.registry) && x in old(dispatcher.registry)[x.tag]) && (forall d :: d in ds ==> !(d.tag == x.tag && SameKey(d, x)))
                        ==> dispatcher.IsRegistered(x)
    ensures |old(dispatcher.events)| <= |dispatcher.events|
    ensures dispatcher.events[..|old(dispatcher.events)|] == old(dispatcher.events)
    ensures forall i :: |old(dispatcher.events)| <= i < |dispatcher.events| ==>
              dispatcher.events[i].UnregisterFailed? && dispatcher.events[i].sub in ds
  {
    ghost var before := dispatcher.events;
    var k := 0;
    while k < |ds|
      invariant 0 <= k <= |ds|
      invariant dispatcher.Valid()
      invariant forall j :: 0 <= j < k ==> ds[j].disposed && !dispatcher.IsRegistered(ds[j])
      invariant forall x :: dispatcher.IsRegistered(x) ==> (x.tag in old(dispatcher.registry) && x in old(dispatcher.registry)[x.tag])
      invariant forall x: DispatcherSubscription :: (x.tag in old(dispatcher.registry) && x in old(dispatcher.registry)[x.tag]) && (forall j :: 0 <= j < k ==> !(ds[j].tag == x.tag && SameKey(ds[j], x)))
                            ==> dispatcher.IsRegistered(x)
      invariant |before| <= |dispatcher.events| && dispatcher.events[..|before|] == before
      invariant forall i :: |before| <= i < |dispatcher.events| ==>
                  dispatcher.events[i].UnregisterFailed? && dispatcher.events[i].sub in ds
    {
      ghost var mid := dispatcher.events;
      ds[k].Dispose();
      assert dispatcher.events == mid || dispatcher.events == mid + [UnregisterFailed(ds[k])];
      k := k + 1;
    }
    assert forall x: DispatcherSubscription :: (forall d :: d in ds ==> !(d.tag == x.tag && SameKey(d, x)))
                       ==> (forall j :: 0 <= j < |ds| ==> !(ds[j].tag == x.tag && SameKey(ds[j], x)));
  }
}
