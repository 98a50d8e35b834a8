/**
 * The Flux dispatcher (mini/flux/Dispatcher.kt, mini/flux/Interceptor.kt):
 * a registry of subscriptions per action tag, ordered by (priority, id), an
 * interceptor chain folded around a root link that delivers the action, and
 * a `dispatching` flag that rejects re-entrant dispatch.
 *
 * Subscriber callbacks are not modelled as code: what a callback does is
 * recorded as a `Delivered` event in the dispatcher's `events` trace, in the
 * order the callbacks run. The same trace records the warnings the source
 * logs and the actions the pass-through interceptors observe.
 */
module Flux {
  import opened Wrappers
  import opened Actions
  import opened MiniTest
  import opened Collections

  const DEFAULT_PRIORITY: int := 100

  // ---------------------------------------------------------------------------
  // Interceptors and the chain
  // ---------------------------------------------------------------------------

  /**
   * An interceptor is either one that looks at the action and proceeds with
   * it unchanged (the logging interceptor is one; `name` tells them apart),
   * or the muting test interceptor, which never proceeds.
   */
  datatype Interceptor =
    | Observer(name: nat)
    | Muter(muter: TestDispatcherInterceptor)

  /** `Root` delivers to the subscribers; `Link(i, next)` calls `i` with `next` as its chain. */
  datatype Chain = Root | Link(interceptor: Interceptor, next: Chain)

  /** `interceptors.fold(rootChain) { chain, interceptor -> link(interceptor, chain) }`. */
  function Fold(c: Chain, interceptors: seq<Interceptor>): Chain
    decreases |interceptors|
  {
    if interceptors == [] then c else Fold(Link(interceptors[0], c), interceptors[1..])
  }

  function BuildChain(interceptors: seq<Interceptor>): Chain {
    Fold(Root, interceptors)
  }

  /** The interceptors of a chain, outermost (called first) first. */
  function Links(c: Chain): (r: seq<Interceptor>)
    ensures c.Root? <==> r == []
  {
    match c
    case Root => []
    case Link(i, next) => [i] + Links(next)
  }

  /** The muting interceptors of a chain. */
  function Muters(c: Chain): set<TestDispatcherInterceptor> {
    match c
    case Root => {}
    case Link(i, next) => (if i.Muter? then {i.muter} else {}) + Muters(next)
  }

  /** The action gets through to the root link exactly when no link mutes it. */
  function ReachesRoot(c: Chain): (b: bool)
    ensures b <==> Muters(c) == {}
    ensures b <==> forall k :: 0 <= k < |Links(c)| ==> Links(c)[k].Observer?
  {
    match c
    case Root => true
    case Link(i, next) =>
      assert Links(c)[0] == i && Links(c)[1..] == Links(next);
      i.Observer? && ReachesRoot(next)
  }

  /** The muter that answers the action: the outermost one. */
  function FirstMuter(c: Chain): (r: Option<TestDispatcherInterceptor>)
    ensures r.Some? <==> !ReachesRoot(c)
    ensures r.Some? ==> r.value in Muters(c)
  {
    match c
    case Root => None
    case Link(i, next) => if i.Muter? then Some(i.muter) else FirstMuter(next)
  }

  /** The one muter a proceed on `c` records into, if any. */
  function Answering(c: Chain): (r: set<TestDispatcherInterceptor>)
    ensures r <= Muters(c)
  {
    if FirstMuter(c).Some? then {FirstMuter(c).value} else {}
  }

  /** What `chain.proceed(action)` returns: the action itself, unless a muter answers. */
  function ChainResult(c: Chain, action: Action): (r: Action)
    ensures ReachesRoot(c) ==> r == action
    ensures !ReachesRoot(c) ==> r == TestOnlyAction
  {
    match c
    case Root => action
    case Link(i, next) => if i.Muter? then TestOnlyAction else ChainResult(next, action)
  }

  /** The observations made by the links the action passes, outermost first. */
  function ChainEvents(c: Chain, action: Action): (e: seq<Event>)
    ensures |e| <= |Links(c)|
    ensures forall k :: 0 <= k < |e| ==> Links(c)[k].Observer? && e[k] == Intercepted(Links(c)[k].name, action)
  {
    match c
    case Root => []
    case Link(i, next) =>
      if i.Muter? then []
      else [Intercepted(i.name, action)] + ChainEvents(next, action)
  }

  lemma {:induction false} FoldSnoc(c: Chain, interceptors: seq<Interceptor>, i: Interceptor)
    ensures Fold(c, interceptors + [i]) == Link(i, Fold(c, interceptors))
    decreases |interceptors|
  {
    if interceptors == [] {
      assert interceptors + [i] == [i];
    } else {
      assert (interceptors + [i])[0] == interceptors[0];
      assert (interceptors + [i])[1..] == interceptors[1..] + [i];
      FoldSnoc(Link(interceptors[0], c), interceptors[1..], i);
    }
  }

  /** Adding an interceptor wraps it around the existing chain: the last added runs first. */
  lemma BuildChainSnoc(interceptors: seq<Interceptor>, i: Interceptor)
    ensures BuildChain([]) == Root
    ensures BuildChain(interceptors + [i]) == Link(i, BuildChain(interceptors))
  {
    FoldSnoc(Root, interceptors, i);
  }

  /** The chain calls the interceptors in the reverse of the order they were added. */
  lemma {:induction false} ChainOrder(interceptors: seq<Interceptor>)
    ensures |Links(BuildChain(interceptors))| == |interceptors|
    ensures forall k :: 0 <= k < |interceptors| ==>
              Links(BuildChain(interceptors))[k] == interceptors[|interceptors| - 1 - k]
    decreases |interceptors|
  {
    if interceptors != [] {
      var n := |interceptors| - 1;
      var init := interceptors[..n];
      assert interceptors == init + [interceptors[n]];
      BuildChainSnoc(init, interceptors[n]);
      ChainOrder(init);
    }
  }

  /**
   * With a muter installed anywhere in the list, no action reaches the root
   * link, so no subscriber runs, and dispatch yields the placeholder. The
   * muter that records the action is the last one added.
   */
  lemma {:induction false} MuterShortCircuits(interceptors: seq<Interceptor>, k: nat, action: Action)
    requires k < |interceptors| && interceptors[k].Muter?
    requires forall j :: k < j < |interceptors| ==> interceptors[j].Observer?
    ensures !ReachesRoot(BuildChain(interceptors))
    ensures ChainResult(BuildChain(interceptors), action) == TestOnlyAction
    ensures FirstMuter(BuildChain(interceptors)) == Some(interceptors[k].muter)
    decreases |interceptors|
  {
    var n := |interceptors| - 1;
    var init := interceptors[..n];
    assert interceptors == init + [interceptors[n]];
    BuildChainSnoc(init, interceptors[n]);
    if k < n {
      MuterShortCircuits(init, k, action);
    }
  }

  /** With observers only, each one sees the action once, last added first, and the root is reached. */
  lemma ObserversOnly(interceptors: seq<Interceptor>, action: Action)
    requires forall j :: 0 <= j < |interceptors| ==> interceptors[j].Observer?
    ensures ReachesRoot(BuildChain(interceptors))
    ensures ChainResult(BuildChain(interceptors), action) == action
    ensures |ChainEvents(BuildChain(interceptors), action)| == |interceptors|
    ensures forall k :: 0 <= k < |interceptors| ==>
              ChainEvents(BuildChain(interceptors), action)[k]
              == Intercepted(interceptors[|interceptors| - 1 - k].name, action)
  {
    ChainOrder(interceptors);
    ObserverEventsCount(BuildChain(interceptors), action);
  }

  lemma {:induction false} ObserverEventsCount(c: Chain, action: Action)
    requires ReachesRoot(c)
    ensures |ChainEvents(c, action)| == |Links(c)|
  {
    match c
    case Root =>
    case Link(i, next) =>
      assert Links(c)[0] == i && Links(c)[1..] == Links(next);
      ObserverEventsCount(next, action);
  }

  /** `interceptors -= interceptor`: drop the first occurrence, if any. */
  function RemoveFirst(s: seq<Interceptor>, x: Interceptor): (r: seq<Interceptor>)
    ensures x !in s ==> r == s
    ensures x in s ==> |r| == |s| - 1 && multiset(r) == multiset(s) - multiset{x}
  {
    if s == [] then []
    else
      assert s == [s[0]] + s[1..];
      if s[0] == x then s[1..]
      else [s[0]] + RemoveFirst(s[1..], x)
  }

  // ---------------------------------------------------------------------------
  // The trace
  // ---------------------------------------------------------------------------

  datatype Event =
      /** A live subscription's callback ran with the action. */
    | Delivered(sub: DispatcherSubscription, action: Action)
      /** A disposed subscription got an action and only logged an error. */
    | DroppedByDisposed(sub: DispatcherSubscription, action: Action)
      /** Unregistering found nothing to remove and only logged a warning. */
    | UnregisterFailed(sub: DispatcherSubscription)
      /** A pass-through interceptor saw the action on its way in. */
    | Intercepted(observer: nat, action: Action)

  // ---------------------------------------------------------------------------
  // One tag's subscriptions: the TreeSet ordered by (priority, id)
  // ---------------------------------------------------------------------------

  predicate KeyLess(a: DispatcherSubscription, b: DispatcherSubscription) {
    a.priority < b.priority || (a.priority == b.priority && a.id < b.id)
  }

  /** The TreeSet comparator returns 0. */
  predicate SameKey(a: DispatcherSubscription, b: DispatcherSubscription) {
    a.priority == b.priority && a.id == b.id
  }

  /** Strictly ascending by (priority, id): the TreeSet's iteration order. */
  predicate Ordered(s: seq<DispatcherSubscription>) {
    forall i, j :: 0 <= i < j < |s| ==> KeyLess(s[i], s[j])
  }

  /** The set holds an element that compares equal to `x`. */
  predicate HasKey(s: seq<DispatcherSubscription>, x: DispatcherSubscription) {
    exists i :: 0 <= i < |s| && SameKey(s[i], x)
  }

  lemma HasKeyCons(s: seq<DispatcherSubscription>, x: DispatcherSubscription)
    requires s != []
    ensures HasKey(s, x) <==> SameKey(s[0], x) || HasKey(s[1..], x)
  {
    if HasKey(s, x) && !SameKey(s[0], x) {
      var i :| 0 <= i < |s| && SameKey(s[i], x);
      assert SameKey(s[1..][i - 1], x);
    }
    if HasKey(s[1..], x) {
      var i :| 0 <= i < |s| - 1 && SameKey(s[1..][i], x);
      assert SameKey(s[i + 1], x);
    }
  }

  lemma OrderedTail(s: seq<DispatcherSubscription>)
    requires Ordered(s) && s != []
    ensures Ordered(s[1..])
    ensures forall y :: y in s[1..] ==> KeyLess(s[0], y)
  {
    forall y | y in s[1..] ensures KeyLess(s[0], y) {
      var j :| 0 <= j < |s[1..]| && s[1..][j] == y;
      assert s[j + 1] == y;
    }
  }

  lemma OrderedCons(a: DispatcherSubscription, rest: seq<DispatcherSubscription>)
    requires Ordered(rest)
    requires forall y :: y in rest ==> KeyLess(a, y)
    ensures Ordered([a] + rest)
  {
    var s := [a] + rest;
    forall i, j | 0 <= i < j < |s| ensures KeyLess(s[i], s[j]) {
      assert s[j] == rest[j - 1];
      if i == 0 {
        assert rest[j - 1] in rest;
      } else {
        assert s[i] == rest[i - 1];
      }
    }
  }

  lemma MultisetMembers(a: seq<DispatcherSubscription>, b: seq<DispatcherSubscription>, extra: multiset<DispatcherSubscription>)
    requires multiset(a) <= multiset(b) + extra
    ensures forall y :: y in a ==> y in b || y in extra
  {
    forall y | y in a ensures y in b || y in extra {
      assert y in multiset(a);
    }
  }

  /** `TreeSet.add`: insert in order, or leave the set alone when an element compares equal. */
  function Insert(s: seq<DispatcherSubscription>, x: DispatcherSubscription): (r: seq<DispatcherSubscription>)
    requires Ordered(s)
    ensures Ordered(r)
    ensures HasKey(s, x) ==> r == s
    ensures !HasKey(s, x) ==> multiset(r) == multiset(s) + multiset{x}
  {
    if s == [] then [x]
    else
      HasKeyCons(s, x);
      OrderedTail(s);
      assert s == [s[0]] + s[1..];
      if SameKey(s[0], x) then s
      else if KeyLess(x, s[0]) then
        OrderedCons(x, s);
        [x] + s
      else
        var rest := Insert(s[1..], x);
        MultisetMembers(rest, s[1..], multiset{x});
        OrderedCons(s[0], rest);
        [s[0]] + rest
  }

  /** Inserting an element with a new key keeps every element already there, and adds it. */
  lemma InsertKeeps(s: seq<DispatcherSubscription>, x: DispatcherSubscription)
    requires Ordered(s) && !HasKey(s, x)
    ensures x in Insert(s, x)
    ensures forall y :: y in s ==> y in Insert(s, x)
  {
    var r := Insert(s, x);
    assert x in multiset(r);
    forall y | y in s ensures y in r {
      assert y in multiset(s);
    }
  }

  /** Replacing one tag's set by a superset keeps every subscription of the registry. */
  lemma FilingKeeps(m: map<Tag, seq<DispatcherSubscription>>, tag: Tag, added: seq<DispatcherSubscription>)
    requires forall y :: y in (if tag in m then m[tag] else []) ==> y in added
    ensures forall t, y :: t in m && y in m[t] ==> t in m[tag := added] && y in m[tag := added][t]
  {
  }

  /** `TreeSet.remove`: drop the element that compares equal, if there is one, and nothing else. */
  function RemoveKey(s: seq<DispatcherSubscription>, x: DispatcherSubscription): (r: seq<DispatcherSubscription>)
    requires Ordered(s)
    ensures Ordered(r)
    ensures !HasKey(s, x) ==> r == s
    ensures HasKey(s, x) ==> |r| == |s| - 1
    ensures multiset(r) <= multiset(s)
    ensures forall y :: y in s && !SameKey(y, x) ==> y in r
    ensures !HasKey(r, x)
  {
    if s == [] then []
    else
      HasKeyCons(s, x);
      OrderedTail(s);
      assert s == [s[0]] + s[1..];
      if SameKey(s[0], x) then
        assert !HasKey(s[1..], x) by {
          forall i | 0 <= i < |s[1..]| ensures !SameKey(s[1..][i], x) {
            assert s[1..][i] in s[1..];
          }
        }
        s[1..]
      else
        var rest := RemoveKey(s[1..], x);
        MultisetMembers(rest, s[1..], multiset{});
        OrderedCons(s[0], rest);
        HasKeyCons([s[0]] + rest, x);
        assert ([s[0]] + rest)[1..] == rest;
        [s[0]] + rest
  }

  /** The trace of the root link for one tag's subscriptions: each callback in set order. */
  function Deliveries(subs: seq<DispatcherSubscription>, action: Action): (e: seq<Event>)
    ensures |e| == |subs|
    ensures forall k :: 0 <= k < |subs| ==> e[k] == Delivered(subs[k], action)
  {
    if subs == [] then []
    else Deliveries(subs[..|subs| - 1], action) + [Delivered(subs[|subs| - 1], action)]
  }

  /** The trace of the root link: the subscribers of each tag in turn, in the order of the tags. */
  function RootEvents(registry: map<Tag, seq<DispatcherSubscription>>, tags: seq<Tag>, action: Action): seq<Event>
  {
    if tags == [] then []
    else
      var t := tags[|tags| - 1];
      RootEvents(registry, tags[..|tags| - 1], action)
      + (if t in registry then Deliveries(registry[t], action) else [])
  }


  /** One more tag adds that tag's deliveries at the end. */
  lemma RootEventsSnoc(registry: map<Tag, seq<DispatcherSubscription>>, tags: seq<Tag>, k: nat, action: Action)
    requires k < |tags|
    ensures RootEvents(registry, tags[..k + 1], action)
            == RootEvents(registry, tags[..k], action) + (if tags[k] in registry then Deliveries(registry[tags[k]], action) else [])
  {
    assert tags[..k + 1][..k] == tags[..k];
  }

  /** The trace of `chain.proceed` on `c`: the observers passed, then the root link's deliveries if it is reached. */
  function ProceedEvents(c: Chain, registry: map<Tag, seq<DispatcherSubscription>>, action: Action): (e: seq<Event>)
    ensures e == ChainEvents(c, action) + (if ReachesRoot(c) then RootEvents(registry, Tags(action), action) else [])
  {
    match c
    case Root => RootEvents(registry, Tags(action), action)
    case Link(i, next) =>
      if i.Muter? then []
      else
        var rest := ProceedEvents(next, registry, action);
        AppendAssoc([Intercepted(i.name, action)], ChainEvents(next, action),
                    if ReachesRoot(next) then RootEvents(registry, Tags(action), action) else []);
        [Intercepted(i.name, action)] + rest
  }

  /**
   * The root link runs the callback of exactly the subscriptions registered
   * under one of the action's tags, and of no other.
   */
  lemma {:induction false} RootEventsMembers(registry: map<Tag, seq<DispatcherSubscription>>, tags: seq<Tag>,
                                             action: Action, e: Event)
    ensures e in RootEvents(registry, tags, action) <==>
            e.Delivered? && e.action == action &&
            exists k :: 0 <= k < |tags| && tags[k] in registry && e.sub in registry[tags[k]]
    decreases |tags|
  {
    if tags != [] {
      var n := |tags| - 1;
      var t := tags[n];
      RootEventsMembers(registry, tags[..n], action, e);
      var mine := if t in registry then Deliveries(registry[t], action) else [];
      assert e in mine <==> e.Delivered? && e.action == action && t in registry && e.sub in registry[t] by {
        if t in registry && e.Delivered? && e.action == action && e.sub in registry[t] {
          var j :| 0 <= j < |registry[t]| && registry[t][j] == e.sub;
          assert mine[j] == e;
        }
      }
      if e.Delivered? && e.action == action {
        if exists k :: 0 <= k < |tags| && tags[k] in registry && e.sub in registry[tags[k]] {
          var k :| 0 <= k < |tags| && tags[k] in registry && e.sub in registry[tags[k]];
          if k < n {
            assert tags[..n][k] == tags[k];
          }
        }
        if exists k :: 0 <= k < n && tags[..n][k] in registry && e.sub in registry[tags[..n][k]] {
          var k :| 0 <= k < n && tags[..n][k] in registry && e.sub in registry[tags[..n][k]];
          assert tags[k] == tags[..n][k];
        }
      }
    }
  }

  // ---------------------------------------------------------------------------
  // Subscriptions
  // ---------------------------------------------------------------------------

  /**
   * `DispatcherSubscription`: a registration of a callback for one tag. It
   * moves from active to disposed once and never back.
   */
  class DispatcherSubscription {
    const dispatcher: Dispatcher
    const id: int
    const priority: int
    const tag: Tag
    var disposed: bool

    constructor(dispatcher: Dispatcher, id: int, priority: int, tag: Tag)
      ensures this.dispatcher == dispatcher && this.id == id && this.priority == priority && this.tag == tag
      ensures !disposed
    {
      this.dispatcher := dispatcher;
      this.id := id;
      this.priority := priority;
      this.tag := tag;
      disposed := false;
    }

    /**
     * `onAction`: a disposed subscription only logs an error; a live one
     * runs its callback.
     */
    method OnAction(action: Action)
      modifies dispatcher`events
      ensures dispatcher.events == old(dispatcher.events)
                                   + [if disposed then DroppedByDisposed(this, action) else Delivered(this, action)]
    {
      if disposed {
        dispatcher.events := dispatcher.events + [DroppedByDisposed(this, action)];
        return;
      }
      dispatcher.events := dispatcher.events + [Delivered(this, action)];
    }

    /**
     * `dispose`: unregister, then mark disposed. Disposing again changes
     * nothing, not even the trace.
     */
    method Dispose()
      requires dispatcher.Valid()
      modifies this`disposed, dispatcher`registry, dispatcher`events
      ensures dispatcher.Valid()
      ensures disposed
      ensures old(disposed) ==> dispatcher.registry == old(dispatcher.registry) && dispatcher.events == old(dispatcher.events)
      ensures !old(disposed) ==> dispatcher.registry == old(dispatcher.Unregistered(this))
      ensures !old(disposed) ==>
                dispatcher.events == old(dispatcher.events) + (if old(dispatcher.CanRemove(this)) then [] else [UnregisterFailed(this)])
      ensures !dispatcher.IsRegistered(this)
      ensures forall x :: dispatcher.IsRegistered(x) ==> x.tag in old(dispatcher.registry) && x in old(dispatcher.registry)[x.tag]
      ensures forall x: DispatcherSubscription :: (x.tag in old(dispatcher.registry) && x in old(dispatcher.registry)[x.tag]) && !(x.tag == tag && SameKey(x, this)) ==> dispatcher.IsRegistered(x)
    {
      if disposed {
        return;
      }
      dispatcher.Unregister(this);
      disposed := true;
    }
  }

  // ---------------------------------------------------------------------------
  // The dispatcher
  // ---------------------------------------------------------------------------

  datatype DispatchOutcome =
      /** The action went down the chain. */
    | Dispatched
      /** `assertOnUiThread` threw before anything else happened. */
    | NotOnUiThread
      /** "Can't dispatch actions while reducing state!" */
    | Reentrant

  class Dispatcher {
    var dispatching: bool
    /** `subscriptionMap`: once a tag has a set, the set stays, possibly empty. */
    var registry: map<Tag, seq<DispatcherSubscription>>
    /** `subscriptionCounter`: the id the next subscription gets. */
    var counter: int
    var interceptors: seq<Interceptor>
    var chain: Chain
    /** The global `actionCounter` of Interceptor.kt. */
    var actionCounter: int
    var events: seq<Event>

    /** Every subscription held in the registry. */
    function Registered(): set<DispatcherSubscription>
      reads this`registry
    {
      set t, y | t in registry && y in registry[t] :: y
    }

    predicate IsRegistered(s: DispatcherSubscription)
      reads this`registry
    {
      s.tag in registry && s in registry[s.tag]
    }

    /** A live subscription of this dispatcher, filed under `t`, whose id was handed out. */
    ghost predicate Good(y: DispatcherSubscription, t: Tag)
      reads this`counter, y
    {
      y.tag == t && y.dispatcher == this && 0 <= y.id < counter && !y.disposed
    }

    /**
     * The chain is the fold of the interceptor list; each tag's set is
     * ordered by (priority, id) and holds live subscriptions of this
     * dispatcher filed under that tag, with ids below the counter.
     */
    ghost predicate Valid()
      reads this`chain, this`interceptors, this`counter, this`registry, Registered()
    {
      && chain == BuildChain(interceptors)
      && counter >= 0
      && (forall t :: t in registry ==> Ordered(registry[t]))
      && (forall t, y :: t in registry && y in registry[t] ==> Good(y, t))
    }

    constructor()
      ensures Valid()
      ensures !dispatching && registry == map[] && counter == 0 && interceptors == [] && chain == Root
      ensures actionCounter == 0 && events == []
    {
      dispatching := false;
      registry := map[];
      counter := 0;
      interceptors := [];
      chain := Root;
      actionCounter := 0;
      events := [];
    }

    /** The tag's set, or the empty one `getOrPut` would create. */
    function SetOf(t: Tag): seq<DispatcherSubscription>
      reads this`registry
    {
      if t in registry then registry[t] else []
    }

    /** `unregisterInternal` would remove something. */
    predicate CanRemove(s: DispatcherSubscription)
      reads this`registry
    {
      s.tag in registry && HasKey(registry[s.tag], s)
    }

    /** The registry after `unregisterInternal(s)`. */
    ghost function Unregistered(s: DispatcherSubscription): map<Tag, seq<DispatcherSubscription>>
      requires Valid()
      reads this`chain, this`interceptors, this`counter, this`registry, Registered()
    {
      if CanRemove(s) then registry[s.tag := RemoveKey(registry[s.tag], s)] else registry
    }

    /** `subscribe(tag)`: the default priority. */
    method Subscribe(tag: Tag) returns (sub: DispatcherSubscription)
      requires Valid()
      modifies this`registry, this`counter
      ensures Valid()
      ensures fresh(sub) && sub.dispatcher == this && sub.tag == tag && !sub.disposed
      ensures sub.priority == DEFAULT_PRIORITY && sub.id == old(counter) && counter == old(counter) + 1
      ensures registry == old(registry)[tag := Insert(old(SetOf(tag)), sub)] && sub in registry[tag]
      ensures forall t, y :: t in old(registry) && y in old(registry)[t] ==> t in registry && y in registry[t]
      ensures forall y: DispatcherSubscription :: y.tag in old(registry) && y in old(registry)[y.tag] ==> IsRegistered(y)
    {
      sub := SubscribeWithPriority(DEFAULT_PRIORITY, tag);
    }

    /**
     * `subscribe(priority, tag)`: a new subscription with the next id, added
     * to the tag's set. Its id is above every id in the registry.
     */
    method SubscribeWithPriority(priority: int, tag: Tag) returns (sub: DispatcherSubscription)
      requires Valid()
      modifies this`registry, this`counter
      ensures Valid()
      ensures fresh(sub) && sub.dispatcher == this && sub.tag == tag && !sub.disposed
      ensures sub.priority == priority && sub.id == old(counter) && counter == old(counter) + 1
      ensures forall t, y :: t in old(registry) && y in old(registry)[t] ==> y.id < sub.id
      ensures registry == old(registry)[tag := Insert(old(SetOf(tag)), sub)] && sub in registry[tag]
      ensures forall t, y :: t in old(registry) && y in old(registry)[t] ==> t in registry && y in registry[t]
      ensures forall y: DispatcherSubscription :: y.tag in old(registry) && y in old(registry)[y.tag] ==> IsRegistered(y)
    {
      sub := new DispatcherSubscription(this, counter, priority, tag);
      counter := counter + 1;
      assert Valid();
      Register(sub);
    }

    /** `registerInternal`: file the subscription under its tag. */
    method Register(sub: DispatcherSubscription)
      requires Valid()
      requires sub.dispatcher == this && 0 <= sub.id < counter && !sub.disposed
      requires forall t, y :: t in registry && y in registry[t] ==> y.id < sub.id
      modifies this`registry
      ensures Valid()
      ensures registry == old(registry)[sub.tag := Insert(old(SetOf(sub.tag)), sub)] && sub in registry[sub.tag]
      ensures forall t, y :: t in old(registry) && y in old(registry)[t] ==> t in registry && y in registry[t]
    {
      var set_ := SetOf(sub.tag);
      assert !HasKey(set_, sub) by {
        forall i | 0 <= i < |set_| ensures !SameKey(set_[i], sub) {
          assert set_[i] in registry[sub.tag];
        }
      }
      var added := Insert(set_, sub);
      MultisetMembers(added, set_, multiset{sub});
      InsertKeeps(set_, sub);
      FilingKeeps(registry, sub.tag, added);
      FilingGood(sub, added, registry[sub.tag := added]);
      registry := registry[sub.tag := added];
    }

    /** Filing a superset of a tag's set, made of its members and `sub`, keeps every set ordered and every member good. */
    lemma FilingGood(sub: DispatcherSubscription, added: seq<DispatcherSubscription>, filed: map<Tag, seq<DispatcherSubscription>>)
      requires Valid()
      requires Good(sub, sub.tag) && Ordered(added)
      requires forall y :: y in added ==> y in SetOf(sub.tag) || y == sub
      requires filed == registry[sub.tag := added]
      ensures forall t :: t in filed ==> Ordered(filed[t])
      ensures forall t, y :: t in filed && y in filed[t] ==> Good(y, t)
    {
    }

    /**
     * `unregisterInternal`: remove the element of the tag's set that compares
     * equal; when there is none, the registry is left alone and a warning is
     * logged.
     */
    method Unregister(sub: DispatcherSubscription)
      requires Valid()
      modifies this`registry, this`events
      ensures Valid()
      ensures registry == old(Unregistered(sub))
      ensures events == old(events) + (if old(CanRemove(sub)) then [] else [UnregisterFailed(sub)])
      ensures !old(CanRemove(sub)) ==> registry == old(registry)
      ensures !IsRegistered(sub)
      ensures forall x :: IsRegistered(x) ==> x.tag in old(registry) && x in old(registry)[x.tag]
      ensures forall x: DispatcherSubscription :: (x.tag in old(registry) && x in old(registry)[x.tag]) && !(x.tag == sub.tag && SameKey(x, sub)) ==> IsRegistered(x)
    {
      if CanRemove(sub) {
        var removed := RemoveKey(registry[sub.tag], sub);
        MultisetMembers(removed, registry[sub.tag], multiset{});
        registry := registry[sub.tag := removed];
        assert forall t, y :: t in registry && y in registry[t] ==> y in old(Registered());
        assert sub !in removed by {
          forall i | 0 <= i < |removed| ensures removed[i] != sub {
            assert !SameKey(removed[i], sub);
          }
        }
      } else {
        events := events + [UnregisterFailed(sub)];
        assert sub.tag in registry ==> sub !in registry[sub.tag] by {
          if sub.tag in registry {
            forall i | 0 <= i < |registry[sub.tag]| ensures registry[sub.tag][i] != sub {
              assert !SameKey(registry[sub.tag][i], sub);
            }
          }
        }
      }
    }

    /** `clearDispatcher`: forget every subscription and restart the ids at 0. */
    method ClearDispatcher()
      requires Valid()
      modifies this`registry, this`counter
      ensures Valid()
      ensures registry == map[] && counter == 0
    {
      registry := map[];
      counter := 0;
    }

    /** `addInterceptor`: append, and rebuild the chain. */
    method AddInterceptor(i: Interceptor)
      requires Valid()
      modifies this`interceptors, this`chain
      ensures Valid()
      ensures interceptors == old(interceptors) + [i]
      ensures chain == Link(i, old(chain))
    {
      interceptors := interceptors + [i];
      chain := BuildChain(interceptors);
      BuildChainSnoc(old(interceptors), i);
    }

    /** `removeInterceptor`: drop its first occurrence, and rebuild the chain. */
    method RemoveInterceptor(i: Interceptor)
      requires Valid()
      modifies this`interceptors, this`chain
      ensures Valid()
      ensures interceptors == RemoveFirst(old(interceptors), i)
      ensures i !in old(interceptors) ==> chain == old(chain)
    {
      interceptors := RemoveFirst(interceptors, i);
      chain := BuildChain(interceptors);
    }

    /** Run the callbacks of one tag's subscriptions, in set order. */
    method Deliver(subs: seq<DispatcherSubscription>, action: Action)
      requires forall y :: y in subs ==> y.dispatcher == this && !y.disposed
      modifies this`events
      ensures events == old(events) + Deliveries(subs, action)
    {
      var k := 0;
      while k < |subs|
        invariant 0 <= k <= |subs|
        invariant events == old(events) + Deliveries(subs[..k], action)
      {
        subs[k].OnAction(action);
        assert subs[..k + 1][..k] == subs[..k];
        k := k + 1;
      }
      assert subs[..k] == subs;
    }

    /** Every registered subscription belongs to this dispatcher and is not disposed. */
    ghost predicate Live()
      reads this`registry, Registered()
    {
      forall t, y :: t in registry && y in registry[t] ==> y.dispatcher == this && !y.disposed
    }

    /**
     * `rootChain.proceed`: for each of the action's tags, the subscribers of
     * that tag in set order; returns the action unchanged.
     */
    method RootProceed(action: Action) returns (r: Action)
      requires Live()
      modifies this`events
      ensures r == action
      ensures events == old(events) + RootEvents(registry, Tags(action), action)
    {
      var tags := Tags(action);
      var k := 0;
      while k < |tags|
        invariant 0 <= k <= |tags|
        invariant events == old(events) + RootEvents(registry, tags[..k], action)
      {
        var t := tags[k];
        ghost var d := if t in registry then Deliveries(registry[t], action) else [];
        ghost var before := events;
        RootEventsSnoc(registry, tags, k, action);
        if t in registry {
          assert forall y :: y in registry[t] ==> y.dispatcher == this && !y.disposed;
          Deliver(registry[t], action);
        }
        AppendAssoc(old(events), RootEvents(registry, tags[..k], action), d);
        k := k + 1;
      }
      assert tags[..k] == tags;
      r := action;
    }

    /** `chain.proceed(action)` for the chain `c`. */
    method Proceed(c: Chain, action: Action) returns (r: Action)
      requires Live()
      modifies this`events, Answering(c)
      ensures r == ChainResult(c, action)
      ensures events == old(events) + ProceedEvents(c, registry, action)
      ensures FirstMuter(c).Some? ==>
                FirstMuter(c).value.mutedActions == old(FirstMuter(c).value.mutedActions) + [action]
      decreases c
    {
      match c
      case Root =>
        r := RootProceed(action);
      case Link(i, next) =>
        if i.Muter? {
          r := i.muter.Invoke(action);
        } else {
          ghost var before := events;
          events := events + [Intercepted(i.name, action)];
          r := Proceed(next, action);
          AppendAssoc(before, [Intercepted(i.name, action)], ProceedEvents(next, registry, action));
        }
    }

    /**
     * `dispatch`: reject a call off the UI thread, or a re-entrant one;
     * otherwise count the action and send it down the chain. `dispatching`
     * is false again whenever the `try` is left.
     */
    method Dispatch(action: Action, onUiThread: bool) returns (outcome: DispatchOutcome)
      requires Valid()
      modifies this`dispatching, this`actionCounter, this`events, Answering(chain)
      ensures Valid()
      ensures !onUiThread ==> outcome == NotOnUiThread && dispatching == old(dispatching)
      ensures onUiThread ==> !dispatching
      ensures onUiThread && old(dispatching) ==> outcome == Reentrant
      ensures onUiThread && !old(dispatching) ==> outcome == Dispatched
      ensures outcome != Dispatched ==>
                && events == old(events) && actionCounter == old(actionCounter)
                && (FirstMuter(chain).Some? ==> FirstMuter(chain).value.mutedActions == old(FirstMuter(chain).value.mutedActions))
      ensures outcome == Dispatched ==>
                && actionCounter == old(actionCounter) + 1
                && events == old(events) + ProceedEvents(chain, registry, action)
                && (FirstMuter(chain).Some? ==>
                      FirstMuter(chain).value.mutedActions == old(FirstMuter(chain).value.mutedActions) + [action])
    {
      if !onUiThread {
        return NotOnUiThread;
      }
      if dispatching {
        dispatching := false;
        return Reentrant;
      }
      actionCounter := actionCounter + 1;
      dispatching := true;
      assert Live();
      var _ := Proceed(chain, action);
      dispatching := false;
      outcome := Dispatched;
    }
  }

  /**
   * With a muter installed, the trace `Dispatch` appends holds no delivery
   * at all, whatever the registry, and the last muter added records the
   * action.
   */
  lemma MutedDispatchDeliversNothing(interceptors: seq<Interceptor>, k: nat,
                                     registry: map<Tag, seq<DispatcherSubscription>>, action: Action)
    requires k < |interceptors| && interceptors[k].Muter?
    requires forall j :: k < j < |interceptors| ==> interceptors[j].Observer?
    ensures var c := BuildChain(interceptors);
            forall e :: e in ChainEvents(c, action) + (if ReachesRoot(c) then RootEvents(registry, Tags(action), action) else [])
                        ==> !e.Delivered?
    ensures FirstMuter(BuildChain(interceptors)) == Some(interceptors[k].muter)
  {
    MuterShortCircuits(interceptors, k, action);
    var c := BuildChain(interceptors);
    forall e | e in ChainEvents(c, action) ensures !e.Delivered? {
      var j :| 0 <= j < |ChainEvents(c, action)| && ChainEvents(c, action)[j] == e;
    }
  }

  /** Removing an interceptor right after adding it restores the list, and so the chain. */
  lemma {:induction false} AddThenRemoveInterceptor(interceptors: seq<Interceptor>, i: Interceptor)
    requires i !in interceptors
    ensures RemoveFirst(interceptors + [i], i) == interceptors
  {
    if interceptors == [] {
      assert [] + [i] == [i];
    } else {
      assert (interceptors + [i])[1..] == interceptors[1..] + [i];
      AddThenRemoveInterceptor(interceptors[1..], i);
      assert interceptors == [interceptors[0]] + interceptors[1..];
    }
  }

  /** `dispatcher.subscribe(tag)`, seen from a caller that holds earlier subscriptions: they stay registered. */
  method SubscribeKeeping(d: Dispatcher, tag: Tag, earlier: seq<DispatcherSubscription>) returns (sub: DispatcherSubscription)
    requires d.Valid()
    requires forall y :: y in earlier ==> d.IsRegistered(y)
    modifies d`registry, d`counter
    ensures d.Valid()
    ensures sub.tag == tag && sub.dispatcher == d && sub.priority == DEFAULT_PRIORITY
    ensures sub.id == old(d.counter) && d.counter == old(d.counter) + 1
    ensures d.IsRegistered(sub) && forall y :: y in earlier ==> d.IsRegistered(y)
  {
    sub := d.Subscribe(tag);
  }
}
