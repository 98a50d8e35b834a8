/**
 * Store initialisation (`FluxUtil.initStores` in mini/flux/FluxUtil.kt):
 * sort the stores by `initOrder`, then for each in turn call `init()` and
 * read its state so that the initial state is created.
 */
module FluxUtils {
  import opened Collections
  import opened Stores

  /** A store as initialisation sees it: which one it is, and its properties. */
  datatype StoreEntry = StoreEntry(id: nat, properties: StoreProperties)

  /** The two calls the loop makes on a store. */
  datatype InitStep = CallInit(store: StoreEntry) | ForceState(store: StoreEntry)

  function InitKey(s: StoreEntry): seq<int> {
    [s.properties.initOrder]
  }

  /** `sortedBy { it.properties.initOrder }`: a stable sort, lowest `initOrder` first. */
  function InitSequence(stores: seq<StoreEntry>): (r: seq<StoreEntry>)
    ensures multiset(r) == multiset(stores)
    ensures forall i, j :: 0 <= i < j < |r| ==> r[i].properties.initOrder <= r[j].properties.initOrder
  {
    var r := SortBy(stores, InitKey);
    assert forall i, j :: 0 <= i < j < |r| ==> LexLe(InitKey(r[i]), InitKey(r[j]));
    r
  }

  /** The calls the loop makes, store after store: `init()`, then `state`. */
  function Steps(sorted: seq<StoreEntry>): (r: seq<InitStep>)
    ensures |r| == 2 * |sorted|
    ensures forall i :: 0 <= i < |sorted| ==> r[2 * i] == CallInit(sorted[i]) && r[2 * i + 1] == ForceState(sorted[i])
  {
    if sorted == [] then []
    else
      var n := |sorted| - 1;
      Steps(sorted[..n]) + [CallInit(sorted[n]), ForceState(sorted[n])]
  }

  /** The stores `init()` is called on, in call order. */
  function InitCalls(trace: seq<InitStep>): seq<StoreEntry> {
    if trace == [] then []
    else
      var n := |trace| - 1;
      InitCalls(trace[..n]) + (if trace[n].CallInit? then [trace[n].store] else [])
  }

  lemma {:induction false} InitCallsOfSteps(sorted: seq<StoreEntry>)
    ensures InitCalls(Steps(sorted)) == sorted
  {
    if sorted != [] {
      var n := |sorted| - 1;
      var prefix := Steps(sorted[..n]);
      var t := prefix + [CallInit(sorted[n]), ForceState(sorted[n])];
      assert t[..|t| - 1] == prefix + [CallInit(sorted[n])];
      assert (prefix + [CallInit(sorted[n])])[..|prefix|] == prefix;
      InitCallsOfSteps(sorted[..n]);
      assert sorted == sorted[..n] + [sorted[n]];
    }
  }

  /**
   * `initStores`. `measure(i)` is the time the clock shows the i-th store's
   * `init()` and state creation took; it fills `initTimes[i]`.
   */
  method InitStores(uninitialized: seq<StoreEntry>, measure: nat -> int)
    returns (trace: seq<InitStep>, initTimes: array<int>)
    ensures trace == Steps(InitSequence(uninitialized))
    ensures fresh(initTimes) && initTimes.Length == |uninitialized|
    ensures forall i :: 0 <= i < initTimes.Length ==> initTimes[i] == measure(i)
  {
    var stores := InitSequence(uninitialized);
    trace, initTimes := InitInOrder(stores, measure);
  }

  /** The loop of `initStores` over stores already sorted. */
  method InitInOrder(stores: seq<StoreEntry>, measure: nat -> int)
    returns (trace: seq<InitStep>, initTimes: array<int>)
    ensures trace == Steps(stores)
    ensures fresh(initTimes) && initTimes.Length == |stores|
    ensures forall i :: 0 <= i < initTimes.Length ==> initTimes[i] == measure(i)
  {
    initTimes := new int[|stores|](i => 0);
    trace := [];
    for i := 0 to |stores|
      invariant trace == Steps(stores[..i])
      invariant forall j :: 0 <= j < i ==> initTimes[j] == measure(j)
      invariant forall j :: i <= j < initTimes.Length ==> initTimes[j] == 0
    {
      trace := trace + [CallInit(stores[i])];
      trace := trace + [ForceState(stores[i])];
      initTimes[i] := initTimes[i] + measure(i);
      assert stores[..i + 1][..i] == stores[..i];
    }
    assert stores[..|stores|] == stores;
  }

  /**
   * `init()` is called exactly once per store passed in (counting
   * duplicates), and each store's state is created right after its own
   * `init()`, before the next store's.
   */
  lemma InitOncePerStore(uninitialized: seq<StoreEntry>)
    ensures multiset(InitCalls(Steps(InitSequence(uninitialized)))) == multiset(uninitialized)
    ensures var t := Steps(InitSequence(uninitialized));
            forall j :: 0 <= j < |t| && t[j].CallInit? ==> j + 1 < |t| && t[j + 1] == ForceState(t[j].store)
  {
    InitCallsOfSteps(InitSequence(uninitialized));
    var s := InitSequence(uninitialized);
    var t := Steps(s);
    forall j | 0 <= j < |t| && t[j].CallInit? ensures j + 1 < |t| && t[j + 1] == ForceState(t[j].store) {
      var q := j / 2;
      assert t[2 * q] == CallInit(s[q]) && t[2 * q + 1] == ForceState(s[q]);
      assert j == 2 * q;
    }
  }

  /** Stores are initialised by ascending `initOrder`; stores with equal `initOrder` keep their given order. */
  lemma {:induction false} InitOrderIsStable(uninitialized: seq<StoreEntry>, order: int)
    ensures var calls := InitCalls(Steps(InitSequence(uninitialized)));
            && (forall i, j :: 0 <= i < j < |calls| ==> calls[i].properties.initOrder <= calls[j].properties.initOrder)
            && WithKey(calls, InitKey, [order]) == WithKey(uninitialized, InitKey, [order])
  {
    InitCallsOfSteps(InitSequence(uninitialized));
    SortByStable(uninitialized, InitKey, [order]);
  }
}
