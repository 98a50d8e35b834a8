/**
 * The logging interceptor (mini/log/LoggerInterceptor.kt). It passes every
 * action down the chain exactly once, keeps one snapshot per store of the
 * state object it last saw, and, unless the action is silent, writes a log
 * block naming the stores whose state object changed.
 */
module Logging {
  import opened Actions

  /** The cap on the time since the last action that a log block shows. */
  const MAX_SINCE_LAST: int := 9999

  /** What `chain.proceed(action)` hands back: the action returned, and each store's state afterwards. */
  datatype Proceeded = Proceeded(out: Action, states: seq<object>)

  /**
   * One log block: the action, its processing time, the time since the
   * previous action (capped), the last digit of the action counter, and the
   * indices of the stores that get a line.
   */
  datatype LogBlock = LogBlock(action: Action, processTime: int, sinceLast: int, counterDigit: int, changed: seq<nat>)

  /** `Math.min(start - lastActionTime, 9999)`. */
  function SinceLast(start: int, last: int): (r: int)
    ensures r <= MAX_SINCE_LAST
    ensures r == start - last || r == MAX_SINCE_LAST
    ensures start - last <= MAX_SINCE_LAST ==> r == start - last
  {
    if start - last < MAX_SINCE_LAST then start - last else MAX_SINCE_LAST
  }

  /**
   * The stores whose state object is not the snapshot (`oldState !==
   * newState`), in store order. Equal but distinct objects count as changed.
   */
  function Changed(before: seq<object>, after: seq<object>): (r: seq<nat>)
    requires |before| == |after|
    ensures forall i: nat :: i in r <==> i < |before| && before[i] != after[i]
    ensures forall k, l :: 0 <= k < l < |r| ==> r[k] < r[l]
    ensures before == after ==> r == []
  {
    var r := ChangedUpTo(before, after, |before|);
    assert r != [] ==> r[0] in r;
    r
  }

  /** `Changed` over the first `n` stores. */
  function ChangedUpTo(before: seq<object>, after: seq<object>, n: nat): (r: seq<nat>)
    requires |before| == |after| && n <= |before|
    ensures forall i: nat :: i in r <==> i < n && before[i] != after[i]
    ensures forall k, l :: 0 <= k < l < |r| ==> r[k] < r[l]
    ensures forall k :: 0 <= k < |r| ==> r[k] < n
  {
    if n == 0 then []
    else
      var r := ChangedUpTo(before, after, n - 1);
      r + (if before[n - 1] != after[n - 1] then [n - 1] else [])
  }

  /**
   * The `forEachIndexed` over the stores: each snapshot is compared by
   * identity with the store's state, then replaced by it. Returns the
   * stores that get a line.
   */
  method Refresh(snapshots: array<object>, after: seq<object>) returns (lines: seq<nat>)
    requires snapshots.Length == |after|
    modifies snapshots
    ensures snapshots[..] == after
    ensures lines == Changed(old(snapshots[..]), after)
  {
    ghost var before := snapshots[..];
    lines := [];
    for i := 0 to snapshots.Length
      invariant forall j :: 0 <= j < i ==> snapshots[j] == after[j]
      invariant forall j :: i <= j < snapshots.Length ==> snapshots[j] == before[j]
      invariant lines == ChangedUpTo(before, after, i)
    {
      assert ChangedUpTo(before, after, i + 1)
          == ChangedUpTo(before, after, i) + (if before[i] != after[i] then [i] else []);
      if snapshots[i] != after[i] {
        lines := lines + [i];
      }
      snapshots[i] := after[i];
    }
  }

  class LoggerInterceptor {
    /** The number of stores the interceptor watches. */
    const storeCount: nat
    /** `states`: created from the stores' states on the first invoke, then one snapshot per store. */
    var states: array?<object>
    var lastActionTime: int
    /** `actionCounter`; a Kotlin `Long`, taken here as unbounded. */
    var actionCounter: int
    /** The actions passed to `chain.proceed`, in order. */
    var proceeded: seq<Action>
    /** The log blocks written, in order. */
    var blocks: seq<LogBlock>

    ghost predicate Valid()
      reads this
    {
      states != null ==> states.Length == storeCount
    }

    /** `now` is the clock reading when the interceptor is built. */
    constructor(storeCount: nat, now: int)
      ensures Valid()
      ensures this.storeCount == storeCount && states == null
      ensures lastActionTime == now && actionCounter == 0 && proceeded == [] && blocks == []
    {
      this.storeCount := storeCount;
      states := null;
      lastActionTime := now;
      actionCounter := 0;
      proceeded := [];
      blocks := [];
    }

    /**
     * `invoke(action, chain)`. `current` is each store's state when the
     * snapshot array is first built, `start` and `finish` are the clock
     * readings around the call to `proceed`, which stands for the rest of
     * the chain. The action is passed on exactly once and its result
     * returned; afterwards every snapshot is the store's state; a silent
     * action writes no block.
     */
    method Invoke(action: Action, start: int, finish: int, current: seq<object>, proceed: Action -> Proceeded)
      returns (out: Action)
      requires Valid()
      requires |current| == storeCount && |proceed(action).states| == storeCount
      modifies this, states
      ensures Valid()
      ensures out == proceed(action).out
      ensures proceeded == old(proceeded) + [action]
      ensures actionCounter == old(actionCounter) + 1 && lastActionTime == start
      ensures states != null && states[..] == proceed(action).states
      ensures old(states) == null ==> fresh(states)
      ensures old(states) != null ==> states == old(states)
      ensures IsSilent(action) ==> blocks == old(blocks)
      ensures !IsSilent(action) ==>
                var before := if old(states) == null then current else old(states[..]);
                blocks == old(blocks) + [LogBlock(action, finish - start, SinceLast(start, old(lastActionTime)),
                                                  actionCounter % 10, Changed(before, proceed(action).states))]
    {
      if states == null {
        states := new object[storeCount](i requires 0 <= i < storeCount => current[i]);
        assert states[..] == current;
      }
      var snapshots := states;
      ghost var before := snapshots[..];
      var sinceLast := SinceLast(start, lastActionTime);
      lastActionTime := start;
      actionCounter := actionCounter + 1;
      proceeded := proceeded + [action];
      var p := proceed(action);
      out := p.out;
      var after := p.states;

      var lines := Refresh(snapshots, after);
      if !IsSilent(action) {
        blocks := blocks + [LogBlock(action, finish - start, sinceLast, actionCounter % 10, lines)];
      }
    }
  }
}
