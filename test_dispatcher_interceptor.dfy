/**
 * The interceptor the instrumentation tests install to mute the dispatcher
 * (mini/TestDispatcherInterceptor.kt): it records every action it receives
 * and answers with the placeholder `TestOnlyAction`, never proceeding down
 * the chain.
 */
module MiniTest {
  import opened Actions

  class TestDispatcherInterceptor {
    /** The actions muted so far, oldest first. */
    var mutedActions: seq<Action>

    constructor()
      ensures mutedActions == []
    {
      mutedActions := [];
    }

    /** `actions`: the recorded actions in the order they were received. */
    function Recorded(): seq<Action>
      reads this
    {
      mutedActions
    }

    /**
     * `invoke(action, chain)`: record the action and return the placeholder.
     * The chain is not a parameter because it is never used.
     */
    method Invoke(action: Action) returns (r: Action)
      modifies this
      ensures mutedActions == old(mutedActions) + [action]
      ensures r == TestOnlyAction
    {
      mutedActions := mutedActions + [action];
      r := TestOnlyAction;
    }
  }

  /** Muting two actions in a row records both, in the order they arrived. */
  method RecordsInOrder(t: TestDispatcherInterceptor, a: Action, b: Action)
    modifies t
    ensures t.Recorded() == old(t.Recorded()) + [a, b]
  {
    var _ := t.Invoke(a);
    var _ := t.Invoke(b);
  }
}
