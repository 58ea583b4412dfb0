/** What the counters of the deferred store count. */
module DeferredCounters {
  import opened Deferred
  import opened DeferredTheorems

  ghost predicate Holds(st: State, listener: string) {
    exists k :: 0 <= k < |st.slots| && st.slots[k].listener == listener
  }

  /** The call makes a new record: the first entry for a listener that leaves anything to hold. */
  ghost predicate Creates(st: State, call: Call) {
    call.Deposit? && !Holds(st, call.listener) && !call.op.Remove? && call.sources != []
  }

  ghost function One(b: bool): nat {
    if b then 1 else 0
  }

  ghost predicate CountsOne(st: State, call: Call, after: State) {
    && after.adds == st.adds + One(Creates(st, call)) && after.stamp == st.stamp + One(Creates(st, call))
    && after.evicted == st.evicted + One(Creates(st, call) && |st.slots| >= 256)
    && after.replaced == st.replaced + One(call.Deposit? && Holds(st, call.listener))
    && after.replayed == st.replayed + One(call.Replayed? && Holds(st, call.listener))
  }

  /** Each counter moves by one, and only on its own event: records made, made by evicting one of 256, updated, and
      handed to a joining listener. */
  lemma CountersMove(st: State, call: Call)
    ensures CountsOne(st, call, After(st, call))
  {
    var i := IndexOf(st.slots, call.listener);
    if i < |st.slots| {
      assert st.slots[i].listener == call.listener;
    }
  }
}
