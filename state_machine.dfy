/** The audit trail of a pipeline run: a current state and an append-only log
    of transitions. No transition table is enforced; any target is accepted. */
module StateMachine {
  import opened Basics
  import opened Values

  const Start := "S0"

  /** One logged transition. `time` is the wall-clock stamp, an opaque string here. */
  datatype LogEvent = LogEvent(time: string, fromState: string, toState: string,
                               action: string, details: map<string, Value>)

  /** The chaining invariant of a log that started in `Start` and is now in `state`:
      it starts in `Start`, every event leaves the state the previous one entered,
      and the last event entered `state`. */
  predicate Chained(log: seq<LogEvent>, state: string) {
    if log == [] then state == Start
    else
      && log[0].fromState == Start
      && log[|log| - 1].toState == state
      && forall i :: 0 < i < |log| ==> log[i].fromState == log[i - 1].toState
  }

  /** Extending a chained log by an event that leaves its current state keeps it chained. */
  lemma ChainedExtend(log: seq<LogEvent>, state: string, e: LogEvent)
    requires Chained(log, state) && e.fromState == state
    ensures Chained(log + [e], e.toState)
  {
  }

  class StateMachine {
    var state: string
    var log: seq<LogEvent>

    ghost predicate Valid()
      reads this
    {
      Chained(log, state)
    }

    constructor ()
      ensures state == Start && log == []
      ensures Valid()
    {
      state := Start;
      log := [];
    }

    /** Appends one event from the current state to `toState` and moves there;
        absent details are logged as an empty map. */
    method Transition(time: string, toState: string, action: string, details: Option<map<string, Value>>)
      requires Valid()
      modifies this
      ensures Valid()
      ensures log == old(log) + [LogEvent(time, old(state), toState, action,
                                          if details.Some? then details.value else map[])]
      ensures state == toState
    {
      var d := if details.None? then map[] else details.value;
      var evt := LogEvent(time, state, toState, action, d);
      ChainedExtend(log, state, evt);
      log := log + [evt];
      state := toState;
    }
  }
}
