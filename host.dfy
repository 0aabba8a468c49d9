/**
 * The monitoring host's side of the plugin contract, recorded as an event
 * log: every `addVariable`, every `setStateAndMessage` and every `close()`
 * issued on a JDBC resource is appended, in order.
 */
module Host {

  import opened Wrappers

  datatype MonitorState = OK | CRIT

  /** The value passed to `addVariable`: a Java `long`, `double`, `String` or `int`. */
  datatype VariableValue = LongNumber(l: int) | DoubleNumber(d: real) | Text(s: string) | IntNumber(i: int)

  datatype Resource = ResultSetResource | StatementResource | ConnectionResource

  datatype Event =
    | AddVariable(name: string, value: VariableValue)
    | SetStateAndMessage(state: MonitorState, message: string)
    | CloseCall(resource: Resource)

  const NUMBER_OUTPUT: string := "numberoutput"
  const TEXT_OUTPUT: string := "textoutput"
  const ROW_COUNTER: string := "rowCounter"

  const MSG_CONNECT_FAILED: string := "Could not connect to database, check monitor settings."
  const MSG_PREPARE_FAILED: string := "Could not get prepared statement, check connection object."
  const MSG_EXECUTE_FAILED: string := "Could not get result set, check preparedStatement object."
  const MSG_CONNECTION_CLOSED: string := "Connection is closed."
  const MSG_SUCCESS: string := "Monitor successfully ran."

  /** No state is set after position `i` of the log. */
  predicate NoStateAfter(events: seq<Event>, i: int) {
    forall j | 0 <= j < |events| && i < j :: !events[j].SetStateAndMessage?
  }

  /** The host's view of the state: the last one set, if any. */
  function LastState(events: seq<Event>): (r: Option<Event>)
    ensures r.Some? ==> r.value.SetStateAndMessage? && r.value in events
    ensures r.Some? ==> exists i | 0 <= i < |events| :: events[i] == r.value && NoStateAfter(events, i)
    ensures r.None? ==> NoStateAfter(events, -1)
  {
    if events == [] then None
    else if events[|events| - 1].SetStateAndMessage? then Some(events[|events| - 1])
    else
      var init := events[..|events| - 1];
      var r := LastState(init);
      assert r.Some? ==> exists i | 0 <= i < |events| :: events[i] == r.value && NoStateAfter(events, i) by {
        if r.Some? {
          var i :| 0 <= i < |init| && init[i] == r.value && NoStateAfter(init, i);
          assert events[i] == init[i];
        }
      }
      r
  }

  /** How many `numberoutput` / `textoutput` variables the events add. */
  function OutputCount(events: seq<Event>): nat
  {
    if events == [] then 0
    else
      var e := events[|events| - 1];
      OutputCount(events[..|events| - 1])
        + (if e.AddVariable? && (e.name == NUMBER_OUTPUT || e.name == TEXT_OUTPUT) then 1 else 0)
  }

  lemma {:induction false} OutputCountAppend(a: seq<Event>, b: seq<Event>)
    ensures OutputCount(a + b) == OutputCount(a) + OutputCount(b)
    decreases |b|
  {
    if b != [] {
      assert (a + b)[..|a + b| - 1] == a + b[..|b| - 1];
      OutputCountAppend(a, b[..|b| - 1]);
    } else {
      assert a + b == a;
    }
  }

  /** Events that add no variable publish no output. */
  lemma {:induction false} OutputCountNoVariables(events: seq<Event>)
    requires forall i | 0 <= i < |events| :: !events[i].AddVariable?
    ensures OutputCount(events) == 0
  {
    if events != [] {
      OutputCountNoVariables(events[..|events| - 1]);
    }
  }

  /** Whatever came before, the last state set wins. */
  lemma LastStateAppend(events: seq<Event>, state: MonitorState, message: string)
    ensures LastState(events + [SetStateAndMessage(state, message)]) == Some(SetStateAndMessage(state, message))
  {
  }
}
