/**
 * The Oracle query monitor (`UptimeMonitorOracleQuery`): it normalises the
 * configured query, connects, prepares and executes the query, flattens the
 * result set into one string, classifies that string as a long, a double or
 * text, publishes it with the row count, closes the JDBC resources and sets
 * the monitor state.  The host calls it makes are appended to `events`.
 */
module MonitorOracleQuery {

  import opened Wrappers
  import opened JavaStrings
  import opened JavaNumbers
  import opened Jdbc
  import opened Host
  import opened QueryNormalization
  import opened ResultFlattening
  import opened OutputClassification
  import opened ResourceRelease

  /** How far the driver lets a run get: which JDBC object, if any, comes back null. */
  datatype Session =
    | NoConnection
    | NoStatement(conn: Connection)
    | NoResultSet(conn: Connection, ps: PreparedStatement)
    | Open(conn: Connection, ps: PreparedStatement, rs: ResultSet)

  /** The session a run meets, given what `getConnection` does (`None`: it throws). */
  function SessionOf(connect: Option<Connection>): Session {
    match connect
    case None => NoConnection
    case Some(c) =>
      match c.prepared
      case Acquired(p) =>
        (match p.executed
         case Acquired(r) => Open(c, p, r)
         case _ => NoResultSet(c, p))
      case _ => NoStatement(c)
  }

  /** The JDBC objects a run may touch. */
  function Objects(s: Session): set<object> {
    match s
    case NoConnection => {}
    case NoStatement(c) => {c}
    case NoResultSet(c, p) => {c, p}
    case Open(c, p, r) => {c, p, r}
  }

  /** The rows `next()` yields to a fresh cursor before `extractFromResultSet` stops:
      none when the metadata cannot be read, all of them otherwise. */
  function Yielded(rs: ResultSet): seq<Row> {
    if rs.metadataThrows then [] else rs.rows
  }

  /** What `getRemoteConnection` reports about a connection that is closed on arrival. */
  function ConnectionCheckEvents(conn: ResourceState): seq<Event> {
    if !conn.isClosedThrows && conn.closed then [SetStateAndMessage(CRIT, MSG_CONNECTION_CLOSED)] else []
  }

  /** The variable published for the classified output. */
  function OutputEvent(c: Classification, output: string): (e: Event)
    ensures e.AddVariable?
    ensures e.name == (if c.AsText? then TEXT_OUTPUT else NUMBER_OUTPUT)
  {
    match c
    case AsLong(l) => AddVariable(NUMBER_OUTPUT, LongNumber(l))
    case AsDouble(d) => AddVariable(NUMBER_OUTPUT, DoubleNumber(d))
    case AsText => AddVariable(TEXT_OUTPUT, Text(output))
  }

  /** The host calls of a run that stops at a null connection, statement or result set. */
  function EarlyExitEvents(conn: Option<ResourceState>, message: string): seq<Event> {
    (if conn.Some? then ConnectionCheckEvents(conn.value) else []) + [SetStateAndMessage(CRIT, message)]
  }

  /** The host calls of a run that gets a result set. */
  function SuccessEvents(conn: ResourceState, output: string, c: Classification, rowCounter: Int32,
                         closes: seq<Event>): seq<Event>
  {
    ConnectionCheckEvents(conn)
      + [OutputEvent(c, output), AddVariable(ROW_COUNTER, IntNumber(rowCounter))]
      + closes
      + [SetStateAndMessage(OK, MSG_SUCCESS)]
  }

  /** A run that stops early publishes nothing, closes nothing and leaves the monitor CRIT
      with the message of the step that failed. */
  lemma EarlyExitOutcome(conn: Option<ResourceState>, message: string)
    ensures forall i | 0 <= i < |EarlyExitEvents(conn, message)| :: EarlyExitEvents(conn, message)[i].SetStateAndMessage?
    ensures OutputCount(EarlyExitEvents(conn, message)) == 0
    ensures LastState(EarlyExitEvents(conn, message)) == Some(SetStateAndMessage(CRIT, message))
  {
    var events := EarlyExitEvents(conn, message);
    OutputCountNoVariables(events);
    LastStateAppend(if conn.Some? then ConnectionCheckEvents(conn.value) else [], CRIT, message);
  }

  /**
   * A run that gets a result set publishes exactly one output variable, right
   * after the connection check, and ends OK whatever closing did: a
   * "Connection is closed." CRIT set on the way is overwritten.
   */
  lemma SuccessOutcome(conn: ResourceState, output: string, c: Classification, rowCounter: Int32,
                       resultSet: ResourceState, statement: ResourceState, connection: ResourceState)
    ensures var events := SuccessEvents(conn, output, c, rowCounter, CloseAllEvents(resultSet, statement, connection));
            && OutputCount(events) == 1
            && events[|ConnectionCheckEvents(conn)|] == OutputEvent(c, output)
            && events[|ConnectionCheckEvents(conn)| + 1] == AddVariable(ROW_COUNTER, IntNumber(rowCounter))
            && LastState(events) == Some(SetStateAndMessage(OK, MSG_SUCCESS))
  {
    var checks := ConnectionCheckEvents(conn);
    var published := [OutputEvent(c, output), AddVariable(ROW_COUNTER, IntNumber(rowCounter))];
    var closes := CloseAllEvents(resultSet, statement, connection);
    var ok := SetStateAndMessage(OK, MSG_SUCCESS);
    assert SuccessEvents(conn, output, c, rowCounter, closes) == checks + published + closes + [ok];
    assert OutputCount(checks + published + closes + [ok]) == 1 by {
      CloseEventsOnlyCloses([(ResultSetResource, resultSet), (StatementResource, statement), (ConnectionResource, connection)]);
      OutputCountNoVariables(closes);
      OutputCountNoVariables(checks);
      OutputCountNoVariables([ok]);
      assert OutputCount(published) == 1 by {
        assert published[..1] == [OutputEvent(c, output)];
        assert [OutputEvent(c, output)][..0] == [];
      }
      OutputCountAppend(checks, published);
      OutputCountAppend(checks + published, closes);
      OutputCountAppend(checks + published + closes, [ok]);
    }
    assert LastState(checks + published + closes + [ok]) == Some(ok) by {
      LastStateAppend(checks + published + closes, OK, MSG_SUCCESS);
    }
  }

  /** One row holding the text of a `long` is published as that number. */
  lemma SingleLongRow(v: Int64, parseDouble: DoubleParser)
    ensures Flatten([[Value(LongToString(v))]], 1) == LongToString(v)
    ensures Classify(Flatten([[Value(LongToString(v))]], 1), parseDouble) == AsLong(v)
  {
    var t := LongToString(v);
    var rows: seq<Row> := [[Value(t)]];
    LongToStringShape(v);
    assert RenderRow(rows[0], 1) == t + " ";
    assert rows[..0] == [];
    assert Concat(rows, 1) == t + " \n";
    TrimWordThenBlanks(t, " \n");
    ClassifyLongText(v, parseDouble);
  }

  /** Two rows of two text columns are published verbatim as `textoutput`, inner spaces kept. */
  lemma TwoRowsOfText(parseDouble: DoubleParser)
    ensures var output := Flatten([[Value("a"), Value("b")], [Value("c"), Value("d")]], 2);
            OutputEvent(Classify(output, parseDouble), output) == AddVariable(TEXT_OUTPUT, Text("a b \nc d"))
  {
    FlattenTwoByTwo();
    assert '.' !in "a b \nc d";
    assert !IsDigit("a b \nc d"[0]);
  }

  /** Appending two events one at a time appends both. */
  lemma AppendTwo(log: seq<Event>, e1: Event, e2: Event)
    ensures log + [e1] + [e2] == log + [e1, e2]
  {
  }

  /** The log of a successful run, event by event. */
  lemma SuccessEventsAppend(log: seq<Event>, conn: ResourceState, output: string, c: Classification,
                            rowCounter: Int32, closes: seq<Event>)
    ensures log + SuccessEvents(conn, output, c, rowCounter, closes)
         == log + ConnectionCheckEvents(conn)
              + [OutputEvent(c, output), AddVariable(ROW_COUNTER, IntNumber(rowCounter))]
              + closes + [SetStateAndMessage(OK, MSG_SUCCESS)]
  {
  }

  class UptimeMonitorOracleQuery {
    var longValue: Int64
    var doubleValue: real
    /** Rows seen; set to 0 once, when the monitor object is created. */
    var rowCounter: Int32

    var hostname: string
    var port: Int32
    var username: string
    var password: string
    var sid: string
    var sqlQuery: string

    /** The host calls made so far. */
    var events: seq<Event>

    constructor ()
      ensures longValue == 0 && doubleValue == 0.0 && rowCounter == 0
      ensures sqlQuery == "" && events == []
    {
      longValue, doubleValue, rowCounter := 0, 0.0, 0;
      hostname, port, username, password, sid, sqlQuery := "", 0, "", "", "", "";
      events := [];
    }

    method AddVariable(name: string, value: VariableValue)
      modifies this`events
      ensures events == old(events) + [Event.AddVariable(name, value)]
    {
      events := events + [Event.AddVariable(name, value)];
    }

    method SetStateAndMessage(state: MonitorState, message: string)
      modifies this`events
      ensures events == old(events) + [Event.SetStateAndMessage(state, message)]
    {
      events := events + [Event.SetStateAndMessage(state, message)];
    }

    /**
     * `setParameters`: stores the configuration and normalises the query.
     * `outOfBounds` is the `StringIndexOutOfBoundsException` that
     * normalisation raises on a query that is or becomes empty.
     */
    method SetParameters(hostname: string, port: Int32, username: string, password: string, sid: string,
                         sqlQuery: string) returns (outOfBounds: bool)
      modifies this`hostname, this`port, this`username, this`password, this`sid, this`sqlQuery
      ensures this.hostname == hostname && this.port == port && this.sid == sid
      ensures this.username == username && this.password == password
      ensures outOfBounds <==> Normalize(sqlQuery) == IndexOutOfBounds
      ensures this.sqlQuery == if outOfBounds then "" else Normalize(sqlQuery).text
    {
      this.hostname, this.port, this.username, this.password, this.sid := hostname, port, username, password, sid;
      this.sqlQuery := sqlQuery;
      outOfBounds := DeleteSemicolonAtTheEnd(this.sqlQuery);
    }

    /**
     * `deleteSemicolonAtTheEnd(query)`: writes `sqlQuery` only when a step
     * applies; otherwise the field keeps whatever it held.
     */
    method DeleteSemicolonAtTheEnd(query: string) returns (outOfBounds: bool)
      modifies this`sqlQuery
      ensures outOfBounds <==> Normalize(query) == IndexOutOfBounds
      ensures sqlQuery == if !EndsInStrippableSemicolon(query) then old(sqlQuery)
                          else if outOfBounds then ""
                          else Normalize(query).text
      decreases |query|
    {
      if |query| == 0 {
        // charAt(-1) throws before the length is tested
        return true;
      }
      if query[|query| - 1] == ';' && |query| >= 2 {
        sqlQuery := Trim(query[..|query| - 1]);
        outOfBounds := DeleteSemicolonAtTheEnd(sqlQuery);
      } else {
        outOfBounds := false;
      }
    }

    /**
     * `getRemoteConnection`: `connect` is what `dataSource.getConnection()`
     * does (`None`: it throws).  A connection that reports itself closed is
     * still returned, after the state is set to CRIT.
     */
    method GetRemoteConnection(connect: Option<Connection>) returns (connection: Connection?)
      modifies this`events
      ensures connection == if connect.Some? then connect.value else null
      ensures events == old(events) + (if connect.Some? then ConnectionCheckEvents(connect.value.State()) else [])
    {
      connection := null;
      if connect.Some? {
        connection := connect.value;
        var closed := connection.IsClosed();
        if closed == Some(true) {
          SetStateAndMessage(CRIT, MSG_CONNECTION_CLOSED);
        }
      }
    }

    /** `prepareStatement`: null when the driver throws or returns null. */
    method PrepareStatement(connection: Connection, sqlScript: string) returns (ps: PreparedStatement?)
      ensures ps != null <==> connection.prepared.Acquired?
      ensures ps != null ==> ps == connection.prepared.obj
    {
      ps := if connection.prepared.Acquired? then connection.prepared.obj else null;
    }

    /** `getResultSet`: null when `executeQuery` throws or returns null. */
    method GetResultSet(ps: PreparedStatement) returns (rs: ResultSet?)
      ensures rs != null <==> ps.executed.Acquired?
      ensures rs != null ==> rs == ps.executed.obj
    {
      rs := if ps.executed.Acquired? then ps.executed.obj else null;
    }

    /** `getRowAsString`: every column's text followed by one space. */
    method GetRowAsString(rs: ResultSet, columnCount: nat) returns (row: string)
      requires rs.Valid() && rs.position >= 1
      ensures row == RenderRow(rs.rows[rs.position - 1], columnCount)
    {
      ghost var current := rs.rows[rs.position - 1];
      row := "";
      for i := 1 to columnCount + 1
        invariant row == RenderRow(current, i - 1)
      {
        var cell := rs.GetString(i);
        match cell {
          case Value(t) => row := row + t;
          case SqlNull => row := row + "null";
          case ReadError =>  // logged; the column contributes nothing
        }
        row := row + " ";
      }
    }

    /**
     * `extractFromResultSet`: one line per row `next()` yields, each counted
     * in `rowCounter`; an exception from the metadata or from `next()` ends
     * the loop and keeps what was built.
     */
    method ExtractFromResultSet(rs: ResultSet) returns (result: string)
      requires rs.Valid()
      modifies this`rowCounter, rs`position
      ensures rs.Valid()
      ensures rs.position == if rs.metadataThrows then old(rs.position) else |rs.rows|
      ensures result == Flatten(rs.rows[old(rs.position)..rs.position], rs.columnCount)
      ensures Trim(result) == result
      ensures rowCounter == IncIntTimes(old(rowCounter), rs.position - old(rs.position))
    {
      ghost var start, counted := rs.position, rowCounter;
      ghost var n: nat := 0;
      var buffer := "";
      var meta := rs.ColumnCount();
      if meta.Some? {
        var columnCount := meta.value;
        while true
          invariant rs.Valid() && rs.position == start + n
          invariant buffer == Concat(rs.rows[start..rs.position], columnCount)
          invariant rowCounter == IncIntTimes(counted, n)
          decreases |rs.rows| - rs.position
        {
          ghost var before := rs.position;
          var more := rs.Next();
          if more != Some(true) {
            break;
          }
          rowCounter := IncInt(rowCounter);
          n := n + 1;
          var row := GetRowAsString(rs, columnCount);
          ConcatExtend(rs.rows, start, before, rs.position, columnCount, buffer, row);
          buffer := buffer + row + LINE_SEPARATOR;
        }
      }
      result := Trim(buffer);
      TrimIdempotent(buffer);
    }

    /** `isLongDoubleOrText`: the type code, storing a parsed number in its field. */
    method IsLongDoubleOrText(stringResult: string, parseDouble: DoubleParser) returns (code: int)
      modifies this`longValue, this`doubleValue
      ensures code == TypeCode(Classify(stringResult, parseDouble))
      ensures var c := Classify(stringResult, parseDouble);
              && longValue == (if c.AsLong? then c.l else old(longValue))
              && doubleValue == (if c.AsDouble? then c.d else old(doubleValue))
    {
      if Contains(stringResult, '.') {
        var parsed := parseDouble(stringResult);
        if parsed.Some? {
          doubleValue := parsed.value;
          return OUTPUT_TYPE_DOUBLE;
        }
      } else {
        var parsed := ParseLong(stringResult);
        if parsed.Some? {
          longValue := parsed.value;
          return OUTPUT_TYPE_LONG;
        }
      }
      return OUTPUT_TYPE_STRING;
    }

    /**
     * `monitor()`: one run.  `connect` is what `getConnection()` does; what
     * the driver does next is fixed by the objects it hands out.  A null
     * connection, statement or result set sets CRIT and ends the run without
     * closing anything; otherwise the output and the row count are published,
     * everything is closed and the state is set to OK, even if closing failed.
     */
    method Monitor(connect: Option<Connection>, parseDouble: DoubleParser)
      requires SessionOf(connect).Open? ==> SessionOf(connect).rs.position == 0
      modifies this`events, this`rowCounter, this`longValue, this`doubleValue, Objects(SessionOf(connect))
      ensures SessionOf(connect).NoConnection? ==>
                events == old(events) + EarlyExitEvents(None, MSG_CONNECT_FAILED)
      ensures SessionOf(connect).NoStatement? ==>
                events == old(events) + EarlyExitEvents(Some(old(SessionOf(connect).conn.State())), MSG_PREPARE_FAILED)
      ensures SessionOf(connect).NoResultSet? ==>
                events == old(events) + EarlyExitEvents(Some(old(SessionOf(connect).conn.State())), MSG_EXECUTE_FAILED)
      ensures !SessionOf(connect).Open? ==>
                && unchanged(Objects(SessionOf(connect)))
                && rowCounter == old(rowCounter) && longValue == old(longValue) && doubleValue == old(doubleValue)
      ensures SessionOf(connect).Open? ==>
                var rs := SessionOf(connect).rs;
                var output := Flatten(Yielded(rs), rs.columnCount);
                var c := Classify(output, parseDouble);
                && rs.position == |Yielded(rs)|
                && rowCounter == IncIntTimes(old(rowCounter), |Yielded(rs)|)
                && events == old(events) + SuccessEvents(old(SessionOf(connect).conn.State()), output, c, rowCounter,
                                                         CloseAllEvents(old(rs.State()), old(SessionOf(connect).ps.State()),
                                                                        old(SessionOf(connect).conn.State())))
                && longValue == (if c.AsLong? then c.l else old(longValue))
                && doubleValue == (if c.AsDouble? then c.d else old(doubleValue))
      ensures SessionOf(connect).Open? ==>
                var s := SessionOf(connect);
                && s.rs.closed == ClosedAfter(old(s.rs.State()), true)
                && s.ps.closed == ClosedAfter(old(s.ps.State()), !CloseFails(old(s.rs.State())))
                && s.conn.closed == ClosedAfter(old(s.conn.State()),
                                                !CloseFails(old(s.rs.State())) && !CloseFails(old(s.ps.State())))
    {
      var connection := GetRemoteConnection(connect);
      if connection == null {
        SetStateAndMessage(CRIT, MSG_CONNECT_FAILED);
        return;
      }
      var preparedStatement := PrepareStatement(connection, sqlQuery);
      if preparedStatement == null {
        SetStateAndMessage(CRIT, MSG_PREPARE_FAILED);
        return;
      }
      var resultSet := GetResultSet(preparedStatement);
      if resultSet == null {
        SetStateAndMessage(CRIT, MSG_EXECUTE_FAILED);
        return;
      }
      assert SessionOf(connect) == Open(connection, preparedStatement, resultSet);
      ghost var rsState, psState, connState := resultSet.State(), preparedStatement.State(), connection.State();
      ghost var checked := events;
      SetOutput(resultSet, parseDouble);
      ghost var output := Flatten(Yielded(resultSet), resultSet.columnCount);
      CloseAll(connection, preparedStatement, resultSet);
      SetStateAndMessage(OK, MSG_SUCCESS);
      SuccessEventsAppend(old(events), connState, output, Classify(output, parseDouble), rowCounter,
                          CloseAllEvents(rsState, psState, connState));
    }

    /**
     * The output step of `monitor()`: the flattened and trimmed result is
     * classified and published as `numberoutput` or `textoutput`, followed
     * by `rowCounter`.
     */
    method SetOutput(resultSet: ResultSet, parseDouble: DoubleParser)
      requires resultSet.position == 0
      modifies this`events, this`rowCounter, this`longValue, this`doubleValue, resultSet`position
      ensures resultSet.position == |Yielded(resultSet)|
      ensures var output := Flatten(Yielded(resultSet), resultSet.columnCount);
              var c := Classify(output, parseDouble);
              && rowCounter == IncIntTimes(old(rowCounter), |Yielded(resultSet)|)
              && events == old(events) + [OutputEvent(c, output), Event.AddVariable(ROW_COUNTER, IntNumber(rowCounter))]
              && longValue == (if c.AsLong? then c.l else old(longValue))
              && doubleValue == (if c.AsDouble? then c.d else old(doubleValue))
    {
      var extracted := ExtractFromResultSet(resultSet);
      assert resultSet.rows[0..resultSet.position] == Yielded(resultSet);
      var output := Trim(extracted);
      var code := IsLongDoubleOrText(output, parseDouble);
      ghost var published := OutputEvent(Classify(output, parseDouble), output);
      ghost var log := events;
      if code == OUTPUT_TYPE_LONG {
        AddVariable(NUMBER_OUTPUT, LongNumber(longValue));
      } else if code == OUTPUT_TYPE_DOUBLE {
        AddVariable(NUMBER_OUTPUT, DoubleNumber(doubleValue));
      } else if code == OUTPUT_TYPE_STRING {
        AddVariable(TEXT_OUTPUT, Text(output));
      }
      assert events == log + [published];
      AddVariable(ROW_COUNTER, IntNumber(rowCounter));
      AppendTwo(log, published, Event.AddVariable(ROW_COUNTER, IntNumber(rowCounter)));
    }

    /** `closeAll`: result set, statement, connection, each unless already closed;
        the first exception abandons the rest. */
    method CloseAll(connection: Connection, preparedStatement: PreparedStatement, resultSet: ResultSet)
      modifies this`events, connection`closed, preparedStatement`closed, resultSet`closed
      ensures events == old(events) + CloseAllEvents(old(resultSet.State()), old(preparedStatement.State()),
                                                     old(connection.State()))
      ensures resultSet.closed == ClosedAfter(old(resultSet.State()), true)
      ensures preparedStatement.closed == ClosedAfter(old(preparedStatement.State()), !CloseFails(old(resultSet.State())))
      ensures connection.closed == ClosedAfter(old(connection.State()),
                                               !CloseFails(old(resultSet.State())) && !CloseFails(old(preparedStatement.State())))
    {
      CloseAllEventsUnrolled(resultSet.State(), preparedStatement.State(), connection.State());
      var closed := resultSet.IsClosed();
      if closed.None? { return; }
      if !closed.value {
        events := events + [CloseCall(ResultSetResource)];
        var threw := resultSet.Close();
        if threw { return; }
      }
      closed := preparedStatement.IsClosed();
      if closed.None? { return; }
      if !closed.value {
        events := events + [CloseCall(StatementResource)];
        var threw := preparedStatement.Close();
        if threw { return; }
      }
      closed := connection.IsClosed();
      if closed.None? { return; }
      if !closed.value {
        events := events + [CloseCall(ConnectionResource)];
        var threw := connection.Close();
      }
    }
  }
}
