/**
 * What `closeAll` does to the result set, the statement and the connection,
 * in that order: each is closed unless `isClosed()` says it already is, and
 * the first `SQLException` (from `isClosed()` or `close()`) abandons the
 * rest.  The exception is only logged.
 */
module ResourceRelease {

  import opened Jdbc
  import opened Host

  /** Whether the resource is closed once `closeAll` is done with it; `reached`
      says whether an earlier exception stopped `closeAll` before it. */
  predicate ClosedAfter(st: ResourceState, reached: bool) {
    st.closed || (reached && !CloseFails(st))
  }

  /** The close calls issued for the resources, in order, up to the first that throws. */
  function CloseEvents(steps: seq<(Resource, ResourceState)>): seq<Event> {
    if steps == [] then []
    else
      (if CloseCalled(steps[0].1) then [CloseCall(steps[0].0)] else [])
        + (if CloseFails(steps[0].1) then [] else CloseEvents(steps[1..]))
  }

  /** `closeAll(connection, preparedStatement, resultSet)`'s close calls. */
  function CloseAllEvents(resultSet: ResourceState, statement: ResourceState, connection: ResourceState): seq<Event> {
    CloseEvents([(ResultSetResource, resultSet), (StatementResource, statement), (ConnectionResource, connection)])
  }

  /** `closeAll` contributes nothing but close calls. */
  lemma {:induction false} CloseEventsOnlyCloses(steps: seq<(Resource, ResourceState)>)
    ensures forall i | 0 <= i < |CloseEvents(steps)| :: CloseEvents(steps)[i].CloseCall?
  {
    if steps != [] {
      CloseEventsOnlyCloses(steps[1..]);
    }
  }

  /** `closeAll` unrolled: one step per resource, each reached only if the earlier ones did not throw. */
  lemma CloseAllEventsUnrolled(rs: ResourceState, ps: ResourceState, conn: ResourceState)
    ensures CloseAllEvents(rs, ps, conn) ==
              (if CloseCalled(rs) then [CloseCall(ResultSetResource)] else [])
              + if CloseFails(rs) then [] else
                (if CloseCalled(ps) then [CloseCall(StatementResource)] else [])
                + if CloseFails(ps) then [] else
                  (if CloseCalled(conn) then [CloseCall(ConnectionResource)] else [])
  {
    var steps := [(ResultSetResource, rs), (StatementResource, ps), (ConnectionResource, conn)];
    assert steps[1..][1..][1..] == [];
    assert CloseEvents(steps[1..][1..]) == (if CloseCalled(conn) then [CloseCall(ConnectionResource)] else []);
    assert CloseEvents(steps[1..]) == (if CloseCalled(ps) then [CloseCall(StatementResource)] else [])
                                      + (if CloseFails(ps) then [] else CloseEvents(steps[1..][1..]));
  }

  /** `a` is `b` with some elements left out, the rest kept in order. */
  predicate IsSubsequence<T(==)>(a: seq<T>, b: seq<T>)
    decreases |b|
  {
    if a == [] then true
    else if b == [] then false
    else (a[0] == b[0] && IsSubsequence(a[1..], b[1..])) || IsSubsequence(a, b[1..])
  }

  /** Every close call targets one of the resources, in the order they were given. */
  lemma {:induction false} CloseEventsInOrder(steps: seq<(Resource, ResourceState)>)
    ensures IsSubsequence(CloseEvents(steps), seq(|steps|, i requires 0 <= i < |steps| => CloseCall(steps[i].0)))
  {
    var calls := seq(|steps|, i requires 0 <= i < |steps| => CloseCall(steps[i].0));
    if steps != [] {
      var rest := steps[1..];
      var restCalls := seq(|rest|, i requires 0 <= i < |rest| => CloseCall(rest[i].0));
      assert calls == [CloseCall(steps[0].0)] + restCalls;
      CloseEventsInOrder(rest);
      var tail := if CloseFails(steps[0].1) then [] else CloseEvents(rest);
      assert IsSubsequence(tail, restCalls);
      if CloseCalled(steps[0].1) {
        assert CloseEvents(steps) == [CloseCall(steps[0].0)] + tail;
        assert calls[1..] == restCalls;
        assert (CloseEvents(steps))[1..] == tail;
      } else {
        assert CloseEvents(steps) == tail;
        assert calls[1..] == restCalls;
      }
    }
  }

  /** The first resource that throws ends the sequence: nothing after it is closed. */
  lemma {:induction false} CloseEventsStopAtFailure(steps: seq<(Resource, ResourceState)>, k: nat)
    requires k < |steps| && CloseFails(steps[k].1)
    ensures CloseEvents(steps) == CloseEvents(steps[..k + 1])
  {
    if k > 0 {
      assert steps[..k + 1][1..] == steps[1..][..k];
      CloseEventsStopAtFailure(steps[1..], k - 1);
    } else {
      assert steps[..1][1..] == [];
    }
  }

  /** When no `isClosed()` or `close()` throws, all three end closed and exactly the open ones
      receive `close()`, result set first, connection last. */
  lemma CloseAllClean(rs: ResourceState, ps: ResourceState, conn: ResourceState)
    requires !rs.isClosedThrows && !rs.closeThrows
    requires !ps.isClosedThrows && !ps.closeThrows
    requires !conn.isClosedThrows && !conn.closeThrows
    ensures ClosedAfter(rs, true) && ClosedAfter(ps, true) && ClosedAfter(conn, true)
    ensures CloseAllEvents(rs, ps, conn) ==
              (if rs.closed then [] else [CloseCall(ResultSetResource)])
              + (if ps.closed then [] else [CloseCall(StatementResource)])
              + (if conn.closed then [] else [CloseCall(ConnectionResource)])
  {
    var steps := [(ResultSetResource, rs), (StatementResource, ps), (ConnectionResource, conn)];
    assert steps[1..][1..][1..] == [];
    assert CloseEvents(steps[1..][1..]) == (if conn.closed then [] else [CloseCall(ConnectionResource)]);
    assert CloseEvents(steps[1..]) == (if ps.closed then [] else [CloseCall(StatementResource)])
                                      + CloseEvents(steps[1..][1..]);
  }

  /** A failure on the result set leaves the statement and the connection open if they were. */
  lemma CloseAllResultSetFails(rs: ResourceState, ps: ResourceState, conn: ResourceState)
    requires CloseFails(rs)
    ensures CloseAllEvents(rs, ps, conn) == (if CloseCalled(rs) then [CloseCall(ResultSetResource)] else [])
    ensures ClosedAfter(ps, false) == ps.closed && ClosedAfter(conn, false) == conn.closed
  {
  }
}
