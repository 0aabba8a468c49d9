/**
 * Stand-ins for the JDBC objects the monitor drives.  What the Oracle driver
 * would do is fixed in advance by constants of each object: whether a call
 * returns an object, returns null or throws `SQLException`, and what the
 * cursor holds.  Only the state the monitor changes is mutable: whether a
 * resource is closed and how far the cursor has advanced.
 */
module Jdbc {

  import opened Wrappers

  /** What a driver call that produces an object did. */
  datatype Acquire<T> = Acquired(obj: T) | ReturnedNull | Threw

  /** The outcome of `ResultSet.getString(i)`: a value, SQL NULL, or an `SQLException`. */
  datatype Cell = Value(text: string) | SqlNull | ReadError

  type Row = seq<Cell>

  /** Column `i` (1-based) of a row; an index outside the row throws, as JDBC does. */
  function CellAt(row: Row, i: int): Cell {
    if 1 <= i <= |row| then row[i - 1] else ReadError
  }

  /** The closing-related state of a connection, statement or result set. */
  datatype ResourceState = ResourceState(closed: bool, isClosedThrows: bool, closeThrows: bool)

  /** The `isClosed()` / `close()` pair on this resource throws. */
  predicate CloseFails(st: ResourceState) {
    st.isClosedThrows || (!st.closed && st.closeThrows)
  }

  /** `close()` is actually called on this resource when it is reached. */
  predicate CloseCalled(st: ResourceState) {
    !st.isClosedThrows && !st.closed
  }

  class Connection {
    var closed: bool
    const isClosedThrows: bool
    const closeThrows: bool
    /** What `prepareStatement(sql)` does on this connection. */
    const prepared: Acquire<PreparedStatement>

    constructor (closed: bool, isClosedThrows: bool, closeThrows: bool, prepared: Acquire<PreparedStatement>)
      ensures this.closed == closed && this.isClosedThrows == isClosedThrows
      ensures this.closeThrows == closeThrows && this.prepared == prepared
    {
      this.closed, this.isClosedThrows, this.closeThrows := closed, isClosedThrows, closeThrows;
      this.prepared := prepared;
    }

    function State(): ResourceState
      reads this
    {
      ResourceState(closed, isClosedThrows, closeThrows)
    }

    /** `isClosed()`; `None` is the `SQLException`. */
    method IsClosed() returns (r: Option<bool>)
      ensures r == if isClosedThrows then None else Some(closed)
    {
      r := if isClosedThrows then None else Some(closed);
    }

    /** `close()`; the result says whether it threw. */
    method Close() returns (threw: bool)
      modifies this`closed
      ensures threw == closeThrows
      ensures closed == (old(closed) || !closeThrows)
    {
      threw := closeThrows;
      if !closeThrows {
        closed := true;
      }
    }
  }

  class PreparedStatement {
    var closed: bool
    const isClosedThrows: bool
    const closeThrows: bool
    /** What `executeQuery()` does on this statement. */
    const executed: Acquire<ResultSet>

    constructor (closed: bool, isClosedThrows: bool, closeThrows: bool, executed: Acquire<ResultSet>)
      ensures this.closed == closed && this.isClosedThrows == isClosedThrows
      ensures this.closeThrows == closeThrows && this.executed == executed
    {
      this.closed, this.isClosedThrows, this.closeThrows := closed, isClosedThrows, closeThrows;
      this.executed := executed;
    }

    function State(): ResourceState
      reads this
    {
      ResourceState(closed, isClosedThrows, closeThrows)
    }

    method IsClosed() returns (r: Option<bool>)
      ensures r == if isClosedThrows then None else Some(closed)
    {
      r := if isClosedThrows then None else Some(closed);
    }

    method Close() returns (threw: bool)
      modifies this`closed
      ensures threw == closeThrows
      ensures closed == (old(closed) || !closeThrows)
    {
      threw := closeThrows;
      if !closeThrows {
        closed := true;
      }
    }
  }

  /**
   * A forward-only cursor.  `rows` are the rows `next()` yields; once they are
   * used up, `next()` returns false, or throws when `nextThrows` holds (a fetch
   * error).  `getMetaData().getColumnCount()` gives `columnCount`, or throws
   * when `metadataThrows` holds.
   */
  class ResultSet {
    const metadataThrows: bool
    const columnCount: nat
    const rows: seq<Row>
    const nextThrows: bool
    /** The number of rows `next()` has moved over; the current row is `rows[position - 1]`. */
    var position: nat
    var closed: bool
    const isClosedThrows: bool
    const closeThrows: bool

    ghost predicate Valid()
      reads this
    {
      position <= |rows|
    }

    constructor (metadataThrows: bool, columnCount: nat, rows: seq<Row>, nextThrows: bool,
                 isClosedThrows: bool, closeThrows: bool)
      ensures Valid() && position == 0 && !closed
      ensures this.metadataThrows == metadataThrows && this.columnCount == columnCount
      ensures this.rows == rows && this.nextThrows == nextThrows
      ensures this.isClosedThrows == isClosedThrows && this.closeThrows == closeThrows
    {
      this.metadataThrows, this.columnCount := metadataThrows, columnCount;
      this.rows, this.nextThrows := rows, nextThrows;
      this.isClosedThrows, this.closeThrows := isClosedThrows, closeThrows;
      position, closed := 0, false;
    }

    function State(): ResourceState
      reads this
    {
      ResourceState(closed, isClosedThrows, closeThrows)
    }

    /** `getMetaData().getColumnCount()`; `None` is the `SQLException`. */
    method ColumnCount() returns (r: Option<nat>)
      ensures r == if metadataThrows then None else Some(columnCount)
    {
      r := if metadataThrows then None else Some(columnCount);
    }

    /** `next()`: moves to the next row if there is one; `None` is the `SQLException`. */
    method Next() returns (r: Option<bool>)
      requires Valid()
      modifies this`position
      ensures Valid()
      ensures old(position) < |rows| ==> r == Some(true) && position == old(position) + 1
      ensures old(position) == |rows| ==> position == old(position)
      ensures old(position) == |rows| ==> r == if nextThrows then None else Some(false)
    {
      if position < |rows| {
        position := position + 1;
        r := Some(true);
      } else {
        r := if nextThrows then None else Some(false);
      }
    }

    /** `getString(i)` on the current row. */
    method GetString(i: int) returns (c: Cell)
      requires Valid() && position >= 1
      ensures c == CellAt(rows[position - 1], i)
    {
      c := CellAt(rows[position - 1], i);
    }

    method IsClosed() returns (r: Option<bool>)
      ensures r == if isClosedThrows then None else Some(closed)
    {
      r := if isClosedThrows then None else Some(closed);
    }

    method Close() returns (threw: bool)
      modifies this`closed
      ensures threw == closeThrows
      ensures closed == (old(closed) || !closeThrows)
    {
      threw := closeThrows;
      if !closeThrows {
        closed := true;
      }
    }
  }
}
