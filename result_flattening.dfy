/**
 * Flattening of a result set into one string (`getRowAsString`,
 * `extractFromResultSet`): every column of a row is rendered and followed by
 * one space, every row is followed by the line separator, and the whole text
 * is trimmed.
 */
module ResultFlattening {

  import opened JavaStrings
  import opened Jdbc

  /** `System.lineSeparator()`, fixed to the Unix value. */
  const LINE_SEPARATOR: string := "\n"

  /** What `StringBuilder.append(rs.getString(i))` adds: SQL NULL appends "null",
      a read error appends nothing. */
  function CellText(c: Cell): string {
    match c
    case Value(t) => t
    case SqlNull => "null"
    case ReadError => ""
  }

  /** The texts of columns 1..columnCount of a row. */
  function ColumnTexts(row: Row, columnCount: nat): seq<string> {
    seq(columnCount, k requires 0 <= k < columnCount => CellText(CellAt(row, k + 1)))
  }

  /** Each text followed by one space. */
  function Join(texts: seq<string>): string {
    if texts == [] then "" else texts[0] + " " + Join(texts[1..])
  }

  /** The string `getRowAsString` builds from columns 1..columnCount of a row. */
  function RenderRow(row: Row, columnCount: nat): string {
    if columnCount == 0 then ""
    else RenderRow(row, columnCount - 1) + CellText(CellAt(row, columnCount)) + " "
  }

  /** The buffer `extractFromResultSet` has built after the given rows. */
  function Concat(rows: seq<Row>, columnCount: nat): string {
    if rows == [] then ""
    else Concat(rows[..|rows| - 1], columnCount) + RenderRow(rows[|rows| - 1], columnCount) + LINE_SEPARATOR
  }

  /** The string `extractFromResultSet` returns for the rows `next()` yielded. */
  function Flatten(rows: seq<Row>, columnCount: nat): string {
    Trim(Concat(rows, columnCount))
  }

  /** Appending the rendering of row `mid` to the buffer built from rows `lo..mid`. */
  lemma ConcatExtend(rows: seq<Row>, lo: nat, mid: nat, hi: nat, columnCount: nat, buffer: string, row: string)
    requires lo <= mid && hi == mid + 1 && hi <= |rows|
    requires buffer == Concat(rows[lo..mid], columnCount)
    requires row == RenderRow(rows[hi - 1], columnCount)
    ensures buffer + row + LINE_SEPARATOR == Concat(rows[lo..hi], columnCount)
  {
    var s := rows[lo..hi];
    assert s[..|s| - 1] == rows[lo..mid];
    assert s[|s| - 1] == rows[mid];
    assert Concat(s, columnCount) == Concat(s[..|s| - 1], columnCount) + RenderRow(s[|s| - 1], columnCount) + LINE_SEPARATOR;
  }

  /** Appending one more column to the row buffer. */
  lemma {:induction false} JoinSnoc(texts: seq<string>, t: string)
    ensures Join(texts + [t]) == Join(texts) + t + " "
  {
    if texts != [] {
      assert (texts + [t])[1..] == texts[1..] + [t];
      JoinSnoc(texts[1..], t);
    } else {
      assert Join([t]) == t + " " + Join([]);
    }
  }

  /** A rendered row is its column texts, each followed by one space. */
  lemma {:induction false} RenderRowJoin(row: Row, columnCount: nat)
    ensures RenderRow(row, columnCount) == Join(ColumnTexts(row, columnCount))
  {
    if columnCount > 0 {
      RenderRowJoin(row, columnCount - 1);
      var t := CellText(CellAt(row, columnCount));
      assert ColumnTexts(row, columnCount) == ColumnTexts(row, columnCount - 1) + [t];
      JoinSnoc(ColumnTexts(row, columnCount - 1), t);
    } else {
      assert ColumnTexts(row, 0) == [];
    }
  }

  function CountChar(s: string, c: char): nat {
    if s == [] then 0 else (if s[0] == c then 1 else 0) + CountChar(s[1..], c)
  }

  lemma {:induction false} CountCharAppend(a: string, b: string, c: char)
    ensures CountChar(a + b, c) == CountChar(a, c) + CountChar(b, c)
  {
    if a != [] {
      assert (a + b)[1..] == a[1..] + b;
      CountCharAppend(a[1..], b, c);
    } else {
      assert a + b == b;
    }
  }

  /** A rendered row holds at least one space per column, even when reads fail. */
  lemma {:induction false} JoinSpaces(texts: seq<string>)
    ensures CountChar(Join(texts), ' ') >= |texts|
    ensures |Join(texts)| >= |texts|
  {
    if texts != [] {
      JoinSpaces(texts[1..]);
      CountCharAppend(texts[0], " ", ' ');
      CountCharAppend(texts[0] + " ", Join(texts[1..]), ' ');
    }
  }

  lemma RenderRowSpaces(row: Row, columnCount: nat)
    ensures CountChar(RenderRow(row, columnCount), ' ') >= columnCount
    ensures |RenderRow(row, columnCount)| >= columnCount
  {
    RenderRowJoin(row, columnCount);
    JoinSpaces(ColumnTexts(row, columnCount));
  }

  /** A row whose every read fails still renders as one space per column. */
  lemma {:induction false} RenderFailedRow(row: Row, columnCount: nat)
    requires forall i | 1 <= i <= columnCount :: CellAt(row, i) == ReadError
    ensures RenderRow(row, columnCount) == seq(columnCount, _ => ' ')
  {
    if columnCount > 0 {
      RenderFailedRow(row, columnCount - 1);
      assert seq(columnCount, _ => ' ') == seq(columnCount - 1, _ => ' ') + "" + [' '];
    }
  }

  /** The position of the first space in `s`, or `|s|`. */
  function FirstSpace(s: string): (k: nat)
    ensures k <= |s|
    ensures k < |s| ==> s[k] == ' '
    ensures ' ' !in s[..k]
  {
    if s == [] then 0
    else if s[0] == ' ' then 0
    else
      var k := FirstSpace(s[1..]);
      assert s[..k + 1] == [s[0]] + s[1..][..k];
      k + 1
  }

  /** Splits a rendered row back into its column texts. */
  function Split(s: string): seq<string>
    decreases |s|
  {
    if s == [] then []
    else
      var k := FirstSpace(s);
      if k == |s| then [s] else [s[..k]] + Split(s[k + 1..])
  }

  lemma FirstSpaceOf(a: string, b: string)
    requires ' ' !in a
    ensures FirstSpace(a + " " + b) == |a|
    decreases |a|
  {
    if a != [] {
      assert (a + " " + b)[1..] == a[1..] + " " + b;
      FirstSpaceOf(a[1..], b);
    }
  }

  /** No text is lost: when no column text contains a space, splitting a
      rendered row on spaces gives back exactly the column texts. */
  lemma {:induction false} SplitJoin(texts: seq<string>)
    requires forall k | 0 <= k < |texts| :: ' ' !in texts[k]
    ensures Split(Join(texts)) == texts
  {
    if texts != [] {
      var s := Join(texts);
      FirstSpaceOf(texts[0], Join(texts[1..]));
      assert s[..|texts[0]|] == texts[0];
      assert s[|texts[0]| + 1..] == Join(texts[1..]);
      SplitJoin(texts[1..]);
    }
  }

  lemma SplitRenderRow(row: Row, columnCount: nat)
    requires forall i | 1 <= i <= columnCount :: ' ' !in CellText(CellAt(row, i))
    ensures Split(RenderRow(row, columnCount)) == ColumnTexts(row, columnCount)
  {
    RenderRowJoin(row, columnCount);
    var ts := ColumnTexts(row, columnCount);
    assert forall k | 0 <= k < |ts| :: ' ' !in ts[k] by {
      forall k | 0 <= k < |ts| ensures ' ' !in ts[k] {
        assert ts[k] == CellText(CellAt(row, k + 1));
      }
    }
    SplitJoin(ts);
  }

  /** A fetch error after k rows keeps a prefix of what the full cursor would have given. */
  lemma {:induction false} ConcatPrefix(rows: seq<Row>, k: nat, columnCount: nat)
    requires k <= |rows|
    ensures Concat(rows[..k], columnCount) <= Concat(rows, columnCount)
    decreases |rows|
  {
    if k < |rows| {
      var init := rows[..|rows| - 1];
      assert rows[..k] == init[..k];
      ConcatPrefix(init, k, columnCount);
    } else {
      assert rows[..k] == rows;
    }
  }

  /** No rows flatten to the empty string. */
  lemma FlattenNoRows(columnCount: nat)
    ensures Flatten([], columnCount) == ""
  {
  }

  /** Two rows of two columns: per-column spaces stay inside, the final ones are trimmed. */
  lemma FlattenTwoByTwo()
    ensures Flatten([[Value("a"), Value("b")], [Value("c"), Value("d")]], 2) == "a b \nc d"
  {
    var r1: Row := [Value("a"), Value("b")];
    var r2: Row := [Value("c"), Value("d")];
    assert RenderRow(r1, 2) == "a b ";
    assert RenderRow(r2, 2) == "c d ";
    var rows := [r1, r2];
    assert rows[..1] == [r1];
    assert Concat([r1], 2) == "a b \n";
    assert Concat(rows, 2) == "a b \nc d " + "\n";
    TrimWordThenBlanks("a b \nc d", " \n");
    assert "a b \nc d " + "\n" == "a b \nc d" + " \n";
  }
}
