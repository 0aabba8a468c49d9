/**
 * Normalisation of the configured SQL text (`deleteSemicolonAtTheEnd`): while
 * the query ends in ';' and is at least two characters long, drop that ';'
 * and `trim()` what is left.  The last character is read before the length
 * is tested, so an empty query -- given, or produced by a trim on the way --
 * raises `StringIndexOutOfBoundsException`.
 */
module QueryNormalization {

  import opened JavaStrings

  datatype Normalized = Query(text: string) | IndexOutOfBounds

  /** One more stripping step applies: the last character is ';' and the length is at least 2. */
  predicate EndsInStrippableSemicolon(s: string) {
    |s| >= 2 && s[|s| - 1] == ';'
  }

  /** The text one stripping step leaves. */
  function StripOnce(s: string): (r: string)
    requires EndsInStrippableSemicolon(s)
    ensures |r| < |s|
  {
    Trim(s[..|s| - 1])
  }

  /** What `deleteSemicolonAtTheEnd` leaves in `sqlQuery`, or the exception it raises. */
  function Normalize(s: string): Normalized
    decreases |s|
  {
    if |s| == 0 then IndexOutOfBounds
    else if EndsInStrippableSemicolon(s) then Normalize(StripOnce(s))
    else Query(s)
  }

  /** The fixpoint: a normalised query is non-empty and cannot be stripped further. */
  lemma {:induction false} NormalizeFixpoint(s: string)
    requires Normalize(s).Query?
    ensures Normalize(s).text != []
    ensures !EndsInStrippableSemicolon(Normalize(s).text)
    decreases |s|
  {
    if EndsInStrippableSemicolon(s) {
      NormalizeFixpoint(StripOnce(s));
    }
  }

  /** Normalising twice is normalising once. */
  lemma NormalizeIdempotent(s: string)
    requires Normalize(s).Query?
    ensures Normalize(Normalize(s).text) == Normalize(s)
  {
    NormalizeFixpoint(s);
  }

  /** The result is never longer than the input, and it is shorter whenever a step applied. */
  lemma {:induction false} NormalizeShrinks(s: string)
    requires Normalize(s).Query?
    ensures |Normalize(s).text| <= |s|
    ensures EndsInStrippableSemicolon(s) ==> |Normalize(s).text| < |s|
    decreases |s|
  {
    if EndsInStrippableSemicolon(s) {
      NormalizeShrinks(StripOnce(s));
    }
  }

  /** A query is left as it is exactly when it is non-empty and no step applies. */
  lemma NormalizeUnchanged(s: string)
    ensures Normalize(s) == Query(s) <==> s != [] && !EndsInStrippableSemicolon(s)
  {
    if EndsInStrippableSemicolon(s) && Normalize(s).Query? {
      NormalizeShrinks(s);
    }
  }

  /** A terminated statement loses its terminator. */
  lemma NormalizeTerminated()
    ensures Normalize("SELECT 1;") == Query("SELECT 1")
  {
    assert "SELECT 1;"[..8] == "SELECT 1";
    TrimOfTrimmed("SELECT 1");
    assert Normalize("SELECT 1") == Query("SELECT 1");
  }

  /** A query of two terminators keeps one: the length test stops the second step. */
  lemma NormalizeDoubleSemicolon()
    ensures Normalize(";;") == Query(";")
  {
    assert ";;"[..1] == ";";
    TrimOfTrimmed(";");
    assert Normalize(";") == Query(";");
  }

  /** Only the last character is inspected: a blank after the ';' stops normalisation. */
  lemma NormalizeTrailingBlank()
    ensures Normalize("SELECT 1;;;  ") == Query("SELECT 1;;;  ")
    ensures Normalize("x;  ") == Query("x;  ")
    ensures Normalize("SELECT ';' FROM dual") == Query("SELECT ';' FROM dual")
  {
  }

  /** The empty query, and a query that trims to empty, raise the exception. */
  lemma NormalizeEmpty()
    ensures Normalize("") == IndexOutOfBounds
    ensures Normalize("  ;") == IndexOutOfBounds
  {
    assert "  ;"[..2] == "  ";
    assert "  "[1..] == " " && " "[1..] == "";
    assert Trim(" ") == "";
    assert StripOnce("  ;") == "";
  }
}
