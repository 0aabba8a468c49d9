/**
 * Classification of the flattened output (`isLongDoubleOrText`): text with a
 * '.' is offered to `Double.parseDouble` only, text without one to
 * `Long.parseLong` only, and a `NumberFormatException` from either makes it
 * text.  `Double.parseDouble` is not modelled: it is the parameter
 * `parseDouble`, `None` standing for the exception.
 */
module OutputClassification {

  import opened Wrappers
  import opened JavaStrings
  import opened JavaNumbers

  type DoubleParser = string -> Option<real>

  datatype Classification = AsLong(l: int) | AsDouble(d: real) | AsText

  const OUTPUT_TYPE_LONG: int := 0
  const OUTPUT_TYPE_DOUBLE: int := 1
  const OUTPUT_TYPE_STRING: int := 2

  /** The code `isLongDoubleOrText` returns for a classification. */
  function TypeCode(c: Classification): (code: int)
    ensures code == OUTPUT_TYPE_LONG <==> c.AsLong?
    ensures code == OUTPUT_TYPE_DOUBLE <==> c.AsDouble?
    ensures code == OUTPUT_TYPE_STRING <==> c.AsText?
  {
    match c
    case AsLong(_) => OUTPUT_TYPE_LONG
    case AsDouble(_) => OUTPUT_TYPE_DOUBLE
    case AsText => OUTPUT_TYPE_STRING
  }

  function Classify(s: string, parseDouble: DoubleParser): Classification {
    if Contains(s, '.') then
      match parseDouble(s)
      case Some(d) => AsDouble(d)
      case None => AsText
    else
      match ParseLong(s)
      case Some(l) => AsLong(l)
      case None => AsText
  }

  /** Text with a '.' is never a long; it is a double exactly when the double parser accepts it. */
  lemma ClassifyWithDot(s: string, parseDouble: DoubleParser)
    requires '.' in s
    ensures !Classify(s, parseDouble).AsLong?
    ensures Classify(s, parseDouble).AsDouble? <==> parseDouble(s).Some?
  {
  }

  /** Text without a '.' is never a double; it is a long exactly when `Long.parseLong` accepts it,
      and then with that value, which lies in the `long` range. */
  lemma ClassifyWithoutDot(s: string, parseDouble: DoubleParser)
    requires '.' !in s
    ensures !Classify(s, parseDouble).AsDouble?
    ensures Classify(s, parseDouble).AsLong? <==> ParseLong(s).Some?
    ensures Classify(s, parseDouble).AsLong? ==>
              Classify(s, parseDouble).l == ParseLong(s).value && MIN_LONG <= Classify(s, parseDouble).l <= MAX_LONG
  {
  }

  /** The empty output is text, whatever the double parser does. */
  lemma ClassifyEmpty(parseDouble: DoubleParser)
    ensures Classify("", parseDouble) == AsText
  {
  }

  /** The text of any `long` classifies as that long. */
  lemma ClassifyLongText(v: Int64, parseDouble: DoubleParser)
    ensures Classify(LongToString(v), parseDouble) == AsLong(v)
  {
    LongToStringShape(v);
    ParseLongToString(v);
  }

  /** Every optional sign followed by digits, with a value in the `long` range,
      is a long with that value, whatever the double parser does. */
  lemma ClassifySignedDigits(sign: string, d: string, parseDouble: DoubleParser)
    requires sign == "" || sign == "+" || sign == "-"
    requires d != [] && AllDigits(d)
    requires MIN_LONG <= SignedValue(sign, d) <= MAX_LONG
    ensures Classify(sign + d, parseDouble) == AsLong(SignedValue(sign, d))
  {
    var s := sign + d;
    assert '.' !in s by {
      forall i | 0 <= i < |s|
        ensures s[i] != '.'
      {
        if i >= |sign| {
          assert s[i] == d[i - |sign|];
        }
      }
    }
    ParseLongAccepts(sign, d);
  }

  /** Plain and negative integers are longs. */
  lemma ClassifyIntegers(parseDouble: DoubleParser)
    ensures Classify("123", parseDouble) == AsLong(123)
    ensures Classify("-42", parseDouble) == AsLong(-42)
  {
    assert LongToString(123) == "123" by {
      assert NatToString(12) == "12";
    }
    ClassifyLongText(123, parseDouble);
    assert LongToString(-42) == "-42" by {
      assert NatToString(42) == "42";
    }
    ClassifyLongText(-42, parseDouble);
  }

  /** A malformed integer is text. */
  lemma ClassifyMalformed(parseDouble: DoubleParser)
    ensures Classify("12abc", parseDouble) == AsText
  {
    assert '.' !in "12abc";
    assert !AllDigits("12abc") by {
      assert !IsDigit("12abc"[2]);
    }
  }

  /** A dotted text the double parser rejects is text, not a long. */
  lemma ClassifyRejectedDouble(parseDouble: DoubleParser)
    requires parseDouble("1.2.3").None?
    ensures Classify("1.2.3", parseDouble) == AsText
  {
    assert "1.2.3"[1] == '.';
  }
}
