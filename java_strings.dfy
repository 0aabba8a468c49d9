/**
 * The parts of java.lang.String that the monitor relies on: `trim()` and
 * `contains(".")`.  Java's `trim()` removes every leading and trailing
 * character whose code is at most U+0020 (space and all control characters).
 */
module JavaStrings {

  /** The characters `String.trim()` strips. */
  predicate IsTrimmable(c: char) {
    c <= ' '
  }

  predicate AllTrimmable(s: string) {
    forall i | 0 <= i < |s| :: IsTrimmable(s[i])
  }

  /**
   * Java's `String.trim()`: strips every trimmable character from both ends.
   * (Stripping one end character at a time, front first, reaches the same
   * string as stripping all of the front and then all of the back.)
   */
  function Trim(s: string): (r: string)
    ensures |r| <= |s|
    ensures r != [] ==> !IsTrimmable(r[0]) && !IsTrimmable(r[|r| - 1])
    decreases |s|
  {
    if s != [] && IsTrimmable(s[0]) then Trim(s[1..])
    else if s != [] && IsTrimmable(s[|s| - 1]) then Trim(s[..|s| - 1])
    else s
  }

  /** Java's `String.contains` for a one-character pattern. */
  predicate Contains(s: string, c: char) {
    c in s
  }

  /** A string that already has no trimmable ends is a fixed point of `Trim`. */
  lemma TrimOfTrimmed(s: string)
    requires s == [] || (!IsTrimmable(s[0]) && !IsTrimmable(s[|s| - 1]))
    ensures Trim(s) == s
  {
  }

  /** `Trim` is idempotent. */
  lemma TrimIdempotent(s: string)
    ensures Trim(Trim(s)) == Trim(s)
  {
    TrimOfTrimmed(Trim(s));
  }

  /** `r` sits in `s` at `i` with only trimmable characters around it. */
  predicate TrimmedInfix(s: string, i: nat, r: string) {
    i + |r| <= |s| && r == s[i..i + |r|] && AllTrimmable(s[..i]) && AllTrimmable(s[i + |r|..])
  }

  lemma TrimmedInfixCons(c: char, u: string, j: nat, r: string)
    requires IsTrimmable(c) && TrimmedInfix(u, j, r)
    ensures TrimmedInfix([c] + u, j + 1, r)
  {
    var s := [c] + u;
    assert u[j..j + |r|] == s[j + 1..j + 1 + |r|];
    assert u[j + |r|..] == s[j + 1 + |r|..];
    var front := s[..j + 1];
    forall i | 0 <= i < |front|
      ensures IsTrimmable(front[i])
    {
      if i > 0 {
        assert front[i] == u[..j][i - 1];
      }
    }
  }

  lemma TrimmedInfixSnoc(u: string, c: char, i: nat, r: string)
    requires IsTrimmable(c) && TrimmedInfix(u, i, r)
    ensures TrimmedInfix(u + [c], i, r)
  {
    var s := u + [c];
    assert u[..i] == s[..i];
    assert u[i..i + |r|] == s[i..i + |r|];
    assert s[i + |r|..] == u[i + |r|..] + [c];
  }

  /**
   * What `trim()` returns: the infix of `s` left once the trimmable
   * characters at both ends are gone.
   */
  lemma {:induction false} TrimIsInfix(s: string) returns (i: nat)
    ensures TrimmedInfix(s, i, Trim(s))
    decreases |s|
  {
    if s != [] && IsTrimmable(s[0]) {
      var j := TrimIsInfix(s[1..]);
      TrimmedInfixCons(s[0], s[1..], j, Trim(s[1..]));
      assert [s[0]] + s[1..] == s;
      i := j + 1;
    } else if s != [] && IsTrimmable(s[|s| - 1]) {
      i := TrimIsInfix(s[..|s| - 1]);
      TrimmedInfixSnoc(s[..|s| - 1], s[|s| - 1], i, Trim(s[..|s| - 1]));
      assert s[..|s| - 1] + [s[|s| - 1]] == s;
    } else {
      i := 0;
      assert s[..0] == [] && s[|s|..] == [];
    }
  }

  /** `trim()` gives the empty string exactly when every character is trimmable. */
  lemma TrimEmpty(s: string)
    ensures Trim(s) == [] <==> AllTrimmable(s)
  {
    var i := TrimIsInfix(s);
    assert TrimmedInfix(s, i, Trim(s));
    if Trim(s) == [] {
      assert s == s[..i] + s[i..];
    } else {
      assert s[i] == Trim(s)[0];
    }
  }

  /** Trimming a trimmed word followed by trimmable characters gives back the word. */
  lemma {:induction false} TrimWordThenBlanks(s: string, w: string)
    requires s != [] && !IsTrimmable(s[0]) && !IsTrimmable(s[|s| - 1])
    requires AllTrimmable(w)
    ensures Trim(s + w) == s
    decreases |w|
  {
    if w == [] {
      assert s + w == s;
    } else {
      var w' := w[..|w| - 1];
      assert (s + w)[..|s + w| - 1] == s + w';
      TrimWordThenBlanks(s, w');
    }
  }
}
