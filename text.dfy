/**
 * The Python string operations the analyser relies on: `lower()`, `split(sep)`,
 * `split()`, `strip(chars)`, `strip()`, `isnumeric()` and `int(...)`.
 * Characters are taken as ASCII: whitespace is the ASCII part of Python's
 * `str.isspace`, upper case is 'A'..'Z' and digits are '0'..'9'.
 */
module Text {

  /** The ASCII characters Python's `str.split()` and `str.strip()` treat as whitespace. */
  const Whitespace: set<char> :=
    {' ', '\t', '\n', '\r', '\U{0B}', '\U{0C}', '\U{1C}', '\U{1D}', '\U{1E}', '\U{1F}'}

  predicate IsSpace(c: char) {
    c in Whitespace
  }

  predicate IsUpper(c: char) {
    'A' <= c <= 'Z'
  }

  predicate IsDigit(c: char) {
    '0' <= c <= '9'
  }

  /** No character of s is whitespace. */
  predicate NoSpace(s: string) {
    forall i :: 0 <= i < |s| ==> !IsSpace(s[i])
  }

  /** No character of s is an upper-case letter. */
  predicate NoUpper(s: string) {
    forall i :: 0 <= i < |s| ==> !IsUpper(s[i])
  }

  /** Every character of t also occurs in s. */
  predicate CharsFrom(t: string, s: string) {
    forall i :: 0 <= i < |t| ==> t[i] in s
  }

  /** What t's characters are drawn from, t inherits the absence of. */
  lemma CharsFromInherits(t: string, s: string)
    requires CharsFrom(t, s)
    ensures NoSpace(s) ==> NoSpace(t)
    ensures NoUpper(s) ==> NoUpper(t)
    ensures forall c :: c !in s ==> c !in t
    ensures forall u :: CharsFrom(u, t) ==> CharsFrom(u, s)
  {
    forall i | 0 <= i < |t| ensures (NoSpace(s) ==> !IsSpace(t[i])) && (NoUpper(s) ==> !IsUpper(t[i])) {
      var k :| 0 <= k < |s| && s[k] == t[i];
    }
  }

  // ---------------------------------------------------------------- lower()

  function LowerChar(c: char): (r: char)
    ensures !IsUpper(r)
    ensures !IsUpper(c) ==> r == c
    ensures IsUpper(c) ==> r as int == c as int + 32
  {
    if IsUpper(c) then (c as int + 32) as char else c
  }

  /** Python's `s.lower()` on ASCII text. */
  function Lower(s: string): (r: string)
    ensures |r| == |s| && NoUpper(r)
    ensures forall i :: 0 <= i < |s| && !IsUpper(s[i]) ==> r[i] == s[i]
    ensures forall i :: 0 <= i < |s| && IsUpper(s[i]) ==> r[i] as int == s[i] as int + 32
  {
    seq(|s|, i requires 0 <= i < |s| => LowerChar(s[i]))
  }

  // ---------------------------------------------------------------- split(sep)

  /**
   * Python's `s.split(sep)` for a one-character separator: the pieces between
   * the occurrences of sep, in order, always at least one (an empty s gives [""]).
   */
  function SplitOn(s: string, sep: char): (r: seq<string>)
    ensures |r| >= 1
    ensures forall i :: 0 <= i < |r| ==> sep !in r[i]
    ensures forall i :: 0 <= i < |r| ==> CharsFrom(r[i], s)
    decreases |s|
  {
    if s == [] then [""]
    else
      var rest := SplitOn(s[1..], sep);
      if s[0] == sep then [""] + rest
      else [[s[0]] + rest[0]] + rest[1..]
  }

  /** `sep.join(pieces)`. */
  function JoinWith(pieces: seq<string>, sep: char): string
  {
    if |pieces| == 0 then ""
    else if |pieces| == 1 then pieces[0]
    else pieces[0] + [sep] + JoinWith(pieces[1..], sep)
  }

  /** Splitting loses nothing: joining the pieces with the separator gives s back. */
  lemma {:induction false} JoinSplitOn(s: string, sep: char)
    ensures JoinWith(SplitOn(s, sep), sep) == s
    decreases |s|
  {
    if s != [] {
      var rest := SplitOn(s[1..], sep);
      JoinSplitOn(s[1..], sep);
      if s[0] == sep {
        assert SplitOn(s, sep) == [""] + rest;
        assert ([""] + rest)[1..] == rest;
      } else {
        var r := SplitOn(s, sep);
        assert r == [[s[0]] + rest[0]] + rest[1..];
        if |rest| > 1 {
          assert r[1..] == rest[1..];
        }
      }
    }
  }

  /** The other direction: pieces free of sep are recovered from their join. */
  lemma {:induction false} SplitOnJoin(pieces: seq<string>, sep: char)
    requires |pieces| >= 1
    requires forall i :: 0 <= i < |pieces| ==> sep !in pieces[i]
    ensures SplitOn(JoinWith(pieces, sep), sep) == pieces
    decreases |pieces|, |pieces[0]|
  {
    var p := pieces[0];
    if p == [] {
      if |pieces| > 1 {
        SplitOnJoin(pieces[1..], sep);
        var s := JoinWith(pieces, sep);
        assert s == [sep] + JoinWith(pieces[1..], sep);
        assert s[1..] == JoinWith(pieces[1..], sep);
        assert pieces == [""] + pieces[1..];
      }
    } else {
      var tail := [p[1..]] + pieces[1..];
      assert tail[1..] == pieces[1..];
      assert forall i :: 0 <= i < |tail| ==> sep !in tail[i] by {
        forall i | 0 <= i < |tail| ensures sep !in tail[i] {
          if i == 0 {
            assert forall k :: 0 <= k < |p[1..]| ==> p[1..][k] == p[k + 1];
          }
        }
      }
      SplitOnJoin(tail, sep);
      var s := JoinWith(pieces, sep);
      if |pieces| == 1 {
        assert s == p;
      } else {
        assert s == p + [sep] + JoinWith(pieces[1..], sep);
        assert JoinWith(tail, sep) == p[1..] + [sep] + JoinWith(pieces[1..], sep);
      }
      assert s[0] == p[0] && s[1..] == JoinWith(tail, sep);
      assert p[0] != sep by {
        assert p[0] in p;
      }
      var rest := SplitOn(s[1..], sep);
      assert rest == tail;
      assert [p[0]] + p[1..] == p;
    }
  }

  // ---------------------------------------------------------------- split()

  /** Length of the leading run of non-whitespace characters of s. */
  function TokenLength(s: string): (n: nat)
    ensures n <= |s|
    ensures forall i :: 0 <= i < n ==> !IsSpace(s[i])
    ensures n < |s| ==> IsSpace(s[n])
  {
    if s == [] || IsSpace(s[0]) then 0 else 1 + TokenLength(s[1..])
  }

  /**
   * Python's `s.split()` with no argument: the maximal runs of non-whitespace
   * characters, in order; runs of whitespace, leading and trailing ones included,
   * produce no empty tokens.
   */
  function SplitWhitespace(s: string): (r: seq<string>)
    ensures forall i :: 0 <= i < |r| ==> r[i] != "" && NoSpace(r[i])
    ensures forall i :: 0 <= i < |r| ==> CharsFrom(r[i], s)
    decreases |s|
  {
    if s == [] then []
    else if IsSpace(s[0]) then SplitWhitespace(s[1..])
    else
      var n := TokenLength(s);
      [s[..n]] + SplitWhitespace(s[n..])
  }

  /** `" ".join(tokens)`. */
  function JoinSpaced(tokens: seq<string>): string
  {
    JoinWith(tokens, ' ')
  }

  /** Leading whitespace produces no token: `split()` skips it. */
  lemma {:induction false} LeadingSpaceSkipped(w: string, s: string)
    requires forall i :: 0 <= i < |w| ==> IsSpace(w[i])
    ensures SplitWhitespace(w + s) == SplitWhitespace(s)
    decreases |w|
  {
    if w != [] {
      assert (w + s)[1..] == w[1..] + s;
      LeadingSpaceSkipped(w[1..], s);
    } else {
      assert w + s == s;
    }
  }

  /** A text has no tokens exactly when all of its characters are whitespace. */
  lemma {:induction false} SplitWhitespaceEmpty(s: string)
    ensures SplitWhitespace(s) == [] <==> (forall i :: 0 <= i < |s| ==> IsSpace(s[i]))
    decreases |s|
  {
    if s != [] && IsSpace(s[0]) {
      SplitWhitespaceEmpty(s[1..]);
      assert forall i :: 1 <= i < |s| ==> s[i] == s[1..][i - 1];
    }
  }

  lemma {:induction false} TokenLengthOfToken(t: string, rest: string)
    requires NoSpace(t)
    requires rest == [] || IsSpace(rest[0])
    ensures TokenLength(t + rest) == |t|
    decreases |t|
  {
    if t != [] {
      assert (t + rest)[1..] == t[1..] + rest;
      TokenLengthOfToken(t[1..], rest);
    } else {
      assert t + rest == rest;
    }
  }

  /** A whitespace-free token followed by whitespace (or nothing) is split off whole. */
  lemma SplitWhitespaceToken(t: string, rest: string)
    requires t != [] && NoSpace(t)
    requires rest == [] || IsSpace(rest[0])
    ensures SplitWhitespace(t + rest) == [t] + SplitWhitespace(rest)
  {
    var s := t + rest;
    TokenLengthOfToken(t, rest);
    assert s[..|t|] == t;
    assert s[|t|..] == rest;
    assert !IsSpace(s[0]);
  }

  /** Tokens that are non-empty and free of whitespace survive `" ".join` and `split()`. */
  lemma {:induction false} SplitWhitespaceJoinSpaced(tokens: seq<string>)
    requires forall i :: 0 <= i < |tokens| ==> tokens[i] != "" && NoSpace(tokens[i])
    ensures SplitWhitespace(JoinSpaced(tokens)) == tokens
    decreases |tokens|
  {
    if |tokens| > 0 {
      var t := tokens[0];
      var rest := if |tokens| == 1 then "" else " " + JoinSpaced(tokens[1..]);
      var s := JoinSpaced(tokens);
      assert s == t + rest;
      TokenLengthOfToken(t, rest);
      assert s[..|t|] == t;
      assert s[|t|..] == rest;
      assert !IsSpace(s[0]);
      if |tokens| == 1 {
        assert rest == [];
      } else {
        SplitWhitespaceJoinSpaced(tokens[1..]);
        assert rest[1..] == JoinSpaced(tokens[1..]);
        assert SplitWhitespace(rest) == SplitWhitespace(rest[1..]);
        assert tokens == [t] + tokens[1..];
      }
    }
  }

  // ---------------------------------------------------------------- strip(chars)

  /** Number of leading characters of s that are in cs. */
  function LeadingCount(s: string, cs: set<char>): (n: nat)
    ensures n <= |s|
    ensures forall i :: 0 <= i < n ==> s[i] in cs
    ensures n < |s| ==> s[n] !in cs
  {
    if s == [] || s[0] !in cs then 0 else 1 + LeadingCount(s[1..], cs)
  }

  /** Number of trailing characters of s that are in cs. */
  function TrailingCount(s: string, cs: set<char>): (n: nat)
    ensures n <= |s|
    ensures forall i :: |s| - n <= i < |s| ==> s[i] in cs
    ensures n < |s| ==> s[|s| - 1 - n] !in cs
  {
    if s == [] || s[|s| - 1] !in cs then 0 else 1 + TrailingCount(s[..|s| - 1], cs)
  }

  /**
   * Python's `s.strip(chars)` (and `s.strip()` with cs the whitespace): s with
   * every leading and every trailing character that is in cs removed. The result
   * is the contiguous part of s starting at the first character outside cs; all
   * that is cut off on either side is in cs, and what is left neither starts nor
   * ends with a character of cs.
   */
  function Strip(s: string, cs: set<char>): (r: string)
    ensures |r| <= |s| - LeadingCount(s, cs)
    ensures r == s[LeadingCount(s, cs)..LeadingCount(s, cs) + |r|]
    ensures forall i :: LeadingCount(s, cs) + |r| <= i < |s| ==> s[i] in cs
    ensures r == [] || (r[0] !in cs && r[|r| - 1] !in cs)
    ensures r == [] <==> (forall i :: 0 <= i < |s| ==> s[i] in cs)
    ensures CharsFrom(r, s)
  {
    var lead := LeadingCount(s, cs);
    if lead == |s| then ""
    else
      var trail := TrailingCount(s, cs);
      s[lead..|s| - trail]
  }

  // ---------------------------------------------------------------- isnumeric(), int()

  /** Python's `s.isnumeric()` on ASCII text: non-empty and made of digits only. */
  predicate IsNumeric(s: string) {
    |s| > 0 && forall i :: 0 <= i < |s| ==> IsDigit(s[i])
  }

  function DigitValue(c: char): (d: nat)
    requires IsDigit(c)
    ensures d < 10
  {
    c as int - '0' as int
  }

  function DigitChar(d: nat): (c: char)
    requires d < 10
    ensures IsDigit(c) && DigitValue(c) == d
  {
    ('0' as int + d) as char
  }

  /** Python's `int(s)` for a string of decimal digits. */
  function DecimalValue(s: string): nat
    requires forall i :: 0 <= i < |s| ==> IsDigit(s[i])
  {
    if s == [] then 0 else 10 * DecimalValue(s[..|s| - 1]) + DigitValue(s[|s| - 1])
  }

  /** The shortest decimal spelling of n, as `str(n)` gives it. */
  function DecimalString(n: nat): (s: string)
    ensures IsNumeric(s)
  {
    if n < 10 then [DigitChar(n)] else DecimalString(n / 10) + [DigitChar(n % 10)]
  }

  /** Every natural number is the value of its decimal spelling. */
  lemma {:induction false} DecimalValueOfString(n: nat)
    ensures DecimalValue(DecimalString(n)) == n
  {
    var s := DecimalString(n);
    if n >= 10 {
      DecimalValueOfString(n / 10);
      assert s[..|s| - 1] == DecimalString(n / 10);
    }
  }

  /** Prepending zeros does not change the value. */
  lemma {:induction false} DecimalValueLeadingZero(s: string)
    requires forall i :: 0 <= i < |s| ==> IsDigit(s[i])
    ensures DecimalValue("0" + s) == DecimalValue(s)
    decreases |s|
  {
    if s != [] {
      var t := "0" + s;
      assert t[..|t| - 1] == "0" + s[..|s| - 1];
      DecimalValueLeadingZero(s[..|s| - 1]);
    }
  }
}
