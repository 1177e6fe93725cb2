/** Small value types and string helpers shared by every module of the model. */
module Base {

  datatype Option<+T> = None | Some(value: T) {
    function GetOr(default: T): T {
      match this
      case Some(v) => v
      case None => default
    }
  }

  /** `r` is `s` with some elements left out and the rest in their order. */
  predicate SubsequenceOf<T(==)>(r: seq<T>, s: seq<T>)
    decreases |s|
  {
    if r == [] then true
    else if s == [] then false
    else if r[0] == s[0] then SubsequenceOf(r[1..], s[1..])
    else SubsequenceOf(r, s[1..])
  }

  /** A numeric text field as the forms read it: blank (empty or whitespace only), text that
      parseFloat / parseInt turn into NaN, or the number it parses to (cents for amounts). */
  datatype NumField = Blank | NotNumber | Number(value: int)

  // ---------------------------------------------------------------------
  // Whitespace and String.prototype.trim
  // ---------------------------------------------------------------------

  /** The whitespace that JavaScript's trim removes (the common subset). */
  predicate IsSpace(c: char) {
    c == ' ' || c == '\t' || c == '\n' || c == '\r'
    || c == '\U{000B}' || c == '\U{000C}' || c == '\U{00A0}' || c == '\U{FEFF}'
  }

  /** Drops leading whitespace: the result is a suffix of s that does not start with whitespace. */
  function TrimStart(s: string): (r: string)
    ensures |r| <= |s| && r == s[|s| - |r|..]
    ensures r == [] || !IsSpace(r[0])
    ensures forall i :: 0 <= i < |s| - |r| ==> IsSpace(s[i])
  {
    if s != [] && IsSpace(s[0]) then TrimStart(s[1..]) else s
  }

  /** Drops trailing whitespace: the result is a prefix of s that does not end with whitespace. */
  function TrimEnd(s: string): (r: string)
    ensures |r| <= |s| && r == s[..|r|]
    ensures r == [] || !IsSpace(r[|r| - 1])
    ensures forall i :: |r| <= i < |s| ==> IsSpace(s[i])
  {
    if s != [] && IsSpace(s[|s| - 1]) then TrimEnd(s[..|s| - 1]) else s
  }

  function Trim(s: string): string {
    TrimEnd(TrimStart(s))
  }

  /** `!s.trim()` in the source: the field is empty or whitespace only. */
  predicate IsBlank(s: string) {
    Trim(s) == []
  }

  /** A string is blank exactly when every one of its characters is whitespace. */
  lemma {:induction false} BlankIffAllSpace(s: string)
    ensures IsBlank(s) <==> forall i :: 0 <= i < |s| ==> IsSpace(s[i])
  {
    var a := TrimStart(s);
    if a != [] {
      assert !IsSpace(s[|s| - |a|]);
      assert TrimEnd(a) != [] by {
        assert !IsSpace(a[0]);
      }
    }
  }

  /** Trimming leaves no whitespace at either end. */
  lemma TrimHasNoOuterSpace(s: string)
    ensures Trim(s) == [] || (!IsSpace(Trim(s)[0]) && !IsSpace(Trim(s)[|Trim(s)| - 1]))
  {
    var a := TrimStart(s);
    var b := TrimEnd(a);
    if b != [] {
      assert b[0] == a[0];
    }
  }

  // ---------------------------------------------------------------------
  // ASCII case mapping (toUpperCase / ILIKE)
  // ---------------------------------------------------------------------

  function UpperChar(c: char): char {
    if 'a' <= c <= 'z' then (c as int - 32) as char else c
  }

  function LowerChar(c: char): char {
    if 'A' <= c <= 'Z' then (c as int + 32) as char else c
  }

  function ToUpper(s: string): (r: string)
    ensures |r| == |s|
    ensures forall i :: 0 <= i < |s| ==> r[i] == UpperChar(s[i])
  {
    seq(|s|, i requires 0 <= i < |s| => UpperChar(s[i]))
  }

  /** Upper-casing twice is the same as once. */
  lemma ToUpperIdempotent(s: string)
    ensures ToUpper(ToUpper(s)) == ToUpper(s)
  {
    assert forall i :: 0 <= i < |s| ==> UpperChar(UpperChar(s[i])) == UpperChar(s[i]);
  }

  // ---------------------------------------------------------------------
  // Decimal rendering of naturals (template literals, toFixed)
  // ---------------------------------------------------------------------

  predicate IsDigit(c: char) {
    '0' <= c <= '9'
  }

  function DigitChar(d: nat): (c: char)
    requires d < 10
    ensures IsDigit(c) && c as int - '0' as int == d
  {
    ('0' as int + d) as char
  }

  /** The decimal digits of n, most significant first, without leading zeros. */
  function NatToString(n: nat): (r: string)
    ensures |r| >= 1
    ensures forall i :: 0 <= i < |r| ==> IsDigit(r[i])
    ensures r[0] == '0' <==> n == 0
    ensures |r| > 1 ==> r[0] != '0'
  {
    if n < 10 then [DigitChar(n)] else NatToString(n / 10) + [DigitChar(n % 10)]
  }

  /** The value of a string of decimal digits. */
  function DecimalValue(s: string): int
    requires forall i :: 0 <= i < |s| ==> IsDigit(s[i])
  {
    if s == [] then 0 else 10 * DecimalValue(s[..|s| - 1]) + (s[|s| - 1] as int - '0' as int)
  }

  /** Reading back the digits written by NatToString gives the number. */
  lemma {:induction false} NatToStringRoundTrip(n: nat)
    ensures DecimalValue(NatToString(n)) == n
  {
    if n >= 10 {
      var r := NatToString(n);
      assert r[..|r| - 1] == NatToString(n / 10);
      NatToStringRoundTrip(n / 10);
    }
  }

  // ---------------------------------------------------------------------
  // String.prototype.indexOf
  // ---------------------------------------------------------------------

  /** `pat` occurs in `s` starting at position `j`. */
  predicate OccursAt(s: string, pat: string, j: int) {
    0 <= j && j + |pat| <= |s| && s[j..j + |pat|] == pat
  }

  /** An occurrence in `s[1..]` is an occurrence in `s` one position further on. */
  lemma OccursShifted(s: string, pat: string)
    requires s != []
    ensures forall j :: 1 <= j ==> (OccursAt(s, pat, j) <==> OccursAt(s[1..], pat, j - 1))
  {
    forall j | 1 <= j
      ensures OccursAt(s, pat, j) <==> OccursAt(s[1..], pat, j - 1)
    {
      if j + |pat| <= |s| {
        assert forall k :: j <= k < j + |pat| ==> s[1..][k - 1] == s[k];
        assert s[j..j + |pat|] == s[1..][j - 1..j - 1 + |pat|];
      }
    }
  }

  /** The first position at which `pat` occurs in `s`, or -1 when it occurs nowhere. */
  function IndexOf(s: string, pat: string): (r: int)
    ensures r == -1 || OccursAt(s, pat, r)
    ensures forall j :: 0 <= j < r ==> !OccursAt(s, pat, j)
    ensures r == -1 <==> forall j :: !OccursAt(s, pat, j)
    decreases |s|
  {
    if |s| < |pat| then -1
    else if s[..|pat|] == pat then
      assert s[0..|pat|] == s[..|pat|];
      0
    else
      var k := IndexOf(s[1..], pat);
      assert s[0..|pat|] == s[..|pat|];
      OccursShifted(s, pat);
      if k == -1 then -1 else k + 1
  }

  // ---------------------------------------------------------------------
  // Substring search with SQL ILIKE semantics
  // ---------------------------------------------------------------------

  /** One pattern character against one text character: `_` matches anything, otherwise ASCII case-insensitive. */
  predicate CharLike(c: char, p: char) {
    p == '_' || LowerChar(c) == LowerChar(p)
  }

  /** `s` starts with something the pattern matches. */
  predicate LikePrefix(s: string, pat: string)
    decreases |pat|
  {
    pat == [] || (s != [] && CharLike(s[0], pat[0]) && LikePrefix(s[1..], pat[1..]))
  }

  /** `s ILIKE '%' || pat || '%'`, for a pattern without `%`. */
  predicate ILikeContains(s: string, pat: string)
    decreases |s|
  {
    LikePrefix(s, pat) || (s != [] && ILikeContains(s[1..], pat))
  }

  lemma {:induction false} LikePrefixSelf(p: string, rest: string)
    ensures LikePrefix(p + rest, p)
  {
    if p != [] {
      assert (p + rest)[1..] == p[1..] + rest;
      LikePrefixSelf(p[1..], rest);
    }
  }

  /** A text that holds the pattern verbatim is found by the search, wherever the pattern stands. */
  lemma {:induction false} ILikeContainsInfix(before: string, p: string, after: string)
    ensures ILikeContains(before + p + after, p)
  {
    if before == [] {
      assert before + p + after == p + after;
      LikePrefixSelf(p, after);
    } else {
      assert (before + p + after)[1..] == before[1..] + p + after;
      ILikeContainsInfix(before[1..], p, after);
    }
  }
  /** How a prefix match splits over a concatenation: a pattern no longer than the first part
      is matched by that part alone; a longer one must go on to match the second part with what
      the first part leaves of it. */
  lemma {:induction false} LikePrefixSplit(a: string, b: string, pat: string)
    ensures |pat| <= |a| ==> (LikePrefix(a + b, pat) <==> LikePrefix(a, pat))
    ensures |a| < |pat| && LikePrefix(a + b, pat) ==> LikePrefix(b, pat[|a|..])
    decreases |a|
  {
    if a == [] {
      assert a + b == b && pat[|a|..] == pat;
    } else if pat != [] {
      assert (a + b)[1..] == a[1..] + b;
      if |a| < |pat| {
        assert pat[1..][|a| - 1..] == pat[|a|..];
      }
      LikePrefixSplit(a[1..], b, pat[1..]);
    }
  }

  /** A match in a text is still a match once more text follows it. */
  lemma {:induction false} ILikeContainsExtend(a: string, b: string, pat: string)
    ensures ILikeContains(a, pat) ==> ILikeContains(a + b, pat)
    decreases |a|
  {
    if |a| < |pat| {
      ShortTextNoPrefix(a, pat);
    }
    LikePrefixSplit(a, b, pat);
    if a != [] {
      assert (a + b)[1..] == a[1..] + b;
      ILikeContainsExtend(a[1..], b, pat);
    }
  }

  /** Two texts that hold no match, where no tail of the pattern matches at the start of the
      second, hold none once joined. */
  lemma {:induction false} NoStraddle(a: string, b: string, pat: string)
    requires !ILikeContains(a, pat) && !ILikeContains(b, pat)
    requires forall m :: 0 < m < |pat| ==> !LikePrefix(b, pat[m..])
    ensures !ILikeContains(a + b, pat)
    decreases |a|
  {
    if a == [] {
      assert a + b == b;
    } else {
      LikePrefixSplit(a, b, pat);
      assert (a + b)[1..] == a[1..] + b;
      NoStraddle(a[1..], b, pat);
    }
  }

  /** A pattern longer than the text matches no prefix of it. */
  lemma {:induction false} ShortTextNoPrefix(s: string, pat: string)
    requires |s| < |pat|
    ensures !LikePrefix(s, pat)
  {
    if s != [] {
      ShortTextNoPrefix(s[1..], pat[1..]);
    }
  }

  /** No character of `s` lower-cases to `c`. */
  predicate FreeOf(s: string, c: char) {
    forall i :: 0 <= i < |s| ==> LowerChar(s[i]) != c
  }

  /** A concatenation is free of a character exactly when both parts are. */
  lemma FreeOfConcat(a: string, b: string, c: char)
    ensures FreeOf(a + b, c) <==> FreeOf(a, c) && FreeOf(b, c)
  {
    if FreeOf(a, c) && FreeOf(b, c) {
      forall i | 0 <= i < |a + b|
        ensures LowerChar((a + b)[i]) != c
      {
        if i >= |a| {
          assert (a + b)[i] == b[i - |a|];
        }
      }
    }
    if FreeOf(a + b, c) {
      forall i | 0 <= i < |a|
        ensures LowerChar(a[i]) != c
      {
        assert (a + b)[i] == a[i];
      }
      forall i | 0 <= i < |b|
        ensures LowerChar(b[i]) != c
      {
        assert (a + b)[|a| + i] == b[i];
      }
    }
  }

  /** The search fails when every text position holding the pattern's first character leaves
      fewer characters than the pattern has. */
  lemma {:induction false} NoRoomNoMatch(s: string, pat: string)
    requires pat != [] && pat[0] != '_'
    requires forall i :: 0 <= i < |s| && LowerChar(s[i]) == LowerChar(pat[0]) ==> |s| - i < |pat|
    ensures !ILikeContains(s, pat)
  {
    if s != [] {
      if LowerChar(s[0]) == LowerChar(pat[0]) {
        ShortTextNoPrefix(s, pat);
      }
      forall i | 0 <= i < |s[1..]| && LowerChar(s[1..][i]) == LowerChar(pat[0])
        ensures |s[1..]| - i < |pat|
      {
        assert s[1..][i] == s[i + 1];
      }
      NoRoomNoMatch(s[1..], pat);
    }
  }
}
