// replaceRawKeywordID: `std::regex_replace(s, "(RAW\s+)(\d+)", "RAW 1")` over
// a `char` string with the classic locale, so `\s` is one of space, \t, \n,
// \v, \f, \r and `\d` one of 0-9. The scan is leftmost and greedy and resumes
// after each match, which the recursion below follows position by position.

module RawKeyword {
  predicate IsSpace(c: char)
  {
    c == ' ' || ('\t' <= c <= '\r')
  }

  predicate IsDigit(c: char)
  {
    '0' <= c <= '9'
  }

  /** Length of the leading run of whitespace. */
  function Spaces(s: string): (n: nat)
    ensures n <= |s|
    ensures forall i :: 0 <= i < n ==> IsSpace(s[i])
    ensures n < |s| ==> !IsSpace(s[n])
  {
    if s != [] && IsSpace(s[0]) then 1 + Spaces(s[1..]) else 0
  }

  /** Length of the leading run of digits. */
  function Digits(s: string): (n: nat)
    ensures n <= |s|
    ensures forall i :: 0 <= i < n ==> IsDigit(s[i])
    ensures n < |s| ==> !IsDigit(s[n])
  {
    if s != [] && IsDigit(s[0]) then 1 + Digits(s[1..]) else 0
  }

  /** s starts with the letters RAW. */
  predicate StartsRaw(s: string)
  {
    |s| >= 3 && s[0] == 'R' && s[1] == 'A' && s[2] == 'W'
  }

  /** Length of the match of `RAW\s+\d+` at the start of s, or 0 when there is none. */
  function MatchLen(s: string): (n: nat)
    ensures n <= |s|
    ensures n > 0 ==> n > 3 && StartsRaw(s)
  {
    if StartsRaw(s) && Spaces(s[3..]) > 0 && Digits(s[3 + Spaces(s[3..])..]) > 0 then
      3 + Spaces(s[3..]) + Digits(s[3 + Spaces(s[3..])..])
    else 0
  }

  /** The rewritten dump string. */
  function ReplaceRaw(s: string): (r: string)
    ensures r == [] <==> s == []
    decreases |s|
  {
    if s == [] then []
    else if MatchLen(s) > 0 then "RAW 1" + ReplaceRaw(s[MatchLen(s)..])
    else [s[0]] + ReplaceRaw(s[1..])
  }

  /** No match starts anywhere in s. */
  predicate NoMatch(s: string)
  {
    forall i :: 0 <= i < |s| ==> MatchLen(s[i..]) == 0
  }

  /** A string without a match is left as it is. */
  lemma {:induction false} ReplaceRawNoMatch(s: string)
    requires NoMatch(s)
    ensures ReplaceRaw(s) == s
  {
    if s != [] {
      assert s[0..] == s;
      assert NoMatch(s[1..]) by {
        forall i | 0 <= i < |s[1..]|
          ensures MatchLen(s[1..][i..]) == 0
        {
          assert s[1..][i..] == s[i + 1..];
        }
      }
      ReplaceRawNoMatch(s[1..]);
    }
  }

  /** What follows a match does not start with a digit, and neither does its rewrite. */
  lemma AfterMatch(s: string)
    requires MatchLen(s) > 0
    ensures var t := ReplaceRaw(s[MatchLen(s)..]); t == [] || !IsDigit(t[0])
  {
    var rest := s[MatchLen(s)..];
    var w := Spaces(s[3..]);
    var d := Digits(s[3 + w..]);
    if rest != [] {
      assert rest[0] == s[3 + w..][d];
      if MatchLen(rest) == 0 {
        assert ReplaceRaw(rest)[0] == rest[0];
      } else {
        assert ReplaceRaw(rest)[0] == 'R';
      }
    }
  }

  /** If the rewrite of t starts with a character other than 'R', t starts with it too and did not match there. */
  lemma NotRHead(t: string)
    requires ReplaceRaw(t) != [] && ReplaceRaw(t)[0] != 'R'
    ensures t != [] && MatchLen(t) == 0 && t[0] == ReplaceRaw(t)[0]
    ensures ReplaceRaw(t) == [t[0]] + ReplaceRaw(t[1..])
  {
  }

  /** A rewrite whose first k characters are not 'R' copies them from t. */
  lemma {:induction false} CopiedRun(t: string, k: nat)
    requires k <= |ReplaceRaw(t)|
    requires forall i :: 0 <= i < k ==> ReplaceRaw(t)[i] != 'R'
    ensures k <= |t| && forall i :: 0 <= i < k ==> t[i] == ReplaceRaw(t)[i]
  {
    if k > 0 {
      NotRHead(t);
      var r := ReplaceRaw(t);
      var r1 := ReplaceRaw(t[1..]);
      assert forall i :: 0 <= i < k - 1 ==> r1[i] == r[i + 1];
      CopiedRun(t[1..], k - 1);
      assert forall i :: 1 <= i < k ==> t[i] == t[1..][i - 1];
    }
  }

  /** The spaces and digits of a match in a rewrite were spaces and digits in the original. */
  lemma SpacesDigitsBack(u: string)
    requires Spaces(ReplaceRaw(u)) > 0
    requires Digits(ReplaceRaw(u)[Spaces(ReplaceRaw(u))..]) > 0
    ensures Spaces(u) > 0 && Digits(u[Spaces(u)..]) > 0
  {
    var r := ReplaceRaw(u);
    var w := Spaces(r);
    assert IsDigit(r[w]) by {
      assert r[w..][0] == r[w];
    }
    CopiedRun(u, w + 1);
    SpacesExact(u, w);
    assert u[w..][0] == u[w];
  }

  lemma {:induction false} SpacesExact(s: string, w: nat)
    requires w < |s|
    requires forall i :: 0 <= i < w ==> IsSpace(s[i])
    requires !IsSpace(s[w])
    ensures Spaces(s) == w
  {
    if w > 0 {
      SpacesExact(s[1..], w - 1);
    }
  }

  /** A character kept in front of a rewrite never completes a match that the original did not have. */
  lemma HeadNoMatch(s: string)
    requires s != [] && MatchLen(s) == 0
    ensures MatchLen([s[0]] + ReplaceRaw(s[1..])) == 0
  {
    var out := [s[0]] + ReplaceRaw(s[1..]);
    if MatchLen(out) > 0 {
      assert s[0] == 'R';
      var t1 := ReplaceRaw(s[1..]);
      assert t1[0] == 'A';
      NotRHead(s[1..]);
      assert s[1] == 'A';
      var t2 := ReplaceRaw(s[2..]);
      assert s[1..][1..] == s[2..];
      assert t1 == [s[1]] + t2;
      assert t2[0] == 'W';
      NotRHead(s[2..]);
      assert s[2] == 'W';
      assert s[2..][1..] == s[3..];
      var u := s[3..];
      assert out[3..] == ReplaceRaw(u);
      SpacesDigitsBack(u);
      assert false;
    }
  }

  /** Rewriting twice gives the same text as rewriting once. */
  lemma {:induction false} ReplaceRawIdempotent(s: string)
    ensures ReplaceRaw(ReplaceRaw(s)) == ReplaceRaw(s)
    decreases |s|
  {
    if s != [] {
      if MatchLen(s) > 0 {
        var rest := s[MatchLen(s)..];
        var t := ReplaceRaw(rest);
        AfterMatch(s);
        var out := "RAW 1" + t;
        assert MatchLen(out) == 5 by {
          assert StartsRaw(out);
          assert out[3..] == " 1" + t;
          assert Spaces(out[3..]) == 1;
          assert out[4..] == "1" + t;
          assert Digits(out[4..]) == 1;
        }
        assert out[5..] == t;
        ReplaceRawIdempotent(rest);
      } else {
        HeadNoMatch(s);
        var out := [s[0]] + ReplaceRaw(s[1..]);
        assert out[1..] == ReplaceRaw(s[1..]);
        ReplaceRawIdempotent(s[1..]);
      }
    }
  }
}
