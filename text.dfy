// String helpers the wrappers use to build column names.

module Text {

  /** The character of one decimal digit. */
  function Digit(d: nat): (c: char)
    requires d < 10
  {
    ['0', '1', '2', '3', '4', '5', '6', '7', '8', '9'][d]
  }

  lemma DigitInjective(a: nat, b: nat)
    requires a < 10 && b < 10 && Digit(a) == Digit(b)
    ensures a == b
  {
  }

  /** `std::to_string` of an unsigned value: its decimal digits, most significant first. */
  function NatString(n: nat): (r: string)
    ensures 0 < |r|
    ensures n < 10 <==> |r| == 1
    decreases n
  {
    if n < 10 then [Digit(n)] else NatString(n / 10) + [Digit(n % 10)]
  }

  /** Different numbers print differently, so numbered names do not collide. */
  lemma {:induction false} NatStringInjective(a: nat, b: nat)
    requires NatString(a) == NatString(b)
    ensures a == b
    decreases a
  {
    if a < 10 {
      DigitInjective(a, b);
    } else {
      var sa, sb := NatString(a), NatString(b);
      assert sa[|sa| - 1] == Digit(a % 10) && sb[|sb| - 1] == Digit(b % 10);
      DigitInjective(a % 10, b % 10);
      assert sa[..|sa| - 1] == NatString(a / 10);
      assert sb[..|sb| - 1] == NatString(b / 10);
      NatStringInjective(a / 10, b / 10);
    }
  }

  /** A printed number starts with a digit. */
  lemma {:induction false} NatStringHead(n: nat)
    ensures NatString(n)[0] != '-'
    decreases n
  {
    if n >= 10 {
      NatStringHead(n / 10);
      assert NatString(n)[0] == NatString(n / 10)[0];
    }
  }

  /** `std::to_string` of a signed value: a minus sign before the digits of a negative one. */
  function IntString(i: int): (r: string)
    ensures 0 < |r|
    ensures r[0] == '-' <==> i < 0
  {
    NatStringHead(if i < 0 then -i else i);
    if i < 0 then "-" + NatString(-i) else NatString(i)
  }

  lemma IntStringInjective(a: int, b: int)
    requires IntString(a) == IntString(b)
    ensures a == b
  {
    if a < 0 {
      SameHeadTail("-", "-", NatString(-a), NatString(-b));
      NatStringInjective(-a, -b);
    } else {
      NatStringInjective(a, b);
    }
  }

  /** Equal prefixes of the same length and equal wholes give equal tails. */
  lemma SameHeadTail(x: string, y: string, a: string, b: string)
    requires x + a == y + b && |x| == |y|
    ensures a == b
  {
    assert a == (x + a)[|x|..];
    assert b == (y + b)[|y|..];
  }

  /** `prefix + name` for each name, in order. */
  function Prefixed(prefix: string, names: seq<string>): (r: seq<string>)
    ensures |r| == |names|
    ensures forall i :: 0 <= i < |names| ==> r[i] == prefix + names[i]
  {
    seq(|names|, i requires 0 <= i < |names| => prefix + names[i])
  }
}
