/**
 * The string operations of Go's standard library that the model relies on:
 * strings.TrimSpace, strings.Trim with a cut set, and strconv.Itoa.
 * Strings are sequences of Unicode code points.
 */
module Strings {

  /** The character sets the model trims: Go's white space, and the two quote characters. */
  datatype Cut = Spaces | Quotes

  /**
   * c is in the cut set: for Spaces, c is one of the characters Go's
   * unicode.IsSpace accepts (which strings.TrimSpace removes); for Quotes, it
   * is '"' or '\''.
   */
  predicate InCut(c: char, cut: Cut)
  {
    match cut
    case Spaces =>
      var n := c as int;
      || 0x09 <= n <= 0x0D || n == 0x20 || n == 0x85 || n == 0xA0 || n == 0x1680
      || 0x2000 <= n <= 0x200A || n == 0x2028 || n == 0x2029 || n == 0x202F || n == 0x205F || n == 0x3000
    case Quotes => c == '"' || c == '\''
  }

  /** Drops the longest prefix of s made of characters in cut. */
  function TrimLeft(s: string, cut: Cut): (r: string)
    ensures |r| <= |s|
    ensures r == [] || !InCut(r[0], cut)
  {
    if s != [] && InCut(s[0], cut) then TrimLeft(s[1..], cut) else s
  }

  /** Drops the longest suffix of s made of characters in cut. */
  function TrimRight(s: string, cut: Cut): (r: string)
    ensures |r| <= |s|
    ensures r == [] || !InCut(r[|r| - 1], cut)
  {
    if s != [] && InCut(s[|s| - 1], cut) then TrimRight(s[..|s| - 1], cut) else s
  }

  /** TrimLeft leaves a suffix of s, having dropped only characters in cut. */
  lemma {:induction false} TrimLeftIsSuffix(s: string, cut: Cut)
    ensures TrimLeft(s, cut) == s[|s| - |TrimLeft(s, cut)|..]
    ensures forall i | 0 <= i < |s| - |TrimLeft(s, cut)| :: InCut(s[i], cut)
  {
    if s != [] && InCut(s[0], cut) {
      TrimLeftIsSuffix(s[1..], cut);
    }
  }

  /** TrimRight leaves a prefix of s, having dropped only characters in cut. */
  lemma {:induction false} TrimRightIsPrefix(s: string, cut: Cut)
    ensures TrimRight(s, cut) == s[..|TrimRight(s, cut)|]
    ensures forall i | |TrimRight(s, cut)| <= i < |s| :: InCut(s[i], cut)
  {
    if s != [] && InCut(s[|s| - 1], cut) {
      TrimRightIsPrefix(s[..|s| - 1], cut);
    }
  }

  /** strings.Trim: both ends of s stripped of characters in cut. */
  function Trim(s: string, cut: Cut): (r: string)
    ensures |r| <= |s|
    ensures r == [] || (!InCut(r[0], cut) && !InCut(r[|r| - 1], cut))
  {
    var l := TrimLeft(s, cut);
    TrimRightIsPrefix(l, cut);
    TrimRight(l, cut)
  }

  /** A Trim that removes nothing returns s itself. */
  lemma TrimSameLength(s: string, cut: Cut)
    requires |Trim(s, cut)| == |s|
    ensures Trim(s, cut) == s
  {
    var l := TrimLeft(s, cut);
    TrimLeftIsSuffix(s, cut);
    TrimRightIsPrefix(l, cut);
  }

  /** strings.TrimSpace: both ends of s stripped of white space. */
  function TrimSpace(s: string): (r: string)
    ensures |r| <= |s|
    ensures r == [] || (!InCut(r[0], Spaces) && !InCut(r[|r| - 1], Spaces))
  {
    Trim(s, Spaces)
  }

  /** Trim keeps characters of s only. */
  lemma TrimDrawsFrom(s: string, cut: Cut, c: char)
    requires c in Trim(s, cut)
    ensures c in s
  {
    var l := TrimLeft(s, cut);
    var r := TrimRight(l, cut);
    TrimLeftIsSuffix(s, cut);
    TrimRightIsPrefix(l, cut);
    var j :| 0 <= j < |r| && r[j] == c;
    assert l[j] == c;
    assert s[|s| - |l| + j] == c;
  }

  /** A string whose ends are not in cut is left as it is by Trim. */
  lemma TrimKeeps(s: string, cut: Cut)
    requires s == [] || (!InCut(s[0], cut) && !InCut(s[|s| - 1], cut))
    ensures Trim(s, cut) == s
  {
  }

  /** Trimming is idempotent. */
  lemma TrimTwice(s: string, cut: Cut)
    ensures Trim(Trim(s, cut), cut) == Trim(s, cut)
  {
    TrimKeeps(Trim(s, cut), cut);
  }

  /** Leading characters of s + t are trimmed into t only once s is used up. */
  lemma {:induction false} TrimLeftConcat(s: string, t: string, cut: Cut)
    ensures TrimLeft(s + t, cut) == if TrimLeft(s, cut) == [] then TrimLeft(t, cut) else TrimLeft(s, cut) + t
  {
    if s != [] {
      assert (s + t)[0] == s[0] && (s + t)[1..] == s[1..] + t;
      if InCut(s[0], cut) {
        TrimLeftConcat(s[1..], t, cut);
      }
    } else {
      assert s + t == t;
    }
  }

  /** Trim ignores one cut character wrapped around both ends, as in a quoted value. */
  lemma TrimWrapped(c: char, s: string, cut: Cut)
    requires InCut(c, cut)
    ensures Trim([c] + s + [c], cut) == Trim(s, cut)
  {
    assert ([c] + s + [c])[1..] == s + [c];
    assert TrimLeft([c] + s + [c], cut) == TrimLeft(s + [c], cut);
    TrimLeftConcat(s, [c], cut);
    var l := TrimLeft(s, cut);
    if l == [] {
      assert TrimLeft([c], cut) == TrimLeft([c][1..], cut) == [];
    } else {
      assert (l + [c])[..|l + [c]| - 1] == l;
    }
  }

  /** The decimal digit for d. */
  function Digit(d: nat): char
    requires d < 10
  {
    "0123456789"[d]
  }

  /** The value of a decimal digit character. */
  function DigitValue(c: char): nat
  {
    if '0' <= c <= '9' then (c - '0') as nat else 0
  }

  /** strconv.Itoa on a non-negative number: its decimal numeral. */
  function DecimalString(n: nat): (r: string)
    ensures r != [] && forall i | 0 <= i < |r| :: '0' <= r[i] <= '9'
    ensures r[0] != '0' || r == "0"
  {
    if n < 10 then [Digit(n)] else DecimalString(n / 10) + [Digit(n % 10)]
  }

  /** The number a decimal numeral denotes. */
  function DecimalValue(s: string): nat
  {
    if s == [] then 0 else 10 * DecimalValue(s[..|s| - 1]) + DigitValue(s[|s| - 1])
  }

  /** Reading back the numeral Itoa writes gives the number again. */
  lemma {:induction false} DecimalRoundTrip(n: nat)
    ensures DecimalValue(DecimalString(n)) == n
  {
    var s := DecimalString(n);
    if n >= 10 {
      DecimalRoundTrip(n / 10);
      assert s[..|s| - 1] == DecimalString(n / 10);
    }
  }
}
