/**
 * The JavaScript string operations the application relies on:
 * `trim`, `toLowerCase` (ASCII letters only), `includes`, `split(sep)[0]`,
 * `String(n)` for integers, `Number(s)` for digit strings and `padStart`.
 */
module Text {

  /** The code points `String.prototype.trim` removes: ECMAScript WhiteSpace and LineTerminator. */
  predicate IsSpace(c: char)
  {
    var n := c as int;
    || n == 0x09 || n == 0x0A || n == 0x0B || n == 0x0C || n == 0x0D
    || n == 0x20 || n == 0xA0 || n == 0x1680
    || (0x2000 <= n && n <= 0x200A)
    || n == 0x2028 || n == 0x2029 || n == 0x202F || n == 0x205F
    || n == 0x3000 || n == 0xFEFF
  }

  /** Every character is white space; `s.trim() === ''` and `!s.trim()` mean this. */
  predicate IsBlank(s: string)
  {
    forall i :: 0 <= i < |s| ==> IsSpace(s[i])
  }

  /** `trimStart`: the suffix left after dropping the leading white space. */
  function TrimStart(s: string): (r: string)
    ensures |r| <= |s| && r == s[|s| - |r|..]
    ensures forall i :: 0 <= i < |s| - |r| ==> IsSpace(s[i])
    ensures |r| > 0 ==> !IsSpace(r[0])
  {
    if |s| > 0 && IsSpace(s[0]) then TrimStart(s[1..]) else s
  }

  /** `trimEnd`: the prefix left after dropping the trailing white space. */
  function TrimEnd(s: string): (r: string)
    ensures |r| <= |s| && r == s[..|r|]
    ensures forall i :: |r| <= i < |s| ==> IsSpace(s[i])
    ensures |r| > 0 ==> !IsSpace(r[|r| - 1])
  {
    if |s| > 0 && IsSpace(s[|s| - 1]) then TrimEnd(s[..|s| - 1]) else s
  }

  /** `r` is `s` with `k` characters of white space cut from the front and only white space cut from the back. */
  predicate TrimmedAt(s: string, r: string, k: int)
  {
    && 0 <= k && k + |r| <= |s| && r == s[k..k + |r|]
    && (forall i :: 0 <= i < k ==> IsSpace(s[i]))
    && (forall i :: k + |r| <= i < |s| ==> IsSpace(s[i]))
  }

  /** `trim`: white space removed from both ends, the middle untouched. */
  function Trim(s: string): (r: string)
    ensures |r| > 0 ==> !IsSpace(r[0]) && !IsSpace(r[|r| - 1])
    ensures r == [] <==> IsBlank(s)
    ensures Includes(s, r)
  {
    TrimSlice(s);
    TrimEnd(TrimStart(s))
  }

  lemma TrimSlice(s: string)
    ensures Includes(s, TrimEnd(TrimStart(s)))
    ensures TrimEnd(TrimStart(s)) == [] ==> IsBlank(s)
  {
    var t := TrimStart(s);
    var r := TrimEnd(t);
    var k := |s| - |t|;
    assert OccursAt(s, r, k) by {
      assert s[k..] == t;
      assert t[..|r|] == r;
      assert s[k..k + |r|] == t[..|r|];
    }
    if r == [] {
      TrimToEmpty(t);
    }
  }

  /** `trim` removes nothing but white space: the result is a slice of `s` with only white space around it. */
  lemma TrimRemovesOnlySpace(s: string)
    ensures exists k :: TrimmedAt(s, Trim(s), k)
  {
    var t := TrimStart(s);
    var r := TrimEnd(t);
    assert Trim(s) == r;
    CutsBlankEnds(s, t, r);
  }

  /** Cutting white space from the front of `s` and then from the back of the rest. */
  lemma CutsBlankEnds(s: string, t: string, r: string)
    requires |t| <= |s| && t == s[|s| - |t|..]
    requires forall i :: 0 <= i < |s| - |t| ==> IsSpace(s[i])
    requires |r| <= |t| && r == t[..|r|]
    requires forall i :: |r| <= i < |t| ==> IsSpace(t[i])
    ensures TrimmedAt(s, r, |s| - |t|)
  {
    var k := |s| - |t|;
    assert r == s[k..k + |r|];
    forall i | k + |r| <= i < |s|
      ensures IsSpace(s[i])
    {
      assert s[i] == t[i - k];
    }
  }

  lemma TrimToEmpty(t: string)
    requires |t| > 0 ==> !IsSpace(t[0])
    requires TrimEnd(t) == []
    ensures t == []
  {
  }

  /** A string without white space at either end is its own trim. */
  lemma TrimOfTrimmed(s: string)
    requires |s| > 0 ==> !IsSpace(s[0]) && !IsSpace(s[|s| - 1])
    ensures Trim(s) == s
  {
  }

  /** One space on each side of a trimmed word is removed by `trim`. */
  lemma TrimPadded(s: string, t: string)
    requires s == [' '] + t + [' ']
    requires |t| > 0 && !IsSpace(t[0]) && !IsSpace(t[|t| - 1])
    ensures Trim(s) == t
  {
    assert s[1..] == t + [' '];
    assert TrimStart(s) == t + [' '];
    assert (t + [' '])[..|t|] == t;
    assert TrimEnd(t + [' ']) == t;
  }

  /** Trimming twice is trimming once. */
  lemma TrimIdempotent(s: string)
    ensures Trim(Trim(s)) == Trim(s)
  {
    TrimOfTrimmed(Trim(s));
  }

  /** ASCII `toLowerCase` of one character. */
  function LowerChar(c: char): (r: char)
    ensures 'A' <= c <= 'Z' ==> 'a' <= r <= 'z' && r as int - c as int == 32
    ensures !('A' <= c <= 'Z') ==> r == c
  {
    if 'A' <= c <= 'Z' then (c as int + 32) as char else c
  }

  /** `toLowerCase` with ASCII letters as the only cased characters. */
  function Lower(s: string): (r: string)
    ensures |r| == |s|
    ensures forall i :: 0 <= i < |s| ==> r[i] == LowerChar(s[i])
  {
    seq(|s|, i requires 0 <= i < |s| => LowerChar(s[i]))
  }

  /** Lowering a lowered string changes nothing, and it never creates or removes white space. */
  lemma LowerIdempotent(s: string)
    ensures Lower(Lower(s)) == Lower(s)
    ensures forall i :: 0 <= i < |s| ==> (IsSpace(Lower(s)[i]) <==> IsSpace(s[i]))
  {
  }

  /** `sub` occurs in `s` starting at position `i`. */
  predicate OccursAt(s: string, sub: string, i: int)
  {
    0 <= i && i + |sub| <= |s| && s[i..i + |sub|] == sub
  }

  /** `s.includes(sub)`: `sub` occurs at some position of `s`. */
  predicate Includes(s: string, sub: string): (b: bool)
    ensures b ==> |sub| <= |s|
    ensures sub <= s ==> b
  {
    assert sub <= s ==> OccursAt(s, sub, 0);
    exists i | 0 <= i <= |s| - |sub| :: OccursAt(s, sub, i)
  }

  /** Every string includes the empty string. */
  lemma IncludesEmpty(s: string)
    ensures Includes(s, [])
  {
    assert OccursAt(s, [], 0);
  }

  /** An occurrence of `sub` begins with the first two characters of `sub`. */
  lemma OccursAtHead(s: string, sub: string, i: int)
    requires |sub| >= 2 && OccursAt(s, sub, i)
    ensures i < |s| - 1 && s[i] == sub[0] && s[i + 1] == sub[1]
  {
    assert s[i..i + |sub|][0] == s[i];
    assert s[i..i + |sub|][1] == s[i + 1];
  }

  /** A string in which the first two characters of `sub` never stand side by side does not include `sub`. */
  lemma NotIncludedByPair(s: string, sub: string)
    requires |sub| >= 2
    requires forall i :: 0 <= i < |s| - 1 ==> !(s[i] == sub[0] && s[i + 1] == sub[1])
    ensures !Includes(s, sub)
  {
    forall i | 0 <= i <= |s| - |sub|
      ensures !OccursAt(s, sub, i)
    {
      if OccursAt(s, sub, i) {
        OccursAtHead(s, sub, i);
      }
    }
  }

  /** A string lacking one of the characters of `sub` does not include `sub`. */
  lemma NotIncludedByChar(s: string, sub: string, j: nat)
    requires j < |sub| && sub[j] !in s
    ensures !Includes(s, sub)
  {
    forall i | 0 <= i <= |s| - |sub|
      ensures !OccursAt(s, sub, i)
    {
      assert s[i..i + |sub|][j] == s[i + j];
    }
  }

  /** `Lower(s)` is `t` when `t` is `s` lowered character by character. */
  lemma LowerPointwise(s: string, t: string)
    requires |s| == |t|
    requires forall i :: 0 <= i < |s| ==> LowerChar(s[i]) == t[i]
    ensures Lower(s) == t
  {
  }

  /** `s.split(sep)[0]`: the text before the first `sep`, or all of `s` when there is none. */
  function BeforeFirst(s: string, sep: char): (r: string)
    ensures r <= s
    ensures sep !in r
    ensures |r| < |s| ==> s[|r|] == sep
  {
    if |s| == 0 || s[0] == sep then [] else [s[0]] + BeforeFirst(s[1..], sep)
  }

  predicate IsDigit(c: char)
  {
    '0' <= c <= '9'
  }

  predicate IsDigits(s: string)
  {
    forall i :: 0 <= i < |s| ==> IsDigit(s[i])
  }

  function DigitChar(d: nat): (c: char)
    requires d < 10
    ensures IsDigit(c) && c as int - '0' as int == d
  {
    ('0' as int + d) as char
  }

  function DigitValue(c: char): (d: nat)
    requires IsDigit(c)
    ensures d < 10 && DigitChar(d) == c
  {
    c as int - '0' as int
  }

  function Pow10(k: nat): (r: nat)
    ensures r >= 1
  {
    if k == 0 then 1 else 10 * Pow10(k - 1)
  }

  /** `String(n)` for a non-negative integer: its decimal digits, most significant first. */
  function NatToString(n: nat): (r: string)
    ensures |r| >= 1 && IsDigits(r)
    ensures |r| > 1 ==> r[0] != '0'
  {
    if n < 10 then [DigitChar(n)] else NatToString(n / 10) + [DigitChar(n % 10)]
  }

  /** `String(n)` for any integer, with a leading '-' when negative. */
  function IntToString(n: int): (r: string)
    ensures n >= 0 ==> r == NatToString(n)
    ensures n < 0 ==> r == "-" + NatToString(-n)
  {
    if n < 0 then "-" + NatToString(-n) else NatToString(n)
  }

  /** `Number(s)` for a string of decimal digits; the empty string reads as 0. */
  function ParseDigits(s: string): (n: nat)
    requires IsDigits(s)
    ensures n < Pow10(|s|)
  {
    if |s| == 0 then 0 else ParseDigits(s[..|s| - 1]) * 10 + DigitValue(s[|s| - 1])
  }

  /** Reading back what `String(n)` wrote gives `n`. */
  lemma {:induction false} ParseNatToString(n: nat)
    ensures ParseDigits(NatToString(n)) == n
  {
    if n >= 10 {
      ParseNatToString(n / 10);
      var r := NatToString(n);
      assert r[..|r| - 1] == NatToString(n / 10);
    }
  }

  /** `String(n)` has at most `k` digits exactly when `n < 10^k`. */
  lemma {:induction false} NatToStringLength(n: nat, k: nat)
    requires k >= 1
    ensures |NatToString(n)| <= k <==> n < Pow10(k)
  {
    if n >= 10 {
      if k == 1 {
        assert Pow10(1) == 10;
      } else {
        NatToStringLength(n / 10, k - 1);
        assert n / 10 < Pow10(k - 1) <==> n < Pow10(k);
      }
    } else {
      assert Pow10(k) >= 10 by { Pow10Grows(k); }
    }
  }

  lemma {:induction false} Pow10Grows(k: nat)
    requires k >= 1
    ensures Pow10(k) >= 10
  {
    if k > 1 {
      Pow10Grows(k - 1);
    }
  }

  /** Leading zeros do not change the value of a digit string. */
  lemma {:induction false} ParseLeadingZero(s: string)
    requires IsDigits(s)
    ensures ParseDigits("0" + s) == ParseDigits(s)
    decreases |s|
  {
    if |s| > 0 {
      var t := "0" + s;
      assert t[..|t| - 1] == "0" + s[..|s| - 1];
      ParseLeadingZero(s[..|s| - 1]);
    }
  }

  /** `n` copies of `c`. */
  function Repeat(c: char, n: nat): (r: string)
    ensures |r| == n
    ensures forall i :: 0 <= i < n ==> r[i] == c
  {
    if n == 0 then [] else [c] + Repeat(c, n - 1)
  }

  /** `s.padStart(len, fill)` with a one-character fill. */
  function PadStart(s: string, len: nat, fill: char): (r: string)
    ensures |r| == if |s| >= len then |s| else len
    ensures r[|r| - |s|..] == s
    ensures forall i :: 0 <= i < |r| - |s| ==> r[i] == fill
  {
    if |s| >= len then s else Repeat(fill, len - |s|) + s
  }

  /** `String(n).padStart(2, '0')`: two digits for 0..99 that read back as `n`; larger values unpadded. */
  function TwoDigits(n: nat): (r: string)
    ensures IsDigits(r)
    ensures n < 100 ==> |r| == 2 && ParseDigits(r) == n
    ensures n < 10 ==> r[0] == '0'
    ensures n >= 10 ==> r == NatToString(n)
  {
    TwoDigitsFacts(n);
    PadStart(NatToString(n), 2, '0')
  }

  lemma TwoDigitsFacts(n: nat)
    ensures n < 100 ==> |NatToString(n)| <= 2
    ensures n >= 10 ==> |NatToString(n)| >= 2
    ensures n < 100 ==> ParseDigits(PadStart(NatToString(n), 2, '0')) == n
  {
    var d := NatToString(n);
    NatToStringLength(n, 1);
    NatToStringLength(n, 2);
    assert Pow10(2) == 100;
    ParseNatToString(n);
    if n < 10 {
      assert PadStart(d, 2, '0') == "0" + d;
      ParseLeadingZero(d);
    }
  }
}
