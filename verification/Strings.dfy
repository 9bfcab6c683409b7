/** The Python string operations the model needs: decimal rendering, `lower`, `in` and `strip`. */
module Strings {

  function Digit(d: nat): char
    requires d < 10
  {
    ('0' as int + d) as char
  }

  /** `str(n)` for a non-negative integer. */
  function Decimal(n: nat): string {
    if n < 10 then [Digit(n)] else Decimal(n / 10) + [Digit(n % 10)]
  }

  /** Reads a run of decimal digits back. */
  function ReadDecimal(s: string): int {
    if |s| == 0 then 0 else 10 * ReadDecimal(s[..|s| - 1]) + (s[|s| - 1] as int - '0' as int)
  }

  lemma {:induction false} DecimalRoundTrip(n: nat)
    ensures ReadDecimal(Decimal(n)) == n
    ensures forall c :: c in Decimal(n) ==> '0' <= c <= '9'
  {
    if n >= 10 {
      DecimalRoundTrip(n / 10);
      assert Decimal(n)[..|Decimal(n)| - 1] == Decimal(n / 10);
    } else {
      assert Decimal(n)[..0] == "";
    }
  }

  lemma DecimalInjective(m: nat, n: nat)
    ensures Decimal(m) == Decimal(n) ==> m == n
  {
    DecimalRoundTrip(m);
    DecimalRoundTrip(n);
  }

  /** `prefix:suffix` determines both parts when the suffixes hold no colon. */
  lemma LastColonSplits(p: string, s: string, q: string, t: string)
    requires ':' !in s && ':' !in t
    requires p + ":" + s == q + ":" + t
    ensures p == q && s == t
  {
    var w := p + ":" + s;
    assert |p| + 1 + |s| == |q| + 1 + |t|;
    assert w[|p|] == ':' && w[|q|] == ':';
    assert forall k :: |q| < k < |w| ==> w[k] == t[k - |q| - 1];
    assert forall k :: |p| < k < |w| ==> w[k] == s[k - |p| - 1];
    assert |p| == |q|;
    assert p == w[..|p|] && q == w[..|q|];
    assert s == w[|p| + 1..] && t == w[|q| + 1..];
  }

  /** What stands before the first mark is determined. */
  lemma FirstMarkSplits(mark: char, a: string, b: string, r: string, t: string)
    requires mark !in a && mark !in b && a + [mark] + r == b + [mark] + t
    ensures a == b && r == t
  {
    var w := a + [mark] + r;
    assert w[|a|] == mark && w[|b|] == mark;
    assert forall k :: 0 <= k < |a| ==> w[k] == a[k];
    assert forall k :: 0 <= k < |b| ==> w[k] == b[k];
    assert |a| == |b|;
    assert a == w[..|a|] && b == w[..|b|];
    assert r == w[|a| + 1..] && t == w[|b| + 1..];
  }

  lemma SamePrefix(p: string, a: string, b: string)
    requires p + a == p + b
    ensures a == b
  {
    assert a == (p + a)[|p|..] && b == (p + b)[|p|..];
  }

  /** `lower()` on ASCII letters; every other character is left alone. */
  function Lower(s: string): (r: string)
    ensures |r| == |s|
  {
    seq(|s|, i requires 0 <= i < |s| => if 'A' <= s[i] <= 'Z' then (s[i] as int + 32) as char else s[i])
  }

  /** `needle in s`. */
  predicate Contains(s: string, needle: string) {
    needle <= s || (|s| > 0 && Contains(s[1..], needle))
  }

  lemma {:induction false} ContainsAt(before: string, needle: string, after: string)
    ensures Contains(before + needle + after, needle)
  {
    var s := before + needle + after;
    if |before| == 0 {
      assert s == needle + after;
    } else {
      ContainsAt(before[1..], needle, after);
      assert s[1..] == before[1..] + needle + after;
    }
  }

  lemma {:induction false} ContainsSplits(s: string, needle: string) returns (before: string, after: string)
    requires Contains(s, needle)
    ensures s == before + needle + after
  {
    if needle <= s {
      before, after := "", s[|needle|..];
    } else {
      var rest: string;
      rest, after := ContainsSplits(s[1..], needle);
      before := [s[0]] + rest;
      assert s == [s[0]] + s[1..];
    }
  }

  /** Texts fold alike exactly when they agree up to the case of ASCII letters. */
  lemma LowerFolds(s: string, t: string)
    ensures Lower(s) == Lower(t) <==>
      |s| == |t| && forall i :: 0 <= i < |s| ==>
        || s[i] == t[i]
        || ('A' <= s[i] <= 'Z' && t[i] as int == s[i] as int + 32)
        || ('A' <= t[i] <= 'Z' && s[i] as int == t[i] as int + 32)
    ensures forall i :: 0 <= i < |s| ==> !('A' <= Lower(s)[i] <= 'Z')
  {
    if Lower(s) == Lower(t) {
      forall i | 0 <= i < |s|
        ensures || s[i] == t[i]
                || ('A' <= s[i] <= 'Z' && t[i] as int == s[i] as int + 32)
                || ('A' <= t[i] <= 'Z' && s[i] as int == t[i] as int + 32)
      {
        assert Lower(s)[i] == Lower(t)[i];
      }
    }
  }

  /** The characters `str.strip()` removes. */
  predicate IsSpace(c: char) {
    var n := c as int;
    || 0x09 <= n <= 0x0D || 0x1C <= n <= 0x20 || n == 0x85 || n == 0xA0 || n == 0x1680
    || 0x2000 <= n <= 0x200A || n == 0x2028 || n == 0x2029 || n == 0x202F || n == 0x205F || n == 0x3000
  }

  function Strip(s: string): string {
    StripRight(StripLeft(s))
  }

  function StripLeft(s: string): string {
    if |s| > 0 && IsSpace(s[0]) then StripLeft(s[1..]) else s
  }

  function StripRight(s: string): string {
    if |s| > 0 && IsSpace(s[|s| - 1]) then StripRight(s[..|s| - 1]) else s
  }

  ghost predicate AllSpace(s: string) { forall c :: c in s ==> IsSpace(c) }

  /** Neither the first nor the last character is a space. */
  predicate Trim(s: string) { |s| > 0 ==> !IsSpace(s[0]) && !IsSpace(s[|s| - 1]) }

  lemma {:induction false} StripsLeft(s: string) returns (before: string)
    ensures s == before + StripLeft(s) && AllSpace(before)
    ensures |StripLeft(s)| > 0 ==> !IsSpace(StripLeft(s)[0])
  {
    hide IsSpace;
    if |s| > 0 && IsSpace(s[0]) {
      var rest := StripsLeft(s[1..]);
      before := [s[0]] + rest;
    } else {
      before := "";
    }
  }

  lemma {:induction false} StripsRight(s: string) returns (after: string)
    ensures s == StripRight(s) + after && AllSpace(after)
    ensures |StripRight(s)| > 0 ==> !IsSpace(StripRight(s)[|StripRight(s)| - 1]) && StripRight(s)[0] == s[0]
  {
    hide IsSpace;
    if |s| > 0 && IsSpace(s[|s| - 1]) {
      var rest := StripsRight(s[..|s| - 1]);
      after := rest + [s[|s| - 1]];
    } else {
      after := "";
    }
  }

  /** `strip` removes nothing but space, from both ends, until none is left there. */
  lemma {:induction false} StripExact(s: string) returns (before: string, after: string)
    ensures s == before + Strip(s) + after && AllSpace(before) && AllSpace(after) && Trim(Strip(s))
  {
    hide IsSpace, StripLeft, StripRight;
    before := StripsLeft(s);
    after := StripsRight(StripLeft(s));
  }

  /** Only one text is what is left: equal texts up to outer space strip alike. */
  lemma {:induction false} StripUnique(before: string, s: string, after: string)
    requires AllSpace(before) && AllSpace(after) && Trim(s)
    ensures Strip(before + s + after) == s
  {
    hide IsSpace;
    if |before| > 0 {
      assert (before + s + after)[0] == before[0] && before[0] in before;
      assert (before + s + after)[1..] == before[1..] + s + after;
      StripUnique(before[1..], s, after);
    } else if |s| > 0 {
      assert before + s + after == s + after && (s + after)[0] == s[0];
      StripTail(s, after);
    } else {
      assert before + s + after == after;
      StripBlank(after);
    }
  }

  lemma {:induction false} StripTail(s: string, after: string)
    requires AllSpace(after) && |s| > 0 && !IsSpace(s[|s| - 1])
    ensures StripRight(s + after) == s
  {
    hide IsSpace;
    if |after| > 0 {
      var n := |after| - 1;
      assert (s + after)[..|s + after| - 1] == s + after[..n] && after[n] in after;
      StripTail(s, after[..n]);
    } else {
      assert s + after == s;
    }
  }

  lemma {:induction false} StripBlank(s: string)
    requires AllSpace(s)
    ensures Strip(s) == ""
  {
    hide IsSpace;
    if |s| > 0 {
      assert s[0] in s;
      StripBlank(s[1..]);
    }
  }
}
