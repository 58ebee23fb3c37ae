/** The parts of Go's `strings` package and byte ordering that the program relies on,
    over strings as sequences of code points. All patterns the program uses are ASCII,
    so matching code points agrees with matching the UTF-8 bytes. */
module Strings {

  predicate IsDigit(c: char) {
    '0' <= c <= '9'
  }

  /* ---------------------------------------------------------------------------
     Lexicographic order: the order in which bbolt keeps keys (bytes.Compare).
     --------------------------------------------------------------------------- */

  /** `a` sorts strictly before `b`. */
  predicate Less(a: string, b: string)
    decreases |a|
  {
    |b| > 0 && (|a| == 0 || a[0] < b[0] || (a[0] == b[0] && Less(a[1..], b[1..])))
  }

  predicate LessEq(a: string, b: string) {
    a == b || Less(a, b)
  }

  lemma {:induction false} LessIrreflexive(a: string)
    ensures !Less(a, a)
    decreases |a|
  {
    if |a| > 0 {
      LessIrreflexive(a[1..]);
    }
  }

  lemma {:induction false} LessTransitive(a: string, b: string, c: string)
    requires Less(a, b) && Less(b, c)
    ensures Less(a, c)
    decreases |a|
  {
    if |a| > 0 && a[0] == b[0] && b[0] == c[0] {
      LessTransitive(a[1..], b[1..], c[1..]);
    }
  }

  /** Any two keys are comparable: the order is total. */
  lemma {:induction false} LessTotal(a: string, b: string)
    ensures a == b || Less(a, b) || Less(b, a)
    decreases |a|
  {
    if |a| > 0 && |b| > 0 && a[0] == b[0] {
      LessTotal(a[1..], b[1..]);
      if a[1..] == b[1..] {
        assert a == [a[0]] + a[1..] && b == [b[0]] + b[1..];
      }
    }
  }

  lemma LessAsymmetric(a: string, b: string)
    requires Less(a, b)
    ensures !Less(b, a)
  {
    if Less(b, a) {
      LessTransitive(a, b, a);
      LessIrreflexive(a);
    }
  }

  /* ---------------------------------------------------------------------------
     Prefixes and suffixes.
     --------------------------------------------------------------------------- */

  predicate HasPrefix(s: string, p: string) {
    |p| <= |s| && s[..|p|] == p
  }

  predicate HasSuffix(s: string, p: string) {
    |p| <= |s| && s[|s| - |p|..] == p
  }

  /** A string never sorts before one of its prefixes. */
  lemma {:induction false} PrefixNotBelow(s: string, p: string)
    requires HasPrefix(s, p)
    ensures LessEq(p, s)
    decreases |p|
  {
    if |p| > 0 {
      assert HasPrefix(s[1..], p[1..]);
      PrefixNotBelow(s[1..], p[1..]);
      if s[1..] == p[1..] {
        assert s == [s[0]] + s[1..];
        assert p == [p[0]] + p[1..];
      }
    }
  }

  /** The keys that start with `p` form one contiguous block of the key order:
      a key lying between `p` and a key that starts with `p` starts with `p` too. */
  lemma {:induction false} PrefixConvex(p: string, b: string, c: string)
    requires HasPrefix(c, p)
    requires LessEq(p, b) && LessEq(b, c)
    ensures HasPrefix(b, p)
    decreases |p|
  {
    if |p| > 0 && b != p && b != c {
      assert c[0] == p[0] && p[0] == b[0];
      assert HasPrefix(c[1..], p[1..]);
      PrefixConvex(p[1..], b[1..], c[1..]);
      assert b == [b[0]] + b[1..];
    }
  }

  /** strings.TrimPrefix */
  function TrimPrefix(s: string, p: string): (r: string)
    ensures HasPrefix(s, p) ==> s == p + r
    ensures !HasPrefix(s, p) ==> r == s
  {
    if HasPrefix(s, p) then s[|p|..] else s
  }

  /** strings.TrimSuffix */
  function TrimSuffix(s: string, p: string): (r: string)
    ensures HasSuffix(s, p) ==> s == r + p
    ensures !HasSuffix(s, p) ==> r == s
  {
    if HasSuffix(s, p) then s[..|s| - |p|] else s
  }

  /* ---------------------------------------------------------------------------
     Whitespace trimming (strings.TrimSpace, unicode.IsSpace).
     --------------------------------------------------------------------------- */

  /** unicode.IsSpace: the Latin-1 spaces and the Unicode White_Space property. */
  predicate IsSpace(c: char) {
    var u := c as int;
    (0x09 <= u <= 0x0D) || u == 0x20 || u == 0x85 || u == 0xA0 || u == 0x1680
    || (0x2000 <= u <= 0x200A) || u == 0x2028 || u == 0x2029 || u == 0x202F
    || u == 0x205F || u == 0x3000
  }

  predicate AllSpace(s: string) {
    forall k :: 0 <= k < |s| ==> IsSpace(s[k])
  }

  /** The string has no whitespace at either end. */
  predicate Trimmed(s: string) {
    |s| > 0 ==> !IsSpace(s[0]) && !IsSpace(s[|s| - 1])
  }

  /** The index of the first non-space code point at or after `i`. */
  function SkipLeading(s: string, i: nat): (r: nat)
    requires i <= |s|
    ensures i <= r <= |s|
    ensures forall k :: i <= k < r ==> IsSpace(s[k])
    ensures r < |s| ==> !IsSpace(s[r])
    decreases |s| - i
  {
    if i < |s| && IsSpace(s[i]) then SkipLeading(s, i + 1) else i
  }

  /** The end of `s[lo..j]` once its trailing spaces are dropped. */
  function SkipTrailing(s: string, lo: nat, j: nat): (r: nat)
    requires lo <= j <= |s|
    ensures lo <= r <= j
    ensures forall k :: r <= k < j ==> IsSpace(s[k])
    ensures r > lo ==> !IsSpace(s[r - 1])
    decreases j
  {
    if j > lo && IsSpace(s[j - 1]) then SkipTrailing(s, lo, j - 1) else j
  }

  /** strings.TrimSpace: the result is the infix of `s` left after removing the
      whitespace at both ends, and it has no whitespace at either end. */
  function TrimSpace(s: string): (r: string)
    ensures Trimmed(r)
    ensures var i := SkipLeading(s, 0);
      i + |r| <= |s| && r == s[i..i + |r|] && AllSpace(s[..i]) && AllSpace(s[i + |r|..])
    ensures r == [] <==> AllSpace(s)
  {
    var i := SkipLeading(s, 0);
    var j := SkipTrailing(s, i, |s|);
    assert j == i ==> AllSpace(s);
    s[i..j]
  }

  /** Trimming a string that has no whitespace at either end leaves it alone. */
  lemma TrimSpaceOfTrimmed(s: string)
    requires Trimmed(s)
    ensures TrimSpace(s) == s
  {
  }

  /** strings.TrimSpace is idempotent. */
  lemma TrimSpaceIdempotent(s: string)
    ensures TrimSpace(TrimSpace(s)) == TrimSpace(s)
  {
    TrimSpaceOfTrimmed(TrimSpace(s));
  }

  /** Trimming a text with whitespace only around a trimmed, non-empty core gives
      the core. */
  lemma TrimSpaceAround(a: string, core: string, b: string)
    requires AllSpace(a) && AllSpace(b) && Trimmed(core) && |core| > 0
    ensures TrimSpace(a + core + b) == core
  {
    var s := a + core + b;
    assert s[..|a|] == a && s[|a|..|a| + |core|] == core && s[|a| + |core|..] == b;
    TrimSpaceSlice(s, |a|, |a| + |core|);
  }

  lemma TrimSpaceSlice(s: string, n: nat, m: nat)
    requires n < m <= |s|
    requires AllSpace(s[..n]) && AllSpace(s[m..])
    requires !IsSpace(s[n]) && !IsSpace(s[m - 1])
    ensures TrimSpace(s) == s[n..m]
  {
    assert forall k :: 0 <= k < n ==> s[k] == s[..n][k];
    var i := SkipLeading(s, 0);
    assert i == n;
    var r := TrimSpace(s);
    forall k | i + |r| <= k < |s|
      ensures IsSpace(s[k])
    {
      assert s[i + |r|..][k - i - |r|] == s[k];
    }
    assert |r| >= m - n;
    assert forall k :: m <= k < |s| ==> s[k] == s[m..][k - m];
    assert r[|r| - 1] == s[i + |r| - 1];
    assert |r| == m - n;
  }

  /** strings.Trim(s, cutset): drop every leading and trailing code point found in `cutset`. */
  function TrimCutset(s: string, cutset: string): (r: string)
    ensures |r| <= |s|
    ensures |r| > 0 ==> r[0] !in cutset && r[|r| - 1] !in cutset
    ensures (|s| == 0 || (s[0] !in cutset && s[|s| - 1] !in cutset)) ==> r == s
  {
    if |s| > 0 && s[0] in cutset then TrimCutset(s[1..], cutset)
    else if |s| > 0 && s[|s| - 1] in cutset then TrimCutset(s[..|s| - 1], cutset)
    else s
  }

  /* ---------------------------------------------------------------------------
     Case mapping and substring search. Every letter whose Unicode simple case
     mapping lands on an ASCII letter is mapped; other non-ASCII letters are kept.
     --------------------------------------------------------------------------- */

  /** unicode.ToLower on the letters whose lower case is ASCII: 'A'..'Z', U+0130
      (capital I with dot above) to 'i', and U+212A (Kelvin sign) to 'k'. */
  function LowerChar(c: char): (r: char)
    ensures 'a' <= r <= 'z' <==> ('a' <= c <= 'z' || 'A' <= c <= 'Z' || c == '\U{0130}' || c == '\U{212A}')
    ensures !('A' <= r <= 'Z')
  {
    if 'A' <= c <= 'Z' then (c as int + 32) as char
    else if c == '\U{0130}' then 'i'
    else if c == '\U{212A}' then 'k'
    else c
  }

  /** unicode.ToUpper on the letters whose upper case is ASCII: 'a'..'z', U+0131
      (dotless i) to 'I', and U+017F (long s) to 'S'. */
  function UpperChar(c: char): (r: char)
    ensures 'A' <= r <= 'Z' <==> ('A' <= c <= 'Z' || 'a' <= c <= 'z' || c == '\U{0131}' || c == '\U{017F}')
    ensures !('a' <= r <= 'z')
  {
    if 'a' <= c <= 'z' then (c as int - 32) as char
    else if c == '\U{0131}' then 'I'
    else if c == '\U{017F}' then 'S'
    else c
  }

  /** Text made of ASCII code points only. */
  predicate AsciiText(s: string) {
    forall k :: 0 <= k < |s| ==> s[k] < '\U{80}'
  }

  /** strings.ToLower, as far as ASCII text can tell: see LowerChar. */
  function ToLower(s: string): (r: string)
    ensures |r| == |s|
    ensures forall k :: 0 <= k < |s| ==> r[k] == LowerChar(s[k])
  {
    seq(|s|, k requires 0 <= k < |s| => LowerChar(s[k]))
  }

  /** strings.ToUpper, as far as ASCII text can tell: see UpperChar. */
  function ToUpper(s: string): (r: string)
    ensures |r| == |s|
    ensures forall k :: 0 <= k < |s| ==> r[k] == UpperChar(s[k])
  {
    seq(|s|, k requires 0 <= k < |s| => UpperChar(s[k]))
  }

  /** `p` occurs in `s` starting at position `i`. */
  predicate OccursAt(s: string, p: string, i: int) {
    0 <= i && i + |p| <= |s| && s[i..i + |p|] == p
  }

  /** strings.Contains, as a left-to-right search. */
  predicate Contains(s: string, p: string)
    decreases |s|
  {
    HasPrefix(s, p) || (|s| > 0 && Contains(s[1..], p))
  }

  /** The search finds `p` exactly when `p` occurs somewhere in `s`. */
  lemma {:induction false} ContainsIff(s: string, p: string)
    ensures Contains(s, p) <==> exists i :: OccursAt(s, p, i)
    decreases |s|
  {
    if HasPrefix(s, p) {
      assert OccursAt(s, p, 0);
    } else if |s| > 0 {
      ContainsIff(s[1..], p);
      if exists i :: OccursAt(s[1..], p, i) {
        var i :| OccursAt(s[1..], p, i);
        assert s[1..][i..i + |p|] == s[i + 1..i + 1 + |p|];
        assert OccursAt(s, p, i + 1);
      }
      if exists i :: OccursAt(s, p, i) {
        var i :| OccursAt(s, p, i);
        assert i != 0;
        assert s[1..][i - 1..i - 1 + |p|] == s[i..i + |p|];
        assert OccursAt(s[1..], p, i - 1);
      }
    }
  }

  /* ---------------------------------------------------------------------------
     Decimal numerals (fmt's %d for non-negative values, strconv digits).
     --------------------------------------------------------------------------- */

  predicate AllDigits(s: string) {
    forall k :: 0 <= k < |s| ==> IsDigit(s[k])
  }

  /** The value of a string of decimal digits, most significant first. */
  function DigitsValue(s: string): nat
    requires AllDigits(s)
  {
    if |s| == 0 then 0 else DigitsValue(s[..|s| - 1]) * 10 + (s[|s| - 1] as int - '0' as int)
  }

  function Power10(k: nat): (p: nat)
    ensures p >= 1
  {
    if k == 0 then 1 else 10 * Power10(k - 1)
  }

  lemma {:induction false} Power10Monotone(a: nat, b: nat)
    requires a <= b
    ensures Power10(a) <= Power10(b)
    decreases b
  {
    if a < b {
      Power10Monotone(a, b - 1);
    }
  }

  /** Digits led by a 9 are worth at least nine times 10 to the power of one less
      than their count. */
  lemma {:induction false} LeadingNineLowerBound(s: string)
    requires |s| > 0 && AllDigits(s) && s[0] == '9'
    ensures DigitsValue(s) >= 9 * Power10(|s| - 1)
  {
    if |s| > 1 {
      var front := s[..|s| - 1];
      assert front[0] == s[0];
      LeadingNineLowerBound(front);
      assert Power10(|s| - 1) == 10 * Power10(|s| - 2);
      assert DigitsValue(s) >= DigitsValue(front) * 10;
    }
  }

  /** The longest run of decimal digits at the start of `s`. */
  function LeadingDigits(s: string): (d: string)
    ensures |d| <= |s| && d == s[..|d|] && AllDigits(d)
    ensures |d| < |s| ==> !IsDigit(s[|d|])
    ensures AllDigits(s) ==> d == s
  {
    if |s| == 0 || !IsDigit(s[0]) then []
    else
      var rest := LeadingDigits(s[1..]);
      assert s[..1 + |rest|] == [s[0]] + s[1..][..|rest|];
      [s[0]] + rest
  }

  function DigitChar(d: nat): char
    requires d < 10
  {
    ('0' as int + d) as char
  }

  /** fmt's %d rendering of a non-negative integer. */
  function NatToString(n: nat): (r: string)
    ensures |r| > 0 && AllDigits(r)
    ensures |r| > 1 ==> r[0] != '0'
  {
    if n < 10 then [DigitChar(n)] else NatToString(n / 10) + [DigitChar(n % 10)]
  }

  /** Reading back the rendered digits gives the number: rendering is injective. */
  lemma {:induction false} NatToStringRoundTrip(n: nat)
    ensures DigitsValue(NatToString(n)) == n
  {
    if n >= 10 {
      NatToStringRoundTrip(n / 10);
      var s := NatToString(n);
      assert s[..|s| - 1] == NatToString(n / 10);
    }
  }
}
