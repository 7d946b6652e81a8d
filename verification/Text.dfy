/** The string operations the daemon uses, on sequences of characters. */
module Text {
  import opened Prelude

  /** The white space that `trim` and `\s` recognise. */
  predicate IsSpace(c: char) {
    var n := c as int;
    || 9 <= n <= 13 || n == 32 || n == 0xA0 || n == 0x1680 || 0x2000 <= n <= 0x200A
    || n == 0x2028 || n == 0x2029 || n == 0x202F || n == 0x205F || n == 0x3000 || n == 0xFEFF
  }

  predicate IsDigit(c: char) { '0' <= c <= '9' }

  function TrimStart(s: string): string {
    if s != [] && IsSpace(s[0]) then TrimStart(s[1..]) else s
  }

  function TrimEnd(s: string): string {
    if s != [] && IsSpace(s[|s| - 1]) then TrimEnd(s[..|s| - 1]) else s
  }

  function Trim(s: string): string { TrimEnd(TrimStart(s)) }

  /** Present and not just white space, as `!s || s.trim() === ''` tests it. */
  predicate NonBlank(s: string) { Trim(s) != "" }

  lemma {:induction false} TrimEndShape(s: string)
    ensures |TrimEnd(s)| <= |s| && TrimEnd(s) == s[..|TrimEnd(s)|]
    ensures TrimEnd(s) == "" || !IsSpace(TrimEnd(s)[|TrimEnd(s)| - 1])
    ensures TrimEnd(TrimEnd(s)) == TrimEnd(s)
  {
    if s != [] && IsSpace(s[|s| - 1]) {
      TrimEndShape(s[..|s| - 1]);
    }
  }

  lemma {:induction false} TrimStartShape(s: string)
    ensures |TrimStart(s)| <= |s|
    ensures TrimStart(s) == "" || !IsSpace(TrimStart(s)[0])
  {
    if s != [] && IsSpace(s[0]) {
      TrimStartShape(s[1..]);
    }
  }

  lemma TrimIdempotent(s: string)
    ensures Trim(Trim(s)) == Trim(s) && |Trim(s)| <= |s|
  {
    TrimStartShape(s);
    TrimEndShape(TrimStart(s));
    var t := Trim(s);
    if t != "" {
      assert t[0] == TrimStart(s)[0];
      assert TrimStart(t) == t;
    }
  }

  /** Lower-casing of the ASCII letters; other characters stay. */
  function LowerChar(c: char): char {
    if 'A' <= c <= 'Z' then (c as int + 32) as char else c
  }

  function ToLower(s: string): string { seq(|s|, i requires 0 <= i < |s| => LowerChar(s[i])) }

  predicate StartsWith(s: string, p: string) { |p| <= |s| && s[..|p|] == p }

  lemma ConcatAssociates(a: string, b: string, c: string)
    ensures a + (b + c) == (a + b) + c
  {
  }

  lemma StartsWithItself(p: string, rest: string)
    ensures StartsWith(p + rest, p) && (p + rest)[|p|..] == rest
  {
  }

  lemma DifferentStart(s: string, p: string, i: nat)
    requires i < |p| && i < |s| && s[i] != p[i]
    ensures !StartsWith(s, p)
  {
    if |p| <= |s| {
      assert s[..|p|][i] == s[i];
    }
  }

  predicate Contains(s: string, p: string) {
    StartsWith(s, p) || (s != [] && Contains(s[1..], p))
  }

  predicate ContainsAny(s: string, ps: seq<string>) {
    exists i :: 0 <= i < |ps| && Contains(s, ps[i])
  }

  /** The longest prefix of characters `a` to `z`. */
  function LetterPrefix(s: string): string {
    if s != [] && 'a' <= s[0] <= 'z' then [s[0]] + LetterPrefix(s[1..]) else ""
  }

  /** Cutting a text at a character that is not a letter does not change its leading letters. */
  lemma {:induction false} LetterPrefixCut(s: string, k: nat)
    requires k <= |s| && (k < |s| ==> !('a' <= s[k] <= 'z'))
    ensures LetterPrefix(s[..k]) == LetterPrefix(s)
  {
    if k > 0 {
      assert s[..k][1..] == s[1..][..k - 1];
      LetterPrefixCut(s[1..], k - 1);
    }
  }

  /** The first character that trimming cuts off at the end is white space. */
  lemma {:induction false} TrimEndCutsSpace(s: string)
    ensures |TrimEnd(s)| <= |s| && (|TrimEnd(s)| < |s| ==> IsSpace(s[|TrimEnd(s)|]))
  {
    if s != [] && IsSpace(s[|s| - 1]) {
      TrimEndCutsSpace(s[..|s| - 1]);
    }
  }

  function Find<T>(s: seq<T>, p: T -> bool): (r: Option<T>)
    ensures r.Some? ==> r.value in s && p(r.value)
    ensures r.None? ==> forall x :: x in s ==> !p(x)
  {
    if s == [] then None else if p(s[0]) then Some(s[0]) else Find(s[1..], p)
  }

  function Filter<T(!new)>(s: seq<T>, p: T -> bool): (r: seq<T>)
    ensures forall x :: x in r <==> x in s && p(x)
  {
    if s == [] then [] else (if p(s[0]) then [s[0]] else []) + Filter(s[1..], p)
  }

  /** Lexicographic order by character code, as `<` compares strings. */
  predicate LexLess(a: string, b: string) {
    if b == [] then false
    else if a == [] then true
    else a[0] < b[0] || (a[0] == b[0] && LexLess(a[1..], b[1..]))
  }

  lemma {:induction false} LexTrichotomy(a: string, b: string)
    ensures a == b || LexLess(a, b) || LexLess(b, a)
    ensures !(LexLess(a, b) && LexLess(b, a)) && !LexLess(a, a)
  {
    if a != [] {
      if b != [] {
        LexTrichotomy(a[1..], b[1..]);
        assert a[0] == b[0] && a[1..] == b[1..] ==> a == [a[0]] + a[1..] == b;
      }
      LexTrichotomy(a[1..], a[1..]);
    }
  }

  lemma {:induction false} LexTransitive(a: string, b: string, c: string)
    requires LexLess(a, b) && LexLess(b, c)
    ensures LexLess(a, c)
  {
    if a != [] && a[0] == b[0] && b[0] == c[0] {
      LexTransitive(a[1..], b[1..], c[1..]);
    }
  }

  // ---------------------------------------------------------------- decimal numbers

  function DigitValue(c: char): (d: nat)
    requires IsDigit(c)
    ensures d < 10
  {
    c as int - '0' as int
  }

  function DigitChar(d: int): char
    requires 0 <= d < 10
  {
    (d + '0' as int) as char
  }

  predicate AllDigits(s: string) { forall i :: 0 <= i < |s| ==> IsDigit(s[i]) }

  /** The value of a string of digits. */
  function DigitsValue(s: string): nat
    requires AllDigits(s)
  {
    if s == [] then 0 else DigitsValue(s[..|s| - 1]) * 10 + DigitValue(s[|s| - 1])
  }

  /** A number in decimal, as `String(n)` prints it. */
  function Decimal(n: nat): (s: string)
    ensures s != "" && AllDigits(s)
  {
    if n < 10 then [DigitChar(n)] else Decimal(n / 10) + [DigitChar(n % 10)]
  }

  lemma {:induction false} DecimalRoundTrip(n: nat)
    ensures DigitsValue(Decimal(n)) == n
  {
    var s := Decimal(n);
    if n < 10 {
      assert DigitsValue(s[..0]) == 0;
    } else {
      DecimalRoundTrip(n / 10);
      assert s[..|s| - 1] == Decimal(n / 10);
    }
  }

  function DigitPrefix(s: string): (r: string)
    ensures AllDigits(r) && StartsWith(s, r)
  {
    if s != [] && IsDigit(s[0]) then [s[0]] + DigitPrefix(s[1..]) else ""
  }

  lemma {:induction false} DigitPrefixOfDigits(s: string)
    requires AllDigits(s)
    ensures DigitPrefix(s) == s
  {
    if s != [] {
      DigitPrefixOfDigits(s[1..]);
    }
  }

  function Pow2(n: nat): (r: nat)
    ensures r >= 1
  {
    if n == 0 then 1 else 2 * Pow2(n - 1)
  }

  lemma {:induction false} Pow2Monotone(m: nat, n: nat)
    requires m <= n
    ensures Pow2(m) <= Pow2(n)
  {
    if m < n {
      Pow2Monotone(m, n - 1);
    }
  }

  const MAX_EXPONENT: nat := 1024
  const HALF_ULP_EXPONENT: nat := 970

  /** Integers from here on read as an infinite double-precision number. */
  function FirstInfinite(): nat
  {
    Pow2Monotone(HALF_ULP_EXPONENT, MAX_EXPONENT);
    Pow2(MAX_EXPONENT) - Pow2(HALF_ULP_EXPONENT)
  }

  lemma Pow2Gap(m: nat, e: nat)
    requires m < e && e >= 2
    ensures Pow2(e) > Pow2(m) + 1
  {
    Pow2Monotone(m, e - 1);
    assert Pow2(e - 1) == 2 * Pow2(e - 2);
  }

  lemma OneIsFinite()
    ensures 1 < FirstInfinite()
  {
    Pow2Gap(HALF_ULP_EXPONENT, MAX_EXPONENT);
  }

  // ---------------------------------------------------------------- characters

  /** White space and line terminators of ECMA-262 (sections 12.2 and 12.3). */
  lemma WhiteSpaceIff(c: char)
    ensures IsSpace(c)
            <==> c as int in {
                   0x09, 0x0A, 0x0B, 0x0C, 0x0D, 0x20, 0xA0, 0x1680, 0x2000, 0x2001, 0x2002, 0x2003, 0x2004, 0x2005,
                   0x2006, 0x2007, 0x2008, 0x2009, 0x200A, 0x2028, 0x2029, 0x202F, 0x205F, 0x3000, 0xFEFF}
  {
  }

  const UPPER_LETTERS := "ABCDEFGHIJKLMNOPQRSTUVWXYZ"
  const LOWER_LETTERS := "abcdefghijklmnopqrstuvwxyz"

  lemma LowerCharMeaning(i: nat, c: char)
    requires i < 26
    ensures |UPPER_LETTERS| == |LOWER_LETTERS| == 26
    ensures LowerChar(UPPER_LETTERS[i]) == LOWER_LETTERS[i]
    ensures c !in UPPER_LETTERS ==> LowerChar(c) == c
  {
    assert 'A' <= c <= 'Z' ==> UPPER_LETTERS[c as int - 'A' as int] == c;
  }

  // ---------------------------------------------------------------- what the functions find

  predicate AllSpace(s: string) { forall i :: 0 <= i < |s| ==> IsSpace(s[i]) }

  lemma {:induction false} TrimStartMeaning(s: string) returns (pre: string)
    ensures AllSpace(pre) && s == pre + TrimStart(s)
  {
    if s != [] && IsSpace(s[0]) {
      var rest := TrimStartMeaning(s[1..]);
      pre := [s[0]] + rest;
      assert s == [s[0]] + s[1..];
    } else {
      pre := "";
    }
  }

  lemma {:induction false} TrimEndMeaning(s: string) returns (post: string)
    ensures AllSpace(post) && s == TrimEnd(s) + post
  {
    if s != [] && IsSpace(s[|s| - 1]) {
      var rest := TrimEndMeaning(s[..|s| - 1]);
      post := rest + [s[|s| - 1]];
      assert s == s[..|s| - 1] + [s[|s| - 1]];
    } else {
      post := "";
      assert s == s + "";
    }
  }

  /** Trimming takes white space off both ends, and all of it. */
  lemma TrimMeaning(s: string) returns (pre: string, post: string)
    ensures AllSpace(pre) && AllSpace(post) && s == pre + Trim(s) + post
    ensures Trim(s) != "" ==> !IsSpace(Trim(s)[0]) && !IsSpace(Trim(s)[|Trim(s)| - 1])
  {
    pre := TrimStartMeaning(s);
    post := TrimEndMeaning(TrimStart(s));
    ConcatAssociates(pre, Trim(s), post);
    TrimStartShape(s);
    TrimEndShape(TrimStart(s));
  }

  /** `p` stands in `s` at `i`. */
  predicate StandsAt(s: string, p: string, i: nat) { i + |p| <= |s| && s[i..i + |p|] == p }

  lemma StandsStep(s: string, p: string, i: nat)
    requires s != ""
    ensures StandsAt(s, p, i + 1) <==> StandsAt(s[1..], p, i)
    ensures StandsAt(s, p, 0) <==> StartsWith(s, p)
  {
    if i + 1 + |p| <= |s| {
      assert s[1..][i..i + |p|] == s[i + 1..i + 1 + |p|];
    }
  }

  lemma {:induction false} ContainsIff(s: string, p: string)
    ensures Contains(s, p) <==> exists i :: StandsAt(s, p, i)
  {
    if s == "" {
      assert StandsAt(s, p, 0) <==> StartsWith(s, p);
    } else {
      ContainsIff(s[1..], p);
      StandsStep(s, p, 0);
      if i: nat :| StandsAt(s[1..], p, i) {
        StandsStep(s, p, i);
      }
      if i: nat :| StandsAt(s, p, i) {
        if i > 0 {
          StandsStep(s, p, i - 1);
        }
      }
    }
  }

  /** The longest prefix of letters: it ends with the text or before something else. */
  lemma {:induction false} LetterPrefixMeaning(s: string)
    ensures var r := LetterPrefix(s);
            && StartsWith(s, r) && (forall i :: 0 <= i < |r| ==> 'a' <= r[i] <= 'z')
            && (|r| < |s| ==> !('a' <= s[|r|] <= 'z'))
  {
    if s != [] && 'a' <= s[0] <= 'z' {
      LetterPrefixMeaning(s[1..]);
      var q := LetterPrefix(s[1..]);
      assert s[..|q| + 1] == [s[0]] + s[1..][..|q|];
    }
  }

  /** The longest prefix of digits: it ends with the text or before something else. */
  lemma {:induction false} DigitPrefixIsLongest(s: string)
    ensures var r := DigitPrefix(s); |r| < |s| ==> !IsDigit(s[|r|])
  {
    if s != [] && IsDigit(s[0]) {
      DigitPrefixIsLongest(s[1..]);
    }
  }

  /** The texts agree before `k`, where the first one ends or has the smaller character. */
  predicate SmallerAt(a: string, b: string, k: nat) {
    k <= |a| && k < |b| && a[..k] == b[..k] && (k == |a| || a[k] < b[k])
  }

  lemma SmallerStep(a: string, b: string, k: nat)
    requires a != "" && b != ""
    ensures SmallerAt(a, b, k + 1) <==> a[0] == b[0] && SmallerAt(a[1..], b[1..], k)
    ensures SmallerAt(a, b, 0) <==> a[0] < b[0]
  {
    if k + 1 <= |a| && k + 1 < |b| {
      assert a[..k + 1] == [a[0]] + a[1..][..k] && b[..k + 1] == [b[0]] + b[1..][..k];
    }
  }

  lemma {:induction false} LexLessIff(a: string, b: string)
    ensures LexLess(a, b) <==> exists k :: SmallerAt(a, b, k)
  {
    if a != "" && b != "" {
      LexLessIff(a[1..], b[1..]);
      SmallerStep(a, b, 0);
      if k: nat :| SmallerAt(a[1..], b[1..], k) {
        SmallerStep(a, b, k);
      }
      if k: nat :| SmallerAt(a, b, k) {
        if k > 0 {
          SmallerStep(a, b, k - 1);
        }
      }
    } else {
      assert a == "" && b != "" ==> SmallerAt(a, b, 0);
    }
  }

  /** A number is printed without superfluous zeros. */
  lemma {:induction false} DecimalHasNoZeroInFront(n: nat)
    ensures |Decimal(n)| > 1 ==> Decimal(n)[0] != '0'
    ensures n > 0 ==> Decimal(n)[0] != '0'
  {
    if n >= 10 {
      DecimalHasNoZeroInFront(n / 10);
    }
  }
}
