/**
 IPv4 blocks: the 32-bit mask test of discovery-policy.ts, the validator of config.ts, and the check of
 boot-relearn.ts for hosts that may be contacted. Numbers are JavaScript numbers; the bit operators work
 on their low 32 bits.
 */
module CidrPolicy {
  import opened Prelude
  import opened Text

  const TWO_32 := 0x1_0000_0000
  const TWO_31 := 0x8000_0000

  // ---------------------------------------------------------------- 32-bit operators

  function ToUint32(x: int): nat { x % TWO_32 }

  function ToInt32(x: int): int { if ToUint32(x) >= TWO_31 then ToUint32(x) - TWO_32 else ToUint32(x) }

  function BitAnd(a: nat, b: nat): nat {
    if a == 0 || b == 0 then 0 else (if a % 2 == 1 && b % 2 == 1 then 1 else 0) + 2 * BitAnd(a / 2, b / 2)
  }

  /** `x << n`, `x >>> 0` and `x & y`. */
  function ShiftLeft(x: int, n: nat): int { ToInt32(ToUint32(x) * Pow2(n % 32)) }

  function UnsignedShift0(x: int): nat { ToUint32(x) }

  function And(x: int, y: int): int { ToInt32(BitAnd(ToUint32(x), ToUint32(y))) }

  /** The mask of a prefix length; 0 is handled before, because a shift by 32 is a shift by 0. */
  function Mask(prefix: nat): nat
    requires 1 <= prefix <= 32
  {
    if prefix == 32 then 0xffff_ffff else UnsignedShift0(ShiftLeft(0xffff_ffff, 32 - prefix))
  }

  function MaskTest(ip: nat, base: nat, prefix: nat): bool
    requires prefix <= 32
  {
    prefix == 0 || And(ip, Mask(prefix)) == And(base, Mask(prefix))
  }

  /** The block test of section 3.1 of RFC 4632: the first `prefix` bits agree. */
  predicate InBlock(ip: nat, base: nat, prefix: nat)
    requires prefix <= 32
  {
    ip / Pow2(32 - prefix) == base / Pow2(32 - prefix)
  }

  // ---------------------------------------------------------------- the mask test is the block test

  lemma MultipleAtLeast(m: int, k: int)
    requires m > 0 && k >= 1
    ensures m * k >= m
  {
  }

  /** A multiple of `m` strictly between -m and m is zero. */
  lemma SmallMultiple(m: int, k: int, e: int)
    requires m > 0 && m * k == e && -m < e < m
    ensures k == 0
  {
    if k >= 1 {
      MultipleAtLeast(m, k);
    } else if k <= -1 {
      MultipleAtLeast(m, -k);
    }
  }

  lemma DivUnique(x: int, m: int, q: int, r: int)
    requires 0 <= r < m && x == m * q + r
    ensures x / m == q && x % m == r
  {
    var d, e := x / m, x % m;
    assert x == m * d + e;
    assert m * (q - d) == e - r by {
      assert m * (q - d) == m * q - m * d;
    }
    SmallMultiple(m, q - d, e - r);
  }

  lemma HalfDiv(x: nat, k: nat)
    requires k > 0
    ensures x / 2 / k == x / (2 * k)
  {
    var y := x / 2;
    var q, r := y / k, y % k;
    assert y == k * q + r;
    assert x == 2 * y + x % 2;
    assert (2 * k) * q == 2 * (k * q);
    DivUnique(x, 2 * k, q, 2 * r + x % 2);
  }

  /** `x` halved `s` times. */
  function Halved(x: nat, s: nat): nat { if s == 0 then x else Halved(x / 2, s - 1) }

  lemma {:induction false} HalvedIsDiv(x: nat, s: nat)
    ensures Halved(x, s) == x / Pow2(s)
  {
    if s > 0 {
      HalvedIsDiv(x / 2, s - 1);
      HalfDiv(x, Pow2(s - 1));
    }
  }

  lemma {:induction false} HalvedOnce(x: nat, s: nat)
    ensures Halved(x, s + 1) == Halved(x, s) / 2
  {
    if s > 0 {
      HalvedOnce(x / 2, s - 1);
    }
  }

  lemma {:induction false} HalvedAgreeFurther(x: nat, y: nat, s: nat, t: nat)
    requires s <= t && Halved(x, s) == Halved(y, s)
    ensures Halved(x, t) == Halved(y, t)
  {
    if s < t {
      HalvedAgreeFurther(x, y, s, t - 1);
      HalvedOnce(x, t - 1);
      HalvedOnce(y, t - 1);
    }
  }

  lemma Pow2At32()
    ensures Pow2(31) == TWO_31 && Pow2(32) == TWO_32
  {
    assert Pow2(8) == 256;
    Pow2Adds(8, 8);
    Pow2Adds(16, 15);
    assert Pow2(15) == 32768 by { Pow2Adds(8, 7); assert Pow2(7) == 128; }
    assert Pow2(32) == 2 * Pow2(31);
  }

  lemma {:induction false} Pow2Adds(a: nat, b: nat)
    ensures Pow2(a + b) == Pow2(a) * Pow2(b)
  {
    if b > 0 {
      Pow2Adds(a, b - 1);
    }
  }

  lemma SmallPower(s: nat)
    requires s <= 31
    ensures 0 < Pow2(s) <= TWO_31
  {
    Pow2At32();
    Pow2Monotone(s, 31);
  }

  lemma MaskValue(prefix: nat)
    requires 1 <= prefix <= 32
    ensures Mask(prefix) == TWO_32 - Pow2(32 - prefix)
    ensures 0 < Pow2(32 - prefix) <= TWO_31
  {
    SmallPower(32 - prefix);
    if prefix < 32 {
      ShiftedBy(32 - prefix);
    }
  }

  lemma ShiftedBy(n: nat)
    requires n < 32
    ensures UnsignedShift0(ShiftLeft(0xffff_ffff, n)) == TWO_32 - Pow2(n)
  {
    SmallPower(n);
    assert n % 32 == n by {
      DivUnique(n, 32, 0, n);
    }
    ShiftedOnes(Pow2(n));
  }

  /** All ones, multiplied by p, leave 2^32 - p in the low 32 bits. */
  lemma ShiftedOnes(p: nat)
    requires 0 < p <= TWO_31
    ensures ToUint32(ToInt32(ToUint32(0xffff_ffff) * p)) == TWO_32 - p
  {
    var shifted := 0xffff_ffff * p;
    assert shifted == TWO_32 * (p - 1) + (TWO_32 - p);
    DivUnique(shifted, TWO_32, p - 1, TWO_32 - p);
    assert ToUint32(shifted) == TWO_32 - p;
  }

  lemma {:induction false} AndAllOnes(x: nat, w: nat)
    requires x < Pow2(w)
    ensures BitAnd(x, Pow2(w) - 1) == x
  {
    if w > 0 && x > 0 {
      AndAllOnes(x / 2, w - 1);
      assert (Pow2(w) - 1) / 2 == Pow2(w - 1) - 1;
    }
  }

  lemma {:induction false} AndAtMost(a: nat, b: nat)
    ensures BitAnd(a, b) <= a
  {
    if a != 0 && b != 0 {
      AndAtMost(a / 2, b / 2);
    }
  }

  lemma AndEven(x: nat, h: nat)
    ensures BitAnd(x, 2 * h) == 2 * BitAnd(x / 2, h)
  {
  }

  /** Under a mask that clears the low `s` of `w` bits, two numbers look alike iff they agree above those bits. */
  lemma {:induction false} AndHighBits(x: nat, y: nat, w: nat, s: nat)
    requires s <= w && x < Pow2(w) && y < Pow2(w)
    ensures Pow2(s) <= Pow2(w)
    ensures BitAnd(x, Pow2(w) - Pow2(s)) == BitAnd(y, Pow2(w) - Pow2(s)) <==> Halved(x, s) == Halved(y, s)
  {
    Pow2Monotone(s, w);
    if s == 0 {
      AndAllOnes(x, w);
      AndAllOnes(y, w);
    } else {
      var h := Pow2(w - 1) - Pow2(s - 1);
      AndHighBits(x / 2, y / 2, w - 1, s - 1);
      AndEven(x, h);
      AndEven(y, h);
    }
  }

  lemma ToInt32Injective(a: nat, b: nat)
    requires a < TWO_32 && b < TWO_32
    ensures ToInt32(a) == ToInt32(b) <==> a == b
  {
  }

  lemma SmallStays(x: nat)
    requires x < TWO_32
    ensures ToUint32(x) == x
  {
  }

  lemma AndOfSmall(x: nat, m: nat)
    requires x < TWO_32 && m < TWO_32
    ensures And(x, m) == ToInt32(BitAnd(x, m)) && BitAnd(x, m) < TWO_32
  {
    SmallStays(x);
    SmallStays(m);
    AndAtMost(x, m);
  }

  lemma AndAgreesIff(x: nat, y: nat, m: nat)
    requires x < TWO_32 && y < TWO_32 && m < TWO_32
    ensures And(x, m) == And(y, m) <==> BitAnd(x, m) == BitAnd(y, m)
  {
    AndOfSmall(x, m);
    AndOfSmall(y, m);
    ToInt32Injective(BitAnd(x, m), BitAnd(y, m));
  }

  lemma BlockIffHalved(x: nat, y: nat, prefix: nat)
    requires prefix <= 32
    ensures InBlock(x, y, prefix) <==> Halved(x, 32 - prefix) == Halved(y, 32 - prefix)
  {
    HalvedIsDiv(x, 32 - prefix);
    HalvedIsDiv(y, 32 - prefix);
  }

  lemma EverythingInZeroBlock(x: nat, y: nat)
    requires x < TWO_32 && y < TWO_32
    ensures InBlock(x, y, 0)
  {
    Pow2At32();
    DivUnique(x, TWO_32, 0, x);
    DivUnique(y, TWO_32, 0, y);
  }

  /** For every prefix length from 0 to 32, the shift-and-mask test says whether the first bits agree. */
  lemma MaskTestIsBlockTest(ip: nat, base: nat, prefix: nat)
    requires ip < TWO_32 && base < TWO_32 && prefix <= 32
    ensures MaskTest(ip, base, prefix) <==> InBlock(ip, base, prefix)
  {
    if prefix == 0 {
      EverythingInZeroBlock(ip, base);
    } else {
      Pow2At32();
      MaskValue(prefix);
      AndAgreesIff(ip, base, Mask(prefix));
      AndHighBits(ip, base, 32, 32 - prefix);
      BlockIffHalved(ip, base, prefix);
    }
  }

  lemma Coarsen(x: nat, y: nat, fine: nat, coarse: nat)
    requires coarse <= fine <= 32 && InBlock(x, y, fine)
    ensures InBlock(x, y, coarse)
  {
    BlockIffHalved(x, y, fine);
    HalvedAgreeFurther(x, y, 32 - fine, 32 - coarse);
    BlockIffHalved(x, y, coarse);
  }

  /** Two blocks are nested or disjoint: the one with the longer prefix lies inside the other, or they share nothing. */
  lemma BlocksNestOrAreDisjoint(a: nat, p: nat, b: nat, q: nat)
    requires p <= q <= 32
    ensures (forall y: nat :: InBlock(y, b, q) ==> InBlock(y, a, p))
            || (forall x: nat :: !(InBlock(x, a, p) && InBlock(x, b, q)))
  {
    if x: nat :| InBlock(x, a, p) && InBlock(x, b, q) {
      forall y: nat | InBlock(y, b, q)
        ensures InBlock(y, a, p)
      {
        Coarsen(y, x, q, p);
      }
    }
  }

  // ---------------------------------------------------------------- text to numbers

  /** `s.split(sep)` for a one-character separator. */
  function Split(s: string, sep: char): (r: seq<string>)
    ensures |r| >= 1
  {
    if s == "" then [""]
    else
      var r := Split(s[1..], sep);
      if s[0] == sep then [""] + r else [[s[0]] + r[0]] + r[1..]
  }

  /** `/^\d{1,3}$/` and a value of at most 255. */
  predicate OctetText(s: string) { 1 <= |s| <= 3 && AllDigits(s) }

  predicate Octet(s: string) { OctetText(s) && DigitsValue(s) <= 255 }

  function Num(parts: seq<string>): nat
    requires forall i :: 0 <= i < |parts| ==> Octet(parts[i])
  {
    if parts == [] then 0
    else
      assert Octet(parts[|parts| - 1]);
      Num(parts[..|parts| - 1]) * 256 + DigitsValue(parts[|parts| - 1])
  }

  predicate DottedQuad(ip: string) {
    var parts := Split(ip, '.');
    |parts| == 4 && forall i :: 0 <= i < 4 ==> Octet(parts[i])
  }

  function Ipv4ToNum(ip: string): Option<nat> {
    if DottedQuad(ip) then Some(Num(Split(ip, '.'))) else None
  }

  lemma {:induction false} NumFits(parts: seq<string>)
    requires |parts| <= 4 && forall i :: 0 <= i < |parts| ==> Octet(parts[i])
    ensures Num(parts) < TWO_32
    ensures |parts| <= 3 ==> Num(parts) < 0x100_0000
    ensures |parts| <= 2 ==> Num(parts) < 0x1_0000
    ensures |parts| <= 1 ==> Num(parts) < 0x100
    ensures |parts| == 0 ==> Num(parts) == 0
  {
    if parts != [] {
      NumFits(parts[..|parts| - 1]);
    }
  }

  lemma NumStep(parts: seq<string>, i: nat)
    requires |parts| == 4 && i < 4 && forall k :: 0 <= k <= i ==> Octet(parts[k])
    ensures Num(parts[..i + 1]) == Num(parts[..i]) * 256 + DigitsValue(parts[i])
    ensures UnsignedShift0(Num(parts[..i]) * 256 + DigitsValue(parts[i])) == Num(parts[..i + 1])
  {
    assert parts[..i + 1][..i] == parts[..i];
    NumFits(parts[..i + 1]);
    SmallStays(Num(parts[..i + 1]));
  }

  /** The accumulating loop; `>>> 0` never changes the number. */
  method ParseIpv4(ip: string) returns (r: Option<nat>)
    ensures r == Ipv4ToNum(ip)
    ensures r.Some? ==> r.value < TWO_32
  {
    var parts := Split(ip, '.');
    if |parts| != 4 {
      return None;
    }
    var num := 0;
    for i := 0 to |parts|
      invariant forall k :: 0 <= k < i ==> Octet(parts[k])
      invariant num == Num(parts[..i])
    {
      var p := parts[i];
      if !OctetText(p) {
        return None;
      }
      var n := DigitsValue(p);
      if n > 255 {
        return None;
      }
      NumStep(parts, i);
      num := UnsignedShift0(num * 256 + n);
    }
    assert parts[..4] == parts;
    NumFits(parts);
    return Some(num);
  }

  predicate PrefixText(s: string) { 1 <= |s| <= 2 && AllDigits(s) }

  function IpInCidr(ip: string, cidr: string): bool {
    var parts := Split(cidr, '/');
    if |parts| < 2 || parts[0] == "" || parts[1] == "" || !PrefixText(parts[1]) then false
    else
      var prefix := DigitsValue(parts[1]);
      if prefix > 32 then false
      else
        var ipNum, baseNum := Ipv4ToNum(ip), Ipv4ToNum(parts[0]);
        ipNum.Some? && baseNum.Some? && MaskTest(ipNum.value, baseNum.value, prefix)
  }

  function IsValidCidr(s: string): bool {
    var parts := Split(s, '/');
    if |parts| < 2 || parts[0] == "" || parts[1] == "" || !PrefixText(parts[1]) then false
    else if DigitsValue(parts[1]) > 32 then false
    else
      var octets := Split(parts[0], '.');
      |octets| == 4 && forall i :: 0 <= i < 4 ==> OctetText(octets[i]) && DigitsValue(octets[i]) <= 255
  }

  /** The configuration accepts exactly the CIDRs that the matcher can match: those that contain their own base. */
  lemma ValidIffContainsItsBase(cidr: string)
    ensures IsValidCidr(cidr) <==> IpInCidr(Split(cidr, '/')[0], cidr)
  {
    var parts := Split(cidr, '/');
    if DottedQuad(parts[0]) {
      NumFits(Split(parts[0], '.'));
    }
  }

  /** On text as well, membership means that the first bits agree. */
  lemma IpInCidrMeaning(ip: string, cidr: string)
    requires IsValidCidr(cidr)
    ensures var base, prefix := Split(cidr, '/')[0], DigitsValue(Split(cidr, '/')[1]);
            IpInCidr(ip, cidr) <==> DottedQuad(ip) && InBlock(Num(Split(ip, '.')), Num(Split(base, '.')), prefix)
  {
    var base := Split(cidr, '/')[0];
    NumFits(Split(base, '.'));
    if DottedQuad(ip) {
      NumFits(Split(ip, '.'));
      MaskTestIsBlockTest(Num(Split(ip, '.')), Num(Split(base, '.')), DigitsValue(Split(cidr, '/')[1]));
    }
  }

  // ---------------------------------------------------------------- hosts that may be contacted

  /** `h.replace(/^::ffff:/i, '')`, then one leading `[` and one trailing `]` dropped. */
  function StripHost(host: string): string {
    var a := if |host| >= 7 && ToLower(host[..7]) == "::ffff:" then host[7..] else host;
    var b := if a != "" && a[0] == '[' then a[1..] else a;
    if b != "" && b[|b| - 1] == ']' then b[..|b| - 1] else b
  }

  predicate LooksLikeIpv4(h: string) {
    var parts := Split(h, '.');
    |parts| == 4 && forall i :: 0 <= i < 4 ==> OctetText(parts[i])
  }

  /** Loopback, link-local and unspecified addresses. */
  predicate NeverAllowed(h: string) {
    || StartsWith(h, "127.") || h == "::1" || StartsWith(h, "169.254.")
    || (|h| >= 5 && ToLower(h[..5]) == "fe80:") || h == "0.0.0.0" || h == "::"
  }

  /** `/^172\.(1[6-9]|2\d|3[01])\./` */
  predicate Textual172(h: string) {
    && |h| >= 7 && h[..4] == "172." && h[6] == '.'
    && ((h[4] == '1' && '6' <= h[5] <= '9') || (h[4] == '2' && IsDigit(h[5])) || (h[4] == '3' && '0' <= h[5] <= '1'))
  }

  predicate IsHexDigit(c: char) { IsDigit(c) || 'a' <= LowerChar(c) <= 'f' }

  /** `/^f[cd][0-9a-f]{2}:/i` */
  predicate TextualUla(h: string) {
    && |h| >= 5 && LowerChar(h[0]) == 'f' && 'c' <= LowerChar(h[1]) <= 'd'
    && IsHexDigit(h[2]) && IsHexDigit(h[3]) && h[4] == ':'
  }

  predicate TextualPrivate(h: string) {
    StartsWith(h, "10.") || StartsWith(h, "192.168.") || Textual172(h) || TextualUla(h)
  }

  predicate IsReLearnHostAllowed(host: string, allowedCidrs: seq<string>) {
    var h := StripHost(host);
    && (LooksLikeIpv4(h) || ':' in h)
    && !NeverAllowed(h)
    && (if |allowedCidrs| > 0 then exists i :: 0 <= i < |allowedCidrs| && IpInCidr(h, allowedCidrs[i])
        else TextualPrivate(h))
  }

  predicate IsByte(n: nat) { n <= 255 }

  /** An address in its usual spelling. */
  function Quad(a: nat, b: nat, c: nat, d: nat): string {
    Decimal(a) + "." + (Decimal(b) + "." + (Decimal(c) + "." + Decimal(d)))
  }

  function QuadNum(a: nat, b: nat, c: nat, d: nat): nat { ((a * 256 + b) * 256 + c) * 256 + d }

  lemma {:induction false} SplitFirst(u: string, rest: string, sep: char)
    requires sep !in u
    ensures Split(u + [sep] + rest, sep) == [u] + Split(rest, sep)
  {
    var s := u + [sep] + rest;
    if u == "" {
      assert s[1..] == rest;
    } else {
      assert s[1..] == u[1..] + [sep] + rest;
      SplitFirst(u[1..], rest, sep);
      assert [u[0]] + u[1..] == u;
    }
  }

  lemma {:induction false} SplitNone(u: string, sep: char)
    requires sep !in u
    ensures Split(u, sep) == [u]
  {
    if u != "" {
      SplitNone(u[1..], sep);
      assert [u[0]] + u[1..] == u;
    }
  }

  lemma SplitFour(u: string, v: string, w: string, x: string)
    requires '.' !in u && '.' !in v && '.' !in w && '.' !in x
    ensures Split(u + "." + (v + "." + (w + "." + x)), '.') == [u, v, w, x]
  {
    SplitNone(x, '.');
    SplitFirst(w, x, '.');
    SplitFirst(v, w + "." + x, '.');
    SplitFirst(u, v + "." + (w + "." + x), '.');
  }

  lemma DigitsHaveNoDot(s: string)
    requires AllDigits(s)
    ensures '.' !in s && ':' !in s
  {
  }

  lemma DecimalIsOctet(n: nat)
    requires IsByte(n)
    ensures Octet(Decimal(n)) && DigitsValue(Decimal(n)) == n
  {
    DecimalRoundTrip(n);
    if n >= 10 {
      assert |Decimal(n)| == |Decimal(n / 10)| + 1;
      if n >= 100 {
        assert |Decimal(n / 10)| == |Decimal(n / 10 / 10)| + 1;
      }
    }
  }

  lemma NumOfFour(parts: seq<string>)
    requires |parts| == 4 && forall i :: 0 <= i < 4 ==> Octet(parts[i])
    ensures Num(parts) == QuadNum(DigitsValue(parts[0]), DigitsValue(parts[1]), DigitsValue(parts[2]),
        DigitsValue(parts[3]))
  {
    var p3 := parts[..3];
    var p2 := p3[..2];
    var p1 := p2[..1];
    assert p1[..0] == [];
    assert p1[0] == parts[0] && p2[1] == parts[1] && p3[2] == parts[2];
    assert Num(p1) == DigitsValue(parts[0]);
    assert Num(p2) == Num(p1) * 256 + DigitsValue(parts[1]);
    assert Num(p3) == Num(p2) * 256 + DigitsValue(parts[2]);
  }

  /** The usual spelling parses to the number it spells. */
  lemma QuadParses(a: nat, b: nat, c: nat, d: nat)
    requires IsByte(a) && IsByte(b) && IsByte(c) && IsByte(d)
    ensures Split(Quad(a, b, c, d), '.') == [Decimal(a), Decimal(b), Decimal(c), Decimal(d)]
    ensures Ipv4ToNum(Quad(a, b, c, d)) == Some(QuadNum(a, b, c, d))
  {
    DecimalIsOctet(a);
    DecimalIsOctet(b);
    DecimalIsOctet(c);
    DecimalIsOctet(d);
    SplitFour(Decimal(a), Decimal(b), Decimal(c), Decimal(d));
    NumOfFour([Decimal(a), Decimal(b), Decimal(c), Decimal(d)]);
  }

  lemma {:induction false} SplitHead(s: string, sep: char)
    ensures var parts := Split(s, sep);
            var p := parts[0];
            && sep !in p && |p| <= |s| && s[..|p|] == p
            && (|parts| == 1 ==> p == s)
            && (|parts| > 1 ==> |p| < |s| && s[|p|] == sep && Split(s[|p| + 1..], sep) == parts[1..])
            && (|parts| == 1 <==> sep !in s)
  {
    if s != "" && s[0] != sep {
      var t := s[1..];
      SplitHead(t, sep);
      var q := Split(t, sep)[0];
      assert [s[0]] + t == s;
      assert |Split(t, sep)| > 1 ==> t[|q| + 1..] == s[|q| + 2..];
    }
  }

  lemma HeadAndRest(s: string, sep: char)
    requires |Split(s, sep)| > 1
    ensures var p := Split(s, sep)[0];
            sep !in p && |p| < |s| && s == p + [sep] + s[|p| + 1..] && Split(s[|p| + 1..], sep) == Split(s, sep)[1..]
  {
    SplitHead(s, sep);
  }

  /** A text with four groups is its groups with dots between them. */
  lemma FourGroups(h: string)
    requires |Split(h, '.')| == 4
    ensures var p := Split(h, '.');
            && h == p[0] + "." + (p[1] + "." + (p[2] + "." + p[3]))
            && '.' !in p[0] && '.' !in p[1] && '.' !in p[2] && '.' !in p[3]
  {
    HeadAndRest(h, '.');
    var h1 := h[|Split(h, '.')[0]| + 1..];
    HeadAndRest(h1, '.');
    var h2 := h1[|Split(h1, '.')[0]| + 1..];
    HeadAndRest(h2, '.');
    SplitHead(h2[|Split(h2, '.')[0]| + 1..], '.');
  }

  lemma SameUpTo(s: string, u: string, v: string, p: string, q: string, sep: char)
    requires s == u + [sep] + v == p + [sep] + q && sep !in u && sep !in p
    ensures u == p && v == q
  {
    assert s[|u|] == sep && s[|p|] == sep;
    assert s[..|u|] == u && s[..|p|] == p;
    assert s[|u| + 1..] == v && s[|p| + 1..] == q;
  }

  /** A text "u.rest" begins with "n." exactly when u is n. */
  lemma LeadsWith(u: string, rest: string, n: string)
    requires '.' !in u && '.' !in n
    ensures StartsWith(u + "." + rest, n + ".") <==> u == n
  {
    var s, p := u + "." + rest, n + ".";
    if StartsWith(s, p) {
      assert s == n + "." + s[|p|..];
      SameUpTo(s, u, rest, n, s[|p|..], '.');
    }
    if u == n {
      assert s[..|p|] == p;
    }
  }

  lemma StartsWithPrefix(s: string, p: string, q: string)
    requires StartsWith(s, p + q)
    ensures StartsWith(s, p)
  {
    assert s[..|p|] == s[..|p + q|][..|p|];
  }

  lemma StartsWithAfter(p: string, t: string, q: string)
    ensures StartsWith(p + t, p + q) <==> StartsWith(t, q)
  {
    if |q| <= |t| {
      assert (p + t)[..|p + q|] == p + t[..|q|];
      assert (p + t[..|q|])[|p|..] == t[..|q|] && (p + q)[|p|..] == q;
    }
  }

  lemma LeadsWithTwo(u: string, v: string, rest: string, n: string, m: string)
    requires '.' !in u && '.' !in v && '.' !in n && '.' !in m
    ensures StartsWith(u + "." + (v + "." + rest), n + "." + (m + ".")) <==> u == n && v == m
  {
    var tail := v + "." + rest;
    var p1, p2 := n + ".", m + ".";
    if StartsWith(u + "." + tail, p1 + p2) {
      StartsWithPrefix(u + "." + tail, p1, p2);
    }
    LeadsWith(u, tail, n);
    StartsWithAfter(p1, tail, p2);
    LeadsWith(v, rest, m);
  }

  predicate Sixteen(t: string)
    requires |t| >= 3
  {
    && t[2] == '.'
    && ((t[0] == '1' && '6' <= t[1] <= '9') || (t[0] == '2' && IsDigit(t[1])) || (t[0] == '3' && '0' <= t[1] <= '1'))
  }

  lemma Textual172Splits(u: string, t: string)
    requires '.' !in u && |t| >= 3
    ensures Textual172(u + "." + t) <==> u == "172" && Sixteen(t)
  {
    var h := u + "." + t;
    LeadsWith(u, t, "172");
    assert "172" + "." == "172.";
    if u == "172" {
      assert h == "172." + t;
      assert h[..4] == "172." && h[4] == t[0] && h[5] == t[1] && h[6] == t[2];
    }
  }

  lemma TwoDigits(v: string)
    requires |v| == 2 && AllDigits(v)
    ensures DigitsValue(v) == 10 * DigitValue(v[0]) + DigitValue(v[1])
  {
    var first := v[..1];
    assert first[..0] == "";
    assert DigitsValue(first) == DigitValue(v[0]);
  }

  predicate SixteenGroup(v: string)
    requires OctetText(v)
  {
    |v| == 2 && 16 <= DigitsValue(v) <= 31
  }

  lemma SixteenOnGroup(v: string, r: string)
    requires OctetText(v) && r != ""
    ensures |v + "." + r| >= 3 && (Sixteen(v + "." + r) <==> SixteenGroup(v))
  {
    var t := v + "." + r;
    if |v| == 1 {
      assert t[1] == '.';
    } else if |v| == 2 {
      TwoDigits(v);
      assert t[0] == v[0] && t[1] == v[1] && t[2] == '.';
    } else {
      assert t[2] == v[2] && IsDigit(v[2]);
    }
  }

  /** The first two groups are spelled like those of a private address. */
  predicate PrivateText(u: string, v: string)
    requires OctetText(v)
  {
    u == "10" || (u == "192" && v == "168") || (u == "172" && SixteenGroup(v))
  }

  lemma GroupsHaveNoColon(u: string, v: string, w: string, x: string)
    requires AllDigits(u) && AllDigits(v) && AllDigits(w) && AllDigits(x)
    ensures ':' !in u + "." + (v + "." + (w + "." + x))
  {
    DigitsHaveNoDot(u);
    DigitsHaveNoDot(v);
    DigitsHaveNoDot(w);
    DigitsHaveNoDot(x);
  }

  /** A text of four groups of digits begins with a digit and has no colon. */
  lemma QuadIsPlain(h: string)
    requires LooksLikeIpv4(h)
    ensures h != "" && IsDigit(h[0]) && ':' !in h
  {
    var p := Split(h, '.');
    FourGroups(h);
    GroupsHaveNoColon(p[0], p[1], p[2], p[3]);
    assert h[0] == p[0][0];
  }

  /** A text that begins with a digit and has no colon is neither a ULA nor one of the special IPv6 addresses. */
  lemma NotIpv6(h: string)
    requires h != "" && IsDigit(h[0]) && ':' !in h
    ensures !TextualUla(h) && h != "::1" && h != "::" && (|h| >= 5 ==> ToLower(h[..5]) != "fe80:")
  {
    if |h| >= 5 { assert ToLower(h[..5])[0] == LowerChar(h[0]); }
  }

  /** The textual tests on a text of groups. */
  lemma PrefixesByGroups(u: string, v: string, low: string)
    requires '.' !in u && '.' !in v
    ensures var h := u + "." + (v + "." + low);
            && (StartsWith(h, "10.") <==> u == "10")
            && (StartsWith(h, "127.") <==> u == "127")
            && (StartsWith(h, "0.") <==> u == "0")
            && (StartsWith(h, "192.168.") <==> u == "192" && v == "168")
            && (StartsWith(h, "169.254.") <==> u == "169" && v == "254")
  {
    var rest := v + "." + low;
    LeadsWith(u, rest, "10");
    LeadsWith(u, rest, "127");
    LeadsWith(u, rest, "0");
    assert "10" + "." == "10." && "127" + "." == "127." && "0" + "." == "0.";
    LeadsWithTwo(u, v, low, "192", "168");
    assert "192" + "." + ("168" + ".") == "192.168.";
    LeadsWithTwo(u, v, low, "169", "254");
    assert "169" + "." + ("254" + ".") == "169.254.";
  }

  lemma TextualByGroups(h: string)
    requires LooksLikeIpv4(h)
    ensures var p := Split(h, '.');
            && (StartsWith(h, "10.") <==> p[0] == "10")
            && (StartsWith(h, "127.") <==> p[0] == "127")
            && (StartsWith(h, "192.168.") <==> p[0] == "192" && p[1] == "168")
            && (StartsWith(h, "169.254.") <==> p[0] == "169" && p[1] == "254")
            && (Textual172(h) <==> p[0] == "172" && SixteenGroup(p[1]))
            && (h == "0.0.0.0" ==> p[0] == "0")
  {
    var p := Split(h, '.');
    FourGroups(h);
    var low := p[2] + "." + p[3];
    PrefixesByGroups(p[0], p[1], low);
    SixteenOnGroup(p[1], low);
    Textual172Splits(p[0], p[1] + "." + low);
    if h == "0.0.0.0" {
      assert h[..2] == "0.";
    }
  }

  /** Without a policy, a text of four groups of digits is allowed exactly by the spelling of its first two groups. */
  lemma AllowedByGroups(host: string)
    requires LooksLikeIpv4(StripHost(host))
    ensures var p := Split(StripHost(host), '.'); IsReLearnHostAllowed(host, []) <==> PrivateText(p[0], p[1])
  {
    var h := StripHost(host);
    QuadIsPlain(h);
    NotIpv6(h);
    TextualByGroups(h);
  }

  // ---------------------------------------------------------------- blocks in their usual spelling

  function Cidr(a: nat, b: nat, c: nat, d: nat, prefix: nat): string { Quad(a, b, c, d) + "/" + Decimal(prefix) }

  lemma DigitsHaveNoSlash(s: string)
    requires AllDigits(s)
    ensures '/' !in s
  {
  }

  lemma QuadHasNoSlash(u: string, v: string, w: string, x: string)
    requires AllDigits(u) && AllDigits(v) && AllDigits(w) && AllDigits(x)
    ensures '/' !in u + "." + (v + "." + (w + "." + x))
  {
    DigitsHaveNoSlash(u);
    DigitsHaveNoSlash(v);
    DigitsHaveNoSlash(w);
    DigitsHaveNoSlash(x);
  }

  lemma CidrSplits(a: nat, b: nat, c: nat, d: nat, prefix: nat)
    ensures Split(Cidr(a, b, c, d, prefix), '/') == [Quad(a, b, c, d), Decimal(prefix)]
  {
    QuadHasNoSlash(Decimal(a), Decimal(b), Decimal(c), Decimal(d));
    DigitsHaveNoSlash(Decimal(prefix));
    SplitNone(Decimal(prefix), '/');
    SplitFirst(Quad(a, b, c, d), Decimal(prefix), '/');
  }

  /** A block as text is valid exactly for a dotted quad and one or two digits of at most 32. */
  lemma ValidCidrIff(base: string, prefix: string)
    requires '/' !in base && '/' !in prefix
    ensures IsValidCidr(base + "/" + prefix)
            <==> DottedQuad(base) && (|prefix| == 1 || |prefix| == 2) && AllDigits(prefix) && DigitsValue(prefix) <= 32
    ensures !IsValidCidr(base)
  {
    SplitNone(prefix, '/');
    SplitFirst(base, prefix, '/');
    SplitNone(base, '/');
  }

  lemma ShortDecimal(n: nat)
    ensures |Decimal(n)| <= 2 <==> n < 100
  {
    if n >= 100 {
      assert n / 10 >= 10;
      assert |Decimal(n / 10)| == |Decimal(n / 10 / 10)| + 1;
      assert |Decimal(n)| == |Decimal(n / 10)| + 1;
    } else if n >= 10 {
      assert |Decimal(n / 10)| == 1;
    }
  }

  lemma PrefixTextIff(prefix: nat)
    ensures PrefixText(Decimal(prefix)) && DigitsValue(Decimal(prefix)) <= 32 <==> prefix <= 32
  {
    ShortDecimal(prefix);
    DecimalRoundTrip(prefix);
  }

  /** A block in its usual spelling is valid exactly for prefix lengths up to 32. */
  lemma UsualCidrIsValidIff(a: nat, b: nat, c: nat, d: nat, prefix: nat)
    requires IsByte(a) && IsByte(b) && IsByte(c) && IsByte(d)
    ensures IsValidCidr(Cidr(a, b, c, d, prefix)) <==> prefix <= 32
  {
    CidrSplits(a, b, c, d, prefix);
    PrefixTextIff(prefix);
    QuadParses(a, b, c, d);
    DecimalIsOctet(a);
    DecimalIsOctet(b);
    DecimalIsOctet(c);
    DecimalIsOctet(d);
  }

  /** An address is in a block, both in their usual spelling, exactly if their first bits agree. */
  lemma UsualCidrMeaning(ip: nat, base: nat, prefix: nat, h: string, cidr: string)
    requires prefix <= 32 && Ipv4ToNum(h) == Some(ip)
    requires Split(cidr, '/') == [Split(cidr, '/')[0], Decimal(prefix)] && Ipv4ToNum(Split(cidr, '/')[0]) == Some(base)
    ensures IpInCidr(h, cidr) <==> ip / Pow2(32 - prefix) == base / Pow2(32 - prefix)
  {
    PrefixTextIff(prefix);
    DecimalRoundTrip(prefix);
    var b := Split(cidr, '/')[0];
    NumFits(Split(h, '.'));
    NumFits(Split(b, '.'));
    MaskTestIsBlockTest(ip, base, prefix);
  }

  lemma UsualMembership(a: nat, b: nat, c: nat, d: nat, a': nat, b': nat, c': nat, d': nat, prefix: nat)
    requires IsByte(a) && IsByte(b) && IsByte(c) && IsByte(d) && IsByte(a') && IsByte(b') && IsByte(c') && IsByte(d')
    requires prefix <= 32
    ensures IpInCidr(Quad(a, b, c, d), Cidr(a', b', c', d', prefix))
            <==> QuadNum(a, b, c, d) / Pow2(32 - prefix) == QuadNum(a', b', c', d') / Pow2(32 - prefix)
  {
    QuadParses(a, b, c, d);
    QuadParses(a', b', c', d');
    CidrSplits(a', b', c', d', prefix);
    UsualCidrMeaning(QuadNum(a, b, c, d), QuadNum(a', b', c', d'), prefix, Quad(a, b, c, d),
        Cidr(a', b', c', d', prefix));
  }

  // ---------------------------------------------------------------- spelling and value

  /** A group without superfluous zeros in front. */
  predicate Canonical(g: string) { |g| == 1 || (|g| > 1 && g[0] != '0') }

  lemma {:induction false} NonZeroStart(g: string)
    requires g != "" && AllDigits(g) && g[0] != '0'
    ensures DigitsValue(g) >= 1
  {
    if |g| == 1 {
      assert g[..0] == "";
    } else {
      NonZeroStart(g[..|g| - 1]);
    }
  }

  lemma DecimalStep(m: nat, d: nat)
    requires m >= 1 && d < 10
    ensures Decimal(m * 10 + d) == Decimal(m) + [DigitChar(d)]
  {
    var n := m * 10 + d;
    assert n / 10 == m && n % 10 == d;
  }

  /** A canonical group is the usual spelling of its value. */
  lemma {:induction false} CanonicalIsDecimal(g: string)
    requires AllDigits(g) && Canonical(g)
    ensures Decimal(DigitsValue(g)) == g
  {
    var front, last := g[..|g| - 1], g[|g| - 1];
    assert front + [last] == g;
    if |g| == 1 {
      assert front == "" && DigitsValue(g) == DigitValue(last);
    } else {
      NonZeroStart(front);
      CanonicalIsDecimal(front);
      DecimalStep(DigitsValue(front), DigitValue(last));
    }
  }

  lemma {:induction false} DecimalIsCanonical(n: nat)
    ensures Canonical(Decimal(n)) && (n > 0 ==> Decimal(n)[0] != '0')
  {
    if n >= 10 {
      DecimalIsCanonical(n / 10);
    }
  }

  lemma Literals()
    ensures Decimal(10) == "10" && Decimal(168) == "168" && Decimal(172) == "172" && Decimal(192) == "192"
  {
    assert Decimal(1) == "1" && Decimal(16) == "16" && Decimal(17) == "17" && Decimal(19) == "19";
  }

  /** A group is spelled `Decimal(n)` exactly if it is canonical and has the value n. */
  lemma SpelledIff(g: string, n: nat)
    requires AllDigits(g)
    ensures g == Decimal(n) <==> Canonical(g) && DigitsValue(g) == n
  {
    DecimalRoundTrip(n);
    DecimalIsCanonical(n);
    if Canonical(g) {
      CanonicalIsDecimal(g);
    }
  }

  lemma SixteenGroupIff(v: string)
    requires OctetText(v)
    ensures SixteenGroup(v) <==> Canonical(v) && 16 <= DigitsValue(v) <= 31
  {
    if |v| == 2 {
      TwoDigits(v);
    }
    if Canonical(v) && 16 <= DigitsValue(v) <= 31 {
      CanonicalIsDecimal(v);
      var n := DigitsValue(v);
      assert Decimal(n) == Decimal(n / 10) + [DigitChar(n % 10)] && |Decimal(n / 10)| == 1;
    }
  }

  /** The first two octets are those of a private address. */
  predicate PrivateValue(a: nat, b: nat) { a == 10 || (a == 192 && b == 168) || (a == 172 && 16 <= b <= 31) }

  /** The groups that the textual test reads are canonical. */
  predicate CanonicalStart(u: string, v: string) { Canonical(u) && (u == "10" || Canonical(v)) }

  lemma PrivateTextIff(u: string, v: string)
    requires OctetText(u) && OctetText(v)
    ensures PrivateText(u, v) <==> PrivateValue(DigitsValue(u), DigitsValue(v)) && CanonicalStart(u, v)
  {
    Literals();
    SpelledIff(u, 10);
    SpelledIff(u, 192);
    SpelledIff(u, 172);
    SpelledIff(v, 168);
    SixteenGroupIff(v);
  }

  /** The address is in one of the private ranges of section 3 of RFC 1918. */
  predicate Rfc1918(x: nat) {
    || InBlock(x, QuadNum(10, 0, 0, 0), 8)
    || InBlock(x, QuadNum(172, 16, 0, 0), 12)
    || InBlock(x, QuadNum(192, 168, 0, 0), 16)
  }

  lemma SmallPowers()
    ensures Pow2(16) == 0x1_0000 && Pow2(20) == 0x10_0000 && Pow2(24) == 0x100_0000
  {
    assert Pow2(8) == 256 && Pow2(4) == 16;
    Pow2Adds(8, 8);
    Pow2Adds(16, 4);
    Pow2Adds(16, 8);
  }

  lemma Rfc1918ByOctets(a: nat, b: nat, c: nat, d: nat)
    requires IsByte(a) && IsByte(b) && IsByte(c) && IsByte(d)
    ensures Rfc1918(QuadNum(a, b, c, d)) <==> PrivateValue(a, b)
  {
    SmallPowers();
    var x := QuadNum(a, b, c, d);
    assert x / 0x100_0000 == a;
    assert x / 0x1_0000 == a * 256 + b;
    assert x / 0x10_0000 == a * 16 + b / 16;
  }

  /** The text is an IPv4 address in a private range. */
  predicate PrivateAddress(h: string) { Ipv4ToNum(h).Some? && Rfc1918(Ipv4ToNum(h).value) }

  lemma PrivateAddressIff(h: string)
    requires LooksLikeIpv4(h)
    ensures var p := Split(h, '.');
            PrivateAddress(h) <==> DottedQuad(h) && PrivateValue(DigitsValue(p[0]), DigitsValue(p[1]))
  {
    var p := Split(h, '.');
    if DottedQuad(h) {
      NumOfFour(p);
      Rfc1918ByOctets(DigitsValue(p[0]), DigitsValue(p[1]), DigitsValue(p[2]), DigitsValue(p[3]));
    }
  }

  /**
   Without a policy, the test agrees with RFC 1918 on a text of four groups of digits except in two cases, both
   for groups with the values of a private address: a superfluous zero in the first group, or in the second one
   where the test reads it, gets an address refused; and a group above 255 further back gets a text allowed
   that is no address.
   */
  lemma AgreesWithRfc1918Iff(host: string)
    requires LooksLikeIpv4(StripHost(host))
    ensures var h := StripHost(host);
            var p := Split(h, '.');
            (IsReLearnHostAllowed(host, []) <==> PrivateAddress(h))
            <==> (PrivateValue(DigitsValue(p[0]), DigitsValue(p[1]))
                ==> (CanonicalStart(p[0], p[1]) <==> DottedQuad(h)))
  {
    var h := StripHost(host);
    var p := Split(h, '.');
    AllowedByGroups(host);
    PrivateTextIff(p[0], p[1]);
    PrivateAddressIff(h);
  }

  lemma StripNothing(h: string)
    requires h != "" && IsDigit(h[0]) && h[|h| - 1] != ']'
    ensures StripHost(h) == h
  {
    if |h| >= 7 { assert ToLower(h[..7])[0] == LowerChar(h[0]); }
  }

  /** An address in its usual spelling may be contacted exactly when it is in one of the private ranges. */
  lemma AllowedIffPrivate(a: nat, b: nat, c: nat, d: nat)
    requires IsByte(a) && IsByte(b) && IsByte(c) && IsByte(d)
    ensures Ipv4ToNum(Quad(a, b, c, d)).Some?
    ensures IsReLearnHostAllowed(Quad(a, b, c, d), []) <==> Rfc1918(Ipv4ToNum(Quad(a, b, c, d)).value)
  {
    var h := Quad(a, b, c, d);
    QuadParses(a, b, c, d);
    QuadIsPlain(h);
    assert h[|h| - 1] == Decimal(d)[|Decimal(d)| - 1] && IsDigit(Decimal(d)[|Decimal(d)| - 1]);
    StripNothing(h);
    DecimalIsCanonical(a);
    DecimalIsCanonical(b);
    AgreesWithRfc1918Iff(h);
  }

  // ---------------------------------------------------------------- texts that are no IPv4 literals

  function HexDigitValue(c: char): (n: nat)
    requires IsHexDigit(c)
    ensures n < 16
  {
    if IsDigit(c) then c as int - '0' as int else LowerChar(c) as int - 'a' as int + 10
  }

  lemma HexDigitIff(c: char)
    ensures IsHexDigit(c) <==> c in "0123456789abcdefABCDEF"
  {
  }

  /** The value of a group of an IPv6 address. */
  function HexValue(g: string): nat
    requires forall i :: 0 <= i < |g| ==> IsHexDigit(g[i])
  {
    if g == "" then 0 else 16 * HexValue(g[..|g| - 1]) + HexDigitValue(g[|g| - 1])
  }

  /** At most four hexadecimal digits: what stands before the first colon of an IPv6 address (section 2.2 of RFC
      4291). */
  predicate HexGroup(g: string) { |g| <= 4 && forall i :: 0 <= i < |g| ==> IsHexDigit(g[i]) }

  /** The first group of a unique local address, fc00::/7 (section 3.1 of RFC 4193). */
  predicate UlaGroup(g: string) { HexGroup(g) && 0xfc00 <= HexValue(g) <= 0xfdff }

  lemma HexValueOfFour(g: string)
    requires |g| == 4 && HexGroup(g)
    ensures HexValue(g) == 4096 * HexDigitValue(g[0]) + 256 * HexDigitValue(g[1])
                           + 16 * HexDigitValue(g[2]) + HexDigitValue(g[3])
  {
    var g3 := g[..3];
    var g2 := g3[..2];
    var g1 := g2[..1];
    assert g1[..0] == "" && g1[0] == g[0] && g2[1] == g[1] && g3[2] == g[2];
    assert HexValue(g1) == HexDigitValue(g[0]);
    assert HexValue(g2) == 16 * HexValue(g1) + HexDigitValue(g[1]);
    assert HexValue(g3) == 16 * HexValue(g2) + HexDigitValue(g[2]);
  }

  lemma ShortHexIsSmall(g: string)
    requires |g| < 4 && HexGroup(g)
    ensures HexValue(g) < 4096
  {
    if g != "" {
      var g' := g[..|g| - 1];
      if g' != "" {
        var g'' := g'[..|g'| - 1];
        assert |g''| <= 1;
        assert g'' != "" ==> HexValue(g''[..0]) == 0;
      }
    }
  }

  /** The textual test for a ULA reads the value of the first group. */
  lemma UlaIff(h: string)
    requires ':' in h
    ensures TextualUla(h) <==> UlaGroup(Split(h, ':')[0])
  {
    var g := Split(h, ':')[0];
    SplitHead(h, ':');
    assert h[|g|] == ':' && forall i :: 0 <= i < |g| ==> h[i] == g[i] != ':';
    if TextualUla(h) {
      assert |g| == 4;
    }
    if HexGroup(g) {
      if |g| == 4 {
        HexValueOfFour(g);
      } else {
        ShortHexIsSmall(g);
      }
    }
  }

  /** Begins like a private IPv4 address. */
  predicate PrivatePrefix(h: string) { StartsWith(h, "10.") || StartsWith(h, "192.168.") || Textual172(h) }

  /** Such a text has a dot after two or three digits, so it does not begin like an IPv6 address. */
  lemma PrivatePrefixIsNoHex(h: string)
    requires ':' in h && PrivatePrefix(h)
    ensures !HexGroup(Split(h, ':')[0])
  {
    var g := Split(h, ':')[0];
    SplitHead(h, ':');
    assert h[|g|] == ':' && forall i :: 0 <= i < |g| ==> h[i] == g[i];
    if StartsWith(h, "10.") {
      assert h[..3][0] == '1' && h[..3][1] == '0' && h[..3][2] == '.';
      assert !IsHexDigit(h[2]) && |g| > 2;
    } else if StartsWith(h, "192.168.") {
      assert h[..8][0] == '1' && h[..8][1] == '9' && h[..8][2] == '2' && h[..8][3] == '.';
      assert !IsHexDigit(h[3]) && |g| > 3;
    } else {
      assert h[..4][0] == '1' && h[..4][1] == '7' && h[..4][2] == '2' && h[..4][3] == '.';
      assert !IsHexDigit(h[3]) && |g| > 3;
    }
  }

  lemma PrivateIsNeverForbidden(h: string)
    requires TextualPrivate(h)
    ensures !NeverAllowed(h)
  {
    assert |h| >= 3;
    assert |h| >= 4 ==> h[..4][0] == h[0] && h[..4][1] == h[1] && h[..4][2] == h[2];
    assert |h| >= 8 ==> h[..8][0] == h[0] && h[..8][1] == h[1];
    assert h[..3][0] == h[0] && h[..3][1] == h[1];
    assert |h| >= 5 ==> ToLower(h[..5])[0] == LowerChar(h[0]) && ToLower(h[..5])[1] == LowerChar(h[1]);
  }

  /**
   Without a policy, what happens to a text that is not four groups of digits: one without a colon is refused; one
   whose first group could begin an IPv6 address is allowed exactly for the value of that group, fc00 to fdff,
   whatever comes after it; any other one exactly if it begins like a private IPv4 address.
   */
  lemma OtherTextAllowedIff(host: string)
    requires !LooksLikeIpv4(StripHost(host))
    ensures var h := StripHost(host);
            IsReLearnHostAllowed(host, [])
            <==> ':' in h && if HexGroup(Split(h, ':')[0]) then UlaGroup(Split(h, ':')[0]) else PrivatePrefix(h)
  {
    var h := StripHost(host);
    if ':' in h {
      UlaIff(h);
      if PrivatePrefix(h) {
        PrivatePrefixIsNoHex(h);
      }
      if TextualPrivate(h) {
        PrivateIsNeverForbidden(h);
      }
    }
  }

  // ---------------------------------------------------------------- IP literals

  /** A piece of an IPv6 address: one to four hexadecimal digits. */
  predicate HexPiece(g: string) { g != "" && HexGroup(g) }

  /** Pieces separated by colons, or nothing at all. */
  predicate HexPieces(s: string) {
    s == "" || (var ps := Split(s, ':'); forall i :: 0 <= i < |ps| ==> HexPiece(ps[i]))
  }

  /** The same, where the last two pieces may be written as a dotted quad. */
  predicate Ipv6Part(s: string) {
    || s == ""
    || (var ps := Split(s, ':');
        && (forall i :: 0 <= i < |ps| - 1 ==> HexPiece(ps[i]))
        && (HexPiece(ps[|ps| - 1]) || DottedQuad(ps[|ps| - 1])))
  }

  /** How many 16-bit pieces such a text stands for. */
  function Pieces(s: string): nat {
    if s == "" then 0
    else
      var ps := Split(s, ':');
      if HexPiece(ps[|ps| - 1]) then |ps| else |ps| + 1
  }

  /** `h` is `a::b`, and the double colon stands for at least one piece. */
  predicate Compressed(h: string, a: string, b: string) {
    h == a + "::" + b && HexPieces(a) && Ipv6Part(b) && Pieces(a) + Pieces(b) <= 7
  }

  /** An IPv6 address as text (section 2.2 of RFC 4291). */
  ghost predicate Ipv6Literal(h: string) {
    || (Ipv6Part(h) && Pieces(h) == 8)
    || exists a, b :: Compressed(h, a, b)
  }

  ghost predicate IpLiteral(h: string) { DottedQuad(h) || Ipv6Literal(h) }

  lemma {:induction false} SplitKeepsHead(a: string, rest: string, sep: char)
    ensures Split(a + [sep] + rest, sep)[0] == Split(a, sep)[0]
  {
    var s := a + [sep] + rest;
    if a == "" {
      assert s[0] == sep;
    } else {
      assert s[0] == a[0] && s[1..] == a[1..] + [sep] + rest;
      SplitKeepsHead(a[1..], rest, sep);
    }
  }

  lemma FullHead(h: string)
    requires Ipv6Part(h) && Pieces(h) == 8
    ensures ':' in h && HexGroup(Split(h, ':')[0])
  {
    SplitHead(h, ':');
    assert |Split(h, ':')| > 1;
  }

  lemma CompressedHead(h: string, a: string, b: string)
    requires Compressed(h, a, b)
    ensures ':' in h && HexGroup(Split(h, ':')[0])
  {
    assert h == a + [':'] + (":" + b);
    SplitKeepsHead(a, ":" + b, ':');
    assert h[|a|] == ':';
    assert a != "" ==> HexPiece(Split(a, ':')[0]);
  }

  /** What stands before the first colon of an IPv6 address is its first piece, or nothing if it begins with `::`. */
  lemma Ipv6Head(h: string)
    requires Ipv6Literal(h)
    ensures ':' in h && HexGroup(Split(h, ':')[0])
  {
    if Ipv6Part(h) && Pieces(h) == 8 {
      FullHead(h);
    } else {
      var a, b :| Compressed(h, a, b);
      CompressedHead(h, a, b);
    }
  }

  predicate InSomePart(ps: seq<string>, c: char) { exists p :: p in ps && c in p }

  lemma {:induction false} SplitKeepsChars(s: string, sep: char, k: nat)
    requires k < |s|
    ensures s[k] == sep || InSomePart(Split(s, sep), s[k])
  {
    if s[k] != sep {
      var r, ps := Split(s[1..], sep), Split(s, sep);
      if k == 0 {
        assert ps[0] == [s[0]] + r[0];
        assert ps[0] in ps && s[k] in ps[0];
      } else {
        SplitKeepsChars(s[1..], sep, k - 1);
        var p :| p in r && s[k] in p;
        var i :| 0 <= i < |r| && r[i] == p;
        if s[0] == sep {
          assert ps[i + 1] in ps && s[k] in ps[i + 1];
        } else {
          assert ps[i] in ps && s[k] in ps[i];
        }
      }
    }
  }

  /** The characters that an IP address may contain. */
  predicate AddressChar(c: char) { IsHexDigit(c) || c == ':' || c == '.' }

  predicate AddressChars(s: string) { forall k :: 0 <= k < |s| ==> AddressChar(s[k]) }

  lemma QuadChars(s: string)
    requires DottedQuad(s)
    ensures AddressChars(s)
  {
    forall k | 0 <= k < |s|
      ensures AddressChar(s[k])
    {
      SplitKeepsChars(s, '.', k);
      if s[k] != '.' {
        var p :| p in Split(s, '.') && s[k] in p;
        assert Octet(p);
      }
    }
  }

  lemma PartChars(s: string)
    requires Ipv6Part(s)
    ensures AddressChars(s)
  {
    forall k | 0 <= k < |s|
      ensures AddressChar(s[k])
    {
      SplitKeepsChars(s, ':', k);
      if s[k] != ':' {
        var p :| p in Split(s, ':') && s[k] in p;
        if !HexPiece(p) {
          QuadChars(p);
        }
      }
    }
  }

  lemma LiteralChars(h: string)
    requires IpLiteral(h)
    ensures AddressChars(h)
  {
    if DottedQuad(h) {
      QuadChars(h);
    } else if Ipv6Part(h) {
      PartChars(h);
    } else {
      var a, b :| Compressed(h, a, b);
      PartChars(a);
      PartChars(b);
    }
  }

  /** Without a policy, an IPv6 address is allowed exactly if it is a unique local one, in fc00::/7. */
  lemma Ipv6AllowedIff(host: string)
    requires Ipv6Literal(StripHost(host))
    ensures IsReLearnHostAllowed(host, []) <==> UlaGroup(Split(StripHost(host), ':')[0])
  {
    var h := StripHost(host);
    Ipv6Head(h);
    ColonIsNoQuad(h);
    OtherTextAllowedIff(host);
  }

  lemma ColonIsNoQuad(h: string)
    requires ':' in h
    ensures !LooksLikeIpv4(h) && !DottedQuad(h)
  {
    if LooksLikeIpv4(h) {
      QuadIsPlain(h);
    }
  }

  /** Begins like a private address, IPv4 or IPv6. */
  predicate PrivateStart(h: string) { PrivatePrefix(h) || (':' in h && UlaGroup(Split(h, ':')[0])) }

  /**
   The source promises to refuse whatever is no IP address. Without a policy, such a text is let through exactly
   if it has the outer form of an address, four groups of digits or a colon somewhere, and begins like a private
   one; so the promise is kept exactly for the texts without that form or without that start.
   */
  lemma NonLiteralAllowedIff(host: string)
    requires !IpLiteral(StripHost(host))
    ensures var h := StripHost(host);
            IsReLearnHostAllowed(host, []) <==> (LooksLikeIpv4(h) || ':' in h) && PrivateStart(h)
  {
    var h := StripHost(host);
    if LooksLikeIpv4(h) {
      QuadIsPlain(h);
      AllowedByGroups(host);
      TextualByGroups(h);
    } else {
      OtherTextAllowedIff(host);
      if ':' in h && PrivatePrefix(h) {
        PrivatePrefixIsNoHex(h);
      }
    }
  }

  // ---------------------------------------------------------------- hosts under a policy

  /** In 127.0.0.0/8 (section 3.2.1.3 of RFC 1122) or in 169.254.0.0/16 (section 2.1 of RFC 3927). */
  predicate LoopbackOrLinkLocal(x: nat) {
    InBlock(x, QuadNum(127, 0, 0, 0), 8) || InBlock(x, QuadNum(169, 254, 0, 0), 16)
  }

  lemma LoopbackByOctets(a: nat, b: nat, c: nat, d: nat)
    requires IsByte(a) && IsByte(b) && IsByte(c) && IsByte(d)
    ensures LoopbackOrLinkLocal(QuadNum(a, b, c, d)) <==> a == 127 || (a == 169 && b == 254)
  {
    SmallPowers();
    var x := QuadNum(a, b, c, d);
    assert x / 0x100_0000 == a;
    assert x / 0x1_0000 == a * 256 + b;
  }

  /** A group with a value of three digits has only one spelling. */
  lemma ThreeDigitsAreCanonical(g: string)
    requires OctetText(g) && DigitsValue(g) >= 100
    ensures Canonical(g)
  {
    var front := g[..|g| - 1];
    assert DigitsValue(front) >= 10;
    var first := front[..|front| - 1];
    assert first != "" && DigitsValue(first) >= 1;
    assert first[0] == g[0] && first[..|first| - 1] == "";
  }

  lemma ThreeDigitSpelling(g: string, n: nat)
    requires OctetText(g) && n >= 100
    ensures g == Decimal(n) <==> DigitsValue(g) == n
  {
    SpelledIff(g, n);
    if DigitsValue(g) == n {
      ThreeDigitsAreCanonical(g);
    }
  }

  lemma ThreeDigitLiterals()
    ensures Decimal(127) == "127" && Decimal(169) == "169" && Decimal(254) == "254"
  {
    assert Decimal(1) == "1" && Decimal(2) == "2" && Decimal(12) == "12" && Decimal(16) == "16" && Decimal(25) == "25";
  }

  /** On addresses, what is forbidden are two blocks by value, and the usual spelling of the unspecified address. */
  lemma NeverAllowedIff(h: string)
    requires DottedQuad(h)
    ensures NeverAllowed(h) <==> LoopbackOrLinkLocal(Ipv4ToNum(h).value) || h == "0.0.0.0"
  {
    var p := Split(h, '.');
    QuadIsPlain(h);
    NotIpv6(h);
    TextualByGroups(h);
    NumOfFour(p);
    ThreeDigitLiterals();
    ThreeDigitSpelling(p[0], 127);
    ThreeDigitSpelling(p[0], 169);
    ThreeDigitSpelling(p[1], 254);
    LoopbackByOctets(DigitsValue(p[0]), DigitsValue(p[1]), DigitsValue(p[2]), DigitsValue(p[3]));
  }

  predicate InSomeBlock(h: string, cidrs: seq<string>) { exists i :: 0 <= i < |cidrs| && IpInCidr(h, cidrs[i]) }

  /**
   With a policy, a text is allowed exactly if it is an IPv4 address in one of its blocks, outside the loopback and
   link-local blocks, and not spelled "0.0.0.0". No host name and no IPv6 address is.
   */
  lemma PolicyAllowsIff(host: string, cidrs: seq<string>)
    requires cidrs != []
    ensures var h := StripHost(host);
            IsReLearnHostAllowed(host, cidrs)
            <==> && DottedQuad(h) && InSomeBlock(h, cidrs)
                 && !LoopbackOrLinkLocal(Ipv4ToNum(h).value) && h != "0.0.0.0"
  {
    var h := StripHost(host);
    if DottedQuad(h) {
      NeverAllowedIff(h);
    }
  }

  /**
   The source forbids the unspecified address always. Under a policy, a spelling of it is allowed exactly if it is
   not the usual one and some block of the policy contains the address.
   */
  lemma UnspecifiedAllowedIff(host: string, cidrs: seq<string>)
    requires cidrs != [] && Ipv4ToNum(StripHost(host)) == Some(0)
    ensures IsReLearnHostAllowed(host, cidrs) <==> StripHost(host) != "0.0.0.0" && InSomeBlock(StripHost(host), cidrs)
  {
    PolicyAllowsIff(host, cidrs);
    ZeroIsOutside(Ipv4ToNum(StripHost(host)).value, 0);
  }

  lemma ZeroIsOutside(x: nat, octet: nat)
    requires x == 0 && octet == 0
    ensures !LoopbackOrLinkLocal(x)
  {
    LoopbackByOctets(octet, octet, octet, octet);
    assert QuadNum(octet, octet, octet, octet) == x;
  }

  // ---------------------------------------------------------------- the three ways to disagree

  lemma SmallValues()
    ensures Octet("1") && Octet("10") && Octet("010") && OctetText("999") && !Octet("999")
    ensures DigitsValue("10") == 10 && DigitsValue("010") == 10 && DigitsValue("1") == 1
  {
    assert DigitsValue("1"[..0]) == 0;
    TwoDigits("10");
    TwoDigits("01");
    TwoDigits("99");
    assert "010"[..2] == "01" && "999"[..2] == "99";
  }

  lemma FourOf(u: string, v: string)
    requires OctetText(u) && OctetText(v)
    ensures var h := u + "." + (v + "." + ("1" + "." + "1"));
            LooksLikeIpv4(h) && StripHost(h) == h && Split(h, '.') == [u, v, "1", "1"]
  {
    var h := u + "." + (v + "." + ("1" + "." + "1"));
    DigitsHaveNoDot(u);
    DigitsHaveNoDot(v);
    SplitFour(u, v, "1", "1");
    assert h[|h| - 1] == '1' && h[0] == u[0];
    StripNothing(h);
  }

  lemma OnesAreOctets(u: string, v: string, one: string)
    requires Octet(u) && v == one == "1" && DigitsValue(one) == 1 && Octet(one)
    ensures var h := u + "." + (v + "." + (one + "." + one)); Split(h, '.') == [u, v, one, one] ==> DottedQuad(h)
  {
  }

  /** An address of 10.0.0.0/8 whose first group is padded with a zero is refused. */
  lemma PaddedTenIsRefused(u: string)
    requires OctetText(u) && DigitsValue(u) == 10 && u != "10"
    ensures var h := u + "." + ("1" + "." + ("1" + "." + "1")); PrivateAddress(h) && !IsReLearnHostAllowed(h, [])
  {
    var v := "1";
    var h := u + "." + (v + "." + (v + "." + v));
    SmallValues();
    FourOf(u, v);
    OnesAreOctets(u, v, v);
    AllowedByGroups(h);
    PrivateAddressIff(h);
  }

  lemma LeadingZeroIsRefused()
    ensures PrivateAddress("010.1.1.1") && !IsReLearnHostAllowed("010.1.1.1", [])
  {
    SmallValues();
    PaddedTenIsRefused("010");
    assert "010" + "." + ("1" + "." + ("1" + "." + "1")) == "010.1.1.1";
  }

  /** A text with a second group above 255 is no address, and is allowed behind "10.". */
  lemma OutOfRangeIsAllowed(v: string)
    requires OctetText(v) && DigitsValue(v) > 255
    ensures var h := "10" + "." + (v + "." + ("1" + "." + "1"));
            Ipv4ToNum(h).None? && IsReLearnHostAllowed(h, [])
  {
    var u := "10";
    var h := u + "." + (v + "." + ("1" + "." + "1"));
    SmallValues();
    FourOf(u, v);
    AllowedByGroups(h);
    assert !Octet(Split(h, '.')[1]);
  }

  lemma GroupOf999IsAllowed()
    ensures Ipv4ToNum("10.999.1.1").None? && IsReLearnHostAllowed("10.999.1.1", [])
  {
    SmallValues();
    OutOfRangeIsAllowed("999");
    assert "10" + "." + ("999" + "." + ("1" + "." + "1")) == "10.999.1.1";
  }

  /** Any text behind "10." is allowed if it has a colon: a host name with a port, for example. */
  lemma HostNameIsAllowed(rest: string)
    requires ':' in rest && rest[|rest| - 1] != ']'
    ensures !IpLiteral("10." + rest) && IsReLearnHostAllowed("10." + rest, [])
  {
    var h := "10." + rest;
    assert h[|h| - 1] == rest[|rest| - 1];
    StripNothing(h);
    StartsWithItself("10.", rest);
    assert exists i :: 0 <= i < |rest| && rest[i] == ':';
    assert ':' in h;
    PrivatePrefixIsNoHex(h);
    ColonIsNoQuad(h);
    OtherTextAllowedIff(h);
    assert !Ipv6Literal(h) by {
      if Ipv6Literal(h) {
        Ipv6Head(h);
      }
    }
  }

  /** Any text behind "fd00:" is allowed; it is no address if it has a character that addresses do not have. */
  lemma UlaNameIsAllowed(rest: string)
    requires rest != "" && rest[|rest| - 1] != ']'
    ensures IsReLearnHostAllowed("fd00:" + rest, [])
    ensures !AddressChars(rest) ==> !IpLiteral("fd00:" + rest)
  {
    var h := "fd00:" + rest;
    UlaStart(h);
    StripPlain(h);
    ColonIsNoQuad(h);
    OtherTextAllowedIff(h);
    if !AddressChars(rest) {
      var k :| 0 <= k < |rest| && !AddressChar(rest[k]);
      assert h[k + 5] == rest[k] && !AddressChars(h);
      assert !IpLiteral(h) by {
        if IpLiteral(h) {
          LiteralChars(h);
        }
      }
    }
  }

  lemma StripPlain(h: string)
    requires h != "" && h[0] != ':' && h[0] != '[' && h[|h| - 1] != ']'
    ensures StripHost(h) == h
  {
    if |h| >= 7 { assert ToLower(h[..7])[0] == LowerChar(h[0]); }
  }

  /** A host as such: no brackets, and not mapped. */
  predicate Bare(h: string) { h != "" && h[0] != ':' && h[0] != '[' && h[|h| - 1] != ']' }

  lemma StripBrackets(h: string)
    requires Bare(h)
    ensures var b := "[" + h + "]"; StripHost(b) == h && b[0] == '['
  {
    var b := "[" + h + "]";
    assert b[1..] == h + "]" && (h + "]")[..|h|] == h;
    assert |b| >= 7 ==> ToLower(b[..7])[0] == '[';
  }

  lemma StripMapped(mapped: string, rest: string)
    requires ToLower(mapped) == "::ffff:" && rest != "" && rest[0] != ':'
    ensures StripHost(mapped + rest) == StripHost(rest)
  {
    assert (mapped + rest)[..7] == mapped && (mapped + rest)[7..] == rest;
    assert |rest| >= 7 ==> ToLower(rest[..7])[0] == LowerChar(rest[0]);
  }

  /** The forms in which a host is given: plain, IPv4 mapped into IPv6 in any case, in brackets, or both. */
  lemma StripForms(h: string, mapped: string)
    requires Bare(h) && ToLower(mapped) == "::ffff:"
    ensures StripHost(h) == h
    ensures StripHost(mapped + h) == h
    ensures StripHost("[" + h + "]") == h
    ensures StripHost(mapped + ("[" + h + "]")) == h
  {
    StripPlain(h);
    StripMapped(mapped, h);
    StripBrackets(h);
    StripMapped(mapped, "[" + h + "]");
  }

  lemma UlaStart(h: string)
    requires StartsWith(h, "fd00:")
    ensures h[0] == 'f' && ':' in h && UlaGroup(Split(h, ':')[0])
  {
    assert h[..5][0] == 'f' && h[..5][1] == 'd' && h[..5][2] == '0' && h[..5][3] == '0' && h[..5][4] == ':';
    UlaIff(h);
  }

  lemma ZeroZero()
    ensures Octet("00") && DigitsValue("00") == 0 && Octet("0") && DigitsValue("0") == 0
  {
    TwoDigits("00");
    assert DigitsValue("0"[..0]) == 0;
  }

  lemma PaddedZeroParses(u: string, v: string)
    requires (u == "00" || u == "0") && v == "0"
    ensures var h := u + "." + (v + "." + (v + "." + v)); Ipv4ToNum(h) == Some(0) && StripHost(h) == h
  {
    var h := u + "." + (v + "." + (v + "." + v));
    ZeroZero();
    SplitFour(u, v, v, v);
    NumOfFour([u, v, v, v]);
    assert h[0] == u[0] == '0' && h[|h| - 1] == '0';
    StripNothing(h);
  }

  /** Every address is in a block of prefix length 0. */
  lemma InTheWholeSpace(h: string, base: string)
    requires DottedQuad(h) && DottedQuad(base) && '/' !in base && base != ""
    ensures IpInCidr(h, base + "/" + "0")
  {
    SplitNone("0", '/');
    SplitFirst(base, "0", '/');
    ZeroZero();
  }

  /** "00.0.0.0" is the unspecified address, and is allowed under a policy for all addresses. */
  lemma PaddedUnspecifiedIsAllowed()
    ensures Ipv4ToNum("00.0.0.0") == Some(0) && IsReLearnHostAllowed("00.0.0.0", ["0.0.0.0/0"])
  {
    var h, base := "00.0.0.0", "0.0.0.0";
    ZeroSpellings();
    InTheWholeSpace(h, base);
    assert base + "/" + "0" == "0.0.0.0/0";
    assert h[1] == '0' && base[1] == '.';
    UnspecifiedAllowedIff(h, ["0.0.0.0/0"]);
    assert IpInCidr(h, ["0.0.0.0/0"][0]);
  }

  lemma ZeroSpellings()
    ensures Ipv4ToNum("00.0.0.0") == Some(0) && StripHost("00.0.0.0") == "00.0.0.0" && DottedQuad("0.0.0.0")
  {
    PaddedZeroParses("00", "0");
    PaddedZeroParses("0", "0");
    assert "00" + "." + ("0" + "." + ("0" + "." + "0")) == "00.0.0.0";
    assert "0" + "." + ("0" + "." + ("0" + "." + "0")) == "0.0.0.0";
  }
}
