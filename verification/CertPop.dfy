/**
 The proof-of-possession scope of a certificate request: its byte encoding and its verification
 (cert-pop.ts), and the client that signs it (cert-request.ts). Strings appear as their UTF-8 bytes;
 hashes, keys and signatures are uninterpreted.
 */
module CertPop {
  import opened Prelude

  function Ascii(s: string): Bytes
    requires forall i :: 0 <= i < |s| ==> s[i] as int < 128
  {
    seq(|s|, i requires 0 <= i < |s| => s[i] as int)
  }

  const DOMAIN: Bytes := Ascii("thinklocal-mcp.cert-pop.v1")
  const NODE_URI_PREFIX: Bytes := Ascii("spiffe://thinklocal/node/")

  const TWO_32 := 0x1_0000_0000

  datatype Fields = Fields(caFingerprint: Bytes, nonce: Bytes, peerId: Bytes, spiffeUri: Bytes, csrKeyHash: Bytes)

  // ---------------------------------------------------------------- the encoder

  /** The low `width` base-256 digits of `n`, most significant first; what does not fit is cut off. */
  function BigEndian(n: nat, width: nat): (r: Bytes)
    ensures |r| == width
  {
    if width == 0 then [] else BigEndian(n / 256, width - 1) + [n % 256]
  }

  function ReadBigEndian(b: Bytes): nat {
    if b == [] then 0 else ReadBigEndian(b[..|b| - 1]) * 256 + b[|b| - 1]
  }

  function Capacity(width: nat): nat { if width == 0 then 1 else 256 * Capacity(width - 1) }

  lemma {:induction false} BigEndianRoundTrip(n: nat, width: nat)
    requires n < Capacity(width)
    ensures ReadBigEndian(BigEndian(n, width)) == n
  {
    if width != 0 {
      BigEndianRoundTrip(n / 256, width - 1);
      var b := BigEndian(n, width);
      assert b[..width - 1] == BigEndian(n / 256, width - 1);
    }
  }

  lemma {:induction false} BigEndianCanonical(b: Bytes)
    ensures BigEndian(ReadBigEndian(b), |b|) == b
  {
    if b != [] {
      var front, last := b[..|b| - 1], b[|b| - 1];
      BigEndianCanonical(front);
      var n := ReadBigEndian(b);
      assert n / 256 == ReadBigEndian(front) && n % 256 == last;
      assert front + [last] == b;
    }
  }

  /** `setUint32(0, n, false)`: four bytes, most significant first; larger numbers wrap. */
  function BigEndian32(n: nat): Bytes { BigEndian(n, 4) }

  lemma BigEndian32RoundTrip(n: nat)
    requires n < TWO_32
    ensures ReadBigEndian(BigEndian32(n)) == n
  {
    assert Capacity(4) == TWO_32;
    BigEndianRoundTrip(n, 4);
  }

  /** A field as it appears in the message: its length, then its bytes. */
  function Prefixed(b: Bytes): Bytes { BigEndian32(|b|) + b }

  function EncodeAll(fs: seq<Bytes>): Bytes {
    if fs == [] then [] else Prefixed(fs[0]) + EncodeAll(fs[1..])
  }

  /** The fields of a message in the order they are written, the domain separator first. */
  function Scope(f: Fields): seq<Bytes> {
    [DOMAIN, f.caFingerprint, f.nonce, f.peerId, f.spiffeUri, f.csrKeyHash]
  }

  /** The bytes that are signed. */
  function Message(f: Fields): Bytes { EncodeAll(Scope(f)) }

  lemma BigEndianStep(n: nat, width: nat)
    requires width > 0
    ensures BigEndian(n, width) == BigEndian(n / 256, width - 1) + [n % 256]
  {
  }

  /** The length stands in four bytes, the most significant one first. */
  lemma LengthBytes(n: nat)
    ensures BigEndian32(n) == [n / 256 / 256 / 256 % 256, n / 256 / 256 % 256, n / 256 % 256, n % 256]
  {
    BigEndianStep(n, 4);
    BigEndianStep(n / 256, 3);
    BigEndianStep(n / 256 / 256, 2);
    BigEndianStep(n / 256 / 256 / 256, 1);
    assert BigEndian(n / 256 / 256 / 256 / 256, 0) == [];
  }

  lemma EncodeStep(b: Bytes, fs: seq<Bytes>)
    ensures EncodeAll([b] + fs) == BigEndian32(|b|) + b + EncodeAll(fs)
  {
    assert ([b] + fs)[1..] == fs;
  }

  /** The layout of the message: separator, CA, nonce, PeerID, URI and key hash, each behind its length. */
  lemma MessageLayout(f: Fields)
    ensures var tail1 := BigEndian32(|f.csrKeyHash|) + f.csrKeyHash + [];
            var tail2 := BigEndian32(|f.spiffeUri|) + f.spiffeUri + tail1;
            var tail3 := BigEndian32(|f.peerId|) + f.peerId + tail2;
            var tail4 := BigEndian32(|f.nonce|) + f.nonce + tail3;
            var tail5 := BigEndian32(|f.caFingerprint|) + f.caFingerprint + tail4;
            Message(f) == BigEndian32(|DOMAIN|) + DOMAIN + tail5
  {
    var f1 := [f.csrKeyHash];
    var f2, f3 := [f.spiffeUri] + f1, [f.peerId] + ([f.spiffeUri] + f1);
    var f4 := [f.nonce] + f3;
    var f5 := [f.caFingerprint] + f4;
    assert f1 == [f.csrKeyHash] + [] && Scope(f) == [DOMAIN] + f5;
    EncodeStep(f.csrKeyHash, []);
    EncodeStep(f.spiffeUri, f1);
    EncodeStep(f.peerId, f2);
    EncodeStep(f.nonce, f3);
    EncodeStep(f.caFingerprint, f4);
    EncodeStep(DOMAIN, f5);
  }

  function Flatten(parts: seq<Bytes>): Bytes {
    if parts == [] then [] else Flatten(parts[..|parts| - 1]) + parts[|parts| - 1]
  }

  function TotalLength(parts: seq<Bytes>): nat {
    if parts == [] then 0 else TotalLength(parts[..|parts| - 1]) + |parts[|parts| - 1]|
  }

  lemma {:induction false} FlattenLength(parts: seq<Bytes>)
    ensures |Flatten(parts)| == TotalLength(parts)
  {
    if parts != [] {
      FlattenLength(parts[..|parts| - 1]);
    }
  }

  lemma {:induction false} TotalLengthMonotone(parts: seq<Bytes>, k: nat)
    requires k <= |parts|
    ensures TotalLength(parts[..k]) <= TotalLength(parts)
  {
    if k == |parts| {
      assert parts[..k] == parts;
    } else {
      assert parts[..|parts| - 1][..k] == parts[..k];
      TotalLengthMonotone(parts[..|parts| - 1], k);
    }
  }

  lemma FlattenPush(parts: seq<Bytes>, b: Bytes)
    ensures Flatten(parts + [BigEndian32(|b|), b]) == Flatten(parts) + Prefixed(b)
  {
    var more := parts + [BigEndian32(|b|), b];
    var one := more[..|more| - 1];
    assert one[..|one| - 1] == parts;
    assert Flatten(one) == Flatten(parts) + BigEndian32(|b|);
  }

  lemma {:induction false} EncodeAllAppend(fs: seq<Bytes>, b: Bytes)
    ensures EncodeAll(fs + [b]) == EncodeAll(fs) + Prefixed(b)
  {
    if fs == [] {
      assert EncodeAll([b][1..]) == [];
      assert fs + [b] == [b];
    } else {
      EncodeAllAppend(fs[1..], b);
      assert (fs + [b])[1..] == fs[1..] + [b];
    }
  }

  /** `pushField`: appends a length and the field to the parts collected so far. */
  method PushField(parts: seq<Bytes>, ghost done: seq<Bytes>, b: Bytes) returns (parts': seq<Bytes>)
    requires Flatten(parts) == EncodeAll(done)
    ensures parts' == parts + [BigEndian32(|b|), b]
    ensures Flatten(parts') == EncodeAll(done + [b])
  {
    parts' := parts + [BigEndian32(|b|), b];
    FlattenPush(parts, b);
    EncodeAllAppend(done, b);
  }

  /** `buildCertPopMessage`: collects the parts, adds up their lengths and copies them into one buffer. */
  method BuildCertPopMessage(f: Fields) returns (out: array<Byte>)
    ensures out[..] == Message(f)
  {
    var parts := PushField([], [], DOMAIN);
    ghost var done := [] + [DOMAIN];
    parts := PushField(parts, done, f.caFingerprint);
    done := done + [f.caFingerprint];
    parts := PushField(parts, done, f.nonce);
    done := done + [f.nonce];
    parts := PushField(parts, done, f.peerId);
    done := done + [f.peerId];
    parts := PushField(parts, done, f.spiffeUri);
    done := done + [f.spiffeUri];
    parts := PushField(parts, done, f.csrKeyHash);
    assert done + [f.csrKeyHash] == Scope(f);
    out := Concatenate(parts);
  }

  /** `out.set(p, off)`. */
  method SetAt(out: array<Byte>, p: Bytes, off: nat)
    requires off + |p| <= out.Length
    modifies out
    ensures out[..off + |p|] == old(out[..off]) + p
    ensures out[off + |p|..] == old(out[off + |p|..])
  {
    forall i | 0 <= i < |p| {
      out[off + i] := p[i];
    }
  }

  /** The buffer-filling loop: the output is filled exactly, without gap or overrun. */
  method Concatenate(parts: seq<Bytes>) returns (out: array<Byte>)
    ensures out[..] == Flatten(parts)
  {
    var total := 0;
    for k := 0 to |parts|
      invariant total == TotalLength(parts[..k])
    {
      assert parts[..k + 1][..k] == parts[..k];
      total := total + |parts[k]|;
    }
    assert parts[..|parts|] == parts;
    out := new Byte[total];
    var off := 0;
    for k := 0 to |parts|
      invariant off == TotalLength(parts[..k]) <= out.Length
      invariant out[..off] == Flatten(parts[..k])
    {
      assert parts[..k + 1][..k] == parts[..k];
      TotalLengthMonotone(parts, k + 1);
      SetAt(out, parts[k], off);
      off := off + |parts[k]|;
    }
    assert out[..] == out[..off];
  }

  // ---------------------------------------------------------------- unique decodability

  /** Reads `n` length-prefixed fields; fails unless they use up the input exactly. */
  function DecodeAll(n: nat, b: Bytes): Option<seq<Bytes>> {
    if n == 0 then (if b == [] then Some([]) else None)
    else if |b| < 4 then None
    else
      var len := ReadBigEndian(b[..4]);
      if |b| < 4 + len then None
      else
        match DecodeAll(n - 1, b[4 + len..])
        case None => None
        case Some(rest) => Some([b[4..4 + len]] + rest)
  }

  predicate Short(fs: seq<Bytes>) { forall i :: 0 <= i < |fs| ==> |fs[i]| < TWO_32 }

  /** Decoding gives back every field that was encoded. */
  lemma {:induction false} DecodeEncode(fs: seq<Bytes>)
    requires Short(fs)
    ensures DecodeAll(|fs|, EncodeAll(fs)) == Some(fs)
  {
    if fs != [] {
      var b := EncodeAll(fs);
      var len := |fs[0]|;
      assert b[..4] == BigEndian32(len);
      BigEndian32RoundTrip(len);
      assert b[4..4 + len] == fs[0];
      assert b[4 + len..] == EncodeAll(fs[1..]);
      DecodeEncode(fs[1..]);
      assert [fs[0]] + fs[1..] == fs;
    }
  }

  /** A length that was read, the field it announces and the rest make up the input. */
  lemma FieldSplits(b: Bytes)
    requires |b| >= 4 && |b| >= 4 + ReadBigEndian(b[..4])
    ensures var end := 4 + ReadBigEndian(b[..4]); Prefixed(b[4..end]) + b[end..] == b
  {
    BigEndianCanonical(b[..4]);
  }

  /** Every byte string the decoder accepts is the encoding of what it returns: there is no second spelling. */
  lemma {:induction false} EncodeDecode(n: nat, b: Bytes)
    requires DecodeAll(n, b).Some?
    ensures |DecodeAll(n, b).value| == n && EncodeAll(DecodeAll(n, b).value) == b
  {
    if n != 0 {
      var end := 4 + ReadBigEndian(b[..4]);
      EncodeDecode(n - 1, b[end..]);
      var rest := DecodeAll(n - 1, b[end..]).value;
      assert ([b[4..end]] + rest)[1..] == rest;
      FieldSplits(b);
    }
  }

  predicate ShortFields(f: Fields) { Short(Scope(f)) }

  /** Two scopes with the same message are the same scope. */
  lemma MessageInjective(f: Fields, g: Fields)
    requires ShortFields(f) && ShortFields(g) && Message(f) == Message(g)
    ensures f == g
  {
    DecodeEncode(Scope(f));
    DecodeEncode(Scope(g));
    assert Scope(f)[1] == Scope(g)[1] && Scope(f)[2] == Scope(g)[2] && Scope(f)[3] == Scope(g)[3];
    assert Scope(f)[4] == Scope(g)[4] && Scope(f)[5] == Scope(g)[5];
  }

  // ---------------------------------------------------------------- verification

  datatype KeyKind = Ed25519 | OtherKind | Unparsable

  /** The libp2p key functions. `verify` gives `None` when it throws. */
  datatype Crypto = Crypto(
    kind: Bytes -> KeyKind,
    peerId: Bytes -> Bytes,
    verify: (Bytes, Bytes, Bytes) -> Option<bool>)

  datatype Verdict = Accepted | WrongKeyType | WrongPeerId | WrongUri | WrongCa | BadSignature | Failed

  function NodeUri(peerId: Bytes): Bytes { NODE_URI_PREFIX + peerId }

  /** Drops colons and raises letters, so that differently printed fingerprints compare equal. */
  function NormalizeFingerprint(b: Bytes): Bytes {
    if b == [] then []
    else (if b[0] == 58 then [] else [if 97 <= b[0] <= 122 then b[0] - 32 else b[0]]) + NormalizeFingerprint(b[1..])
  }

  function VerifyCertPop(c: Crypto, publicKey: Bytes, f: Fields, signature: Bytes, expectedCa: Bytes): Verdict {
    if c.kind(publicKey).Unparsable? then Failed
    else if !c.kind(publicKey).Ed25519? then WrongKeyType
    else if c.peerId(publicKey) != f.peerId then WrongPeerId
    else if f.spiffeUri != NodeUri(c.peerId(publicKey)) then WrongUri
    else if NormalizeFingerprint(f.caFingerprint) != NormalizeFingerprint(expectedCa) then WrongCa
    else
      match c.verify(publicKey, Message(f), signature)
      case None => Failed
      case Some(valid) => if valid then Accepted else BadSignature
  }

  /** The byte for a letter in the other case, if it is one. */
  function Upper(x: Byte): Byte { if 97 <= x <= 122 then x - 32 else x }

  /** Two fingerprints that differ in the case of letters and in colons only. */
  ghost predicate SameDigits(a: Bytes, b: Bytes)
    decreases |a| + |b|
  {
    || (a == [] && b == [])
    || (a != [] && a[0] == 58 && SameDigits(a[1..], b))
    || (b != [] && b[0] == 58 && SameDigits(a, b[1..]))
    || (a != [] && b != [] && a[0] != 58 && b[0] != 58 && Upper(a[0]) == Upper(b[0]) && SameDigits(a[1..], b[1..]))
  }

  /** Fingerprints compare equal exactly if they differ in the case of letters and in colons only. */
  lemma {:induction false} FingerprintsCompareByDigits(a: Bytes, b: Bytes)
    ensures NormalizeFingerprint(a) == NormalizeFingerprint(b) <==> SameDigits(a, b)
    decreases |a| + |b|
  {
    if a != [] && a[0] == 58 {
      FingerprintsCompareByDigits(a[1..], b);
      if b != [] && b[0] == 58 {
        FingerprintsCompareByDigits(a, b[1..]);
      }
    } else if b != [] && b[0] == 58 {
      FingerprintsCompareByDigits(a, b[1..]);
    } else if a != [] && b != [] {
      FingerprintsCompareByDigits(a[1..], b[1..]);
      HeadAndTail(a);
      HeadAndTail(b);
    }
  }

  lemma HeadAndTail(a: Bytes)
    requires a != [] && a[0] != 58
    ensures var n := NormalizeFingerprint(a);
            n != [] && n[0] == Upper(a[0]) && n[1..] == NormalizeFingerprint(a[1..]) && n == [n[0]] + n[1..]
  {
  }

  /** When a proof is accepted, in terms of the key functions alone. */
  lemma AcceptedIff(c: Crypto, publicKey: Bytes, f: Fields, signature: Bytes, expectedCa: Bytes)
    ensures VerifyCertPop(c, publicKey, f, signature, expectedCa) == Accepted
            <==> && c.kind(publicKey) == Ed25519 && f.peerId == c.peerId(publicKey)
                 && f.spiffeUri == NODE_URI_PREFIX + f.peerId && SameDigits(f.caFingerprint, expectedCa)
                 && c.verify(publicKey, Message(f), signature) == Some(true)
  {
    FingerprintsCompareByDigits(f.caFingerprint, expectedCa);
  }

  /** Why a proof is refused: the first of the checks that fails. */
  lemma RefusedIff(c: Crypto, publicKey: Bytes, f: Fields, signature: Bytes, expectedCa: Bytes)
    ensures var v := VerifyCertPop(c, publicKey, f, signature, expectedCa);
            var id := c.peerId(publicKey);
            var checked := c.verify(publicKey, Message(f), signature);
            && (v == WrongKeyType <==> c.kind(publicKey) == OtherKind)
            && (v == WrongPeerId <==> c.kind(publicKey) == Ed25519 && f.peerId != id)
            && (v == WrongUri <==>
                  c.kind(publicKey) == Ed25519 && f.peerId == id && f.spiffeUri != NODE_URI_PREFIX + id)
            && (v == WrongCa <==>
                  && c.kind(publicKey) == Ed25519 && f.peerId == id && f.spiffeUri == NODE_URI_PREFIX + id
                  && !SameDigits(f.caFingerprint, expectedCa))
            && (v == BadSignature <==>
                  && c.kind(publicKey) == Ed25519 && f.peerId == id && f.spiffeUri == NODE_URI_PREFIX + id
                  && SameDigits(f.caFingerprint, expectedCa) && checked == Some(false))
            && (v == Failed <==>
                  || c.kind(publicKey) == Unparsable
                  || (c.kind(publicKey) == Ed25519 && f.peerId == id && f.spiffeUri == NODE_URI_PREFIX + id
                      && SameDigits(f.caFingerprint, expectedCa) && checked.None?))
  {
    FingerprintsCompareByDigits(f.caFingerprint, expectedCa);
  }

  /** Who signed what: `signs(publicKey, message)`. A signature only verifies for a message that was signed. */
  ghost predicate Unforgeable(c: Crypto, signs: (Bytes, Bytes) -> bool) {
    forall pk, m, sig :: c.verify(pk, m, sig) == Some(true) ==> signs(pk, m)
  }

  /** The key holder signs nothing but proof-of-possession scopes that it approved. */
  ghost predicate SignsOnly(signs: (Bytes, Bytes) -> bool, publicKey: Bytes, approved: iset<Fields>) {
    forall m :: signs(publicKey, m) ==> exists g :: g in approved && ShortFields(g) && Message(g) == m
  }

  /**
   An accepted proof is for a scope the key holder approved: the CA, the nonce, the PeerID, the URI and
   the hash of the certified key are all the ones it had in mind.
   */
  lemma AcceptedMeansApproved(c: Crypto, publicKey: Bytes, f: Fields, signature: Bytes, expectedCa: Bytes,
                              signs: (Bytes, Bytes) -> bool, approved: iset<Fields>)
    requires ShortFields(f)
    requires Unforgeable(c, signs) && SignsOnly(signs, publicKey, approved)
    requires VerifyCertPop(c, publicKey, f, signature, expectedCa) == Accepted
    ensures f in approved && f.peerId == c.peerId(publicKey) && f.spiffeUri == NodeUri(f.peerId)
  {
    assert signs(publicKey, Message(f));
    var g :| g in approved && ShortFields(g) && Message(g) == Message(f);
    MessageInjective(f, g);
  }

  // ---------------------------------------------------------------- the client

  datatype Request = Request(peerId: Bytes, publicKey: Bytes, spiffeUri: Bytes, nonce: Bytes, csr: Bytes,
      signature: Bytes)

  /** What the client signs (`buildCertSignRequest`). */
  function ClientScope(peerId: Bytes, caFingerprint: Bytes, nonce: Bytes, csrKeyHash: Bytes): Fields {
    Fields(caFingerprint, nonce, peerId, NodeUri(peerId), csrKeyHash)
  }

  /** The request the client sends; `sign` is the private key's signing function. */
  function BuildCertSignRequest(sign: Bytes -> Bytes, publicKey: Bytes, peerId: Bytes, caFingerprint: Bytes,
                                nonce: Bytes, csr: Bytes, csrKeyHash: Bytes): Request
  {
    Request(peerId, publicKey, NodeUri(peerId), nonce, csr,
            sign(Message(ClientScope(peerId, caFingerprint, nonce, csrKeyHash))))
  }
}
