/**
 The issuing side of the certificate protocol (cert-issuer.ts): a store of single-use nonces with a
 time to live, garbage collection and a capacity, and the chain of checks that ends in a certificate.
 Clock readings and fresh random nonces are parameters.
 */
module CertIssuer {
  import opened Prelude
  import opened CertPop

  /** nonce -> the last moment at which it may be consumed. */
  type Store = map<Bytes, int>

  datatype Limits = Limits(ttl: int, maxEntries: int)

  function Collect(st: Store, t: int): Store { map n | n in st && t <= st[n] :: st[n] }

  function IssueNonce(l: Limits, st: Store, tGc: int, t: int, nonce: Bytes): (Store, bool) {
    var kept := Collect(st, tGc);
    if |kept| >= l.maxEntries then (kept, false) else (kept[nonce := t + l.ttl], true)
  }

  function ConsumeNonce(st: Store, t: int, nonce: Bytes): (Store, bool) {
    if nonce !in st then (st, false) else (st - {nonce}, t <= st[nonce])
  }

  class NonceStore {
    var nonces: Store
    const limits: Limits

    constructor (limits: Limits)
      ensures nonces == map[] && this.limits == limits
    {
      nonces := map[];
      this.limits := limits;
    }

    /** Walks over the entries and deletes the expired ones. */
    method Gc(t: int)
      modifies this
      ensures nonces == Collect(old(nonces), t)
    {
      var todo := nonces.Keys;
      while todo != {}
        invariant todo <= nonces.Keys <= old(nonces).Keys
        invariant forall n :: n in nonces ==> nonces[n] == old(nonces)[n]
        invariant forall n :: n in old(nonces) && n !in todo ==> (n in nonces <==> t <= old(nonces)[n])
        decreases todo
      {
        var n :| n in todo;
        if t > nonces[n] {
          nonces := nonces - {n};
        }
        todo := todo - {n};
      }
    }

    method Issue(tGc: int, t: int, random: Bytes) returns (ok: bool)
      modifies this
      ensures (nonces, ok) == IssueNonce(limits, old(nonces), tGc, t, random)
    {
      Gc(tGc);
      if |nonces| >= limits.maxEntries {
        return false;
      }
      nonces := nonces[random := t + limits.ttl];
      return true;
    }

    method Consume(t: int, nonce: Bytes) returns (ok: bool)
      modifies this
      ensures (nonces, ok) == ConsumeNonce(old(nonces), t, nonce)
    {
      if nonce !in nonces {
        return false;
      }
      var expiresAt := nonces[nonce];
      nonces := nonces - {nonce};
      return t <= expiresAt;
    }
  }

  // ---------------------------------------------------------------- issuing a certificate

  /** A certification request: unparsable, badly self-signed, or carrying a public key. */
  datatype Csr = Unparsable | BadSelfSignature | Carries(publicKey: Bytes)

  datatype Issuer = Issuer(
    limits: Limits,
    caFingerprint: Bytes,
    crypto: Crypto,
    parseCsr: Bytes -> Csr,
    keyHash: Bytes -> Bytes,
    canSign: (Bytes, Bytes) -> bool)

  datatype Certificate = Certificate(spiffeUri: Bytes, publicKey: Bytes)

  datatype Result = Issued(cert: Certificate) | NonceRefused | CsrRefused | KeyLengthRefused
      | PopRefused(v: Verdict) | SigningFailed

  /** The scope the issuer rebuilds from a request: its own CA, and the hash of the key in the CSR. */
  function IssuerScope(iss: Issuer, req: Request, csrKey: Bytes): Fields {
    Fields(iss.caFingerprint, req.nonce, req.peerId, req.spiffeUri, iss.keyHash(csrKey))
  }

  /** The checks after the nonce has been consumed. */
  function Certify(iss: Issuer, req: Request): Result {
    match iss.parseCsr(req.csr)
    case Unparsable => CsrRefused
    case BadSelfSignature => CsrRefused
    case Carries(csrKey) =>
      if |req.publicKey| != 32 then KeyLengthRefused
      else
        var v := VerifyCertPop(iss.crypto, req.publicKey, IssuerScope(iss, req, csrKey), req.signature,
            iss.caFingerprint);
        if v != Accepted then PopRefused(v)
        else if !iss.canSign(req.csr, req.spiffeUri) then SigningFailed
        else Issued(Certificate(req.spiffeUri, csrKey))
  }

  function VerifyAndIssue(iss: Issuer, st: Store, t: int, req: Request): (Store, Result) {
    var (st', ok) := ConsumeNonce(st, t, req.nonce);
    (st', if ok then Certify(iss, req) else NonceRefused)
  }

  /** `CertIssuer.verifyAndIssue`: every attempt uses up its nonce, whatever the later checks say. */
  method SignRequest(iss: Issuer, store: NonceStore, t: int, req: Request) returns (r: Result)
    modifies store
    ensures (store.nonces, r) == VerifyAndIssue(iss, old(store.nonces), t, req)
    ensures req.nonce !in store.nonces
  {
    var ok := store.Consume(t, req.nonce);
    if !ok {
      return NonceRefused;
    }
    return Certify(iss, req);
  }

  // ---------------------------------------------------------------- runs

  datatype Op = Issue(tGc: int, t: int, nonce: Bytes) | Sign(t: int, req: Request)

  function Lo(op: Op): int { if op.Issue? then op.tGc else op.t }

  /** The clock never runs backwards. */
  predicate Timely(ops: seq<Op>) {
    && (forall i :: 0 <= i < |ops| ==> Lo(ops[i]) <= ops[i].t)
    && (forall i, j :: 0 <= i < j < |ops| ==> ops[i].t <= Lo(ops[j]))
  }

  /** Random nonces never repeat. */
  predicate FreshNonces(ops: seq<Op>) {
    forall i, j :: 0 <= i < j < |ops| && ops[i].Issue? && ops[j].Issue? ==> ops[i].nonce != ops[j].nonce
  }

  function Next(iss: Issuer, st: Store, op: Op): Store {
    match op
    case Issue(tGc, t, nonce) => IssueNonce(iss.limits, st, tGc, t, nonce).0
    case Sign(t, req) => VerifyAndIssue(iss, st, t, req).0
  }

  function Run(iss: Issuer, ops: seq<Op>): Store {
    if ops == [] then map[] else Next(iss, Run(iss, ops[..|ops| - 1]), ops[|ops| - 1])
  }

  /** Operation `i` handed out a nonce. */
  predicate HandsOut(iss: Issuer, ops: seq<Op>, i: nat)
    requires i < |ops|
  {
    && ops[i].Issue?
    && IssueNonce(iss.limits, Run(iss, ops[..i]), ops[i].tGc, ops[i].t, ops[i].nonce).1
  }

  /** Operation `i` consumed its nonce successfully. */
  predicate Consumes(iss: Issuer, ops: seq<Op>, i: nat)
    requires i < |ops|
  {
    ops[i].Sign? && ConsumeNonce(Run(iss, ops[..i]), ops[i].t, ops[i].req.nonce).1
  }

  function ResultAt(iss: Issuer, ops: seq<Op>, i: nat): Result
    requires i < |ops| && ops[i].Sign?
  {
    VerifyAndIssue(iss, Run(iss, ops[..i]), ops[i].t, ops[i].req).1
  }

  predicate Tries(op: Op, nonce: Bytes) { op.Sign? && op.req.nonce == nonce }

  /** The nonce was handed out by operation `i`, and nobody has tried to use it since. */
  predicate PendingSince(iss: Issuer, ops: seq<Op>, i: nat, nonce: Bytes) {
    && i < |ops| && HandsOut(iss, ops, i) && ops[i].nonce == nonce
    && forall j :: i < j < |ops| ==> !Tries(ops[j], nonce)
  }

  lemma PendingFront(iss: Issuer, ops: seq<Op>, i: nat, nonce: Bytes)
    requires ops != [] && i < |ops| - 1
    ensures PendingSince(iss, ops, i, nonce)
            <==> PendingSince(iss, ops[..|ops| - 1], i, nonce) && !Tries(ops[|ops| - 1], nonce)
  {
    var front := ops[..|ops| - 1];
    assert front[..i] == ops[..i];
    if PendingSince(iss, ops, i, nonce) {
      assert forall j :: i < j < |front| ==> front[j] == ops[j];
    }
  }

  /** Every entry of the store comes from a pending nonce and carries its expiry. */
  lemma {:induction false} StoredIsPending(iss: Issuer, ops: seq<Op>, nonce: Bytes) returns (i: nat)
    requires nonce in Run(iss, ops)
    ensures PendingSince(iss, ops, i, nonce) && Run(iss, ops)[nonce] == ops[i].t + iss.limits.ttl
  {
    var front := ops[..|ops| - 1];
    var last := ops[|ops| - 1];
    if HandsOut(iss, ops, |ops| - 1) && last.nonce == nonce {
      i := |ops| - 1;
    } else {
      i := StoredIsPending(iss, front, nonce);
      PendingFront(iss, ops, i, nonce);
    }
  }

  /** A pending nonce is in the store unless the clock has passed its expiry: collection drops nothing else. */
  lemma {:induction false} PendingIsStored(iss: Issuer, ops: seq<Op>, i: nat, nonce: Bytes)
    requires Timely(ops) && FreshNonces(ops) && PendingSince(iss, ops, i, nonce)
    ensures || (nonce in Run(iss, ops) && Run(iss, ops)[nonce] == ops[i].t + iss.limits.ttl)
            || ops[|ops| - 1].t > ops[i].t + iss.limits.ttl
  {
    if i < |ops| - 1 {
      PendingFront(iss, ops, i, nonce);
      PendingIsStored(iss, ops[..|ops| - 1], i, nonce);
    }
  }

  /** What the source's comments promise of `consume`, in terms of the history alone; no store, no collection. */
  ghost predicate MayConsume(iss: Issuer, ops: seq<Op>, k: nat)
    requires k < |ops| && ops[k].Sign?
  {
    exists i: nat :: PendingSince(iss, ops[..k], i, ops[k].req.nonce) && ops[k].t <= ops[i].t + iss.limits.ttl
  }

  lemma ConsumedMayBe(iss: Issuer, ops: seq<Op>, k: nat)
    requires k < |ops| && Consumes(iss, ops, k)
    ensures MayConsume(iss, ops, k)
  {
    var h := ops[..k];
    var i := StoredIsPending(iss, h, ops[k].req.nonce);
    assert h[i] == ops[i];
  }

  lemma PendingIsConsumed(iss: Issuer, ops: seq<Op>, i: nat, k: nat)
    requires Timely(ops) && FreshNonces(ops) && k < |ops| && ops[k].Sign?
    requires PendingSince(iss, ops[..k], i, ops[k].req.nonce) && ops[k].t <= ops[i].t + iss.limits.ttl
    ensures Consumes(iss, ops, k)
  {
    var h := ops[..k];
    PendingIsStored(iss, h, i, ops[k].req.nonce);
    assert h[i] == ops[i];
  }

  /**
   A nonce is accepted exactly when it was handed out, not yet tried, and is within its time to live.
   Given which nonces were handed out, garbage collection cannot be observed: the right-hand side
   looks at the history, not at the store.
   */
  lemma ConsumeMatchesHistory(iss: Issuer, ops: seq<Op>, k: nat)
    requires Timely(ops) && FreshNonces(ops) && k < |ops| && ops[k].Sign?
    ensures Consumes(iss, ops, k) <==> MayConsume(iss, ops, k)
  {
    if Consumes(iss, ops, k) {
      ConsumedMayBe(iss, ops, k);
    }
    if MayConsume(iss, ops, k) {
      var i: nat :| PendingSince(iss, ops[..k], i, ops[k].req.nonce) && ops[k].t <= ops[i].t + iss.limits.ttl;
      PendingIsConsumed(iss, ops, i, k);
    }
  }

  /** A nonce that is in the store after an attempt to use it was handed out again after that attempt. */
  lemma StoredAfterTry(iss: Issuer, ops: seq<Op>, j: nat, nonce: Bytes) returns (b: nat)
    requires j < |ops| && Tries(ops[j], nonce) && nonce in Run(iss, ops)
    ensures j < b < |ops| && HandsOut(iss, ops, b) && ops[b].nonce == nonce
  {
    b := StoredIsPending(iss, ops, nonce);
  }

  /** Two successful uses of one nonce need two nonces that are the same. */
  lemma SecondUseNeedsRepeat(iss: Issuer, ops: seq<Op>, j: nat, k: nat)
    requires j < |ops| && k < |ops| && Consumes(iss, ops, j) && Consumes(iss, ops, k)
        && ops[j].req.nonce == ops[k].req.nonce
    ensures j < k ==> !FreshNonces(ops)
  {
    if j < k {
      var nonce := ops[k].req.nonce;
      var a := StoredIsPending(iss, ops[..j], nonce);
      var b := StoredAfterTry(iss, ops[..k], j, nonce);
      assert ops[..j][a] == ops[a] && ops[..k][b] == ops[b];
      assert a < b && ops[a].nonce == ops[b].nonce;
    }
  }

  // ---------------------------------------------------------------- when a nonce is handed out

  predicate Untried(ops: seq<Op>, j: nat, i: nat, nonce: Bytes)
    requires i <= |ops|
  {
    forall m :: j < m < i ==> !Tries(ops[m], nonce)
  }

  /** The nonces that wait to be used at operation `i`: handed out, not tried since, and not expired at time `now`. */
  ghost function Waiting(l: Limits, ops: seq<Op>, i: nat, now: int): set<Bytes>
    requires i <= |ops|
    decreases i, 0
  {
    set j: nat | j < i && ops[j].Issue? && HandedOut(l, ops, j) && Untried(ops, j, i, ops[j].nonce)
                 && now <= ops[j].t + l.ttl :: ops[j].nonce
  }

  /** What the source's comments promise of `issue`, in terms of the history alone. */
  ghost predicate HandedOut(l: Limits, ops: seq<Op>, i: nat)
    requires i < |ops|
    decreases i, 1
  {
    ops[i].Issue? && |Waiting(l, ops, i, ops[i].tGc)| < l.maxEntries
  }

  lemma HandsOutLooksBack(iss: Issuer, ops: seq<Op>, i: nat, j: nat)
    requires j < i <= |ops|
    ensures HandsOut(iss, ops[..i], j) <==> HandsOut(iss, ops, j)
  {
    assert ops[..i][..j] == ops[..j];
  }

  lemma CollectedIsWaiting(iss: Issuer, ops: seq<Op>, i: nat, n: Bytes)
    requires i < |ops| && ops[i].Issue? && n in Collect(Run(iss, ops[..i]), ops[i].tGc)
    requires forall j: nat :: j < i ==> (HandsOut(iss, ops, j) <==> HandedOut(iss.limits, ops, j))
    ensures n in Waiting(iss.limits, ops, i, ops[i].tGc)
  {
    var j := StoredIsPending(iss, ops[..i], n);
    PendingIsUntried(iss, ops, i, j, n);
    HandsOutLooksBack(iss, ops, i, j);
    assert ops[..i][j] == ops[j];
  }

  lemma WaitingIsStored(iss: Issuer, ops: seq<Op>, i: nat, j: nat)
    requires Timely(ops) && FreshNonces(ops) && j < i < |ops| && ops[i].Issue? && ops[j].Issue?
    requires HandsOut(iss, ops, j) && Untried(ops, j, i, ops[j].nonce) && ops[i].tGc <= ops[j].t + iss.limits.ttl
    ensures ops[j].nonce in Collect(Run(iss, ops[..i]), ops[i].tGc)
  {
    HandsOutLooksBack(iss, ops, i, j);
    UntriedIsPending(iss, ops, i, j, ops[j].nonce);
    assert ops[i - 1].t <= Lo(ops[i]);
    PendingSurvives(iss, ops[..i], j, ops[j].nonce, ops[i].tGc);
  }

  lemma PendingSurvives(iss: Issuer, h: seq<Op>, j: nat, nonce: Bytes, now: int)
    requires Timely(h) && FreshNonces(h) && PendingSince(iss, h, j, nonce)
    requires h[|h| - 1].t <= now <= h[j].t + iss.limits.ttl
    ensures nonce in Collect(Run(iss, h), now)
  {
    PendingIsStored(iss, h, j, nonce);
  }

  /** What collection leaves are exactly the waiting nonces. */
  lemma CollectedAreWaiting(iss: Issuer, ops: seq<Op>, i: nat)
    requires Timely(ops) && FreshNonces(ops) && i < |ops| && ops[i].Issue?
    requires forall j: nat :: j < i ==> (HandsOut(iss, ops, j) <==> HandedOut(iss.limits, ops, j))
    ensures Collect(Run(iss, ops[..i]), ops[i].tGc).Keys == Waiting(iss.limits, ops, i, ops[i].tGc)
  {
    var kept := Collect(Run(iss, ops[..i]), ops[i].tGc);
    forall n | n in kept
      ensures n in Waiting(iss.limits, ops, i, ops[i].tGc)
    {
      CollectedIsWaiting(iss, ops, i, n);
    }
    forall j: nat | j < i && ops[j].Issue? && HandedOut(iss.limits, ops, j) && Untried(ops, j, i, ops[j].nonce)
                    && ops[i].tGc <= ops[j].t + iss.limits.ttl
      ensures ops[j].nonce in kept
    {
      WaitingIsStored(iss, ops, i, j);
    }
  }

  lemma PendingIsUntried(iss: Issuer, ops: seq<Op>, i: nat, j: nat, nonce: Bytes)
    requires i <= |ops| && PendingSince(iss, ops[..i], j, nonce)
    ensures j < i && ops[j].Issue? && ops[j].nonce == nonce && Untried(ops, j, i, nonce)
  {
    var h := ops[..i];
    assert forall m :: 0 <= m < i ==> h[m] == ops[m];
  }

  lemma UntriedIsPending(iss: Issuer, ops: seq<Op>, i: nat, j: nat, nonce: Bytes)
    requires j < i <= |ops| && ops[j].Issue? && ops[j].nonce == nonce && Untried(ops, j, i, nonce)
    requires HandsOut(iss, ops[..i], j)
    ensures PendingSince(iss, ops[..i], j, nonce)
  {
    var h := ops[..i];
    assert forall m :: 0 <= m < i ==> h[m] == ops[m];
  }

  /**
   A nonce is handed out exactly when fewer nonces than the capacity are waiting: handed out earlier, not tried
   since, and not expired when the store is collected.
   */
  lemma {:induction false} IssuesIffRoom(iss: Issuer, ops: seq<Op>, i: nat)
    requires Timely(ops) && FreshNonces(ops) && i < |ops|
    ensures HandsOut(iss, ops, i) <==> HandedOut(iss.limits, ops, i)
  {
    if ops[i].Issue? {
      forall j: nat | j < i
        ensures HandsOut(iss, ops, j) <==> HandedOut(iss.limits, ops, j)
      {
        IssuesIffRoom(iss, ops, j);
      }
      CollectedAreWaiting(iss, ops, i);
      var kept := Collect(Run(iss, ops[..i]), ops[i].tGc);
      assert |kept| == |kept.Keys|;
    }
  }

  /** A nonce is accepted exactly when it was handed out, not tried since, and in time; all from the history. */
  lemma ConsumesIff(iss: Issuer, ops: seq<Op>, k: nat)
    requires Timely(ops) && FreshNonces(ops) && k < |ops| && ops[k].Sign?
    ensures Consumes(iss, ops, k)
            <==> exists i: nat ::
                   && i < k && HandedOut(iss.limits, ops, i) && ops[i].nonce == ops[k].req.nonce
                   && Untried(ops, i, k, ops[k].req.nonce) && ops[k].t <= ops[i].t + iss.limits.ttl
  {
    var nonce := ops[k].req.nonce;
    if Consumes(iss, ops, k) {
      var i := StoredIsPending(iss, ops[..k], nonce);
      PendingIsUntried(iss, ops, k, i, nonce);
      HandsOutLooksBack(iss, ops, k, i);
      IssuesIffRoom(iss, ops, i);
    }
    if i: nat :| && i < k && HandedOut(iss.limits, ops, i) && ops[i].nonce == nonce
                 && Untried(ops, i, k, nonce) && ops[k].t <= ops[i].t + iss.limits.ttl {
      IssuesIffRoom(iss, ops, i);
      HandsOutLooksBack(iss, ops, k, i);
      UntriedIsPending(iss, ops, k, i, nonce);
      PendingIsConsumed(iss, ops, i, k);
    }
  }

  /** No nonce is consumed successfully twice. */
  lemma ConsumedAtMostOnce(iss: Issuer, ops: seq<Op>, j: nat, k: nat)
    requires FreshNonces(ops) && j < |ops| && k < |ops|
    requires ops[j].Sign? && ops[k].Sign? && ops[j].req.nonce == ops[k].req.nonce
    ensures Consumes(iss, ops, j) && Consumes(iss, ops, k) ==> j == k
  {
    if Consumes(iss, ops, j) && Consumes(iss, ops, k) {
      SecondUseNeedsRepeat(iss, ops, j, k);
      SecondUseNeedsRepeat(iss, ops, k, j);
    }
  }

  /** The store never holds more than its capacity. */
  lemma {:induction false} CapacityHolds(iss: Issuer, ops: seq<Op>)
    requires iss.limits.maxEntries >= 0
    ensures |Run(iss, ops)| <= iss.limits.maxEntries
  {
    if ops != [] {
      var st := Run(iss, ops[..|ops| - 1]);
      CapacityHolds(iss, ops[..|ops| - 1]);
      match ops[|ops| - 1]
      case Issue(tGc, t, nonce) =>
        CollectShrinks(st, tGc);
        InsertGrowsByOne(Collect(st, tGc), nonce, t + iss.limits.ttl);
      case Sign(t, req) =>
        SubmapSmaller(st - {req.nonce}, st);
    }
  }

  lemma SubmapSmaller(a: Store, b: Store)
    requires a.Keys <= b.Keys
    ensures |a| <= |b|
  {
    assert b.Keys == a.Keys + (b.Keys - a.Keys);
    assert |b.Keys| == |a.Keys| + |b.Keys - a.Keys|;
  }

  lemma CollectShrinks(st: Store, t: int)
    ensures |Collect(st, t)| <= |st|
  {
    SubmapSmaller(Collect(st, t), st);
  }

  lemma InsertGrowsByOne(st: Store, n: Bytes, v: int)
    ensures |st[n := v]| <= |st| + 1
  {
    assert st[n := v].Keys == st.Keys + {n};
  }

  /**
   Certificates inject into handed-out nonces: two certificates never share a nonce; each nonce was
   handed out earlier and used in time; and the certificate names exactly node/<PeerID> for the
   PeerID derived from the presented key.
   */
  lemma CertificatesInjectIntoNonces(iss: Issuer, ops: seq<Op>, k: nat) returns (i: nat)
    requires Timely(ops) && FreshNonces(ops) && k < |ops| && ops[k].Sign?
    requires ResultAt(iss, ops, k).Issued?
    ensures i < k && HandsOut(iss, ops, i) && ops[i].nonce == ops[k].req.nonce
    ensures ops[i].t <= ops[k].t <= ops[i].t + iss.limits.ttl
    ensures ResultAt(iss, ops, k).cert.spiffeUri == NodeUri(iss.crypto.peerId(ops[k].req.publicKey))
    ensures iss.parseCsr(ops[k].req.csr) == Carries(ResultAt(iss, ops, k).cert.publicKey)
    ensures forall j: nat :: j < |ops| && j != k && ops[j].Sign? && ops[j].req.nonce == ops[k].req.nonce
                             ==> !ResultAt(iss, ops, j).Issued?
  {
    assert Consumes(iss, ops, k);
    i := NonceOfUse(iss, ops, k);
    CertificateNamesTheKey(iss, ops[k].req);
    forall j: nat | j < |ops| && j != k && ops[j].Sign? && ops[j].req.nonce == ops[k].req.nonce
      ensures !ResultAt(iss, ops, j).Issued?
    {
      ConsumedAtMostOnce(iss, ops, j, k);
    }
  }

  /** A successful use goes back to a nonce handed out earlier, within its time to live. */
  lemma NonceOfUse(iss: Issuer, ops: seq<Op>, k: nat) returns (i: nat)
    requires Timely(ops) && k < |ops| && Consumes(iss, ops, k)
    ensures i < k && HandsOut(iss, ops, i) && ops[i].nonce == ops[k].req.nonce
    ensures ops[i].t <= ops[k].t <= ops[i].t + iss.limits.ttl
  {
    var h := ops[..k];
    i := StoredIsPending(iss, h, ops[k].req.nonce);
    assert h[i] == ops[i] && h[..i] == ops[..i];
  }

  lemma CertificateNamesTheKey(iss: Issuer, req: Request)
    requires Certify(iss, req).Issued?
    ensures Certify(iss, req).cert.spiffeUri == NodeUri(iss.crypto.peerId(req.publicKey))
    ensures iss.parseCsr(req.csr) == Carries(Certify(iss, req).cert.publicKey)
  {
  }

  /**
   Nobody gets a certificate for a PeerID without its key: with unforgeable signatures, a certificate is
   issued only for a scope (this CA, this nonce, this PeerID, this certified key) the key holder approved.
   */
  lemma CertificateNeedsApproval(iss: Issuer, st: Store, t: int, req: Request,
                                 signs: (Bytes, Bytes) -> bool, approved: iset<Fields>)
    requires VerifyAndIssue(iss, st, t, req).1.Issued?
    requires Unforgeable(iss.crypto, signs) && SignsOnly(signs, req.publicKey, approved)
    requires ShortFields(IssuerScope(iss, req, VerifyAndIssue(iss, st, t, req).1.cert.publicKey))
    ensures var cert := VerifyAndIssue(iss, st, t, req).1.cert;
            Fields(iss.caFingerprint, req.nonce, iss.crypto.peerId(req.publicKey), cert.spiffeUri,
                iss.keyHash(cert.publicKey))
            in approved
  {
    var cert := VerifyAndIssue(iss, st, t, req).1.cert;
    AcceptedMeansApproved(iss.crypto, req.publicKey, IssuerScope(iss, req, cert.publicKey), req.signature,
                          iss.caFingerprint, signs, approved);
  }

  /** The client's signature scheme: a signature verifies exactly for the message it was made for. */
  ghost predicate Signer(c: Crypto, sign: Bytes -> Bytes, publicKey: Bytes) {
    forall m, m' :: c.verify(publicKey, m', sign(m)) == Some(m == m')
  }

  /**
   An honest client's proof is accepted exactly when the fingerprint it was given is the issuer's own,
   byte for byte, and the hash it signed is the one the issuer computes from the CSR. The
   normalisation of fingerprints makes no difference, because the issuer compares its own with itself.
   */
  lemma HonestRequestVerifiesIff(iss: Issuer, sign: Bytes -> Bytes, publicKey: Bytes, ca: Bytes, nonce: Bytes,
                                 csr: Bytes, csrKey: Bytes, csrKeyHash: Bytes)
    requires iss.crypto.kind(publicKey).Ed25519? && Signer(iss.crypto, sign, publicKey)
    requires var peerId := iss.crypto.peerId(publicKey);
             && ShortFields(ClientScope(peerId, ca, nonce, csrKeyHash))
             && ShortFields(ClientScope(peerId, iss.caFingerprint, nonce, iss.keyHash(csrKey)))
    ensures var req := BuildCertSignRequest(sign, publicKey, iss.crypto.peerId(publicKey), ca, nonce, csr, csrKeyHash);
            VerifyCertPop(iss.crypto, publicKey, IssuerScope(iss, req, csrKey), req.signature, iss.caFingerprint)
                == Accepted
            <==> ca == iss.caFingerprint && csrKeyHash == iss.keyHash(csrKey)
  {
    var peerId := iss.crypto.peerId(publicKey);
    var mine := ClientScope(peerId, ca, nonce, csrKeyHash);
    var theirs := ClientScope(peerId, iss.caFingerprint, nonce, iss.keyHash(csrKey));
    if Message(mine) == Message(theirs) {
      MessageInjective(mine, theirs);
    }
  }

  /** The whole exchange succeeds: a nonce just handed out buys an honest client its certificate. */
  lemma HonestExchangeSucceeds(iss: Issuer, st: Store, tGc: int, t: int, t': int, nonce: Bytes,
                               sign: Bytes -> Bytes, publicKey: Bytes, csr: Bytes, csrKey: Bytes)
    requires IssueNonce(iss.limits, st, tGc, t, nonce).1 && t <= t' <= t + iss.limits.ttl
    requires iss.crypto.kind(publicKey).Ed25519? && |publicKey| == 32 && Signer(iss.crypto, sign, publicKey)
    requires iss.parseCsr(csr) == Carries(csrKey)
    requires iss.canSign(csr, NodeUri(iss.crypto.peerId(publicKey)))
    requires ShortFields(ClientScope(iss.crypto.peerId(publicKey), iss.caFingerprint, nonce, iss.keyHash(csrKey)))
    ensures var req := BuildCertSignRequest(sign, publicKey, iss.crypto.peerId(publicKey), iss.caFingerprint, nonce,
                                            csr, iss.keyHash(csrKey));
            VerifyAndIssue(iss, IssueNonce(iss.limits, st, tGc, t, nonce).0, t', req).1
            == Issued(Certificate(NodeUri(iss.crypto.peerId(publicKey)), csrKey))
  {
    HonestRequestVerifiesIff(iss, sign, publicKey, iss.caFingerprint, nonce, csr, csrKey, iss.keyHash(csrKey));
  }

  /**
   A request with a good nonce gets its certificate exactly if the request for certification is sound, the key has
   32 bytes and is an Ed25519 key, the request names the PeerID of that key and node/<PeerID>, the signature is
   good for the scope of this CA and this certified key, and signing works; the certificate carries just these.
   */
  lemma IssuedIff(iss: Issuer, req: Request, cert: Certificate)
    ensures Certify(iss, req) == Issued(cert)
            <==> && iss.parseCsr(req.csr) == Carries(cert.publicKey) && cert.spiffeUri == req.spiffeUri
                 && |req.publicKey| == 32 && iss.crypto.kind(req.publicKey) == Ed25519
                 && req.peerId == iss.crypto.peerId(req.publicKey) && req.spiffeUri == NODE_URI_PREFIX + req.peerId
                 && iss.crypto.verify(req.publicKey,
                                      Message(Fields(iss.caFingerprint, req.nonce, req.peerId, req.spiffeUri,
                                                     iss.keyHash(cert.publicKey))),
                                      req.signature) == Some(true)
                 && iss.canSign(req.csr, req.spiffeUri)
  {
  }

  /** In a run, an honest client that got its nonce and uses it once and in time gets its certificate. */
  lemma HonestRunSucceeds(iss: Issuer, ops: seq<Op>, i: nat, k: nat, sign: Bytes -> Bytes, publicKey: Bytes,
                          csr: Bytes, csrKey: Bytes)
    requires Timely(ops) && FreshNonces(ops) && i < k < |ops| && HandedOut(iss.limits, ops, i) && ops[k].Sign?
    requires Untried(ops, i, k, ops[i].nonce) && ops[k].t <= ops[i].t + iss.limits.ttl
    requires ops[k].req == BuildCertSignRequest(sign, publicKey, iss.crypto.peerId(publicKey), iss.caFingerprint,
                                                ops[i].nonce, csr, iss.keyHash(csrKey))
    requires iss.crypto.kind(publicKey).Ed25519? && |publicKey| == 32 && Signer(iss.crypto, sign, publicKey)
    requires iss.parseCsr(csr) == Carries(csrKey) && iss.canSign(csr, NodeUri(iss.crypto.peerId(publicKey)))
    ensures ResultAt(iss, ops, k) == Issued(Certificate(NODE_URI_PREFIX + iss.crypto.peerId(publicKey), csrKey))
  {
    ConsumesIff(iss, ops, k);
    IssuedIff(iss, ops[k].req, Certificate(NODE_URI_PREFIX + iss.crypto.peerId(publicKey), csrKey));
  }

  /** Whatever the nonce, the answer says so exactly if it was not accepted. */
  lemma NonceRefusedIff(iss: Issuer, ops: seq<Op>, k: nat)
    requires k < |ops| && ops[k].Sign?
    ensures ResultAt(iss, ops, k) == NonceRefused <==> !Consumes(iss, ops, k)
  {
  }
}
