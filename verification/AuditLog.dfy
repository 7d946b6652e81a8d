/**
 The audit log (audit.ts): an append-only local table in which every row carries the hash of the row
 before it, and a separate table of events imported from peers. The tables survive a restart; the last
 hash is kept in memory and reloaded. Hashing and signing are uninterpreted.
 */
module AuditLog {
  import opened Prelude
  import opened Text

  datatype Event = Event(
    timestamp: string, eventType: string, agentId: string, peerId: Option<string>, details: Option<string>,
    entityType: Option<string>, entityId: Option<string>)

  datatype Row = Row(event: Event, signature: string, prevHash: string, entryHash: string)

  datatype PeerRow = PeerRow(event: Event, signature: string, entryHash: string)

  /** SHA-256 in hexadecimal, signing (which may use randomness), and signature checking (`None` if it throws). */
  datatype Crypto = Crypto(
    hash: string -> string, sign: (string, nat) -> string, verify: (string, string, string) -> Option<bool>)

  const GENESIS: string := "0000000000000000000000000000000000000000000000000000000000000000"

  ghost predicate HexDigest(c: Crypto) { forall s :: |c.hash(s)| == 64 }

  /** No two of the texts in these logs collide. */
  predicate CollisionFree(c: Crypto, a: seq<Row>, b: seq<Row>) {
    forall i, j :: 0 <= i < |a| && 0 <= j < |b| && c.hash(HashedText(a[i])) == c.hash(HashedText(b[j]))
                   ==> HashedText(a[i]) == HashedText(b[j])
  }

  function OrEmpty(o: Option<string>): string { if o.Some? then o.value else "" }

  /** The text that is signed. */
  function SignedText(e: Event): string {
    e.timestamp + "|" + e.eventType + "|" + e.agentId + "|" + OrEmpty(e.peerId) + "|" + OrEmpty(e.details) + "|"
    + OrEmpty(e.entityType) + "|" + OrEmpty(e.entityId)
  }

  /** The text that is hashed: it ends with the hash of the row before. */
  function HashedText(r: Row): string { SignedText(r.event) + "|" + r.signature + "|" + r.prevHash }

  function NewRow(c: Crypto, e: Event, salt: nat, prevHash: string): Row {
    var r := Row(e, c.sign(SignedText(e), salt), prevHash, "");
    r.(entryHash := c.hash(HashedText(r)))
  }

  /** The hash a new row must point back to. */
  function Tip(rows: seq<Row>): string { if rows == [] then GENESIS else rows[|rows| - 1].entryHash }

  predicate Known(peers: seq<PeerRow>, entryHash: string) {
    exists i :: 0 <= i < |peers| && peers[i].entryHash == entryHash
  }

  /** A signature is only checked when the peer's key is at hand; an empty key counts as none. */
  predicate SignatureOk(c: Crypto, p: PeerRow, key: Option<string>) {
    key.None? || key.value == "" || c.verify(key.value, SignedText(p.event), p.signature) == Some(true)
  }

  function Import(c: Crypto, peers: seq<PeerRow>, p: PeerRow, key: Option<string>): (seq<PeerRow>, bool) {
    if !SignatureOk(c, p, key) || Known(peers, p.entryHash) then (peers, false) else (peers + [p], true)
  }

  predicate AgeLimit(maxAgeMs: Number) { maxAgeMs.Finite? && maxAgeMs.value > 0.0 }

  /** `toISOString` of the moment `maxAgeMs` ago; `None` if there is no age limit or the date is out of range. */
  function Cutoff(maxAgeMs: Number, now: real, iso: real -> Option<string>): Option<string> {
    if AgeLimit(maxAgeMs) then iso(now - maxAgeMs.value) else None
  }

  function NotBefore(cutoff: string): PeerRow -> bool { (p: PeerRow) => !LexLess(p.event.timestamp, cutoff) }

  /** Rows with a timestamp before the cutoff go. */
  function Prune(peers: seq<PeerRow>, cutoff: Option<string>): seq<PeerRow> {
    if cutoff.None? then peers else Filter(peers, NotBefore(cutoff.value))
  }

  class AuditLog {
    const crypto: Crypto
    const agentId: string
    var local: seq<Row>
    var peers: seq<PeerRow>
    var lastHash: string

    /** Opens existing tables and reloads the last hash. */
    constructor (crypto: Crypto, agentId: string, local: seq<Row>, peers: seq<PeerRow>)
      ensures this.crypto == crypto && this.agentId == agentId
      ensures this.local == local && this.peers == peers && lastHash == Tip(local)
    {
      this.crypto, this.agentId := crypto, agentId;
      this.local, this.peers := local, peers;
      lastHash := GENESIS;
      if local != [] {
        lastHash := local[|local| - 1].entryHash;
      }
    }

    method Append(timestamp: string, eventType: string, peerId: Option<string>, details: Option<string>,
                  entityType: Option<string>, entityId: Option<string>, salt: nat)
      requires lastHash == Tip(local)
      modifies this`local, this`lastHash
      ensures lastHash == Tip(local)
      ensures local == old(local)
                       + [NewRow(crypto,
                                 Event(timestamp, eventType, agentId, peerId, details, entityType, entityId),
                                 salt, Tip(old(local)))]
    {
      var prevHash := lastHash;
      var e := Event(timestamp, eventType, agentId, peerId, details, entityType, entityId);
      var signature := crypto.sign(SignedText(e), salt);
      var entryHash := crypto.hash(SignedText(e) + "|" + signature + "|" + prevHash);
      local := local + [Row(e, signature, prevHash, entryHash)];
      lastHash := entryHash;
    }

    method ImportPeerEvent(p: PeerRow, key: Option<string>) returns (isNew: bool)
      modifies this`peers
      ensures (peers, isNew) == Import(crypto, old(peers), p, key)
    {
      if key.Some? && key.value != "" {
        var valid := crypto.verify(key.value, SignedText(p.event), p.signature);
        if valid != Some(true) {
          return false;
        }
      }
      if Known(peers, p.entryHash) {
        return false;
      }
      peers := peers + [p];
      return true;
    }

    /** Gives the number of removed rows, or nothing if the conversion of the date throws. */
    method PrunePeerEventsOlderThan(maxAgeMs: Number, now: real, iso: real -> Option<string>)
      returns (deleted: Option<int>)
      modifies this`peers
      ensures peers == Prune(old(peers), Cutoff(maxAgeMs, now, iso))
      ensures deleted.Some? ==> deleted.value == |old(peers)| - |peers|
      ensures deleted.None? <==> AgeLimit(maxAgeMs) && iso(now - maxAgeMs.value).None?
    {
      if !maxAgeMs.Finite? || maxAgeMs.value <= 0.0 {
        return Some(0);
      }
      var cutoff := iso(now - maxAgeMs.value);
      if cutoff.None? {
        return None;
      }
      var kept := Prune(peers, cutoff);
      deleted := Some(|peers| - |kept|);
      peers := kept;
    }
  }

  // ---------------------------------------------------------------- runs

  datatype Op =
    | Append(event: Event, salt: nat)
    | Reopen
    | ImportPeer(row: PeerRow, key: Option<string>)
    | PrunePeers(maxAgeMs: Number, now: real, iso: real -> Option<string>)

  datatype Log = Log(local: seq<Row>, peers: seq<PeerRow>, lastHash: string)

  function Next(c: Crypto, s: Log, op: Op): Log {
    match op
    case Append(e, salt) =>
      var r := NewRow(c, e, salt, s.lastHash);
      s.(local := s.local + [r], lastHash := r.entryHash)
    case Reopen => s.(lastHash := Tip(s.local))
    case ImportPeer(p, key) => s.(peers := Import(c, s.peers, p, key).0)
    case PrunePeers(maxAgeMs, now, iso) => s.(peers := Prune(s.peers, Cutoff(maxAgeMs, now, iso)))
  }

  function Run(c: Crypto, ops: seq<Op>): Log {
    if ops == [] then Log([], [], GENESIS) else Next(c, Run(c, ops[..|ops| - 1]), ops[|ops| - 1])
  }

  /** Every row points back to the row before it, the first one to the genesis, and carries its own hash. */
  predicate Chained(c: Crypto, rows: seq<Row>) {
    forall i :: 0 <= i < |rows| ==>
      rows[i].prevHash == Tip(rows[..i]) && rows[i].entryHash == c.hash(HashedText(rows[i]))
  }

  predicate UniqueHashes(peers: seq<PeerRow>) {
    forall i, j :: 0 <= i < j < |peers| ==> peers[i].entryHash != peers[j].entryHash
  }

  lemma ExtendChain(c: Crypto, rows: seq<Row>, e: Event, salt: nat)
    requires Chained(c, rows)
    ensures Chained(c, rows + [NewRow(c, e, salt, Tip(rows))])
  {
    var more := rows + [NewRow(c, e, salt, Tip(rows))];
    forall i | 0 <= i < |more|
      ensures more[i].prevHash == Tip(more[..i]) && more[i].entryHash == c.hash(HashedText(more[i]))
    {
      assert more[..i] == rows[..i];
      if i == |rows| {
        assert rows[..i] == rows;
        var r := more[i];
        assert HashedText(r) == HashedText(r.(entryHash := ""));
      }
    }
  }

  lemma {:induction false} FilterKeepsUnique(peers: seq<PeerRow>, p: PeerRow -> bool)
    requires UniqueHashes(peers)
    ensures UniqueHashes(Filter(peers, p))
  {
    if peers != [] {
      FilterKeepsUnique(peers[1..], p);
      var rest := Filter(peers[1..], p);
      forall i | 0 <= i < |rest|
        ensures rest[i].entryHash != peers[0].entryHash
      {
        assert rest[i] in peers[1..];
      }
    }
  }

  /** In every run of appends, restarts, imports and prunes the local table is one linked chain from the genesis, the
      memory agrees with it, and no peer event is stored twice. */
  lemma {:induction false} EveryRunIsChained(c: Crypto, ops: seq<Op>)
    ensures var s := Run(c, ops); Chained(c, s.local) && s.lastHash == Tip(s.local) && UniqueHashes(s.peers)
  {
    if ops != [] {
      EveryRunIsChained(c, ops[..|ops| - 1]);
      var s := Run(c, ops[..|ops| - 1]);
      match ops[|ops| - 1]
      case Append(e, salt) => ExtendChain(c, s.local, e, salt);
      case Reopen =>
      case ImportPeer(_, _) =>
      case PrunePeers(maxAgeMs, now, iso) =>
        var cutoff := Cutoff(maxAgeMs, now, iso);
        if cutoff.Some? {
          FilterKeepsUnique(s.peers, NotBefore(cutoff.value));
        }
    }
  }

  function Appends(ops: seq<Op>): seq<Event> {
    if ops == [] then []
    else Appends(ops[..|ops| - 1]) + if ops[|ops| - 1].Append? then [ops[|ops| - 1].event] else []
  }

  /** The local table holds exactly the appended events in order: restarts, imports and prunes never touch it. */
  lemma {:induction false} LocalHoldsTheAppends(c: Crypto, ops: seq<Op>)
    ensures |Run(c, ops).local| == |Appends(ops)|
    ensures forall i :: 0 <= i < |Appends(ops)| ==> Run(c, ops).local[i].event == Appends(ops)[i]
  {
    if ops != [] {
      LocalHoldsTheAppends(c, ops[..|ops| - 1]);
    }
  }

  // ---------------------------------------------------------------- tamper evidence

  lemma SameTextSamePrev(a: Row, b: Row)
    requires |a.prevHash| == |b.prevHash| && HashedText(a) == HashedText(b)
    ensures a.prevHash == b.prevHash
  {
    var s := HashedText(a);
    assert a.prevHash == s[|s| - |a.prevHash|..];
    assert b.prevHash == s[|s| - |b.prevHash|..];
  }

  lemma PrevIsDigest(c: Crypto, rows: seq<Row>, i: nat)
    requires HexDigest(c) && Chained(c, rows) && i < |rows|
    ensures |rows[i].prevHash| == 64
  {
    if i > 0 {
      assert Tip(rows[..i]) == rows[i - 1].entryHash;
    }
  }

  lemma ChainFront(c: Crypto, rows: seq<Row>)
    requires Chained(c, rows) && rows != []
    ensures Chained(c, rows[..|rows| - 1]) && rows[|rows| - 1].prevHash == Tip(rows[..|rows| - 1])
  {
    var front := rows[..|rows| - 1];
    forall i | 0 <= i < |front|
      ensures front[i].prevHash == Tip(front[..i]) && front[i].entryHash == c.hash(HashedText(front[i]))
    {
      assert front[..i] == rows[..i];
    }
  }

  /** Equal last hashes mean equal last texts and equal last hashes one row earlier. */
  lemma StepBack(c: Crypto, a: seq<Row>, b: seq<Row>)
    requires HexDigest(c) && CollisionFree(c, a, b) && Chained(c, a) && Chained(c, b)
    requires a != [] && b != [] && Tip(a) == Tip(b)
    ensures HashedText(a[|a| - 1]) == HashedText(b[|b| - 1])
    ensures Tip(a[..|a| - 1]) == Tip(b[..|b| - 1])
    ensures Chained(c, a[..|a| - 1]) && Chained(c, b[..|b| - 1])
    ensures CollisionFree(c, a[..|a| - 1], b[..|b| - 1])
  {
    ChainFront(c, a);
    ChainFront(c, b);
    PrevIsDigest(c, a, |a| - 1);
    PrevIsDigest(c, b, |b| - 1);
    SameTextSamePrev(a[|a| - 1], b[|b| - 1]);
  }

  /**
   The last hash commits to the whole log: two chained logs of equal length with the same last hash were
   built from the same sequence of hashed texts.
   */
  lemma {:induction false} LastHashCommits(c: Crypto, a: seq<Row>, b: seq<Row>, i: nat)
    requires HexDigest(c) && CollisionFree(c, a, b) && Chained(c, a) && Chained(c, b)
    requires |a| == |b| && Tip(a) == Tip(b) && i < |a|
    ensures HashedText(a[i]) == HashedText(b[i])
  {
    StepBack(c, a, b);
    if i < |a| - 1 {
      LastHashCommits(c, a[..|a| - 1], b[..|b| - 1], i);
    }
  }

  /** If no text hashes to the genesis, the last hash even fixes the length of the log. */
  lemma {:induction false} LastHashFixesLength(c: Crypto, a: seq<Row>, b: seq<Row>)
    requires HexDigest(c) && CollisionFree(c, a, b) && Chained(c, a) && Chained(c, b)
    requires forall s :: c.hash(s) != GENESIS
    requires Tip(a) == Tip(b)
    ensures |a| == |b|
    decreases |a| + |b|
  {
    if a != [] && b != [] {
      StepBack(c, a, b);
      LastHashFixesLength(c, a[..|a| - 1], b[..|b| - 1]);
    }
  }

  // ---------------------------------------------------------------- what the texts cover

  function Fields(e: Event): seq<string> {
    [e.timestamp, e.eventType, e.agentId, OrEmpty(e.peerId), OrEmpty(e.details), OrEmpty(e.entityType),
        OrEmpty(e.entityId)]
  }

  function Joined(fs: seq<string>): string {
    if fs == [] then ""
    else if |fs| == 1 then fs[0]
    else Joined(fs[..|fs| - 1]) + "|" + fs[|fs| - 1]
  }

  lemma JoinedStep(fs: seq<string>, f: string)
    requires fs != []
    ensures Joined(fs + [f]) == Joined(fs) + "|" + f
  {
    assert (fs + [f])[..|fs|] == fs;
  }

  /** The signed text is the seven fields with bars between them. */
  lemma SignedTextIsJoined(e: Event)
    ensures SignedText(e) == Joined(Fields(e))
  {
    var f1 := [e.timestamp];
    var f2 := f1 + [e.eventType];
    var f3 := f2 + [e.agentId];
    var f4 := f3 + [OrEmpty(e.peerId)];
    var f5 := f4 + [OrEmpty(e.details)];
    var f6 := f5 + [OrEmpty(e.entityType)];
    JoinedStep(f1, e.eventType);
    JoinedStep(f2, e.agentId);
    JoinedStep(f3, OrEmpty(e.peerId));
    JoinedStep(f4, OrEmpty(e.details));
    JoinedStep(f5, OrEmpty(e.entityType));
    JoinedStep(f6, OrEmpty(e.entityId));
    assert Fields(e) == f6 + [OrEmpty(e.entityId)];
  }

  lemma SameTail(x: string, y: string, t: string)
    ensures x + t == y + t <==> x == y
  {
    if x + t == y + t {
      assert |x| == |y| && (x + t)[..|x|] == x && (y + t)[..|y|] == y;
    }
  }

  lemma SameFront(p: string, x: string, y: string)
    ensures p + x == p + y <==> x == y
  {
    if p + x == p + y {
      assert (p + x)[|p|..] == x && (p + y)[|p|..] == y;
    }
  }

  predicate OnlyAt(a: seq<string>, b: seq<string>, k: nat) {
    |a| == |b| && forall i :: 0 <= i < |a| && i != k ==> a[i] == b[i]
  }

  /** Lists that differ at most at one place have the same text only if they are the same. */
  lemma {:induction false} OneChangeShows(a: seq<string>, b: seq<string>, k: nat)
    requires OnlyAt(a, b, k) && k < |a|
    ensures Joined(a) == Joined(b) <==> a[k] == b[k]
  {
    var n := |a| - 1;
    if n > 0 {
      if k == n {
        assert a[..n] == b[..n];
        SameFront(Joined(a[..n]) + "|", a[n], b[n]);
      } else {
        OneChangeShows(a[..n], b[..n], k);
        assert Joined(a) == Joined(a[..n]) + ("|" + a[n]) && Joined(b) == Joined(b[..n]) + ("|" + b[n]);
        SameTail(Joined(a[..n]), Joined(b[..n]), "|" + a[n]);
      }
    }
  }

  predicate BarFree(fs: seq<string>) { forall i :: 0 <= i < |fs| ==> '|' !in fs[i] }

  lemma {:induction false} BarFreeTextsDiffer(a: seq<string>, b: seq<string>)
    requires |a| == |b| && BarFree(a) && BarFree(b) && Joined(a) == Joined(b)
    ensures a == b
  {
    var n := |a| - 1;
    if n > 0 {
      SplitAtLastBar(Joined(a[..n]), a[n], Joined(b[..n]), b[n]);
      BarFreeTextsDiffer(a[..n], b[..n]);
      assert a == a[..n] + [a[n]] && b == b[..n] + [b[n]];
    }
  }

  lemma SplitAtLastBar(x: string, s: string, y: string, t: string)
    requires '|' !in s && '|' !in t && x + "|" + s == y + "|" + t
    ensures x == y && s == t
  {
    var text := x + "|" + s;
    assert text[|x|] == '|' && text[|y|] == '|';
    assert forall i :: |x| < i < |text| ==> text[i] == s[i - |x| - 1];
    assert forall i :: |y| < i < |text| ==> text[i] == t[i - |y| - 1];
    assert text[..|x|] == x && text[..|y|] == y;
    assert text[|x| + 1..] == s && text[|y| + 1..] == t;
  }

  /** A change of any one of the seven fields changes the signed text. */
  lemma SignatureCoversEveryField(e: Event, f: Event, k: nat)
    requires k < 7 && OnlyAt(Fields(e), Fields(f), k)
    ensures SignedText(e) == SignedText(f) <==> Fields(e)[k] == Fields(f)[k]
  {
    SignedTextIsJoined(e);
    SignedTextIsJoined(f);
    OneChangeShows(Fields(e), Fields(f), k);
  }

  /** In particular two texts in an optional field are told apart, and an absent field counts as an empty one. */
  lemma SignatureCoversOptionalFields(e: Event, x: string, y: string)
    ensures SignedText(e.(peerId := Some(x))) == SignedText(e.(peerId := Some(y))) <==> x == y
    ensures SignedText(e.(details := Some(x))) == SignedText(e.(details := Some(y))) <==> x == y
    ensures SignedText(e.(entityType := Some(x))) == SignedText(e.(entityType := Some(y))) <==> x == y
    ensures SignedText(e.(entityId := Some(x))) == SignedText(e.(entityId := Some(y))) <==> x == y
    ensures SignedText(e.(details := None)) == SignedText(e.(details := Some("")))
  {
    SignatureCoversEveryField(e.(peerId := Some(x)), e.(peerId := Some(y)), 3);
    SignatureCoversEveryField(e.(details := Some(x)), e.(details := Some(y)), 4);
    SignatureCoversEveryField(e.(entityType := Some(x)), e.(entityType := Some(y)), 5);
    SignatureCoversEveryField(e.(entityId := Some(x)), e.(entityId := Some(y)), 6);
  }

  /** Events whose fields contain no bar have the same signed text only if all seven fields agree. */
  lemma BarFreeEventsDiffer(e: Event, f: Event)
    requires BarFree(Fields(e)) && BarFree(Fields(f)) && SignedText(e) == SignedText(f)
    ensures Fields(e) == Fields(f)
  {
    SignedTextIsJoined(e);
    SignedTextIsJoined(f);
    BarFreeTextsDiffer(Fields(e), Fields(f));
  }

  /** The hashed text covers the signature and the previous hash as well. */
  lemma HashCoversSignatureAndPrev(r: Row, signature: string, prevHash: string)
    ensures HashedText(r) == HashedText(r.(signature := signature)) <==> r.signature == signature
    ensures HashedText(r) == HashedText(r.(prevHash := prevHash)) <==> r.prevHash == prevHash
  {
    var head := SignedText(r.event) + "|";
    assert HashedText(r) == head + (r.signature + ("|" + r.prevHash));
    assert HashedText(r.(signature := signature)) == head + (signature + ("|" + r.prevHash));
    SameFront(head, r.signature + ("|" + r.prevHash), signature + ("|" + r.prevHash));
    SameTail(r.signature, signature, "|" + r.prevHash);
    SameFront(head + r.signature + "|", r.prevHash, prevHash);
  }

  // ---------------------------------------------------------------- peer events

  /** Importing anything under a hash that was just imported changes nothing. */
  lemma FirstImportWins(c: Crypto, peers: seq<PeerRow>, p: PeerRow, key: Option<string>, q: PeerRow,
      key': Option<string>)
    requires p.entryHash == q.entryHash && SignatureOk(c, p, key)
    ensures Import(c, Import(c, peers, p, key).0, q, key') == (Import(c, peers, p, key).0, false)
  {
    var after := Import(c, peers, p, key).0;
    if !Known(peers, p.entryHash) {
      assert after[|after| - 1].entryHash == q.entryHash;
    }
  }

  /** The operation is a prune that takes this row with it. */
  predicate Removes(op: Op, p: PeerRow) {
    && op.PrunePeers? && op.maxAgeMs.Finite? && op.maxAgeMs.value > 0.0
    && op.iso(op.now - op.maxAgeMs.value).Some?
    && LexLess(p.event.timestamp, op.iso(op.now - op.maxAgeMs.value).value)
  }

  /** A stored row survives an operation exactly if the operation is not a prune that removes it. */
  lemma RowSurvivesIff(c: Crypto, s: Log, op: Op, p: PeerRow)
    requires p in s.peers
    ensures p in Next(c, s, op).peers <==> !Removes(op, p)
  {
  }

  lemma OnlyRowWithItsHash(peers: seq<PeerRow>, p: PeerRow, q: PeerRow)
    requires UniqueHashes(peers) && p in peers && q in peers && q.entryHash == p.entryHash
    ensures q == p
  {
  }

  lemma {:induction false} RowStays(c: Crypto, ops: seq<Op>, i: nat, p: PeerRow)
    requires i <= |ops| && p in Run(c, ops[..i]).peers
    requires forall k :: i <= k < |ops| ==> !Removes(ops[k], p)
    ensures p in Run(c, ops).peers
  {
    if i == |ops| {
      assert ops[..i] == ops;
    } else {
      var front := ops[..|ops| - 1];
      assert front[..i] == ops[..i];
      RowStays(c, front, i, p);
      RowSurvivesIff(c, Run(c, front), ops[|ops| - 1], p);
    }
  }

  /**
   First wins, over whole runs: a stored row stays as it is, and stays the only one with its hash, whatever is
   imported, appended or reopened afterwards, until a prune removes it.
   */
  lemma ImportedRowStays(c: Crypto, ops: seq<Op>, i: nat, p: PeerRow)
    requires i <= |ops| && p in Run(c, ops[..i]).peers
    requires forall k :: i <= k < |ops| ==> !Removes(ops[k], p)
    ensures p in Run(c, ops).peers
    ensures forall q :: q in Run(c, ops).peers && q.entryHash == p.entryHash ==> q == p
  {
    RowStays(c, ops, i, p);
    EveryRunIsChained(c, ops);
    forall q | q in Run(c, ops).peers && q.entryHash == p.entryHash
      ensures q == p
    {
      OnlyRowWithItsHash(Run(c, ops).peers, p, q);
    }
  }

  /** With a key at hand, an event is imported exactly if its signature verifies and its hash is not stored yet. */
  lemma ImportIff(c: Crypto, peers: seq<PeerRow>, p: PeerRow, key: Option<string>)
    requires key.Some? && key.value != ""
    ensures var (after, isNew) := Import(c, peers, p, key);
            && (isNew <==> && c.verify(key.value, SignedText(p.event), p.signature) == Some(true)
                           && forall q :: q in peers ==> q.entryHash != p.entryHash)
            && after == if isNew then peers + [p] else peers
  {
  }

  /** Without a key, it is imported exactly if its hash is not stored yet. */
  lemma UncheckedImportIff(c: Crypto, peers: seq<PeerRow>, p: PeerRow, key: Option<string>)
    requires key.None? || key.value == ""
    ensures var (after, isNew) := Import(c, peers, p, key);
            && (isNew <==> forall q :: q in peers ==> q.entryHash != p.entryHash)
            && after == if isNew then peers + [p] else peers
  {
  }

  /** The operation imports this very row, without a key or with a good signature under it. */
  predicate Vouches(c: Crypto, op: Op, p: PeerRow) {
    && op.ImportPeer? && op.row == p
    && (op.key.None? || op.key.value == "" || c.verify(op.key.value, SignedText(p.event), p.signature) == Some(true))
  }

  /** In every run, each stored peer row was imported, without a key or with a signature that verified. */
  lemma {:induction false} EveryRowIsVouchedFor(c: Crypto, ops: seq<Op>, p: PeerRow)
    requires p in Run(c, ops).peers
    ensures exists i :: 0 <= i < |ops| && Vouches(c, ops[i], p)
  {
    var n := |ops| - 1;
    if p in Run(c, ops[..n]).peers {
      EveryRowIsVouchedFor(c, ops[..n], p);
      var i :| 0 <= i < n && Vouches(c, ops[..n][i], p);
      assert Vouches(c, ops[i], p);
    } else {
      NewRowIsVouchedFor(c, Run(c, ops[..n]), ops[n], p);
    }
  }

  lemma NewRowIsVouchedFor(c: Crypto, s: Log, op: Op, p: PeerRow)
    requires p in Next(c, s, op).peers && p !in s.peers
    ensures Vouches(c, op, p)
  {
  }

  /** What a node hands out for synchronisation. */
  function Exported(r: Row): PeerRow { PeerRow(r.event, r.signature, r.entryHash) }

  /** An appended event, once exported, passes the importer's signature check: both sign and check the same text. */
  lemma ExportedEventIsAccepted(c: Crypto, e: Event, salt: nat, prevHash: string, key: string, peers: seq<PeerRow>)
    requires forall t, n :: c.verify(key, t, c.sign(t, n)) == Some(true)
    ensures var p := Exported(NewRow(c, e, salt, prevHash));
            Import(c, peers, p, Some(key)).1 <==> !Known(peers, p.entryHash)
  {
    assert c.verify(key, SignedText(e), c.sign(SignedText(e), salt)) == Some(true);
  }
}
