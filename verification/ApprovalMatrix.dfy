/**
 The approval matrix (freigabe-matrix.ts): an all-or-nothing parser for its entries and the lookup of
 the most specific entry, and the router that asks the resolved channel (approval-router.ts).
 */
module ApprovalMatrix {
  import opened Prelude
  import opened Text
  import opened McpRegistry
  import opened Meldekanal

  datatype Decider = Human(id: string) | QuorumOf(quorum: nat)

  datatype Entry = Entry(tier: Tier, server: string, tool: string, channel: string, decider: Decider)

  const WILDCARD := "*"
  const ENTRY_KEYS: set<string> := {"tier", "server", "tool", "channel", "decider"}

  // ---------------------------------------------------------------- parsing

  function TierName(t: Tier): string {
    match t
    case Self => "self"
    case Gate => "gate"
    case Consensus => "consensus"
  }

  function ParseTier(j: Option<Json>): Option<Tier> {
    if j == Some(JStr("self")) then Some(Self)
    else if j == Some(JStr("gate")) then Some(Gate)
    else if j == Some(JStr("consensus")) then Some(Consensus)
    else None
  }

  /** A string property that is there and not empty. */
  function NonEmptyString(j: Option<Json>): Option<string> {
    match j
    case Some(JStr(s)) => if s == "" then None else Some(s)
    case _ => None
  }

  /** `human:<id>` or `consensus:quorum=<n>` with a finite n of at least 2. */
  function ParseDecider(j: Option<Json>): Option<Decider> {
    match NonEmptyString(j)
    case None => None
    case Some(raw) =>
      if StartsWith(raw, "human:") then
        var id := raw[|"human:"|..];
        if id == "" then None else Some(Human(id))
      else if StartsWith(raw, "consensus:quorum=") then
        var digits := raw[|"consensus:quorum="|..];
        if digits == "" || !AllDigits(digits) then None
        else if DigitsValue(digits) >= FirstInfinite() || DigitsValue(digits) < 2 then None
        else Some(QuorumOf(DigitsValue(digits)))
      else None
  }

  function ParseTool(j: Option<Json>): Option<string> {
    if j.None? then Some(WILDCARD) else NonEmptyString(j)
  }

  function ParseEntry(j: Json, known: set<string>): Option<Entry> {
    if !j.JObj? || !(j.o.Keys <= ENTRY_KEYS) then None
    else
      var tier := ParseTier(Property(j, "tier"));
      var server := NonEmptyString(Property(j, "server"));
      var tool := ParseTool(Property(j, "tool"));
      var channel := NonEmptyString(Property(j, "channel"));
      var decider := ParseDecider(Property(j, "decider"));
      if tier.None? || server.None? || server.value !in known || tool.None? || channel.None? || !NonBlank(channel.value)
         || decider.None?
      then None
      else Some(Entry(tier.value, server.value, tool.value, channel.value, decider.value))
  }

  /** The string by which the parser tells entries apart. */
  function KeyOf(e: Entry): string { TierName(e.tier) + "|" + e.server + "|" + e.tool }

  predicate DistinctKeys(es: seq<Entry>) {
    forall i, j :: 0 <= i < j < |es| ==> KeyOf(es[i]) != KeyOf(es[j])
  }

  /** The raw entries of a matrix: missing or null counts as none. */
  function RawEntries(raw: Json): Option<seq<Json>> {
    if !raw.JObj? || !(raw.o.Keys <= {"entries"}) then None
    else
      match Property(raw, "entries")
      case None => Some([])
      case Some(JNull) => Some([])
      case Some(JArr(a)) => Some(a)
      case _ => None
  }

  type Parser = Json -> Option<Entry>

  function EntryParser(known: set<string>): Parser { j => ParseEntry(j, known) }

  predicate AllParse(parse: Parser, raws: seq<Json>) {
    forall i :: 0 <= i < |raws| ==> parse(raws[i]).Some?
  }

  function Parsed(parse: Parser, raws: seq<Json>): (es: seq<Entry>)
    requires AllParse(parse, raws)
    ensures |es| == |raws| && forall i :: 0 <= i < |es| ==> es[i] == parse(raws[i]).value
  {
    seq(|raws|, i requires 0 <= i < |raws| => parse(raws[i]).value)
  }

  predicate Acceptable(parse: Parser, raws: seq<Json>) {
    AllParse(parse, raws) && DistinctKeys(Parsed(parse, raws))
  }

  /** The entries parsed so far, and their keys. */
  ghost predicate Progress(parse: Parser, raws: seq<Json>, entries: seq<Entry>, seen: set<string>) {
    && |entries| <= |raws|
    && (forall k :: 0 <= k < |entries| ==> parse(raws[k]) == Some(entries[k]))
    && seen == (set k | 0 <= k < |entries| :: KeyOf(entries[k]))
    && DistinctKeys(entries)
  }

  lemma RepeatedKeyRefuses(parse: Parser, raws: seq<Json>, entries: seq<Entry>, seen: set<string>, e: Entry)
    requires Progress(parse, raws, entries, seen) && |entries| < |raws|
    requires parse(raws[|entries|]) == Some(e) && KeyOf(e) in seen
    ensures !Acceptable(parse, raws)
  {
    var k :| 0 <= k < |entries| && KeyOf(entries[k]) == KeyOf(e);
    if AllParse(parse, raws) {
      assert KeyOf(Parsed(parse, raws)[k]) == KeyOf(Parsed(parse, raws)[|entries|]);
    }
  }

  lemma NewKeyAdvances(parse: Parser, raws: seq<Json>, entries: seq<Entry>, seen: set<string>, e: Entry)
    requires Progress(parse, raws, entries, seen) && |entries| < |raws|
    requires parse(raws[|entries|]) == Some(e) && KeyOf(e) !in seen
    ensures Progress(parse, raws, entries + [e], seen + {KeyOf(e)})
  {
    var more := entries + [e];
    forall k | 0 <= k < |entries|
      ensures KeyOf(more[k]) != KeyOf(e)
    {
      assert KeyOf(entries[k]) in seen;
    }
    KeySetGrows(KeyOf, entries, e);
  }

  lemma KeySetGrows<E>(keyOf: E -> string, es: seq<E>, e: E)
    ensures (set k | 0 <= k < |es| :: keyOf(es[k])) + {keyOf(e)}
            == (set k | 0 <= k < |es + [e]| :: keyOf((es + [e])[k]))
  {
    var more := es + [e];
    forall k | 0 <= k < |more|
      ensures keyOf(more[k]) in (set k | 0 <= k < |es| :: keyOf(es[k])) + {keyOf(e)}
    {
      assert k < |es| ==> more[k] == es[k];
    }
    forall k | 0 <= k < |es|
      ensures keyOf(es[k]) in (set k | 0 <= k < |more| :: keyOf(more[k]))
    {
      assert more[k] == es[k];
    }
    assert more[|es|] == e;
  }

  /** The loop over the entries, with the set of keys seen so far; the first offence refuses everything. */
  method ParseEntries(parse: Parser, raws: seq<Json>) returns (r: Option<seq<Entry>>)
    ensures r.Some? <==> Acceptable(parse, raws)
    ensures r.Some? ==> r.value == Parsed(parse, raws)
  {
    var seen: set<string> := {};
    var entries: seq<Entry> := [];
    for i := 0 to |raws|
      invariant |entries| == i && Progress(parse, raws, entries, seen)
    {
      var e := parse(raws[i]);
      if e.None? {
        return None;
      }
      if KeyOf(e.value) in seen {
        RepeatedKeyRefuses(parse, raws, entries, seen, e.value);
        return None;
      }
      NewKeyAdvances(parse, raws, entries, seen, e.value);
      seen := seen + {KeyOf(e.value)};
      entries := entries + [e.value];
    }
    assert entries == Parsed(parse, raws);
    return Some(entries);
  }

  /** The matrix that a file stands for: all of its entries, or nothing. */
  function MatrixOf(raw: Json, known: set<string>): Option<seq<Entry>> {
    var parse := EntryParser(known);
    if RawEntries(raw).Some? && Acceptable(parse, RawEntries(raw).value) then Some(Parsed(parse, RawEntries(raw).value))
    else None
  }

  /** Accepts a matrix exactly when every entry parses and no two have the same key; nothing is loaded in part. */
  method ParseFreigabeMatrix(raw: Json, knownServers: seq<string>) returns (r: Option<seq<Entry>>)
    ensures r == MatrixOf(raw, set s | s in knownServers)
  {
    var root := RawEntries(raw);
    if root.None? {
      return None;
    }
    r := ParseEntries(EntryParser(set s | s in knownServers), root.value);
  }

  // ---------------------------------------------------------------- printing and parsing

  function PrintedDecider(d: Decider): string {
    match d
    case Human(id) => "human:" + id
    case QuorumOf(n) => "consensus:quorum=" + Decimal(n)
  }

  /** An entry as it would be written in the file, every field spelled out. */
  function Printed(e: Entry): Json {
    JObj(map["tier" := JStr(TierName(e.tier)), "server" := JStr(e.server), "tool" := JStr(e.tool),
             "channel" := JStr(e.channel), "decider" := JStr(PrintedDecider(e.decider))])
  }

  /** What the parser demands of an entry. */
  predicate WellFormed(e: Entry, known: set<string>) {
    && e.server in known && e.server != "" && e.tool != "" && NonBlank(e.channel)
    && (match e.decider
        case Human(id) => id != ""
        case QuorumOf(n) => 2 <= n < FirstInfinite())
  }

  lemma DeciderRoundTrip(d: Decider)
    requires match d case Human(id) => id != "" case QuorumOf(n) => 2 <= n < FirstInfinite()
    ensures ParseDecider(Some(JStr(PrintedDecider(d)))) == Some(d)
  {
    match d
    case Human(id) => StartsWithItself("human:", id);
    case QuorumOf(n) =>
      StartsWithItself("consensus:quorum=", Decimal(n));
      DifferentStart("consensus:quorum=" + Decimal(n), "human:", 0);
      DecimalRoundTrip(n);
  }

  lemma NonBlankIsNotEmpty(s: string)
    requires NonBlank(s)
    ensures s != ""
  {
  }

  /** The properties of an object say what the entry is. */
  predicate Says(j: Json, e: Entry) {
    && j.JObj? && j.o.Keys <= ENTRY_KEYS
    && Property(j, "tier") == Some(JStr(TierName(e.tier))) && Property(j, "server") == Some(JStr(e.server))
    && (Property(j, "tool") == Some(JStr(e.tool)) || (Property(j, "tool").None? && e.tool == "*"))
    && Property(j, "channel") == Some(JStr(e.channel))
    && Property(j, "decider") == Some(JStr(PrintedDecider(e.decider)))
  }

  lemma TierIsParsed(t: Tier)
    ensures ParseTier(Some(JStr(TierName(t)))) == Some(t)
  {
  }

  lemma SaidParts(j: Json, e: Entry, known: set<string>)
    requires Says(j, e) && WellFormed(e, known)
    ensures ParseTier(Property(j, "tier")) == Some(e.tier) && NonEmptyString(Property(j, "server")) == Some(e.server)
    ensures ParseTool(Property(j, "tool")) == Some(e.tool) && NonEmptyString(Property(j, "channel")) == Some(e.channel)
    ensures ParseDecider(Property(j, "decider")) == Some(e.decider)
  {
    TierIsParsed(e.tier);
    DeciderRoundTrip(e.decider);
    NonBlankIsNotEmpty(e.channel);
  }

  lemma SaidIsParsed(j: Json, e: Entry, known: set<string>)
    requires Says(j, e) && WellFormed(e, known)
    ensures ParseEntry(j, known) == Some(e)
  {
    SaidParts(j, e, known);
  }

  lemma PrintedSays(e: Entry)
    ensures Says(Printed(e), e)
    ensures e.tool == "*" ==> Says(JObj(Printed(e).o - {"tool"}), e)
  {
    var m := Printed(e).o;
    assert m.Keys == ENTRY_KEYS;
    assert (m - {"tool"}).Keys <= ENTRY_KEYS && "tool" !in m - {"tool"};
  }

  /** A well-formed entry that is written down is read back as it was. */
  lemma EntryRoundTrip(e: Entry, known: set<string>)
    requires WellFormed(e, known)
    ensures ParseEntry(Printed(e), known) == Some(e)
  {
    PrintedSays(e);
    SaidIsParsed(Printed(e), e, known);
  }

  /** A missing tool stands for all tools. */
  lemma MissingToolIsWildcard(e: Entry, known: set<string>)
    requires WellFormed(e, known) && e.tool == "*"
    ensures ParseEntry(JObj(Printed(e).o - {"tool"}), known) == Some(e)
  {
    PrintedSays(e);
    SaidIsParsed(JObj(Printed(e).o - {"tool"}), e, known);
  }

  function PrintedMatrix(es: seq<Entry>): Json {
    JObj(map["entries" := JArr(seq(|es|, i requires 0 <= i < |es| => Printed(es[i])))])
  }

  lemma ParsedIs(parse: Parser, raws: seq<Json>, es: seq<Entry>)
    requires |raws| == |es| && forall i :: 0 <= i < |es| ==> parse(raws[i]) == Some(es[i])
    ensures AllParse(parse, raws) && Parsed(parse, raws) == es
  {
  }

  /** A matrix of well-formed entries with different keys is read back entry by entry, in its order. */
  lemma MatrixRoundTrip(es: seq<Entry>, known: set<string>)
    requires DistinctKeys(es) && forall i :: 0 <= i < |es| ==> WellFormed(es[i], known)
    ensures MatrixOf(PrintedMatrix(es), known) == Some(es)
  {
    var raws := seq(|es|, i requires 0 <= i < |es| => Printed(es[i]));
    assert PrintedMatrix(es).o.Keys == {"entries"};
    assert RawEntries(PrintedMatrix(es)) == Some(raws);
    forall i | 0 <= i < |es|
      ensures EntryParser(known)(raws[i]) == Some(es[i])
    {
      EntryRoundTrip(es[i], known);
    }
    ParsedIs(EntryParser(known), raws, es);
  }

  lemma DeciderSays(raw: string, d: Decider)
    requires ParseDecider(Some(JStr(raw))) == Some(d)
    ensures match d
            case Human(id) => id != "" && raw == "human:" + id
            case QuorumOf(n) =>
              && n >= 2
              && exists digits :: AllDigits(digits) && digits != "" && DigitsValue(digits) == n
                                  && raw == "consensus:quorum=" + digits
  {
    if StartsWith(raw, "human:") {
      assert raw == "human:" + raw[6..];
    } else {
      assert raw == "consensus:quorum=" + raw[17..];
    }
  }

  /** Conversely, an entry that is read says what is written: nothing is guessed but the wildcard for a missing tool. */
  lemma EntrySays(j: Json, known: set<string>, e: Entry)
    requires ParseEntry(j, known) == Some(e)
    ensures WellFormed(e, known)
    ensures Property(j, "tier") == Some(JStr(TierName(e.tier))) && Property(j, "server") == Some(JStr(e.server))
    ensures Property(j, "channel") == Some(JStr(e.channel))
    ensures Property(j, "tool") == Some(JStr(e.tool)) || (Property(j, "tool").None? && e.tool == "*")
    ensures Property(j, "decider").Some? && Property(j, "decider").value.JStr?
    ensures match e.decider
            case Human(id) => Property(j, "decider") == Some(JStr("human:" + id))
            case QuorumOf(n) =>
              exists digits :: AllDigits(digits) && digits != "" && DigitsValue(digits) == n
                               && Property(j, "decider") == Some(JStr("consensus:quorum=" + digits))
    ensures j.JObj? && j.o.Keys <= {"tier", "server", "tool", "channel", "decider"}
  {
    DeciderSays(Property(j, "decider").value.s, e.decider);
  }

  /** A file without entries is an empty matrix; any other root than an object with at most `entries` is refused. */
  lemma RootMeaning(raw: Json, known: set<string>)
    ensures raw.JObj? && raw.o.Keys <= {"entries"} && ("entries" !in raw.o || raw.o["entries"] == JNull)
            ==> MatrixOf(raw, known) == Some([])
    ensures !raw.JObj? || !(raw.o.Keys <= {"entries"}) ==> MatrixOf(raw, known).None?
    ensures raw.JObj? && "entries" in raw.o && raw.o["entries"] != JNull && !raw.o["entries"].JArr? ==>
              MatrixOf(raw, known).None?
  {
  }

  // ---------------------------------------------------------------- what acceptance means

  predicate SameTriple(e: Entry, f: Entry) { e.tier == f.tier && e.server == f.server && e.tool == f.tool }

  predicate DistinctTriples(es: seq<Entry>) {
    forall i, j :: 0 <= i < j < |es| ==> !SameTriple(es[i], es[j])
  }

  lemma SplitAtFirstBar(a: string, b: string, c: string, d: string)
    requires '|' !in a && '|' !in c && a + "|" + b == c + "|" + d
    ensures a == c && b == d
  {
    var s := a + "|" + b;
    assert s[|a|] == '|' && s[|c|] == '|';
    assert s[..|a|] == a && s[..|c|] == c;
    assert s[|a| + 1..] == b && s[|c| + 1..] == d;
  }

  /** One known server's name, a bar and something more is the name of another known server. */
  predicate Overlaps(s: string, t: string) { s != "" && s != t && StartsWith(t, s + "|") }

  predicate NoOverlap(known: set<string>) { forall s, t :: s in known && t in known ==> !Overlaps(s, t) }

  lemma ShorterServerOverlaps(s: string, tool: string, t: string, tool': string)
    requires s + "|" + tool == t + "|" + tool' && s != "" && |s| < |t|
    ensures Overlaps(s, t)
  {
    var text := s + "|" + tool;
    assert text[..|s| + 1] == s + "|";
    assert t[..|s| + 1] == text[..|s| + 1];
  }

  /** Equal joined texts come from the same server and tool, or from servers that overlap. */
  lemma SameServerOrOverlap(s: string, tool: string, t: string, tool': string)
    requires s + "|" + tool == t + "|" + tool' && s != "" && t != ""
    ensures Overlaps(s, t) || Overlaps(t, s) || (s == t && tool == tool')
  {
    var text := s + "|" + tool;
    if |s| < |t| {
      ShorterServerOverlaps(s, tool, t, tool');
    } else if |t| < |s| {
      ShorterServerOverlaps(t, tool', s, tool);
    } else {
      assert s == text[..|s|] == t;
      assert tool == text[|s| + 1..] == tool';
    }
  }

  lemma KeySplits(e: Entry, f: Entry)
    ensures KeyOf(e) == KeyOf(f) <==> e.tier == f.tier && e.server + "|" + e.tool == f.server + "|" + f.tool
  {
    var x, y := e.server + "|" + e.tool, f.server + "|" + f.tool;
    assert KeyOf(e) == TierName(e.tier) + "|" + x;
    assert KeyOf(f) == TierName(f.tier) + "|" + y;
    if KeyOf(e) == KeyOf(f) {
      SplitAtFirstBar(TierName(e.tier), x, TierName(f.tier), y);
    }
  }

  /** The key determines the triple as long as the two servers do not overlap. */
  lemma KeyDeterminesTriple(e: Entry, f: Entry)
    requires e.server != "" && f.server != "" && !Overlaps(e.server, f.server) && !Overlaps(f.server, e.server)
    ensures KeyOf(e) == KeyOf(f) <==> SameTriple(e, f)
  {
    KeySplits(e, f);
    if KeyOf(e) == KeyOf(f) {
      SameServerOrOverlap(e.server, e.tool, f.server, f.tool);
    }
  }

  /** With overlapping servers, different entries have the same key, whatever the tier and the tool. */
  lemma KeysCollide(e: Entry, f: Entry)
    requires Overlaps(e.server, f.server) && e.tier == f.tier
    requires e.tool == f.server[|e.server| + 1..] + "|" + f.tool
    ensures KeyOf(e) == KeyOf(f) && !SameTriple(e, f)
  {
    var x := f.server[|e.server| + 1..];
    assert f.server == e.server + "|" + x;
    assert e.server + "|" + (x + "|" + f.tool) == (e.server + "|" + x) + "|" + f.tool;
    KeySplits(e, f);
  }

  /** Accepted entries are pairwise different in (tier, server, tool). */
  lemma DistinctKeysMeanDistinctTriples(es: seq<Entry>)
    requires DistinctKeys(es)
    ensures DistinctTriples(es)
  {
  }

  lemma DistinctTriplesMeanDistinctKeys(es: seq<Entry>, known: set<string>)
    requires NoOverlap(known) && DistinctTriples(es)
    requires forall i :: 0 <= i < |es| ==> es[i].server in known && es[i].server != ""
    ensures DistinctKeys(es)
  {
    forall i, j | 0 <= i < j < |es|
      ensures KeyOf(es[i]) != KeyOf(es[j])
    {
      KeyDeterminesTriple(es[i], es[j]);
    }
  }

  /** A raw entry for a server and a tool. */
  function RawEntry(server: string, tool: string): Json {
    JObj(map["tier" := JStr("gate"), "server" := JStr(server), "tool" := JStr(tool), "channel" := JStr("ops"),
             "decider" := JStr("human:x")])
  }

  lemma RawEntryParses(server: string, tool: string, known: set<string>)
    requires server in known && server != "" && tool != ""
    ensures EntryParser(known)(RawEntry(server, tool)) == Some(PlainEntry(server, tool))
  {
    var j := RawEntry(server, tool);
    assert j.o.Keys <= ENTRY_KEYS;
    assert "human:x"[..6] == "human:" && "human:x"[6..] == "x";
    assert TrimStart("ops") == "ops" && TrimEnd("ops") == "ops";
  }

  lemma ParsedServersAreKnown(raws: seq<Json>, known: set<string>)
    requires AllParse(EntryParser(known), raws)
    ensures var es := Parsed(EntryParser(known), raws);
            forall i :: 0 <= i < |es| ==> es[i].server in known && es[i].server != ""
  {
    var es := Parsed(EntryParser(known), raws);
    forall i | 0 <= i < |es|
      ensures es[i].server in known && es[i].server != ""
    {
      assert ParseEntry(raws[i], known) == Some(es[i]);
    }
  }

  /** The entry that such a raw entry stands for. */
  function PlainEntry(server: string, tool: string): Entry { Entry(Gate, server, tool, "ops", Human("x")) }

  lemma CollidingPairIsRefused(parse: Parser, s: string, t: string, a: Json, b: Json)
    requires Overlaps(s, t)
    requires parse(a) == Some(PlainEntry(s, t[|s| + 1..] + "|x")) && parse(b) == Some(PlainEntry(t, "x"))
    ensures AllParse(parse, [a, b]) && DistinctTriples(Parsed(parse, [a, b])) && !Acceptable(parse, [a, b])
  {
    var x := t[|s| + 1..];
    assert x + "|" + "x" == x + "|x";
    KeysCollide(PlainEntry(s, x + "|x"), PlainEntry(t, "x"));
    var es := Parsed(parse, [a, b]);
    assert es[0] == PlainEntry(s, x + "|x") && es[1] == PlainEntry(t, "x");
  }

  /** For overlapping known servers: two raw entries that parse, differ, and are refused together. */
  lemma RefusedThoughDifferent(s: string, t: string, known: set<string>) returns (raws: seq<Json>)
    requires s in known && t in known && Overlaps(s, t)
    ensures AllParse(EntryParser(known), raws) && DistinctTriples(Parsed(EntryParser(known), raws))
    ensures !Acceptable(EntryParser(known), raws)
  {
    var a, b := RawEntry(s, t[|s| + 1..] + "|x"), RawEntry(t, "x");
    RawEntryParses(s, t[|s| + 1..] + "|x", known);
    RawEntryParses(t, "x", known);
    CollidingPairIsRefused(EntryParser(known), s, t, a, b);
    raws := [a, b];
  }

  /** The parser refuses parsable entries only if two of them have the same (tier, server, tool). */
  ghost predicate RefusesOnlyDuplicates(known: set<string>) {
    forall raws :: AllParse(EntryParser(known), raws) ==>
      (Acceptable(EntryParser(known), raws) <==> DistinctTriples(Parsed(EntryParser(known), raws)))
  }

  /** The duplicate test means what it says exactly for known servers that do not overlap. */
  lemma RefusesOnlyDuplicatesIff(known: set<string>)
    ensures RefusesOnlyDuplicates(known) <==> NoOverlap(known)
  {
    if NoOverlap(known) {
      forall raws | AllParse(EntryParser(known), raws)
        ensures Acceptable(EntryParser(known), raws) <==> DistinctTriples(Parsed(EntryParser(known), raws))
      {
        var es := Parsed(EntryParser(known), raws);
        ParsedServersAreKnown(raws, known);
        if DistinctTriples(es) {
          DistinctTriplesMeanDistinctKeys(es, known);
        }
        if DistinctKeys(es) {
          DistinctKeysMeanDistinctTriples(es);
        }
      }
    } else {
      var s, t :| s in known && t in known && Overlaps(s, t);
      var raws := RefusedThoughDifferent(s, t, known);
    }
  }

  // ---------------------------------------------------------------- lookup

  datatype GateContext = GateContext(tier: Tier, server: string, tool: string)

  datatype Target = Target(channel: string, decider: Decider)

  function TargetOf(e: Entry): Target { Target(e.channel, e.decider) }

  predicate Exact(e: Entry, ctx: GateContext) { e.tier == ctx.tier && e.server == ctx.server && e.tool == ctx.tool }

  predicate Wild(e: Entry, ctx: GateContext) {
    e.tier == ctx.tier && e.server == ctx.server && e.tool != ctx.tool && e.tool == WILDCARD
  }

  function LastWhere(es: seq<Entry>, p: Entry -> bool): (r: Option<Entry>)
    ensures r.Some? ==> r.value in es && p(r.value)
    ensures r.None? ==> forall e :: e in es ==> !p(e)
  {
    if es == [] then None
    else if p(es[|es| - 1]) then Some(es[|es| - 1])
    else
      assert forall e :: e in es <==> e in es[..|es| - 1] || e == es[|es| - 1];
      LastWhere(es[..|es| - 1], p)
  }

  function Lookup(es: seq<Entry>, ctx: GateContext): Option<Target> {
    var exact := LastWhere(es, e => Exact(e, ctx));
    var wild := LastWhere(es, e => Wild(e, ctx));
    if exact.Some? then Some(TargetOf(exact.value)) else if wild.Some? then Some(TargetOf(wild.value)) else None
  }

  /** `resolveEntry`: one loop that remembers the last exact and the last wildcard match. */
  method ResolveEntry(es: seq<Entry>, ctx: GateContext) returns (r: Option<Target>)
    ensures r == Lookup(es, ctx)
  {
    var exact: Option<Entry>, wildcard: Option<Entry> := None, None;
    for i := 0 to |es|
      invariant exact == LastWhere(es[..i], e => Exact(e, ctx))
      invariant wildcard == LastWhere(es[..i], e => Wild(e, ctx))
    {
      assert es[..i + 1][..i] == es[..i];
      var e := es[i];
      if e.tier != ctx.tier || e.server != ctx.server {
        continue;
      }
      if e.tool == ctx.tool {
        exact := Some(e);
      } else if e.tool == WILDCARD {
        wildcard := Some(e);
      }
    }
    assert es[..|es|] == es;
    if exact.Some? {
      return Some(TargetOf(exact.value));
    } else if wildcard.Some? {
      return Some(TargetOf(wildcard.value));
    } else {
      return None;
    }
  }

  /** An entry is determined by its triple. */
  ghost predicate Functional(es: seq<Entry>) {
    forall e, f :: e in es && f in es && SameTriple(e, f) ==> e == f
  }

  lemma DistinctIsFunctional(es: seq<Entry>)
    requires DistinctTriples(es)
    ensures Functional(es)
  {
  }

  /**
   The lookup is "the exact tool, else the wildcard, else nothing", as a statement about which entries
   there are and not about their order.
   */
  lemma LookupMeaning(es: seq<Entry>, ctx: GateContext, e: Entry)
    requires DistinctTriples(es) && e in es
    ensures Exact(e, ctx) ==> Lookup(es, ctx) == Some(TargetOf(e))
    ensures Wild(e, ctx) && (forall f :: f in es ==> !Exact(f, ctx)) ==> Lookup(es, ctx) == Some(TargetOf(e))
    ensures Lookup(es, ctx).None? ==> !Exact(e, ctx) && !Wild(e, ctx)
  {
    DistinctIsFunctional(es);
  }

  /** The entry is about this tier and server, and about this tool or about all. */
  predicate Covers(e: Entry, ctx: GateContext) {
    e.tier == ctx.tier && e.server == ctx.server && (e.tool == ctx.tool || e.tool == "*")
  }

  /** Some entry is about just this tool. */
  predicate Named(es: seq<Entry>, ctx: GateContext) {
    exists e :: e in es && e.tier == ctx.tier && e.server == ctx.server && e.tool == ctx.tool
  }

  /** The answer is the target of a covering entry, and never of a wildcard if some entry names the tool. */
  lemma LookupIff(es: seq<Entry>, ctx: GateContext, t: Target)
    requires DistinctTriples(es)
    ensures Lookup(es, ctx) == Some(t)
            <==> exists e :: && e in es && Covers(e, ctx) && (Named(es, ctx) ==> e.tool == ctx.tool)
                             && e.channel == t.channel && e.decider == t.decider
    ensures Lookup(es, ctx).None? <==> forall e :: e in es ==> !Covers(e, ctx)
  {
    DistinctIsFunctional(es);
    forall e | e in es
      ensures Exact(e, ctx) ==> Lookup(es, ctx) == Some(TargetOf(e))
      ensures Wild(e, ctx) && !Named(es, ctx) ==> Lookup(es, ctx) == Some(TargetOf(e))
    {
      LookupMeaning(es, ctx, e);
    }
    var exact := LastWhere(es, e => Exact(e, ctx));
    var wild := LastWhere(es, e => Wild(e, ctx));
    if exact.Some? {
      assert exact.value in es && Covers(exact.value, ctx);
    } else if wild.Some? {
      assert wild.value in es && Covers(wild.value, ctx);
    }
  }

  /** Reordering an accepted matrix changes no answer. */
  lemma LookupIgnoresOrder(a: seq<Entry>, b: seq<Entry>, ctx: GateContext)
    requires DistinctTriples(a) && multiset(a) == multiset(b)
    ensures Lookup(a, ctx) == Lookup(b, ctx)
  {
    DistinctIsFunctional(a);
    forall e
      ensures e in a <==> e in b
    {
      assert e in multiset(a) <==> e in multiset(b);
    }
    var x, y := LastWhere(a, e => Exact(e, ctx)), LastWhere(b, e => Exact(e, ctx));
    assert x.Some? <==> y.Some?;
    var v, w := LastWhere(a, e => Wild(e, ctx)), LastWhere(b, e => Wild(e, ctx));
    assert v.Some? <==> w.Some?;
  }

  predicate IsRoutable(t: Option<Target>) {
    && t.Some?
    && NonBlank(t.value.channel)
    && (match t.value.decider
        case Human(id) => id != ""
        case QuorumOf(q) => q >= 2)
  }

  lemma ParsedIsRoutable(j: Json, known: set<string>)
    requires ParseEntry(j, known).Some?
    ensures IsRoutable(Some(TargetOf(ParseEntry(j, known).value)))
  {
  }

  /** Everything an accepted matrix resolves to can be routed. */
  lemma ResolvedIsRoutable(raws: seq<Json>, known: set<string>, ctx: GateContext)
    requires AllParse(EntryParser(known), raws)
    ensures var es := Parsed(EntryParser(known), raws); Lookup(es, ctx).Some? ==> IsRoutable(Lookup(es, ctx))
  {
    var es := Parsed(EntryParser(known), raws);
    forall i | 0 <= i < |es|
      ensures IsRoutable(Some(TargetOf(es[i])))
    {
      ParsedIsRoutable(raws[i], known);
    }
  }

  // ---------------------------------------------------------------- the router

  datatype ApprovalRequest = ApprovalRequest(requestId: string, server: string, tool: string, tier: Tier,
      sender: string)

  datatype Answer = ApproverThrows(note: string) | Returns(raw: Json)

  /** The decision, the target it stems from, and the channels that were asked, in order. */
  datatype Routed = Routed(decision: Decision, target: Option<Target>, asked: seq<string>)

  function ClaimedChannel(raw: Json): Option<string> {
    match Property(raw, "channelId")
    case Some(JStr(s)) => Some(s)
    case _ => None
  }

  /** Keeps an approver's claim to be another channel in the note. */
  function WithClaim(d: Decision, raw: Json, channel: string): Decision {
    match ClaimedChannel(raw)
    case None => d
    case Some(claimed) =>
      if claimed == channel then d
      else
        var note := "approver claimed channelId: " + claimed;
        d.(note := Some(if d.note.Some? && d.note.value != "" then d.note.value + "; " + note else note))
  }

  function RequestApprovalViaMatrix(es: seq<Entry>, approver: (string, ApprovalRequest) -> Answer,
                                    ctx: GateContext, req: ApprovalRequest): Routed
  {
    if ctx != GateContext(req.tier, req.server, req.tool) then
      Routed(Decision(DeniedNoChannel, None, Some("matrix: ctx/req mismatch")), None, [])
    else
      var resolved := Lookup(es, ctx);
      if !IsRoutable(resolved) then
        Routed(Decision(DeniedNoChannel, None, Some("matrix: not routable")), None, [])
      else
        var channel := resolved.value.channel;
        match approver(channel, req)
        case ApproverThrows(note) => Routed(Decision(Error, Some(channel), Some(note)), resolved, [channel])
        case Returns(raw) => Routed(WithClaim(NormalizeDecision(raw, channel), raw, channel), resolved, [channel])
  }

  /** The channel has a name, and the decider is a named human or a quorum of at least two. */
  predicate Deliverable(t: Target) {
    && (exists k :: 0 <= k < |t.channel| && !IsSpace(t.channel[k]))
    && t.decider != Human("")
    && (forall n :: t.decider == QuorumOf(n) ==> n >= 2)
  }

  lemma {:induction false} NotBlankIff(s: string)
    ensures NonBlank(s) <==> exists k :: 0 <= k < |s| && !IsSpace(s[k])
  {
    var pre, post := TrimMeaning(s);
    if NonBlank(s) {
      assert !IsSpace(s[|pre|]) by {
        assert s[|pre|] == Trim(s)[0];
      }
    }
    if k :| 0 <= k < |s| && !IsSpace(s[k]) {
      assert k >= |pre| by {
        assert forall i :: 0 <= i < |pre| ==> s[i] == pre[i];
      }
      assert forall i :: |pre| + |Trim(s)| <= i < |s| ==> s[i] == post[i - |pre| - |Trim(s)|];
    }
  }

  lemma RoutableIff(t: Target)
    ensures IsRoutable(Some(t)) <==> Deliverable(t)
  {
    NotBlankIff(t.channel);
  }

  /**
   The router asks at most one channel, exactly the one the matrix resolves for the request itself; the
   result carries a target exactly when a channel was asked; and a call is approved only if that channel
   said so.
   */
  lemma RouterAsksOnlyTheResolvedChannel(es: seq<Entry>, approver: (string, ApprovalRequest) -> Answer,
                                         ctx: GateContext, req: ApprovalRequest)
    ensures var r := RequestApprovalViaMatrix(es, approver, ctx, req);
            var own := GateContext(req.tier, req.server, req.tool);
            && (r.target.None? <==> r.asked == [])
            && (r.asked != [] <==> ctx == own && Lookup(es, own).Some? && Deliverable(Lookup(es, own).value))
            && (r.asked != [] ==> r.target == Lookup(es, own) && r.asked == [Lookup(es, own).value.channel]
                                  && r.decision.channelId == Some(r.asked[0]))
            && (IsApproved(r.decision) <==>
                  r.asked != [] && approver(r.asked[0], req).Returns?
                  && Property(approver(r.asked[0], req).raw, "outcome") == Some(JStr("approved")))
  {
    var resolved := Lookup(es, ctx);
    if resolved.Some? {
      RoutableIff(resolved.value);
    }
    if IsRoutable(resolved) {
      match approver(resolved.value.channel, req)
      case ApproverThrows(_) =>
      case Returns(raw) => ApprovedOnlyIfSaid(raw, resolved.value.channel);
    }
  }

  /**
   The rest of the answer: nobody asked is a denial, a throwing approver an error with its note, and otherwise the
   outcome is the one that was said; a claim to be another channel is kept at the end of the note.
   */
  lemma RouterAnswer(es: seq<Entry>, approver: (string, ApprovalRequest) -> Answer, ctx: GateContext,
      req: ApprovalRequest)
    ensures var r := RequestApprovalViaMatrix(es, approver, ctx, req);
            && (r.asked == [] ==> r.decision.outcome == DeniedNoChannel && r.decision.channelId.None?)
            && (r.asked != [] ==>
                  match approver(r.asked[0], req)
                  case ApproverThrows(note) => r.decision.outcome == Error && r.decision.note == Some(note)
                  case Returns(raw) =>
                    var d := NormalizeDecision(raw, r.asked[0]);
                    && r.decision.outcome == d.outcome
                    && match Property(raw, "channelId")
                       case Some(JStr(c)) =>
                         if c == r.asked[0] then r.decision.note == d.note
                         else r.decision.note == Some(Before(d.note) + "approver claimed channelId: " + c)
                       case _ => r.decision.note == d.note)
  {
    var r := RequestApprovalViaMatrix(es, approver, ctx, req);
    if r.asked != [] {
      match approver(r.asked[0], req)
      case ApproverThrows(_) =>
      case Returns(raw) => ClaimIsKept(NormalizeDecision(raw, r.asked[0]), raw, r.asked[0]);
    }
  }

  /** What stands in front of the remark about the claim: the approver's own note, if it is not empty. */
  function Before(note: Option<string>): string {
    match note
    case None => ""
    case Some(n) => if n == "" then "" else n + "; "
  }

  lemma ClaimIsKept(d: Decision, raw: Json, channel: string)
    ensures var e := WithClaim(d, raw, channel);
            && e.outcome == d.outcome
            && match Property(raw, "channelId")
               case Some(JStr(c)) =>
                 if c == channel then e.note == d.note
                 else e.note == Some(Before(d.note) + "approver claimed channelId: " + c)
               case _ => e.note == d.note
  {
    match Property(raw, "channelId")
    case Some(JStr(c)) =>
      if c != channel {
        var note := "approver claimed channelId: " + c;
        assert note == "" + "approver claimed channelId: " + c;
        if d.note.Some? && d.note.value != "" {
          assert d.note.value + "; " + note == (d.note.value + "; ") + "approver claimed channelId: " + c;
        }
      }
    case _ =>
  }

  /** On an accepted matrix, the router's answer does not depend on the order of the entries either. */
  lemma RoutingIgnoresOrder(a: seq<Entry>, b: seq<Entry>, approver: (string, ApprovalRequest) -> Answer,
                            ctx: GateContext, req: ApprovalRequest)
    requires DistinctTriples(a) && multiset(a) == multiset(b)
    ensures RequestApprovalViaMatrix(a, approver, ctx, req) == RequestApprovalViaMatrix(b, approver, ctx, req)
  {
    LookupIgnoresOrder(a, b, ctx);
  }
}
