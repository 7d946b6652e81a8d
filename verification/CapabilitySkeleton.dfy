/**
 The capability overview (capability-skeleton.ts): untyped registry entries grouped by skill, one line
 per skill, sorted by skill id. The lemmas say when the result does not depend on the input order.
 */
module CapabilitySkeleton {
  import opened Prelude
  import opened Text

  datatype Capability = Capability(skillId: Json, agentId: Json, health: Json, description: Json, category: Json)

  datatype Health = Healthy | Degraded | Offline

  datatype Entry = Entry(skillId: string, summary: string, category: string, providers: nat, health: Health)

  function AsStr(j: Json): string { if j.JStr? then j.s else "" }

  /** A string stands for itself, anything else for the empty text. */
  lemma AsStrIff(j: Json, s: string)
    ensures AsStr(j) == s <==> j == JStr(s) || (!j.JStr? && s == "")
  {
  }

  function SkillOf(c: Capability): string { AsStr(c.skillId) }

  function AgentOf(c: Capability): string { AsStr(c.agentId) }

  // ---------------------------------------------------------------- summaries

  const SUMMARY_MAX_LEN := 160
  const ELLIPSIS := "\U{2026}"

  predicate IsTerminator(c: char) { c == '.' || c == '!' || c == '?' }

  /** The end of the first sentence at or after `k`: a terminator followed by white space or the end of the text. */
  function SentenceEnd(t: string, k: nat): (r: nat)
    requires k <= |t|
    ensures k <= r <= |t|
    decreases |t| - k
  {
    if k == |t| then k
    else if IsTerminator(t[k]) && (k + 1 == |t| || IsSpace(t[k + 1])) then k + 1
    else SentenceEnd(t, k + 1)
  }

  function FirstSentence(text: Json): string {
    var trimmed := Trim(AsStr(text));
    var sentence := Trim(trimmed[..SentenceEnd(trimmed, 0)]);
    if |sentence| <= SUMMARY_MAX_LEN then sentence
    else TrimEnd(sentence[..SUMMARY_MAX_LEN]) + ELLIPSIS
  }

  /** A summary is never longer than the limit and the ellipsis, whatever the description is. */
  lemma SummaryIsShort(text: Json)
    ensures |FirstSentence(text)| <= SUMMARY_MAX_LEN + 1
  {
    var trimmed := Trim(AsStr(text));
    var sentence := Trim(trimmed[..SentenceEnd(trimmed, 0)]);
    if |sentence| > SUMMARY_MAX_LEN {
      TrimEndShape(sentence[..SUMMARY_MAX_LEN]);
    }
  }

  /** A sentence ends before `e`: at a terminator followed by white space or nothing. */
  predicate EndsAt(t: string, e: nat) { 1 <= e <= |t| && IsTerminator(t[e - 1]) && (e == |t| || IsSpace(t[e])) }

  lemma {:induction false} SentenceEndIsFirst(t: string, k: nat)
    requires k <= |t|
    ensures var e := SentenceEnd(t, k);
            && ((EndsAt(t, e) && e > k) || e == |t|)
            && forall j: nat :: k < j < e ==> !EndsAt(t, j)
    decreases |t| - k
  {
    if k < |t| && !(IsTerminator(t[k]) && (k + 1 == |t| || IsSpace(t[k + 1]))) {
      SentenceEndIsFirst(t, k + 1);
    }
  }

  /**
   The summary is the trimmed text up to the first sentence end, or all of it if there is none; if that has more
   than 160 characters, the first 160 without white space at the end, and an ellipsis.
   */
  lemma SummaryMeaning(text: Json) returns (e: nat)
    ensures var t := Trim(AsStr(text));
            && e <= |t| && (EndsAt(t, e) || e == |t|) && (forall j: nat :: 0 < j < e ==> !EndsAt(t, j))
            && (e <= 160 ==> FirstSentence(text) == t[..e])
            && (e > 160 ==> FirstSentence(text) == TrimEnd(t[..160]) + ELLIPSIS)
  {
    var t := Trim(AsStr(text));
    e := SentenceEnd(t, 0);
    SentenceEndIsFirst(t, 0);
    TrimIdempotent(AsStr(text));
    PrefixIsTrimmed(t, e);
    assert e > 160 ==> t[..e][..160] == t[..160];
  }

  /** A part of a trimmed text that ends with the text or with something else than white space is trimmed. */
  lemma PrefixIsTrimmed(t: string, e: nat)
    requires e <= |t| && Trim(t) == t && (e == |t| || (e > 0 && !IsSpace(t[e - 1])))
    ensures Trim(t[..e]) == t[..e]
  {
    if e == |t| {
      assert t[..e] == t;
    } else {
      TrimStartShape(t);
      TrimEndShape(TrimStart(t));
      assert !IsSpace(t[0]) && t[..e][0] == t[0] && t[..e][e - 1] == t[e - 1];
      assert TrimStart(t[..e]) == t[..e];
    }
  }

  // ---------------------------------------------------------------- one skill

  /** What a value looks like as a key of the rank table: a list of one element looks like that element. Whatever
      else is not a string never looks like a key of that table. */
  function AsKey(j: Json): string {
    match j
    case JStr(s) => s
    case JArr(a) => if |a| == 1 then AsKey(a[0]) else ""
    case _ => ""
  }

  function HealthRank(j: Json): nat {
    var key := AsKey(j);
    if key == "healthy" then 0 else if key == "degraded" then 1 else if key == "offline" then 2 else 3
  }

  /** `a` comes before `b` in the order of preference: healthier, then the smaller agent id. */
  predicate Preferred(a: Capability, b: Capability) {
    || HealthRank(a.health) < HealthRank(b.health)
    || (HealthRank(a.health) == HealthRank(b.health) && LexLess(AgentOf(a), AgentOf(b)))
  }

  /** The first element of the stably sorted group: the earliest one that none other precedes. */
  function Best(group: seq<Capability>): (r: Capability)
    requires group != []
    ensures r in group
  {
    if |group| == 1 then group[0]
    else
      var b := Best(group[..|group| - 1]);
      var last := group[|group| - 1];
      if Preferred(last, b) then last else b
  }

  lemma PreferredTransitive(a: Capability, b: Capability, c: Capability)
    requires !Preferred(b, a) && !Preferred(c, b)
    ensures !Preferred(c, a)
  {
    LexTrichotomy(AgentOf(a), AgentOf(b));
    LexTrichotomy(AgentOf(b), AgentOf(c));
    LexTrichotomy(AgentOf(a), AgentOf(c));
    if Preferred(c, a) && LexLess(AgentOf(a), AgentOf(b)) && LexLess(AgentOf(b), AgentOf(c)) {
      LexTransitive(AgentOf(a), AgentOf(b), AgentOf(c));
    }
  }

  lemma {:induction false} BestIsLeast(group: seq<Capability>, c: Capability)
    requires group != [] && c in group
    ensures !Preferred(c, Best(group))
  {
    LexTrichotomy(AgentOf(c), AgentOf(c));
    if |group| > 1 {
      var front := group[..|group| - 1];
      var b := Best(front);
      var last := group[|group| - 1];
      LexTrichotomy(AgentOf(last), AgentOf(last));
      LexTrichotomy(AgentOf(last), AgentOf(b));
      if c in front {
        BestIsLeast(front, c);
        if Preferred(last, b) {
          PreferredTransitive(last, b, c);
        }
      } else {
        assert c == last;
      }
    }
  }

  predicate SomeHealth(group: seq<Capability>, h: string) { exists c :: c in group && c.health == JStr(h) }

  function GroupHealth(group: seq<Capability>): Health {
    if SomeHealth(group, "healthy") then Healthy else if SomeHealth(group, "degraded") then Degraded else Offline
  }

  function EntryFor(id: string, group: seq<Capability>): Entry
    requires group != []
  {
    var p := Best(group);
    Entry(id, FirstSentence(p.description), AsStr(p.category), |group|, GroupHealth(group))
  }

  // ---------------------------------------------------------------- all skills

  function Group(caps: seq<Capability>, id: string): seq<Capability> {
    if caps == [] then []
    else Group(caps[..|caps| - 1], id) + if SkillOf(caps[|caps| - 1]) == id then [caps[|caps| - 1]] else []
  }

  lemma {:induction false} GroupMembers(caps: seq<Capability>, id: string, c: Capability)
    ensures c in Group(caps, id) <==> c in caps && SkillOf(c) == id
    ensures multiset(Group(caps, id))[c] == if SkillOf(c) == id then multiset(caps)[c] else 0
  {
    if caps != [] {
      var front := caps[..|caps| - 1];
      GroupMembers(front, id, c);
      assert caps == front + [caps[|caps| - 1]];
    }
  }

  function Skills(caps: seq<Capability>): set<string> { set c | c in caps && SkillOf(c) != "" :: SkillOf(c) }

  lemma GroupNonEmpty(caps: seq<Capability>, id: string)
    requires id in Skills(caps)
    ensures Group(caps, id) != []
  {
    var c :| c in caps && SkillOf(c) == id;
    GroupMembers(caps, id, c);
  }

  predicate StrictlySorted(es: seq<Entry>) {
    forall i, j :: 0 <= i < j < |es| ==> LexLess(es[i].skillId, es[j].skillId)
  }

  /** The overview of `caps`: one entry per usable skill id, strictly sorted. */
  ghost predicate IsSkeleton(caps: seq<Capability>, es: seq<Entry>) {
    && StrictlySorted(es)
    && (forall e :: e in es ==> e.skillId in Skills(caps))
    && (forall e :: e in es ==> Group(caps, e.skillId) != [] && e == EntryFor(e.skillId, Group(caps, e.skillId)))
    && (forall id :: id in Skills(caps) ==> exists e :: e in es && e.skillId == id)
  }

  /** Healthy before degraded before offline before anything else; for strings and lists of one string alike. */
  lemma RanksMeaning(j: Json)
    ensures HealthRank(JStr("healthy")) < HealthRank(JStr("degraded")) < HealthRank(JStr("offline")) <= 2
    ensures j.JStr? && j.s !in {"healthy", "degraded", "offline"} ==> HealthRank(j) == 3
    ensures HealthRank(JArr([j])) == HealthRank(j)
    ensures HealthRank(j) <= 3
  {
  }

  /** `c` provides the skill, and no other provider has a better health, or the same and a smaller agent id. */
  predicate Leads(caps: seq<Capability>, id: string, c: Capability) {
    && c in caps && c.skillId == JStr(id)
    && forall d :: d in caps && d.skillId == JStr(id) ==>
         && HealthRank(c.health) <= HealthRank(d.health)
         && (HealthRank(c.health) == HealthRank(d.health) ==> !LexLess(AsStr(d.agentId), AsStr(c.agentId)))
  }

  predicate SomeProviderIs(caps: seq<Capability>, id: string, health: string) {
    exists c :: c in caps && c.skillId == JStr(id) && c.health == JStr(health)
  }

  /**
   What a line of the overview shows: summary and category of a leading provider, how many capabilities have the
   skill, and the best health that any of them has, offline if that is neither healthy nor degraded.
   */
  lemma LineMeaning(caps: seq<Capability>, es: seq<Entry>, e: Entry)
    requires IsSkeleton(caps, es) && e in es
    ensures e.skillId != ""
    ensures exists c ::
              Leads(caps, e.skillId, c) && e.summary == FirstSentence(c.description) && e.category == AsStr(c.category)
    ensures e.providers == CountIn(caps, {e.skillId})
    ensures e.health == Healthy <==> SomeProviderIs(caps, e.skillId, "healthy")
    ensures e.health == Degraded <==>
              !SomeProviderIs(caps, e.skillId, "healthy") && SomeProviderIs(caps, e.skillId, "degraded")
  {
    var id := e.skillId;
    var g := Group(caps, id);
    forall c
      ensures c in g <==> c in caps && AsStr(c.skillId) == id
    {
      GroupMembers(caps, id, c);
    }
    var best := Best(g);
    CountInAdds(caps, {}, id);
    assert {} + {id} == {id};
    BestIsOneOfTheLeast(g);
    BestLeads(caps, id, best);
    SomeHealthIff(caps, id, "healthy");
    SomeHealthIff(caps, id, "degraded");
  }

  lemma SomeHealthIff(caps: seq<Capability>, id: string, h: string)
    requires id != ""
    ensures SomeHealth(Group(caps, id), h) <==> SomeProviderIs(caps, id, h)
  {
    forall c
      ensures c in Group(caps, id) <==> c in caps && AsStr(c.skillId) == id
    {
      GroupMembers(caps, id, c);
    }
  }

  lemma BestLeads(caps: seq<Capability>, id: string, c: Capability)
    requires id != "" && Least(Group(caps, id), c)
    ensures Leads(caps, id, c)
  {
    GroupMembers(caps, id, c);
    forall d | d in caps && d.skillId == JStr(id)
      ensures HealthRank(c.health) <= HealthRank(d.health)
      ensures HealthRank(c.health) == HealthRank(d.health) ==> !LexLess(AsStr(d.agentId), AsStr(c.agentId))
    {
      GroupMembers(caps, id, d);
      assert !Preferred(d, c);
    }
  }

  function Insert(es: seq<Entry>, e: Entry): seq<Entry> {
    if es == [] || LexLess(e.skillId, es[0].skillId) then [e] + es else [es[0]] + Insert(es[1..], e)
  }

  lemma {:induction false} InsertMembers(es: seq<Entry>, e: Entry, x: Entry)
    ensures x in Insert(es, e) <==> x in es || x == e
  {
    if es != [] && !LexLess(e.skillId, es[0].skillId) {
      InsertMembers(es[1..], e, x);
      assert es == [es[0]] + es[1..];
    }
  }

  lemma {:induction false} InsertKeepsSorted(es: seq<Entry>, e: Entry)
    requires StrictlySorted(es) && forall x :: x in es ==> x.skillId != e.skillId
    ensures StrictlySorted(Insert(es, e))
  {
    if es != [] {
      if LexLess(e.skillId, es[0].skillId) {
        forall j | 0 < j < |es|
          ensures LexLess(e.skillId, es[j].skillId)
        {
          LexTransitive(e.skillId, es[0].skillId, es[j].skillId);
        }
      } else {
        LexTrichotomy(e.skillId, es[0].skillId);
        InsertKeepsSorted(es[1..], e);
        var rest := Insert(es[1..], e);
        forall j | 0 <= j < |rest|
          ensures LexLess(es[0].skillId, rest[j].skillId)
        {
          InsertMembers(es[1..], e, rest[j]);
        }
      }
    }
  }

  /** `buildCapabilitySkeleton`: collect the groups in one loop, make an entry per group in a second, sort. */
  method BuildCapabilitySkeleton(caps: seq<Capability>) returns (es: seq<Entry>)
    ensures IsSkeleton(caps, es)
  {
    var bySkill := GroupBySkill(caps);
    GroupedMeaning(caps, bySkill);
    es := [];
    var todo := bySkill.Keys;
    while todo != {}
      invariant todo <= bySkill.Keys
      invariant StrictlySorted(es)
      invariant forall e :: e in es ==> e.skillId in bySkill && e.skillId !in todo
      invariant forall e :: e in es ==> bySkill[e.skillId] != [] && e == EntryFor(e.skillId, bySkill[e.skillId])
      invariant forall id :: id in bySkill && id !in todo ==> exists e :: e in es && e.skillId == id
      decreases todo
    {
      var id :| id in todo;
      GroupNonEmpty(caps, id);
      var e := EntryFor(id, bySkill[id]);
      InsertKeepsSorted(es, e);
      forall x
        ensures x in Insert(es, e) <==> x in es || x == e
      {
        InsertMembers(es, e, x);
      }
      es := Insert(es, e);
      todo := todo - {id};
    }
  }

  /** `bySkill` holds the groups of `caps`. */
  ghost predicate Grouped(caps: seq<Capability>, bySkill: Groups) {
    && bySkill.Keys == Skills(caps)
    && forall id :: id != "" ==> HasGroup(caps, bySkill, id)
  }

  predicate HasGroup(caps: seq<Capability>, bySkill: Groups, id: string) {
    Group(caps, id) == if id in bySkill then bySkill[id] else []
  }

  type Groups = map<string, seq<Capability>>

  function Push(bySkill: Groups, id: string, c: Capability): Groups {
    bySkill[id := if id in bySkill then bySkill[id] + [c] else [c]]
  }

  lemma SkillsStep(caps: seq<Capability>, c: Capability)
    ensures Skills(caps + [c]) == Skills(caps) + if SkillOf(c) == "" then {} else {SkillOf(c)}
  {
    assert forall x :: x in caps + [c] <==> x in caps || x == c;
  }

  lemma GroupStep(caps: seq<Capability>, c: Capability, id: string)
    ensures Group(caps + [c], id) == Group(caps, id) + if SkillOf(c) == id then [c] else []
  {
    assert (caps + [c])[..|caps|] == caps;
  }

  /** One turn of the loop: an unusable id is skipped, any other one joins or opens its group. */
  function Added(bySkill: Groups, c: Capability): Groups {
    if SkillOf(c) == "" then bySkill else Push(bySkill, SkillOf(c), c)
  }

  lemma AddedGroup(caps: seq<Capability>, c: Capability, bySkill: Groups, id: string)
    requires HasGroup(caps, bySkill, id) && id != ""
    ensures HasGroup(caps + [c], Added(bySkill, c), id)
  {
    GroupStep(caps, c, id);
    assert Group(caps, id) + [] == Group(caps, id);
  }

  lemma GroupedStep(caps: seq<Capability>, c: Capability, bySkill: Groups)
    requires Grouped(caps, bySkill)
    ensures Grouped(caps + [c], Added(bySkill, c))
  {
    SkillsStep(caps, c);
    forall id | id != ""
      ensures HasGroup(caps + [c], Added(bySkill, c), id)
    {
      AddedGroup(caps, c, bySkill, id);
    }
  }

  lemma GroupedMeaning(caps: seq<Capability>, bySkill: Groups)
    requires Grouped(caps, bySkill)
    ensures bySkill.Keys == Skills(caps)
    ensures forall id :: id in bySkill ==> bySkill[id] == Group(caps, id)
  {
    assert "" !in bySkill;
    assert forall id :: id in bySkill ==> HasGroup(caps, bySkill, id);
  }

  method GroupBySkill(caps: seq<Capability>) returns (bySkill: Groups)
    ensures Grouped(caps, bySkill)
  {
    bySkill := map[];
    for i := 0 to |caps|
      invariant Grouped(caps[..i], bySkill)
    {
      var c := caps[i];
      GroupedStep(caps[..i], c, bySkill);
      assert caps[..i + 1] == caps[..i] + [c];
      bySkill := Added(bySkill, c);
    }
    assert caps[..|caps|] == caps;
  }

  /** There is only one overview of an input. */
  lemma {:induction false} SortedByIdIsUnique(a: seq<Entry>, b: seq<Entry>)
    requires StrictlySorted(a) && StrictlySorted(b) && forall e :: e in a <==> e in b
    ensures a == b
  {
    assert a == [] <==> b == [] by {
      if a != [] { assert a[0] in a; }
      if b != [] { assert b[0] in b; }
    }
    if a != [] {
      assert a[0] in b;
      assert b[0] in a;
      LexTrichotomy(a[0].skillId, b[0].skillId);
      assert a[0] == b[0];
      LexTrichotomy(a[0].skillId, a[0].skillId);
      forall e
        ensures e in a[1..] <==> e in b[1..]
      {
        assert e in a <==> e == a[0] || e in a[1..];
        assert e in b <==> e == b[0] || e in b[1..];
      }
      SortedByIdIsUnique(a[1..], b[1..]);
    }
  }

  // ---------------------------------------------------------------- when the order does not matter

  predicate Least(group: seq<Capability>, c: Capability) { c in group && forall d :: d in group ==> !Preferred(d, c) }

  /** What a provider contributes to the line of its skill. */
  function Shows(c: Capability): (string, string) { (FirstSentence(c.description), AsStr(c.category)) }

  /** Among the most preferred providers of a skill, all show the same. */
  ghost predicate LeastAgree(group: seq<Capability>) {
    forall c, d :: Least(group, c) && Least(group, d) ==> Shows(c) == Shows(d)
  }

  /** A line says what the best provider shows, the number of providers and their health. */
  lemma SameLineIff(id: string, g: seq<Capability>, g': seq<Capability>)
    requires g != [] && g' != [] && |g| == |g'| && forall c :: c in g <==> c in g'
    ensures EntryFor(id, g) == EntryFor(id, g') <==> Shows(Best(g)) == Shows(Best(g'))
  {
    assert GroupHealth(g) == GroupHealth(g');
  }

  lemma BestIsOneOfTheLeast(group: seq<Capability>)
    requires group != []
    ensures Least(group, Best(group))
  {
    forall d | d in group
      ensures !Preferred(d, Best(group))
    {
      BestIsLeast(group, d);
    }
  }

  lemma PermutedGroups(caps: seq<Capability>, caps': seq<Capability>, id: string)
    requires multiset(caps) == multiset(caps')
    ensures multiset(Group(caps, id)) == multiset(Group(caps', id)) && |Group(caps, id)| == |Group(caps', id)|
    ensures forall c :: c in Group(caps, id) <==> c in Group(caps', id)
  {
    var g, g' := Group(caps, id), Group(caps', id);
    forall c
      ensures multiset(g)[c] == multiset(g')[c] && (c in g <==> c in g')
    {
      GroupMembers(caps, id, c);
      GroupMembers(caps', id, c);
      assert c in caps <==> c in multiset(caps);
      assert c in caps' <==> c in multiset(caps');
    }
    assert multiset(g) == multiset(g');
    assert |multiset(g)| == |g| && |multiset(g')| == |g'|;
  }

  lemma PermutedEntry(caps: seq<Capability>, caps': seq<Capability>, id: string)
    requires multiset(caps) == multiset(caps') && id in Skills(caps) && LeastAgree(Group(caps, id))
    ensures Group(caps, id) != [] && Group(caps', id) != []
    ensures EntryFor(id, Group(caps, id)) == EntryFor(id, Group(caps', id))
  {
    GroupNonEmpty(caps, id);
    PermutedGroups(caps, caps', id);
    BestIsOneOfTheLeast(Group(caps, id));
    BestIsOneOfTheLeast(Group(caps', id));
    assert Least(Group(caps, id), Best(Group(caps', id)));
    SameLineIff(id, Group(caps, id), Group(caps', id));
  }

  lemma {:induction false} LeadingLeastIsBest(group: seq<Capability>)
    requires group != [] && Least(group, group[0])
    ensures Best(group) == group[0]
  {
    if |group| > 1 {
      LeadingLeastIsBest(group[..|group| - 1]);
    }
  }

  lemma {:induction false} GroupOfLeading(x: Capability, rest: seq<Capability>)
    ensures Group([x] + rest, SkillOf(x)) == [x] + Group(rest, SkillOf(x))
  {
    var all := [x] + rest;
    if rest == [] {
      assert all == [x] && Group(all[..0], SkillOf(x)) == [];
    } else {
      GroupOfLeading(x, rest[..|rest| - 1]);
      assert all[..|all| - 1] == [x] + rest[..|rest| - 1];
    }
  }

  /** The same capabilities with `x` moved to the front. */
  lemma MoveToFront(caps: seq<Capability>, x: Capability) returns (caps': seq<Capability>)
    requires x in caps
    ensures multiset(caps') == multiset(caps)
    ensures Group(caps', SkillOf(x)) != [] && Group(caps', SkillOf(x))[0] == x
  {
    var i :| 0 <= i < |caps| && caps[i] == x;
    var rest := caps[..i] + caps[i + 1..];
    caps' := [x] + rest;
    assert caps == caps[..i] + [x] + caps[i + 1..];
    GroupOfLeading(x, rest);
  }

  /** If two most preferred providers of a skill disagree, some reordering of the input shows something else. */
  lemma SomeOrderDiffers(caps: seq<Capability>, id: string) returns (caps': seq<Capability>)
    requires id in Skills(caps) && !LeastAgree(Group(caps, id))
    ensures multiset(caps') == multiset(caps)
    ensures Group(caps, id) != [] && Group(caps', id) != []
    ensures EntryFor(id, Group(caps, id)) != EntryFor(id, Group(caps', id))
  {
    var g := Group(caps, id);
    GroupNonEmpty(caps, id);
    var x := OneThatDiffers(g);
    GroupMembers(caps, id, x);
    caps' := MoveToFront(caps, x);
    PermutedGroups(caps, caps', id);
    LeadingLeastIsBest(Group(caps', id));
    SameLineIff(id, g, Group(caps', id));
  }

  lemma OneThatDiffers(g: seq<Capability>) returns (x: Capability)
    requires g != [] && !LeastAgree(g)
    ensures Least(g, x) && Shows(x) != Shows(Best(g))
  {
    var c, d :| Least(g, c) && Least(g, d) && Shows(c) != Shows(d);
    x := if Shows(c) != Shows(Best(g)) then c else d;
  }

  /** The strictly sorted list of the lines of the given skills. */
  ghost predicate IsListing(ids: set<string>, line: string -> Entry, es: seq<Entry>) {
    StrictlySorted(es) && forall e :: e in es <==> e.skillId in ids && e == line(e.skillId)
  }

  lemma ListingIsUnique(ids: set<string>, line: string -> Entry, line': string -> Entry, es: seq<Entry>,
      es': seq<Entry>)
    requires IsListing(ids, line, es) && IsListing(ids, line', es') && forall id :: id in ids ==> line(id) == line'(id)
    ensures es == es'
  {
    SortedByIdIsUnique(es, es');
  }

  lemma ListingExists(ids: set<string>, line: string -> Entry) returns (es: seq<Entry>)
    requires forall id :: id in ids ==> line(id).skillId == id
    ensures IsListing(ids, line, es)
  {
    if ids == {} {
      es := [];
    } else {
      var id :| id in ids;
      var rest := ListingExists(ids - {id}, line);
      InsertKeepsSorted(rest, line(id));
      es := Insert(rest, line(id));
      forall x
        ensures x in es <==> x in rest || x == line(id)
      {
        InsertMembers(rest, line(id), x);
      }
    }
  }

  /** The line of each skill, as a function of its id. */
  function LineOf(caps: seq<Capability>): string -> Entry {
    id => if Group(caps, id) == [] then Entry(id, "", "", 0, Offline) else EntryFor(id, Group(caps, id))
  }

  lemma SkeletonIsListing(caps: seq<Capability>, es: seq<Entry>)
    ensures IsSkeleton(caps, es) <==> IsListing(Skills(caps), LineOf(caps), es)
  {
    forall id | id in Skills(caps)
      ensures Group(caps, id) != [] && LineOf(caps)(id).skillId == id
    {
      GroupNonEmpty(caps, id);
    }
    if IsSkeleton(caps, es) {
      forall e: Entry | e.skillId in Skills(caps) && e == LineOf(caps)(e.skillId)
        ensures e in es
      {
        var f :| f in es && f.skillId == e.skillId;
        assert f == e;
      }
    }
    if IsListing(Skills(caps), LineOf(caps), es) {
      forall id | id in Skills(caps)
        ensures exists e :: e in es && e.skillId == id
      {
        assert LineOf(caps)(id) in es;
      }
    }
  }

  lemma PermutedSkills(caps: seq<Capability>, caps': seq<Capability>)
    requires multiset(caps) == multiset(caps')
    ensures Skills(caps) == Skills(caps')
  {
    forall c
      ensures c in caps <==> c in caps'
    {
      assert c in multiset(caps) <==> c in multiset(caps');
    }
  }

  /** Every input has an overview. */
  lemma SkeletonExists(caps: seq<Capability>) returns (es: seq<Entry>)
    ensures IsSkeleton(caps, es)
  {
    es := ListingExists(Skills(caps), LineOf(caps));
    SkeletonIsListing(caps, es);
  }

  lemma AgreeingLeastGiveSameLines(caps: seq<Capability>, caps': seq<Capability>)
    requires multiset(caps') == multiset(caps) && forall id :: id in Skills(caps) ==> LeastAgree(Group(caps, id))
    ensures forall id :: id in Skills(caps) ==> LineOf(caps)(id) == LineOf(caps')(id)
  {
    forall id | id in Skills(caps)
      ensures LineOf(caps)(id) == LineOf(caps')(id)
    {
      PermutedEntry(caps, caps', id);
    }
  }

  /** If the most preferred providers agree, a permutation of the input has the same overview. */
  lemma AgreeingLeastGiveSameSkeleton(caps: seq<Capability>, caps': seq<Capability>, es: seq<Entry>, es': seq<Entry>)
    requires multiset(caps') == multiset(caps) && forall id :: id in Skills(caps) ==> LeastAgree(Group(caps, id))
    ensures IsSkeleton(caps, es) && IsSkeleton(caps', es') ==> es == es'
  {
    if IsSkeleton(caps, es) && IsSkeleton(caps', es') {
      AgreeingLeastGiveSameLines(caps, caps');
      PermutedSkills(caps, caps');
      SkeletonIsListing(caps, es);
      SkeletonIsListing(caps', es');
      ListingIsUnique(Skills(caps), LineOf(caps), LineOf(caps'), es, es');
    }
  }

  lemma ListingsDiffer(ids: set<string>, line: string -> Entry, line': string -> Entry, es: seq<Entry>,
      es': seq<Entry>, id: string)
    requires IsListing(ids, line, es) && IsListing(ids, line', es')
    requires id in ids && line(id).skillId == id && line(id) != line'(id)
    ensures es != es'
  {
    assert line(id) in es && line(id) !in es';
  }

  /**
   The overview is independent of the input order exactly when, for every skill, the most preferred
   providers show the same.
   */
  lemma OrderIndependentIff(caps: seq<Capability>)
    ensures (forall id :: id in Skills(caps) ==> LeastAgree(Group(caps, id)))
            <==> (forall caps', es, es' ::
                    multiset(caps') == multiset(caps) && IsSkeleton(caps, es) && IsSkeleton(caps', es')
                    ==> es == es')
  {
    if forall id :: id in Skills(caps) ==> LeastAgree(Group(caps, id)) {
      forall caps', es, es' | multiset(caps') == multiset(caps) && IsSkeleton(caps, es) && IsSkeleton(caps', es')
        ensures es == es'
      {
        AgreeingLeastGiveSameSkeleton(caps, caps', es, es');
      }
    } else {
      var id :| id in Skills(caps) && !LeastAgree(Group(caps, id));
      var caps' := SomeOrderDiffers(caps, id);
      var es := SkeletonExists(caps);
      var es' := SkeletonExists(caps');
      SkeletonIsListing(caps, es);
      SkeletonIsListing(caps', es');
      PermutedSkills(caps, caps');
      ListingsDiffer(Skills(caps), LineOf(caps), LineOf(caps'), es, es', id);
    }
  }

  /** No two usable capabilities have the same skill and the same agent. */
  predicate UniquePairs(caps: seq<Capability>) {
    forall i, j :: 0 <= i < j < |caps| && SkillOf(caps[i]) == SkillOf(caps[j]) != ""
        ==> AgentOf(caps[i]) != AgentOf(caps[j])
  }

  lemma UniquePairsAgree(caps: seq<Capability>, id: string)
    requires UniquePairs(caps) && id != ""
    ensures LeastAgree(Group(caps, id))
  {
    forall c, d | Least(Group(caps, id), c) && Least(Group(caps, id), d)
      ensures c == d
    {
      GroupMembers(caps, id, c);
      GroupMembers(caps, id, d);
      LexTrichotomy(AgentOf(c), AgentOf(d));
      var i :| 0 <= i < |caps| && caps[i] == c;
      var j :| 0 <= j < |caps| && caps[j] == d;
      assert i == j;
    }
  }

  /** With unique (skill, agent) pairs, permuting the input leaves the overview as it is. */
  lemma SkeletonIgnoresOrder(caps: seq<Capability>, caps': seq<Capability>, es: seq<Entry>, es': seq<Entry>)
    requires UniquePairs(caps) && multiset(caps) == multiset(caps')
    requires IsSkeleton(caps, es) && IsSkeleton(caps', es')
    ensures es == es'
  {
    forall id | id in Skills(caps)
      ensures LeastAgree(Group(caps, id))
    {
      UniquePairsAgree(caps, id);
    }
    AgreeingLeastGiveSameSkeleton(caps, caps', es, es');
  }

  // ---------------------------------------------------------------- the provider counts

  function Total(es: seq<Entry>): nat {
    if es == [] then 0 else Total(es[..|es| - 1]) + es[|es| - 1].providers
  }

  function CountIn(caps: seq<Capability>, ids: set<string>): nat {
    if caps == [] then 0 else CountIn(caps[..|caps| - 1], ids) + if SkillOf(caps[|caps| - 1]) in ids then 1 else 0
  }

  function Usable(caps: seq<Capability>): nat {
    if caps == [] then 0 else Usable(caps[..|caps| - 1]) + if SkillOf(caps[|caps| - 1]) != "" then 1 else 0
  }

  lemma {:induction false} CountInAdds(caps: seq<Capability>, ids: set<string>, id: string)
    requires id !in ids
    ensures CountIn(caps, ids + {id}) == CountIn(caps, ids) + |Group(caps, id)|
    ensures CountIn(caps, {}) == 0
  {
    if caps != [] {
      CountInAdds(caps[..|caps| - 1], ids, id);
    }
  }

  lemma {:induction false} CountInSkills(caps: seq<Capability>, ids: set<string>)
    requires Skills(caps) <= ids && "" !in ids
    ensures CountIn(caps, ids) == Usable(caps)
  {
    if caps != [] {
      var front := caps[..|caps| - 1];
      assert forall c :: c in front ==> c in caps;
      CountInSkills(front, ids);
      assert caps[|caps| - 1] in caps;
    }
  }

  lemma {:induction false} TotalCounts(caps: seq<Capability>, es: seq<Entry>) returns (ids: set<string>)
    requires StrictlySorted(es) && forall e :: e in es ==> e.providers == |Group(caps, e.skillId)|
    ensures ids == (set e | e in es :: e.skillId) && Total(es) == CountIn(caps, ids)
  {
    if es == [] {
      ids := {};
      CountInAdds(caps, {}, "");
    } else {
      var front := es[..|es| - 1];
      var last := es[|es| - 1];
      var before := TotalCounts(caps, front);
      forall e | e in front
        ensures e.skillId != last.skillId
      {
        LexTrichotomy(e.skillId, last.skillId);
      }
      CountInAdds(caps, before, last.skillId);
      ids := before + {last.skillId};
      assert forall e :: e in es <==> e in front || e == last;
    }
  }

  /** The provider counts add up to the number of inputs with a usable skill id: nothing is lost or counted twice. */
  lemma ProvidersAddUp(caps: seq<Capability>, es: seq<Entry>)
    requires IsSkeleton(caps, es)
    ensures Total(es) == Usable(caps)
  {
    var ids := TotalCounts(caps, es);
    CountInSkills(caps, ids);
  }
}
