/**
 The LaunchDaemon plist renderer (launchd-plist.ts): XML escaping by five replace passes, placeholder
 substitution in one scan over the template, and the check for leftover placeholders.
 */
module LaunchdPlist {
  import opened Prelude
  import opened Text

  // ---------------------------------------------------------------- escaping

  /** One pass: `s.replace(/c/g, r)`. */
  function ReplaceAll(s: string, c: char, r: string): string {
    if s == "" then "" else (if s[0] == c then r else [s[0]]) + ReplaceAll(s[1..], c, r)
  }

  predicate IsMarkup(c: char) { c == '<' || c == '>' || c == '"' || c == '\'' }

  /** The predefined entity for a character that needs one (section 4.6 of XML 1.0). */
  function Entity(c: char): string {
    if c == '&' then "&amp;"
    else if c == '<' then "&lt;"
    else if c == '>' then "&gt;"
    else if c == '"' then "&quot;"
    else if c == '\'' then "&apos;"
    else [c]
  }

  /** The characters in the order of the passes. */
  const ESCAPED := "&<>\"'"

  function Pass(k: nat, s: string): string
    requires k < 5
  {
    ReplaceAll(s, ESCAPED[k], Entity(ESCAPED[k]))
  }

  function EscapeXml(s: string): string { Pass(4, Pass(3, Pass(2, Pass(1, Pass(0, s))))) }

  /** Every character replaced at once. */
  function Substitute(s: string): string {
    if s == "" then "" else Entity(s[0]) + Substitute(s[1..])
  }

  lemma {:induction false} ReplaceAllConcat(a: string, b: string, c: char, r: string)
    ensures ReplaceAll(a + b, c, r) == ReplaceAll(a, c, r) + ReplaceAll(b, c, r)
  {
    if a == "" {
      assert a + b == b;
    } else {
      var ab, head := a + b, if a[0] == c then r else [a[0]];
      assert ab[0] == a[0] && ab[1..] == a[1..] + b;
      ReplaceAllConcat(a[1..], b, c, r);
      ConcatAssociates(head, ReplaceAll(a[1..], c, r), ReplaceAll(b, c, r));
    }
  }

  lemma {:induction false} ReplaceAllAbsent(s: string, c: char, r: string)
    requires c !in s
    ensures ReplaceAll(s, c, r) == s
  {
    if s != "" {
      ReplaceAllAbsent(s[1..], c, r);
    }
  }

  lemma PassConcat(k: nat, a: string, b: string)
    requires k < 5
    ensures Pass(k, a + b) == Pass(k, a) + Pass(k, b)
  {
    ReplaceAllConcat(a, b, ESCAPED[k], Entity(ESCAPED[k]));
  }

  lemma EscapeConcat(a: string, b: string)
    ensures EscapeXml(a + b) == EscapeXml(a) + EscapeXml(b)
  {
    var a1, b1 := Pass(0, a), Pass(0, b);
    var a2, b2 := Pass(1, a1), Pass(1, b1);
    var a3, b3 := Pass(2, a2), Pass(2, b2);
    var a4, b4 := Pass(3, a3), Pass(3, b3);
    PassConcat(0, a, b);
    PassConcat(1, a1, b1);
    PassConcat(2, a2, b2);
    PassConcat(3, a3, b3);
    PassConcat(4, a4, b4);
  }

  /** What the first `k` passes make of a single character. */
  function Stage(k: nat, c: char): string
    requires k <= 5
  {
    if c in ESCAPED[..k] then Entity(c) else [c]
  }

  lemma EntityHasNoMarkup(c: char)
    requires c in ESCAPED
    ensures forall i :: 0 <= i < |Entity(c)| ==> !IsMarkup(Entity(c)[i])
  {
  }

  /** No pass after the first touches an entity that is already there, because `&` came first. */
  lemma PassStage(k: nat, c: char)
    requires k < 5
    ensures Pass(k, Stage(k, c)) == Stage(k + 1, c)
  {
    assert ESCAPED[..k + 1] == ESCAPED[..k] + [ESCAPED[k]];
    if c in ESCAPED[..k] {
      EntityHasNoMarkup(c);
      ReplaceAllAbsent(Entity(c), ESCAPED[k], Entity(ESCAPED[k]));
    } else {
      assert ReplaceAll([c][1..], ESCAPED[k], Entity(ESCAPED[k])) == "";
    }
  }

  lemma EscapeOne(c: char)
    ensures EscapeXml([c]) == Entity(c)
  {
    assert ESCAPED[..0] == "" && ESCAPED[..5] == ESCAPED;
    PassStage(0, c);
    assert Pass(0, [c]) == Stage(1, c);
    PassStage(1, c);
    assert Pass(1, Pass(0, [c])) == Stage(2, c);
    PassStage(2, c);
    PassStage(3, c);
    PassStage(4, c);
  }

  /** The five passes, `&` first, amount to one simultaneous substitution. */
  lemma {:induction false} EscapeIsSubstitution(s: string)
    ensures EscapeXml(s) == Substitute(s)
  {
    if s != "" {
      EscapeIsSubstitution(s[1..]);
      EscapeOne(s[0]);
      EscapeConcat([s[0]], s[1..]);
      assert [s[0]] + s[1..] == s;
    }
  }

  /** Reading the predefined entities back, left to right. */
  function Unescape(s: string): string {
    if s == "" then ""
    else if StartsWith(s, "&amp;") then "&" + Unescape(s[5..])
    else if StartsWith(s, "&lt;") then "<" + Unescape(s[4..])
    else if StartsWith(s, "&gt;") then ">" + Unescape(s[4..])
    else if StartsWith(s, "&quot;") then "\"" + Unescape(s[6..])
    else if StartsWith(s, "&apos;") then "'" + Unescape(s[6..])
    else [s[0]] + Unescape(s[1..])
  }

  lemma UnescapePlain(c: char, rest: string)
    requires c != '&'
    ensures Unescape([c] + rest) == [c] + Unescape(rest)
  {
    var s := [c] + rest;
    DifferentStart(s, "&amp;", 0);
    DifferentStart(s, "&lt;", 0);
    DifferentStart(s, "&gt;", 0);
    DifferentStart(s, "&quot;", 0);
    DifferentStart(s, "&apos;", 0);
    assert s[0] == c && s[1..] == rest;
  }

  lemma UnescapeAmp(rest: string)
    ensures Unescape("&amp;" + rest) == "&" + Unescape(rest)
  {
    StartsWithItself("&amp;", rest);
  }

  lemma UnescapeLt(rest: string)
    ensures Unescape("&lt;" + rest) == "<" + Unescape(rest)
  {
    StartsWithItself("&lt;", rest);
    DifferentStart("&lt;" + rest, "&amp;", 1);
  }

  lemma UnescapeGt(rest: string)
    ensures Unescape("&gt;" + rest) == ">" + Unescape(rest)
  {
    StartsWithItself("&gt;", rest);
    DifferentStart("&gt;" + rest, "&amp;", 1);
    DifferentStart("&gt;" + rest, "&lt;", 1);
  }

  lemma UnescapeQuot(rest: string)
    ensures Unescape("&quot;" + rest) == "\"" + Unescape(rest)
  {
    StartsWithItself("&quot;", rest);
    DifferentStart("&quot;" + rest, "&amp;", 1);
    DifferentStart("&quot;" + rest, "&lt;", 1);
    DifferentStart("&quot;" + rest, "&gt;", 1);
  }

  lemma UnescapeApos(rest: string)
    ensures Unescape("&apos;" + rest) == "'" + Unescape(rest)
  {
    StartsWithItself("&apos;", rest);
    DifferentStart("&apos;" + rest, "&amp;", 2);
    DifferentStart("&apos;" + rest, "&lt;", 1);
    DifferentStart("&apos;" + rest, "&gt;", 1);
    DifferentStart("&apos;" + rest, "&quot;", 1);
  }

  lemma UnescapeEntity(c: char, rest: string)
    ensures Unescape(Entity(c) + rest) == [c] + Unescape(rest)
  {
    if c == '&' { UnescapeAmp(rest); }
    else if c == '<' { UnescapeLt(rest); }
    else if c == '>' { UnescapeGt(rest); }
    else if c == '"' { UnescapeQuot(rest); }
    else if c == '\'' { UnescapeApos(rest); }
    else { UnescapePlain(c, rest); }
  }

  /** Unescaping undoes escaping, so different values never render alike. */
  lemma {:induction false} UnescapeEscape(s: string)
    ensures Unescape(EscapeXml(s)) == s
  {
    EscapeIsSubstitution(s);
    if s != "" {
      UnescapeEscape(s[1..]);
      EscapeIsSubstitution(s[1..]);
      UnescapeEntity(s[0], Substitute(s[1..]));
    }
  }

  // ---------------------------------------------------------------- rendering

  datatype DaemonContext = DaemonContext(
    nodeBin: string, repoDir: string, dataDir: string, runUser: string, runGroup: string, configPath: Option<string>)

  predicate AbsolutePath(s: string) { NonBlank(s) && StartsWith(s, "/") }

  predicate Identifier(s: string) { NonBlank(s) && forall i :: 0 <= i < |s| ==> !IsSpace(s[i]) }

  predicate ValidContext(ctx: DaemonContext) {
    && AbsolutePath(ctx.nodeBin) && AbsolutePath(ctx.repoDir) && AbsolutePath(ctx.dataDir)
    && (ctx.configPath.Some? ==> AbsolutePath(ctx.configPath.value))
    && Identifier(ctx.runUser) && Identifier(ctx.runGroup)
  }

  function Values(ctx: DaemonContext): map<string, string> {
    map["NODE_BIN" := ctx.nodeBin, "REPO" := ctx.repoDir, "DATA_DIR" := ctx.dataDir,
        "CONFIG" := (if ctx.configPath.Some? then ctx.configPath.value else ctx.repoDir + "/config/daemon.toml"),
        "RUN_USER" := ctx.runUser, "RUN_GROUP" := ctx.runGroup]
  }

  predicate IsNameChar(c: char) { 'A' <= c <= 'Z' || c == '_' }

  /** The end of the run of name characters that starts at `k`. */
  function NameEnd(s: string, k: nat): (e: nat)
    requires k <= |s|
    ensures k <= e <= |s|
    decreases |s| - k
  {
    if k < |s| && IsNameChar(s[k]) then NameEnd(s, k + 1) else k
  }

  predicate IsName(s: string) { forall i :: 0 <= i < |s| ==> IsNameChar(s[i]) }

  lemma {:induction false} NameEndShape(s: string, k: nat, i: nat)
    requires k <= |s| && k <= i < NameEnd(s, k)
    ensures IsNameChar(s[i])
    decreases |s| - k
  {
    if k < i {
      NameEndShape(s, k + 1, i);
    }
  }

  /** The name of the placeholder `{{NAME}}` at the start of `s`, if there is one. */
  function PlaceholderAt(s: string): (r: Option<string>)
    ensures r.Some? ==> |r.value| + 4 <= |s|
  {
    if |s| < 2 || s[0] != '{' || s[1] != '{' then None
    else
      var e := NameEnd(s, 2);
      if e > 2 && e + 1 < |s| && s[e] == '}' && s[e + 1] == '}' then Some(s[2..e]) else None
  }

  lemma PlaceholderShape(s: string)
    requires PlaceholderAt(s).Some?
    ensures var name := PlaceholderAt(s).value; IsName(name) && s[..|name| + 4] == "{{" + name + "}}"
  {
    var e := NameEnd(s, 2);
    var name := s[2..e];
    forall i | 0 <= i < |name|
      ensures IsNameChar(name[i])
    {
      NameEndShape(s, 2, 2 + i);
    }
    assert s[..e + 2] == "{{" + name + "}}";
  }

  /** What the scan puts in place of a placeholder: the escaped value, or the placeholder itself if it is unknown. */
  function Filled(values: map<string, string>, name: string): string {
    if name in values then EscapeXml(values[name]) else "{{" + name + "}}"
  }

  /** Recognises a placeholder at the start of a text and gives its name. */
  type Matcher = string -> Option<string>

  function Slot(at: Matcher, s: string): Option<string> {
    if at(s).Some? && |at(s).value| + 4 <= |s| then at(s) else None
  }

  /** How far the scan advances from the start of `s`, and what it puts there. */
  function Width(at: Matcher, s: string): (w: nat)
    requires s != ""
    ensures 1 <= w <= |s|
  {
    if Slot(at, s).Some? then |Slot(at, s).value| + 4 else 1
  }

  function Piece(at: Matcher, fill: string -> string, s: string): string
    requires s != ""
  {
    if Slot(at, s).Some? then fill(Slot(at, s).value) else [s[0]]
  }

  function UnknownAt(at: Matcher, known: set<string>, s: string): set<string> {
    if Slot(at, s).Some? && Slot(at, s).value !in known then {Slot(at, s).value} else {}
  }

  /** The template from `pos` on, with every placeholder replaced by what `fill` says; one scan, left to right. */
  function Rendered(at: Matcher, fill: string -> string, t: string, pos: nat): string
    requires pos <= |t|
    decreases |t| - pos
  {
    if pos == |t| then "" else Piece(at, fill, t[pos..]) + Rendered(at, fill, t, pos + Width(at, t[pos..]))
  }

  /** The placeholder names from `pos` on that are not known. */
  function Missing(at: Matcher, known: set<string>, t: string, pos: nat): set<string>
    requires pos <= |t|
    decreases |t| - pos
  {
    if pos == |t| then {} else UnknownAt(at, known, t[pos..]) + Missing(at, known, t, pos + Width(at, t[pos..]))
  }

  function Filling(values: map<string, string>): string -> string { name => Filled(values, name) }

  function Render(values: map<string, string>, t: string): string {
    Rendered(PlaceholderAt, Filling(values), t, 0)
  }

  function UnknownNames(values: map<string, string>, t: string): set<string> {
    Missing(PlaceholderAt, values.Keys, t, 0)
  }

  /** `[^}]*\}\}` matches at the start of `s`. */
  predicate StrayRest(s: string) { StartsWith(s, "}}") || (s != "" && s[0] != '}' && StrayRest(s[1..])) }

  /** `\{\{[^}]*\}\}` matches at the start of `s`. */
  predicate StrayHere(s: string) { StartsWith(s, "{{") && StrayRest(s[2..]) }

  /** `[A-Z_]+__` matches at the start of `s`. */
  predicate LegacyRest(s: string) { s != "" && IsNameChar(s[0]) && (StartsWith(s[1..], "__") || LegacyRest(s[1..])) }

  /** `__[A-Z_]+__` matches at the start of `s`. */
  predicate LegacyHere(s: string) { StartsWith(s, "__") && LegacyRest(s[2..]) }

  predicate Clean(s: string) {
    forall i :: 0 <= i <= |s| ==> !StrayHere(s[i..]) && !LegacyHere(s[i..])
  }

  datatype RenderResult = Plist(text: string) | InvalidContext | UnknownPlaceholders(names: set<string>) | NotClean

  /** The scan as it runs: what has been written and which names were unknown so far, carried along. */
  function Scanned(at: Matcher, fill: string -> string, known: set<string>, t: string, pos: nat, done: string,
      seen: set<string>): (string, set<string>)
    requires pos <= |t|
    decreases |t| - pos
  {
    if pos == |t| then (done, seen) else
      var s := t[pos..];
      Scanned(at, fill, known, t, pos + Width(at, s), done + Piece(at, fill, s), seen + UnknownAt(at, known, s))
  }

  lemma {:induction false} ScannedIsRendered(at: Matcher, fill: string -> string, known: set<string>, t: string,
      pos: nat, done: string, seen: set<string>)
    requires pos <= |t|
    ensures Scanned(at, fill, known, t, pos, done, seen)
        == (done + Rendered(at, fill, t, pos), seen + Missing(at, known, t, pos))
    decreases |t| - pos
  {
    if pos == |t| {
      assert done + "" == done;
      assert seen + {} == seen;
    } else {
      var s := t[pos..];
      var next := pos + Width(at, s);
      ScannedIsRendered(at, fill, known, t, next, done + Piece(at, fill, s), seen + UnknownAt(at, known, s));
      ConcatAssociates(done, Piece(at, fill, s), Rendered(at, fill, t, next));
      UnionAssociates(seen, UnknownAt(at, known, s), Missing(at, known, t, next));
    }
  }

  lemma UnionAssociates<T>(a: set<T>, b: set<T>, c: set<T>)
    ensures a + b + c == a + (b + c)
  {
  }

  /** The scan over the template, collecting unknown names on the way. */
  method ScanTemplate(template: string, at: Matcher, fill: string -> string, known: set<string>)
    returns (rendered: string, missing: set<string>)
    ensures rendered == Rendered(at, fill, template, 0)
    ensures missing == Missing(at, known, template, 0)
  {
    missing := {};
    rendered := "";
    var pos := 0;
    ghost var outcome := Scanned(at, fill, known, template, 0, "", {});
    while pos < |template|
      invariant pos <= |template|
      invariant Scanned(at, fill, known, template, pos, rendered, missing) == outcome
    {
      var t := template[pos..];
      rendered := rendered + Piece(at, fill, t);
      missing := missing + UnknownAt(at, known, t);
      pos := pos + Width(at, t);
    }
    ScannedIsRendered(at, fill, known, template, 0, "", {});
  }

  method RenderLaunchDaemonPlist(template: string, ctx: DaemonContext) returns (r: RenderResult)
    ensures r.InvalidContext? <==> !ValidContext(ctx)
    ensures r.Plist?
            <==> ValidContext(ctx) && UnknownNames(Values(ctx), template) == {} && Clean(Render(Values(ctx), template))
    ensures r.Plist? ==> r.text == Render(Values(ctx), template)
    ensures r.UnknownPlaceholders? ==> r.names == UnknownNames(Values(ctx), template) != {}
  {
    if !ValidContext(ctx) {
      return InvalidContext;
    }
    var values := Values(ctx);
    var rendered, missing := ScanTemplate(template, PlaceholderAt, Filling(values), values.Keys);
    if missing != {} {
      return UnknownPlaceholders(missing);
    }
    if !Clean(rendered) {
      return NotClean;
    }
    return Plist(rendered);
  }

  // ---------------------------------------------------------------- the markup is the template's

  /** The angle brackets and quotes of a text, in order. */
  function Markup(s: string): string {
    if s == "" then "" else (if IsMarkup(s[0]) then [s[0]] else "") + Markup(s[1..])
  }

  lemma {:induction false} MarkupConcat(a: string, b: string)
    ensures Markup(a + b) == Markup(a) + Markup(b)
  {
    if a == "" {
      assert a + b == b;
    } else {
      var ab, head := a + b, if IsMarkup(a[0]) then [a[0]] else "";
      assert ab[0] == a[0] && ab[1..] == a[1..] + b;
      MarkupConcat(a[1..], b);
      ConcatAssociates(head, Markup(a[1..]), Markup(b));
    }
  }

  lemma {:induction false} NoMarkup(s: string)
    requires forall i :: 0 <= i < |s| ==> !IsMarkup(s[i])
    ensures Markup(s) == ""
  {
    if s != "" {
      NoMarkup(s[1..]);
    }
  }

  /** An escaped value brings no markup of its own. */
  lemma {:induction false} EscapedHasNoMarkup(s: string)
    ensures Markup(EscapeXml(s)) == ""
  {
    EscapeIsSubstitution(s);
    if s != "" {
      EscapedHasNoMarkup(s[1..]);
      EscapeIsSubstitution(s[1..]);
      NoMarkup(Entity(s[0]));
      MarkupConcat(Entity(s[0]), Substitute(s[1..]));
    }
  }

  /** Neither a recognised placeholder nor what replaces it contains markup. */
  ghost predicate MarkupFree(at: Matcher, fill: string -> string) {
    forall s :: Slot(at, s).Some? ==>
      Markup(s[..|Slot(at, s).value| + 4]) == "" && Markup(fill(Slot(at, s).value)) == ""
  }

  /** What the scan puts in place of the start of `s` has the same markup. */
  lemma PieceKeepsMarkup(at: Matcher, fill: string -> string, s: string)
    requires MarkupFree(at, fill) && s != ""
    ensures Markup(Piece(at, fill, s)) == Markup(s[..Width(at, s)])
  {
    if Slot(at, s).None? {
      assert s[..1] == [s[0]];
    }
  }

  /** A reading of texts that can be taken part by part. */
  ghost predicate PartByPart(m: string -> string) {
    m("") == "" && forall a, b :: m(a + b) == m(a) + m(b)
  }

  lemma StepKeeps(m: string -> string, piece: string, rest: string, s: string, w: nat)
    requires PartByPart(m) && w <= |s| && m(piece) == m(s[..w]) && m(rest) == m(s[w..])
    ensures m(piece + rest) == m(s)
  {
    assert m(piece + rest) == m(piece) + m(rest);
    assert s[..w] + s[w..] == s;
  }

  /** At position `pos` of the template, what the scan puts there reads as what it replaces, whatever follows. */
  ghost predicate PieceKept(m: string -> string, at: Matcher, fill: string -> string, t: string, pos: nat)
    requires pos < |t|
  {
    forall rest :: m(rest) == m(t[pos + Width(at, t[pos..])..]) ==> m(Piece(at, fill, t[pos..]) + rest) == m(t[pos..])
  }

  lemma PieceIsKept(m: string -> string, at: Matcher, fill: string -> string, t: string, pos: nat)
    requires PartByPart(m) && pos < |t| && m(Piece(at, fill, t[pos..])) == m(t[pos..][..Width(at, t[pos..])])
    ensures PieceKept(m, at, fill, t, pos)
  {
    var s := t[pos..];
    var w := Width(at, s);
    forall rest | m(rest) == m(t[pos + w..])
      ensures m(Piece(at, fill, s) + rest) == m(s)
    {
      assert s[w..] == t[pos + w..];
      StepKeeps(m, Piece(at, fill, s), rest, s, w);
    }
  }

  /** If every piece keeps a reading, so does the whole scan. */
  lemma {:induction false} ScanKeeps(m: string -> string, at: Matcher, fill: string -> string, t: string, pos: nat)
    requires pos <= |t| && forall p: nat :: p < |t| ==> PieceKept(m, at, fill, t, p)
    ensures m(Rendered(at, fill, t, pos)) == m(t[pos..])
    decreases |t| - pos
  {
    if pos == |t| {
      assert t[pos..] == "";
    } else {
      ScanKeeps(m, at, fill, t, pos + Width(at, t[pos..]));
      assert PieceKept(m, at, fill, t, pos);
    }
  }

  lemma MarkupIsPartByPart()
    ensures PartByPart(Markup)
  {
    forall a, b
      ensures Markup(a + b) == Markup(a) + Markup(b)
    {
      MarkupConcat(a, b);
    }
  }

  lemma FilledIsMarkupFree(values: map<string, string>, name: string)
    requires IsName(name)
    ensures Markup(Filled(values, name)) == "" && Markup("{{" + name + "}}") == ""
  {
    NoMarkup("{{" + name + "}}");
    if name in values {
      EscapedHasNoMarkup(values[name]);
    }
  }

  lemma FillingIsMarkupFree(values: map<string, string>)
    ensures MarkupFree(PlaceholderAt, Filling(values))
  {
    forall s | Slot(PlaceholderAt, s).Some?
      ensures var name := Slot(PlaceholderAt, s).value;
              Markup(s[..|name| + 4]) == "" && Markup(Filling(values)(name)) == ""
    {
      PlaceholderShape(s);
      FilledIsMarkupFree(values, PlaceholderAt(s).value);
    }
  }

  /** Filling in texts without markup keeps the template's markup. */
  lemma MarkupFreeScanKeeps(at: Matcher, fill: string -> string, t: string)
    requires MarkupFree(at, fill)
    ensures Markup(Rendered(at, fill, t, 0)) == Markup(t)
  {
    MarkupIsPartByPart();
    forall p: nat | p < |t|
      ensures PieceKept(Markup, at, fill, t, p)
    {
      PieceKeepsMarkup(at, fill, t[p..]);
      PieceIsKept(Markup, at, fill, t, p);
    }
    ScanKeeps(Markup, at, fill, t, 0);
    assert t[0..] == t;
  }

  /**
   Whatever the context's values are, the rendered text has exactly the template's angle brackets and
   quotes in the template's order: no value can add, remove or close an element.
   */
  lemma RenderingKeepsMarkup(values: map<string, string>, t: string)
    ensures Markup(Render(values, t)) == Markup(t)
  {
    FillingIsMarkupFree(values);
    MarkupFreeScanKeeps(PlaceholderAt, Filling(values), t);
  }

  lemma {:induction false} NameThenBracesIsStray(s: string, k: nat)
    requires k <= |s| && NameEnd(s, k) + 1 < |s| && s[NameEnd(s, k)] == '}' && s[NameEnd(s, k) + 1] == '}'
    ensures StrayRest(s[k..])
    decreases |s| - k
  {
    if IsNameChar(s[k]) {
      assert s[k..][1..] == s[k + 1..];
      NameThenBracesIsStray(s, k + 1);
    } else {
      assert s[k..][..2] == "}}";
    }
  }

  /** A text that passes the final check has no placeholder left anywhere. */
  lemma CleanHasNoPlaceholder(s: string, i: nat)
    requires Clean(s) && i <= |s|
    ensures PlaceholderAt(s[i..]).None?
  {
    var t := s[i..];
    assert !StrayHere(t);
    if |t| >= 2 && t[0] == '{' && t[1] == '{' {
      assert t[..2] == "{{";
      var e := NameEnd(t, 2);
      if e + 1 < |t| && t[e] == '}' && t[e + 1] == '}' {
        NameThenBracesIsStray(t, 2);
      }
    }
  }

  // ---------------------------------------------------------------- the patterns

  /** The first closing brace is at `k`, and another one follows. */
  predicate BracesAt(s: string, k: nat) {
    k + 2 <= |s| && (forall i :: 0 <= i < k ==> s[i] != '}') && s[k] == '}' && s[k + 1] == '}'
  }

  lemma BracesStep(s: string, k: nat)
    requires s != ""
    ensures BracesAt(s, k + 1) <==> s[0] != '}' && BracesAt(s[1..], k)
    ensures BracesAt(s, 0) <==> StartsWith(s, "}}")
  {
    var t := s[1..];
    PairAt(s, '}');
    if BracesAt(s, k + 1) {
      assert forall i :: 0 <= i < k ==> t[i] == s[i + 1];
    }
    if s[0] != '}' && BracesAt(t, k) {
      assert forall i :: 1 <= i < k + 1 ==> s[i] == t[i - 1];
    }
  }

  lemma {:induction false} StrayRestIff(s: string)
    ensures StrayRest(s) <==> exists k :: BracesAt(s, k)
  {
    if s != "" {
      StrayRestIff(s[1..]);
      BracesStep(s, 0);
      if k: nat :| BracesAt(s[1..], k) {
        BracesStep(s, k);
      }
      if k: nat :| BracesAt(s, k) {
        if k > 0 {
          BracesStep(s, k - 1);
        }
      }
    }
  }

  /** The stray pattern: two opening braces, anything but a closing brace, two closing braces. */
  lemma StrayIff(s: string)
    ensures StrayHere(s) <==> StartsWith(s, "{{") && exists k :: BracesAt(s[2..], k)
  {
    if StartsWith(s, "{{") {
      StrayRestIff(s[2..]);
    }
  }

  /** At least one and up to `k` name characters, then two underscores. */
  predicate UnderscoresAt(s: string, k: nat) {
    1 <= k && k + 2 <= |s| && (forall i :: 0 <= i < k ==> IsNameChar(s[i])) && s[k] == '_' && s[k + 1] == '_'
  }

  lemma UnderscoresStep(s: string, k: nat)
    requires s != "" && k >= 1
    ensures UnderscoresAt(s, k + 1) <==> IsNameChar(s[0]) && UnderscoresAt(s[1..], k)
    ensures UnderscoresAt(s, 1) <==> IsNameChar(s[0]) && StartsWith(s[1..], "__")
  {
    var t := s[1..];
    PairAt(t, '_');
    if UnderscoresAt(s, k + 1) {
      assert forall i :: 0 <= i < k ==> t[i] == s[i + 1];
    }
    if IsNameChar(s[0]) && UnderscoresAt(t, k) {
      assert forall i :: 1 <= i < k + 1 ==> s[i] == t[i - 1];
    }
  }

  lemma {:induction false} LegacyRestIff(s: string)
    ensures LegacyRest(s) <==> exists k :: UnderscoresAt(s, k)
  {
    if s != "" {
      LegacyRestIff(s[1..]);
      UnderscoresStep(s, 1);
      if k: nat :| UnderscoresAt(s[1..], k) {
        UnderscoresStep(s, k);
      }
      if k: nat :| UnderscoresAt(s, k) {
        if k > 1 {
          UnderscoresStep(s, k - 1);
        }
      }
    }
  }

  /** The legacy pattern: two underscores, at least one capital letter or underscore, two underscores. */
  lemma LegacyIff(s: string)
    ensures LegacyHere(s) <==> StartsWith(s, "__") && exists k :: UnderscoresAt(s[2..], k)
  {
    if StartsWith(s, "__") {
      LegacyRestIff(s[2..]);
    }
  }

  /** The placeholder pattern: a name of capital letters and underscores between double braces. */
  lemma PlaceholderIff(s: string, name: string)
    ensures PlaceholderAt(s) == Some(name) <==> IsName(name) && name != "" && StartsWith(s, "{{" + name + "}}")
  {
    var t := "{{" + name + "}}";
    if PlaceholderAt(s) == Some(name) {
      PlaceholderShape(s);
      assert s[..|t|] == t;
    }
    if IsName(name) && name != "" && StartsWith(s, t) {
      var e := |name| + 2;
      assert forall i :: 0 <= i < |t| ==> s[i] == t[i];
      assert forall i :: 2 <= i < e ==> s[i] == name[i - 2];
      NameEndOf(s, 2, e);
      assert s[2..e] == name;
    }
  }

  // ---------------------------------------------------------------- what a placeholder stands for

  /** The characters of a name. */
  lemma NameCharIff(c: char)
    ensures IsNameChar(c) <==> c in "ABCDEFGHIJKLMNOPQRSTUVWXYZ_"
  {
  }

  lemma {:induction false} NameEndOf(s: string, k: nat, e: nat)
    requires k <= e < |s| && !IsNameChar(s[e]) && forall i :: k <= i < e ==> IsNameChar(s[i])
    ensures NameEnd(s, k) == e
    decreases e - k
  {
    if k < e {
      NameEndOf(s, k + 1, e);
    }
  }

  lemma PlaceholderIsFound(name: string)
    requires IsName(name) && name != ""
    ensures PlaceholderAt("{{" + name + "}}") == Some(name)
  {
    var t := "{{" + name + "}}";
    var e := |name| + 2;
    assert forall i :: 2 <= i < e ==> t[i] == name[i - 2];
    NameEndOf(t, 2, e);
    assert t[2..e] == name;
  }

  /** A template that is one placeholder renders to the escaped value of that name. */
  lemma SoleRenders(values: map<string, string>, name: string)
    requires IsName(name) && name != "" && name in values
    ensures Render(values, "{{" + name + "}}") == EscapeXml(values[name])
    ensures Unescape(Render(values, "{{" + name + "}}")) == values[name]
  {
    var t := "{{" + name + "}}";
    PlaceholderIsFound(name);
    assert t[0..] == t;
    assert Rendered(PlaceholderAt, Filling(values), t, |t|) == "";
    assert Render(values, t) == EscapeXml(values[name]) + "";
    UnescapeEscape(values[name]);
  }

  /** Which field of the context each placeholder stands for; there are no other placeholders. */
  lemma ValuesMeanFields(ctx: DaemonContext)
    ensures var values := Values(ctx);
            && values.Keys == {"NODE_BIN", "REPO", "DATA_DIR", "RUN_USER", "RUN_GROUP", "CONFIG"}
            && values["NODE_BIN"] == ctx.nodeBin && values["REPO"] == ctx.repoDir && values["DATA_DIR"] == ctx.dataDir
            && values["RUN_USER"] == ctx.runUser && values["RUN_GROUP"] == ctx.runGroup
            && (ctx.configPath.Some? ==> values["CONFIG"] == ctx.configPath.value)
            && (ctx.configPath.None? ==> values["CONFIG"] == ctx.repoDir + "/config/daemon.toml")
  {
  }

  /** What is shown for each placeholder is, once the plist is read, the field it stands for. */
  lemma PlaceholdersShowFields(ctx: DaemonContext, name: string)
    requires name in Values(ctx)
    ensures Unescape(Render(Values(ctx), "{{" + name + "}}")) == Values(ctx)[name]
  {
    ValuesMeanFields(ctx);
    SoleRenders(Values(ctx), name);
  }

  /** Text outside placeholders is kept: a template without any renders to itself. */
  lemma {:induction false} PlainTextIsKept(values: map<string, string>, t: string, pos: nat)
    requires pos <= |t| && forall i :: pos <= i <= |t| ==> PlaceholderAt(t[i..]).None?
    ensures Rendered(PlaceholderAt, Filling(values), t, pos) == t[pos..]
    decreases |t| - pos
  {
    if pos < |t| {
      PlainTextIsKept(values, t, pos + 1);
      assert t[pos..] == [t[pos]] + t[pos + 1..];
    } else {
      assert t[pos..] == "";
    }
  }

  /** The names a template uses that stand for nothing are exactly those found by the scan and not in the context. */
  lemma {:induction false} UnknownIsReached(known: set<string>, t: string, pos: nat, name: string)
    requires pos <= |t|
    ensures name in Missing(PlaceholderAt, known, t, pos)
            <==> && name !in known
                 && exists p: nat :: p < |t| && Reaches(PlaceholderAt, t, pos, p) && PlaceholderAt(t[p..]) == Some(name)
    decreases |t| - pos
  {
    if pos < |t| {
      var next := pos + Width(PlaceholderAt, t[pos..]);
      UnknownIsReached(known, t, next, name);
      if p: nat :| p < |t| && Reaches(PlaceholderAt, t, next, p) && PlaceholderAt(t[p..]) == Some(name) {
        assert Reaches(PlaceholderAt, t, pos, p);
      }
      if PlaceholderAt(t[pos..]) == Some(name) {
        assert Reaches(PlaceholderAt, t, pos, pos);
      }
    }
  }

  /** Begins with a slash. */
  predicate Rooted(s: string) { s != "" && s[0] == '/' }

  lemma AbsolutePathIff(s: string)
    ensures AbsolutePath(s) <==> Rooted(s)
  {
    if Rooted(s) {
      assert s[..1] == "/";
      assert TrimStart(s) == s;
      TrimEndCutsSpace(s);
    }
    if AbsolutePath(s) {
      assert s[..1] == "/";
    }
  }

  lemma {:induction false} NoSpacesIsNotBlank(s: string)
    requires s != "" && forall i :: 0 <= i < |s| ==> !IsSpace(s[i])
    ensures NonBlank(s)
  {
  }

  predicate Name(s: string) { s != "" && forall i :: 0 <= i < |s| ==> !IsSpace(s[i]) }

  /**
   A context is valid exactly if every value that goes into the plist is what it has to be: the four paths begin
   with a slash, and user and group are names without white space.
   */
  lemma ValidIff(ctx: DaemonContext)
    ensures var values := Values(ctx);
            ValidContext(ctx)
            <==> && Rooted(values["NODE_BIN"]) && Rooted(values["REPO"]) && Rooted(values["DATA_DIR"])
                 && Rooted(values["CONFIG"]) && Name(values["RUN_USER"]) && Name(values["RUN_GROUP"])
  {
    ValuesMeanFields(ctx);
    AbsolutePathIff(ctx.nodeBin);
    AbsolutePathIff(ctx.repoDir);
    AbsolutePathIff(ctx.dataDir);
    if ctx.configPath.Some? {
      AbsolutePathIff(ctx.configPath.value);
    }
    IdentifierIff(ctx.runUser);
    IdentifierIff(ctx.runGroup);
  }

  lemma IdentifierIff(s: string)
    ensures Identifier(s) <==> Name(s)
  {
    if Name(s) {
      NoSpacesIsNotBlank(s);
    }
  }

  // ---------------------------------------------------------------- values that cannot be rendered

  /** A leftover placeholder is found somewhere in `s`. */
  predicate Dirty(s: string) { s != "" && (StrayHere(s) || LegacyHere(s) || Dirty(s[1..])) }

  lemma {:induction false} CleanIff(s: string)
    ensures Clean(s) <==> !Dirty(s)
  {
    if s != "" {
      CleanIff(s[1..]);
      assert s[0..] == s;
      assert forall i :: 1 <= i <= |s| ==> s[i..] == s[1..][i - 1..];
      if Clean(s) {
        forall i | 0 <= i <= |s[1..]|
          ensures !StrayHere(s[1..][i..]) && !LegacyHere(s[1..][i..])
        {
          assert s[i + 1..] == s[1..][i..];
        }
      }
    }
  }

  lemma StartsWithMore(x: string, y: string, p: string)
    requires StartsWith(x, p)
    ensures StartsWith(x + y, p)
  {
    assert (x + y)[..|p|] == x[..|p|];
  }

  lemma {:induction false} StrayRestMore(x: string, y: string)
    requires StrayRest(x)
    ensures StrayRest(x + y)
  {
    if StartsWith(x, "}}") {
      StartsWithMore(x, y, "}}");
    } else {
      StrayRestMore(x[1..], y);
      assert (x + y)[1..] == x[1..] + y;
    }
  }

  lemma {:induction false} LegacyRestMore(x: string, y: string)
    requires LegacyRest(x)
    ensures LegacyRest(x + y)
  {
    assert (x + y)[1..] == x[1..] + y;
    if StartsWith(x[1..], "__") {
      StartsWithMore(x[1..], y, "__");
    } else {
      LegacyRestMore(x[1..], y);
    }
  }

  lemma HereMore(x: string, y: string)
    requires StrayHere(x) || LegacyHere(x)
    ensures StrayHere(x + y) || LegacyHere(x + y)
  {
    assert (x + y)[2..] == x[2..] + y;
    if StrayHere(x) {
      StartsWithMore(x, y, "{{");
      StrayRestMore(x[2..], y);
    } else {
      StartsWithMore(x, y, "__");
      LegacyRestMore(x[2..], y);
    }
  }

  /** A leftover placeholder in a part is one in the whole. */
  lemma {:induction false} DirtyBefore(x: string, y: string)
    requires Dirty(x)
    ensures Dirty(x + y)
  {
    if StrayHere(x) || LegacyHere(x) {
      HereMore(x, y);
    } else {
      DirtyBefore(x[1..], y);
      assert (x + y)[1..] == x[1..] + y;
    }
  }

  lemma {:induction false} DirtyAfter(x: string, y: string)
    requires Dirty(y)
    ensures Dirty(x + y)
  {
    if x == "" {
      assert x + y == y;
    } else {
      DirtyAfter(x[1..], y);
      assert (x + y)[1..] == x[1..] + y;
    }
  }

  /** A character that escaping leaves alone. */
  predicate Untouched(c: char) { c !in ESCAPED }

  lemma SubstituteHead(s: string, c: char)
    requires Untouched(c)
    ensures Substitute(s) != "" && Substitute(s)[0] == c <==> s != "" && s[0] == c
  {
    if s != "" {
      assert Substitute(s)[0] == Entity(s[0])[0];
    }
  }

  lemma SubstituteStep(s: string)
    requires s != "" && Untouched(s[0])
    ensures Substitute(s) == [s[0]] + Substitute(s[1..]) && Substitute(s)[1..] == Substitute(s[1..])
  {
    EntityOfUntouched(s[0]);
  }

  lemma EntityOfUntouched(c: char)
    requires Untouched(c)
    ensures Entity(c) == [c]
  {
    assert ESCAPED[0] == '&' && ESCAPED[1] == '<' && ESCAPED[2] == '>' && ESCAPED[3] == '"' && ESCAPED[4] == '\'';
  }

  lemma PairIff(s: string, c: char)
    requires Untouched(c)
    ensures StartsWith(Substitute(s), [c, c]) <==> StartsWith(s, [c, c])
    ensures StartsWith(s, [c, c]) ==> Substitute(s)[2..] == Substitute(s[2..])
  {
    SubstituteHead(s, c);
    if s != "" && s[0] == c {
      SubstituteStep(s);
      SubstituteHead(s[1..], c);
      PairAt(s, c);
      PairAt(Substitute(s), c);
      if |s| > 1 && s[1] == c {
        SubstituteStep(s[1..]);
        assert s[1..][1..] == s[2..] && Substitute(s)[1..][1..] == Substitute(s)[2..];
      }
    } else {
      PairAt(s, c);
      PairAt(Substitute(s), c);
    }
  }

  lemma PairAt(s: string, c: char)
    ensures StartsWith(s, [c, c]) <==> |s| >= 2 && s[0] == c && s[1] == c
  {
  }

  /** Characters other than a closing brace do not matter to the rest of a stray placeholder. */
  lemma {:induction false} StrayRestSkips(x: string, y: string)
    requires '}' !in x
    ensures StrayRest(x + y) <==> StrayRest(y)
  {
    if x == "" {
      assert x + y == y;
    } else {
      StrayRestSkips(x[1..], y);
      assert (x + y)[1..] == x[1..] + y;
      PairAt(x + y, '}');
    }
  }

  lemma {:induction false} StrayRestEscaped(s: string)
    ensures StrayRest(Substitute(s)) <==> StrayRest(s)
  {
    if s != "" {
      StrayRestEscaped(s[1..]);
      if s[0] == '}' {
        PairIff(s, '}');
        SubstituteStep(s);
      } else {
        StrayRestSkips(Entity(s[0]), Substitute(s[1..]));
        StrayRestSkips([s[0]], s[1..]);
        assert s == [s[0]] + s[1..];
      }
    }
  }

  lemma {:induction false} LegacyRestEscaped(s: string)
    ensures LegacyRest(Substitute(s)) <==> LegacyRest(s)
  {
    if s != "" {
      LegacyRestEscaped(s[1..]);
      if IsNameChar(s[0]) {
        SubstituteStep(s);
        PairIff(s[1..], '_');
      } else {
        assert Substitute(s)[0] == Entity(s[0])[0];
      }
    }
  }

  lemma HereEscaped(s: string)
    ensures StrayHere(Substitute(s)) <==> StrayHere(s)
    ensures LegacyHere(Substitute(s)) <==> LegacyHere(s)
  {
    PairIff(s, '{');
    PairIff(s, '_');
    if |s| >= 2 {
      StrayRestEscaped(s[2..]);
      LegacyRestEscaped(s[2..]);
    }
  }

  /** No leftover placeholder begins at a character other than an opening brace and an underscore. */
  lemma {:induction false} DirtySkips(x: string, y: string)
    requires '{' !in x && '_' !in x
    ensures Dirty(x + y) <==> Dirty(y)
  {
    if x == "" {
      assert x + y == y;
    } else {
      DirtySkips(x[1..], y);
      assert (x + y)[1..] == x[1..] + y;
      PairAt(x + y, '{');
      PairAt(x + y, '_');
    }
  }

  /** Escaping neither hides nor makes leftover placeholders. */
  lemma {:induction false} DirtyEscaped(s: string)
    ensures Dirty(Substitute(s)) <==> Dirty(s)
  {
    if s != "" {
      DirtyEscaped(s[1..]);
      if Untouched(s[0]) {
        SubstituteStep(s);
        HereEscaped(s);
      } else {
        DirtySkips(Entity(s[0]), Substitute(s[1..]));
        DirtySkips([s[0]], s[1..]);
        assert s == [s[0]] + s[1..];
      }
    }
  }

  /** The scan that starts at `pos` comes to `p`. */
  predicate Reaches(at: Matcher, t: string, pos: nat, p: nat)
    requires pos <= |t|
    decreases |t| - pos
  {
    p == pos || (pos < |t| && Reaches(at, t, pos + Width(at, t[pos..]), p))
  }

  /** A leftover placeholder in a piece is one in the rendered text. */
  lemma {:induction false} DirtyPieceShows(at: Matcher, fill: string -> string, t: string, pos: nat, p: nat)
    requires pos <= |t| && Reaches(at, t, pos, p) && p < |t| && Dirty(Piece(at, fill, t[p..]))
    ensures Dirty(Rendered(at, fill, t, pos))
    decreases |t| - pos
  {
    var piece, rest := Piece(at, fill, t[pos..]), Rendered(at, fill, t, pos + Width(at, t[pos..]));
    if p == pos {
      DirtyBefore(piece, rest);
    } else {
      DirtyPieceShows(at, fill, t, pos + Width(at, t[pos..]), p);
      DirtyAfter(piece, rest);
    }
  }

  /**
   A valid context is refused if one of the values that the template uses contains by itself what the final check
   looks for, `{{...}}` or `__NAME__`: no template can render such a value.
   */
  lemma UncleanValueIsRefused(values: map<string, string>, t: string, p: nat)
    requires Reaches(PlaceholderAt, t, 0, p) && p < |t|
    requires var name := Slot(PlaceholderAt, t[p..]); name.Some? && name.value in values && !Clean(values[name.value])
    ensures !Clean(Render(values, t))
  {
    var v := values[Slot(PlaceholderAt, t[p..]).value];
    CleanIff(v);
    DirtyEscaped(v);
    EscapeIsSubstitution(v);
    DirtyPieceShows(PlaceholderAt, Filling(values), t, 0, p);
    CleanIff(Render(values, t));
  }

  /** A directory such as "/opt/__X__" is a valid value that no template can render. */
  lemma UnderscoresAreUnclean()
    ensures AbsolutePath("/opt/__X__") && !Clean("/opt/__X__")
  {
    var path, name := "/opt/__X__", "__X__";
    assert path[5..] == name;
    assert name[2..] == "X__" && "X__"[1..] == "__";
    assert "X__"[1..][..2] == "__";
    assert LegacyRest("X__");
    assert LegacyHere(name);
    assert TrimStart(path) == path && TrimEnd(path) == path;
    assert path[..1] == "/";
  }
}
