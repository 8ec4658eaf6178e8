/** `LUParser`: turns the paragraph tree of an LU file into the ordered,
    typed list of sections with their line ranges and bodies, and the list
    of diagnostics collected on the way. */
module LuParser {
  import opened Wrappers
  import opened Text
  import opened LuSections

  /** What `extractSectionBody` throws. */
  const IndexOutOfRange: string := "index out of range."

  // ---------------------------------------------------------------------
  // The extraction passes
  // ---------------------------------------------------------------------

  /** `.map(x => new XSection(x))`: builds the sections in order; the first
      constructor that throws aborts the pass with its message. */
  function BuildAll<T>(cs: seq<Construct<T>>): (r: Result<seq<T>, string>)
    ensures r.Ok? <==> forall i | 0 <= i < |cs| :: cs[i].fault.None?
    ensures r.Ok? ==> |r.value| == |cs| && forall i | 0 <= i < |cs| :: r.value[i] == cs[i].built
    ensures r.Err? ==> exists i | 0 <= i < |cs| ::
      cs[i].fault == Some(r.error) && forall j | 0 <= j < i :: cs[j].fault.None?
  {
    if |cs| == 0 then Ok([])
    else match cs[0].fault
      case Some(m) => Err(m)
      case None =>
        match BuildAll(cs[1..])
        case Err(m) =>
          assert exists i | 0 <= i < |cs[1..]| ::
            cs[1..][i].fault == Some(m) && forall j | 0 <= j < i :: cs[1..][j].fault.None?;
          var i :| 0 <= i < |cs[1..]| && cs[1..][i].fault == Some(m) && forall j | 0 <= j < i :: cs[1..][j].fault.None?;
          assert cs[i + 1].fault == Some(m) && forall j | 0 <= j < i + 1 :: cs[j].fault.None?;
          Err(m)
        case Ok(rest) => Ok([cs[0].built] + rest)
  }

  /** `paragraph().map(x => x.modelInfoSection()).filter(...)`. */
  function ModelInfoNodes(ps: seq<Paragraph>): (r: seq<Construct<Section>>)
    ensures forall c | c in r :: ModelInfoParagraph(c) in ps
  {
    if |ps| == 0 then []
    else (if ps[0].ModelInfoParagraph? then [ps[0].modelInfo] else []) + ModelInfoNodes(ps[1..])
  }

  /** `paragraph().map(x => x.nestedIntentSection()).filter(...)`. */
  function NestedIntentNodes(ps: seq<Paragraph>): (r: seq<Construct<NestedIntent>>)
    ensures forall c | c in r :: NestedIntentParagraph(c) in ps
  {
    if |ps| == 0 then []
    else (if ps[0].NestedIntentParagraph? then [ps[0].nested] else []) + NestedIntentNodes(ps[1..])
  }

  /** `paragraph().map(x => x.importSection()).filter(...)`. */
  function ImportNodes(ps: seq<Paragraph>): (r: seq<Construct<Section>>)
    ensures forall c | c in r :: ImportParagraph(c) in ps
  {
    if |ps| == 0 then []
    else (if ps[0].ImportParagraph? then [ps[0].importSection] else []) + ImportNodes(ps[1..])
  }

  /** `paragraph().map(x => x.qnaSection()).filter(...)`. */
  function QnaNodes(ps: seq<Paragraph>): (r: seq<Construct<Section>>)
    ensures forall c | c in r :: QnaParagraph(c) in ps
  {
    if |ps| == 0 then []
    else (if ps[0].QnaParagraph? then [ps[0].qna] else []) + QnaNodes(ps[1..])
  }

  /** Every `simpleIntentSection()` node of the paragraphs, in order. */
  function IntentParagraphs(ps: seq<Paragraph>): (r: seq<IntentParagraph>)
  {
    if |ps| == 0 then []
    else (if ps[0].SimpleIntentParagraph? then [ps[0].simple] else []) + IntentParagraphs(ps[1..])
  }

  /** The nodes the simple-intent pass keeps: `filter(x => x && x.intentDefinition())`. */
  function DefinedIntents(ps: seq<Paragraph>): (r: seq<IntentParagraph>)
    ensures forall n | n in r :: SimpleIntentParagraph(n) in ps
  {
    if |ps| == 0 then []
    else
      var head := if ps[0].SimpleIntentParagraph? && ps[0].simple.hasIntentDefinition then [ps[0].simple] else [];
      head + DefinedIntents(ps[1..])
  }

  /** The nodes the entity passes keep: `filter(x => x && !x.intentDefinition())`. */
  function EntityParagraphs(ps: seq<Paragraph>): (r: seq<IntentParagraph>)
    ensures forall n | n in r :: SimpleIntentParagraph(n) in ps
  {
    if |ps| == 0 then []
    else
      var head := if ps[0].SimpleIntentParagraph? && !ps[0].simple.hasIntentDefinition then [ps[0].simple] else [];
      head + EntityParagraphs(ps[1..])
  }

  function IntentNodes(ns: seq<IntentParagraph>): (r: seq<Construct<Section>>)
    ensures |r| == |ns| && forall i | 0 <= i < |ns| :: r[i] == ns[i].intent
  {
    seq(|ns|, i requires 0 <= i < |ns| => ns[i].intent)
  }

  /** The `entitySection()` nodes of each paragraph, paragraph after paragraph. */
  function EntityNodes(ns: seq<IntentParagraph>): (r: seq<Construct<Section>>)
    ensures forall c | c in r :: exists n | n in ns :: c in n.entities
  {
    if |ns| == 0 then [] else ns[0].entities + EntityNodes(ns[1..])
  }

  /** The `newEntitySection()` nodes of each paragraph, paragraph after paragraph. */
  function NewEntityNodes(ns: seq<IntentParagraph>): (r: seq<Construct<Section>>)
    ensures forall c | c in r :: exists n | n in ns :: c in n.newEntities
  {
    if |ns| == 0 then [] else ns[0].newEntities + NewEntityNodes(ns[1..])
  }

  function ExtractModelInfoSections(ps: seq<Paragraph>): Result<seq<Section>, string>
  {
    BuildAll(ModelInfoNodes(ps))
  }

  function ExtractNestedIntentSections(ps: seq<Paragraph>): Result<seq<NestedIntent>, string>
  {
    BuildAll(NestedIntentNodes(ps))
  }

  function ExtractSimpleIntentSections(ps: seq<Paragraph>): Result<seq<Section>, string>
  {
    BuildAll(IntentNodes(DefinedIntents(ps)))
  }

  function ExtractEntitiesSections(ps: seq<Paragraph>): Result<seq<Section>, string>
  {
    BuildAll(EntityNodes(EntityParagraphs(ps)))
  }

  function ExtractNewEntitiesSections(ps: seq<Paragraph>): Result<seq<Section>, string>
  {
    BuildAll(NewEntityNodes(EntityParagraphs(ps)))
  }

  function ExtractImportSections(ps: seq<Paragraph>): Result<seq<Section>, string>
  {
    BuildAll(ImportNodes(ps))
  }

  function ExtractQnaSections(ps: seq<Paragraph>): Result<seq<Section>, string>
  {
    BuildAll(QnaNodes(ps))
  }

  /** The simple-intent pass and the two entity passes split the
      `simpleIntentSection` nodes between them by the presence of an
      intent definition: each node goes to exactly one side. */
  lemma {:induction false} IntentEntityPartition(ps: seq<Paragraph>)
    ensures |DefinedIntents(ps)| + |EntityParagraphs(ps)| == |IntentParagraphs(ps)|
    ensures forall n :: n in DefinedIntents(ps) <==> n in IntentParagraphs(ps) && n.hasIntentDefinition
    ensures forall n :: n in EntityParagraphs(ps) <==> n in IntentParagraphs(ps) && !n.hasIntentDefinition
  {
    if |ps| > 0 {
      IntentEntityPartition(ps[1..]);
    }
  }

  // ---------------------------------------------------------------------
  // Diagnostics of one pass
  // ---------------------------------------------------------------------

  /** The sections a pass adds and the diagnostics it adds. */
  datatype PassOutcome = PassOutcome(sections: seq<Section>, errors: seq<Diagnostic>)

  /** `sections.forEach(s => errors = errors.concat(s.Errors))`, as a value. */
  function ErrorsOf(ss: seq<Section>): seq<Diagnostic>
  {
    if |ss| == 0 then [] else ErrorsOf(ss[..|ss| - 1]) + ss[|ss| - 1].errors
  }

  /** The one diagnostic a pass that throws adds. */
  function PassFailure(pass: string, message: string): Diagnostic
  {
    Diagnostic(Error, "Error happened when parsing " + pass + ": " + message, None)
  }

  /** One `try { ... } catch` block: the sections and their errors, or one
      diagnostic naming the pass. */
  function RunPass(pass: string, extracted: Result<seq<Section>, string>): PassOutcome
  {
    match extracted
    case Ok(ss) => PassOutcome(ss, ErrorsOf(ss))
    case Err(m) => PassOutcome([], [PassFailure(pass, m)])
  }

  function SectionsOf(ns: seq<NestedIntent>): (r: seq<Section>)
    ensures |r| == |ns| && forall i | 0 <= i < |ns| :: r[i] == ns[i].section
  {
    seq(|ns|, i requires 0 <= i < |ns| => ns[i].section)
  }

  /** The empty simple intent that stands for a nested intent's header when
      sections are not enabled. */
  function EmptyIntent(n: NestedIntent): Section
  {
    Section(SimpleIntentSection, n.section.name, n.nameLine, [], "", [], "", 0, 0, 0)
  }

  function NoUtterancesWarning(n: NestedIntent): Diagnostic
  {
    Diagnostic(Warn, "no utterances found for intent definition: \"# " + n.section.name + "\"", Some(n.nameLine))
  }

  /** Flattening nested intents: for each, its empty intent and then its
      children; a warning naming it and then its children's errors. */
  function Flattened(ns: seq<NestedIntent>): PassOutcome
  {
    if |ns| == 0 then PassOutcome([], [])
    else
      var f := Flattened(ns[..|ns| - 1]);
      var n := ns[|ns| - 1];
      PassOutcome(f.sections + [EmptyIntent(n)] + n.section.children,
                  f.errors + [NoUtterancesWarning(n)] + ErrorsOf(n.section.children))
  }

  /** The nested-intent pass: the errors of the nested sections, then the
      sections themselves when enabled, or else their flattening. */
  function NestedPass(enabled: bool, extracted: Result<seq<NestedIntent>, string>): PassOutcome
  {
    match extracted
    case Err(m) => PassOutcome([], [PassFailure("nested intent section", m)])
    case Ok(ns) =>
      var own := ErrorsOf(SectionsOf(ns));
      if enabled then PassOutcome(SectionsOf(ns), own)
      else var f := Flattened(ns); PassOutcome(f.sections, own + f.errors)
  }

  /** The flattening holds only simple intents when the nested intents'
      children are simple intents. */
  lemma {:induction false} FlattenedShape(ns: seq<NestedIntent>)
    requires forall n, c | n in ns && c in n.section.children :: c.kind == SimpleIntentSection
    ensures forall s | s in Flattened(ns).sections :: s.kind == SimpleIntentSection
  {
    if |ns| > 0 {
      FlattenedShape(ns[..|ns| - 1]);
      assert ns[|ns| - 1] in ns;
    }
  }

  // ---------------------------------------------------------------------
  // isSectionEnabled
  // ---------------------------------------------------------------------

  /** The literal text matched by `@(enableSections)`. */
  const EnableDirective: string := "@enableSections"

  /** `s` holds `@enableSections` at position `k`, written character by
      character (see `DirectiveAtLiteral`). */
  predicate DirectiveAt(s: string, k: nat)
  {
    && k + 15 <= |s|
    && s[k] == '@' && s[k + 1] == 'e' && s[k + 2] == 'n' && s[k + 3] == 'a' && s[k + 4] == 'b'
    && s[k + 5] == 'l' && s[k + 6] == 'e' && s[k + 7] == 'S' && s[k + 8] == 'e' && s[k + 9] == 'c'
    && s[k + 10] == 't' && s[k + 11] == 'i' && s[k + 12] == 'o' && s[k + 13] == 'n' && s[k + 14] == 's'
  }

  /** `DirectiveAt` is the literal comparison with `@enableSections`. */
  lemma DirectiveAtLiteral(s: string, k: nat)
    ensures DirectiveAt(s, k) <==> k + 15 <= |s| && s[k..k + 15] == EnableDirective
  {
    if k + 15 <= |s| {
      FifteenChars(s, k);
      assert EnableDirective == ['@', 'e', 'n', 'a', 'b', 'l', 'e', 'S', 'e', 'c', 't', 'i', 'o', 'n', 's'];
    }
  }

  /** The fifteen characters from `k` on, one by one. */
  lemma FifteenChars(s: string, k: nat)
    requires k + 15 <= |s|
    ensures s[k..k + 15] == [s[k], s[k + 1], s[k + 2], s[k + 3], s[k + 4], s[k + 5], s[k + 6], s[k + 7],
                             s[k + 8], s[k + 9], s[k + 10], s[k + 11], s[k + 12], s[k + 13], s[k + 14]]
  {
  }

  /** The characters `.` does not match. */
  predicate IsLineTerminator(ch: char)
  {
    ch == '\n' || ch == '\r' || ch == '\U{2028}' || ch == '\U{2029}'
  }

  /** The end of the run of characters from `k` on that `.` matches. */
  function RunEnd(s: string, k: nat): (e: nat)
    requires k <= |s|
    ensures k <= e <= |s|
    decreases |s| - k
  {
    if k == |s| || IsLineTerminator(s[k]) then k else RunEnd(s, k + 1)
  }

  /** The last '=' in `s[k..e]`, where the greedy `(.*)=` settles. */
  function LastEquals(s: string, k: nat, e: nat): (r: Option<nat>)
    requires k <= e <= |s|
    ensures r.Some? ==> k <= r.value < e && s[r.value] == '='
    decreases e - k
  {
    if e == k then None
    else if s[e - 1] == '=' then Some(e - 1)
    else LastEquals(s, k, e - 1)
  }

  /** The end of the match of `/@(enableSections).(.*)=/` that starts at
      `q`, if there is one. */
  function MatchEnd(s: string, q: nat): (r: Option<nat>)
    requires q <= |s|
    ensures r.Some? ==> q + 16 < r.value <= |s|
  {
    if q + 16 <= |s| && DirectiveAt(s, q) && !IsLineTerminator(s[q + 15]) then
      match LastEquals(s, q + 16, RunEnd(s, q + 16))
      case None => None
      case Some(j) => Some(j + 1)
    else None
  }

  /** `s.split(/@(enableSections).(.*)=/g)` from position `q`, the current
      piece starting at `p`: each match contributes the text before it and
      its two captured groups. */
  function SplitDirective(s: string, p: nat, q: nat): (parts: seq<string>)
    requires p <= q <= |s|
    ensures |parts| >= 1
    decreases |s| - q
  {
    if q == |s| then [s[p..]]
    else match MatchEnd(s, q)
      case None => SplitDirective(s, p, q + 1)
      case Some(e) => [s[p..q], s[q + 1..q + 15], s[q + 16..e - 1]] + SplitDirective(s, e, e)
  }

  function TrimAll(parts: seq<string>): (r: seq<string>)
    ensures |r| == |parts| && forall i | 0 <= i < |parts| :: r[i] == Trim(parts[i])
  {
    seq(|parts|, i requires 0 <= i < |parts| => Trim(parts[i]))
  }

  /** A model-info line turns sections on: split on the directive, trimmed,
      it gives exactly four parts, the second `enableSections`, the fourth
      `true`. */
  predicate DirectiveEnables(line: string)
  {
    var kv := TrimAll(SplitDirective(line, 0, 0));
    |kv| == 4 && kv[1] == "enableSections" && kv[3] == "true"
  }

  /** Some model-info section turns sections on. */
  predicate SectionsEnabled(sections: seq<Section>)
  {
    exists s | s in sections :: s.kind == ModelInfoSection && DirectiveEnables(s.modelInfo)
  }

  function ModelInfoSectionsOf(sections: seq<Section>): (r: seq<Section>)
    ensures forall s :: s in r <==> s in sections && s.kind == ModelInfoSection
  {
    if |sections| == 0 then []
    else
      var head := if sections[0].kind == ModelInfoSection then [sections[0]] else [];
      head + ModelInfoSectionsOf(sections[1..])
  }

  /** `isSectionEnabled`: looks at the model-info sections in order and
      stops at the first whose directive turns sections on. */
  method IsSectionEnabled(sections: seq<Section>) returns (enabled: bool)
    ensures enabled <==> SectionsEnabled(sections)
  {
    var modelInfoSections := ModelInfoSectionsOf(sections);
    enabled := false;
    var i := 0;
    while i < |modelInfoSections|
      invariant 0 <= i <= |modelInfoSections|
      invariant !enabled
      invariant forall j | 0 <= j < i :: !DirectiveEnables(modelInfoSections[j].modelInfo)
    {
      var line := modelInfoSections[i].modelInfo;
      var kvPair := TrimAll(SplitDirective(line, 0, 0));
      if |kvPair| == 4 && kvPair[1] == "enableSections" && kvPair[3] == "true" {
        enabled := true;
        assert modelInfoSections[i] in sections;
        break;
      }
      i := i + 1;
    }
    if !enabled {
      forall s | s in sections && s.kind == ModelInfoSection
        ensures !DirectiveEnables(s.modelInfo)
      {
        var j :| 0 <= j < |modelInfoSections| && modelInfoSections[j] == s;
      }
    }
  }

  /** Without a match of the directive, the split leaves the text whole. */
  lemma {:induction false} SplitWithoutDirective(s: string, p: nat, q: nat)
    requires p <= q <= |s|
    requires forall k: nat | q <= k :: !DirectiveAt(s, k)
    ensures SplitDirective(s, p, q) == [s[p..]]
    decreases |s| - q
  {
    if q < |s| {
      SplitWithoutDirective(s, p, q + 1);
    }
  }

  /** A model-info line that does not contain `@enableSections` never turns
      sections on. */
  lemma NoDirectiveNeverEnables(line: string)
    requires forall k: nat :: !DirectiveAt(line, k)
    ensures !DirectiveEnables(line)
  {
    SplitWithoutDirective(line, 0, 0);
  }

  /** Model-info sections none of whose lines contains `@enableSections`
      leave sections disabled; so does a list without model-info sections. */
  lemma NoDirectiveDisables(sections: seq<Section>)
    requires forall s, k: nat | s in sections && s.kind == ModelInfoSection :: !DirectiveAt(s.modelInfo, k)
    ensures !SectionsEnabled(sections)
  {
    forall s | s in sections && s.kind == ModelInfoSection
      ensures !DirectiveEnables(s.modelInfo)
    {
      NoDirectiveNeverEnables(s.modelInfo);
    }
  }

  /** Positions `q` to `q'` hold no match: the split just moves on. */
  lemma {:induction false} SplitSkips(s: string, p: nat, q: nat, q': nat)
    requires p <= q <= q' <= |s|
    requires forall k: nat | q <= k < q' :: s[k] != '@'
    ensures SplitDirective(s, p, q) == SplitDirective(s, p, q')
    decreases q' - q
  {
    if q < q' {
      SplitSkips(s, p, q + 1, q');
    }
  }

  /** A line with one directive at `q`, its last '=' at `j`, no other '@'
      and no line break after the directive splits into the text before,
      the group name, the text between, and the text after. */
  lemma SplitOneDirective(s: string, q: nat, j: nat)
    requires DirectiveAt(s, q) && q + 16 <= j < |s| && s[j] == '='
    requires forall k: nat | k < q :: s[k] != '@'
    requires forall i | q + 15 <= i < |s| :: !IsLineTerminator(s[i])
    requires forall i | j < i < |s| :: s[i] != '=' && s[i] != '@'
    ensures SplitDirective(s, 0, 0) == [s[..q], "enableSections", s[q + 16..j], s[j + 1..]]
  {
    SplitSkips(s, 0, 0, q);
    SplitFromDirective(s, q, j);
    assert s[0..q] == s[..q];
  }

  /** From the directive on, the split gives the text before, the group
      name, the text between, and the text after. */
  lemma SplitFromDirective(s: string, q: nat, j: nat)
    requires DirectiveAt(s, q) && q + 16 <= j < |s| && s[j] == '='
    requires forall i | q + 15 <= i < |s| :: !IsLineTerminator(s[i])
    requires forall i | j < i < |s| :: s[i] != '=' && s[i] != '@'
    ensures SplitDirective(s, 0, q) == [s[0..q], "enableSections", s[q + 16..j], s[j + 1..]]
  {
    MatchToLastEquals(s, q, j);
    SplitAtMatch(s, 0, q, j + 1);
    SplitRest(s, j + 1);
    DirectiveName(s, q);
  }

  /** The group `(enableSections)` captures the directive's name. */
  lemma DirectiveName(s: string, q: nat)
    requires DirectiveAt(s, q)
    ensures s[q + 1..q + 15] == "enableSections"
  {
    assert s[q + 1..q + 15] == "enableSections" by {
      forall i | 0 <= i < 14 ensures s[q + 1..q + 15][i] == "enableSections"[i] { }
    }
  }

  /** Without a further '@' the rest of the text is the last piece. */
  lemma SplitRest(s: string, p: nat)
    requires p <= |s| && forall k | p <= k < |s| :: s[k] != '@'
    ensures SplitDirective(s, p, p) == [s[p..]]
  {
    SplitSkips(s, p, p, |s|);
  }

  /** A match at `q` ending at `e` closes the current piece and adds the
      two captured groups. */
  lemma SplitAtMatch(s: string, p: nat, q: nat, e: nat)
    requires p <= q < |s| && MatchEnd(s, q) == Some(e)
    ensures SplitDirective(s, p, q) == [s[p..q], s[q + 1..q + 15], s[q + 16..e - 1]] + SplitDirective(s, e, e)
  {
  }

  /** The match at a directive runs to the last '=' of the line. */
  lemma MatchToLastEquals(s: string, q: nat, j: nat)
    requires DirectiveAt(s, q) && q + 16 <= j < |s| && s[j] == '='
    requires forall i | q + 15 <= i < |s| :: !IsLineTerminator(s[i])
    requires forall i | j < i < |s| :: s[i] != '='
    ensures MatchEnd(s, q) == Some(j + 1)
  {
    RunToEnd(s, q + 16);
    LastEqualsSkips(s, q + 16, j, |s|);
  }

  lemma {:induction false} RunToEnd(s: string, k: nat)
    requires k <= |s|
    requires forall i | k <= i < |s| :: !IsLineTerminator(s[i])
    ensures RunEnd(s, k) == |s|
    decreases |s| - k
  {
    if k < |s| {
      RunToEnd(s, k + 1);
    }
  }

  lemma {:induction false} LastEqualsSkips(s: string, k: nat, j: nat, e: nat)
    requires k <= j < e <= |s| && s[j] == '='
    requires forall i | j < i < e :: s[i] != '='
    ensures LastEquals(s, k, e) == Some(j)
    decreases e - k
  {
    if e - 1 != j {
      LastEqualsSkips(s, k, j, e - 1);
    }
  }

  /** The documented form `> !# @enableSections = true` turns sections on. */
  lemma DirectiveTrueEnables()
    ensures DirectiveEnables("> !# @enableSections = true")
  {
    var line := "> !# @enableSections = true";
    DocumentedDirectiveSplits(line);
    TrimTrue();
    var kv := TrimAll(SplitDirective(line, 0, 0));
    assert kv[1] == Trim("enableSections") == "enableSections";
    assert kv[3] == Trim(" true") == "true";
  }

  lemma DocumentedDirectiveSplits(line: string)
    requires line == "> !# @enableSections = true"
    ensures SplitDirective(line, 0, 0) == ["> !# ", "enableSections", "", " true"]
  {
    DocumentedDirectivePlaced(line);
    DocumentedDirectiveTail(line);
    SplitOneDirective(line, 5, 21);
  }

  /** In the documented line the directive sits at 5, with no '@' before
      it and no line break after it. */
  lemma DocumentedDirectivePlaced(line: string)
    requires line == "> !# @enableSections = true"
    ensures DirectiveAt(line, 5) && 21 < |line| && line[21] == '='
    ensures forall k: nat | k < 5 :: line[k] != '@'
    ensures forall i | 20 <= i < |line| :: !IsLineTerminator(line[i])
  {
  }

  /** The documented line has no '=' or '@' after position 21, and its
      pieces around the directive are `> !# `, nothing and ` true`. */
  lemma DocumentedDirectiveTail(line: string)
    requires line == "> !# @enableSections = true"
    ensures forall i | 21 < i < |line| :: line[i] != '=' && line[i] != '@'
    ensures line[..5] == "> !# " && line[21..21] == "" && line[22..] == " true"
  {
  }

  lemma TrimTrue()
    ensures Trim(" true") == "true" && Trim("enableSections") == "enableSections"
  {
    assert TrimStart(" true") == TrimStart(" true"[1..]);
    assert " true"[1..] == "true";
  }

  /** Without a character between the name and '=', the pattern needs a
      second '=': `@enableSections=true` leaves sections off. */
  lemma DirectiveWithoutSpaceDisables()
    ensures !DirectiveEnables("@enableSections=true")
  {
    var line := "@enableSections=true";
    assert RunEnd(line, 16) == |line| by { RunToEnd(line, 16); }
    assert LastEquals(line, 16, |line|) == None;
    assert MatchEnd(line, 0) == None;
    SplitSkips(line, 0, 1, |line|);
  }

  // ---------------------------------------------------------------------
  // extractSectionBody
  // ---------------------------------------------------------------------

  /** Sections ordered by the first line of their parse tree. */
  ghost predicate SortedByStart(s: seq<Section>)
  {
    forall i, j | 0 <= i < j < |s| :: s[i].tree.start <= s[j].tree.start
  }

  /** The sections of `s` that start on line `line`, in their order in `s`. */
  function OnLine(s: seq<Section>, line: int): seq<Section>
  {
    if |s| == 0 then []
    else (if s[0].tree.start == line then [s[0]] else []) + OnLine(s[1..], line)
  }

  /** Puts `x` before the first section of `s` that starts on its line or
      later, so that it stays ahead of the sections that tie with it. */
  function InsertByStart(x: Section, s: seq<Section>): (r: seq<Section>)
    ensures multiset(r) == multiset(s) + multiset{x}
  {
    if |s| == 0 || x.tree.start <= s[0].tree.start then [x] + s
    else
      assert s == [s[0]] + s[1..];
      [s[0]] + InsertByStart(x, s[1..])
  }

  lemma {:induction false} InsertKeepsSorted(x: Section, s: seq<Section>)
    requires SortedByStart(s)
    ensures SortedByStart(InsertByStart(x, s))
  {
    if |s| > 0 && x.tree.start > s[0].tree.start {
      var rest := InsertByStart(x, s[1..]);
      InsertKeepsSorted(x, s[1..]);
      var r := [s[0]] + rest;
      forall j | 0 < j < |r| ensures s[0].tree.start <= r[j].tree.start {
        assert r[j] in multiset(rest);
        assert r[j] == x || r[j] in multiset(s[1..]);
      }
    }
  }

  lemma {:induction false} InsertOnLine(x: Section, s: seq<Section>, line: int)
    ensures OnLine(InsertByStart(x, s), line) == (if x.tree.start == line then [x] else []) + OnLine(s, line)
  {
    var r := InsertByStart(x, s);
    if |s| == 0 || x.tree.start <= s[0].tree.start {
      assert r[0] == x && r[1..] == s;
      assert OnLine(r, line) == (if x.tree.start == line then [x] else []) + OnLine(r[1..], line);
    } else {
      var rest := InsertByStart(x, s[1..]);
      assert r[0] == s[0] && r[1..] == rest;
      InsertOnLine(x, s[1..], line);
      var head := if s[0].tree.start == line then [s[0]] else [];
      var mine := if x.tree.start == line then [x] else [];
      assert OnLine(r, line) == head + OnLine(rest, line);
      assert OnLine(s, line) == head + OnLine(s[1..], line);
      if x.tree.start == line {
        assert head == [];
        assert OnLine(r, line) == OnLine(rest, line);
      } else {
        assert mine == [];
        assert OnLine(rest, line) == OnLine(s[1..], line);
        assert OnLine(r, line) == OnLine(s, line);
      }
    }
  }

  /** `sections.sort((a, b) => a.ParseTree.start.line - b.ParseTree.start.line)`:
      a stable sort, so sections that start on the same line keep their
      relative order. */
  function SortByStart(s: seq<Section>): (r: seq<Section>)
    ensures multiset(r) == multiset(s) && |r| == |s|
    ensures SortedByStart(r)
  {
    if |s| == 0 then []
    else
      assert s == [s[0]] + s[1..];
      var rest := SortByStart(s[1..]);
      InsertKeepsSorted(s[0], rest);
      InsertByStart(s[0], rest)
  }

  /** The sort is stable: the sections that start on any one line come out
      in the order they went in. */
  lemma {:induction false} SortByStartStable(s: seq<Section>, line: int)
    ensures OnLine(SortByStart(s), line) == OnLine(s, line)
  {
    if |s| > 0 {
      SortByStartStable(s[1..], line);
      InsertOnLine(s[0], SortByStart(s[1..]), line);
    }
  }

  /** `SortByStart` is the one order a stable sort by start line can
      produce. */
  lemma SortByStartIsStableSort(s: seq<Section>, r: seq<Section>)
    requires SortedByStart(r) && forall line :: OnLine(r, line) == OnLine(s, line)
    ensures r == SortByStart(s)
  {
    forall line ensures OnLine(r, line) == OnLine(SortByStart(s), line) {
      SortByStartStable(s, line);
    }
    StableSortUnique(r, SortByStart(s));
  }

  /** A stable sort by start line has only one possible result: two lists
      sorted by start line that agree on every line's sections are equal. */
  lemma {:induction false} StableSortUnique(a: seq<Section>, b: seq<Section>)
    requires SortedByStart(a) && SortedByStart(b)
    requires forall line :: OnLine(a, line) == OnLine(b, line)
    ensures a == b
    decreases |a| + |b|
  {
    if |a| == 0 && |b| == 0 {
    } else if |a| == 0 {
      OnLineHead(b);
      assert false;
    } else if |b| == 0 {
      OnLineHead(a);
      assert false;
    } else {
      var m := a[0].tree.start;
      OnLineHead(a);
      OnLineHead(b);
      OnLineMember(b, m);
      OnLineMember(a, b[0].tree.start);
      assert b[0].tree.start == m;
      assert a[0] == OnLine(a, m)[0] == OnLine(b, m)[0] == b[0];
      forall line ensures OnLine(a[1..], line) == OnLine(b[1..], line) {
        var h: seq<Section> := if a[0].tree.start == line then [a[0]] else [];
        assert OnLine(a, line) == h + OnLine(a[1..], line);
        assert OnLine(b, line) == h + OnLine(b[1..], line);
        assert OnLine(a[1..], line) == OnLine(a, line)[|h|..];
        assert OnLine(b[1..], line) == OnLine(b, line)[|h|..];
      }
      StableSortUnique(a[1..], b[1..]);
      assert a == [a[0]] + a[1..] && b == [b[0]] + b[1..];
    }
  }

  /** The first section starts on a line whose sections it heads. */
  lemma OnLineHead(s: seq<Section>)
    requires |s| > 0
    ensures |OnLine(s, s[0].tree.start)| > 0 && OnLine(s, s[0].tree.start)[0] == s[0]
  {
  }

  /** In a sorted list, a section starting on `line` means the first
      section starts no later. */
  lemma {:induction false} OnLineMember(s: seq<Section>, line: int)
    requires SortedByStart(s) && |s| > 0 && |OnLine(s, line)| > 0
    ensures s[0].tree.start <= line
  {
    if s[0].tree.start != line {
      assert |OnLine(s[1..], line)| > 0;
      OnLineMember(s[1..], line);
      assert s[1..][0] == s[1];
    }
  }

  /** The body of a block section runs up to the line before the next
      section starts, or to the end of the text for the last section. */
  function StopLineAt(sorted: seq<Section>, i: nat, lines: seq<string>): int
    requires i < |sorted|
  {
    if i + 1 < |sorted| then sorted[i + 1].tree.start - 1 else |lines|
  }

  /** A block section that is not the last must start after line 0 and
      before the line where the next one's body begins. */
  predicate BadRange(sorted: seq<Section>, i: nat)
    requires i < |sorted|
  {
    var startLine := sorted[i].tree.start - 1;
    IsBlock(sorted[i].kind) && i + 1 < |sorted|
      && (startLine < 0 || startLine >= sorted[i + 1].tree.start - 1)
  }

  /** The `i`th section in sorted order with its body, line range, QnA
      number and (for a nested intent) children resolved against `lines`;
      `qnaIndex` is the number of QnA sections before it. */
  function ResolveAt(sections: seq<Section>, i: nat, lines: seq<string>, qnaIndex: nat): Result<Section, string>
    requires i < |sections|
    decreases sections, 0
  {
    var sorted := SortByStart(sections);
    var s := sorted[i];
    assert s in multiset(sections);
    if !IsBlock(s.kind) then Ok(s.(startLine := s.tree.start, stopLine := s.tree.stop - 1))
    else if BadRange(sorted, i) then Err(IndexOutOfRange)
    else
      var startLine := s.tree.start - 1;
      var stopLine := StopLineAt(sorted, i, lines);
      var isQna := s.kind == QnaSection;
      var dest := if isQna then Slice(lines, startLine, stopLine) else Slice(lines, startLine + 1, stopLine);
      var resolved := s.(body := Join(dest, Eol), startLine := startLine, stopLine := stopLine - 1,
                         id := if isQna then qnaIndex else s.id);
      if s.kind == NestedIntentSection then
        match SectionBodies(s.children, Join(Slice(lines, 0, stopLine), Eol))
        case Err(e) => Err(e)
        case Ok(cs) => Ok(resolved.(children := cs))
      else Ok(resolved)
  }

  /** The sections in sorted order from index `i` on, resolved; the first
      failure aborts. */
  function ResolveFrom(sections: seq<Section>, i: nat, lines: seq<string>, qnaIndex: nat): Result<seq<Section>, string>
    requires i <= |sections|
    decreases sections, 1, |sections| - i
  {
    if i == |sections| then Ok([])
    else match ResolveAt(sections, i, lines, qnaIndex)
      case Err(e) => Err(e)
      case Ok(s) =>
        match ResolveFrom(sections, i + 1, lines, if s.kind == QnaSection then qnaIndex + 1 else qnaIndex)
        case Err(e) => Err(e)
        case Ok(rest) => Ok([s] + rest)
  }

  /** One step of `ResolveFrom`: the section at `i` fails the whole list,
      or heads it, with the QnA counter moved on past a QnA section. */
  lemma ResolveFromStep(sections: seq<Section>, i: nat, lines: seq<string>, qnaIndex: nat)
    requires i < |sections|
    ensures var r := ResolveAt(sections, i, lines, qnaIndex);
      var next := if SortByStart(sections)[i].kind == QnaSection then qnaIndex + 1 else qnaIndex;
      && (r.Err? ==> ResolveFrom(sections, i, lines, qnaIndex) == Err(r.error))
      && (r.Ok? ==> ResolveFrom(sections, i, lines, qnaIndex) == Prepend([r.value], ResolveFrom(sections, i + 1, lines, next)))
  {
    if ResolveAt(sections, i, lines, qnaIndex).Ok? {
      ResolveAtKind(sections, i, lines, qnaIndex);
    }
  }

  /** `extractSectionBody(sections, content)` as a value: the sections in
      order of their start line with their bodies, or the error it throws. */
  function SectionBodies(sections: seq<Section>, content: string): Result<seq<Section>, string>
    decreases sections, 2
  {
    ResolveFrom(sections, 0, SplitLines(content), 0)
  }

  /** The number of QnA sections in `s`. */
  function CountQna(s: seq<Section>): nat
  {
    if |s| == 0 then 0 else (if s[0].kind == QnaSection then 1 else 0) + CountQna(s[1..])
  }

  lemma {:induction false} CountQnaSameKinds(a: seq<Section>, b: seq<Section>)
    requires |a| == |b| && forall k | 0 <= k < |a| :: a[k].kind == b[k].kind
    ensures CountQna(a) == CountQna(b)
  {
    if |a| > 0 {
      CountQnaSameKinds(a[1..], b[1..]);
    }
  }

  /** Every section of every level is well placed: each block section but
      the last starts after line 0 and before the line where the next
      section's body begins, and the children of every nested intent are
      well spaced in turn. */
  ghost predicate WellSpaced(sections: seq<Section>)
    decreases sections
  {
    var sorted := SortByStart(sections);
    forall i | 0 <= i < |sorted| ::
      && !BadRange(sorted, i)
      && (sorted[i].kind == NestedIntentSection ==> sorted[i] in multiset(sections) && WellSpaced(sorted[i].children))
  }

  /** The `i`th section in sorted order is well placed. */
  ghost predicate SpacedAt(sections: seq<Section>, i: nat)
    requires i < |sections|
  {
    var sorted := SortByStart(sections);
    && !BadRange(sorted, i)
    && (sorted[i].kind == NestedIntentSection ==> sorted[i] in multiset(sections) && WellSpaced(sorted[i].children))
  }

  lemma WellSpacedEverywhere(sections: seq<Section>)
    ensures WellSpaced(sections) <==> forall k | 0 <= k < |sections| :: SpacedAt(sections, k)
  {
    var sorted := SortByStart(sections);
    if forall k | 0 <= k < |sections| :: SpacedAt(sections, k) {
      forall i | 0 <= i < |sorted|
        ensures !BadRange(sorted, i)
        ensures sorted[i].kind == NestedIntentSection ==> sorted[i] in multiset(sections) && WellSpaced(sorted[i].children)
      {
        assert SpacedAt(sections, i);
      }
    }
  }

  /** One section resolves exactly when it is well placed, and otherwise
      fails with "index out of range.". */
  lemma {:induction false} ResolveAtSucceeds(sections: seq<Section>, i: nat, lines: seq<string>, qnaIndex: nat)
    requires i < |sections|
    ensures ResolveAt(sections, i, lines, qnaIndex).Ok? <==> SpacedAt(sections, i)
    ensures ResolveAt(sections, i, lines, qnaIndex).Err? ==> ResolveAt(sections, i, lines, qnaIndex).error == IndexOutOfRange
    decreases sections, 0
  {
    var sorted := SortByStart(sections);
    var s := sorted[i];
    assert s in multiset(sections);
    if IsBlock(s.kind) && !BadRange(sorted, i) && s.kind == NestedIntentSection {
      SectionBodiesSucceeds(s.children, Join(Slice(lines, 0, StopLineAt(sorted, i, lines)), Eol));
    }
  }

  /** The resolution from `i` on succeeds exactly when every section from
      `i` on is well placed, and otherwise fails with "index out of range.". */
  lemma {:induction false} ResolveFromSucceeds(sections: seq<Section>, i: nat, lines: seq<string>, qnaIndex: nat)
    requires i <= |sections|
    ensures ResolveFrom(sections, i, lines, qnaIndex).Ok? <==> forall k | i <= k < |sections| :: SpacedAt(sections, k)
    decreases sections, 1, |sections| - i
  {
    if i < |sections| {
      ResolveAtSucceeds(sections, i, lines, qnaIndex);
      ResolveFromSucceeds(sections, i + 1, lines, qnaIndex + 1);
      ResolveFromSucceeds(sections, i + 1, lines, qnaIndex);
    }
  }

  /** The only error the resolution from `i` on reports is "index out of
      range.". */
  lemma {:induction false} ResolveFromFailure(sections: seq<Section>, i: nat, lines: seq<string>, qnaIndex: nat)
    requires i <= |sections|
    ensures ResolveFrom(sections, i, lines, qnaIndex).Err? ==> ResolveFrom(sections, i, lines, qnaIndex).error == IndexOutOfRange
    decreases sections, 1, |sections| - i
  {
    if i < |sections| {
      ResolveAtSucceeds(sections, i, lines, qnaIndex);
      ResolveFromFailure(sections, i + 1, lines, qnaIndex + 1);
      ResolveFromFailure(sections, i + 1, lines, qnaIndex);
    }
  }

  /** `extractSectionBody` throws only "index out of range.", and it throws
      exactly when the sections are not well spaced: whether it succeeds
      does not depend on the text, since the end of the text is never
      compared with a section's range. */
  lemma SectionBodiesSucceeds(sections: seq<Section>, content: string)
    ensures SectionBodies(sections, content).Ok? <==> WellSpaced(sections)
    ensures SectionBodies(sections, content).Err? ==> SectionBodies(sections, content).error == IndexOutOfRange
    decreases sections, 2
  {
    ResolveFromSucceeds(sections, 0, SplitLines(content), 0);
    ResolveFromFailure(sections, 0, SplitLines(content), 0);
    WellSpacedEverywhere(sections);
  }

  /** A block section that is not the last and starts on line 0 or no
      earlier than the next makes the whole call throw. */
  lemma BadRangeThrows(sections: seq<Section>, content: string, i: nat)
    requires i < |sections| && BadRange(SortByStart(sections), i)
    ensures SectionBodies(sections, content) == Err(IndexOutOfRange)
  {
    SectionBodiesSucceeds(sections, content);
    assert !SpacedAt(sections, i);
  }

  /** What the resolution makes of the `k`th section in sorted order, `qnaId`
      being the number of QnA sections before it. */
  ghost predicate ResolvedAt(sorted: seq<Section>, k: nat, lines: seq<string>, qnaId: nat, o: Section)
    requires k < |sorted|
  {
    var s := sorted[k];
    && o.kind == s.kind && o.name == s.name && o.tree == s.tree && o.errors == s.errors && o.modelInfo == s.modelInfo
    && if IsBlock(s.kind) then
         var stop := StopLineAt(sorted, k, lines);
         && o.startLine == s.tree.start - 1
         && o.stopLine == stop - 1
         && o.body == Join(Slice(lines, if s.kind == QnaSection then o.startLine else o.startLine + 1, stop), Eol)
         && o.id == (if s.kind == QnaSection then qnaId else s.id)
         && (if s.kind == NestedIntentSection then SectionBodies(s.children, Join(Slice(lines, 0, stop), Eol)) == Ok(o.children)
             else o.children == s.children)
       else
         o == s.(startLine := s.tree.start, stopLine := s.tree.stop - 1)
  }

  lemma ResolveAtShape(sections: seq<Section>, i: nat, lines: seq<string>, qnaIndex: nat)
    requires i < |sections| && ResolveAt(sections, i, lines, qnaIndex).Ok?
    ensures ResolvedAt(SortByStart(sections), i, lines, qnaIndex, ResolveAt(sections, i, lines, qnaIndex).value)
  {
  }

  /** The `k`th section of a successful resolution from `i` is the `k`th
      section resolved on its own, numbered after the QnA sections before
      it. */
  lemma {:induction false} ResolveFromAt(sections: seq<Section>, i: nat, lines: seq<string>, qnaIndex: nat, k: nat, q: nat)
    requires i <= k < |sections| && ResolveFrom(sections, i, lines, qnaIndex).Ok?
    requires q == qnaIndex + CountQna(SortByStart(sections)[i..k])
    ensures ResolveAt(sections, k, lines, q).Ok?
    ensures |ResolveFrom(sections, i, lines, qnaIndex).value| == |sections| - i
    ensures ResolveFrom(sections, i, lines, qnaIndex).value[k - i] == ResolveAt(sections, k, lines, q).value
    decreases k - i
  {
    ResolveFromLength(sections, i, lines, qnaIndex);
    var sorted := SortByStart(sections);
    if i < k {
      var q' := if sorted[i].kind == QnaSection then qnaIndex + 1 else qnaIndex;
      ResolveFromShift(sections, i, lines, qnaIndex);
      CountQnaFrom(sorted, i, k);
      ResolveFromAt(sections, i + 1, lines, q', k, q);
    } else {
      assert CountQna(sorted[i..k]) == 0 by { assert sorted[i..k] == []; }
    }
  }

  /** A successful resolution from `i` is the `i`th section resolved
      followed by the successful resolution of the rest. */
  lemma ResolveFromShift(sections: seq<Section>, i: nat, lines: seq<string>, qnaIndex: nat)
    requires i < |sections| && ResolveFrom(sections, i, lines, qnaIndex).Ok?
    ensures var next := if SortByStart(sections)[i].kind == QnaSection then qnaIndex + 1 else qnaIndex;
      && ResolveAt(sections, i, lines, qnaIndex).Ok?
      && ResolveFrom(sections, i + 1, lines, next).Ok?
      && ResolveFrom(sections, i, lines, qnaIndex).value
         == [ResolveAt(sections, i, lines, qnaIndex).value] + ResolveFrom(sections, i + 1, lines, next).value
  {
    ResolveFromStep(sections, i, lines, qnaIndex);
  }

  /** Counting the QnA sections of `s[i..k]` counts `s[i]`, then the rest. */
  lemma CountQnaFrom(s: seq<Section>, i: nat, k: nat)
    requires i < k <= |s|
    ensures CountQna(s[i..k]) == (if s[i].kind == QnaSection then 1 else 0) + CountQna(s[i + 1..k])
  {
    assert s[i..k][1..] == s[i + 1..k];
    assert s[i..k][0] == s[i];
  }

  lemma ResolveAtKind(sections: seq<Section>, i: nat, lines: seq<string>, qnaIndex: nat)
    requires i < |sections| && ResolveAt(sections, i, lines, qnaIndex).Ok?
    ensures ResolveAt(sections, i, lines, qnaIndex).value.kind == SortByStart(sections)[i].kind
  {
  }

  lemma {:induction false} ResolveFromLength(sections: seq<Section>, i: nat, lines: seq<string>, qnaIndex: nat)
    requires i <= |sections| && ResolveFrom(sections, i, lines, qnaIndex).Ok?
    ensures |ResolveFrom(sections, i, lines, qnaIndex).value| == |sections| - i
    decreases |sections| - i
  {
    if i < |sections| {
      var s := ResolveAt(sections, i, lines, qnaIndex).value;
      ResolveFromLength(sections, i + 1, lines, if s.kind == QnaSection then qnaIndex + 1 else qnaIndex);
    }
  }

  /** The `k`th section of a successful `extractSectionBody`. */
  lemma SectionBodiesAt(sections: seq<Section>, content: string, k: nat)
    requires SectionBodies(sections, content).Ok? && k < |sections|
    ensures |SectionBodies(sections, content).value| == |sections|
    ensures var out := SectionBodies(sections, content).value;
      ResolvedAt(SortByStart(sections), k, SplitLines(content), CountQna(out[..k]), out[k])
  {
    var out := SectionBodies(sections, content).value;
    var sorted := SortByStart(sections);
    var lines := SplitLines(content);
    assert sorted[0..k] == sorted[..k];
    ResolveFromAt(sections, 0, lines, 0, k, CountQna(sorted[..k]));
    ResolveAtShape(sections, k, lines, CountQna(sorted[..k]));
    forall j | 0 <= j < k ensures out[j].kind == sorted[j].kind {
      ResolveFromAt(sections, 0, lines, 0, j, CountQna(sorted[0..j]));
      ResolveAtKind(sections, j, lines, CountQna(sorted[0..j]));
    }
    CountQnaSameKinds(out[..k], sorted[..k]);
  }

  /** `extractSectionBody` returns every section once, in order of start
      line, with its kind, name, parse tree, errors and model-info line
      unchanged. */
  lemma SectionBodiesOrder(sections: seq<Section>, content: string)
    requires SectionBodies(sections, content).Ok?
    ensures var out := SectionBodies(sections, content).value;
      var sorted := SortByStart(sections);
      && |out| == |sections|
      && (forall k | 0 <= k < |out| ::
            && out[k].kind == sorted[k].kind && out[k].name == sorted[k].name && out[k].tree == sorted[k].tree
            && out[k].errors == sorted[k].errors && out[k].modelInfo == sorted[k].modelInfo)
      && SortedByStart(out)
  {
    var out := SectionBodies(sections, content).value;
    ResolveFromLength(sections, 0, SplitLines(content), 0);
    forall k | 0 <= k < |out| ensures ResolvedAt(SortByStart(sections), k, SplitLines(content), CountQna(out[..k]), out[k]) {
      SectionBodiesAt(sections, content, k);
    }
  }

  /** Block sections (simple intents, nested intents, QnA) span from the
      line before their header's number to the line before the next
      section starts, or to the end of the text; a QnA body includes its
      header line, the others start after it. */
  lemma SectionBodiesBlocks(sections: seq<Section>, content: string)
    requires SectionBodies(sections, content).Ok?
    ensures var out := SectionBodies(sections, content).value;
      var sorted := SortByStart(sections);
      var lines := SplitLines(content);
      && |out| == |sections|
      && (forall k | 0 <= k < |out| && IsBlock(out[k].kind) ::
            && out[k].startLine == out[k].tree.start - 1
            && out[k].stopLine == StopLineAt(sorted, k, lines) - 1)
      && (forall k | 0 <= k < |out| && IsBlock(out[k].kind) && out[k].kind != QnaSection ::
            out[k].body == Join(Slice(lines, out[k].startLine + 1, out[k].stopLine + 1), Eol))
      && (forall k | 0 <= k < |out| && out[k].kind == QnaSection ::
            out[k].body == Join(Slice(lines, out[k].startLine, out[k].stopLine + 1), Eol))
  {
    var out := SectionBodies(sections, content).value;
    ResolveFromLength(sections, 0, SplitLines(content), 0);
    forall k | 0 <= k < |out| ensures ResolvedAt(SortByStart(sections), k, SplitLines(content), CountQna(out[..k]), out[k]) {
      SectionBodiesAt(sections, content, k);
    }
  }

  /** QnA sections are numbered 0, 1, 2, ... in order of start line; other
      sections keep their number. */
  lemma SectionBodiesQnaIds(sections: seq<Section>, content: string)
    requires SectionBodies(sections, content).Ok?
    ensures var out := SectionBodies(sections, content).value;
      var sorted := SortByStart(sections);
      && |out| == |sections|
      && (forall k | 0 <= k < |out| && out[k].kind == QnaSection :: out[k].id == CountQna(out[..k]))
      && (forall k | 0 <= k < |out| && out[k].kind != QnaSection :: out[k].id == sorted[k].id)
  {
    var out := SectionBodies(sections, content).value;
    ResolveFromLength(sections, 0, SplitLines(content), 0);
    forall k | 0 <= k < |out| ensures ResolvedAt(SortByStart(sections), k, SplitLines(content), CountQna(out[..k]), out[k]) {
      SectionBodiesAt(sections, content, k);
    }
  }

  /** A nested intent's children are resolved in turn against the text up
      to the end of the nested intent; the children of other sections are
      left alone. */
  lemma SectionBodiesChildren(sections: seq<Section>, content: string)
    requires SectionBodies(sections, content).Ok?
    ensures var out := SectionBodies(sections, content).value;
      var sorted := SortByStart(sections);
      var lines := SplitLines(content);
      && |out| == |sections|
      && (forall k | 0 <= k < |out| && out[k].kind == NestedIntentSection ::
            SectionBodies(sorted[k].children, Join(Slice(lines, 0, out[k].stopLine + 1), Eol)) == Ok(out[k].children))
      && (forall k | 0 <= k < |out| && out[k].kind != NestedIntentSection :: out[k].children == sorted[k].children)
  {
    var out := SectionBodies(sections, content).value;
    ResolveFromLength(sections, 0, SplitLines(content), 0);
    forall k | 0 <= k < |out| ensures ResolvedAt(SortByStart(sections), k, SplitLines(content), CountQna(out[..k]), out[k]) {
      SectionBodiesAt(sections, content, k);
    }
  }

  /** The text a nested intent's children are resolved against splits back
      into the document's first `stop` lines, provided none of them but the
      last ends in "\r". */
  lemma PrefixTextLines(content: string, stop: int)
    requires 1 <= stop <= |SplitLines(content)|
    requires forall i | 0 <= i < stop - 1 :: !EndsWithCr(SplitLines(content)[i])
    ensures SplitLines(Join(Slice(SplitLines(content), 0, stop), Eol)) == SplitLines(content)[..stop]
  {
    var lines := SplitLines(content);
    SplitLinesHaveNoBreak(content);
    SplitJoinLines(lines[..stop]);
  }

  /** A nested intent's children are resolved against a text whose lines
      are the document's lines up to the nested intent's stop line, so the
      line numbers in their parse trees count from the top of the
      document. */
  lemma NestedChildrenAbsolute(sections: seq<Section>, content: string, k: nat)
    requires SectionBodies(sections, content).Ok?
    requires k < |sections| && k < |SectionBodies(sections, content).value|
    requires SectionBodies(sections, content).value[k].kind == NestedIntentSection
    requires 0 <= SectionBodies(sections, content).value[k].stopLine < |SplitLines(content)|
    requires forall i | 0 <= i < SectionBodies(sections, content).value[k].stopLine :: !EndsWithCr(SplitLines(content)[i])
    ensures var o := SectionBodies(sections, content).value[k];
      var text := Join(Slice(SplitLines(content), 0, o.stopLine + 1), Eol);
      SectionBodies(SortByStart(sections)[k].children, text) == Ok(o.children)
    ensures var o := SectionBodies(sections, content).value[k];
      var text := Join(Slice(SplitLines(content), 0, o.stopLine + 1), Eol);
      SplitLines(text) == SplitLines(content)[..o.stopLine + 1]
  {
    var o := SectionBodies(sections, content).value[k];
    var text := Join(Slice(SplitLines(content), 0, o.stopLine + 1), Eol);
    assert SectionBodies(SortByStart(sections)[k].children, text) == Ok(o.children) by {
      SectionBodiesChildren(sections, content);
    }
    PrefixTextLines(content, o.stopLine + 1);
  }

  /** Sections that are not blocks keep their body and take their line
      range from the parse tree. */
  lemma SectionBodiesOthers(sections: seq<Section>, content: string)
    requires SectionBodies(sections, content).Ok?
    ensures var out := SectionBodies(sections, content).value;
      var sorted := SortByStart(sections);
      && |out| == |sections|
      && (forall k | 0 <= k < |out| && !IsBlock(out[k].kind) ::
            && out[k].body == sorted[k].body
            && out[k].startLine == out[k].tree.start
            && out[k].stopLine == out[k].tree.stop - 1)
  {
    var out := SectionBodies(sections, content).value;
    ResolveFromLength(sections, 0, SplitLines(content), 0);
    forall k | 0 <= k < |out| ensures ResolvedAt(SortByStart(sections), k, SplitLines(content), CountQna(out[..k]), out[k]) {
      SectionBodiesAt(sections, content, k);
    }
  }

  /** `xs` followed by the sections of `r`, or the error of `r`. */
  function Prepend(xs: seq<Section>, r: Result<seq<Section>, string>): Result<seq<Section>, string>
  {
    match r
    case Ok(v) => Ok(xs + v)
    case Err(e) => Err(e)
  }

  lemma PrependStep(xs: seq<Section>, x: Section, r: Result<seq<Section>, string>)
    ensures Prepend(xs, Prepend([x], r)) == Prepend(xs + [x], r)
  {
    if r.Ok? {
      assert xs + ([x] + r.value) == (xs + [x]) + r.value;
    }
  }

  /** `extractSectionBody`: sorts the sections by start line, then walks
      them once, cutting each block section's body out of the text,
      numbering the QnA sections, and descending into nested intents. */
  method ExtractSectionBody(sections: seq<Section>, content: string) returns (r: Result<seq<Section>, string>)
    ensures r == SectionBodies(sections, content)
    decreases sections, 2
  {
    var sorted := SortByStart(sections);
    var originList := SplitLines(content);
    var qnaSectionIndex := 0;
    var resolved: seq<Section> := [];
    var index := 0;
    assert Prepend(resolved, ResolveFrom(sections, index, originList, qnaSectionIndex)) == SectionBodies(sections, content) by {
      if ResolveFrom(sections, index, originList, qnaSectionIndex).Ok? {
        assert [] + ResolveFrom(sections, index, originList, qnaSectionIndex).value
          == ResolveFrom(sections, index, originList, qnaSectionIndex).value;
      }
    }
    while index < |sorted|
      invariant 0 <= index <= |sorted|
      invariant SectionBodies(sections, content) == Prepend(resolved, ResolveFrom(sections, index, originList, qnaSectionIndex))
      decreases |sorted| - index
    {
      var section, nextQna := ResolveSection(sections, sorted, index, originList, qnaSectionIndex);
      ResolveFromStep(sections, index, originList, qnaSectionIndex);
      if section.Err? {
        return Err(section.error);
      }
      PrependStep(resolved, section.value, ResolveFrom(sections, index + 1, originList, nextQna));
      resolved := resolved + [section.value];
      qnaSectionIndex := nextQna;
      index := index + 1;
    }
    assert resolved + [] == resolved;
    return Ok(resolved);
  }

  /** The body of the loop of `extractSectionBody` for the section at
      `index` of the sorted list; `nextQna` is the QnA counter after it. */
  method ResolveSection(sections: seq<Section>, sorted: seq<Section>, index: nat, originList: seq<string>, qnaSectionIndex: nat)
    returns (r: Result<Section, string>, nextQna: nat)
    requires sorted == SortByStart(sections) && index < |sorted|
    ensures r == ResolveAt(sections, index, originList, qnaSectionIndex)
    ensures nextQna == if sorted[index].kind == QnaSection then qnaSectionIndex + 1 else qnaSectionIndex
    decreases sections, 1
  {
    var section := sorted[index];
    nextQna := if section.kind == QnaSection then qnaSectionIndex + 1 else qnaSectionIndex;
    if IsBlock(section.kind) {
      var startLine := section.tree.start - 1;
      if index + 1 < |sorted| {
        var stopLine := sorted[index + 1].tree.start - 1;
        if startLine < 0 || startLine >= stopLine {
          return Err(IndexOutOfRange), nextQna;
        }
      }
      r := ResolveBlock(sections, sorted, index, originList, qnaSectionIndex);
    } else {
      r := Ok(section.(startLine := section.tree.start, stopLine := section.tree.stop - 1));
    }
  }

  /** A block section whose line range is accepted: its body is the lines
      up to the next section, and a nested intent's children are resolved
      against the text before its end. */
  method ResolveBlock(sections: seq<Section>, sorted: seq<Section>, index: nat, originList: seq<string>, qnaSectionIndex: nat)
    returns (r: Result<Section, string>)
    requires sorted == SortByStart(sections) && index < |sorted|
    requires IsBlock(sorted[index].kind) && !BadRange(sorted, index)
    ensures r == ResolveAt(sections, index, originList, qnaSectionIndex)
    decreases sections, 0
  {
    var section := sorted[index];
    assert section in multiset(sections);
    var startLine := section.tree.start - 1;
    var stopLine := if index + 1 < |sorted| then sorted[index + 1].tree.start - 1 else |originList|;
    assert stopLine == StopLineAt(sorted, index, originList);
    var destList;
    if section.kind == QnaSection {
      destList := Slice(originList, startLine, stopLine);
      section := section.(id := qnaSectionIndex);
    } else {
      destList := Slice(originList, startLine + 1, stopLine);
    }
    section := section.(body := Join(destList, Eol), startLine := startLine, stopLine := stopLine - 1);
    if section.kind == NestedIntentSection {
      var children := ExtractSectionBody(section.children, Join(Slice(originList, 0, stopLine), Eol));
      if children.Err? {
        return Err(children.error);
      }
      section := section.(children := children.value);
    }
    r := Ok(section);
  }

  // ---------------------------------------------------------------------
  // parse
  // ---------------------------------------------------------------------

  /** The sections and diagnostics of all passes, in the order `parse` runs
      them, after the lexer's and parser's own errors. */
  function Assembled(fc: FileContent): PassOutcome
  {
    var ps := fc.paragraphs;
    var modelInfo := RunPass("model information", ExtractModelInfoSections(ps));
    var nested := NestedPass(SectionsEnabled(modelInfo.sections), ExtractNestedIntentSections(ps));
    var simple := RunPass("simple intent section", ExtractSimpleIntentSections(ps));
    var entities := RunPass("entities", ExtractEntitiesSections(ps));
    var newEntities := RunPass("new entities", ExtractNewEntitiesSections(ps));
    var imports := RunPass("import section", ExtractImportSections(ps));
    var qnas := RunPass("qna section", ExtractQnaSections(ps));
    PassOutcome(
      modelInfo.sections + nested.sections + simple.sections + entities.sections
        + newEntities.sections + imports.sections + qnas.sections,
      fc.lexErrors + modelInfo.errors + nested.errors + simple.errors + entities.errors
        + newEntities.errors + imports.errors + qnas.errors)
  }

  /** `parse(text)` as a value: an empty resource for an absent or empty
      text; otherwise the assembled sections with their bodies and the
      diagnostics, or the error `extractSectionBody` throws. */
  function Parsed(text: Option<string>, fc: FileContent): Result<LuResource, string>
  {
    if text == None || text == Some("") then Ok(LuResource([], "", []))
    else
      var assembled := Assembled(fc);
      match SectionBodies(assembled.sections, text.value)
      case Err(e) => Err(e)
      case Ok(ss) => Ok(LuResource(ss, text.value, assembled.errors))
  }

  /** `sections.forEach(s => errors = errors.concat(s.Errors))`. */
  method AppendErrors(errors: seq<Diagnostic>, ss: seq<Section>) returns (r: seq<Diagnostic>)
    ensures r == errors + ErrorsOf(ss)
  {
    r := errors;
    var i := 0;
    while i < |ss|
      invariant 0 <= i <= |ss|
      invariant r == errors + ErrorsOf(ss[..i])
    {
      assert ss[..i + 1][..i] == ss[..i];
      r := r + ss[i].errors;
      i := i + 1;
    }
    assert ss[..|ss|] == ss;
  }

  /** One `try { ... } catch` block of `parse` for a pass other than the
      nested-intent one. */
  method ApplyPass(pass: string, extracted: Result<seq<Section>, string>, sections: seq<Section>, errors: seq<Diagnostic>)
    returns (sections': seq<Section>, errors': seq<Diagnostic>)
    ensures sections' == sections + RunPass(pass, extracted).sections
    ensures errors' == errors + RunPass(pass, extracted).errors
  {
    match extracted
    case Ok(ss) =>
      errors' := AppendErrors(errors, ss);
      sections' := sections + ss;
    case Err(m) =>
      errors' := errors + [PassFailure(pass, m)];
      sections' := sections;
  }

  /** The nested-intent block of `parse`: with sections disabled, each
      nested intent is replaced by a warning, an empty simple intent and its
      children. */
  method ApplyNestedPass(enabled: bool, extracted: Result<seq<NestedIntent>, string>, sections: seq<Section>, errors: seq<Diagnostic>)
    returns (sections': seq<Section>, errors': seq<Diagnostic>)
    ensures sections' == sections + NestedPass(enabled, extracted).sections
    ensures errors' == errors + NestedPass(enabled, extracted).errors
  {
    match extracted
    case Err(m) =>
      errors' := errors + [PassFailure("nested intent section", m)];
      sections' := sections;
    case Ok(ns) =>
      var nestedSections := SectionsOf(ns);
      errors' := AppendErrors(errors, nestedSections);
      if enabled {
        sections' := sections + nestedSections;
      } else {
        var flatSections, flatErrors := FlattenNested(ns);
        sections' := sections + flatSections;
        errors' := errors' + flatErrors;
      }
  }

  /** The `forEach` over nested intents when sections are disabled. */
  method FlattenNested(ns: seq<NestedIntent>) returns (sections: seq<Section>, errors: seq<Diagnostic>)
    ensures sections == Flattened(ns).sections && errors == Flattened(ns).errors
  {
    sections, errors := [], [];
    var k := 0;
    while k < |ns|
      invariant 0 <= k <= |ns|
      invariant sections == Flattened(ns[..k]).sections
      invariant errors == Flattened(ns[..k]).errors
    {
      var section := ns[k];
      assert ns[..k + 1][..k] == ns[..k];
      errors := errors + [NoUtterancesWarning(section)];
      sections := sections + [EmptyIntent(section)];
      sections, errors := AppendChildren(sections, errors, section.section.children);
      k := k + 1;
    }
    assert ns[..k] == ns;
  }

  /** The inner `forEach` of the flattening: each child of a nested intent
      is pushed with its errors. */
  method AppendChildren(sections: seq<Section>, errors: seq<Diagnostic>, children: seq<Section>)
    returns (sections': seq<Section>, errors': seq<Diagnostic>)
    ensures sections' == sections + children
    ensures errors' == errors + ErrorsOf(children)
  {
    sections', errors' := sections, errors;
    var j := 0;
    while j < |children|
      invariant 0 <= j <= |children|
      invariant sections' == sections + children[..j]
      invariant errors' == errors + ErrorsOf(children[..j])
    {
      assert children[..j + 1][..j] == children[..j];
      TakeSnoc(children, j);
      sections' := sections' + [children[j]];
      errors' := errors' + children[j].errors;
      j := j + 1;
    }
    assert children[..j] == children;
  }

  /** `LUParser.parse`: nothing for an empty text; otherwise the passes in
      order, each isolated from the others' failures, then the bodies. */
  method Parse(text: Option<string>, fc: FileContent) returns (r: Result<LuResource, string>)
    ensures r == Parsed(text, fc)
    ensures text == None || text == Some("") ==> r == Ok(LuResource([], "", []))
  {
    if text == None || text == Some("") {
      return Ok(LuResource([], "", []));
    }
    var ps := fc.paragraphs;
    var sections: seq<Section> := [];
    var errors := fc.lexErrors;

    sections, errors := ApplyPass("model information", ExtractModelInfoSections(ps), sections, errors);
    var enabled := IsSectionEnabled(sections);
    sections, errors := ApplyNestedPass(enabled, ExtractNestedIntentSections(ps), sections, errors);
    sections, errors := ApplyPass("simple intent section", ExtractSimpleIntentSections(ps), sections, errors);
    sections, errors := ApplyPass("entities", ExtractEntitiesSections(ps), sections, errors);
    sections, errors := ApplyPass("new entities", ExtractNewEntitiesSections(ps), sections, errors);
    sections, errors := ApplyPass("import section", ExtractImportSections(ps), sections, errors);
    sections, errors := ApplyPass("qna section", ExtractQnaSections(ps), sections, errors);
    assert sections == Assembled(fc).sections by {
      assert [] + RunPass("model information", ExtractModelInfoSections(ps)).sections
        == RunPass("model information", ExtractModelInfoSections(ps)).sections;
    }
    assert errors == Assembled(fc).errors;

    var bodies := ExtractSectionBody(sections, text.value);
    if bodies.Err? {
      return Err(bodies.error);
    }
    return Ok(LuResource(bodies.value, text.value, errors));
  }

  /** For a non-empty text, `parse` fails only when `extractSectionBody`
      throws, which happens exactly when the assembled sections are not well
      spaced, and then with "index out of range."; otherwise the resource
      holds the text, every assembled section once, and the diagnostics in
      pass order. */
  lemma ParsedSucceeds(text: string, fc: FileContent)
    requires text != ""
    ensures Parsed(Some(text), fc).Ok? <==> WellSpaced(Assembled(fc).sections)
    ensures Parsed(Some(text), fc).Err? ==> Parsed(Some(text), fc).error == IndexOutOfRange
    ensures Parsed(Some(text), fc).Ok? ==>
      && Parsed(Some(text), fc).value.content == text
      && Parsed(Some(text), fc).value.errors == Assembled(fc).errors
      && |Parsed(Some(text), fc).value.sections| == |Assembled(fc).sections|
  {
    var sections := Assembled(fc).sections;
    SectionBodiesSucceeds(sections, text);
    if SectionBodies(sections, text).Ok? {
      SectionBodiesOrder(sections, text);
    }
  }

  /** Every construct of every paragraph builds without throwing. */
  ghost predicate Faultless(ps: seq<Paragraph>)
  {
    forall p | p in ps ::
      match p
      case ModelInfoParagraph(c) => c.fault.None?
      case NestedIntentParagraph(c) => c.fault.None?
      case SimpleIntentParagraph(n) =>
        && n.intent.fault.None?
        && (forall e | e in n.entities :: e.fault.None?)
        && (forall e | e in n.newEntities :: e.fault.None?)
      case ImportParagraph(c) => c.fault.None?
      case QnaParagraph(c) => c.fault.None?
      case OtherParagraph => true
  }

  /** When no section constructor throws, no pass fails: each extraction
      yields its sections. */
  lemma FaultlessPassesSucceed(ps: seq<Paragraph>)
    requires Faultless(ps)
    ensures ExtractModelInfoSections(ps).Ok? && ExtractNestedIntentSections(ps).Ok?
    ensures ExtractSimpleIntentSections(ps).Ok? && ExtractEntitiesSections(ps).Ok?
    ensures ExtractNewEntitiesSections(ps).Ok?
    ensures ExtractImportSections(ps).Ok? && ExtractQnaSections(ps).Ok?
  {
    forall c | c in ModelInfoNodes(ps) ensures c.fault.None? {
      assert ModelInfoParagraph(c) in ps;
    }
    forall c | c in NestedIntentNodes(ps) ensures c.fault.None? {
      assert NestedIntentParagraph(c) in ps;
    }
    forall c | c in ImportNodes(ps) ensures c.fault.None? {
      assert ImportParagraph(c) in ps;
    }
    forall c | c in QnaNodes(ps) ensures c.fault.None? {
      assert QnaParagraph(c) in ps;
    }
    var defined := DefinedIntents(ps);
    forall i | 0 <= i < |IntentNodes(defined)| ensures IntentNodes(defined)[i].fault.None? {
      assert defined[i] in defined;
      assert SimpleIntentParagraph(defined[i]) in ps;
    }
    var others := EntityParagraphs(ps);
    forall c | c in EntityNodes(others) ensures c.fault.None? {
      var n :| n in others && c in n.entities;
      assert SimpleIntentParagraph(n) in ps;
    }
    forall c | c in NewEntityNodes(others) ensures c.fault.None? {
      var n :| n in others && c in n.newEntities;
      assert SimpleIntentParagraph(n) in ps;
    }
    BuildAllFaultless(ModelInfoNodes(ps));
    BuildAllFaultless(NestedIntentNodes(ps));
    BuildAllFaultless(ImportNodes(ps));
    BuildAllFaultless(QnaNodes(ps));
    BuildAllFaultless(IntentNodes(defined));
    BuildAllFaultless(EntityNodes(others));
    BuildAllFaultless(NewEntityNodes(others));
  }

  lemma BuildAllFaultless<T>(cs: seq<Construct<T>>)
    requires forall c | c in cs :: c.fault.None?
    ensures BuildAll(cs).Ok?
  {
    assert forall i | 0 <= i < |cs| :: cs[i] in cs;
  }

  /** Every section a list of constructs builds has kind `k` when every
      construct does. */
  lemma BuiltKinds(cs: seq<Construct<Section>>, k: SectionKind)
    requires forall c | c in cs :: c.built.kind == k
    ensures BuildAll(cs).Ok? ==> forall s | s in BuildAll(cs).value :: s.kind == k
  {
    if BuildAll(cs).Ok? {
      forall s | s in BuildAll(cs).value ensures s.kind == k {
        var i :| 0 <= i < |BuildAll(cs).value| && BuildAll(cs).value[i] == s;
        assert cs[i] in cs;
      }
    }
  }

  /** With sections disabled, no nested-intent section reaches the
      resource. */
  lemma FlagOffNoNestedSections(text: string, fc: FileContent)
    requires Typed(fc.paragraphs)
    requires !SectionsEnabled(RunPass("model information", ExtractModelInfoSections(fc.paragraphs)).sections)
    requires text != "" && Parsed(Some(text), fc).Ok?
    ensures forall s | s in Parsed(Some(text), fc).value.sections :: s.kind != NestedIntentSection
  {
    var assembled := Assembled(fc).sections;
    forall s | s in assembled ensures s.kind != NestedIntentSection {
      AssembledKind(fc, s);
    }
    assert SectionBodies(assembled, text).Ok? && Parsed(Some(text), fc).value.sections == SectionBodies(assembled, text).value;
    BodiesKeepKinds(assembled, text);
  }

  /** `extractSectionBody` introduces no nested intent. */
  lemma BodiesKeepKinds(sections: seq<Section>, content: string)
    requires SectionBodies(sections, content).Ok?
    requires forall s | s in sections :: s.kind != NestedIntentSection
    ensures forall s | s in SectionBodies(sections, content).value :: s.kind != NestedIntentSection
  {
    var out := SectionBodies(sections, content).value;
    SectionBodiesOrder(sections, content);
    var sorted := SortByStart(sections);
    forall s | s in out ensures s.kind != NestedIntentSection {
      var k :| 0 <= k < |out| && out[k] == s;
      assert sorted[k] in multiset(sections);
    }
  }

  /** A pass that throws is reported by one diagnostic naming it, and the
      passes after it still run: the lexer's errors come first, and the
      QnA pass's failure is the last diagnostic. */
  lemma PassFailuresIsolated(fc: FileContent)
    ensures var a := Assembled(fc);
            var ps := fc.paragraphs;
            && fc.lexErrors <= a.errors
            && (ExtractModelInfoSections(ps).Err? ==> PassFailure("model information", ExtractModelInfoSections(ps).error) in a.errors)
            && (ExtractNestedIntentSections(ps).Err? ==> PassFailure("nested intent section", ExtractNestedIntentSections(ps).error) in a.errors)
            && (ExtractSimpleIntentSections(ps).Err? ==> PassFailure("simple intent section", ExtractSimpleIntentSections(ps).error) in a.errors)
            && (ExtractEntitiesSections(ps).Err? ==> PassFailure("entities", ExtractEntitiesSections(ps).error) in a.errors)
            && (ExtractNewEntitiesSections(ps).Err? ==> PassFailure("new entities", ExtractNewEntitiesSections(ps).error) in a.errors)
            && (ExtractImportSections(ps).Err? ==> PassFailure("import section", ExtractImportSections(ps).error) in a.errors)
            && (ExtractQnaSections(ps).Err? ==> a.errors[|a.errors| - 1] == PassFailure("qna section", ExtractQnaSections(ps).error))
  {
    var ps := fc.paragraphs;
    var modelInfo := RunPass("model information", ExtractModelInfoSections(ps));
    var nested := NestedPass(SectionsEnabled(modelInfo.sections), ExtractNestedIntentSections(ps));
    var simple := RunPass("simple intent section", ExtractSimpleIntentSections(ps));
    var entities := RunPass("entities", ExtractEntitiesSections(ps));
    var newEntities := RunPass("new entities", ExtractNewEntitiesSections(ps));
    var imports := RunPass("import section", ExtractImportSections(ps));
    var qnas := RunPass("qna section", ExtractQnaSections(ps));
    var front := fc.lexErrors + modelInfo.errors + nested.errors + simple.errors + entities.errors
                 + newEntities.errors + imports.errors;
    assert Assembled(fc).errors == front + qnas.errors;
  }

  /** Whatever the earlier passes did, the QnA pass's sections close the
      assembled list. */
  lemma QnaSectionsLast(fc: FileContent)
    requires ExtractQnaSections(fc.paragraphs).Ok?
    ensures var qs := ExtractQnaSections(fc.paragraphs).value;
            var a := Assembled(fc).sections;
            |qs| <= |a| && a[|a| - |qs|..] == qs
  {
    var ps := fc.paragraphs;
    var modelInfo := RunPass("model information", ExtractModelInfoSections(ps));
    var nested := NestedPass(SectionsEnabled(modelInfo.sections), ExtractNestedIntentSections(ps));
    var simple := RunPass("simple intent section", ExtractSimpleIntentSections(ps));
    var entities := RunPass("entities", ExtractEntitiesSections(ps));
    var newEntities := RunPass("new entities", ExtractNewEntitiesSections(ps));
    var imports := RunPass("import section", ExtractImportSections(ps));
    var head := modelInfo.sections + nested.sections + simple.sections + entities.sections
                + newEntities.sections + imports.sections;
    assert Assembled(fc).sections == head + ExtractQnaSections(ps).value;
  }

  /** The assembled sections are the seven passes' sections in pass order. */
  lemma AssembledSections(fc: FileContent)
    ensures var ps := fc.paragraphs;
            var modelInfo := RunPass("model information", ExtractModelInfoSections(ps)).sections;
            Assembled(fc).sections
              == modelInfo + NestedPass(SectionsEnabled(modelInfo), ExtractNestedIntentSections(ps)).sections
                 + RunPass("simple intent section", ExtractSimpleIntentSections(ps)).sections
                 + RunPass("entities", ExtractEntitiesSections(ps)).sections
                 + RunPass("new entities", ExtractNewEntitiesSections(ps)).sections
                 + RunPass("import section", ExtractImportSections(ps)).sections
                 + RunPass("qna section", ExtractQnaSections(ps)).sections
  {
  }

  /** The names the seven passes report a failure under, in pass order. */
  const PassNames: seq<string> := ["model information", "nested intent section", "simple intent section",
                                   "entities", "new entities", "import section", "qna section"]

  /** The message an extraction throws, if it throws. */
  function ErrorOf<T>(r: Result<T, string>): Option<string>
  {
    if r.Err? then Some(r.error) else None
  }

  /** The message the extraction of the `j`th pass throws, if it throws. */
  function PassError(ps: seq<Paragraph>, j: nat): Option<string>
    requires j < 7
  {
    if j == 0 then ErrorOf(ExtractModelInfoSections(ps))
    else if j == 1 then ErrorOf(ExtractNestedIntentSections(ps))
    else if j == 2 then ErrorOf(ExtractSimpleIntentSections(ps))
    else if j == 3 then ErrorOf(ExtractEntitiesSections(ps))
    else if j == 4 then ErrorOf(ExtractNewEntitiesSections(ps))
    else if j == 5 then ErrorOf(ExtractImportSections(ps))
    else ErrorOf(ExtractQnaSections(ps))
  }

  /** The outcome of the `j`th `try` block of `parse`: each pass sees only
      its own extraction, and the nested pass also the model-info
      sections. */
  function PassAt(fc: FileContent, j: nat): PassOutcome
    requires j < 7
  {
    var ps := fc.paragraphs;
    if j == 0 then RunPass("model information", ExtractModelInfoSections(ps))
    else if j == 1 then NestedPass(SectionsEnabled(RunPass("model information", ExtractModelInfoSections(ps)).sections),
                                   ExtractNestedIntentSections(ps))
    else if j == 2 then RunPass("simple intent section", ExtractSimpleIntentSections(ps))
    else if j == 3 then RunPass("entities", ExtractEntitiesSections(ps))
    else if j == 4 then RunPass("new entities", ExtractNewEntitiesSections(ps))
    else if j == 5 then RunPass("import section", ExtractImportSections(ps))
    else RunPass("qna section", ExtractQnaSections(ps))
  }

  /** The seven pass outcomes, in pass order. */
  function Passes(fc: FileContent): (r: seq<PassOutcome>)
    ensures |r| == 7 && forall j | 0 <= j < 7 :: r[j] == PassAt(fc, j)
  {
    seq(7, j requires 0 <= j < 7 => PassAt(fc, j))
  }

  /** The sections of several passes, one pass after the other. */
  function PassesSections(os: seq<PassOutcome>): seq<Section>
  {
    if |os| == 0 then [] else os[0].sections + PassesSections(os[1..])
  }

  /** The diagnostics of several passes, one pass after the other. */
  function PassesErrors(os: seq<PassOutcome>): seq<Diagnostic>
  {
    if |os| == 0 then [] else os[0].errors + PassesErrors(os[1..])
  }

  lemma {:induction false} PassesAppend(a: seq<PassOutcome>, b: seq<PassOutcome>)
    ensures PassesSections(a + b) == PassesSections(a) + PassesSections(b)
    ensures PassesErrors(a + b) == PassesErrors(a) + PassesErrors(b)
  {
    if |a| > 0 {
      assert (a + b)[1..] == a[1..] + b;
      PassesAppend(a[1..], b);
    } else {
      assert a + b == b;
    }
  }

  lemma PassesOfSeven(a: PassOutcome, b: PassOutcome, c: PassOutcome, d: PassOutcome, e: PassOutcome,
                      f: PassOutcome, g: PassOutcome)
    ensures PassesSections([a, b, c, d, e, f, g])
            == a.sections + b.sections + c.sections + d.sections + e.sections + f.sections + g.sections
    ensures PassesErrors([a, b, c, d, e, f, g])
            == a.errors + b.errors + c.errors + d.errors + e.errors + f.errors + g.errors
  {
    PassesCons(g, []);
    PassesCons(f, [g]);
    PassesCons(e, [f, g]);
    PassesCons(d, [e, f, g]);
    PassesCons(c, [d, e, f, g]);
    PassesCons(b, [c, d, e, f, g]);
    PassesCons(a, [b, c, d, e, f, g]);
    assert [a] + [b, c, d, e, f, g] == [a, b, c, d, e, f, g];
  }

  lemma PassesCons(o: PassOutcome, rest: seq<PassOutcome>)
    ensures PassesSections([o] + rest) == o.sections + PassesSections(rest)
    ensures PassesErrors([o] + rest) == o.errors + PassesErrors(rest)
  {
    assert ([o] + rest)[1..] == rest;
  }

  /** `parse` concatenates the seven passes' sections, and the lexer's
      diagnostics followed by the seven passes' diagnostics. */
  lemma AssembledByPasses(fc: FileContent)
    ensures Assembled(fc).sections == PassesSections(Passes(fc))
    ensures Assembled(fc).errors == fc.lexErrors + PassesErrors(Passes(fc))
  {
    var o0, o1, o2, o3, o4, o5, o6 := PassAt(fc, 0), PassAt(fc, 1), PassAt(fc, 2), PassAt(fc, 3), PassAt(fc, 4), PassAt(fc, 5), PassAt(fc, 6);
    PassAtEach(fc);
    assert Passes(fc) == [o0, o1, o2, o3, o4, o5, o6];
    AssembledSections(fc);
    AssembledErrors(fc);
    PassesOfSeven(o0, o1, o2, o3, o4, o5, o6);
    PrependToSeven(fc.lexErrors, o0.errors, o1.errors, o2.errors, o3.errors, o4.errors, o5.errors, o6.errors);
  }

  lemma PrependToSeven<T>(x: seq<T>, a: seq<T>, b: seq<T>, c: seq<T>, d: seq<T>, e: seq<T>, f: seq<T>, g: seq<T>)
    ensures x + (a + b + c + d + e + f + g) == x + a + b + c + d + e + f + g
  {
  }

  /** The passes in pass order are the seven `try` blocks of `parse`. */
  lemma PassAtEach(fc: FileContent)
    ensures var ps := fc.paragraphs;
      && PassAt(fc, 0) == RunPass("model information", ExtractModelInfoSections(ps))
      && PassAt(fc, 1) == NestedPass(SectionsEnabled(PassAt(fc, 0).sections), ExtractNestedIntentSections(ps))
      && PassAt(fc, 2) == RunPass("simple intent section", ExtractSimpleIntentSections(ps))
      && PassAt(fc, 3) == RunPass("entities", ExtractEntitiesSections(ps))
      && PassAt(fc, 4) == RunPass("new entities", ExtractNewEntitiesSections(ps))
      && PassAt(fc, 5) == RunPass("import section", ExtractImportSections(ps))
      && PassAt(fc, 6) == RunPass("qna section", ExtractQnaSections(ps))
  {
  }

  /** The assembled diagnostics are the lexer's, then the seven passes' in
      pass order. */
  lemma AssembledErrors(fc: FileContent)
    ensures var ps := fc.paragraphs;
            var modelInfo := RunPass("model information", ExtractModelInfoSections(ps));
            Assembled(fc).errors
              == fc.lexErrors + modelInfo.errors + NestedPass(SectionsEnabled(modelInfo.sections), ExtractNestedIntentSections(ps)).errors
                 + RunPass("simple intent section", ExtractSimpleIntentSections(ps)).errors
                 + RunPass("entities", ExtractEntitiesSections(ps)).errors
                 + RunPass("new entities", ExtractNewEntitiesSections(ps)).errors
                 + RunPass("import section", ExtractImportSections(ps)).errors
                 + RunPass("qna section", ExtractQnaSections(ps)).errors
  {
  }

  /** A pass whose extraction throws adds no section and exactly one
      diagnostic, naming the pass and carrying the message. */
  lemma FailingPass(fc: FileContent, j: nat)
    requires j < 7 && PassError(fc.paragraphs, j).Some?
    ensures PassAt(fc, j) == PassOutcome([], [PassFailure(PassNames[j], PassError(fc.paragraphs, j).value)])
  {
  }

  /** Each `try` block is isolated: when the `j`th pass throws, the
      diagnostics are the lexer's, those of the passes before it, its one
      failure diagnostic, then those of the passes after it, and the
      sections are those of the other passes in order. */
  lemma PassFailureInPlace(fc: FileContent, j: nat)
    requires j < 7 && PassError(fc.paragraphs, j).Some?
    ensures var os := Passes(fc);
            var failure := PassFailure(PassNames[j], PassError(fc.paragraphs, j).value);
            && Assembled(fc).errors == fc.lexErrors + PassesErrors(os[..j]) + [failure] + PassesErrors(os[j + 1..])
            && Assembled(fc).sections == PassesSections(os[..j]) + PassesSections(os[j + 1..])
  {
    AssembledByPasses(fc);
    FailingPass(fc, j);
    SpliceFailure(fc.lexErrors, Passes(fc), j, PassFailure(PassNames[j], PassError(fc.paragraphs, j).value),
                  Assembled(fc).errors, Assembled(fc).sections);
  }

  /** Around a pass that adds no section and one diagnostic, the
      concatenated outcomes are those of the passes before and after it. */
  lemma SpliceFailure(lex: seq<Diagnostic>, os: seq<PassOutcome>, j: nat, failure: Diagnostic,
                      errors: seq<Diagnostic>, sections: seq<Section>)
    requires j < |os| && os[j] == PassOutcome([], [failure])
    requires errors == lex + PassesErrors(os) && sections == PassesSections(os)
    ensures errors == lex + PassesErrors(os[..j]) + [failure] + PassesErrors(os[j + 1..])
    ensures sections == PassesSections(os[..j]) + PassesSections(os[j + 1..])
  {
    PassesAround(os, j);
    PrependToThree(lex, PassesErrors(os[..j]), [failure], PassesErrors(os[j + 1..]));
    EmptyInMiddle(PassesSections(os[..j]), PassesSections(os[j + 1..]));
  }

  lemma PrependToThree<T>(x: seq<T>, a: seq<T>, b: seq<T>, c: seq<T>)
    ensures x + (a + b + c) == x + a + b + c
  {
  }

  lemma EmptyInMiddle<T>(a: seq<T>, b: seq<T>)
    ensures a + [] + b == a + b
  {
    assert a + [] == a;
  }

  /** The passes before `j`, pass `j`, and the passes after it. */
  lemma PassesAround(os: seq<PassOutcome>, j: nat)
    requires j < |os|
    ensures PassesSections(os) == PassesSections(os[..j]) + os[j].sections + PassesSections(os[j + 1..])
    ensures PassesErrors(os) == PassesErrors(os[..j]) + os[j].errors + PassesErrors(os[j + 1..])
  {
    SectionsAround(os, j);
    ErrorsAround(os, j);
  }

  lemma {:induction false} SectionsAround(os: seq<PassOutcome>, j: nat)
    requires j < |os|
    ensures PassesSections(os) == PassesSections(os[..j]) + os[j].sections + PassesSections(os[j + 1..])
    decreases j
  {
    if j > 0 {
      var tail := os[1..];
      SectionsAround(tail, j - 1);
      assert os[..j][1..] == tail[..j - 1];
      assert tail[j..] == os[j + 1..];
    }
  }

  lemma {:induction false} ErrorsAround(os: seq<PassOutcome>, j: nat)
    requires j < |os|
    ensures PassesErrors(os) == PassesErrors(os[..j]) + os[j].errors + PassesErrors(os[j + 1..])
    decreases j
  {
    if j > 0 {
      var tail := os[1..];
      ErrorsAround(tail, j - 1);
      assert os[..j][1..] == tail[..j - 1];
      assert tail[j..] == os[j + 1..];
    }
  }

  /** Whether the `j`th extraction gives the same result for two paragraph
      lists. */
  predicate SameExtraction(ps: seq<Paragraph>, ps': seq<Paragraph>, j: nat)
    requires j < 7
  {
    if j == 0 then ExtractModelInfoSections(ps) == ExtractModelInfoSections(ps')
    else if j == 1 then ExtractNestedIntentSections(ps) == ExtractNestedIntentSections(ps')
    else if j == 2 then ExtractSimpleIntentSections(ps) == ExtractSimpleIntentSections(ps')
    else if j == 3 then ExtractEntitiesSections(ps) == ExtractEntitiesSections(ps')
    else if j == 4 then ExtractNewEntitiesSections(ps) == ExtractNewEntitiesSections(ps')
    else if j == 5 then ExtractImportSections(ps) == ExtractImportSections(ps')
    else ExtractQnaSections(ps) == ExtractQnaSections(ps')
  }

  /** A pass's outcome depends on its own extraction alone (the nested pass
      also on the model-info extraction), so what another pass does,
      throwing included, does not change it. */
  lemma PassIndependent(fc: FileContent, fc': FileContent, j: nat)
    requires j < 7 && SameExtraction(fc.paragraphs, fc'.paragraphs, j)
    requires j == 1 ==> SameExtraction(fc.paragraphs, fc'.paragraphs, 0)
    ensures PassAt(fc, j) == PassAt(fc', j)
  {
  }

  /** With sections enabled, the nested intents are kept as they are, right
      after the model-info sections, and no warning is added for them. */
  lemma FlagOnKeepsNested(fc: FileContent)
    requires SectionsEnabled(RunPass("model information", ExtractModelInfoSections(fc.paragraphs)).sections)
    requires ExtractNestedIntentSections(fc.paragraphs).Ok?
    ensures var ns := ExtractNestedIntentSections(fc.paragraphs).value;
            var m := |RunPass("model information", ExtractModelInfoSections(fc.paragraphs)).sections|;
            OccursAt(Assembled(fc).sections, m, SectionsOf(ns))
    ensures var ns := ExtractNestedIntentSections(fc.paragraphs).value;
            NestedPass(true, Ok(ns)).errors == ErrorsOf(SectionsOf(ns))
  {
    NestedSlice(fc);
  }

  /** Whatever the flag, the nested pass's sections sit right after the
      model-info sections. */
  lemma NestedSlice(fc: FileContent)
    ensures var ps := fc.paragraphs;
            var m := RunPass("model information", ExtractModelInfoSections(ps)).sections;
            var n := NestedPass(SectionsEnabled(m), ExtractNestedIntentSections(ps)).sections;
            OccursAt(Assembled(fc).sections, |m|, n)
  {
    var ps := fc.paragraphs;
    var m := RunPass("model information", ExtractModelInfoSections(ps)).sections;
    AssembledSections(fc);
    SecondOfSeven(Assembled(fc).sections, m, NestedPass(SectionsEnabled(m), ExtractNestedIntentSections(ps)).sections,
      RunPass("simple intent section", ExtractSimpleIntentSections(ps)).sections,
      RunPass("entities", ExtractEntitiesSections(ps)).sections, RunPass("new entities", ExtractNewEntitiesSections(ps)).sections,
      RunPass("import section", ExtractImportSections(ps)).sections, RunPass("qna section", ExtractQnaSections(ps)).sections);
  }

  /** With sections disabled, each nested intent is replaced by an empty
      simple intent of its name and header span, and gets one warning
      naming it. */
  lemma FlagOffStandIns(fc: FileContent)
    requires !SectionsEnabled(RunPass("model information", ExtractModelInfoSections(fc.paragraphs)).sections)
    requires ExtractNestedIntentSections(fc.paragraphs).Ok?
    ensures var ns := ExtractNestedIntentSections(fc.paragraphs).value;
      && (forall i | 0 <= i < |ns| :: EmptyIntent(ns[i]) in Assembled(fc).sections)
      && (forall i | 0 <= i < |ns| :: NoUtterancesWarning(ns[i]) in Assembled(fc).errors)
  {
    var ps := fc.paragraphs;
    var ns := ExtractNestedIntentSections(ps).value;
    var modelInfo := RunPass("model information", ExtractModelInfoSections(ps));
    var nested := NestedPass(false, ExtractNestedIntentSections(ps));
    var simple := RunPass("simple intent section", ExtractSimpleIntentSections(ps));
    var entities := RunPass("entities", ExtractEntitiesSections(ps));
    var newEntities := RunPass("new entities", ExtractNewEntitiesSections(ps));
    var imports := RunPass("import section", ExtractImportSections(ps));
    var qnas := RunPass("qna section", ExtractQnaSections(ps));
    assert Assembled(fc).sections == modelInfo.sections + nested.sections + simple.sections + entities.sections
      + newEntities.sections + imports.sections + qnas.sections;
    assert Assembled(fc).errors == fc.lexErrors + modelInfo.errors + nested.errors + simple.errors + entities.errors
      + newEntities.errors + imports.errors + qnas.errors;
    FlattenedMembers(ns);
  }

  /** Each nested intent's stand-in and warning are in its flattening. */
  lemma {:induction false} FlattenedMembers(ns: seq<NestedIntent>)
    ensures forall i | 0 <= i < |ns| :: EmptyIntent(ns[i]) in Flattened(ns).sections
    ensures forall i | 0 <= i < |ns| :: NoUtterancesWarning(ns[i]) in Flattened(ns).errors
  {
    if |ns| > 0 {
      var init := ns[..|ns| - 1];
      FlattenedMembers(init);
      forall i | 0 <= i < |ns|
        ensures EmptyIntent(ns[i]) in Flattened(ns).sections
        ensures NoUtterancesWarning(ns[i]) in Flattened(ns).errors
      {
        if i < |ns| - 1 {
          assert ns[i] == init[i];
        }
      }
    }
  }

  /** The children of every built nested intent are simple intents. */
  lemma NestedChildrenSimple(ps: seq<Paragraph>)
    requires Typed(ps) && ExtractNestedIntentSections(ps).Ok?
    ensures forall n, c | n in ExtractNestedIntentSections(ps).value && c in n.section.children :: c.kind == SimpleIntentSection
  {
    var cs := NestedIntentNodes(ps);
    var ns := ExtractNestedIntentSections(ps).value;
    forall n, c | n in ns && c in n.section.children ensures c.kind == SimpleIntentSection {
      var i :| 0 <= i < |ns| && ns[i] == n;
      assert cs[i] in cs;
      assert NestedIntentParagraph(cs[i]) in ps;
    }
  }

  /** Every section a pass builds has that pass's kind. */
  lemma ModelInfoKinds(ps: seq<Paragraph>)
    requires Typed(ps)
    ensures ExtractModelInfoSections(ps).Ok? ==> forall s | s in ExtractModelInfoSections(ps).value :: s.kind == ModelInfoSection
  {
    forall c | c in ModelInfoNodes(ps) ensures c.built.kind == ModelInfoSection {
      assert ModelInfoParagraph(c) in ps;
    }
    BuiltKinds(ModelInfoNodes(ps), ModelInfoSection);
  }

  lemma ImportKinds(ps: seq<Paragraph>)
    requires Typed(ps)
    ensures ExtractImportSections(ps).Ok? ==> forall s | s in ExtractImportSections(ps).value :: s.kind == ImportSection
  {
    forall c | c in ImportNodes(ps) ensures c.built.kind == ImportSection {
      assert ImportParagraph(c) in ps;
    }
    BuiltKinds(ImportNodes(ps), ImportSection);
  }

  lemma QnaKinds(ps: seq<Paragraph>)
    requires Typed(ps)
    ensures ExtractQnaSections(ps).Ok? ==> forall s | s in ExtractQnaSections(ps).value :: s.kind == QnaSection
  {
    forall c | c in QnaNodes(ps) ensures c.built.kind == QnaSection {
      assert QnaParagraph(c) in ps;
    }
    BuiltKinds(QnaNodes(ps), QnaSection);
  }

  lemma SimpleIntentKinds(ps: seq<Paragraph>)
    requires Typed(ps)
    ensures ExtractSimpleIntentSections(ps).Ok? ==> forall s | s in ExtractSimpleIntentSections(ps).value :: s.kind == SimpleIntentSection
  {
    var defined := DefinedIntents(ps);
    forall c | c in IntentNodes(defined) ensures c.built.kind == SimpleIntentSection {
      var i :| 0 <= i < |IntentNodes(defined)| && IntentNodes(defined)[i] == c;
      assert defined[i] in defined;
      assert SimpleIntentParagraph(defined[i]) in ps;
    }
    BuiltKinds(IntentNodes(defined), SimpleIntentSection);
  }

  lemma EntityKinds(ps: seq<Paragraph>)
    requires Typed(ps)
    ensures ExtractEntitiesSections(ps).Ok? ==> forall s | s in ExtractEntitiesSections(ps).value :: s.kind == EntitySection
    ensures ExtractNewEntitiesSections(ps).Ok? ==> forall s | s in ExtractNewEntitiesSections(ps).value :: s.kind == NewEntitySection
  {
    PlainEntityKinds(ps);
    NewEntityKinds(ps);
  }

  lemma PlainEntityKinds(ps: seq<Paragraph>)
    requires Typed(ps)
    ensures ExtractEntitiesSections(ps).Ok? ==> forall s | s in ExtractEntitiesSections(ps).value :: s.kind == EntitySection
  {
    var others := EntityParagraphs(ps);
    forall c | c in EntityNodes(others) ensures c.built.kind == EntitySection {
      var n :| n in others && c in n.entities;
      assert SimpleIntentParagraph(n) in ps;
    }
    BuiltKinds(EntityNodes(others), EntitySection);
  }

  lemma NewEntityKinds(ps: seq<Paragraph>)
    requires Typed(ps)
    ensures ExtractNewEntitiesSections(ps).Ok? ==> forall s | s in ExtractNewEntitiesSections(ps).value :: s.kind == NewEntitySection
  {
    var others := EntityParagraphs(ps);
    forall c | c in NewEntityNodes(others) ensures c.built.kind == NewEntitySection {
      var n :| n in others && c in n.newEntities;
      assert SimpleIntentParagraph(n) in ps;
    }
    BuiltKinds(NewEntityNodes(others), NewEntitySection);
  }

  /** With sections disabled, no assembled section is a nested intent. */
  lemma AssembledKind(fc: FileContent, s: Section)
    requires Typed(fc.paragraphs)
    requires !SectionsEnabled(RunPass("model information", ExtractModelInfoSections(fc.paragraphs)).sections)
    requires s in Assembled(fc).sections
    ensures s.kind != NestedIntentSection
  {
    var ps := fc.paragraphs;
    var modelInfo := RunPass("model information", ExtractModelInfoSections(ps));
    var nested := NestedPass(false, ExtractNestedIntentSections(ps));
    var simple := RunPass("simple intent section", ExtractSimpleIntentSections(ps));
    var entities := RunPass("entities", ExtractEntitiesSections(ps));
    var newEntities := RunPass("new entities", ExtractNewEntitiesSections(ps));
    var imports := RunPass("import section", ExtractImportSections(ps));
    var qnas := RunPass("qna section", ExtractQnaSections(ps));
    assert s in modelInfo.sections || s in nested.sections || s in simple.sections || s in entities.sections
        || s in newEntities.sections || s in imports.sections || s in qnas.sections by {
      assert Assembled(fc).sections == modelInfo.sections + nested.sections + simple.sections + entities.sections
        + newEntities.sections + imports.sections + qnas.sections;
    }
    if s in modelInfo.sections {
      ModelInfoKinds(ps);
    } else if s in nested.sections {
      NestedChildrenSimple(ps);
      FlattenedShape(ExtractNestedIntentSections(ps).value);
    } else if s in simple.sections {
      SimpleIntentKinds(ps);
    } else if s in entities.sections || s in newEntities.sections {
      EntityKinds(ps);
    } else if s in imports.sections {
      ImportKinds(ps);
    } else {
      QnaKinds(ps);
    }
  }
}
