/** The values the LU section parser works on: diagnostics, the typed
    sections, the parsed resource, and the paragraph tree the grammar engine
    hands over. */
module LuSections {
  import opened Wrappers

  datatype Severity = Error | Warn

  /** The first and last line of a parse-tree node, as the grammar engine
      numbers them (from 1). */
  datatype LineSpan = LineSpan(start: int, stop: int)

  /** `BuildDiagnostic`: severity (ERROR unless stated), message, and the
      parse-tree node it points at, if any. */
  datatype Diagnostic = Diagnostic(severity: Severity, message: string, context: Option<LineSpan>)

  /** The `SectionType` tags of the section classes. */
  datatype SectionKind =
    | ModelInfoSection
    | NestedIntentSection
    | SimpleIntentSection
    | EntitySection
    | NewEntitySection
    | ImportSection
    | QnaSection

  /** A section object. `tree` is its `ParseTree` span; `modelInfo` is the
      directive line of a model-info section; `children` are the
      `SimpleIntentSections` of a nested intent. `body`, `startLine`,
      `stopLine` and `id` are the fields `extractSectionBody` assigns. */
  datatype Section = Section(
    kind: SectionKind,
    name: string,
    tree: LineSpan,
    errors: seq<Diagnostic>,
    modelInfo: string,
    children: seq<Section>,
    body: string,
    startLine: int,
    stopLine: int,
    id: int)

  /** The kinds whose body spans every line up to the next section. */
  predicate IsBlock(k: SectionKind)
  {
    k == SimpleIntentSection || k == NestedIntentSection || k == QnaSection
  }

  /** `new LUResource(sections, content, errors)`. */
  datatype LuResource = LuResource(sections: seq<Section>, content: string, errors: seq<Diagnostic>)

  /** A grammar node together with what its section constructor does with
      it: it builds `built`, or, when `fault` is present, throws an error
      with that message. */
  datatype Construct<T> = Construct(built: T, fault: Option<string>)

  /** A nested-intent section and the span of its `# name` header line
      (`nestedIntentNameLine()`). */
  datatype NestedIntent = NestedIntent(section: Section, nameLine: LineSpan)

  /** The `simpleIntentSection()` node of a paragraph: whether it has an
      `intentDefinition()`, the intent section built from it, and its
      `entitySection()` and `newEntitySection()` nodes. */
  datatype IntentParagraph = IntentParagraph(
    hasIntentDefinition: bool,
    intent: Construct<Section>,
    entities: seq<Construct<Section>>,
    newEntities: seq<Construct<Section>>)

  /** A top-level `paragraph()` of the parse tree: one grammar alternative. */
  datatype Paragraph =
    | ModelInfoParagraph(modelInfo: Construct<Section>)
    | NestedIntentParagraph(nested: Construct<NestedIntent>)
    | SimpleIntentParagraph(simple: IntentParagraph)
    | ImportParagraph(importSection: Construct<Section>)
    | QnaParagraph(qna: Construct<Section>)
    | OtherParagraph

  /** What `getFileContent` returns: the paragraphs and the errors the
      lexer and parser listener collected. */
  datatype FileContent = FileContent(paragraphs: seq<Paragraph>, lexErrors: seq<Diagnostic>)

  /** The section constructors build sections of their own kind, and the
      children of a nested intent are simple intents without children. The
      parser does not rely on this; some lemmas about it do. */
  ghost predicate Typed(ps: seq<Paragraph>)
  {
    forall p | p in ps ::
      match p
      case ModelInfoParagraph(c) => c.built.kind == ModelInfoSection
      case NestedIntentParagraph(c) =>
        && c.built.section.kind == NestedIntentSection
        && forall ch | ch in c.built.section.children :: ch.kind == SimpleIntentSection
      case SimpleIntentParagraph(n) =>
        && n.intent.built.kind == SimpleIntentSection
        && (forall e | e in n.entities :: e.built.kind == EntitySection)
        && (forall e | e in n.newEntities :: e.built.kind == NewEntitySection)
      case ImportParagraph(c) => c.built.kind == ImportSection
      case QnaParagraph(c) => c.built.kind == QnaSection
      case OtherParagraph => true
  }
}
