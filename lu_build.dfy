/** The record and collection updates of the LUIS build driver: loading
    sources and rejecting duplicate contents, filling in an application's
    defaults and dropping its empty intents, and recording the built
    application in the settings and recognizer assets. */
module LuBuild {
  import opened Wrappers
  import opened Text
  import opened BuildAssets

  datatype Intent = Intent(name: string)
  datatype Utterance = Utterance(text: string, intent: string)
  datatype Pattern = Pattern(pattern: string, intent: string)

  /** An intent that no utterance and no pattern is labelled with. */
  predicate IsEmptyIntent(i: Intent, utterances: seq<Utterance>, patterns: seq<Pattern>)
  {
    && !(exists u | u in utterances :: u.intent == i.name)
    && !(exists p | p in patterns :: p.intent == i.name)
  }

  /** The empty intents, in order. */
  function EmptyIntents(intents: seq<Intent>, utterances: seq<Utterance>, patterns: seq<Pattern>): (r: seq<Intent>)
    ensures forall i :: i in r <==> i in intents && IsEmptyIntent(i, utterances, patterns)
    decreases |intents|
  {
    if intents == [] then []
    else
      var init := intents[..|intents| - 1];
      var last := intents[|intents| - 1];
      assert forall i :: i in intents <==> i in init || i == last;
      EmptyIntents(init, utterances, patterns) + (if IsEmptyIntent(last, utterances, patterns) then [last] else [])
  }

  /** The intents that some utterance or pattern is labelled with, in order. */
  function LabelledIntents(intents: seq<Intent>, utterances: seq<Utterance>, patterns: seq<Pattern>): (r: seq<Intent>)
    ensures forall i :: i in r <==> i in intents && !IsEmptyIntent(i, utterances, patterns)
    ensures |r| + |EmptyIntents(intents, utterances, patterns)| == |intents|
    decreases |intents|
  {
    if intents == [] then []
    else
      var init := intents[..|intents| - 1];
      var last := intents[|intents| - 1];
      assert forall i :: i in intents <==> i in init || i == last;
      LabelledIntents(init, utterances, patterns) + (if IsEmptyIntent(last, utterances, patterns) then [] else [last])
  }

  /** Filtering a concatenation filters each part: the kept intents stay in
      their original order. */
  lemma {:induction false} LabelledIntentsAppend(a: seq<Intent>, b: seq<Intent>, utterances: seq<Utterance>, patterns: seq<Pattern>)
    ensures LabelledIntents(a + b, utterances, patterns)
            == LabelledIntents(a, utterances, patterns) + LabelledIntents(b, utterances, patterns)
    decreases |b|
  {
    if b != [] {
      var b' := b[..|b| - 1];
      assert (a + b)[..|a + b| - 1] == a + b';
      LabelledIntentsAppend(a, b', utterances, patterns);
    } else {
      assert a + b == a;
    }
  }

  lemma {:induction false} EmptyIntentsAppend(a: seq<Intent>, b: seq<Intent>, utterances: seq<Utterance>, patterns: seq<Pattern>)
    ensures EmptyIntents(a + b, utterances, patterns)
            == EmptyIntents(a, utterances, patterns) + EmptyIntents(b, utterances, patterns)
    decreases |b|
  {
    if b != [] {
      var b' := b[..|b| - 1];
      assert (a + b)[..|a + b| - 1] == a + b';
      EmptyIntentsAppend(a, b', utterances, patterns);
    } else {
      assert a + b == a;
    }
  }

  /** With no empty intent, the intents are kept as they are. */
  lemma {:induction false} NoEmptyIntentKeepsAll(intents: seq<Intent>, utterances: seq<Utterance>, patterns: seq<Pattern>)
    requires EmptyIntents(intents, utterances, patterns) == []
    ensures LabelledIntents(intents, utterances, patterns) == intents
    decreases |intents|
  {
    if intents != [] {
      var init := intents[..|intents| - 1];
      EmptyIntentsAppend(init, [intents[|intents| - 1]], utterances, patterns);
      assert init + [intents[|intents| - 1]] == intents;
      NoEmptyIntentKeepsAll(init, utterances, patterns);
    }
  }

  /** Filtering twice removes nothing more. */
  lemma {:induction false} LabelledIntentsIdempotent(intents: seq<Intent>, utterances: seq<Utterance>, patterns: seq<Pattern>)
    ensures LabelledIntents(LabelledIntents(intents, utterances, patterns), utterances, patterns)
            == LabelledIntents(intents, utterances, patterns)
    decreases |intents|
  {
    if intents != [] {
      var init := intents[..|intents| - 1];
      var last := intents[|intents| - 1];
      LabelledIntentsIdempotent(init, utterances, patterns);
      LabelledIntentsAppend(LabelledIntents(init, utterances, patterns),
                            if IsEmptyIntent(last, utterances, patterns) then [] else [last], utterances, patterns);
    }
  }

  /** The handler message naming the filtered intents. */
  function EmptyIntentsWarning(empty: seq<Intent>): string
  {
    var headers := seq(|empty|, k requires 0 <= k < |empty| => "# " + empty[k].name);
    "[WARN]: empty intent(s) " + Join(headers, ", ") + " are filtered when handling luis application"
  }

  /** The message `filterEmptyIntents` hands to the handler, if any. */
  function FilterWarning(intents: seq<Intent>, utterances: seq<Utterance>, patterns: seq<Pattern>): Option<string>
  {
    var empty := EmptyIntents(intents, utterances, patterns);
    if empty == [] then None else Some(EmptyIntentsWarning(empty))
  }

  predicate NamedIn(i: Intent, intents: seq<Intent>)
  {
    exists e | e in intents :: e.name == i.name
  }

  lemma LabelledSingle(i: Intent, utterances: seq<Utterance>, patterns: seq<Pattern>)
    ensures LabelledIntents([i], utterances, patterns) == if IsEmptyIntent(i, utterances, patterns) then [] else [i]
  {
    assert [i][..0] == [];
  }

  lemma DropStep(prefix: seq<Intent>, i: Intent, empty: seq<Intent>, intents: seq<Intent>,
                 utterances: seq<Utterance>, patterns: seq<Pattern>)
    requires empty == EmptyIntents(intents, utterances, patterns)
    requires i in intents
    ensures LabelledIntents(prefix + [i], utterances, patterns)
            == LabelledIntents(prefix, utterances, patterns) + (if NamedIn(i, empty) then [] else [i])
  {
    SharesEmptyName(i, empty, intents, utterances, patterns);
    LabelledIntentsAppend(prefix, [i], utterances, patterns);
    LabelledSingle(i, utterances, patterns);
  }

  /** An intent whose name an empty intent has is empty itself: emptiness
      depends on the name alone. */
  lemma SharesEmptyName(i: Intent, empty: seq<Intent>, intents: seq<Intent>, utterances: seq<Utterance>, patterns: seq<Pattern>)
    requires empty == EmptyIntents(intents, utterances, patterns)
    requires i in intents
    ensures NamedIn(i, empty) <==> IsEmptyIntent(i, utterances, patterns)
  {
    if IsEmptyIntent(i, utterances, patterns) {
      assert i in empty;
    }
  }

  /** The culture an application keeps: its own unless that is empty or
      `en-us`, in which case the content's language. */
  function DefaultCulture(culture: string, language: string): (r: string)
    ensures r == culture || r == language
    ensures culture != "" && culture != "en-us" ==> r == culture
    ensures culture == "" || culture == "en-us" ==> r == language
    ensures r == "" ==> language == ""
  {
    if culture != "" && culture != "en-us" then culture else language
  }

  /** The description an application keeps: its own, or else
      `Model for <bot> app, targetting <suffix>`. */
  function DefaultDesc(desc: string, botName: string, suffix: string): (r: string)
    ensures r != "" && (desc != "" ==> r == desc)
    ensures desc == "" ==> r == "Model for " + botName + " app, targetting " + suffix
  {
    if desc != "" then desc else "Model for " + botName + " app, targetting " + suffix
  }

  /** The name an application keeps: its own, or else
      `<bot>(<suffix>)-<content name>`. */
  function DefaultName(name: string, botName: string, suffix: string, contentName: string): (r: string)
    ensures r != "" && (name != "" ==> r == name)
    ensures name == "" ==> r == botName + "(" + suffix + ")-" + contentName
  {
    if name != "" then name else botName + "(" + suffix + ")-" + contentName
  }

  /** The version a new application is imported under: its own, or else
      `0.1`. */
  function DefaultVersion(versionId: string): (r: string)
    ensures r != "" && (versionId != "" ==> r == versionId)
    ensures versionId == "" ==> r == "0.1"
  {
    if versionId != "" then versionId else "0.1"
  }

  /** Filling in the defaults a second time changes nothing. */
  lemma DefaultsIdempotent(culture: string, language: string, desc: string, name: string, versionId: string,
                           botName: string, suffix: string, contentName: string)
    ensures DefaultCulture(DefaultCulture(culture, language), language) == DefaultCulture(culture, language)
    ensures DefaultDesc(DefaultDesc(desc, botName, suffix), botName, suffix) == DefaultDesc(desc, botName, suffix)
    ensures DefaultName(DefaultName(name, botName, suffix, contentName), botName, suffix, contentName)
            == DefaultName(name, botName, suffix, contentName)
    ensures DefaultVersion(DefaultVersion(versionId)) == DefaultVersion(versionId)
  {
  }

  /** A `Recognizer` asset: the application it points at and its version. */
  class Recognizer {
    var appId: string
    var versionId: string
    var dialogFileName: string

    constructor (appId: string, versionId: string, dialogFileName: string)
      ensures this.appId == appId && this.versionId == versionId && this.dialogFileName == dialogFileName
    {
      this.appId := appId;
      this.versionId := versionId;
      this.dialogFileName := dialogFileName;
    }

    /** A recognizer without an application adopts the first listed
        application with the given name. */
    method AdoptListedApp(appNames: seq<string>, appIds: seq<string>, name: string)
      requires |appNames| == |appIds|
      modifies this`appId
      ensures appId == (if old(appId) == "" && FirstIndex(appNames, name).Some?
                        then appIds[FirstIndex(appNames, name).value] else old(appId))
    {
      if appId == "" {
        var found := FindFirst(appNames, name);
        if found.Some? {
          appId := appIds[found.value];
        }
      }
    }
  }

  /** `intents.filter(...)` with the emptiness test. */
  method SelectEmptyIntents(intents: seq<Intent>, utterances: seq<Utterance>, patterns: seq<Pattern>) returns (empty: seq<Intent>)
    ensures empty == EmptyIntents(intents, utterances, patterns)
  {
    empty := [];
    var k := 0;
    while k < |intents|
      invariant 0 <= k <= |intents|
      invariant empty == EmptyIntents(intents[..k], utterances, patterns)
    {
      var intent := intents[k];
      if IsEmptyIntent(intent, utterances, patterns) {
        empty := empty + [intent];
      }
      EmptyIntentsAppend(intents[..k], [intent], utterances, patterns);
      TakeSnoc(intents, k);
      k := k + 1;
    }
    assert intents[..|intents|] == intents;
  }

  /** `intents.filter(...)` keeping the intents whose name no empty intent
      has. */
  method DropNamed(intents: seq<Intent>, empty: seq<Intent>, utterances: seq<Utterance>, patterns: seq<Pattern>)
    returns (filtered: seq<Intent>)
    requires empty == EmptyIntents(intents, utterances, patterns)
    ensures filtered == LabelledIntents(intents, utterances, patterns)
  {
    filtered := [];
    var k := 0;
    while k < |intents|
      invariant 0 <= k <= |intents|
      invariant filtered == LabelledIntents(intents[..k], utterances, patterns)
    {
      TakeSnoc(intents, k);
      filtered := KeepUnlessNamed(filtered, intents[k], empty, intents[..k], intents, utterances, patterns);
      k := k + 1;
    }
    assert intents[..|intents|] == intents;
  }

  /** One step of the filter loop: keeps `intent` unless an empty intent
      has its name. */
  method KeepUnlessNamed(filtered: seq<Intent>, intent: Intent, empty: seq<Intent>, ghost prefix: seq<Intent>,
                         ghost intents: seq<Intent>, utterances: seq<Utterance>, patterns: seq<Pattern>)
    returns (filtered': seq<Intent>)
    requires empty == EmptyIntents(intents, utterances, patterns)
    requires intent in intents
    requires filtered == LabelledIntents(prefix, utterances, patterns)
    ensures filtered' == LabelledIntents(prefix + [intent], utterances, patterns)
  {
    DropStep(prefix, intent, empty, intents, utterances, patterns);
    filtered' := filtered;
    if !NamedIn(intent, empty) {
      filtered' := filtered + [intent];
    }
  }

  /** The application object built from an LU content. Fields the LU file
      leaves unset are the empty string. */
  class LuisApp {
    var name: string
    var culture: string
    var desc: string
    var versionId: string
    var intents: seq<Intent>
    var utterances: seq<Utterance>
    var patterns: seq<Pattern>

    constructor (name: string, culture: string, desc: string, versionId: string,
                 intents: seq<Intent>, utterances: seq<Utterance>, patterns: seq<Pattern>)
      ensures this.name == name && this.culture == culture && this.desc == desc && this.versionId == versionId
      ensures this.intents == intents && this.utterances == utterances && this.patterns == patterns
    {
      this.name := name;
      this.culture := culture;
      this.desc := desc;
      this.versionId := versionId;
      this.intents := intents;
      this.utterances := utterances;
      this.patterns := patterns;
    }

    /** `filterEmptyIntents`: drops the intents nothing is labelled with,
        keeping the others in order; returns the warning it reports. */
    method FilterEmptyIntents() returns (warning: Option<string>)
      modifies this`intents
      ensures intents == LabelledIntents(old(intents), utterances, patterns)
      ensures warning == FilterWarning(old(intents), utterances, patterns)
    {
      var empty := SelectEmptyIntents(intents, utterances, patterns);
      if |empty| > 0 {
        var filtered := DropNamed(intents, empty, utterances, patterns);
        warning := Some(EmptyIntentsWarning(empty));
        intents := filtered;
      } else {
        NoEmptyIntentKeepsAll(intents, utterances, patterns);
        warning := None;
      }
    }
    /** `initApplicationFromLuContent` after the LU content is turned into
        an application: culture, description and name defaults, then
        `filterEmptyIntents`. */
    method FillDefaults(language: string, botName: string, suffix: string, contentName: string) returns (warning: Option<string>)
      modifies this`culture, this`desc, this`name, this`intents
      ensures culture == DefaultCulture(old(culture), language)
      ensures desc == DefaultDesc(old(desc), botName, suffix)
      ensures old(desc) == "" ==> desc == "Model for " + botName + " app, targetting " + suffix
      ensures name == DefaultName(old(name), botName, suffix, contentName)
      ensures old(name) == "" ==> name == botName + "(" + suffix + ")-" + contentName
      ensures intents == LabelledIntents(old(intents), utterances, patterns)
      ensures warning == FilterWarning(old(intents), utterances, patterns)
    {
      culture := if culture != "" && culture != "en-us" then culture else language;
      desc := if desc != "" then desc else "Model for " + botName + " app, targetting " + suffix;
      if name == "" {
        name := botName + "(" + suffix + ")-" + contentName;
      }
      warning := FilterEmptyIntents();
    }

    /** `createApplication`: the version defaults to `0.1`, the recognizer
        takes it and the id of the imported application. */
    method PrepareCreated(recognizer: Recognizer, importedAppId: string)
      modifies this`versionId, recognizer`versionId, recognizer`appId
      ensures versionId == DefaultVersion(old(versionId))
      ensures old(versionId) == "" ==> versionId == "0.1"
      ensures recognizer.versionId == versionId && recognizer.appId == importedAppId
    {
      versionId := if versionId != "" then versionId else "0.1";
      recognizer.versionId := versionId;
      recognizer.appId := importedAppId;
    }
  }

  /** A LUIS settings asset: settings key to application id. */
  class Settings {
    var luis: map<string, string>

    constructor (luis: map<string, string>)
      ensures this.luis == luis
    {
      this.luis := luis;
    }

    /** Records the application built for a content under its key. */
    method RecordApp(contentName: string, appId: string)
      modifies this
      ensures luis == old(luis)[SettingsKey(contentName) := appId]
    {
      var key := ReplaceChar(Join(Split(contentName, '.'), "_"), '-', '_');
      luis := luis[key := appId];
    }
  }

  /** An LU source file and the `name` that the LU content built from it
      gets. */
  datatype LuSource = LuSource(file: SourceFile, contentName: string)

  /** A loaded content: its `id` (the culture-free file name), `name`,
      language and path. */
  datatype LuContent = LuContent(id: string, name: string, language: string, path: string)

  /** What `loadContents` returns: the contents, the ids a multi-language
      recognizer is made for and the folders a settings asset is made for,
      each in first-appearance order. */
  datatype Loaded = Loaded(contents: seq<LuContent>, multiRecognizerIds: seq<string>, settingsFolders: seq<string>)

  const DuplicateContents := "Files with same name and locale are found."

  function ContentOf(s: LuSource, culture: string): LuContent
  {
    var identity := Identify(s.file, culture);
    LuContent(identity.name, s.contentName, identity.culture, s.file.path)
  }

  function ContentsOf(sources: seq<LuSource>, culture: string): (r: seq<LuContent>)
    ensures |r| == |sources|
    ensures forall k :: 0 <= k < |sources| ==> r[k] == ContentOf(sources[k], culture)
  {
    seq(|sources|, k requires 0 <= k < |sources| => ContentOf(sources[k], culture))
  }

  function NamesOf(contents: seq<LuContent>): seq<string>
  {
    seq(|contents|, k requires 0 <= k < |contents| => contents[k].name)
  }

  function IdsOf(contents: seq<LuContent>): (r: seq<string>)
    ensures |r| == |contents| && forall k :: 0 <= k < |contents| ==> r[k] == contents[k].id
  {
    seq(|contents|, k requires 0 <= k < |contents| => contents[k].id)
  }

  function FoldersOf(sources: seq<LuSource>): (r: seq<string>)
    ensures |r| == |sources| && forall k :: 0 <= k < |sources| ==> r[k] == sources[k].file.folder
  {
    seq(|sources|, k requires 0 <= k < |sources| => sources[k].file.folder)
  }

  /** The outcome of `loadContents`: the contents, unless two share a name. */
  function LoadedFrom(sources: seq<LuSource>, culture: string): Result<Loaded, BuildError>
  {
    var contents := ContentsOf(sources, culture);
    if Distinct(NamesOf(contents)) then
      Ok(Loaded(contents, Dedup(IdsOf(contents)), Dedup(FoldersOf(sources))))
    else
      Err(InvalidInputFile(DuplicateContents))
  }

  lemma SetSize(s: set<string>, x: string)
    ensures |s + {x}| == if x in s then |s| else |s| + 1
  {
    if x in s {
      assert s + {x} == s;
    } else {
      assert s * {x} == {};
    }
  }

  /** The duplicate check: a name is a duplicate when adding it to the set
      of names seen so far leaves the set's size unchanged. */
  method HasDuplicates(names: seq<string>) returns (found: bool)
    ensures found <==> !Distinct(names)
  {
    var seen: set<string> := {};
    var i := 0;
    found := false;
    while i < |names|
      invariant 0 <= i <= |names|
      invariant seen == set k | 0 <= k < i :: names[k]
      invariant Distinct(names[..i])
    {
      var size := |seen|;
      SetSize(seen, names[i]);
      seen := seen + {names[i]};
      if size == |seen| {
        var k :| 0 <= k < i && names[k] == names[i];
        found := true;
        break;
      }
      assert forall k :: 0 <= k < i ==> names[..i + 1][k] == names[..i][k];
      i := i + 1;
    }
    if !found {
      assert names[..|names|] == names;
    }
  }

  /** `loadContents` with the file system and the LU compiler left out: each
      source becomes a content; the first source of each file name creates
      that name's multi-language recognizer and the first of each folder
      its settings; contents sharing a name are rejected. */
  method LoadContents(sources: seq<LuSource>, culture: string) returns (r: Result<Loaded, BuildError>)
    ensures r == LoadedFrom(sources, culture)
  {
    var contents: seq<LuContent> := [];
    var multiRecognizerIds: seq<string> := [];
    var settingsFolders: seq<string> := [];
    var i := 0;
    while i < |sources|
      invariant 0 <= i <= |sources|
      invariant contents == ContentsOf(sources[..i], culture)
      invariant multiRecognizerIds == Dedup(IdsOf(contents))
      invariant settingsFolders == Dedup(FoldersOf(sources[..i]))
    {
      TakeSnoc(sources, i);
      contents, multiRecognizerIds, settingsFolders :=
        LoadSource(contents, multiRecognizerIds, settingsFolders, sources[i], culture, sources[..i]);
      i := i + 1;
    }
    assert sources[..|sources|] == sources;
    var duplicated := HasDuplicates(NamesOf(contents));
    if duplicated {
      r := Err(InvalidInputFile(DuplicateContents));
    } else {
      r := Ok(Loaded(contents, multiRecognizerIds, settingsFolders));
    }
  }

  /** One iteration of the loading loop: the source's content is appended,
      and its file name and folder are recorded unless already seen. */
  method LoadSource(contents: seq<LuContent>, multiRecognizerIds: seq<string>, settingsFolders: seq<string>,
                    source: LuSource, culture: string, ghost loaded: seq<LuSource>)
    returns (contents': seq<LuContent>, multiRecognizerIds': seq<string>, settingsFolders': seq<string>)
    requires contents == ContentsOf(loaded, culture)
    requires multiRecognizerIds == Dedup(IdsOf(contents)) && settingsFolders == Dedup(FoldersOf(loaded))
    ensures contents' == ContentsOf(loaded + [source], culture)
    ensures multiRecognizerIds' == Dedup(IdsOf(contents')) && settingsFolders' == Dedup(FoldersOf(loaded + [source]))
  {
    var identity := Identify(source.file, culture);
    var content := LuContent(identity.name, source.contentName, identity.culture, source.file.path);
    DedupSnoc(IdsOf(contents), identity.name);
    DedupSnoc(FoldersOf(loaded), source.file.folder);
    multiRecognizerIds' := multiRecognizerIds;
    if identity.name !in multiRecognizerIds {
      multiRecognizerIds' := multiRecognizerIds + [identity.name];
    }
    settingsFolders' := settingsFolders;
    if source.file.folder !in settingsFolders {
      settingsFolders' := settingsFolders + [source.file.folder];
    }
    contents' := contents + [content];
    IdsOfSnoc(contents, content);
    FoldersOfSnoc(loaded, source);
    ContentsOfSnoc(loaded, source, culture);
  }

  lemma IdsOfSnoc(contents: seq<LuContent>, c: LuContent)
    ensures IdsOf(contents + [c]) == IdsOf(contents) + [c.id]
  {
  }

  lemma FoldersOfSnoc(sources: seq<LuSource>, s: LuSource)
    ensures FoldersOf(sources + [s]) == FoldersOf(sources) + [s.file.folder]
  {
  }

  lemma ContentsOfSnoc(sources: seq<LuSource>, s: LuSource, culture: string)
    ensures ContentsOf(sources + [s], culture) == ContentsOf(sources, culture) + [ContentOf(s, culture)]
  {
  }

  /** Loading succeeds exactly when no two sources give contents with the
      same name, and then yields one content per source, in order, with the
      file name and culture of its source. */
  lemma LoadedContents(sources: seq<LuSource>, culture: string)
    ensures LoadedFrom(sources, culture).Ok? <==> Distinct(seq(|sources|, k requires 0 <= k < |sources| => sources[k].contentName))
    ensures LoadedFrom(sources, culture).Err? ==> LoadedFrom(sources, culture).error == InvalidInputFile(DuplicateContents)
    ensures LoadedFrom(sources, culture).Ok? ==>
              var contents := LoadedFrom(sources, culture).value.contents;
              |contents| == |sources|
              && forall k :: 0 <= k < |sources| ==>
                   contents[k].name == sources[k].contentName
                   && contents[k].id == Identify(sources[k].file, culture).name
                   && contents[k].language == Identify(sources[k].file, culture).culture
  {
    var contents := ContentsOf(sources, culture);
    assert NamesOf(contents) == seq(|sources|, k requires 0 <= k < |sources| => sources[k].contentName);
  }
}
