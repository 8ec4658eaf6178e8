/** The record and collection updates of the QnA Maker build driver:
    loading sources and merging the contents that share a name, the
    knowledge base defaults, following an import operation to its end, and
    recording the built knowledge base in the settings asset. */
module QnaBuild {
  import opened Wrappers
  import opened Text
  import opened BuildAssets

  /** A QnA source file, the `name` of the QnA content built from it, and
      the text the QnA compiler produces for it. */
  datatype QnaSource = QnaSource(file: SourceFile, contentName: string, content: string)

  datatype QnaContent = QnaContent(name: string, language: string, path: string, content: string)

  /** What `loadContents` returns: one content per distinct name, the
      folder of the dialog of each name's recognizer, and the folder the
      multi-language recognizer and the settings asset are made for. */
  datatype Loaded = Loaded(contents: seq<QnaContent>, recognizers: map<string, string>, assetFolder: Option<string>)

  /** The content built from a source: in the culture of its path, or the
      supplied culture when the path has none. */
  function ContentOf(s: QnaSource, culture: string): QnaContent
  {
    QnaContent(s.contentName, Identify(s.file, culture).culture, s.file.path, s.content)
  }

  function NamesOf(contents: seq<QnaContent>): (r: seq<string>)
    ensures |r| == |contents| && forall k :: 0 <= k < |contents| ==> r[k] == contents[k].name
  {
    seq(|contents|, k requires 0 <= k < |contents| => contents[k].name)
  }

  function SourceNames(sources: seq<QnaSource>): (r: seq<string>)
    ensures |r| == |sources| && forall k :: 0 <= k < |sources| ==> r[k] == sources[k].contentName
  {
    seq(|sources|, k requires 0 <= k < |sources| => sources[k].contentName)
  }

  /** The separator between merged contents: two `os.EOL`s. */
  const MergeSeparator := Eol + Eol

  /** Adds a content: a new name is appended; a known name has the new text
      appended to the stored content's, after two line separators. */
  function Merge(contents: seq<QnaContent>, c: QnaContent): seq<QnaContent>
  {
    match FirstIndex(NamesOf(contents), c.name)
    case None => contents + [c]
    case Some(k) => contents[k := contents[k].(content := contents[k].content + MergeSeparator + c.content)]
  }

  /** The contents after every source is loaded, in order. */
  function Merged(sources: seq<QnaSource>, culture: string): seq<QnaContent>
    decreases |sources|
  {
    if sources == [] then [] else Merge(Merged(sources[..|sources| - 1], culture), ContentOf(sources[|sources| - 1], culture))
  }

  /** The recognizer of each name is created by its first source, in that
      source's folder. */
  function RecognizerFolders(sources: seq<QnaSource>): map<string, string>
    decreases |sources|
  {
    if sources == [] then map[]
    else
      var known := RecognizerFolders(sources[..|sources| - 1]);
      var last := sources[|sources| - 1];
      if last.contentName in known then known else known[last.contentName := last.file.folder]
  }

  function LoadedFrom(sources: seq<QnaSource>, culture: string): Loaded
  {
    Loaded(Merged(sources, culture), RecognizerFolders(sources), if sources == [] then None else Some(sources[0].file.folder))
  }

  /** The texts of the sources named `name`, in order. */
  function ContentsNamed(sources: seq<QnaSource>, name: string): seq<string>
    decreases |sources|
  {
    if sources == [] then []
    else
      var last := sources[|sources| - 1];
      ContentsNamed(sources[..|sources| - 1], name) + (if last.contentName == name then [last.content] else [])
  }

  lemma SourceNamesInit(sources: seq<QnaSource>)
    requires sources != []
    ensures SourceNames(sources)[..|sources| - 1] == SourceNames(sources[..|sources| - 1])
  {
  }

  /** The merged contents carry the distinct names in the order of their
      first appearance, and their recognizers are exactly those names. */
  lemma {:induction false} MergedNames(sources: seq<QnaSource>, culture: string)
    ensures NamesOf(Merged(sources, culture)) == Dedup(SourceNames(sources))
    ensures RecognizerFolders(sources).Keys == set n | n in SourceNames(sources)
    decreases |sources|
  {
    if sources != [] {
      var init := sources[..|sources| - 1];
      var last := sources[|sources| - 1];
      MergedNames(init, culture);
      SourceNamesInit(sources);
      var m := Merged(init, culture);
      var c := ContentOf(last, culture);
      assert SourceNames(sources) == SourceNames(init) + [last.contentName];
      match FirstIndex(NamesOf(m), c.name)
      case None =>
        assert NamesOf(m + [c]) == NamesOf(m) + [c.name];
      case Some(k) =>
        assert NamesOf(Merge(m, c)) == NamesOf(m);
    }
  }

  /** A name that occurs among the sources has at least one text. */
  lemma {:induction false} ContentsNamedPresent(sources: seq<QnaSource>, name: string)
    requires name in SourceNames(sources)
    ensures |ContentsNamed(sources, name)| >= 1
    decreases |sources|
  {
    var init := sources[..|sources| - 1];
    if sources[|sources| - 1].contentName != name {
      SourceNamesInit(sources);
      ContentsNamedPresent(init, name);
    }
  }

  /** A name that does not occur has no text. */
  lemma {:induction false} ContentsNamedAbsent(sources: seq<QnaSource>, name: string)
    requires name !in SourceNames(sources)
    ensures ContentsNamed(sources, name) == []
    decreases |sources|
  {
    if sources != [] {
      var init := sources[..|sources| - 1];
      SourceNamesInit(sources);
      assert SourceNames(sources)[|sources| - 1] == sources[|sources| - 1].contentName;
      ContentsNamedAbsent(init, name);
    }
  }

  /** Each merged content holds the texts of all sources with its name,
      in order, separated by two line separators. */
  lemma {:induction false} MergedText(sources: seq<QnaSource>, culture: string, k: nat)
    requires k < |Merged(sources, culture)|
    ensures Merged(sources, culture)[k].content == Join(ContentsNamed(sources, Merged(sources, culture)[k].name), MergeSeparator)
    decreases |sources|
  {
    var init := sources[..|sources| - 1];
    var last := sources[|sources| - 1];
    var m := Merged(init, culture);
    var c := ContentOf(last, culture);
    assert Merged(sources, culture) == Merge(m, c);
    MergedNames(init, culture);
    var n := Merged(sources, culture)[k].name;
    assert ContentsNamed(sources, n) == ContentsNamed(init, n) + (if last.contentName == n then [last.content] else []);
    match FirstIndex(NamesOf(m), c.name)
    case None =>
      if k < |m| {
        assert Merged(sources, culture)[k] == m[k];
        assert NamesOf(m)[k] == n && c.name !in NamesOf(m);
        assert n != last.contentName;
        assert ContentsNamed(sources, n) == ContentsNamed(init, n);
        MergedText(init, culture, k);
      } else {
        assert Merged(sources, culture)[k] == c;
        assert n !in SourceNames(init);
        ContentsNamedAbsent(init, n);
      }
    case Some(j) =>
      MergedText(init, culture, k);
      if j == k {
        assert Merged(sources, culture)[k] == m[k].(content := m[k].content + MergeSeparator + c.content);
        assert n == c.name && n in SourceNames(init);
        ContentsNamedPresent(init, n);
        JoinSnoc(ContentsNamed(init, n), last.content, MergeSeparator);
        assert ContentsNamed(sources, n) == ContentsNamed(init, n) + [last.content];
      } else {
        assert Merged(sources, culture)[k] == m[k];
        assert Distinct(NamesOf(m)) && NamesOf(m)[k] == n && NamesOf(m)[j] == c.name;
        assert n != last.contentName;
        assert ContentsNamed(sources, n) == ContentsNamed(init, n);
      }
  }

  /** Each merged content keeps the language and path of the first source
      with its name. */
  lemma {:induction false} MergedOrigin(sources: seq<QnaSource>, culture: string, k: nat)
    requires k < |Merged(sources, culture)|
    ensures FirstIndex(SourceNames(sources), Merged(sources, culture)[k].name).Some?
    ensures var first := sources[FirstIndex(SourceNames(sources), Merged(sources, culture)[k].name).value];
            Merged(sources, culture)[k].language == Identify(first.file, culture).culture
            && Merged(sources, culture)[k].path == first.file.path
    decreases |sources|
  {
    var init := sources[..|sources| - 1];
    var last := sources[|sources| - 1];
    var m := Merged(init, culture);
    var c := ContentOf(last, culture);
    assert Merged(sources, culture) == Merge(m, c);
    MergedNames(init, culture);
    SourceNamesInit(sources);
    var n := Merged(sources, culture)[k].name;
    if k < |m| {
      assert Merged(sources, culture)[k].name == m[k].name;
      assert Merged(sources, culture)[k].language == m[k].language && Merged(sources, culture)[k].path == m[k].path;
      MergedOrigin(init, culture, k);
      FirstIndexPrefix(SourceNames(sources), n);
    } else {
      assert Merged(sources, culture)[k] == c;
      assert n !in SourceNames(init);
      FirstIndexAt(SourceNames(sources), n, |sources| - 1);
    }
  }

  /** `loadContents` with the file system and the QnA compiler left out. */
  method LoadContents(sources: seq<QnaSource>, culture: string) returns (r: Loaded)
    ensures r == LoadedFrom(sources, culture)
  {
    var contents: seq<QnaContent> := [];
    var recognizers: map<string, string> := map[];
    var assetFolder: Option<string> := None;
    var i := 0;
    while i < |sources|
      invariant 0 <= i <= |sources|
      invariant contents == Merged(sources[..i], culture)
      invariant recognizers == RecognizerFolders(sources[..i])
      invariant assetFolder == if i == 0 then None else Some(sources[0].file.folder)
    {
      if assetFolder.None? {
        assetFolder := Some(sources[i].file.folder);
      }
      TakeSnoc(sources, i);
      contents, recognizers := LoadSource(contents, recognizers, sources[i], culture, sources[..i]);
      i := i + 1;
    }
    assert sources[..|sources|] == sources;
    r := Loaded(contents, recognizers, assetFolder);
  }

  /** One turn of the loading loop: the first source with a name creates
      its recognizer and content; a later one is merged into that content. */
  method LoadSource(contents: seq<QnaContent>, recognizers: map<string, string>, source: QnaSource, culture: string,
                    ghost loaded: seq<QnaSource>)
    returns (contents': seq<QnaContent>, recognizers': map<string, string>)
    requires contents == Merged(loaded, culture) && recognizers == RecognizerFolders(loaded)
    ensures contents' == Merged(loaded + [source], culture) && recognizers' == RecognizerFolders(loaded + [source])
  {
    ghost var all := loaded + [source];
    assert all[..|all| - 1] == loaded && all[|all| - 1] == source;
    MergedNames(loaded, culture);
    var content := ContentOf(source, culture);
    assert Merged(all, culture) == Merge(contents, content);
    assert RecognizerFolders(all) == if source.contentName in recognizers then recognizers
                                     else recognizers[source.contentName := source.file.folder];
    if content.name !in recognizers {
      assert content.name !in SourceNames(loaded);
      recognizers' := recognizers[content.name := source.file.folder];
      contents' := contents + [content];
    } else {
      assert content.name in SourceNames(loaded) && content.name in NamesOf(contents);
      var found := FindFirst(NamesOf(contents), content.name);
      var k := found.value;
      recognizers' := recognizers;
      contents' := contents[k := contents[k].(content := contents[k].content + MergeSeparator + content.content)];
    }
  }

  /** The knowledge base name: the parsed one, or `<bot>(<suffix>).<language>.qna`. */
  function DefaultKbName(name: string, botName: string, suffix: string, language: string): (r: string)
    ensures r != "" && (name != "" ==> r == name)
    ensures name == "" ==> r == botName + "(" + suffix + ")." + language + ".qna"
  {
    if name != "" then name else botName + "(" + suffix + ")." + language + ".qna"
  }

  /** Filling in the knowledge base name a second time changes nothing,
      and a default name ends in `.qna`. */
  lemma DefaultKbNameStable(name: string, botName: string, suffix: string, language: string)
    ensures var r := DefaultKbName(name, botName, suffix, language);
            DefaultKbName(r, botName, suffix, language) == r
    ensures var r := DefaultKbName(name, botName, suffix, language);
            name == "" ==> |r| >= 4 && r[|r| - 4..] == ".qna"
  {
    var r := DefaultKbName(name, botName, suffix, language);
    if name == "" {
      var front := botName + "(" + suffix + ")." + language;
      assert r == front + ".qna";
      assert r[|r| - 4..] == ".qna";
    }
  }

  /** The host name recorded for a knowledge base: the one listed with it,
      or else the one the service reports, followed by `/qnamaker`. */
  function HostName(listed: string, reported: string): (r: string)
    ensures |r| >= 9 && r[|r| - 9..] == "/qnamaker"
  {
    (if listed == "" then reported else listed) + "/qnamaker"
  }

  /** The settings after a knowledge base is recorded: its id under the
      content's key, then the host name under `hostname`. */
  function RecordedSettings(qna: map<string, string>, contentName: string, kbId: string, hostName: string): (r: map<string, string>)
    ensures "hostname" in r && r["hostname"] == hostName
    ensures SettingsKey(contentName) in r
    ensures SettingsKey(contentName) != "hostname" ==> r[SettingsKey(contentName)] == kbId
    ensures forall k :: k != SettingsKey(contentName) && k != "hostname" ==> (k in r <==> k in qna) && (k in qna ==> r[k] == qna[k])
  {
    qna[SettingsKey(contentName) := kbId]["hostname" := hostName]
  }

  /** A QnA Maker settings asset. */
  class Settings {
    var qna: map<string, string>

    constructor (qna: map<string, string>)
      ensures this.qna == qna
    {
      this.qna := qna;
    }

    /** Records the knowledge base built for a content and its host. */
    method RecordKb(contentName: string, kbId: string, listedHost: string, reportedHost: string)
      modifies this
      ensures qna == RecordedSettings(old(qna), contentName, kbId, HostName(listedHost, reportedHost))
    {
      var hostName := listedHost;
      if hostName == "" {
        hostName := reportedHost;
      }
      hostName := hostName + "/qnamaker";
      qna := qna[ReplaceChar(Join(Split(contentName, '.'), "_"), '-', '_') := kbId];
      qna := qna["hostname" := hostName];
    }
  }

  /** The knowledge base id in an operation's resource location:
      `resourceLocation.split('/')[2]`, absent when there is no third part. */
  function KbIdFromLocation(resourceLocation: string): Option<string>
  {
    var parts := Split(resourceLocation, '/');
    if |parts| > 2 then Some(parts[2]) else None
  }

  /** A location `/<collection>/<id>` gives back the id. */
  lemma KbIdOfLocation(collection: string, id: string)
    requires '/' !in collection && '/' !in id
    ensures KbIdFromLocation("/" + collection + "/" + id) == Some(id)
  {
    SplitWithout(id, '/');
    SplitFirst(collection, '/', id);
    SplitFirst("", '/', collection + "/" + id);
    assert "/" + collection + "/" + id == "" + ['/'] + (collection + "/" + id);
    assert collection + "/" + id == collection + ['/'] + id;
  }

  /** A QnA `Recognizer` asset. */
  class Recognizer {
    var kbId: string
    var dialogFileName: string

    constructor (kbId: string, dialogFileName: string)
      ensures this.kbId == kbId && this.dialogFileName == dialogFileName
    {
      this.kbId := kbId;
      this.dialogFileName := dialogFileName;
    }

    /** A recognizer without a knowledge base adopts the first listed one
        with the given name, and returns its host name; otherwise the host
        name is empty. */
    method AdoptListedKb(kbNames: seq<string>, kbIds: seq<string>, kbHosts: seq<string>, name: string)
      returns (hostName: string)
      requires |kbNames| == |kbIds| == |kbHosts|
      modifies this`kbId
      ensures var found := FirstIndex(kbNames, name);
              if old(kbId) == "" && found.Some?
              then kbId == kbIds[found.value] && hostName == kbHosts[found.value]
              else kbId == old(kbId) && hostName == ""
    {
      hostName := "";
      if kbId == "" {
        var found := FindFirst(kbNames, name);
        if found.Some? {
          kbId := kbIds[found.value];
          hostName := kbHosts[found.value];
        }
      }
    }

    /** After an import completes, the recognizer takes the id in the
        operation's resource location (none becomes the empty id). */
    method AdoptCreatedKb(resourceLocation: string)
      modifies this`kbId
      ensures kbId == match KbIdFromLocation(resourceLocation) case Some(id) => id case None => ""
    {
      var parts := Split(resourceLocation, '/');
      kbId := if |parts| > 2 then parts[2] else "";
    }
  }

  /** What `getOperationStatus` reports. */
  datatype OperationStatus = OperationStatus(operationState: string, resourceLocation: string)

  /** How polling an operation ends: with the first `Succeeded` status,
      with the first `Failed` status (thrown as `INVALID_INPUT_FILE`), or
      still running when the statuses run out. */
  datatype PollOutcome = Completed(status: OperationStatus) | Failed(status: OperationStatus) | StillRunning

  predicate Settled(s: OperationStatus)
  {
    s.operationState == "Failed" || s.operationState == "Succeeded"
  }

  /** The outcome of polling through `statuses`, one per request. */
  function PollOutcomeOf(statuses: seq<OperationStatus>): (r: PollOutcome)
    ensures r.StillRunning? <==> forall k :: 0 <= k < |statuses| ==> !Settled(statuses[k])
    ensures r.Completed? ==> r.status in statuses && r.status.operationState == "Succeeded"
    ensures r.Failed? ==> r.status in statuses && r.status.operationState == "Failed"
    decreases |statuses|
  {
    if statuses == [] then StillRunning
    else if statuses[0].operationState == "Failed" then Failed(statuses[0])
    else if statuses[0].operationState == "Succeeded" then Completed(statuses[0])
    else
      var rest := PollOutcomeOf(statuses[1..]);
      assert forall k :: 1 <= k < |statuses| ==> statuses[k] == statuses[1..][k - 1];
      rest
  }

  /** Polling ends at the first settled status, failed or succeeded. */
  lemma {:induction false} PollOutcomeAt(statuses: seq<OperationStatus>, k: nat)
    requires k < |statuses| && Settled(statuses[k])
    requires forall j :: 0 <= j < k ==> !Settled(statuses[j])
    ensures PollOutcomeOf(statuses) == if statuses[k].operationState == "Failed" then Failed(statuses[k]) else Completed(statuses[k])
    decreases k
  {
    if k > 0 {
      assert !Settled(statuses[0]);
      assert statuses[1..][k - 1] == statuses[k];
      PollOutcomeAt(statuses[1..], k - 1);
    }
  }

  /** `getKBOperationStatus` over the statuses the service reports. */
  method PollOperation(statuses: seq<OperationStatus>) returns (r: PollOutcome)
    ensures r == PollOutcomeOf(statuses)
  {
    var isGetting := true;
    var i := 0;
    r := StillRunning;
    while isGetting && i < |statuses|
      invariant 0 <= i <= |statuses|
      invariant forall j :: 0 <= j < i - 1 ==> !Settled(statuses[j])
      invariant isGetting ==> forall j :: 0 <= j < i ==> !Settled(statuses[j])
      invariant isGetting <==> r == StillRunning
      invariant !isGetting ==> 0 < i && statuses[i - 1].operationState == "Succeeded" && r == Completed(statuses[i - 1])
    {
      var opResult := statuses[i];
      if opResult.operationState == "Failed" {
        PollOutcomeAt(statuses, i);
        return Failed(opResult);
      }
      if opResult.operationState == "Succeeded" {
        isGetting := false;
        r := Completed(opResult);
      }
      i := i + 1;
    }
    if !isGetting {
      PollOutcomeAt(statuses, i - 1);
    }
  }
}
