/** What the LU and QnA build drivers share: the error they throw, source
    file names and cultures, the settings key, the multi-language
    recognizer's culture table and the cross-trained recognizer lists that
    `writeDialog` keeps up to date. */
module BuildAssets {
  import opened Wrappers
  import opened Text

  /** `new exception(retCode.errorCode.INVALID_INPUT_FILE, text)`. */
  datatype BuildError = InvalidInputFile(text: string)

  /** No value occurs twice. */
  predicate Distinct(s: seq<string>)
  {
    forall i, j :: 0 <= i < j < |s| ==> s[i] != s[j]
  }

  /** The first position holding `name`. */
  function FirstIndex(names: seq<string>, name: string): (r: Option<nat>)
    ensures r.None? <==> name !in names
    ensures r.Some? ==> r.value < |names| && names[r.value] == name && name !in names[..r.value]
    decreases |names|
  {
    if names == [] then None
    else if names[0] == name then Some(0)
    else
      match FirstIndex(names[1..], name)
      case None => None
      case Some(k) =>
        assert names[..k + 1] == [names[0]] + names[1..][..k];
        Some(k + 1)
  }

  /** A position holding `name` with no `name` before it is the first. */
  lemma FirstIndexAt(names: seq<string>, name: string, k: nat)
    requires k < |names| && names[k] == name && name !in names[..k]
    ensures FirstIndex(names, name) == Some(k)
  {
    var f := FirstIndex(names, name).value;
    if f < k {
      InPrefix(names, f, k);
      assert false;
    } else if k < f {
      InPrefix(names, k, f);
      assert false;
    }
  }

  lemma InPrefix(s: seq<string>, i: nat, k: nat)
    requires i < k <= |s|
    ensures s[i] in s[..k]
  {
    assert s[..k][i] == s[i];
  }

  /** The `for … of` loop with `break` that the drivers run over the list
      the service returns. */
  method FindFirst(names: seq<string>, name: string) returns (found: Option<nat>)
    ensures found == FirstIndex(names, name)
  {
    found := None;
    var i := 0;
    while i < |names|
      invariant 0 <= i <= |names|
      invariant name !in names[..i]
    {
      if names[i] == name {
        FirstIndexAt(names, name, i);
        found := Some(i);
        break;
      }
      TakeSnoc(names, i);
      i := i + 1;
    }
    if found.None? {
      assert names[..|names|] == names;
    }
  }

  /** The distinct values in the order of their first appearance, as the
      keys of a JavaScript `Map` filled in that order. */
  function Dedup(s: seq<string>): (r: seq<string>)
    ensures Distinct(r)
    ensures forall x :: x in r <==> x in s
    decreases |s|
  {
    if s == [] then []
    else
      var d := Dedup(s[..|s| - 1]);
      var x := s[|s| - 1];
      assert forall y :: y in s <==> y in s[..|s| - 1] || y == x;
      if x in d then d else d + [x]
  }

  /** Adding a value at the end adds it to `Dedup` unless it was seen. */
  lemma DedupSnoc(s: seq<string>, x: string)
    ensures Dedup(s + [x]) == if x in s then Dedup(s) else Dedup(s) + [x]
  {
    assert (s + [x])[..|s|] == s;
  }

  /** `Dedup` lists values in the order they first appear. */
  lemma {:induction false} DedupOrder(s: seq<string>, i: nat, j: nat)
    requires i < j < |Dedup(s)|
    ensures FirstIndex(s, Dedup(s)[i]).value < FirstIndex(s, Dedup(s)[j]).value
    decreases |s|
  {
    var init := s[..|s| - 1];
    var d := Dedup(init);
    var x := s[|s| - 1];
    FirstIndexPrefix(s, Dedup(s)[i]);
    if j < |d| {
      DedupOrder(init, i, j);
      FirstIndexPrefix(s, Dedup(s)[j]);
    } else {
      assert Dedup(s)[j] == x && x !in init;
      FirstIndexAt(s, x, |s| - 1);
    }
  }

  /** Values of a prefix are first found where the prefix finds them. */
  lemma FirstIndexPrefix(s: seq<string>, y: string)
    requires |s| > 0 && y in s[..|s| - 1]
    ensures FirstIndex(s, y) == FirstIndex(s[..|s| - 1], y)
  {
    var k := FirstIndex(s[..|s| - 1], y).value;
    assert s[..|s| - 1][..k] == s[..k];
    FirstIndexAt(s, y, k);
  }

  /** A source file as the drivers see it: its path, its folder
      (`path.dirname`), its base name without extension
      (`path.basename(file, path.extname(file))`) and the culture that
      `fileHelper.getCultureFromPath` finds in the path, empty when none. */
  datatype SourceFile = SourceFile(path: string, folder: string, baseName: string, cultureFromPath: string)

  datatype FileIdentity = FileIdentity(name: string, culture: string)

  /** The file name and culture of a source file: a culture in the path is
      cut off the end of the base name together with one separator
      character (`substring(0, length - culture.length - 1)`); otherwise
      the whole base name is kept and the supplied culture is used. */
  function Identify(f: SourceFile, culture: string): (r: FileIdentity)
    ensures r.name <= f.baseName
    ensures f.cultureFromPath == "" ==> r == FileIdentity(f.baseName, culture)
    ensures f.cultureFromPath != "" ==> r.culture == f.cultureFromPath
    ensures f.cultureFromPath != "" && |f.cultureFromPath| < |f.baseName| ==>
              |r.name| == |f.baseName| - |f.cultureFromPath| - 1
  {
    if f.cultureFromPath != "" then
      FileIdentity(Substring(f.baseName, 0, |f.baseName| - |f.cultureFromPath| - 1), f.cultureFromPath)
    else
      FileIdentity(f.baseName, culture)
  }

  /** A base name `<name><sep><culture>` whose culture is found in the path
      is identified as `<name>` in that culture. */
  lemma IdentifyStripsCulture(name: string, sep: char, c: string, path: string, folder: string, culture: string)
    requires c != ""
    ensures Identify(SourceFile(path, folder, name + [sep] + c, c), culture) == FileIdentity(name, c)
  {
    var b := name + [sep] + c;
    assert b[0..|b| - |c| - 1] == name;
  }

  /** `path.basename(fileName, ext)` on a name without directories: the
      extension is removed when the name ends with it and is longer. */
  function StripSuffix(fileName: string, ext: string): (r: string)
    ensures r <= fileName
    ensures r == fileName || r + ext == fileName
  {
    if |fileName| > |ext| && fileName[|fileName| - |ext|..] == ext then fileName[..|fileName| - |ext|] else fileName
  }

  /** Stripping an extension that was appended to a non-empty name gives
      the name back. */
  lemma StripSuffixAppended(name: string, ext: string)
    requires name != ""
    ensures StripSuffix(name + ext, ext) == name
  {
    var f := name + ext;
    assert f[|f| - |ext|..] == ext && f[..|f| - |ext|] == name;
  }

  /** The key an id is stored under in a settings asset:
      `name.split('.').join('_').replace(/-/g, '_')`. Every `.` and `-` of
      the name becomes `_` and nothing else changes. */
  function SettingsKey(name: string): (key: string)
    ensures |key| == |name|
    ensures forall i :: 0 <= i < |name| ==> key[i] == (if name[i] == '.' || name[i] == '-' then '_' else name[i])
  {
    JoinSplitIsReplace(name, '.', '_');
    ReplaceCharAt(name, '.', '_');
    ReplaceCharAt(ReplaceChar(name, '.', '_'), '-', '_');
    ReplaceChar(Join(Split(name, '.'), "_"), '-', '_')
  }

  /** Keys contain neither `.` nor `-`, so a key is its own key. */
  lemma SettingsKeyStable(name: string)
    ensures '.' !in SettingsKey(name) && '-' !in SettingsKey(name)
    ensures SettingsKey(SettingsKey(name)) == SettingsKey(name)
  {
    var key := SettingsKey(name);
    assert forall i :: 0 <= i < |key| ==> key[i] != '.' && key[i] != '-';
  }

  /** `a.toLowerCase() === b.toLowerCase()`. */
  predicate SameLocale(a: string, b: string)
  {
    LowerAscii(a) == LowerAscii(b)
  }

  /** The culture table after a recognizer for `culture` is recorded: the
      culture's entry is always set, the `''` entry also when the culture
      is the fallback locale, and no other entry changes. */
  function Registered(table: map<string, string>, culture: string, fallbackLocale: string, dialog: string): (r: map<string, string>)
    ensures culture in r && r[culture] == dialog
    ensures SameLocale(culture, fallbackLocale) ==> "" in r && r[""] == dialog
    ensures !SameLocale(culture, fallbackLocale) && culture != "" ==>
              ("" in r <==> "" in table) && ("" in table ==> r[""] == table[""])
    ensures forall k :: k != culture && k != "" ==> (k in r <==> k in table) && (k in table ==> r[k] == table[k])
  {
    var withCulture := table[culture := dialog];
    if SameLocale(culture, fallbackLocale) then withCulture["" := dialog] else withCulture
  }

  /** A `MultiLanguageRecognizer` asset: culture to recognizer dialog name. */
  class MultiLanguageRecognizer {
    var recognizers: map<string, string>

    constructor (recognizers: map<string, string>)
      ensures this.recognizers == recognizers
    {
      this.recognizers := recognizers;
    }

    /** Records the recognizer dialog of a content in `culture`; the dialog
        is named by its file name without `.dialog`. */
    method Register(culture: string, fallbackLocale: string, dialogFileName: string)
      modifies this
      ensures recognizers == Registered(old(recognizers), culture, fallbackLocale, StripSuffix(dialogFileName, ".dialog"))
    {
      var dialog := StripSuffix(dialogFileName, ".dialog");
      recognizers := recognizers[culture := dialog];
      if LowerAscii(culture) == LowerAscii(fallbackLocale) {
        recognizers := recognizers["" := dialog];
      }
    }
  }

  /** `if (!list.includes(entry)) list.push(entry)`. */
  function IncludeOnce(list: seq<string>, entry: string): (r: seq<string>)
    ensures list <= r && entry in r
    ensures forall x :: x in r <==> x in list || x == entry
    ensures |r| <= |list| + 1
    ensures Distinct(list) ==> Distinct(r)
  {
    if entry in list then list else list + [entry]
  }

  /** The recognizers list of a cross-trained dialog after `entry` is
      written into it: an existing file keeps its list with `entry` added
      once; a missing file is created with `[entry]`. */
  function CrossTrainedList(existing: Option<seq<string>>, entry: string): (r: seq<string>)
    ensures entry in r
    ensures existing.None? ==> r == [entry]
    ensures existing.Some? ==> existing.value <= r && (entry in existing.value ==> r == existing.value)
  {
    match existing
    case None => [entry]
    case Some(list) => IncludeOnce(list, entry)
  }

  function Lookup(files: map<string, seq<string>>, name: string): Option<seq<string>>
  {
    if name in files then Some(files[name]) else None
  }

  /** The folder after `entry` is written into the cross-trained dialog
      `file`: that file lists `entry`, every other file is unchanged. */
  function WithEntry(files: map<string, seq<string>>, file: string, entry: string): (r: map<string, seq<string>>)
    ensures file in r && entry in r[file]
    ensures file in files && entry in files[file] ==> r == files
    ensures forall k :: k != file ==> (k in r <==> k in files) && (k in files ==> r[k] == files[k])
  {
    files[file := CrossTrainedList(Lookup(files, file), entry)]
  }

  /** The LU driver's update: a dialog `<name>.lu.dialog` adds `<name>.lu`
      to `<name>.lu.qna.dialog`. */
  function LuCrossTrained(files: map<string, seq<string>>, dialogFileName: string): map<string, seq<string>>
  {
    var name := StripSuffix(dialogFileName, ".lu.dialog");
    WithEntry(files, name + ".lu.qna.dialog", name + ".lu")
  }

  /** Writing the same LU dialog again changes nothing more. */
  lemma LuCrossTrainedIdempotent(files: map<string, seq<string>>, dialogFileName: string)
    ensures LuCrossTrained(LuCrossTrained(files, dialogFileName), dialogFileName) == LuCrossTrained(files, dialogFileName)
  {
    var name := StripSuffix(dialogFileName, ".lu.dialog");
    var once := LuCrossTrained(files, dialogFileName);
    assert name + ".lu.qna.dialog" in once && name + ".lu" in once[name + ".lu.qna.dialog"];
  }

  /** The cross-trained dialog a QnA source file feeds: its culture-free
      name followed by `.lu.qna.dialog`. */
  function CrossTrainedName(f: SourceFile): string
  {
    Identify(f, "").name + ".lu.qna.dialog"
  }

  /** The QnA driver's update: `entry` is written into the cross-trained
      dialog of every source file, in order. */
  function QnaCrossTrained(files: map<string, seq<string>>, sources: seq<SourceFile>, entry: string): map<string, seq<string>>
    decreases |sources|
  {
    if sources == [] then files
    else
      var last := sources[|sources| - 1];
      WithEntry(QnaCrossTrained(files, sources[..|sources| - 1], entry), CrossTrainedName(last), entry)
  }

  /** Afterwards the dialog of every source lists `entry`, and every file
      no source names is unchanged. */
  lemma QnaCrossTrainedListed(files: map<string, seq<string>>, sources: seq<SourceFile>, entry: string)
    ensures forall f | f in sources :: CrossTrainedName(f) in QnaCrossTrained(files, sources, entry)
                                    && entry in QnaCrossTrained(files, sources, entry)[CrossTrainedName(f)]
    ensures forall k | k !in set f | f in sources :: CrossTrainedName(f) ::
              (k in QnaCrossTrained(files, sources, entry) <==> k in files)
              && (k in files ==> QnaCrossTrained(files, sources, entry)[k] == files[k])
  {
    QnaCrossTrainedLists(files, sources, entry);
    QnaCrossTrainedKeeps(files, sources, entry);
  }

  lemma {:induction false} QnaCrossTrainedLists(files: map<string, seq<string>>, sources: seq<SourceFile>, entry: string)
    ensures forall f | f in sources :: CrossTrainedName(f) in QnaCrossTrained(files, sources, entry)
                                    && entry in QnaCrossTrained(files, sources, entry)[CrossTrainedName(f)]
    decreases |sources|
  {
    if sources != [] {
      var init, last := sources[..|sources| - 1], sources[|sources| - 1];
      var prev := QnaCrossTrained(files, init, entry);
      var cur := QnaCrossTrained(files, sources, entry);
      QnaCrossTrainedLists(files, init, entry);
      assert cur == WithEntry(prev, CrossTrainedName(last), entry);
      assert sources == init + [last];
      forall f | f in sources
        ensures CrossTrainedName(f) in cur && entry in cur[CrossTrainedName(f)]
      {
        if CrossTrainedName(f) != CrossTrainedName(last) {
          assert f in init;
        }
      }
    }
  }

  lemma {:induction false} QnaCrossTrainedKeeps(files: map<string, seq<string>>, sources: seq<SourceFile>, entry: string)
    ensures forall k | k !in set f | f in sources :: CrossTrainedName(f) ::
              (k in QnaCrossTrained(files, sources, entry) <==> k in files)
              && (k in files ==> QnaCrossTrained(files, sources, entry)[k] == files[k])
    decreases |sources|
  {
    if sources != [] {
      var init, last := sources[..|sources| - 1], sources[|sources| - 1];
      var prev := QnaCrossTrained(files, init, entry);
      var cur := QnaCrossTrained(files, sources, entry);
      QnaCrossTrainedKeeps(files, init, entry);
      assert cur == WithEntry(prev, CrossTrainedName(last), entry);
      assert sources == init + [last];
      forall k | k !in set f | f in sources :: CrossTrainedName(f)
        ensures (k in cur <==> k in files) && (k in files ==> cur[k] == files[k])
      {
        assert k != CrossTrainedName(last);
        assert k !in set f | f in init :: CrossTrainedName(f);
      }
    }
  }

  /** When every source's dialog already lists `entry`, nothing changes. */
  lemma {:induction false} QnaCrossTrainedFixed(files: map<string, seq<string>>, sources: seq<SourceFile>, entry: string)
    requires forall f | f in sources :: CrossTrainedName(f) in files && entry in files[CrossTrainedName(f)]
    ensures QnaCrossTrained(files, sources, entry) == files
    decreases |sources|
  {
    if sources != [] {
      var init := sources[..|sources| - 1];
      assert forall f | f in init :: f in sources;
      QnaCrossTrainedFixed(files, init, entry);
      assert sources[|sources| - 1] in sources;
    }
  }

  /** Writing the same QnA dialog again changes nothing more. */
  lemma QnaCrossTrainedIdempotent(files: map<string, seq<string>>, sources: seq<SourceFile>, entry: string)
    ensures QnaCrossTrained(QnaCrossTrained(files, sources, entry), sources, entry) == QnaCrossTrained(files, sources, entry)
  {
    QnaCrossTrainedListed(files, sources, entry);
    QnaCrossTrainedFixed(QnaCrossTrained(files, sources, entry), sources, entry);
  }

  /** The cross-trained dialogs in the folder the dialogs are written to:
      each `.lu.qna.dialog` file name with its `recognizers` list. */
  class DialogFolder {
    var crossTrained: map<string, seq<string>>

    constructor (crossTrained: map<string, seq<string>>)
      ensures this.crossTrained == crossTrained
    {
      this.crossTrained := crossTrained;
    }

    /** The LU driver's `writeDialog`: for a cross-trained build of a
        multi-language recognizer, its `.lu` entry goes into the matching
        cross-trained dialog. */
    method WriteLuDialog(dialogFileName: string, crossTrainedMultiLanguage: bool)
      modifies this
      ensures crossTrained == if crossTrainedMultiLanguage then LuCrossTrained(old(crossTrained), dialogFileName)
                              else old(crossTrained)
    {
      if crossTrainedMultiLanguage {
        var fileName := StripSuffix(dialogFileName, ".lu.dialog");
        var crossTrainedFileName := fileName + ".lu.qna.dialog";
        if crossTrainedFileName in crossTrained {
          var existing := crossTrained[crossTrainedFileName];
          if fileName + ".lu" !in existing {
            existing := existing + [fileName + ".lu"];
          }
          crossTrained := crossTrained[crossTrainedFileName := existing];
        } else {
          crossTrained := crossTrained[crossTrainedFileName := [fileName + ".lu"]];
        }
      }
    }

    /** The QnA driver's `writeDialog`: for a cross-trained build of a
        multi-language recognizer, the dialog's name goes into the
        cross-trained dialog of every source file. */
    method WriteQnaDialog(dialogFileName: string, sources: seq<SourceFile>, crossTrainedMultiLanguage: bool)
      modifies this
      ensures crossTrained == if crossTrainedMultiLanguage
                              then QnaCrossTrained(old(crossTrained), sources, StripSuffix(dialogFileName, ".dialog"))
                              else old(crossTrained)
    {
      if crossTrainedMultiLanguage {
        var fileName := StripSuffix(dialogFileName, ".dialog");
        var i := 0;
        while i < |sources|
          invariant 0 <= i <= |sources|
          invariant crossTrained == QnaCrossTrained(old(crossTrained), sources[..i], fileName)
        {
          var qnaFileName := Identify(sources[i], "").name;
          var crossTrainedFileName := qnaFileName + ".lu.qna.dialog";
          if crossTrainedFileName in crossTrained {
            var existing := crossTrained[crossTrainedFileName];
            if fileName !in existing {
              existing := existing + [fileName];
            }
            crossTrained := crossTrained[crossTrainedFileName := existing];
          } else {
            crossTrained := crossTrained[crossTrainedFileName := [fileName]];
          }
          assert sources[..i + 1][..i] == sources[..i];
          i := i + 1;
        }
        assert sources[..|sources|] == sources;
      }
    }
  }
}
