/**
 * Asset discovery (src/utils.rs): the platform name, and the two directory
 * scans that map keyword identifiers and language codes to the paths of
 * the asset files the detector is configured with.
 *
 * The filesystem is a map from a directory path to its listing, in the
 * order `read_dir` yields it; a directory that is not a key of the map
 * cannot be opened. Both scans return the table they fill, or the error
 * the source reports with a panic when its directory cannot be opened.
 */
module Utils {
  import opened Prelude
  import Strings

  /** The build targets for which `pv_platform` is defined; the crate does not build for any other. */
  datatype Target = MacOs | Windows | LinuxX64

  /** One item of a directory listing: an entry, or an error in its place. */
  datatype DirItem =
    | Entry(name: string, path: string, isDir: bool)
    | Unreadable

  /** Directory path to its listing, in iteration order. */
  type FileSystem = map<string, seq<DirItem>>

  /** `read_dir` failed on `dir`; the source panics with "Can't find default ... dir". */
  datatype DirError = DirNotFound(dir: string)

  const KEYWORD_ROOT := "./src/keyword"
  const MODEL_DIR := "./src/model"

  /** `pv_platform`: the Picovoice name of the target the program was built for. */
  function PvPlatform(target: Target): (r: string)
    ensures r in {"mac", "windows", "linux"}
    ensures r == "mac" <==> target == MacOs
    ensures r == "windows" <==> target == Windows
  {
    match target
    case MacOs => "mac"
    case Windows => "windows"
    case LinuxX64 => "linux"
  }

  /** The per-language keyword directory, `./src/keyword/{language}`. */
  function KeywordDir(language: string): string {
    KEYWORD_ROOT + "/" + language
  }

  /** The file-name pattern `_{language}_{platform}.ppn`. */
  function KeywordFilePattern(language: string, platform: string): (r: string)
    ensures |r| > 0 && r[0] == '_'
  {
    "_" + language + "_" + platform + ".ppn"
  }

  /** The guard of the keyword scan: the name contains the pattern and is longer in bytes. */
  predicate KeywordFileMatches(name: string, pattern: string) {
    Strings.Contains(name, pattern) && Strings.Utf8Len(name) > Strings.Utf8Len(pattern)
  }

  /** `name.split('_').next()`: the keyword identifier of a keyword file. */
  function KeywordKey(name: string): (r: string)
    ensures r <= name && '_' !in r
    ensures |r| < |name| ==> name[|r|] == '_'
  {
    Strings.FirstPiece(name, '_')
  }

  /** `name.split('_').last()` then `.split('.').next()`: the language code of a model file. */
  function ModelKey(name: string): (r: string)
    ensures '_' !in r && '.' !in r
    ensures Strings.Contains(name, r)
  {
    var last := Strings.LastPiece(name, '_');
    var r := Strings.FirstPiece(last, '.');
    assert r <= name[|name| - |last|..];
    r
  }

  /** Which of the two scans builds a table. */
  datatype Scan = KeywordScan(pattern: string) | ModelScan

  /**
   * The key under which a scan records an item, or None when it skips the
   * item. Both scans go through `flatten()`, which drops unreadable items;
   * the keyword scan also drops names that fail its guard.
   */
  function SlotOf(scan: Scan, item: DirItem): Option<string> {
    if item.Unreadable? then None
    else
      match scan
      case KeywordScan(pattern) =>
        if KeywordFileMatches(item.name, pattern) then Some(KeywordKey(item.name)) else None
      case ModelScan => Some(ModelKey(item.name))
  }

  /** One `insert(key, path)` on the table. */
  datatype Insert = Insert(key: string, path: string)

  /** Whether `op` is an insert under `key`. */
  predicate InsertsUnder(op: Option<Insert>, key: string) {
    op.Some? && op.value.key == key
  }

  /** The map after performing the inserts in order; a later insert under a key replaces an earlier one. */
  function Applied(ops: seq<Option<Insert>>): map<string, string> {
    if ops == [] then map[]
    else
      var before := Applied(ops[..|ops| - 1]);
      match ops[|ops| - 1]
      case Some(op) => before[op.key := op.path]
      case None => before
  }

  /** Insert `i` is the last insert under `key`. */
  predicate LastInsertAt(ops: seq<Option<Insert>>, key: string, i: int) {
    && 0 <= i < |ops|
    && InsertsUnder(ops[i], key)
    && forall j :: i < j < |ops| ==> !InsertsUnder(ops[j], key)
  }

  /** The applied map holds a key exactly when some insert was made under it. */
  lemma {:induction false} AppliedDomain(ops: seq<Option<Insert>>, key: string)
    ensures key in Applied(ops) <==> exists i :: 0 <= i < |ops| && InsertsUnder(ops[i], key)
  {
    if ops != [] {
      var n := |ops| - 1;
      var init := ops[..n];
      AppliedDomain(init, key);
      if key in Applied(ops) {
        if !InsertsUnder(ops[n], key) {
          assert key in Applied(init);
          var i :| 0 <= i < n && InsertsUnder(init[i], key);
          assert ops[i] == init[i];
        }
      } else {
        forall i | 0 <= i < |ops|
          ensures !InsertsUnder(ops[i], key)
        {
          if i < n {
            assert ops[i] == init[i];
          }
        }
      }
    }
  }

  /** For a key it holds, the applied map gives the path of the last insert under that key. */
  lemma {:induction false} AppliedLastWins(ops: seq<Option<Insert>>, key: string)
    requires key in Applied(ops)
    ensures exists i :: LastInsertAt(ops, key, i) && Applied(ops)[key] == ops[i].value.path
  {
    var n := |ops| - 1;
    var init := ops[..n];
    if InsertsUnder(ops[n], key) {
      assert LastInsertAt(ops, key, n);
    } else {
      assert key in Applied(init);
      AppliedLastWins(init, key);
      var i :| LastInsertAt(init, key, i) && Applied(init)[key] == init[i].value.path;
      forall j | i < j < |ops|
        ensures !InsertsUnder(ops[j], key)
      {
        if j < n {
          assert ops[j] == init[j];
        }
      }
      assert ops[i] == init[i];
      assert LastInsertAt(ops, key, i);
    }
  }

  /** The insert a scan makes for one item, if any. */
  function InsertOf(scan: Scan, item: DirItem): Option<Insert> {
    match SlotOf(scan, item)
    case Some(key) => Some(Insert(key, item.path))
    case None => None
  }

  /** The inserts a scan makes on the items, in scan order. */
  function InsertsOf(scan: Scan, items: seq<DirItem>): (ops: seq<Option<Insert>>)
    ensures |ops| == |items|
    ensures forall i :: 0 <= i < |items| ==> ops[i] == InsertOf(scan, items[i])
  {
    if items == [] then []
    else
      var n := |items| - 1;
      var before := InsertsOf(scan, items[..n]);
      assert forall i :: 0 <= i < n ==> items[..n][i] == items[i];
      before + [InsertOf(scan, items[n])]
  }

  /** The table a scan fills from the items, in scan order. */
  function Table(scan: Scan, items: seq<DirItem>): map<string, string> {
    Applied(InsertsOf(scan, items))
  }

  /** Item `i` is the last item recorded under `key`. */
  predicate LastRecordedAt(scan: Scan, items: seq<DirItem>, key: string, i: int) {
    && 0 <= i < |items|
    && SlotOf(scan, items[i]) == Some(key)
    && forall j :: i < j < |items| ==> SlotOf(scan, items[j]) != Some(key)
  }

  /** Recording under `key` is inserting under `key`. */
  lemma RecordedIsInserted(scan: Scan, item: DirItem, key: string)
    ensures SlotOf(scan, item) == Some(key) <==> InsertsUnder(InsertOf(scan, item), key)
  {
  }

  /** A table holds a key exactly when some item was recorded under it. */
  lemma TableDomain(scan: Scan, items: seq<DirItem>, key: string)
    ensures key in Table(scan, items) <==> exists i :: 0 <= i < |items| && SlotOf(scan, items[i]) == Some(key)
  {
    var ops := InsertsOf(scan, items);
    AppliedDomain(ops, key);
    forall i | 0 <= i < |items| {
      RecordedIsInserted(scan, items[i], key);
    }
  }

  /** For a key it holds, a table gives the path of the last item recorded under that key. */
  lemma TableLastWins(scan: Scan, items: seq<DirItem>, key: string)
    requires key in Table(scan, items)
    ensures exists i :: LastRecordedAt(scan, items, key, i) && Table(scan, items)[key] == items[i].path
  {
    var ops := InsertsOf(scan, items);
    AppliedLastWins(ops, key);
    var i :| LastInsertAt(ops, key, i) && Applied(ops)[key] == ops[i].value.path;
    forall j | 0 <= j < |items| {
      RecordedIsInserted(scan, items[j], key);
    }
    assert LastRecordedAt(scan, items, key, i);
  }

  /** Every value of a table is the path of a recorded item; every recorded item's key is present. */
  lemma TableValuesAreRecordedPaths(scan: Scan, items: seq<DirItem>)
    ensures forall key :: key in Table(scan, items) ==>
      exists i :: 0 <= i < |items| && SlotOf(scan, items[i]) == Some(key) && items[i].path == Table(scan, items)[key]
    ensures forall i :: 0 <= i < |items| && SlotOf(scan, items[i]).Some? ==> SlotOf(scan, items[i]).value in Table(scan, items)
  {
    forall key | key in Table(scan, items)
      ensures exists i :: 0 <= i < |items| && SlotOf(scan, items[i]) == Some(key) && items[i].path == Table(scan, items)[key]
    {
      TableLastWins(scan, items, key);
    }
    forall i | 0 <= i < |items| && SlotOf(scan, items[i]).Some?
      ensures SlotOf(scan, items[i]).value in Table(scan, items)
    {
      TableDomain(scan, items, SlotOf(scan, items[i]).value);
    }
  }

  /**
   * The keyword scan's guard and key: an entry is recorded exactly when its
   * name contains the pattern and is not the pattern itself, and its key is
   * the text before the first `_`, which is shorter than the name, holds no
   * `_`, and is empty when the name starts with `_`.
   */
  lemma KeywordSlot(language: string, platform: string, item: DirItem)
    ensures var pattern := KeywordFilePattern(language, platform);
      SlotOf(KeywordScan(pattern), item).Some? <==>
        item.Entry? && Strings.Contains(item.name, pattern) && |item.name| > |pattern|
    ensures var pattern := KeywordFilePattern(language, platform);
      SlotOf(KeywordScan(pattern), item).Some? ==>
        var key := SlotOf(KeywordScan(pattern), item).value;
        && key == item.name[..|key|]
        && Strings.IsFirstPiece(item.name, '_', key)
        && '_' !in key
        && |key| < |item.name|
        && (item.name[0] == '_' ==> key == "")
  {
    var pattern := KeywordFilePattern(language, platform);
    if item.Entry? && Strings.Contains(item.name, pattern) {
      Strings.LongerInBytesIffInChars(item.name, pattern);
      var i :| 0 <= i <= |item.name| && pattern <= item.name[i..];
      assert item.name[i] == '_';
      assert '_' in item.name;
    }
  }

  /** The guard rejects a name equal to the pattern, which leaves no keyword in front of it. */
  lemma PatternAloneIsSkipped(language: string, platform: string, path: string, isDir: bool)
    ensures var pattern := KeywordFilePattern(language, platform);
      SlotOf(KeywordScan(pattern), Entry(pattern, path, isDir)) == None
  {
    KeywordSlot(language, platform, Entry(KeywordFilePattern(language, platform), path, isDir));
  }

  /**
   * A file named after the documented layout, `{keyword}_{language}_{platform}.ppn`,
   * is recorded under `keyword` whenever the keyword is non-empty and has no `_`.
   */
  lemma KeywordFileOfLayout(keyword: string, language: string, platform: string, path: string, isDir: bool)
    requires keyword != [] && '_' !in keyword
    ensures var pattern := KeywordFilePattern(language, platform);
      SlotOf(KeywordScan(pattern), Entry(keyword + pattern, path, isDir)) == Some(keyword)
  {
    var pattern := KeywordFilePattern(language, platform);
    var name := keyword + pattern;
    assert name[|keyword|..] == pattern;
    assert Strings.Contains(name, pattern);
    KeywordSlot(language, platform, Entry(name, path, isDir));
    assert Strings.IsFirstPiece(name, '_', keyword) by {
      assert name[..|keyword|] == keyword;
      assert name[|keyword|] == pattern[0];
    }
    Strings.FirstPieceUnique(name, '_', keyword);
  }

  /**
   * The model scan's key: the last `_`-separated piece of the name cut at
   * its first `.`; every readable entry is recorded.
   */
  lemma ModelSlot(item: DirItem)
    ensures SlotOf(ModelScan, item).Some? <==> item.Entry?
    ensures item.Entry? ==>
      var key := SlotOf(ModelScan, item).value;
      && Strings.IsFirstPiece(Strings.LastPiece(item.name, '_'), '.', key)
      && '_' !in key && '.' !in key
  {
  }

  /** A name without `_` is cut at its first `.` only. */
  lemma ModelKeyWithoutSeparator(name: string)
    requires '_' !in name
    ensures ModelKey(name) == Strings.FirstPiece(name, '.')
  {
    assert Strings.IsLastPiece(name, '_', name) by {
      assert name[|name| - |name|..] == name;
    }
    Strings.LastPieceUnique(name, '_', name);
  }

  /**
   * A model file named `{prefix}_{language}.{extension}` carries the code
   * `language`, whatever `prefix` holds, when neither `language` nor
   * `extension` has a `_` and `language` has no `.`.
   */
  lemma ModelKeyOfLayout(prefix: string, language: string, extension: string)
    requires '_' !in language && '.' !in language && '_' !in extension
    ensures ModelKey(prefix + "_" + language + "." + extension) == language
  {
    var name := prefix + "_" + language + "." + extension;
    var last := language + "." + extension;
    assert Strings.IsLastPiece(name, '_', last) by {
      assert name == (prefix + "_") + last;
      assert name[|name| - |last|..] == last;
      assert name[|name| - |last| - 1] == '_';
    }
    Strings.LastPieceUnique(name, '_', last);
    assert Strings.IsFirstPiece(last, '.', language) by {
      assert last[..|language|] == language;
      assert last[|language|] == '.';
    }
    Strings.FirstPieceUnique(last, '.', language);
  }

  /** `a_b_de.pv` is the model file of language `de`. */
  lemma ModelKeyExample()
    ensures ModelKey("a_b_de.pv") == "de"
  {
    ModelKeyOfLayout("a_b", "de", "pv");
    assert "a_b" + "_" + "de" + "." + "pv" == "a_b_de.pv";
  }

  /** Scanning one more item performs that item's insert on the table. */
  lemma TableStep(scan: Scan, items: seq<DirItem>, i: nat)
    requires i < |items|
    ensures Table(scan, items[..i + 1]) ==
      match InsertOf(scan, items[i])
      case Some(op) => Table(scan, items[..i])[op.key := op.path]
      case None => Table(scan, items[..i])
  {
    var ops := InsertsOf(scan, items[..i + 1]);
    assert items[..i + 1][..i] == items[..i];
    assert ops[..i] == InsertsOf(scan, items[..i]);
  }

  /**
   * `pv_keyword_paths`: scans `./src/keyword/{language}` and maps each
   * keyword identifier to the path of its file for this language and
   * platform; on a duplicate identifier the entry scanned last wins.
   */
  method PvKeywordPaths(fs: FileSystem, target: Target, language: string)
    returns (r: Result<map<string, string>, DirError>)
    ensures r.Err? <==> KeywordDir(language) !in fs
    ensures r.Err? ==> r.error == DirNotFound(KeywordDir(language))
    ensures r.Ok? ==>
      r.value == Table(KeywordScan(KeywordFilePattern(language, PvPlatform(target))), fs[KeywordDir(language)])
  {
    var platform := PvPlatform(target);
    var pattern := KeywordFilePattern(language, platform);
    var dir := KeywordDir(language);
    if dir !in fs {
      return Err(DirNotFound(dir));
    }
    var items := fs[dir];
    var keywordPaths: map<string, string> := map[];
    for i := 0 to |items|
      invariant keywordPaths == Table(KeywordScan(pattern), items[..i])
    {
      TableStep(KeywordScan(pattern), items, i);
      var item := items[i];
      if item.Entry? {
        var name := item.name;
        if Strings.Contains(name, pattern) && Strings.Utf8Len(name) > Strings.Utf8Len(pattern) {
          var keyword := Strings.FirstPiece(name, '_');
          keywordPaths := keywordPaths[keyword := item.path];
        }
      }
    }
    assert items[..|items|] == items;
    return Ok(keywordPaths);
  }

  /**
   * `pv_model_paths`: scans `./src/model` and maps each language code to
   * the path of its model file; on a duplicate code the entry scanned last
   * wins.
   */
  method PvModelPaths(fs: FileSystem) returns (r: Result<map<string, string>, DirError>)
    ensures r.Err? <==> MODEL_DIR !in fs
    ensures r.Err? ==> r.error == DirNotFound(MODEL_DIR)
    ensures r.Ok? ==> r.value == Table(ModelScan, fs[MODEL_DIR])
  {
    var dir := MODEL_DIR;
    if dir !in fs {
      return Err(DirNotFound(dir));
    }
    var items := fs[dir];
    var modelPaths: map<string, string> := map[];
    for i := 0 to |items|
      invariant modelPaths == Table(ModelScan, items[..i])
    {
      TableStep(ModelScan, items, i);
      var item := items[i];
      if item.Entry? {
        var language := Strings.LastPiece(item.name, '_');
        language := Strings.FirstPiece(language, '.');
        modelPaths := modelPaths[language := item.path];
      }
    }
    assert items[..|items|] == items;
    return Ok(modelPaths);
  }
}
