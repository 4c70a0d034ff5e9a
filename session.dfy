/**
 * The session glue of src/main.rs: `porcupine` resolves the requested
 * keywords to asset paths, builds the detector configuration, runs the
 * listening loop and stops the recorder; `main` lists the languages and
 * turns the menu's keyword indices into keywords.
 *
 * The panics of `porcupine`, of the language loop of `main` and of its
 * keyword selection are Panic values here; a session that panics ends with
 * it. The panics of `main`'s access-key check, device list and menus are
 * not modelled.
 */
module Session {
  import opened Prelude
  import opened Keywords
  import Utils
  import Capture

  /** The environment variable holding the Picovoice access key. */
  const ACCESS_TOKEN := "ACCESS_TOKEN"

  /** A panic of the session, named after the call that raises it. */
  datatype Panic =
    | KeywordDirMissing(dir: string)    // pv_keyword_paths: read_dir failed
    | KeywordFileMissing                // "Unable to find keyword file for specified keyword"
    | AccessTokenMissing                // env::var("ACCESS_TOKEN").unwrap()
    | ModelDirMissing(dir: string)      // pv_model_paths: read_dir failed
    | DetectorInitFailed                // "Failed to create Porcupine"
    | RecorderInitFailed                // "Failed to initialize pvrecorder"
    | StartFailed                       // "Failed to start audio recording"
    | HandlerFailed                     // "Unable to setup signal handler"
    | LoopPanicked(exit: Capture.Exit)  // a read, process or index panic inside the loop
    | StopFailed                        // "Failed to stop audio recording"
    | LanguageDirMissing(dir: string)   // main: read_dir("./src/keyword") failed
    | EntryUnreadable                   // main: entry.unwrap() or metadata().unwrap()
    | SelectionOutOfRange               // main: Keywords::options()[index]

  /**
   * The keyword-path list handed to the detector: for each requested
   * keyword, in the requested order, the table's path for its identifier;
   * a single missing identifier aborts the whole list.
   */
  function ResolveKeywordPaths(table: map<string, string>, keywords: seq<Keyword>): (r: Result<seq<string>, Panic>)
    ensures r.Ok? <==> forall i :: 0 <= i < |keywords| ==> ToStr(keywords[i]) in table
    ensures r.Err? ==> r.error == KeywordFileMissing
    ensures r.Ok? ==> |r.value| == |keywords|
    ensures r.Ok? ==>
      forall i :: 0 <= i < |keywords| ==> ToStr(keywords[i]) in table && r.value[i] == table[ToStr(keywords[i])]
  {
    if keywords == [] then Ok([])
    else
      var id := ToStr(keywords[0]);
      if id !in table then Err(KeywordFileMissing)
      else
        match ResolveKeywordPaths(table, keywords[1..])
        case Err(e) => Err(e)
        case Ok(rest) =>
          assert forall i :: 0 < i < |keywords| ==> keywords[i] == keywords[1..][i - 1];
          Ok([table[id]] + rest)
  }

  /**
   * `if let Some(model_path) = default_model_paths.get(language)`: the model
   * path is set exactly when the language has a model file; otherwise the
   * builder is left as it was and the engine's built-in model is used.
   */
  function WithModelPath(config: Capture.DetectorConfig, models: map<string, string>, language: string)
    : (r: Capture.DetectorConfig)
    ensures r.accessKey == config.accessKey && r.keywordPaths == config.keywordPaths
    ensures language in models ==> r.modelPath == Some(models[language])
    ensures language !in models ==> r == config
  {
    if language in models then config.(modelPath := Some(models[language])) else config
  }

  /** The keyword scan the session runs for `language` on `target`. */
  function KeywordScanFor(target: Utils.Target, language: string): Utils.Scan {
    Utils.KeywordScan(Utils.KeywordFilePattern(language, Utils.PvPlatform(target)))
  }

  /** What `porcupine` hands to `PorcupineBuilder::init`, or the panic that comes first. */
  function Configure(fs: Utils.FileSystem, target: Utils.Target, env: map<string, string>,
                     language: string, keywords: seq<Keyword>): (r: Result<Capture.DetectorConfig, Panic>)
    ensures Utils.KeywordDir(language) !in fs ==> r == Err(KeywordDirMissing(Utils.KeywordDir(language)))
    ensures r.Ok? <==>
      && Utils.KeywordDir(language) in fs
      && (forall i :: 0 <= i < |keywords| ==>
            ToStr(keywords[i]) in Utils.Table(KeywordScanFor(target, language), fs[Utils.KeywordDir(language)]))
      && ACCESS_TOKEN in env
      && Utils.MODEL_DIR in fs
    ensures r.Err? ==>
      r.error in {KeywordDirMissing(Utils.KeywordDir(language)), KeywordFileMissing, AccessTokenMissing,
                  ModelDirMissing(Utils.MODEL_DIR)}
  {
    var dir := Utils.KeywordDir(language);
    if dir !in fs then Err(KeywordDirMissing(dir))
    else
      match ResolveKeywordPaths(Utils.Table(KeywordScanFor(target, language), fs[dir]), keywords)
      case Err(e) => Err(e)
      case Ok(paths) =>
        if ACCESS_TOKEN !in env then Err(AccessTokenMissing)
        else if Utils.MODEL_DIR !in fs then Err(ModelDirMissing(Utils.MODEL_DIR))
        else
          var models := Utils.Table(Utils.ModelScan, fs[Utils.MODEL_DIR]);
          Ok(WithModelPath(Capture.DetectorConfig(env[ACCESS_TOKEN], paths, None), models, language))
  }

  /**
   * What a successful configuration holds: the i-th keyword path is the
   * path of the last file in the language's keyword directory recorded
   * under the i-th requested keyword, and a model path is present exactly
   * when some file of the model directory carries the language's code.
   */
  lemma ConfiguredPaths(fs: Utils.FileSystem, target: Utils.Target, env: map<string, string>,
                        language: string, keywords: seq<Keyword>)
    requires Configure(fs, target, env, language, keywords).Ok?
    ensures var config := Configure(fs, target, env, language, keywords).value;
      var items := fs[Utils.KeywordDir(language)];
      && |config.keywordPaths| == |keywords|
      && (forall i :: 0 <= i < |keywords| ==>
            exists j :: Utils.LastRecordedAt(KeywordScanFor(target, language), items, ToStr(keywords[i]), j)
                        && config.keywordPaths[i] == items[j].path)
      && config.accessKey == env[ACCESS_TOKEN]
      && (config.modelPath.Some? <==>
            exists j :: 0 <= j < |fs[Utils.MODEL_DIR]| && Utils.SlotOf(Utils.ModelScan, fs[Utils.MODEL_DIR][j]) == Some(language))
      && (config.modelPath.Some? ==>
            exists j :: Utils.LastRecordedAt(Utils.ModelScan, fs[Utils.MODEL_DIR], language, j)
                        && config.modelPath.value == fs[Utils.MODEL_DIR][j].path)
  {
    var config := Configure(fs, target, env, language, keywords).value;
    var scan := KeywordScanFor(target, language);
    var items := fs[Utils.KeywordDir(language)];
    forall i | 0 <= i < |keywords|
      ensures exists j :: Utils.LastRecordedAt(scan, items, ToStr(keywords[i]), j) && config.keywordPaths[i] == items[j].path
    {
      Utils.TableLastWins(scan, items, ToStr(keywords[i]));
    }
    Utils.TableDomain(Utils.ModelScan, fs[Utils.MODEL_DIR], language);
    if config.modelPath.Some? {
      Utils.TableLastWins(Utils.ModelScan, fs[Utils.MODEL_DIR], language);
    }
  }

  /** Resolution fails on a missing keyword file exactly when some requested keyword has no recorded file. */
  lemma MissingKeywordFile(fs: Utils.FileSystem, target: Utils.Target, env: map<string, string>,
                           language: string, keywords: seq<Keyword>)
    requires Utils.KeywordDir(language) in fs
    ensures var items := fs[Utils.KeywordDir(language)];
      Configure(fs, target, env, language, keywords) == Err(KeywordFileMissing) <==>
        exists i :: 0 <= i < |keywords| &&
          forall j :: 0 <= j < |items| ==> Utils.SlotOf(KeywordScanFor(target, language), items[j]) != Some(ToStr(keywords[i]))
  {
    var scan := KeywordScanFor(target, language);
    var items := fs[Utils.KeywordDir(language)];
    forall i | 0 <= i < |keywords| {
      Utils.TableDomain(scan, items, ToStr(keywords[i]));
    }
  }

  /** What the SDK calls of a session answer, apart from the per-pass reads and answers. */
  datatype Sdk = Sdk(
    detectorInitOk: bool,
    frameLength: int,
    recorderInitOk: bool,
    startOk: bool,
    handlerOk: bool,
    stopOk: bool)

  /** The first SDK call before the loop that fails, in the order `porcupine` makes them. */
  function StartupPanic(sdk: Sdk): (r: Option<Panic>)
    ensures r.None? <==> sdk.detectorInitOk && sdk.recorderInitOk && sdk.startOk && sdk.handlerOk
    ensures r.Some? ==> r.value in {DetectorInitFailed, RecorderInitFailed, StartFailed, HandlerFailed}
  {
    if !sdk.detectorInitOk then Some(DetectorInitFailed)
    else if !sdk.recorderInitOk then Some(RecorderInitFailed)
    else if !sdk.startOk then Some(StartFailed)
    else if !sdk.handlerOk then Some(HandlerFailed)
    else None
  }

  /** How a session ends. */
  datatype SessionEnd = Panicked(reason: Panic) | Stopped | StillListening

  /** How a session whose loop was left by `exit` ends. */
  function EndAfterLoop(exit: Capture.Exit, stopOk: bool): (r: SessionEnd)
    ensures r == Stopped <==> exit == Capture.FlagCleared && stopOk
    ensures r == StillListening <==> exit == Capture.Unfinished
    ensures r == Panicked(StopFailed) <==> exit == Capture.FlagCleared && !stopOk
    ensures r.Panicked? && r.reason != StopFailed ==> r.reason == LoopPanicked(exit)
  {
    match exit
    case FlagCleared => if stopOk then Stopped else Panicked(StopFailed)
    case Unfinished => StillListening
    case _ => Panicked(LoopPanicked(exit))
  }

  /**
   * `porcupine`: configures the detector, opens and starts the recorder,
   * runs the listening loop and, once the loop is left through the flag,
   * stops the recorder exactly once. The detections are the detector's
   * answers mapped onto the requested keywords in the requested order,
   * which is also the order of the keyword paths the detector was given.
   */
  method Porcupine(fs: Utils.FileSystem, target: Utils.Target, env: map<string, string>, deviceIndex: int,
                   language: string, keywords: seq<Keyword>, sdk: Sdk, ticks: seq<Capture.Tick>)
    returns (config: Result<Capture.DetectorConfig, Panic>, emitted: seq<Keyword>, end: SessionEnd,
             readCalls: nat, stopCalls: nat)
    ensures config == Configure(fs, target, env, language, keywords)
    ensures config.Err? ==> end == Panicked(config.error) && emitted == [] && readCalls == 0 && stopCalls == 0
    ensures config.Ok? && StartupPanic(sdk).Some? ==>
      end == Panicked(StartupPanic(sdk).value) && emitted == [] && readCalls == 0 && stopCalls == 0
    ensures config.Ok? && StartupPanic(sdk).None? ==>
      var run := Capture.Listen(keywords, ticks);
      && emitted == run.emitted
      && end == EndAfterLoop(run.exit, sdk.stopOk)
      && readCalls == Capture.ReadCalls(run)
    ensures stopCalls <= 1
    ensures stopCalls == 1 <==>
      config.Ok? && StartupPanic(sdk).None? && Capture.Listen(keywords, ticks).exit == Capture.FlagCleared
  {
    emitted, end, readCalls, stopCalls := [], StillListening, 0, 0;
    var keywordPaths := Utils.PvKeywordPaths(fs, target, language);
    if keywordPaths.Err? {
      config := Err(KeywordDirMissing(keywordPaths.error.dir));
      end := Panicked(config.error);
      return;
    }
    var paths := ResolveKeywordPaths(keywordPaths.value, keywords);
    if paths.Err? {
      config := Err(paths.error);
      end := Panicked(config.error);
      return;
    }
    if ACCESS_TOKEN !in env {
      config := Err(AccessTokenMissing);
      end := Panicked(config.error);
      return;
    }
    var builder := Capture.DetectorConfig(env[ACCESS_TOKEN], paths.value, None);
    var modelPaths := Utils.PvModelPaths(fs);
    if modelPaths.Err? {
      config := Err(ModelDirMissing(modelPaths.error.dir));
      end := Panicked(config.error);
      return;
    }
    builder := WithModelPath(builder, modelPaths.value, language);
    config := Ok(builder);

    if !sdk.detectorInitOk {
      end := Panicked(DetectorInitFailed);
      return;
    }
    var detector := new Capture.Detector(builder, sdk.frameLength);
    if !sdk.recorderInitOk {
      end := Panicked(RecorderInitFailed);
      return;
    }
    var recorder := new Capture.Recorder(detector.frameLength, deviceIndex);
    var started := recorder.Start(sdk.startOk);
    if !started {
      end := Panicked(StartFailed);
      return;
    }
    if !sdk.handlerOk {
      end := Panicked(HandlerFailed);
      return;
    }
    var exit;
    emitted, exit := Capture.ListenLoop(recorder, detector, keywords, ticks);
    if exit == Capture.FlagCleared {
      var stopped := recorder.Stop(sdk.stopOk);
      end := if stopped then Stopped else Panicked(StopFailed);
    } else {
      end := EndAfterLoop(exit, sdk.stopOk);
    }
    readCalls, stopCalls := recorder.readCalls, recorder.stopCalls;
  }

  /**
   * The `.map(|&index| Keywords::from_str(Keywords::options()[index]).unwrap())`
   * of `main`: each menu index, in order, becomes the keyword listed there;
   * an index past the menu panics. The `unwrap` never panics, since every
   * option parses.
   */
  function SelectKeywords(indices: seq<nat>): (r: Result<seq<Keyword>, Panic>)
    ensures r.Ok? <==> forall i :: 0 <= i < |indices| ==> indices[i] < |Options()|
    ensures r.Err? ==> r.error == SelectionOutOfRange
    ensures r.Ok? ==> |r.value| == |indices|
    ensures r.Ok? ==>
      forall i :: 0 <= i < |indices| ==> indices[i] < |Options()| && ToStr(r.value[i]) == Options()[indices[i]]
  {
    if indices == [] then Ok([])
    else if indices[0] >= |Options()| then Err(SelectionOutOfRange)
    else
      var option := Options()[indices[0]];
      var keyword := FromStr(option).value;
      ParseIsInverse(option);
      match SelectKeywords(indices[1..])
      case Err(e) => Err(e)
      case Ok(rest) =>
        assert forall i :: 0 < i < |indices| ==> indices[i] == indices[1..][i - 1];
        Ok([keyword] + rest)
  }

  /** The names of the subdirectories among `items`, in listing order. */
  function SubdirNames(items: seq<Utils.DirItem>): (r: seq<string>)
    ensures |r| <= |items|
    ensures forall x :: x in r <==>
      exists i :: 0 <= i < |items| && items[i].Entry? && items[i].isDir && items[i].name == x
  {
    if items == [] then []
    else
      var n := |items| - 1;
      var before := SubdirNames(items[..n]);
      assert forall i :: 0 <= i < n ==> items[..n][i] == items[i];
      if items[n].Entry? && items[n].isDir then before + [items[n].name] else before
  }

  /**
   * Listing order is kept: the names found in two listings one after the
   * other are those of the first followed by those of the second.
   */
  lemma {:induction false} SubdirNamesConcat(a: seq<Utils.DirItem>, b: seq<Utils.DirItem>)
    ensures SubdirNames(a + b) == SubdirNames(a) + SubdirNames(b)
    decreases |b|
  {
    if b == [] {
      assert a + b == a;
    } else {
      var n := |b| - 1;
      assert (a + b)[..|a| + n] == a + b[..n];
      assert (a + b)[|a| + n] == b[n];
      SubdirNamesConcat(a, b[..n]);
    }
  }

  /** A single entry contributes its name exactly when it is a directory. */
  lemma SubdirNamesOne(item: Utils.DirItem)
    ensures SubdirNames([item]) == if item.Entry? && item.isDir then [item.name] else []
  {
    assert [item][..0] == [];
  }

  /**
   * The language loop of `main`: the names of the subdirectories of
   * `./src/keyword`, in listing order; an unreadable entry panics, and so
   * does a missing directory.
   */
  method ListLanguages(fs: Utils.FileSystem) returns (r: Result<seq<string>, Panic>)
    ensures Utils.KEYWORD_ROOT !in fs ==> r == Err(LanguageDirMissing(Utils.KEYWORD_ROOT))
    ensures Utils.KEYWORD_ROOT in fs && Utils.Unreadable in fs[Utils.KEYWORD_ROOT] ==> r == Err(EntryUnreadable)
    ensures Utils.KEYWORD_ROOT in fs && Utils.Unreadable !in fs[Utils.KEYWORD_ROOT] ==>
      r == Ok(SubdirNames(fs[Utils.KEYWORD_ROOT]))
  {
    var dir := Utils.KEYWORD_ROOT;
    if dir !in fs {
      return Err(LanguageDirMissing(dir));
    }
    var items := fs[dir];
    var languages: seq<string> := [];
    for i := 0 to |items|
      invariant Utils.Unreadable !in items[..i]
      invariant languages == SubdirNames(items[..i])
    {
      assert items[..i + 1][..i] == items[..i];
      var item := items[i];
      if item.Unreadable? {
        return Err(EntryUnreadable);
      }
      if item.isDir {
        languages := languages + [item.name];
      }
    }
    assert items[..|items|] == items;
    return Ok(languages);
  }
}
