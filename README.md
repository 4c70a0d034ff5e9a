# Porcupine wake-word demo in Dafny

A model of a small Rust command-line demo for the Picovoice Porcupine
wake-word engine. In the program:

- The user picks an audio input device, a language and a set of wake words
  (`Keywords`).
- The program finds the keyword files (`.ppn`) for that language and the
  current platform under `./src/keyword/{language}`.
- It finds the language model files (`.pv`) under `./src/model`.
- It builds the detector from those files and the `ACCESS_TOKEN` access key,
  then runs a listening loop until Ctrl-C clears the `LISTENING` flag.
- Each pass of that loop reads one audio frame, hands it to the detector and
  reports the wake word whose index the detector answers.

The project has these modules, one per source concern:

- `Prelude` (prelude.dfy) holds `Option` and `Result`.
- `Strings` (strings.dfy) holds the Rust `str` operations the scanner uses:
  - `contains`;
  - `split` on a `char`, exactly as Rust's iterator does it (a split always
    yields at least one piece), with `next()` and `last()` on the result;
  - `len()` in UTF-8 bytes.
- `Keywords` (keywords.dfy) is the `Keywords` enum and its string codec.
- `Utils` (utils.dfy) is `src/utils.rs`: `pv_platform`, `pv_keyword_paths`
  and `pv_model_paths`.
  - Directory listings are a `FileSystem`: a map from a directory path to its
    entries in `read_dir` order. `Unreadable` marks an item that
    `read_dir` yields as an error. In the language listing of `main` it also
    stands for an entry whose `metadata()` call fails (src/main.rs:99-100).
  - Both scans are loops that insert into a map. Each is proved equal, on
    every listing, to `Table`: a fold of the same inserts.
  - The lemmas about `Table` state what the map holds: its keys, and the fact
    that the last entry scanned under a key wins.
- `Capture` (capture.dfy) is the listening loop of `porcupine`.
  - The recorder and the detector are classes that count the calls made on
    them.
  - What the SDK returns on each pass arrives as a `Tick`: what the flag
    check saw, what `read` returned and what `process` answered.
  - `ListenLoop` is proved equal to the loop-free function `Listen`, and
    `ListenCharacterised` states exactly what a run does.
- `Session` (session.dfy) is the rest of `porcupine` and the parts of `main`
  that compute something:
  - resolving keywords to paths and building the detector configuration;
  - the order of the SDK calls, and stopping the recorder exactly once;
  - listing the language directories;
  - turning menu indices into keywords.

Every `expect`, `unwrap` and `panic!` of the modelled code is an error value,
except the `unwrap` calls on non-UTF-8 file names listed under "Left out":
- `DirError`, when a scan cannot open its directory;
- `Session.Panic`, for every panic of `porcupine` and `main`;
- `Capture.Exit`, for a panic inside the loop.

Details of the code's behaviour that the model follows:
- A missing asset directory is a panic, not an empty table.
- Keyword files are matched by containing `_{language}_{platform}.ppn` and
  being longer than it in bytes. The key is the text before the first `_`,
  so a name that starts with `_` is recorded under the empty key.
- Every readable entry of the model directory is recorded. A file such as
  `porcupine_params.pv` is recorded under `params`.
- `src/keywords.rs` is not compiled into the program: `main.rs` declares
  only `mod utils` (src/main.rs:15) and defines its own copy of the enum
  (src/main.rs:129-155). The two texts are identical, and one `Keywords`
  module models both.

## Model

| member | source | states |
|---|---|---|
| Keywords.FromStr | src/keywords.rs:11-16 | parsing succeeds exactly on "position", and then yields `Position`; every other string is `Err(())` |
| Keywords.ToStr | src/keywords.rs:20-24 | the identifier of a variant parses back to that variant |
| Keywords.Options | src/keywords.rs:26-28 | every listed identifier parses, and every variant's identifier is listed |
| Keywords.ParseIsInverse | src/keywords.rs:11-24 | whatever parses is the identifier of the variant it parses to |
| Keywords.OptionsListEachVariantOnce | src/keywords.rs:26-28 | the menu lists each variant's identifier exactly once and nothing else |
| Strings.Contains | src/utils.rs:38 | definition: `s.contains(pat)` holds when some window of `s` equals `pat` |
| Strings.Split | src/utils.rs:41 | `split` yields at least one piece, no piece holds the separator, and joining the pieces with the separator gives the input back |
| Strings.SplitPrefix | src/utils.rs:41 | putting text without a separator in front only extends the first piece |
| Strings.SplitAtSeparator | src/utils.rs:41 | a leading separator yields an empty first piece and leaves the rest of the split alone |
| Strings.SplitJoin | src/utils.rs:41 | splitting the join of separator-free pieces gives the pieces back, so `split` is the inverse of join |
| Strings.JoinHead | src/utils.rs:41 | the first piece is a prefix of the joined text, and a separator follows it when more pieces follow |
| Strings.JoinTail | src/utils.rs:63 | the last piece is a suffix of the joined text, with a separator before it when there are several pieces |
| Strings.FirstPiece | src/utils.rs:41 | `split(sep).next()` is a prefix of the input without `sep`, followed by `sep` when it is shorter than the input |
| Strings.LastPiece | src/utils.rs:63 | `split(sep).last()` is a suffix of the input without `sep`, preceded by `sep` when it is shorter than the input |
| Strings.FirstPieceUnique | src/utils.rs:41 | that description of the first piece fits exactly one string |
| Strings.LastPieceUnique | src/utils.rs:63 | that description of the last piece fits exactly one string |
| Strings.CharUtf8Len | src/utils.rs:39 | a char takes one to four bytes in UTF-8 |
| Strings.Utf8Len | src/utils.rs:39 | `len()` in bytes lies between the char count and four times the char count |
| Strings.Utf8LenAppend | src/utils.rs:39 | the byte length of a concatenation is the sum of the byte lengths |
| Strings.LongerInBytesIffInChars | src/utils.rs:38-39 | for a name that contains the pattern, being longer in bytes is the same as being longer in chars |
| Utils.PvPlatform | src/utils.rs:9-22 | the platform name is one of "mac", "windows" and "linux", and it is "mac" (resp. "windows") exactly on macOS (resp. Windows) |
| Utils.KeywordFilePattern | src/utils.rs:26 | the pattern starts with `_` |
| Utils.KeywordFileMatches | src/utils.rs:38-39 | definition: the keyword scan's guard, where the name contains the pattern and is longer than it in UTF-8 bytes |
| Utils.KeywordKey | src/utils.rs:41 | the keyword identifier is a prefix of the name without `_`, followed by `_` when it is shorter than the name |
| Utils.ModelKey | src/utils.rs:63-64 | the language code holds neither `_` nor `.` and occurs in the name |
| Utils.SlotOf | src/utils.rs:34-70 | definition: the key an item is recorded under. Unreadable items (`flatten`) and keyword names that fail the guard give none; otherwise the keyword scan uses `KeywordKey` and the model scan `ModelKey` |
| Utils.KeywordDir | src/utils.rs:28 | definition: the keyword directory of a language, `./src/keyword/{language}` |
| Utils.Table | src/utils.rs:30-73 | definition: the map a scan fills, the inserts of the listed items performed in listing order; both scan loops are proved equal to it |
| Utils.AppliedDomain | src/utils.rs:42-45 | after a series of map inserts, a key is present exactly when some insert used it |
| Utils.AppliedLastWins | src/utils.rs:42-45 | after a series of map inserts, a present key maps to the path of the last insert under it |
| Utils.InsertsOf | src/utils.rs:34-48 | the scan's inserts correspond one to one, in order, to the items of the listing |
| Utils.TableDomain | src/utils.rs:34-48 | a scan's table holds a key exactly when some item of the listing is recorded under it |
| Utils.TableLastWins | src/utils.rs:34-48 | for a key it holds, the table gives the path of the last item recorded under that key |
| Utils.TableValuesAreRecordedPaths | src/utils.rs:34-48 | every value of the table is the path of an item recorded under its key, and every recorded key is in the table |
| Utils.TableStep | src/utils.rs:34-48 | scanning one more item changes the table by exactly that item's insert |
| Utils.KeywordSlot | src/utils.rs:34-46 | an entry of the keyword directory is recorded exactly when its name contains `_{language}_{platform}.ppn` and is longer than it. Its key is the name's text before the first `_`, which is shorter than the name, holds no `_`, and is empty when the name starts with `_`. Unreadable items are skipped |
| Utils.PatternAloneIsSkipped | src/utils.rs:38-39 | a file named exactly `_{language}_{platform}.ppn` is not recorded |
| Utils.KeywordFileOfLayout | src/utils.rs:26-45 | `{keyword}_{language}_{platform}.ppn` is recorded under `keyword` when the keyword is non-empty and has no `_` |
| Utils.ModelSlot | src/utils.rs:60-70 | every readable entry of the model directory is recorded. Its key is the name's last `_`-piece cut at its first `.`, and holds neither `_` nor `.` |
| Utils.ModelKeyWithoutSeparator | src/utils.rs:63-64 | a model file name without `_` is cut at its first `.` only |
| Utils.ModelKeyOfLayout | src/utils.rs:63-64 | `{prefix}_{language}.{extension}` carries the code `language`, whatever the prefix holds |
| Utils.ModelKeyExample | src/utils.rs:63-64 | `a_b_de.pv` carries the code `de` |
| Utils.PvKeywordPaths | src/utils.rs:24-51 | fails with `DirNotFound` exactly when `./src/keyword/{language}` cannot be opened; otherwise returns the table of the keyword scan over its listing for this platform |
| Utils.PvModelPaths | src/utils.rs:53-74 | fails with `DirNotFound` exactly when `./src/model` cannot be opened; otherwise returns the table of the model scan over its listing |
| Capture.Completes | src/main.rs:56-64 | definition: a pass completes when the flag is set, the read delivers a frame, and the detector answers an index the keyword list can serve |
| Capture.ExitAt | src/main.rs:56-66 | a pass that cannot complete leaves the loop for a reason other than running out of passes |
| Capture.Listen | src/main.rs:56-67 | a run completes at most as many passes as it is given, and it is still listening at the end exactly when it completed them all |
| Capture.Detections | src/main.rs:59-65 | the detections of completed passes are at most one per pass, and each is one of the requested keywords |
| Capture.DetectionsCons | src/main.rs:59-65 | the detections of a completed first pass come before those of the passes after it |
| Capture.ListenCharacterised | src/main.rs:56-67 | a run completes the longest prefix of passes that can complete (flag set, frame read, index answered and in range). It reports that prefix's non-negative answers as keywords, in order, and leaves by the reason of the first pass that cannot complete |
| Capture.LeavesAt | src/main.rs:56-67 | if pass `j` is the first that cannot complete, the run reports the detections before it and leaves there by that pass's reason |
| Capture.RunsOut | src/main.rs:56-67 | if every pass completes, the run reports all their detections and is still listening |
| Capture.CancelledAtMost | src/main.rs:48-56 | once the flag check of pass `j` sees false, at most `j` passes complete; if exactly `j` do, the loop is left through the flag |
| Capture.DetectionOrderExample | src/main.rs:59-65 | keywords [A, B, C] with answers 2, -1, 0 and then a cleared flag report C then A after three passes |
| Capture.ReadFailureSkipsDetector | src/main.rs:57-59 | a run that ends on a read failure ends at a pass whose flag was set and whose read failed, so that frame never reaches the detector |
| Capture.Recorder.constructor | src/main.rs:42-45 | a recorder opened for a frame length and device index has not started and has no calls made on it |
| Capture.Recorder.Start | src/main.rs:46 | `start` marks the recorder as capturing when it succeeds and leaves the call counters alone |
| Capture.Recorder.Read | src/main.rs:57 | `read` returns what the SDK delivers and counts one more read |
| Capture.Recorder.Stop | src/main.rs:70 | `stop` counts one more stop, ends capturing and reports whether the SDK call succeeded |
| Capture.Detector.constructor | src/main.rs:38-40 | a detector built from a configuration has been fed no frames |
| Capture.Detector.Process | src/main.rs:59 | `process` returns the SDK's answer and records the frame it was fed |
| Capture.ListenLoop | src/main.rs:56-67 | the loop reports what `Listen` reports and leaves for the same reason. It reads once per pass whose flag check saw true, feeds the detector exactly the frames of the passes that reached it, in order, and never stops the recorder |
| Session.ResolveKeywordPaths | src/main.rs:21-30 | succeeds exactly when every requested keyword's identifier is in the table, and then gives that keyword's path at the same position; otherwise panics with "Unable to find keyword file" |
| Session.WithModelPath | src/main.rs:33-36 | the model path is set to the language's model file exactly when one was found; otherwise the configuration is unchanged |
| Session.Configure | src/main.rs:21-36 | a missing keyword directory panics first. Configuration succeeds exactly when the keyword directory exists, every requested keyword is in its table, `ACCESS_TOKEN` is set and the model directory exists. Every failure is one of the four configuration panics |
| Session.StartupPanic | src/main.rs:38-52 | no start-up panic exactly when detector init, recorder init, `start` and the signal handler all succeed; otherwise the panic of one of those calls |
| Session.EndAfterLoop | src/main.rs:56-70 | a session ends stopped exactly when the loop was left through the flag and `stop` succeeded, and panics with a stop failure exactly when the loop was left through the flag and `stop` failed. It is still listening exactly when the ticks ran out; any other panic is the loop's own |
| Session.ConfiguredPaths | src/main.rs:20-36 | in a successful configuration, the i-th keyword path is the path of the last file recorded under the i-th keyword, the access key is `ACCESS_TOKEN`'s value, and a model path is present exactly when some model file carries the language's code. That path is the path of the last such file |
| Session.MissingKeywordFile | src/main.rs:21-30 | configuration panics on a missing keyword file exactly when some requested keyword has no file recorded in the language's directory |
| Session.Porcupine | src/main.rs:20-71 | configuration panics come first, then the SDK start-up panics; on both paths nothing is reported and no frame is read or stop made. Otherwise the session reports exactly the loop's detections, reads exactly the frames the loop reads, and ends as the loop's exit and `stop` decide. It stops the recorder at most once, and exactly once when the loop is left through the flag |
| Session.SelectKeywords | src/main.rs:121-124 | succeeds exactly when every menu index is in range, and then gives, in order, the keyword listed at each index; an index past the menu panics |
| Session.SubdirNames | src/main.rs:98-106 | a name is listed exactly when some entry of the listing is a directory with that name, and there are no more names than entries |
| Session.SubdirNamesConcat | src/main.rs:98-106 | the names found in two listings one after the other are those of the first followed by those of the second, so listing order is kept |
| Session.SubdirNamesOne | src/main.rs:101-104 | a single entry contributes its name exactly when it is a directory |
| Session.ListLanguages | src/main.rs:94-106 | panics when `./src/keyword` cannot be opened or when one of its entries is unreadable; otherwise gives the names of its subdirectories in listing order |

## Left out

- `utils::language_list` (src/utils.rs:92-111) and `utils::audio_device_list` (src/utils.rs:76-90) are left out. They only map ISO 639-1 codes to language names through the `isolang` crate and list devices through the SDK; neither decides anything the model reasons about.
- The `dialoguer` menus of `main` (src/main.rs:76-92, 107-120) are left out because they are terminal I/O. The model takes the chosen device index, language and menu indices as inputs.
- `dotenv().ok()` and the early `ACCESS_TOKEN` check of `main` (src/main.rs:74-75) are left out. The environment is an input map, and the later `env::var("ACCESS_TOKEN").unwrap()` of `porcupine` is modelled as `AccessTokenMissing`.
- Printing and timestamps (`println!`, `chrono::Local::now()`) are not modelled. The reported keywords are returned as a sequence instead.
- The `ctrlc` handler runs on another thread and clears an `AtomicBool`. Only its effect is modelled: the flag value each pass's check sees arrives in that pass's `Tick`. Concurrency and memory ordering are not modelled.
- The loop runs until the flag is cleared or a panic. The model is given a finite number of passes, and `Unfinished` stands for a loop that is still listening when they run out.
- The detector's and recorder's internals are SDK calls, and their results are inputs. This covers keyword detection, audio capture, access-key validation and the frame length the recorder is opened with. Frames are sequences of unbounded integers, not `i16`.
- `into_string().unwrap()` on file names and paths panics on names that are not valid UTF-8. The model's names are Dafny strings and cannot express that case.
- `file_name().to_str()` returning `None` in the language loop is left out for the same reason (src/main.rs:102).
- `pv_platform` exists only for macOS, Windows and x86-64 Linux. On any other target the crate does not build, so `Target` has only these three values.
- `DirItem` carries an entry's path as its own field. In the source, `entry.path()` is the directory path joined with the file name (src/utils.rs:35, 61). The model does not tie the path to the directory and the name, and the tables store whatever path the listing holds.
- The order in which `read_dir` yields entries is an input, the listing's order. Which duplicate wins is stated relative to that order.
- A panic unwinds without calling `recorder.stop()`, and the model does the same: `Session.Porcupine` reports the panic and `stopCalls` stays 0.
