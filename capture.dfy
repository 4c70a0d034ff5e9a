/**
 * The listening loop of `porcupine` (src/main.rs): while the LISTENING
 * flag is set, read one frame from the recorder, hand it to the detector
 * and report the keyword at the index the detector answers.
 *
 * The detector and the recorder are foreign SDK objects. They appear here
 * as classes that count the calls made on them; what a call returns is
 * supplied by the environment, one Tick per pass of the loop: the value
 * the flag check sees, what `read` returns and what `process` answers.
 */
module Capture {
  import opened Prelude

  /** What `recorder.read()` returns: a frame of 16-bit samples, or an error. */
  datatype ReadResult = Frame(samples: seq<int>) | ReadError

  /** What `porcupine.process(&frame)` returns: a keyword index (-1 for none), or an error. */
  datatype ProcessResult = Index(index: int) | ProcessError

  /** One pass of the loop as the environment plays it. */
  datatype Tick = Tick(listening: bool, read: ReadResult, verdict: ProcessResult)

  /** Why the loop was left. */
  datatype Exit =
    | FlagCleared       // the flag check saw false: the normal way out
    | ReadFailed        // `read().expect(..)` panicked
    | ProcessFailed     // `process(..).unwrap()` panicked
    | IndexOutOfRange   // `keywords[keyword_index as usize]` panicked
    | Unfinished        // the ticks ran out while the loop was still listening

  /** What the detector is built from: `PorcupineBuilder` with its keyword paths and optional model path. */
  datatype DetectorConfig = DetectorConfig(accessKey: string, keywordPaths: seq<string>, modelPath: Option<string>)

  /** A run of the loop: the keywords reported, how it ended, and how many passes it completed. */
  datatype LoopRun<K> = LoopRun(emitted: seq<K>, exit: Exit, passes: nat)

  /** A pass that completes: the flag is set, the read succeeds, and the answer is an index the keyword list can serve. */
  predicate Completes(t: Tick, keywordCount: nat) {
    && t.listening
    && t.read.Frame?
    && t.verdict.Index?
    && t.verdict.index < keywordCount
  }

  /** How a pass that does not complete leaves the loop, checked in the source's order. */
  function ExitAt(t: Tick, keywordCount: nat): (e: Exit)
    requires !Completes(t, keywordCount)
    ensures e != Unfinished
  {
    if !t.listening then FlagCleared
    else if t.read.ReadError? then ReadFailed
    else if t.verdict.ProcessError? then ProcessFailed
    else IndexOutOfRange
  }

  /** The loop run on `ticks`, pass by pass. */
  function Listen<K>(keywords: seq<K>, ticks: seq<Tick>): (run: LoopRun<K>)
    ensures run.passes <= |ticks|
    ensures run.exit == Unfinished <==> run.passes == |ticks|
    decreases |ticks|
  {
    if ticks == [] then LoopRun([], Unfinished, 0)
    else if !Completes(ticks[0], |keywords|) then LoopRun([], ExitAt(ticks[0], |keywords|), 0)
    else
      var index := ticks[0].verdict.index;
      var rest := Listen(keywords, ticks[1..]);
      var now := if index >= 0 then [keywords[index]] else [];
      LoopRun(now + rest.emitted, rest.exit, rest.passes + 1)
  }

  /**
   * The detections of a series of completed passes: each non-negative
   * answer, mapped positionally onto the requested keywords; -1 (and any
   * other negative answer) reports nothing.
   */
  function Detections<K>(keywords: seq<K>, ticks: seq<Tick>): (r: seq<K>)
    requires forall j :: 0 <= j < |ticks| ==> Completes(ticks[j], |keywords|)
    ensures |r| <= |ticks|
    ensures forall x :: x in r ==> x in keywords
  {
    if ticks == [] then []
    else
      var n := |ticks| - 1;
      assert Completes(ticks[n], |keywords|);
      var index := ticks[n].verdict.index;
      var before := Detections(keywords, ticks[..n]);
      if index >= 0 then before + [keywords[index]] else before
  }

  lemma {:induction false} DetectionsCons<K>(keywords: seq<K>, t: Tick, ticks: seq<Tick>)
    requires Completes(t, |keywords|)
    requires forall j :: 0 <= j < |ticks| ==> Completes(ticks[j], |keywords|)
    ensures forall j :: 0 <= j < |[t] + ticks| ==> Completes(([t] + ticks)[j], |keywords|)
    ensures Detections(keywords, [t] + ticks) ==
      (if t.verdict.index >= 0 then [keywords[t.verdict.index]] else []) + Detections(keywords, ticks)
  {
    var now := if t.verdict.index >= 0 then [keywords[t.verdict.index]] else [];
    if ticks == [] {
      assert ([t] + ticks)[..0] == [];
    } else {
      var n := |ticks| - 1;
      assert ([t] + ticks)[..n + 1] == [t] + ticks[..n];
      DetectionsCons(keywords, t, ticks[..n]);
      var last := if ticks[n].verdict.index >= 0 then [keywords[ticks[n].verdict.index]] else [];
      assert Detections(keywords, [t] + ticks) == Detections(keywords, [t] + ticks[..n]) + last;
      assert now + Detections(keywords, ticks[..n]) + last == now + (Detections(keywords, ticks[..n]) + last);
    }
  }

  /**
   * What a run does, stated without the loop: it completes the longest
   * prefix of passes that can complete, reports the detections of that
   * prefix in order, and leaves by the reason of the first pass that cannot
   * complete (or is still listening when the ticks run out).
   */
  lemma {:induction false} ListenCharacterised<K>(keywords: seq<K>, ticks: seq<Tick>)
    ensures var run := Listen(keywords, ticks);
      && run.passes <= |ticks|
      && (forall j :: 0 <= j < run.passes ==> Completes(ticks[j], |keywords|))
      && (run.passes < |ticks| ==> !Completes(ticks[run.passes], |keywords|) && run.exit == ExitAt(ticks[run.passes], |keywords|))
      && (run.passes == |ticks| ==> run.exit == Unfinished)
      && run.emitted == Detections(keywords, ticks[..run.passes])
  {
    if ticks != [] && Completes(ticks[0], |keywords|) {
      var tail := ticks[1..];
      ListenCharacterised(keywords, tail);
      var rest := Listen(keywords, tail);
      var p := rest.passes;
      forall j | 0 <= j < p + 1
        ensures Completes(ticks[j], |keywords|)
      {
        if j > 0 {
          assert ticks[j] == tail[j - 1];
        }
      }
      assert ticks[..p + 1] == [ticks[0]] + tail[..p];
      DetectionsCons(keywords, ticks[0], tail[..p]);
      if p < |tail| {
        assert ticks[p + 1] == tail[p];
      }
    } else if ticks != [] {
      assert ticks[..0] == [];
    }
  }

  /** A run whose pass `j` is the first that cannot complete leaves the loop there. */
  lemma LeavesAt<K>(keywords: seq<K>, ticks: seq<Tick>, j: nat)
    requires j < |ticks| && !Completes(ticks[j], |keywords|)
    requires forall m :: 0 <= m < j ==> Completes(ticks[m], |keywords|)
    ensures Listen(keywords, ticks) == LoopRun(Detections(keywords, ticks[..j]), ExitAt(ticks[j], |keywords|), j)
  {
    ListenCharacterised(keywords, ticks);
  }

  /** A run whose every pass completes is still listening when the ticks run out. */
  lemma RunsOut<K>(keywords: seq<K>, ticks: seq<Tick>)
    requires forall m :: 0 <= m < |ticks| ==> Completes(ticks[m], |keywords|)
    ensures Listen(keywords, ticks) == LoopRun(Detections(keywords, ticks), Unfinished, |ticks|)
  {
    ListenCharacterised(keywords, ticks);
    assert ticks[..|ticks|] == ticks;
  }

  /**
   * Cancellation: when the flag check of pass `j` sees false, at most `j`
   * frames are read and processed before the loop is left.
   */
  lemma CancelledAtMost<K>(keywords: seq<K>, ticks: seq<Tick>, j: nat)
    requires j < |ticks| && !ticks[j].listening
    ensures Listen(keywords, ticks).passes <= j
    ensures Listen(keywords, ticks).passes == j ==> Listen(keywords, ticks).exit == FlagCleared
  {
    ListenCharacterised(keywords, ticks);
  }

  /** With keywords [A, B, C] and answers 2, -1, 0 before the flag is cleared, the loop reports C then A. */
  lemma DetectionOrderExample(frame: seq<int>)
    ensures var ticks := [Tick(true, Frame(frame), Index(2)), Tick(true, Frame(frame), Index(-1)),
                          Tick(true, Frame(frame), Index(0)), Tick(false, ReadError, ProcessError)];
      Listen(["A", "B", "C"], ticks) == LoopRun(["C", "A"], FlagCleared, 3)
  {
    var ticks := [Tick(true, Frame(frame), Index(2)), Tick(true, Frame(frame), Index(-1)),
                  Tick(true, Frame(frame), Index(0)), Tick(false, ReadError, ProcessError)];
    var keywords := ["A", "B", "C"];
    assert Listen(keywords, ticks[3..]) == LoopRun([], FlagCleared, 0);
    assert ticks[2..][1..] == ticks[3..];
    assert Listen(keywords, ticks[2..]) == LoopRun(["A"], FlagCleared, 1);
    assert ticks[1..][1..] == ticks[2..];
    assert Listen(keywords, ticks[1..]) == LoopRun(["A"], FlagCleared, 2);
  }

  /** A read failure ends the loop with that pass's frame never processed. */
  lemma ReadFailureSkipsDetector<K>(keywords: seq<K>, ticks: seq<Tick>)
    requires Listen(keywords, ticks).exit == ReadFailed
    ensures var p := Listen(keywords, ticks).passes;
      p < |ticks| && ticks[p].listening && ticks[p].read.ReadError?
  {
    ListenCharacterised(keywords, ticks);
  }

  /** The PvRecorder handle, seen through the calls made on it. */
  class Recorder {
    const frameLength: int
    const deviceIndex: int
    var capturing: bool
    var readCalls: nat
    var stopCalls: nat

    /** `PvRecorderBuilder::new(frame_length).device_index(index).init()`, when it succeeds. */
    constructor (frameLength: int, deviceIndex: int)
      ensures this.frameLength == frameLength && this.deviceIndex == deviceIndex
      ensures !capturing && readCalls == 0 && stopCalls == 0
    {
      this.frameLength := frameLength;
      this.deviceIndex := deviceIndex;
      capturing := false;
      readCalls := 0;
      stopCalls := 0;
    }

    /** `recorder.start()`; `ok` is whether the SDK call succeeds. */
    method Start(ok: bool) returns (started: bool)
      modifies this
      ensures started == ok && capturing == ok
      ensures readCalls == old(readCalls) && stopCalls == old(stopCalls)
    {
      capturing := ok;
      started := ok;
    }

    /** `recorder.read()`; `delivered` is what the device hands back. */
    method Read(delivered: ReadResult) returns (r: ReadResult)
      modifies this
      ensures r == delivered
      ensures readCalls == old(readCalls) + 1
      ensures capturing == old(capturing) && stopCalls == old(stopCalls)
    {
      readCalls := readCalls + 1;
      r := delivered;
    }

    /** `recorder.stop()`; `ok` is whether the SDK call succeeds. */
    method Stop(ok: bool) returns (stopped: bool)
      modifies this
      ensures stopped == ok
      ensures stopCalls == old(stopCalls) + 1 && !capturing
      ensures readCalls == old(readCalls)
    {
      stopCalls := stopCalls + 1;
      capturing := false;
      stopped := ok;
    }
  }

  /** The Porcupine handle, seen through the frames handed to it. */
  class Detector {
    const config: DetectorConfig
    const frameLength: int
    var fed: seq<seq<int>>

    /** `PorcupineBuilder::init()`, when it succeeds. */
    constructor (config: DetectorConfig, frameLength: int)
      ensures this.config == config && this.frameLength == frameLength && fed == []
    {
      this.config := config;
      this.frameLength := frameLength;
      fed := [];
    }

    /** `porcupine.process(&frame)`; `answer` is what the engine replies. */
    method Process(frame: seq<int>, answer: ProcessResult) returns (r: ProcessResult)
      modifies this
      ensures r == answer && fed == old(fed) + [frame]
    {
      fed := fed + [frame];
      r := answer;
    }
  }

  /** Calls to `process` in a run: one per completed pass, plus the one whose answer ended it. */
  function ProcessCalls<K>(run: LoopRun<K>): nat {
    run.passes + (if run.exit == ProcessFailed || run.exit == IndexOutOfRange then 1 else 0)
  }

  /** Calls to `read` in a run: one per call to `process`, plus the read that failed. */
  function ReadCalls<K>(run: LoopRun<K>): nat {
    ProcessCalls(run) + (if run.exit == ReadFailed then 1 else 0)
  }

  /** The frames the ticks deliver (empty where the read fails). */
  function FramesOf(ticks: seq<Tick>): seq<seq<int>> {
    seq(|ticks|, i requires 0 <= i < |ticks| => if ticks[i].read.Frame? then ticks[i].read.samples else [])
  }

  /**
   * The `while LISTENING.load(..)` loop: checks the flag before every read,
   * hands each frame to the detector, and reports `keywords[index]` for
   * every non-negative answer. It never stops the recorder; the caller does
   * that once the loop is left.
   */
  method ListenLoop<K>(recorder: Recorder, detector: Detector, keywords: seq<K>, ticks: seq<Tick>)
    returns (emitted: seq<K>, exit: Exit)
    modifies recorder, detector
    ensures var run := Listen(keywords, ticks);
      && emitted == run.emitted
      && exit == run.exit
      && recorder.readCalls == old(recorder.readCalls) + ReadCalls(run)
      && detector.fed == old(detector.fed) + FramesOf(ticks[..ProcessCalls(run)])
    ensures recorder.stopCalls == old(recorder.stopCalls) && recorder.capturing == old(recorder.capturing)
  {
    emitted := [];
    var j := 0;
    while j < |ticks| && ticks[j].listening
      invariant j <= |ticks|
      invariant forall m :: 0 <= m < j ==> Completes(ticks[m], |keywords|)
      invariant emitted == Detections(keywords, ticks[..j])
      invariant recorder.readCalls == old(recorder.readCalls) + j
      invariant detector.fed == old(detector.fed) + FramesOf(ticks[..j])
      invariant recorder.stopCalls == old(recorder.stopCalls) && recorder.capturing == old(recorder.capturing)
    {
      var frame := recorder.Read(ticks[j].read);
      if frame.ReadError? {
        LeavesAt(keywords, ticks, j);
        exit := ReadFailed;
        return;
      }
      FramesStep(ticks, j);
      var verdict := detector.Process(frame.samples, ticks[j].verdict);
      if verdict.ProcessError? {
        LeavesAt(keywords, ticks, j);
        exit := ProcessFailed;
        return;
      }
      var index := verdict.index;
      if index >= 0 {
        if index >= |keywords| {
          LeavesAt(keywords, ticks, j);
          exit := IndexOutOfRange;
          return;
        }
        emitted := emitted + [keywords[index]];
      }
      assert ticks[..j + 1][..j] == ticks[..j];
      j := j + 1;
    }
    if j == |ticks| {
      RunsOut(keywords, ticks);
      assert ticks[..j] == ticks;
      exit := Unfinished;
    } else {
      LeavesAt(keywords, ticks, j);
      exit := FlagCleared;
    }
  }

  /** The frames of one more pass are those before it and its own. */
  lemma FramesStep(ticks: seq<Tick>, j: nat)
    requires j < |ticks| && ticks[j].read.Frame?
    ensures FramesOf(ticks[..j + 1]) == FramesOf(ticks[..j]) + [ticks[j].read.samples]
  {
    assert ticks[..j + 1][..j] == ticks[..j];
  }
}
