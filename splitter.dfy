/**
 * `splitEpisode` and `splitPart` of lib/splitter.js: an episode larger than the Telegram limit is cut
 * into parts at the planned split times, each part is extracted by ffmpeg into a file next to the
 * input, and a part smaller than 0.1 MB counts as corrupt. ffmpeg and ffprobe are not run: the
 * file size, ffprobe's answer, the `silencedetect` output and the outcome of each extraction
 * command are inputs.
 */
module Splitter {
  import opened Wrappers
  import opened JsString
  import opened NodePath
  import opened SplitPlanner
  import opened SilenceDetector

  /** Telegram's upload limit, in MB. */
  const TelegramThreshold: real := 50.0

  /** The smallest part, in MB, that is not taken for a corrupt file. */
  const MinPartSizeMB: real := 0.1

  /** The default `outputBase`. */
  const DefaultOutputBase: string := "output"

  // ---------------------------------------------------------------------------------------------
  // getAudioDuration
  // ---------------------------------------------------------------------------------------------

  /** ffprobe's answer: the metadata's duration in seconds, or the error. */
  datatype Probe = Probed(duration: real) | ProbeFailed(message: string)

  /** `getAudioDuration`: resolves with the duration, rejects with the wrapped ffprobe error. */
  function AudioDuration(probe: Probe): Result<real, string> {
    match probe
    case Probed(d) => Success(d)
    case ProbeFailed(m) => Failure("Error obteniendo la duración del audio: " + m)
  }

  // ---------------------------------------------------------------------------------------------
  // splitPart
  // ---------------------------------------------------------------------------------------------

  /** The codec-copy command `splitPart` builds: input, output, and the optional seek and duration. */
  datatype PartCommand = PartCommand(input: string, output: string, startTime: Option<real>, duration: Option<real>)

  /** How the extraction ended: with an output file of the given size in MB, or with an error. */
  datatype PartRun = Produced(sizeMB: real) | Failed(message: string)

  /** The command for the part from `start` to `end`: it seeks to the start when there is one, and
      stops after `end - start` seconds when there is an end (a null start counts as 0, as in `end - null`). */
  function PartCommandOf(inputFile: string, start: Option<real>, end: Option<real>, outputFile: string): (c: PartCommand)
    ensures c.input == inputFile && c.output == outputFile && c.startTime == start
    ensures c.duration.Some? <==> end.Some?
    ensures end.Some? ==> (if start.Some? then start.value else 0.0) + c.duration.value == end.value
  {
    var d := if end.Some? then Some(end.value - (if start.Some? then start.value else 0.0)) else None;
    PartCommand(inputFile, outputFile, start, d)
  }

  /** `splitPart`: runs the extraction command through `ffmpeg`; an error rejects with that error, and a
      result under 0.1 MB rejects as corrupt. */
  function SplitPart(inputFile: string, start: Option<real>, end: Option<real>, outputFile: string,
                     ffmpeg: PartCommand -> PartRun): (r: Result<(), string>)
    ensures var run := ffmpeg(PartCommandOf(inputFile, start, end, outputFile));
      (r.Success? <==> run.Produced? && run.sizeMB >= MinPartSizeMB) &&
      (run.Failed? ==> r == Failure(run.message)) &&
      (run.Produced? && run.sizeMB < MinPartSizeMB ==> r == Failure("Archivo resultante corrupto: " + outputFile))
  {
    match ffmpeg(PartCommandOf(inputFile, start, end, outputFile))
    case Failed(m) => Failure(m)
    case Produced(size) =>
      if size < MinPartSizeMB then Failure("Archivo resultante corrupto: " + outputFile) else Success(())
  }

  // ---------------------------------------------------------------------------------------------
  // the parts of an episode
  // ---------------------------------------------------------------------------------------------

  /** The number of parts for a file over the limit: at least two. */
  function NumParts(fileSizeMB: real, threshold: real): (n: nat)
    requires 0.0 < threshold < fileSizeMB
    ensures n >= 2
    ensures (n - 1) as real * threshold < fileSizeMB <= n as real * threshold
  {
    var q := fileSizeMB / threshold;
    assert q * threshold == fileSizeMB;
    assert q > 1.0;
    var c := Ceil(q);
    assert (c - 1) as real == c as real - 1.0 < q <= c as real;
    MulMonotone((c - 1) as real, q, threshold);
    MulMonotone(q, c as real, threshold);
    assert fileSizeMB <= c as real * threshold;
    c
  }

  lemma MulMonotone(a: real, b: real, t: real)
    requires t > 0.0
    ensures a < b ==> a * t < b * t
    ensures a <= b ==> a * t <= b * t
  {
    assert (b - a) * t == b * t - a * t;
  }

  /** `splitTimes[i + 1] || null`: the next cut, or no end for the last part (and, since 0 is falsy,
      for a next cut equal to 0). */
  function PartEnd(cuts: seq<real>, i: nat): (r: Option<real>)
    ensures r.Some? <==> i + 1 < |cuts| && cuts[i + 1] != 0.0
    ensures r.Some? ==> r.value == cuts[i + 1]
  {
    if i + 1 < |cuts| && cuts[i + 1] != 0.0 then Some(cuts[i + 1]) else None
  }

  /** The file name of part `i`: `<base>_(parte_<i + 1>).mp3`. */
  function PartFileName(outputBase: string, i: nat): string {
    outputBase + "_(parte_" + NatToString(i + 1) + ").mp3"
  }

  /** The path of part `i`: its file name in the directory of the input. */
  function PartPath(filePath: string, outputBase: string, i: nat): string {
    Join(Dirname(filePath), PartFileName(outputBase, i))
  }

  /** One part to extract: where it starts, where it ends (none: to the end of the file), and its file. */
  datatype Part = Part(start: real, end: Option<real>, outputFile: string)

  /** The parts for the split times `cuts`, one per cut. */
  function PartsOf(filePath: string, outputBase: string, cuts: seq<real>): (ps: seq<Part>)
    ensures |ps| == |cuts|
    ensures forall i :: 0 <= i < |cuts| ==>
      ps[i] == Part(cuts[i], PartEnd(cuts, i), PartPath(filePath, outputBase, i))
  {
    seq(|cuts|, i requires 0 <= i < |cuts| => Part(cuts[i], PartEnd(cuts, i), PartPath(filePath, outputBase, i)))
  }

  /** Extracting one part. */
  function PartOutcome(filePath: string, p: Part, ffmpeg: PartCommand -> PartRun): Result<(), string> {
    SplitPart(filePath, Some(p.start), p.end, p.outputFile, ffmpeg)
  }

  /** Extracting the parts one after the other, stopping at the first that fails: the files made, or
      the first error. */
  function RunParts(filePath: string, ps: seq<Part>, ffmpeg: PartCommand -> PartRun): Result<seq<string>, string> {
    if ps == [] then Success([])
    else
      match RunParts(filePath, ps[..|ps| - 1], ffmpeg)
      case Failure(e) => Failure(e)
      case Success(files) =>
        match PartOutcome(filePath, ps[|ps| - 1], ffmpeg)
        case Failure(e) => Failure(e)
        case Success(_) => Success(files + [ps[|ps| - 1].outputFile])
  }

  /** The split times for a file over the limit: the ideal part length is the duration over the
      number of parts. */
  function PlanFor(fileSizeMB: real, threshold: real, duration: real, silences: seq<Silence>, drift: real): seq<real>
    requires 0.0 < threshold < fileSizeMB
  {
    Plan(duration / NumParts(fileSizeMB, threshold) as real, silences, duration, drift)
  }

  /** What `splitEpisode` settles with. */
  function EpisodeOutcome(filePath: string, outputBase: string, fileSizeMB: real, threshold: real, drift: real,
                          probe: Probe, silenceRun: SilenceRun, ffmpeg: PartCommand -> PartRun): Result<seq<string>, string>
    requires threshold > 0.0
  {
    if fileSizeMB <= threshold then Success([filePath])
    else
      match AudioDuration(probe)
      case Failure(e) => Failure(e)
      case Success(duration) =>
        match SilencesOf(silenceRun)
        case Failure(e) => Failure(e)
        case Success(silences) =>
          RunParts(filePath, PartsOf(filePath, outputBase, PlanFor(fileSizeMB, threshold, duration, silences, drift)), ffmpeg)
  }

  /** `splitEpisode`: a file within the limit is returned as it is; otherwise the duration and the
      silences are obtained, the split times planned, and the parts extracted in order. Any error
      (from ffprobe, from the silence detection or from a part) is passed on unchanged. */
  method SplitEpisode(filePath: string, outputBase: string, fileSizeMB: real, threshold: real, drift: real,
                      probe: Probe, silenceRun: SilenceRun, ffmpeg: PartCommand -> PartRun)
    returns (r: Result<seq<string>, string>)
    requires threshold > 0.0
    ensures r == EpisodeOutcome(filePath, outputBase, fileSizeMB, threshold, drift, probe, silenceRun, ffmpeg)
    ensures fileSizeMB <= threshold ==> r == Success([filePath])
    ensures fileSizeMB > threshold && probe.ProbeFailed? ==>
      r == Failure("Error obteniendo la duración del audio: " + probe.message)
  {
    var dirName := Dirname(filePath);
    var fileSize := fileSizeMB;
    if fileSize <= threshold {
      return Success([filePath]);
    }
    var duration := AudioDuration(probe);
    if duration.Failure? {
      return Failure(duration.error);
    }
    var silentSegments := FindSilences(silenceRun);
    if silentSegments.Failure? {
      return Failure(silentSegments.error);
    }
    var numParts := NumParts(fileSize, threshold);
    var idealPartDuration := duration.value / numParts as real;
    var splitTimes := CalculateSplitTimes(idealPartDuration, silentSegments.value, duration.value, drift);
    r := SplitParts(filePath, dirName, outputBase, splitTimes, ffmpeg);
  }

  /** The loop of `splitEpisode`: part `i` runs from cut `i` to cut `i + 1` (the last to the end of the
      file); the parts are extracted in order and the first failure ends the loop. */
  method SplitParts(filePath: string, dirName: string, outputBase: string, splitTimes: seq<real>,
                    ffmpeg: PartCommand -> PartRun)
    returns (r: Result<seq<string>, string>)
    requires dirName == Dirname(filePath)
    ensures r == RunParts(filePath, PartsOf(filePath, outputBase, splitTimes), ffmpeg)
  {
    ghost var ps := PartsOf(filePath, outputBase, splitTimes);
    var parts := [];
    var i := 0;
    while i < |splitTimes|
      invariant 0 <= i <= |splitTimes|
      invariant RunParts(filePath, ps[..i], ffmpeg) == Success(parts)
    {
      var start := splitTimes[i];
      var end := PartEnd(splitTimes, i);
      var outputFile := Join(dirName, PartFileName(outputBase, i));
      assert ps[..i + 1][..i] == ps[..i];
      assert ps[i] == Part(start, end, outputFile);
      var res := SplitPart(filePath, Some(start), end, outputFile, ffmpeg);
      if res.Failure? {
        RunPartsStopsAtFailure(filePath, ps, i + 1, ffmpeg);
        assert ps[..|ps|] == ps;
        return Failure(res.error);
      }
      parts := parts + [outputFile];
      i := i + 1;
    }
    assert ps[..i] == ps;
    return Success(parts);
  }

  // ---------------------------------------------------------------------------------------------
  // properties
  // ---------------------------------------------------------------------------------------------

  /** Once a part has failed, the later parts are not extracted and the error is the result. */
  lemma {:induction false} RunPartsStopsAtFailure(filePath: string, ps: seq<Part>, i: nat, ffmpeg: PartCommand -> PartRun)
    requires i <= |ps| && RunParts(filePath, ps[..i], ffmpeg).Failure?
    ensures forall j :: i <= j <= |ps| ==> RunParts(filePath, ps[..j], ffmpeg) == RunParts(filePath, ps[..i], ffmpeg)
    decreases |ps| - i
  {
    if i < |ps| {
      assert ps[..i + 1][..i] == ps[..i];
      RunPartsStopsAtFailure(filePath, ps, i + 1, ffmpeg);
    }
  }

  /** Extracting the parts succeeds exactly when every part succeeds, and then gives their files in
      order; otherwise the error is that of the first part that fails. */
  lemma {:induction false} RunPartsMeaning(filePath: string, ps: seq<Part>, ffmpeg: PartCommand -> PartRun)
    ensures var r := RunParts(filePath, ps, ffmpeg);
      (r.Success? <==> forall k :: 0 <= k < |ps| ==> PartOutcome(filePath, ps[k], ffmpeg).Success?) &&
      (r.Success? ==> |r.value| == |ps| && forall k :: 0 <= k < |ps| ==> r.value[k] == ps[k].outputFile) &&
      (r.Failure? ==> exists k :: 0 <= k < |ps| && PartOutcome(filePath, ps[k], ffmpeg) == Failure(r.error) &&
                                 forall j :: 0 <= j < k ==> PartOutcome(filePath, ps[j], ffmpeg).Success?)
  {
    if ps != [] {
      var n := |ps| - 1;
      var pre := ps[..n];
      RunPartsMeaning(filePath, pre, ffmpeg);
      assert forall k :: 0 <= k < n ==> pre[k] == ps[k];
      var r0 := RunParts(filePath, pre, ffmpeg);
      if r0.Failure? {
        var k :| 0 <= k < n && PartOutcome(filePath, pre[k], ffmpeg) == Failure(r0.error) &&
                 forall j :: 0 <= j < k ==> PartOutcome(filePath, pre[j], ffmpeg).Success?;
        assert PartOutcome(filePath, ps[k], ffmpeg) == Failure(r0.error);
      }
    }
  }

  /** Consecutive split times give contiguous parts: part 0 starts at 0, each part ends where the next
      starts, and only the last part runs to the end of the file, provided no later cut is 0. */
  lemma PartsTile(filePath: string, outputBase: string, cuts: seq<real>)
    requires |cuts| >= 1 && cuts[0] == 0.0
    requires forall i :: 1 <= i < |cuts| ==> cuts[i] != 0.0
    ensures var ps := PartsOf(filePath, outputBase, cuts);
      ps[0].start == 0.0 && ps[|ps| - 1].end.None? &&
      forall i :: 0 <= i < |ps| - 1 ==> ps[i].end == Some(ps[i + 1].start)
  {
  }

  /** With parts longer than twice the drift bound, the planned parts of a file over the limit tile
      the whole recording. */
  lemma EpisodePartsTile(filePath: string, outputBase: string, fileSizeMB: real, threshold: real,
                         duration: real, silences: seq<Silence>, drift: real)
    requires 0.0 < threshold < fileSizeMB
    requires 0.0 <= drift && 2.0 * drift < duration / NumParts(fileSizeMB, threshold) as real
    ensures var ps := PartsOf(filePath, outputBase, PlanFor(fileSizeMB, threshold, duration, silences, drift));
      ps[0].start == 0.0 && ps[|ps| - 1].end.None? &&
      forall i :: 0 <= i < |ps| - 1 ==> ps[i].end == Some(ps[i + 1].start)
  {
    var ideal := duration / NumParts(fileSizeMB, threshold) as real;
    var cuts := PlanFor(fileSizeMB, threshold, duration, silences, drift);
    PlanIncreasing(ideal, silences, duration, drift);
    assert cuts[0] == 0.0;
    forall i | 1 <= i < |cuts|
      ensures cuts[i] > 0.0
    {
      PlanIncreasingFromZero(cuts, i);
    }
    PartsTile(filePath, outputBase, cuts);
  }

  lemma {:induction false} PlanIncreasingFromZero(cuts: seq<real>, i: nat)
    requires 1 <= i < |cuts| && cuts[0] == 0.0
    requires forall k :: 0 <= k < |cuts| - 1 ==> cuts[k] < cuts[k + 1]
    ensures cuts[i] > 0.0
  {
    if i > 1 {
      PlanIncreasingFromZero(cuts, i - 1);
    }
  }

  /** A recording of positive length is cut into exactly the number of parts the size calls for. */
  lemma PartCount(fileSizeMB: real, threshold: real, duration: real, silences: seq<Silence>, drift: real)
    requires 0.0 < threshold < fileSizeMB && duration > 0.0
    ensures |PlanFor(fileSizeMB, threshold, duration, silences, drift)| == NumParts(fileSizeMB, threshold)
  {
    CutCountOfParts(duration, NumParts(fileSizeMB, threshold));
  }

  /** Different parts get different file names. */
  lemma PartFileNamesDistinct(outputBase: string, i: nat, j: nat)
    requires PartFileName(outputBase, i) == PartFileName(outputBase, j)
    ensures i == j
  {
    var a, b := NatToString(i + 1), NatToString(j + 1);
    var pre := outputBase + "_(parte_";
    assert PartFileName(outputBase, i) == pre + (a + ").mp3");
    assert PartFileName(outputBase, j) == pre + (b + ").mp3");
    assert a + ").mp3" == b + ").mp3" by {
      assert (pre + (a + ").mp3"))[|pre|..] == a + ").mp3";
      assert (pre + (b + ").mp3"))[|pre|..] == b + ").mp3";
    }
    assert |a| == |b|;
    assert a == (a + ").mp3")[..|a|] && b == (b + ").mp3")[..|b|];
    NatToStringInjective(i + 1, j + 1);
  }

  /** When the base name has no slash, different parts are written to different paths. */
  lemma PartPathsDistinct(filePath: string, outputBase: string, i: nat, j: nat)
    requires NoSlash(outputBase)
    requires PartPath(filePath, outputBase, i) == PartPath(filePath, outputBase, j)
    ensures i == j
  {
    PartFileNameIsPlain(outputBase, i);
    PartFileNameIsPlain(outputBase, j);
    JoinInjective(Dirname(filePath), PartFileName(outputBase, i), PartFileName(outputBase, j));
    PartFileNamesDistinct(outputBase, i, j);
  }

  lemma PartFileNameIsPlain(outputBase: string, i: nat)
    requires NoSlash(outputBase)
    ensures PlainName(PartFileName(outputBase, i))
  {
    var name := PartFileName(outputBase, i);
    var digits := NatToString(i + 1);
    assert name == outputBase + "_(parte_" + digits + ").mp3";
    forall k | 0 <= k < |name|
      ensures name[k] != '/'
    {
      if k < |outputBase| {
        assert name[k] == outputBase[k];
      } else if k < |outputBase| + 8 {
        assert name[k] == "_(parte_"[k - |outputBase|];
      } else if k < |outputBase| + 8 + |digits| {
        assert name[k] == digits[k - |outputBase| - 8];
      } else {
        assert name[k] == ").mp3"[k - |outputBase| - 8 - |digits|];
      }
    }
    assert |name| > 2;
  }

  /** A file at the given path inside a directory gets its parts in that directory. */
  lemma PartBesideInput(dir: string, file: string, outputBase: string, i: nat)
    requires dir != [] && dir[|dir| - 1] != '/'
    requires file != [] && NoSlash(file) && NoSlash(outputBase)
    ensures PartPath(dir + "/" + file, outputBase, i) == JoinPrefix(dir) + PartFileName(outputBase, i)
  {
    DirnameOfFile(dir, file);
    PartFileNameIsPlain(outputBase, i);
    JoinPlainName(dir, PartFileName(outputBase, i));
  }

  /** What `splitEpisode` settles with for a file over the limit: the wrapped ffprobe error, else the
      silence detection's error, else the files of all the parts, in order, when every extraction
      succeeds, and otherwise the error of the first extraction that fails. */
  lemma EpisodeOversized(filePath: string, outputBase: string, fileSizeMB: real, threshold: real, drift: real,
                         probe: Probe, silenceRun: SilenceRun, ffmpeg: PartCommand -> PartRun)
    requires 0.0 < threshold < fileSizeMB
    ensures var r := EpisodeOutcome(filePath, outputBase, fileSizeMB, threshold, drift, probe, silenceRun, ffmpeg);
      (probe.ProbeFailed? ==> r == Failure("Error obteniendo la duración del audio: " + probe.message)) &&
      (probe.Probed? && SilencesOf(silenceRun).Failure? ==> r == Failure(SilencesOf(silenceRun).error)) &&
      (probe.Probed? && SilencesOf(silenceRun).Success? ==>
        var cuts := PlanFor(fileSizeMB, threshold, probe.duration, SilencesOf(silenceRun).value, drift);
        (r.Success? <==> forall k :: 0 <= k < |cuts| ==>
          SplitPart(filePath, Some(cuts[k]), PartEnd(cuts, k), PartPath(filePath, outputBase, k), ffmpeg).Success?) &&
        (r.Success? ==> r.value == seq(|cuts|, k requires 0 <= k < |cuts| => PartPath(filePath, outputBase, k))) &&
        (r.Failure? ==> exists k :: (0 <= k < |cuts| &&
          SplitPart(filePath, Some(cuts[k]), PartEnd(cuts, k), PartPath(filePath, outputBase, k), ffmpeg) == Failure(r.error) &&
          forall j :: 0 <= j < k ==>
            SplitPart(filePath, Some(cuts[j]), PartEnd(cuts, j), PartPath(filePath, outputBase, j), ffmpeg).Success?)))
  {
    if probe.Probed? && SilencesOf(silenceRun).Success? {
      var cuts := PlanFor(fileSizeMB, threshold, probe.duration, SilencesOf(silenceRun).value, drift);
      var ps := PartsOf(filePath, outputBase, cuts);
      RunPartsMeaning(filePath, ps, ffmpeg);
      var r := RunParts(filePath, ps, ffmpeg);
      if r.Success? {
        assert r.value == seq(|cuts|, k requires 0 <= k < |cuts| => PartPath(filePath, outputBase, k));
      }
    }
  }

  /** Scenario: a file of exactly 50 MB is within Telegram's limit and is returned as it is. */
  lemma ScenarioAtThreshold(filePath: string, probe: Probe, silenceRun: SilenceRun, ffmpeg: PartCommand -> PartRun)
    ensures EpisodeOutcome(filePath, DefaultOutputBase, 50.0, TelegramThreshold, MaxDistanceFromSilence,
                           probe, silenceRun, ffmpeg) == Success([filePath])
  {
  }

  /** Scenario: a 120 MB file is cut into three parts, whatever its duration and silences. */
  lemma ScenarioThreeParts(duration: real, silences: seq<Silence>)
    requires duration > 0.0
    ensures NumParts(120.0, TelegramThreshold) == 3
    ensures |PlanFor(120.0, TelegramThreshold, duration, silences, MaxDistanceFromSilence)| == 3
  {
    assert NumParts(120.0, TelegramThreshold) == 3 by {
      assert 2.0 * TelegramThreshold < 120.0 <= 3.0 * TelegramThreshold;
    }
    PartCount(120.0, TelegramThreshold, duration, silences, MaxDistanceFromSilence);
  }

  /** Scenario: with the default base name, the third part is named `output_(parte_3).mp3`. */
  lemma ScenarioDefaultPartName()
    ensures PartFileName(DefaultOutputBase, 2) == "output_(parte_3).mp3"
  {
    assert NatToString(3) == "3";
  }

  /** The parts of an episode under `./<d>/` are written to `<d>/`: `path.join` drops the leading `./`. */
  lemma PartBelowCurrentDir(d: string, file: string, outputBase: string, i: nat)
    requires PlainName(d) && file != [] && NoSlash(file) && NoSlash(outputBase)
    ensures PartPath("./" + d + "/" + file, outputBase, i) == d + "/" + PartFileName(outputBase, i)
  {
    var name := PartFileName(outputBase, i);
    assert "./" + d + "/" + file == ("./" + d) + "/" + file;
    DirnameOfFile("./" + d, file);
    PartFileNameIsPlain(outputBase, i);
    JoinBelowCurrentDir(d, name);
  }
}
