/**
 * The silence detector of lib/splitter.js (`findSilences`): ffmpeg's `silencedetect` filter writes
 * `silence_start: <t>` and `silence_end: <t>` lines to stderr, and a handler pairs them into
 * silent intervals through one pending start. Running ffmpeg is not modelled: its stderr lines and
 * the way the run ended are the input.
 */
module SilenceDetector {
  import opened Wrappers
  import opened JsString
  import opened SplitPlanner

  // ---------------------------------------------------------------------------------------------
  // matching /<key>\s+(\d+(\.\d+)?)/u and parseFloat of the captured number
  // ---------------------------------------------------------------------------------------------

  const StartKey: string := "silence_start:"
  const EndKey: string := "silence_end:"

  /** The number of consecutive digits in `s` from index `i` on. */
  function DigitRun(s: string, i: nat): (n: nat)
    requires i <= |s|
    ensures i + n <= |s|
    ensures forall k :: i <= k < i + n ==> IsDigit(s[k])
    ensures i + n < |s| ==> !IsDigit(s[i + n])
    decreases |s| - i
  {
    if i < |s| && IsDigit(s[i]) then 1 + DigitRun(s, i + 1) else 0
  }

  /** The number of consecutive white-space characters in `s` from index `i` on. */
  function SpaceRun(s: string, i: nat): (n: nat)
    requires i <= |s|
    ensures i + n <= |s|
    ensures forall k :: i <= k < i + n ==> IsWhiteSpace(s[k])
    ensures i + n < |s| ==> !IsWhiteSpace(s[i + n])
    decreases |s| - i
  {
    if i < |s| && IsWhiteSpace(s[i]) then 1 + SpaceRun(s, i + 1) else 0
  }

  function Pow10(n: nat): (r: nat)
    ensures r >= 1
  {
    if n == 0 then 1 else 10 * Pow10(n - 1)
  }

  /** The value `parseFloat` gives the text `digits` or `digits.fraction` (exactly, without rounding). */
  function NumberValue(intDigits: string, fracDigits: string): (v: real)
    requires forall k :: 0 <= k < |intDigits| ==> IsDigit(intDigits[k])
    requires forall k :: 0 <= k < |fracDigits| ==> IsDigit(fracDigits[k])
    ensures v >= 0.0
  {
    DecimalValue(intDigits) as real + DecimalValue(fracDigits) as real / Pow10(|fracDigits|) as real
  }

  /** The number matched by `(\d+(\.\d+)?)` at index `i`: the longest run of digits, followed by a
      point and the longest run of digits after it when there is at least one such digit. */
  function NumberAt(s: string, i: nat): (r: Option<real>)
    requires i <= |s|
    ensures r.Some? ==> r.value >= 0.0
    ensures r.Some? <==> i < |s| && IsDigit(s[i])
  {
    var n := DigitRun(s, i);
    if n == 0 then None
    else
      var j := i + n;
      var f := if j < |s| && s[j] == '.' then DigitRun(s, j + 1) else 0;
      if f == 0 then Some(NumberValue(s[i..j], []))
      else Some(NumberValue(s[i..j], s[j + 1..j + 1 + f]))
  }

  /** The pattern matches at index `p`: the key, at least one white-space character, then a number.
      `\s+` is greedy and a white-space character is never a digit, so giving back white space never
      helps, and the match succeeds exactly when the first character after the white space is a digit. */
  function MatchAt(s: string, key: string, p: nat): (r: Option<real>)
    requires p <= |s|
    ensures r.Some? ==> OccursAt(s, key, p) && r.value >= 0.0
  {
    if !OccursAt(s, key, p) then None
    else
      var q := p + |key|;
      var w := SpaceRun(s, q);
      if w == 0 then None else NumberAt(s, q + w)
  }

  /** The leftmost match at or after `p`; its captured number. */
  function MatchFrom(s: string, key: string, p: nat): (r: Option<real>)
    requires p <= |s|
    ensures r.Some? ==> r.value >= 0.0
    decreases |s| - p
  {
    match MatchAt(s, key, p)
    case Some(v) => Some(v)
    case None => if p == |s| then None else MatchFrom(s, key, p + 1)
  }

  /** The search fails exactly when the pattern matches at no position from `p` on. */
  lemma {:induction false} MatchFromNone(s: string, key: string, p: nat)
    requires p <= |s|
    ensures MatchFrom(s, key, p).None? <==> forall q :: p <= q <= |s| ==> MatchAt(s, key, q).None?
    decreases |s| - p
  {
    if p < |s| {
      MatchFromNone(s, key, p + 1);
    }
  }

  /** `parseFloat(line.match(/<key>\s+(\d+(\.\d+)?)/u)[1])`, or `None` when the line does not match. */
  function MatchValue(line: string, key: string): (r: Option<real>)
    ensures r.Some? ==> r.value >= 0.0
  {
    MatchFrom(line, key, 0)
  }

  /** The value of a `silence_start` line. */
  function StartOf(line: string): Option<real> {
    MatchValue(line, StartKey)
  }

  /** The value of a `silence_end` line. */
  function EndOf(line: string): Option<real> {
    MatchValue(line, EndKey)
  }

  /** The pattern has no minus sign, so a negative start such as `-0.001` is not recognised. */
  lemma NegativeStartNotMatched()
    ensures StartOf("silence_start: -0.001").None?
  {
    var s := "silence_start: -0.001";
    MatchFromNone(s, StartKey, 0);
    NegativeStartAtKey(s);
    forall q | 1 <= q <= |s|
      ensures MatchAt(s, StartKey, q).None?
    {
      NegativeStartNoOtherKey(s, q);
    }
  }

  lemma NegativeStartAtKey(s: string)
    requires s == "silence_start: -0.001"
    ensures MatchAt(s, StartKey, 0).None?
  {
    assert SpaceRun(s, 14) == 1 by {
      assert IsWhiteSpace(s[14]) && !IsWhiteSpace(s[15]);
    }
    assert !IsDigit(s[15]);
  }

  lemma NegativeStartNoOtherKey(s: string, q: nat)
    requires s == "silence_start: -0.001" && 1 <= q <= |s|
    ensures !OccursAt(s, StartKey, q)
  {
    if q <= 7 {
      assert s[q] != 's' by { assert s[1..8] == "ilence_"; assert s[q] == s[1..8][q - 1]; }
      assert s[q..q + |StartKey|][0] == s[q];
    }
  }

  /** A typical end line gives the time in seconds. */
  lemma EndLineValue()
    ensures EndOf("silence_end: 12.5") == Some(12.5)
  {
    var s := "silence_end: 12.5";
    assert OccursAt(s, EndKey, 0);
    assert SpaceRun(s, 12) == 1;
    assert DigitRun(s, 13) == 2;
    assert DigitRun(s, 16) == 1;
    assert s[13..15] == "12" && s[16..17] == "5";
    assert DecimalValue("12") == 12 && DecimalValue("5") == 5;
    assert MatchAt(s, EndKey, 0) == Some(12.5);
  }

  // ---------------------------------------------------------------------------------------------
  // the stderr handler
  // ---------------------------------------------------------------------------------------------

  /** What the two patterns find in one stderr line. */
  datatype LineMatch = LineMatch(start: Option<real>, end: Option<real>)

  function Classify(line: string): LineMatch {
    LineMatch(StartOf(line), EndOf(line))
  }

  function ClassifyAll(lines: seq<string>): (ms: seq<LineMatch>)
    ensures |ms| == |lines| && forall k :: 0 <= k < |lines| ==> ms[k] == Classify(lines[k])
  {
    seq(|lines|, k requires 0 <= k < |lines| => Classify(lines[k]))
  }

  /** The handler's closure state: the intervals found so far and the pending start. */
  datatype Detection = Detection(segments: seq<Silence>, pending: Option<real>)

  /** The handler for one stderr line: a start sets (or overwrites) the pending start; then an end
      with a pending start emits the interval and clears it; an end without one is ignored. */
  function Handle(st: Detection, m: LineMatch): Detection {
    var pending := if m.start.Some? then m.start else st.pending;
    if m.end.Some? && pending.Some? then
      Detection(st.segments + [Silence(pending.value, m.end.value)], None)
    else
      Detection(st.segments, pending)
  }

  /** The closure state after the handler has seen the lines `ms`, in order. */
  function Detect(ms: seq<LineMatch>): Detection {
    if ms == [] then Detection([], None)
    else Handle(Detect(ms[..|ms| - 1]), ms[|ms| - 1])
  }

  /** How the ffmpeg run ended: the `end` event, or the `error` event with its message. */
  datatype RunEnd = Ended | Errored(message: string)

  /** What the `silencedetect` run produced: its stderr lines, in order, and how it ended. */
  datatype SilenceRun = SilenceRun(lines: seq<string>, outcome: RunEnd)

  /** The closure variables of `findSilences`, updated by the stderr handler. */
  class SilenceCollector {
    var silenceSegments: seq<Silence>
    var currentStart: Option<real>

    constructor ()
      ensures silenceSegments == [] && currentStart == None
    {
      silenceSegments := [];
      currentStart := None;
    }

    /** The `stderr` handler. */
    method OnStderr(line: string)
      modifies this
      ensures Detection(silenceSegments, currentStart)
        == Handle(Detection(old(silenceSegments), old(currentStart)), Classify(line))
    {
      var silenceStartMatch := StartOf(line);
      var silenceEndMatch := EndOf(line);
      if silenceStartMatch.Some? {
        currentStart := silenceStartMatch;
      }
      if silenceEndMatch.Some? && currentStart.Some? {
        silenceSegments := silenceSegments + [Silence(currentStart.value, silenceEndMatch.value)];
        currentStart := None;
      }
    }
  }

  /** What `findSilences` settles with: the intervals paired from all stderr lines when the run
      ends, the wrapped message when it fails. */
  function SilencesOf(run: SilenceRun): Result<seq<Silence>, string> {
    match run.outcome
    case Ended => Success(Detect(ClassifyAll(run.lines)).segments)
    case Errored(message) => Failure("Error detectando silencios: " + message)
  }

  /** `findSilences`: feeds every stderr line to the handler, in order, then settles. */
  method FindSilences(run: SilenceRun) returns (r: Result<seq<Silence>, string>)
    ensures r == SilencesOf(run)
  {
    ghost var ms := ClassifyAll(run.lines);
    var collector := new SilenceCollector();
    var k := 0;
    while k < |run.lines|
      invariant 0 <= k <= |run.lines|
      invariant Detection(collector.silenceSegments, collector.currentStart) == Detect(ms[..k])
    {
      collector.OnStderr(run.lines[k]);
      assert ms[..k + 1][..k] == ms[..k];
      k := k + 1;
    }
    assert ms[..k] == ms;
    match run.outcome
    case Ended => r := Success(collector.silenceSegments);
    case Errored(message) => r := Failure("Error detectando silencios: " + message);
  }

  // ---------------------------------------------------------------------------------------------
  // an independent description of the pairing
  // ---------------------------------------------------------------------------------------------

  /** The last line among `ms[..n]` that carries a start, if any. */
  function LastStartBefore(ms: seq<LineMatch>, n: nat): (r: Option<nat>)
    requires n <= |ms|
    ensures r.Some? ==> r.value < n && ms[r.value].start.Some? &&
                        (forall k :: r.value < k < n ==> ms[k].start.None?)
    ensures r.None? ==> forall k :: 0 <= k < n ==> ms[k].start.None?
  {
    if n == 0 then None
    else if ms[n - 1].start.Some? then Some(n - 1)
    else LastStartBefore(ms, n - 1)
  }

  /** No line in `ms[i..j]` carries an end. */
  predicate NoEndBetween(ms: seq<LineMatch>, i: nat, j: nat)
    requires i <= j <= |ms|
  {
    forall k :: i <= k < j ==> ms[k].end.None?
  }

  /** The start still open after `ms[..n]`: the most recent start, unless an end line at or after it
      has closed it. */
  function OpenStart(ms: seq<LineMatch>, n: nat): Option<real>
    requires n <= |ms|
  {
    match LastStartBefore(ms, n)
    case None => None
    case Some(i) => if NoEndBetween(ms, i, n) then ms[i].start else None
  }

  /** Line `j` closes an interval: it carries an end, and the most recent start at or before it has
      not been closed by an end line before it. */
  predicate Closes(ms: seq<LineMatch>, j: nat)
    requires j < |ms|
  {
    ms[j].end.Some? &&
    LastStartBefore(ms, j + 1).Some? && NoEndBetween(ms, LastStartBefore(ms, j + 1).value, j)
  }

  /** The interval line `j` closes. */
  function ClosedAt(ms: seq<LineMatch>, j: nat): Silence
    requires j < |ms| && Closes(ms, j)
  {
    Silence(ms[LastStartBefore(ms, j + 1).value].start.value, ms[j].end.value)
  }

  /** The intervals in the order of the end lines that close them. */
  function Expected(ms: seq<LineMatch>): seq<Silence> {
    if ms == [] then []
    else
      var j := |ms| - 1;
      Expected(ms[..j]) + (if Closes(ms, j) then [ClosedAt(ms, j)] else [])
  }

  /** Which start is the most recent one at or before a line does not depend on later lines. */
  lemma {:induction false} LastStartPrefix(ms: seq<LineMatch>, n: nat, m: nat)
    requires m <= n <= |ms|
    ensures LastStartBefore(ms[..n], m) == LastStartBefore(ms, m)
  {
    if m > 0 {
      assert ms[..n][m - 1] == ms[m - 1];
      LastStartPrefix(ms, n, m - 1);
    }
  }

  /** Just before the end check of line `j`, the handler's pending start is the most recent start at or
      before line `j`, unless an end line before `j` has closed it. */
  lemma PendingAtLine(ms: seq<LineMatch>, j: nat, before: Option<real>)
    requires j < |ms|
    requires before == OpenStart(ms[..j], j)
    ensures (if ms[j].start.Some? then ms[j].start else before) ==
      match LastStartBefore(ms, j + 1)
      case None => None
      case Some(i) => if NoEndBetween(ms, i, j) then ms[i].start else None
  {
    LastStartPrefix(ms, j, j);
    var pre := ms[..j];
    if ms[j].start.None? {
      assert LastStartBefore(ms, j + 1) == LastStartBefore(ms, j);
      match LastStartBefore(ms, j)
      case None =>
      case Some(i) =>
        assert NoEndBetween(pre, i, j) <==> NoEndBetween(ms, i, j) by {
          assert forall k :: i <= k < j ==> pre[k] == ms[k];
        }
        assert pre[i] == ms[i];
    }
  }

  /** The handler's state after all lines is described by the independent definitions: the pending
      start is the open start, and the intervals are those the closing end lines determine, in order. */
  lemma {:induction false} DetectIsExpected(ms: seq<LineMatch>)
    ensures Detect(ms).pending == OpenStart(ms, |ms|)
    ensures Detect(ms).segments == Expected(ms)
  {
    if ms != [] {
      var j := |ms| - 1;
      var pre := ms[..j];
      DetectIsExpected(pre);
      PendingAtLine(ms, j, Detect(pre).pending);
      var afterStart := if ms[j].start.Some? then ms[j].start else Detect(pre).pending;
      if ms[j].end.Some? && afterStart.Some? {
        assert Closes(ms, j);
      } else {
        assert !Closes(ms, j);
      }
      if ms[j].end.None? && LastStartBefore(ms, j + 1).Some? {
        var i := LastStartBefore(ms, j + 1).value;
        assert NoEndBetween(ms, i, j + 1) <==> NoEndBetween(ms, i, j);
      }
    }
  }

  /** Lines without an end add no interval: in particular a start that is never closed before the
      output ends is never emitted. */
  lemma {:induction false} TrailingLinesWithoutEnd(ms: seq<LineMatch>, tail: seq<LineMatch>)
    requires forall k :: 0 <= k < |tail| ==> tail[k].end.None?
    ensures Detect(ms + tail).segments == Detect(ms).segments
  {
    if tail != [] {
      var t := tail[..|tail| - 1];
      TrailingLinesWithoutEnd(ms, t);
      assert (ms + tail)[..|ms + tail| - 1] == ms + t;
      assert (ms + tail)[|ms + tail| - 1] == tail[|tail| - 1];
      assert Detect(ms + tail) == Handle(Detect(ms + t), tail[|tail| - 1]);
    } else {
      assert ms + tail == ms;
    }
  }

  /** Every interval the detector reports pairs a start line with an end line at or after it. */
  lemma {:induction false} ExpectedMembers(ms: seq<LineMatch>, s: Silence)
    requires s in Expected(ms)
    ensures exists i, j :: (0 <= i <= j < |ms| && ms[i].start == Some(s.start) && ms[j].end == Some(s.end))
  {
    var j := |ms| - 1;
    var pre := ms[..j];
    if s in Expected(pre) {
      ExpectedMembers(pre, s);
      var i', j' :| 0 <= i' <= j' < |pre| && pre[i'].start == Some(s.start) && pre[j'].end == Some(s.end);
      assert pre[i'] == ms[i'] && pre[j'] == ms[j'];
    } else {
      var i := LastStartBefore(ms, j + 1).value;
      assert ms[i].start == Some(s.start) && ms[j].end == Some(s.end);
    }
  }
}
