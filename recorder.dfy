/** The recorder's top-level loop, twice: once as the nested loops the program
    runs (Record), and once as a resumable state machine that consumes one line
    per step (Step, Run and the CaptureLoop object). Both are proved to produce
    the outputs that Framing.Frame describes. */
module Recorder {
  import opened Framing

  /** Reads the stream the way the program does: wait for a header, copy the
      header and the next SampleCount lines into a new output, then read and
      drop lines until a separator. The stream is a finite prefix; a capture
      it cuts short yields no completed output. */
  method Record(lines: seq<string>) returns (files: seq<Output>)
    ensures files == Frame(lines, 0)
  {
    files := [];
    var csvCount: nat := 0;
    var i := 0;
    while i < |lines|
      invariant 0 <= i <= |lines|
      invariant files + Frame(lines[i..], csvCount) == Frame(lines, 0)
      decreases |lines| - i
    {
      FrameAt(lines, i, csvCount);
      var line := lines[i];
      if IsHeader(line) {
        var counter := csvCount;
        csvCount := csvCount + 1;
        var current, complete;
        current, i, complete := CaptureSamples(lines, i);
        if complete {
          files := files + [Output(counter, current)];
          i := SkipSeparator(lines, i);
        }
      } else {
        i := i + 1;
      }
    }
    assert lines[i..] == [];
  }

  /** Writes the header at `start` and the SampleCount lines after it, as
      far as the stream goes. `complete` tells whether all of them arrived;
      `next` is the position after the last line written. */
  method CaptureSamples(lines: seq<string>, start: nat) returns (current: seq<string>, next: nat, complete: bool)
    requires start < |lines|
    ensures complete <==> start + OutputLength <= |lines|
    ensures complete ==> next == start + OutputLength
    ensures !complete ==> next == |lines|
    ensures current == lines[start..next]
  {
    current := [lines[start]];
    next := start + 1;
    var n := 0;
    while n < SampleCount && next < |lines|
      invariant 0 <= n <= SampleCount
      invariant next == start + 1 + n <= |lines|
      invariant current == lines[start..next]
    {
      current := current + [lines[next]];
      next := next + 1;
      n := n + 1;
    }
    complete := n == SampleCount;
  }

  /** Reads and drops lines from `start` on until one starts with the
      separator prefix; `next` is the position after that line, or the end
      of the stream when none arrives. */
  method SkipSeparator(lines: seq<string>, start: nat) returns (next: nat)
    requires start <= |lines|
    ensures next == start + SkipLength(lines[start..])
  {
    next := start;
    while next < |lines|
      invariant start <= next <= |lines|
      invariant SkipLength(lines[start..]) == (next - start) + SkipLength(lines[next..])
    {
      SkipLengthAt(lines, next);
      var sepLine := lines[next];
      next := next + 1;
      if IsSeparator(sepLine) {
        break;
      }
    }
  }

  /** Where the loop is: scanning for a header, writing the file named with
      `counter` with `remaining` data lines still to come, or dropping lines
      until a separator. */
  datatype Phase = Idle | Capturing(counter: nat, remaining: nat) | Skipping

  /** The whole state of the loop: its phase, the file counter, the lines of
      the file being written and the completed outputs, oldest first. */
  datatype Machine = Machine(phase: Phase, csvCount: nat, current: seq<string>, files: seq<Output>)
  {
    /** What the loop keeps true between lines. Every header seen while idle
        has opened exactly one file: all of them completed but the one being
        written. */
    predicate Valid() {
      (phase.Capturing? ==>
         1 <= phase.remaining <= SampleCount &&
         phase.counter + 1 == csvCount &&
         |current| == OutputLength - phase.remaining &&
         IsHeader(current[0])) &&
      (!phase.Capturing? ==> current == []) &&
      |files| + (if phase.Capturing? then 1 else 0) == csvCount &&
      forall k :: 0 <= k < |files| ==>
        files[k].counter == k && |files[k].lines| == OutputLength && IsHeader(files[k].lines[0])
    }
  }

  /** The loop before the first line: idle, counter at zero, nothing written. */
  const Init: Machine := Machine(Idle, 0, [], [])

  /** One line of input. While idle a header opens a file named with the
      current counter and bumps the counter; any other line is dropped. While
      capturing every line is written, whatever it says; the last data line
      closes the file. While skipping every line is dropped, and a separator
      ends the skip. */
  function Step(m: Machine, line: string): Machine {
    match m.phase
    case Idle =>
      if IsHeader(line) then
        m.(phase := Capturing(m.csvCount, SampleCount), csvCount := m.csvCount + 1, current := [line])
      else m
    case Capturing(counter, remaining) =>
      if remaining <= 1 then
        m.(phase := Skipping, current := [], files := m.files + [Output(counter, m.current + [line])])
      else
        m.(phase := Capturing(counter, remaining - 1), current := m.current + [line])
    case Skipping =>
      if IsSeparator(line) then m.(phase := Idle) else m
  }

  /** The state after feeding `lines`, one at a time, from `m`. */
  function Run(m: Machine, lines: seq<string>): Machine
    decreases |lines|
  {
    if |lines| == 0 then m else Run(Step(m, lines[0]), lines[1..])
  }

  /** The outputs that a loop in state `m` completes on `lines`. */
  function Resume(m: Machine, lines: seq<string>): seq<Output> {
    match m.phase
    case Idle => Frame(lines, m.csvCount)
    case Capturing(counter, remaining) =>
      if |lines| < remaining then []
      else
        var rest := lines[remaining..];
        [Output(counter, m.current + lines[..remaining])] + Frame(rest[SkipLength(rest)..], m.csvCount)
    case Skipping => Frame(lines[SkipLength(lines)..], m.csvCount)
  }

  /** The initial state satisfies the loop invariant. */
  lemma InitValid()
    ensures Init.Valid() && Init.files == [] && Init.csvCount == 0
  {
  }

  /** One step keeps the loop invariant. */
  lemma StepValid(m: Machine, line: string)
    requires m.Valid()
    ensures Step(m, line).Valid()
  {
  }

  /** Any number of steps keep the loop invariant. */
  lemma {:induction false} RunValid(m: Machine, lines: seq<string>)
    requires m.Valid()
    ensures Run(m, lines).Valid()
    decreases |lines|
  {
    if |lines| > 0 {
      StepValid(m, lines[0]);
      RunValid(Step(m, lines[0]), lines[1..]);
    }
  }

  /** Feeding one more line is one more step. */
  lemma {:induction false} RunSnoc(m: Machine, lines: seq<string>, line: string)
    ensures Run(m, lines + [line]) == Step(Run(m, lines), line)
    decreases |lines|
  {
    if |lines| == 0 {
      assert lines + [line] == [line];
    } else {
      assert (lines + [line])[0] == lines[0];
      assert (lines + [line])[1..] == lines[1..] + [line];
      RunSnoc(Step(m, lines[0]), lines[1..], line);
    }
  }

  /** One step moves outputs from the pending part to the completed part and
      no more. */
  lemma StepResume(m: Machine, lines: seq<string>)
    requires m.Valid() && |lines| > 0
    ensures m.files + Resume(m, lines) == Step(m, lines[0]).files + Resume(Step(m, lines[0]), lines[1..])
  {
    var line, tail := lines[0], lines[1..];
    match m.phase
    case Idle =>
      if IsHeader(line) {
        if |lines| >= OutputLength {
          assert [line] + tail[..SampleCount] == lines[..OutputLength];
          assert tail[SampleCount..] == lines[OutputLength..];
        }
      }
    case Capturing(counter, remaining) =>
      if |lines| >= remaining {
        assert m.current + [line] + tail[..remaining - 1] == m.current + lines[..remaining];
        assert tail[remaining - 1..] == lines[remaining..];
      }
      if remaining == 1 {
        assert lines[..1] == [line];
      }
    case Skipping =>
      if !IsSeparator(line) {
        assert lines[SkipLength(lines)..] == tail[SkipLength(tail)..];
      }
  }

  /** From any valid state, the completed outputs after `lines` are those
      already completed followed by the ones Resume predicts. */
  lemma {:induction false} RunResume(m: Machine, lines: seq<string>)
    requires m.Valid()
    ensures Run(m, lines).files == m.files + Resume(m, lines)
    decreases |lines|
  {
    if |lines| == 0 {
    } else {
      StepResume(m, lines);
      StepValid(m, lines[0]);
      RunResume(Step(m, lines[0]), lines[1..]);
    }
  }

  /** Stepping the loop over a stream from the start yields exactly the
      outputs Frame describes, and every header seen while idle has opened
      one file: the counter equals the number of completed outputs, plus one
      while a capture is still open. */
  lemma RunAgreesWithFrame(lines: seq<string>)
    ensures Run(Init, lines).files == Frame(lines, 0)
    ensures Run(Init, lines).Valid()
    ensures |Run(Init, lines).files| + (if Run(Init, lines).phase.Capturing? then 1 else 0)
            == Run(Init, lines).csvCount
  {
    RunResume(Init, lines);
    RunValid(Init, lines);
  }

  /** While idle, lines without the header prefix change nothing: no file,
      no counter change. */
  lemma {:induction false} IdleIgnoresNoise(m: Machine, lines: seq<string>)
    requires m.phase.Idle?
    requires forall i :: 0 <= i < |lines| ==> !IsHeader(lines[i])
    ensures Run(m, lines) == m
    decreases |lines|
  {
    if |lines| > 0 {
      IdleIgnoresNoise(m, lines[1..]);
    }
  }

  /** A capture writes the next `remaining` lines verbatim and in order,
      header lines among them included, without opening another file or
      touching the counter; the last of them closes the file. */
  lemma {:induction false} CaptureWritesNextLines(m: Machine, data: seq<string>)
    requires m.Valid() && m.phase.Capturing?
    requires |data| <= m.phase.remaining
    ensures |data| < m.phase.remaining ==>
      Run(m, data) == m.(phase := Capturing(m.phase.counter, m.phase.remaining - |data|), current := m.current + data)
    ensures |data| == m.phase.remaining ==>
      Run(m, data) == Machine(Skipping, m.csvCount, [], m.files + [Output(m.phase.counter, m.current + data)])
    decreases |data|
  {
    if |data| > 0 {
      var next := Step(m, data[0]);
      StepValid(m, data[0]);
      if |data| == 1 {
        assert data == [data[0]];
      } else {
        CaptureWritesNextLines(next, data[1..]);
        assert m.current + [data[0]] + data[1..] == m.current + data;
      }
    } else {
      assert m.current + data == m.current;
    }
  }

  /** While skipping, every line before the first separator is dropped,
      header lines included; the separator itself is dropped too and returns
      the loop to idle. */
  lemma {:induction false} SkipDropsThroughSeparator(m: Machine, lines: seq<string>)
    requires m.phase.Skipping?
    requires forall i :: 0 <= i < |lines| - 1 ==> !IsSeparator(lines[i])
    ensures Run(m, lines) == if |lines| > 0 && IsSeparator(lines[|lines| - 1]) then m.(phase := Idle) else m
    decreases |lines|
  {
    if |lines| > 1 {
      SkipDropsThroughSeparator(m, lines[1..]);
    }
  }

  /** The recorder as an object: the state the program keeps in local and
      module-level variables, updated in place one line at a time. */
  class CaptureLoop {
    var phase: Phase
    var csvCount: nat
    var current: seq<string>
    var files: seq<Output>

    /** The object's state as a value. */
    function State(): Machine
      reads this
    {
      Machine(phase, csvCount, current, files)
    }

    predicate Valid()
      reads this
    {
      State().Valid()
    }

    constructor ()
      ensures Valid() && State() == Init
    {
      phase := Idle;
      csvCount := 0;
      current := [];
      files := [];
    }

    /** Consumes one line. */
    method Feed(line: string)
      requires Valid()
      modifies this
      ensures Valid() && State() == Step(old(State()), line)
    {
      StepValid(State(), line);
      match phase
      case Idle =>
        if IsHeader(line) {
          phase := Capturing(csvCount, SampleCount);
          csvCount := csvCount + 1;
          current := [line];
        }
      case Capturing(counter, remaining) =>
        current := current + [line];
        if remaining <= 1 {
          files := files + [Output(counter, current)];
          current := [];
          phase := Skipping;
        } else {
          phase := Capturing(counter, remaining - 1);
        }
      case Skipping =>
        if IsSeparator(line) {
          phase := Idle;
        }
    }

    /** Consumes a finite stretch of the stream, line by line. */
    method Listen(lines: seq<string>)
      requires Valid()
      modifies this
      ensures Valid() && State() == Run(old(State()), lines)
    {
      for i := 0 to |lines|
        invariant Valid() && State() == Run(old(State()), lines[..i])
      {
        RunSnoc(old(State()), lines[..i], lines[i]);
        assert lines[..i + 1] == lines[..i] + [lines[i]];
        Feed(lines[i]);
      }
      assert lines[..|lines|] == lines;
    }
  }

  /** A fresh recorder fed a stream completes exactly the outputs Frame
      describes. */
  method RecordWithLoop(lines: seq<string>) returns (files: seq<Output>)
    ensures files == Frame(lines, 0)
  {
    var loop := new CaptureLoop();
    loop.Listen(lines);
    RunAgreesWithFrame(lines);
    files := loop.files;
  }
}
