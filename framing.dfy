/** The framing rule of the ultrasound recorder, stated on a finite stream of
    already decoded and stripped text lines: scan for a table header, copy the
    header and the fixed number of lines after it into one output, then discard
    lines up to and including the next separator line. */
module Framing {

  /** Prefix of the table header line that opens a capture. */
  const HeaderPrefix: string := "Idx,Raw,Ref,Corrected,EchoIdx,Thickness_mm"

  /** Prefix of the separator line that ends the discard phase after a capture. */
  const SeparatorPrefix: string := "-----"

  /** Number of data lines copied after the header. */
  const SampleCount: nat := 50

  /** Lines in every completed output: the header followed by the data lines. */
  const OutputLength: nat := SampleCount + 1

  predicate StartsWith(line: string, prefix: string) {
    |prefix| <= |line| && line[..|prefix|] == prefix
  }

  predicate IsHeader(line: string) {
    StartsWith(line, HeaderPrefix)
  }

  predicate IsSeparator(line: string) {
    StartsWith(line, SeparatorPrefix)
  }

  /** A completed output file: the counter its name carries and its lines, in
      the order they were written. */
  datatype Output = Output(counter: nat, lines: seq<string>)

  /** How many lines the discard phase consumes from `s`: everything up to and
      including the first separator line, or all of `s` when none arrives. */
  function SkipLength(s: seq<string>): (n: nat)
    ensures n <= |s|
    ensures forall i :: 0 <= i < n - 1 ==> !IsSeparator(s[i])
    ensures n == |s| || (0 < n && IsSeparator(s[n - 1]))
    decreases |s|
  {
    if |s| == 0 then 0
    else if IsSeparator(s[0]) then 1
    else 1 + SkipLength(s[1..])
  }

  /** The outputs produced from `lines` by a recorder that starts idle and
      whose next file is named with `count`. A capture that the stream ends
      before its last data line produces no completed output. */
  function Frame(lines: seq<string>, count: nat): seq<Output>
    decreases |lines|
  {
    if |lines| == 0 then []
    else if !IsHeader(lines[0]) then Frame(lines[1..], count)
    else if |lines| < OutputLength then []
    else
      var rest := lines[OutputLength..];
      [Output(count, lines[..OutputLength])] + Frame(rest[SkipLength(rest)..], count + 1)
  }

  /** The discard phase stops right after the first separator line. */
  lemma SkipLengthAtFirstSeparator(s: seq<string>, p: nat)
    requires p < |s| && IsSeparator(s[p])
    requires forall i :: 0 <= i < p ==> !IsSeparator(s[i])
    ensures SkipLength(s) == p + 1
  {
  }

  /** Without a separator the discard phase consumes the whole stream. */
  lemma SkipLengthWithoutSeparator(s: seq<string>)
    requires forall i :: 0 <= i < |s| ==> !IsSeparator(s[i])
    ensures SkipLength(s) == |s|
  {
  }

  /** One line of the discard phase, read at position `i` of a stream. */
  lemma SkipLengthAt(lines: seq<string>, i: nat)
    requires i < |lines|
    ensures SkipLength(lines[i..]) == if IsSeparator(lines[i]) then 1 else 1 + SkipLength(lines[i + 1..])
  {
    assert lines[i..][0] == lines[i];
    assert lines[i..][1..] == lines[i + 1..];
  }

  /** Frame read at position `i` of a stream: a line that is not a header is
      dropped; a header with too few lines after it completes nothing; a
      header with enough lines after it completes one output and the loop
      resumes after the next separator. */
  lemma FrameAt(lines: seq<string>, i: nat, count: nat)
    requires i < |lines|
    ensures !IsHeader(lines[i]) ==> Frame(lines[i..], count) == Frame(lines[i + 1..], count)
    ensures IsHeader(lines[i]) && |lines| < i + OutputLength ==> Frame(lines[i..], count) == []
    ensures IsHeader(lines[i]) && i + OutputLength <= |lines| ==>
      var after := i + OutputLength;
      Frame(lines[i..], count) ==
        [Output(count, lines[i..after])] + Frame(lines[after + SkipLength(lines[after..])..], count + 1)
  {
    var tail := lines[i..];
    assert tail[0] == lines[i];
    assert tail[1..] == lines[i + 1..];
    if i + OutputLength <= |lines| {
      var after := i + OutputLength;
      assert tail[..OutputLength] == lines[i..after];
      assert tail[OutputLength..] == lines[after..];
      var skip := SkipLength(lines[after..]);
      assert lines[after..][skip..] == lines[after + skip..];
    }
  }

  /** Output `o` holds the input lines from position `s` on: the header at
      `s` and the data lines right after it, in arrival order. */
  predicate CapturedAt(lines: seq<string>, s: nat, o: Output) {
    s + OutputLength <= |lines| && o.lines == lines[s..s + OutputLength]
  }

  /** The k-th output carries counter `count + k`, has exactly the header and
      the data lines, and begins with a header line. */
  lemma {:induction false} FrameOutputShape(lines: seq<string>, count: nat)
    ensures forall k :: 0 <= k < |Frame(lines, count)| ==>
      Frame(lines, count)[k].counter == count + k &&
      |Frame(lines, count)[k].lines| == OutputLength &&
      IsHeader(Frame(lines, count)[k].lines[0])
    decreases |lines|
  {
    if |lines| == 0 {
    } else if !IsHeader(lines[0]) {
      FrameOutputShape(lines[1..], count);
    } else if |lines| < OutputLength {
    } else {
      var rest := lines[OutputLength..];
      FrameOutputShape(rest[SkipLength(rest)..], count + 1);
    }
  }

  /** Every output is a run of consecutive input lines: a header line and the
      data lines that immediately follow it, unchanged and in arrival order. */
  lemma {:induction false} FrameOutputsAreInputRuns(lines: seq<string>, count: nat)
    ensures forall o :: o in Frame(lines, count) ==>
      exists s: nat :: CapturedAt(lines, s, o)
    decreases |lines|
  {
    if |lines| == 0 {
    } else if !IsHeader(lines[0]) {
      var tail := lines[1..];
      FrameOutputsAreInputRuns(tail, count);
      forall o | o in Frame(lines, count)
        ensures exists s: nat :: CapturedAt(lines, s, o)
      {
        assert o in Frame(tail, count);
        var s: nat :| CapturedAt(tail, s, o);
        assert tail[s..s + OutputLength] == lines[s + 1..s + 1 + OutputLength];
        assert CapturedAt(lines, s + 1, o);
      }
    } else if |lines| < OutputLength {
    } else {
      var rest := lines[OutputLength..];
      var skip := SkipLength(rest);
      var tail := rest[skip..];
      var offset := OutputLength + skip;
      assert tail == lines[offset..];
      FrameOutputsAreInputRuns(tail, count + 1);
      forall o | o in Frame(lines, count)
        ensures exists s: nat :: CapturedAt(lines, s, o)
      {
        if o == Output(count, lines[..OutputLength]) {
          assert lines[..OutputLength] == lines[0..0 + OutputLength];
          assert CapturedAt(lines, 0, o);
        } else {
          assert o in Frame(tail, count + 1);
          var s: nat :| CapturedAt(tail, s, o);
          assert tail[s..s + OutputLength] == lines[offset + s..offset + s + OutputLength];
          assert CapturedAt(lines, offset + s, o);
        }
      }
    }
  }

  /** Lines before the first header line never reach an output: a prefix
      without header lines can be dropped without changing the outputs. */
  lemma {:induction false} FrameIgnoresLeadingNoise(noise: seq<string>, lines: seq<string>, count: nat)
    requires forall i :: 0 <= i < |noise| ==> !IsHeader(noise[i])
    ensures Frame(noise + lines, count) == Frame(lines, count)
    decreases |noise|
  {
    if |noise| > 0 {
      assert (noise + lines)[0] == noise[0];
      assert (noise + lines)[1..] == noise[1..] + lines;
      assert !IsHeader(noise[0]);
      FrameIgnoresLeadingNoise(noise[1..], lines, count);
      assert Frame(noise + lines, count) == Frame(noise[1..] + lines, count);
    } else {
      assert noise + lines == lines;
    }
  }

  /** A stream without header lines produces no output. */
  lemma {:induction false} FrameWithoutHeaderIsEmpty(lines: seq<string>, count: nat)
    requires forall i :: 0 <= i < |lines| ==> !IsHeader(lines[i])
    ensures Frame(lines, count) == []
  {
    FrameIgnoresLeadingNoise(lines, [], count);
    assert lines + [] == lines;
  }

  /** After a capture, every line up to and including the first separator is
      discarded, header lines among them too, and the recorder is idle again
      for the rest of the stream with the next counter. */
  lemma FrameDiscardsThroughSeparator(lines: seq<string>, count: nat, gap: seq<string>, tail: seq<string>)
    requires |lines| >= OutputLength && IsHeader(lines[0])
    requires lines[OutputLength..] == gap + tail
    requires |gap| > 0 && IsSeparator(gap[|gap| - 1])
    requires forall i :: 0 <= i < |gap| - 1 ==> !IsSeparator(gap[i])
    ensures Frame(lines, count) == [Output(count, lines[..OutputLength])] + Frame(tail, count + 1)
  {
    var rest := gap + tail;
    assert rest[|gap| - 1] == gap[|gap| - 1];
    forall i | 0 <= i < |gap| - 1 ensures !IsSeparator(rest[i]) {
      assert rest[i] == gap[i];
    }
    SkipLengthAtFirstSeparator(rest, |gap| - 1);
    assert rest[|gap|..] == tail;
  }

  /** When no separator follows a capture, nothing after it is ever written:
      the capture is the last output, whatever the remaining lines contain. */
  lemma FrameWithoutSeparatorStops(lines: seq<string>, count: nat)
    requires |lines| >= OutputLength && IsHeader(lines[0])
    requires forall i :: OutputLength <= i < |lines| ==> !IsSeparator(lines[i])
    ensures Frame(lines, count) == [Output(count, lines[..OutputLength])]
  {
    var rest := lines[OutputLength..];
    forall i | 0 <= i < |rest| ensures !IsSeparator(rest[i]) {
      assert rest[i] == lines[OutputLength + i];
    }
    SkipLengthWithoutSeparator(rest);
    assert rest[|rest|..] == [];
  }
}
