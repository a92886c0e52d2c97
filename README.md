# Ultrasound recorder: line framing

This project models the framing loop of the ultrasound thickness gauge's
serial recorder (`UT_Empirical_v5_Record/recorder.py`). The microcontroller
prints tables as text lines. The recorder waits for the table header, a
line that starts with `Idx,Raw,Ref,Corrected,EchoIdx,Thickness_mm`. It
opens a new CSV file named with an incrementing counter. It writes the
header and the next 50 lines into that file verbatim. Then it drops lines
up to and including the next line that starts with `-----`, and goes back
to waiting for a header.

The stream is modelled as a finite sequence of already decoded and stripped
lines. A completed output is a counter plus the lines of the file in the
order they were written.

- `Framing` (framing.dfy) holds the constants, the reference function
  `Frame` and the lemmas about it. `Frame` gives the outputs of a whole
  stream: skip to a header, take 51 lines, drop through the next separator,
  repeat. `SkipLength` gives the number of lines the discard phase consumes.
- `Recorder` (recorder.dfy) holds the loop twice:
  - `Record`, with `CaptureSamples` and `SkipSeparator`, follows the
    program's own nested loops: the outer scan, the 50-line `for` and the
    `while True` that looks for the separator. It is proved to return
    `Frame(lines, 0)`.
  - `Step`, `Run` and the class `CaptureLoop` (`Feed`, `Listen`) are the
    same loop as a resumable state machine: idle, capturing with a count of
    data lines still to come, or skipping. `RunAgreesWithFrame` proves that
    feeding a stream line by line from the initial state completes exactly
    `Frame(lines, 0)`. The machine invariant `Machine.Valid` says that the
    counter equals the number of headers accepted while idle.

A capture that the end of the finite stream cuts short is not a completed
output. In the machine it stays in `current` with the phase `Capturing`.

## Model

| member | source | states |
|---|---|---|
| `Framing.SkipLength` | UT_Empirical_v5_Record/recorder.py:32-36 | the discard phase consumes every line up to and including the first one starting with `-----`, and the whole rest of the stream when none comes |
| `Framing.SkipLengthAtFirstSeparator` | UT_Empirical_v5_Record/recorder.py:33-36 | the first separator at position p ends the discard after p+1 lines |
| `Framing.SkipLengthWithoutSeparator` | UT_Empirical_v5_Record/recorder.py:33-36 | without a separator, every remaining line is dropped |
| `Framing.SkipLengthAt` | UT_Empirical_v5_Record/recorder.py:34-36 | one read of the discard loop: a separator ends it, any other line is dropped and reading continues |
| `Framing.FrameAt` | UT_Empirical_v5_Record/recorder.py:14-36 | one turn of the outer loop at a stream position: a non-header is dropped; a header opens a capture of the 51 lines starting at it, and the scan resumes after the next separator |
| `Framing.FrameOutputShape` | UT_Empirical_v5_Record/recorder.py:12-30 | the k-th output carries counter `count + k`, so counters are distinct and increasing from 0; it has exactly 51 lines, and its first line starts with the header prefix |
| `Framing.FrameOutputsAreInputRuns` | UT_Empirical_v5_Record/recorder.py:24-30 | every output is 51 consecutive input lines: the header and the 50 lines right after it, unchanged and in arrival order |
| `Framing.FrameIgnoresLeadingNoise` | UT_Empirical_v5_Record/recorder.py:14-18 | a leading run of lines with no header can be removed without changing any output, so lines before the first header never reach a file |
| `Framing.FrameWithoutHeaderIsEmpty` | UT_Empirical_v5_Record/recorder.py:14-18 | a stream with no header line produces no output |
| `Framing.FrameDiscardsThroughSeparator` | UT_Empirical_v5_Record/recorder.py:32-36 | after a capture, every line through the first separator is written nowhere, headers included, and scanning resumes after it with the next counter |
| `Framing.FrameWithoutSeparatorStops` | UT_Empirical_v5_Record/recorder.py:32-36 | if no separator follows a capture, that capture is the last output, whatever headers come later |
| `Recorder.Record` | UT_Empirical_v5_Record/recorder.py:12-38 | the program's nested loops, run over a finite stream, complete exactly `Frame(lines, 0)` |
| `Recorder.CaptureSamples` | UT_Empirical_v5_Record/recorder.py:24-30 | the file receives the header and the next 50 lines verbatim; it is complete exactly when all 50 arrived |
| `Recorder.SkipSeparator` | UT_Empirical_v5_Record/recorder.py:32-36 | the separator loop consumes exactly `SkipLength` lines |
| `Recorder.InitValid` | UT_Empirical_v5_Record/recorder.py:12 | the loop starts idle with `csv_count` at 0, no file open and nothing written, and this state satisfies the machine invariant |
| `Recorder.StepValid` | UT_Empirical_v5_Record/recorder.py:14-36 | one line keeps the invariant: at most one file is open; `csv_count` equals the number of completed files, plus one while a capture is open; file k carries counter k, has 51 lines and starts with a header |
| `Recorder.RunValid` | UT_Empirical_v5_Record/recorder.py:14-36 | any number of lines keep that invariant |
| `Recorder.RunSnoc` | UT_Empirical_v5_Record/recorder.py:14-15 | feeding one more line at the end of a stream is one more step |
| `Recorder.StepResume` | UT_Empirical_v5_Record/recorder.py:14-36 | a step neither loses nor invents outputs: the files completed so far plus those still to come stay the same |
| `Recorder.RunResume` | UT_Empirical_v5_Record/recorder.py:14-38 | from any valid state, the outputs after a stream are the ones already completed followed by those predicted for that state |
| `Recorder.RunAgreesWithFrame` | UT_Empirical_v5_Record/recorder.py:12-38 | stepping line by line from the start completes exactly `Frame(lines, 0)`, and `csv_count` equals the number of headers accepted while idle |
| `Recorder.IdleIgnoresNoise` | UT_Empirical_v5_Record/recorder.py:14-18 | while idle, lines without the header prefix change nothing: no file and no counter change |
| `Recorder.CaptureWritesNextLines` | UT_Empirical_v5_Record/recorder.py:24-30 | while capturing, the next lines are appended verbatim, headers among them, without opening a new file or changing the counter; the 50th data line closes the file with header plus 50 lines |
| `Recorder.SkipDropsThroughSeparator` | UT_Empirical_v5_Record/recorder.py:33-36 | while skipping, every line is dropped, headers included, and only a separator returns the loop to idle |
| `Recorder.CaptureLoop.constructor` | UT_Empirical_v5_Record/recorder.py:12 | a new loop is idle, its counter is 0 and nothing is written |
| `Recorder.CaptureLoop.Feed` | UT_Empirical_v5_Record/recorder.py:14-36 | one line updates the object in place exactly as `Step` says and keeps the invariant |
| `Recorder.CaptureLoop.Listen` | UT_Empirical_v5_Record/recorder.py:14-15 | feeding a stream line by line leaves the object in the state `Run` gives |
| `Recorder.RecordWithLoop` | UT_Empirical_v5_Record/recorder.py:12-38 | a fresh loop object fed a stream completes exactly `Frame(lines, 0)` |

## Left out

- Opening the serial port and reading lines from it (lines 5-6, 9, 15, 29, 34) are not modelled. The input is a finite sequence of lines.
- UTF-8 decoding with errors ignored and `strip()` (lines 15, 29, 34) are not modelled. Lines are taken as already decoded and stripped.
- The timestamp and folder in the file name (lines 7, 19-20) depend on the clock and the file system. A file is identified by its counter only.
- Opening and writing files (lines 24-30) are not modelled. A file is its sequence of lines; the newline written after each line is not modelled.
- The progress messages (lines 10, 22, 38) are console output and are not modelled.
- The loop never ends and its reads block. The model covers a finite prefix of the stream. A capture cut short by the end of the prefix is an open capture, not an output; a pending skip is just the skipping phase. On disk, such a capture would be a partly written file.
- The second variant of the recorder uses an end-marker policy. It is not part of this model.
