/** Failure records: `handleError` and the append branch of `writeDataFile`
    in main.go.

    The log file and the standard-error stream are modelled by their
    contents as strings. Opening the log file is the one step that can fail;
    its outcome is a parameter (`openErr`), because the file system is not
    part of the model.
 */
module ErrorLog {
  import opened Text
  import opened Errors

  const Newline: char := '\n'

  /** The line `handleError` formats when `err` was met while handling
      `context` (the request URL). */
  function FormatRecord(err: string, context: string): string {
    "run error: " + err + " ------ " + context + "\n"
  }

  /** What `writeDataFile` writes for `inData`: every string followed by a
      newline of its own, so the block holds at least one newline per
      string. */
  function DataBlock(inData: seq<string>): (r: string)
    ensures Count(r, Newline) >= |inData|
    ensures |inData| > 0 ==> EndsWith(r, Newline)
  {
    if |inData| == 0 then ""
    else
      var front := DataBlock(inData[..|inData| - 1]);
      CountAppend(front, inData[|inData| - 1], Newline);
      CountAppend(front + inData[|inData| - 1], "\n", Newline);
      front + inData[|inData| - 1] + "\n"
  }

  /** A single string is written followed by one newline. */
  lemma DataBlockSingle(s: string)
    ensures DataBlock([s]) == s + "\n"
  {
  }

  /** The block of a non-empty sequence is the block of all but its last
      string, then that string and its newline. */
  lemma DataBlockLast(inData: seq<string>)
    requires |inData| > 0
    ensures DataBlock(inData) == DataBlock(inData[..|inData| - 1]) + inData[|inData| - 1] + "\n"
  {
  }

  /** Regrouping the last step of `DataBlockAppend`, kept apart so that its
      proof stays small. */
  lemma Regroup(p: string, q: string, x: string)
    ensures p + q + x + "\n" == p + (q + x + "\n")
  {
  }

  /** Writing two sequences one after the other writes the blocks of both
      in order. With `DataBlockSingle` this fixes the block of every
      sequence: its strings in order, each followed by one newline. */
  lemma {:induction false} DataBlockAppend(a: seq<string>, b: seq<string>)
    ensures DataBlock(a + b) == DataBlock(a) + DataBlock(b)
    decreases |b|
  {
    if |b| == 0 {
      assert a + b == a;
    } else {
      var ab := a + b;
      var x := b[|b| - 1];
      assert ab[..|ab| - 1] == a + b[..|b| - 1];
      assert ab[|ab| - 1] == x;
      DataBlockLast(ab);
      DataBlockAppend(a, b[..|b| - 1]);
      DataBlockLast(b);
      Regroup(DataBlock(a), DataBlock(b[..|b| - 1]), x);
    }
  }

  /** `writeDataFile(inData, path, true)` over the file's `contents`. When
      opening the file fails, the error is returned and nothing is written;
      otherwise every string is buffered with a newline after it and the
      buffer is flushed at the end of the file. */
  method WriteDataFile(contents: string, inData: seq<string>, openErr: GoError)
    returns (written: string, err: GoError)
    ensures err == openErr
    ensures openErr.Error? ==> written == contents
    ensures openErr.Nil? ==> written == contents + DataBlock(inData)
  {
    if openErr.Error? {
      return contents, openErr;
    }
    var buffered := "";
    var i := 0;
    while i < |inData|
      invariant 0 <= i <= |inData|
      invariant buffered == DataBlock(inData[..i])
    {
      assert inData[..i + 1][..i] == inData[..i];
      buffered := buffered + inData[i] + "\n";
      i := i + 1;
    }
    assert inData[..|inData|] == inData;
    written := contents + buffered;
    err := Nil;
  }

  /** The two outputs a failure is reported to. */
  datatype Sink = Sink(stderr: string, log: string)

  /** `handleError`: the formatted line goes to standard error, and is
      appended through `writeDataFile` to the log, which adds another newline
      after it. A failure to open the log leaves it unchanged and is not
      reported: the caller never sees it. */
  function HandleError(sink: Sink, err: string, context: string, openErr: GoError): (r: Sink)
    ensures r.stderr == sink.stderr + FormatRecord(err, context)
    ensures openErr.Nil? ==> r.log == sink.log + FormatRecord(err, context) + "\n"
    ensures openErr.Error? ==> r.log == sink.log
  {
    var line := FormatRecord(err, context);
    var log := if openErr.Nil? then sink.log + DataBlock([line]) else sink.log;
    DataBlockSingle(line);
    Sink(sink.stderr + line, log)
  }

  /** One failed job: the error, the request URL, and how opening the log
      went. */
  datatype Failure = Failure(err: string, context: string, openErr: GoError)

  /** The sink after reporting `failures` in order. */
  function RecordAll(sink: Sink, failures: seq<Failure>): Sink
  {
    if |failures| == 0 then sink
    else
      var f := failures[|failures| - 1];
      HandleError(RecordAll(sink, failures[..|failures| - 1]), f.err, f.context, f.openErr)
  }

  /** Number of failures whose log could be opened. */
  function Logged(failures: seq<Failure>): nat {
    if |failures| == 0 then 0
    else Logged(failures[..|failures| - 1]) + (if failures[|failures| - 1].openErr.Nil? then 1 else 0)
  }

  /** No newline inside the error text or the URL of any failure. */
  predicate SingleLine(failures: seq<Failure>) {
    forall i :: 0 <= i < |failures| ==>
      Count(failures[i].err, Newline) == 0 && Count(failures[i].context, Newline) == 0
  }

  /** Reporting never rewrites what is already there: earlier contents of
      both outputs stay as their prefix. */
  lemma {:induction false} RecordAllKeepsPrefix(sink: Sink, failures: seq<Failure>)
    ensures sink.stderr <= RecordAll(sink, failures).stderr
    ensures sink.log <= RecordAll(sink, failures).log
    decreases |failures|
  {
    if |failures| > 0 {
      RecordAllKeepsPrefix(sink, failures[..|failures| - 1]);
    }
  }

  /** A formatted record of single-line texts is exactly one line. */
  lemma FormatRecordOneLine(err: string, context: string)
    requires Count(err, Newline) == 0 && Count(context, Newline) == 0
    ensures Count(FormatRecord(err, context), Newline) == 1
  {
    var a: string := "run error: ";
    var b: string := " ------ ";
    assert Count(a, Newline) == 0 by {
      assert All(a, c => c != Newline);
      CountAbsent(a, Newline, c => c != Newline);
    }
    assert Count(b, Newline) == 0 by {
      assert All(b, c => c != Newline);
      CountAbsent(b, Newline, c => c != Newline);
    }
    CountAppend(a, err, Newline);
    CountAppend(a + err, b, Newline);
    CountAppend(a + err + b, context, Newline);
    CountAppend(a + err + b + context, "\n", Newline);
  }

  /** Reporting one single-line failure adds one line to standard error,
      and two newlines to the log when the log could be opened. */
  lemma HandleErrorLineCount(sink: Sink, err: string, context: string, openErr: GoError)
    requires Count(err, Newline) == 0 && Count(context, Newline) == 0
    ensures Count(HandleError(sink, err, context, openErr).stderr, Newline) == Count(sink.stderr, Newline) + 1
    ensures Count(HandleError(sink, err, context, openErr).log, Newline)
      == Count(sink.log, Newline) + (if openErr.Nil? then 2 else 0)
  {
    var line := FormatRecord(err, context);
    FormatRecordOneLine(err, context);
    var r := HandleError(sink, err, context, openErr);
    assert r.stderr == sink.stderr + line;
    CountAppend(sink.stderr, line, Newline);
    if openErr.Nil? {
      assert r.log == sink.log + line + "\n";
      CountAppend(sink.log, line, Newline);
      CountAppend(sink.log + line, "\n", Newline);
    }
  }

  /** With single-line errors and URLs, N failures add exactly N lines to
      standard error, and two newlines (the record and an empty line) to the
      log for every failure whose log could be opened: no record is lost
      and none is split. */
  lemma {:induction false} RecordAllLineCount(sink: Sink, failures: seq<Failure>)
    requires SingleLine(failures)
    ensures Count(RecordAll(sink, failures).stderr, Newline) == Count(sink.stderr, Newline) + |failures|
    ensures Count(RecordAll(sink, failures).log, Newline) == Count(sink.log, Newline) + 2 * Logged(failures)
    decreases |failures|
  {
    if |failures| > 0 {
      var front := failures[..|failures| - 1];
      var f := failures[|failures| - 1];
      assert SingleLine(front) by {
        forall i | 0 <= i < |front|
          ensures Count(front[i].err, Newline) == 0 && Count(front[i].context, Newline) == 0
        {
          assert front[i] == failures[i];
        }
      }
      RecordAllLineCount(sink, front);
      HandleErrorLineCount(RecordAll(sink, front), f.err, f.context, f.openErr);
    }
  }
}
