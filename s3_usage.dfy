/** The S3 usage report: list the buckets, then query each bucket's summary
    and report its total size, one line per bucket, carrying on past buckets
    whose query fails. */
module S3Usage {
  import opened Wrappers
  import opened Text
  import opened LastWins
  import opened Commands

  /** The marker of the summary line of `aws s3 ls --summarize`. */
  const SizeMarker: string := "Total Size:"

  /** The size reported when no summary line gives one. */
  const NoSize: string := "0"

  /** What one summary-output line contributes: on a line that carries the
      marker and has at least three fields, the third field. */
  function SizeField(line: string): Option<string>
  {
    if Contains(line, SizeMarker) then
      var parts := Fields(line);
      if |parts| >= 3 then Some(parts[2]) else None
    else None
  }

  /** The size the summary scan settles on. */
  function BucketSize(summary: string): string
  {
    LastMatch(Split(summary, '\n'), SizeField, NoSize)
  }

  /** With no summary line that carries the marker and has at least three
      fields (in particular with no line carrying the marker), the size is "0". */
  lemma BucketSizeWithoutSummaryLine(summary: string)
    requires forall line | line in Split(summary, '\n') :: SizeField(line).None?
    ensures BucketSize(summary) == NoSize
  {
    var lines := Split(summary, '\n');
    forall i | 0 <= i < |lines| ensures SizeField(lines[i]).None? {
      assert lines[i] in lines;
    }
    LastMatchNoHit(lines, SizeField, NoSize);
  }

  /** Otherwise the size is the third field of the LAST summary line that
      carries the marker and has at least three fields. */
  lemma BucketSizeFromLastSummaryLine(summary: string, j: int)
    requires IsLastHit(Split(summary, '\n'), SizeField, j)
    ensures var line := Split(summary, '\n')[j];
      && Contains(line, SizeMarker)
      && |Fields(line)| >= 3
      && BucketSize(summary) == Fields(line)[2]
  {
    var lines := Split(summary, '\n');
    LastMatchLastHit(lines, SizeField, NoSize, j);
    assert SizeField(lines[j]).Some?;
  }

  /** The size is never empty and never holds whitespace: it is "0" or one field. */
  lemma BucketSizeIsOneWord(summary: string)
    ensures BucketSize(summary) != "" && NoSpace(BucketSize(summary))
  {
    var lines := Split(summary, '\n');
    var size := BucketSize(summary);
    LastMatchFrom(lines, SizeField, NoSize);
    if size != NoSize {
      var i :| 0 <= i < |lines| && SizeField(lines[i]) == Some(size);
      assert size in Fields(lines[i]);
    }
  }

  /** The scan over the summary lines: every marker line with at least three
      fields overwrites the size with its third field, so the last one wins. */
  method ScanSize(summary: string) returns (size: string)
    ensures size == BucketSize(summary)
  {
    size := NoSize;
    var lines := Split(summary, '\n');
    for k := 0 to |lines|
      invariant size == LastMatch(lines[..k], SizeField, NoSize)
    {
      assert lines[..k + 1][..k] == lines[..k];
      if Contains(lines[k], SizeMarker) {
        var parts := Fields(lines[k]);
        if |parts| >= 3 {
          size := parts[2];
        }
      }
    }
    assert lines[..|lines|] == lines;
  }

  /** The line reported when the bucket listing fails. */
  function ListFailureLine(reason: string): string
  {
    "(Could not list S3 buckets: " + reason + ")"
  }

  /** The line reported for a bucket whose summary query fails. */
  function BucketErrorLine(bucket: string, reason: string): string
  {
    "  " + bucket + ": error retrieving bucket size: " + reason
  }

  /** The line reported for a bucket whose summary query succeeds. */
  function SizeLine(bucket: string, size: string): string
  {
    bucket + ": " + size + " bytes"
  }

  /** The line for one bucket, given the outcome of its summary query. */
  function BucketLine(bucket: string, summary: CmdResult): string
  {
    match summary
    case Failed(reason) => BucketErrorLine(bucket, reason)
    case Ran(output) => SizeLine(bucket, BucketSize(output))
  }

  /** The summary queries for `buckets`, in order. */
  function BucketQueries(buckets: seq<string>): (qs: seq<Command>)
    ensures |qs| == |buckets|
    ensures forall k | 0 <= k < |qs| :: qs[k] == ListBucket(buckets[k])
  {
    if buckets == [] then []
    else BucketQueries(buckets[..|buckets| - 1]) + [ListBucket(buckets[|buckets| - 1])]
  }

  /** The lines reported for `buckets`, in order. */
  function UsageLines(buckets: seq<string>, run: Runner): (lines: seq<string>)
    ensures |lines| == |buckets|
  {
    if buckets == [] then []
    else
      var last := buckets[|buckets| - 1];
      UsageLines(buckets[..|buckets| - 1], run) + [BucketLine(last, run(ListBucket(last)))]
  }

  /** Bucket `i` is queried `i`-th and reported on the `i`-th line, with either
      its error line or its size line, whatever happened to the other buckets. */
  lemma {:induction false} UsageLineAt(buckets: seq<string>, run: Runner, i: nat)
    requires i < |buckets|
    ensures BucketQueries(buckets)[i] == ListBucket(buckets[i])
    ensures var line := UsageLines(buckets, run)[i];
      match run(ListBucket(buckets[i]))
      case Failed(reason) => line == BucketErrorLine(buckets[i], reason)
      case Ran(output) => line == SizeLine(buckets[i], BucketSize(output))
    decreases |buckets|
  {
    var n := |buckets| - 1;
    if i < n {
      UsageLineAt(buckets[..n], run, i);
    }
  }

  /** A bucket's query outcome affects its own line only: two runs that agree
      on every other bucket's query produce the same lines for those buckets. */
  lemma FailureStaysLocal(buckets: seq<string>, run1: Runner, run2: Runner, bucket: string)
    requires forall b | b != bucket :: run1(ListBucket(b)) == run2(ListBucket(b))
    ensures forall i | 0 <= i < |buckets| && buckets[i] != bucket ::
      UsageLines(buckets, run1)[i] == UsageLines(buckets, run2)[i]
  {
    forall i | 0 <= i < |buckets| && buckets[i] != bucket
      ensures UsageLines(buckets, run1)[i] == UsageLines(buckets, run2)[i]
    {
      UsageLineAt(buckets, run1, i);
      UsageLineAt(buckets, run2, i);
    }
  }

  /** A size line splits back, on whitespace, into the bucket name followed by
      ':', the size, and "bytes". */
  lemma SizeLineFields(bucket: string, summary: string)
    requires bucket != "" && NoSpace(bucket)
    ensures Fields(SizeLine(bucket, BucketSize(summary))) == [bucket + ":", BucketSize(summary), "bytes"]
  {
    var size := BucketSize(summary);
    BucketSizeIsOneWord(summary);
    var words := [bucket + ":", size, "bytes"];
    assert words[1..] == [size, "bytes"] && words[1..][1..] == ["bytes"];
    assert Join(words[1..], ' ') == size + " " + "bytes";
    assert SizeLine(bucket, size) == (bucket + ":") + " " + (size + " " + "bytes");
    assert NoSpace(bucket + ":");
    FieldsOfJoin(words);
  }

  /** The commands the usage report runs: the listing, then one query per
      listed bucket, in listing order. */
  function UsageCommands(run: Runner): (cmds: seq<Command>)
    ensures |cmds| >= 1 && cmds[0] == ListBuckets
    ensures forall k | 1 <= k < |cmds| :: cmds[k].ListBucket?
  {
    match run(ListBuckets)
    case Failed(_) => [ListBuckets]
    case Ran(output) => [ListBuckets] + BucketQueries(Fields(output))
  }

  /** The lines of the usage report: the single failure line when the listing
      fails, otherwise one line per listed bucket. */
  function UsageReport(run: Runner): (report: seq<string>)
  {
    match run(ListBuckets)
    case Failed(reason) => [ListFailureLine(reason)]
    case Ran(output) => UsageLines(Fields(output), run)
  }

  /** The report: list the buckets (stopping with one line if that fails), then
      query every bucket in listing order and report one line for each, going on
      to the next bucket after a failed query. Returns the lines printed and the
      commands run, in order. */
  method ReportUsage(run: Runner) returns (report: seq<string>, ran: seq<Command>)
    ensures var listing := run(ListBuckets);
      && (listing.Failed? ==> report == [ListFailureLine(listing.reason)] && ran == [ListBuckets])
      && (listing.Ran? ==>
            var buckets := Fields(listing.output);
            report == UsageLines(buckets, run) && ran == [ListBuckets] + BucketQueries(buckets))
  {
    ran := [ListBuckets];
    var listing := run(ListBuckets);
    if listing.Failed? {
      return [ListFailureLine(listing.reason)], ran;
    }
    var buckets := Fields(listing.output);
    report := [];
    for k := 0 to |buckets|
      invariant report == UsageLines(buckets[..k], run)
      invariant ran == [ListBuckets] + BucketQueries(buckets[..k])
    {
      assert buckets[..k + 1][..k] == buckets[..k];
      var bucket := buckets[k];
      ran := ran + [ListBucket(bucket)];
      var summary := run(ListBucket(bucket));
      if summary.Failed? {
        report := report + [BucketErrorLine(bucket, summary.reason)];
        continue;
      }
      var size := ScanSize(summary.output);
      report := report + [SizeLine(bucket, size)];
    }
    assert buckets[..|buckets|] == buckets;
  }
}
