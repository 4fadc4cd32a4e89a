/** The reporting half of `main`: the optional billing report, chosen by the
    "$" flag, followed by the S3 usage report. Each header is printed with a
    leading line break, so it appears as an empty line and the header line. */
module Reports {
  import opened Commands
  import opened Billing
  import opened S3Usage

  const BillingHeader: string := "==== AWS Billing for Current Month ===="
  const UsageHeader: string := "==== S3 Bucket Usage (bytes) ===="

  /** Runs the reports for the command line `argv`. The billing query is run,
      and its section printed, exactly when the flag is given, and always
      before the bucket listing; the S3 section follows in every case. */
  method RunReports(argv: seq<string>, today: string, tomorrow: string, run: Runner, decode: Decoder)
    returns (lines: seq<string>, ran: seq<Command>)
    requires BillingRequested(argv) ==> |today| >= 8
    ensures (exists k | 0 <= k < |ran| :: ran[k].GetCostAndUsage?) <==> |argv| > 1 && argv[1] == "$"
    ensures ListBuckets in ran
    ensures lines == (if BillingRequested(argv) then ["", BillingHeader, BillingReport(today, tomorrow, run, decode)] else [])
                     + ["", UsageHeader] + UsageReport(run)
    ensures ran == (if BillingRequested(argv) then [BillingQuery(today, tomorrow)] else []) + UsageCommands(run)
  {
    lines, ran := [], [];
    if BillingRequested(argv) {
      lines := ["", BillingHeader, BillingReport(today, tomorrow, run, decode)];
      ran := [BillingQuery(today, tomorrow)];
    }
    ghost var billingRan := ran;
    var report, usageRan := ReportUsage(run);
    assert report == UsageReport(run) && usageRan == UsageCommands(run);
    lines := lines + ["", UsageHeader] + report;
    ran := ran + usageRan;
    assert forall k | 0 <= k < |ran| :: ran[k].GetCostAndUsage? <==> k < |billingRan|;
    assert BillingRequested(argv) ==> ran[0].GetCostAndUsage?;
  }
}
