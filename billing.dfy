/** The month-to-date billing report: the query's start date, the decision
    among its three messages, and the command-line flag that turns it on. */
module Billing {
  import opened Wrappers
  import opened Commands

  predicate IsDigit(c: char)
  {
    '0' <= c <= '9'
  }

  /** A date written YYYY-MM-DD, as Go formats it with the layout "2006-01-02". */
  predicate IsIsoDate(d: string)
  {
    && |d| == 10
    && IsDigit(d[0]) && IsDigit(d[1]) && IsDigit(d[2]) && IsDigit(d[3])
    && d[4] == '-' && IsDigit(d[5]) && IsDigit(d[6])
    && d[7] == '-' && IsDigit(d[8]) && IsDigit(d[9])
  }

  /** The first day of the month of `today`: its first eight characters
      ("YYYY-MM-") followed by "01". Go's slice panics below eight characters. */
  function MonthStart(today: string): (start: string)
    requires |today| >= 8
    ensures |start| == 10 && start[..8] == today[..8]
    ensures IsIsoDate(today) ==> IsIsoDate(start) && start[..7] == today[..7] && start[8..] == "01"
  {
    today[..8] + "01"
  }

  /** Taking the month start twice changes nothing. */
  lemma MonthStartIdempotent(today: string)
    requires |today| >= 8
    ensures MonthStart(MonthStart(today)) == MonthStart(today)
  {
    assert MonthStart(today)[..8] == today[..8];
  }

  /** The billing report runs exactly when the first user argument (after the
      program name) is "$"; with no argument, or any other one, it is skipped. */
  predicate BillingRequested(argv: seq<string>)
  {
    |argv| > 1 && argv[1] == "$"
  }

  /** One element of `ResultsByTime`, reduced to `Total.UnblendedCost`; a field
      missing from the JSON decodes as "". */
  datatype ResultByTime = ResultByTime(amount: string, unit: string)

  /** Decodes the query output as JSON: None when decoding fails, else the
      `ResultsByTime` array. JSON decoding is not part of this model. */
  type Decoder = string -> Option<seq<ResultByTime>>

  const UnavailableLine: string := "(" + "Billing info unavailable: check permissions or Cost Explorer access" + ")"
  const ParseFailureLine: string := "(" + "Could not parse billing info" + ")"

  function CostLine(amount: string, unit: string): string
  {
    "Current month AWS cost: " + amount + " " + unit
  }

  /** The decoded response has a first result whose amount and unit are both set. */
  predicate HasCost(decoded: Option<seq<ResultByTime>>)
  {
    decoded.Some? && |decoded.value| > 0 && decoded.value[0].amount != "" && decoded.value[0].unit != ""
  }

  /** The query for the period from the month start to `tomorrow` (exclusive). */
  function BillingQuery(today: string, tomorrow: string): (c: Command)
    requires |today| >= 8
  {
    GetCostAndUsage(MonthStart(today), tomorrow)
  }

  /** The line the billing report prints. Exactly one of three outcomes:
      unavailable when the query fails or prints nothing; the cost line when the
      decoded response has a first result with amount and unit; otherwise the
      parse-failure line. */
  function BillingReport(today: string, tomorrow: string, run: Runner, decode: Decoder): (line: string)
    requires |today| >= 8
    ensures var out := run(BillingQuery(today, tomorrow));
      && (line == UnavailableLine <==> out.Failed? || out.output == "")
      && (line == ParseFailureLine <==> out.Ran? && out.output != "" && !HasCost(decode(out.output)))
      && (out.Ran? && out.output != "" && HasCost(decode(out.output)) ==>
            var first := decode(out.output).value[0];
            line == CostLine(first.amount, first.unit))
  {
    var out := run(BillingQuery(today, tomorrow));
    if out.Failed? || out.output == "" then UnavailableLine
    else
      var decoded := decode(out.output);
      if HasCost(decoded) then
        var first := decoded.value[0];
        assert CostLine(first.amount, first.unit)[0] != UnavailableLine[0];
        CostLine(first.amount, first.unit)
      else ParseFailureLine
  }
}
