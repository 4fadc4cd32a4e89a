# aws-login in Dafny

A Dafny model of the text-processing core of `aws-login`, a small Go program
that copies an AWS access key pair from the macOS keychain into
`~/.aws/credentials` and then reports the month's AWS bill and the size of
every S3 bucket. The program itself is glue around two command-line tools
(`security` and `aws`); what is modelled is everything it decides from their
output:

- **Keychain metadata parser** (`Keychain`): the access key ID is taken from
  the lines of `security find-internet-password -g` that carry `"acct"`, as
  the fourth `"`-delimited piece; the last such line wins. No ID means an
  error, and the password query is then never run.
- **Secret normaliser** (`Keychain.SecretFrom`): the `-w` output trimmed of
  surrounding whitespace; empty means an error.
- **Credentials-file serialiser** (`CredentialsFile`): the exact three-line
  `[default]` content, with a reader of that format as its inverse.
- **Billing** (`Billing`): the month-start date, the three-way decision among
  "unavailable", the cost line and "could not parse", and the `$` flag test.
- **S3 usage** (`S3Usage`): bucket names are the whitespace fields of the
  listing; each bucket's size is the third field of the last `Total Size:`
  line of its summary, "0" when there is none; one report line per bucket,
  and a failed bucket does not stop the others.
- **Report sequence** (`Reports`): the billing section only under the `$`
  flag, and always before the S3 section, which always follows.

The Go `strings` helpers these rely on (`Split` on one character, `Contains`,
`Fields`, `TrimSpace`) are modelled in `Text`, over ASCII whitespace. The two
"last match wins" loops share one specification, `LastWins.LastMatch`.

External commands are modelled as a `Runner`, a function from the invocation
(`Commands.Command`) to its outcome (`Ran(output)` or `Failed(reason)`); the
methods that run commands also return the list of commands they ran, so that
"not run" and "run for every bucket" can be stated. The loops of the source
are methods with loop invariants, proved equal to specification functions
whose properties are proved as lemmas; the other steps that run commands are
methods, and the pure rules are functions.

The size scan overwrites the size on every `Total Size:` line that has at
least three fields, so the last such line wins, and a marker line with fewer
fields is skipped.

## Model

| member | source | states |
|---|---|---|
| Text.Contains | aws-login.go:31 | `Contains(s, sub)` holds exactly when `sub` occurs in `s` at some index |
| Text.Split | aws-login.go:30 | Split gives at least one piece, no piece holds the separator, and joining the pieces with the separator gives back the input |
| Text.SplitJoin | aws-login.go:32 | splitting the join of a non-empty list of separator-free pieces gives back that list (Split and Join are inverse) |
| Text.SplitKeepsAbsent | aws-login.go:32 | a character absent from a string is absent from every piece of its split |
| Text.Fields | aws-login.go:118 | every field is non-empty and holds no whitespace |
| Text.FieldsOfWord | aws-login.go:129 | a non-empty whitespace-free word is its own only field |
| Text.FieldsOfSpace | aws-login.go:118 | an all-whitespace string has no fields |
| Text.FieldsSplitAtSpace | aws-login.go:118 | a whitespace character separates fields: the fields of `a + [c] + b` are those of `a` followed by those of `b`, so order is kept and no field spans whitespace |
| Text.FieldsOfJoin | aws-login.go:118 | Fields undoes joining non-empty whitespace-free words with spaces |
| Text.TrimSpace | aws-login.go:48 | the result is the slice of the input between two all-whitespace ends, neither of its ends is whitespace, and it is empty exactly when the input is all whitespace |
| Text.TrimSpaceOfTrimmed | aws-login.go:48 | a string with no whitespace at either end is left unchanged |
| Text.TrimSpaceIdempotent | aws-login.go:48 | trimming twice is trimming once |
| LastWins.LastMatchNoHit | aws-login.go:30-37 | a scan in which no line yields a value ends with the initial value |
| LastWins.LastMatchLastHit | aws-login.go:127-134 | otherwise the scan ends with the value of the last line that yields one |
| LastWins.LastHitExists | aws-login.go:127-134 | a line that yields a value has a last yielding line at or after it |
| LastWins.LastMatchFrom | aws-login.go:30-37 | the scan ends with the initial value or the value of some line |
| Keychain.AccessKeyIdWithoutAcctLine | aws-login.go:30-37 | with no line that carries `"acct"` and splits on `"` into more than three pieces, the access key ID stays empty |
| Keychain.AccessKeyIdFromLastAcctLine | aws-login.go:30-37 | otherwise the ID is the fourth `"`-piece of the last such line; marker lines with three or fewer pieces leave it unchanged |
| Keychain.AccessKeyIdShape | aws-login.go:30-34 | the ID never contains a quote or a line break |
| Keychain.ScanAccessKeyId | aws-login.go:30-37 | the loop over the metadata lines computes exactly `AccessKeyIdOf` (last match wins) |
| Keychain.SecretFrom | aws-login.go:48-51 | error (no secret access key) exactly when the output is empty or all whitespace; otherwise the secret is the trimmed output, non-empty, with no whitespace at either end |
| Keychain.FetchCredentials | aws-login.go:21-54 | metadata query failure, missing access key ID, password query failure and empty secret each give their error; the password query runs only when an ID was found; success exactly when both queries succeed with an ID and a non-blank secret, with the pair (ID, trimmed secret) |
| CredentialsFile.Render | aws-login.go:65-66 | the content opens with the `[default]` header line and ends with a line break |
| CredentialsFile.RenderLines | aws-login.go:66 | for single-line fields the content's lines are exactly the `[default]` header, `aws_access_key_id = <id>`, `aws_secret_access_key = <secret>` and nothing after the final break: one profile only |
| CredentialsFile.ParseRender | aws-login.go:66 | reading back the written content gives the same key pair |
| CredentialsFile.RenderParse | aws-login.go:66 | any content the reader accepts is exactly the written content of the pair it reads |
| CredentialsFile.FetchedCredentialsRoundTrip | aws-login.go:48-66 | a fetched pair whose secret is one line is written so that it reads back unchanged |
| Billing.MonthStart | aws-login.go:73 | the start date has length 10 and keeps the first eight characters; for a YYYY-MM-DD date it is a YYYY-MM-DD date of the same year and month with day "01" |
| Billing.MonthStartIdempotent | aws-login.go:73 | the start of the start's month is the start itself |
| Reports.RunReports | aws-login.go:156-168 | the billing query is run exactly when there is a first user argument and it is `$`; when it runs, its header and line come before anything of the S3 report; the S3 header and report always follow, and the bucket listing is always run |
| Billing.BillingReport | aws-login.go:71-107 | exactly one of three lines: "unavailable" exactly when the query fails or prints nothing, "could not parse" exactly when it printed something whose decoded `ResultsByTime` lacks a first entry with both amount and unit, and otherwise the cost line with that amount and unit |
| S3Usage.BucketSizeWithoutSummaryLine | aws-login.go:126-134 | with no `Total Size:` line that has at least three fields the size is "0" |
| S3Usage.BucketSizeFromLastSummaryLine | aws-login.go:126-134 | otherwise the size is the third field of the last such line |
| S3Usage.BucketSizeIsOneWord | aws-login.go:126-134 | the size is never empty and never holds whitespace |
| S3Usage.ScanSize | aws-login.go:126-134 | the loop over the summary lines computes exactly `BucketSize` (last match wins, default "0") |
| S3Usage.UsageLineAt | aws-login.go:119-135 | bucket `i` is queried `i`-th and reported on line `i`: its error line if its query failed, else `<bucket>: <size> bytes` |
| S3Usage.FailureStaysLocal | aws-login.go:119-125 | a bucket's query outcome changes no other bucket's line |
| S3Usage.SizeLineFields | aws-login.go:135 | a size line splits on whitespace into `<bucket>:`, the size and `bytes` |
| S3Usage.ReportUsage | aws-login.go:111-137 | a failed listing gives one error line and no bucket queries; otherwise the buckets are the listing's fields, every one of them is queried in listing order, and there is one report line per bucket |

## Left out

- Process invocation: the `security` and `aws` commands are not run; their outcome is a parameter (a `Runner`), and the `%v` text of a failure is an opaque string.
- Filesystem and user lookup: `user.Current`, `os.MkdirAll`, `os.WriteFile`, the 0700/0600 modes, and the error of `os.MkdirAll`, which the source ignores. Only the content string is modelled.
- Clock and calendar: today's and tomorrow's dates are parameters; Go's date formatting and the `+24h` step are not modelled.
- JSON decoding: `json.Unmarshal` is a `Decoder` parameter that yields the `ResultsByTime` entries (amount and unit of `Total.UnblendedCost`) or None.
- Output and exit: printing to the terminal, the confirmation and error lines of `main` and `os.Exit`; the credential steps of `main` (lines 141-155) are modelled one by one, not chained. Report lines are modelled as strings without their trailing line break.
- Command lines and error texts: each invocation is a `Command` value, not its argument vector, and a `FetchError` value stands for the text the program prints for it.
- Unicode whitespace: `Text.IsSpace` is the six ASCII whitespace characters; Go's `TrimSpace` and `Fields` also treat Unicode spaces (for example U+0085 and U+00A0) as whitespace in input that is not pure ASCII.
- Strings are sequences of characters, not of bytes. `Split`, `Contains` and `Fields` give the same pieces either way on ASCII input.
- A secret whose trimmed text spans several lines is written as given, which makes the file longer than three lines. The round-trip lemmas therefore require single-line fields.
