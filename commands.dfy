/** The external command-line tools the program shells out to. Nothing here is
    executed: a command's outcome is an input of the model, given by a Runner. */
module Commands {

  /** What `CombinedOutput` gives back: the combined output of a command that
      exited with status 0, or the error of one that did not (or did not start). */
  datatype CmdResult = Ran(output: string) | Failed(reason: string)

  /** The invocations the program makes. */
  datatype Command =
    | FindKeyMetadata                          // security find-internet-password -s aws-cli -g
    | FindSecret                               // security find-internet-password -s aws-cli -w
    | GetCostAndUsage(start: string, end: string)  // aws ce get-cost-and-usage over [start, end)
    | ListBuckets                              // aws s3api list-buckets, names as text
    | ListBucket(bucket: string)               // aws s3 ls s3://bucket --recursive --summarize

  /** Runs a command; deterministic, so the same command always has the same outcome. */
  type Runner = Command -> CmdResult
}
