/** Fetching the access key pair from the macOS keychain entry "aws-cli":
    the metadata listing gives the access key ID, the password query gives
    the secret access key. */
module Keychain {
  import opened Wrappers
  import opened Text
  import opened LastWins
  import opened Commands

  datatype Credentials = Credentials(accessKeyId: string, secretAccessKey: string)

  /** Why the credentials could not be read from the keychain. */
  datatype FetchError =
    | MetadataLookupFailed(reason: string)
    | NoAccessKeyId
    | SecretLookupFailed(reason: string)
    | NoSecretAccessKey

  /** The marker of the account-name line of the metadata listing, quotes included. */
  const AcctMarker: string := "\"acct\""

  /** What one metadata line contributes: on a line that carries the marker and
      splits on '"' into more than three pieces, the fourth piece. */
  function AcctField(line: string): Option<string>
  {
    if Contains(line, AcctMarker) then
      var parts := Split(line, '"');
      if |parts| > 3 then Some(parts[3]) else None
    else None
  }

  /** The access key ID the metadata scan settles on ("" when no line offers one). */
  function AccessKeyIdOf(metadata: string): string
  {
    LastMatch(Split(metadata, '\n'), AcctField, "")
  }

  /** With no metadata line that carries the marker and splits on '"' into
      more than three pieces, the access key ID is empty. */
  lemma AccessKeyIdWithoutAcctLine(metadata: string)
    requires forall line | line in Split(metadata, '\n') :: AcctField(line).None?
    ensures AccessKeyIdOf(metadata) == ""
  {
    var lines := Split(metadata, '\n');
    forall i | 0 <= i < |lines| ensures AcctField(lines[i]).None? {
      assert lines[i] in lines;
    }
    LastMatchNoHit(lines, AcctField, "");
  }

  /** Otherwise the access key ID is the fourth '"'-piece of the LAST such
      line: marker lines with three or fewer pieces, and lines without the
      marker, leave it alone. */
  lemma AccessKeyIdFromLastAcctLine(metadata: string, j: int)
    requires IsLastHit(Split(metadata, '\n'), AcctField, j)
    ensures var line := Split(metadata, '\n')[j];
      && Contains(line, AcctMarker)
      && |Split(line, '"')| > 3
      && AccessKeyIdOf(metadata) == Split(line, '"')[3]
  {
    var lines := Split(metadata, '\n');
    LastMatchLastHit(lines, AcctField, "", j);
    assert AcctField(lines[j]).Some?;
  }

  /** The access key ID never holds a quote or a line break: it is one piece of
      one line. */
  lemma AccessKeyIdShape(metadata: string)
    ensures '"' !in AccessKeyIdOf(metadata) && '\n' !in AccessKeyIdOf(metadata)
  {
    var lines := Split(metadata, '\n');
    var id := AccessKeyIdOf(metadata);
    LastMatchFrom(lines, AcctField, "");
    if id != "" {
      var i :| 0 <= i < |lines| && AcctField(lines[i]) == Some(id);
      assert lines[i] in lines;
      SplitKeepsAbsent(lines[i], '"', '\n');
      assert id in Split(lines[i], '"');
    }
  }

  /** The scan over the metadata lines: every marker line with more than three
      '"'-pieces overwrites the ID with its fourth piece, so the last one wins. */
  method ScanAccessKeyId(metadata: string) returns (id: string)
    ensures id == AccessKeyIdOf(metadata)
  {
    id := "";
    var lines := Split(metadata, '\n');
    for k := 0 to |lines|
      invariant id == LastMatch(lines[..k], AcctField, "")
    {
      assert lines[..k + 1][..k] == lines[..k];
      if Contains(lines[k], AcctMarker) {
        var parts := Split(lines[k], '"');
        if |parts| > 3 {
          id := parts[3];
        }
      }
    }
    assert lines[..|lines|] == lines;
  }

  /** The secret is the password output with surrounding whitespace trimmed; an
      output that is empty or all whitespace is an error. */
  function SecretFrom(output: string): (r: Result<string, FetchError>)
    ensures r.Failure? <==> AllSpace(output)
    ensures r.Failure? ==> r.error == NoSecretAccessKey
    ensures r.Success? ==> r.value == TrimSpace(output) && r.value != "" && IsTrimmed(r.value)
  {
    var secret := TrimSpace(output);
    if secret == "" then Failure(NoSecretAccessKey) else Success(secret)
  }

  /** Credential retrieval: the metadata query, then, only when it yields an
      access key ID, the password query. Returns the commands run, in order. */
  method FetchCredentials(run: Runner) returns (r: Result<Credentials, FetchError>, ran: seq<Command>)
    ensures var meta := run(FindKeyMetadata);
      && (ran == if meta.Ran? && AccessKeyIdOf(meta.output) != "" then [FindKeyMetadata, FindSecret]
                 else [FindKeyMetadata])
      && (meta.Failed? ==> r == Failure(MetadataLookupFailed(meta.reason)))
      && (meta.Ran? && AccessKeyIdOf(meta.output) == "" ==> r == Failure(NoAccessKeyId))
    ensures var secret := run(FindSecret);
      && (FindSecret in ran && secret.Failed? ==> r == Failure(SecretLookupFailed(secret.reason)))
      && (FindSecret in ran && secret.Ran? && AllSpace(secret.output) ==> r == Failure(NoSecretAccessKey))
      && (r.Success? <==> FindSecret in ran && secret.Ran? && !AllSpace(secret.output))
    ensures r.Success? ==>
      r.value == Credentials(AccessKeyIdOf(run(FindKeyMetadata).output), TrimSpace(run(FindSecret).output))
  {
    ran := [FindKeyMetadata];
    var meta := run(FindKeyMetadata);
    if meta.Failed? {
      return Failure(MetadataLookupFailed(meta.reason)), ran;
    }
    var id := ScanAccessKeyId(meta.output);
    if id == "" {
      return Failure(NoAccessKeyId), ran;
    }
    ran := ran + [FindSecret];
    var out := run(FindSecret);
    if out.Failed? {
      return Failure(SecretLookupFailed(out.reason)), ran;
    }
    var secret := SecretFrom(out.output);
    if secret.Failure? {
      return Failure(secret.error), ran;
    }
    r := Success(Credentials(id, secret.value));
  }
}
