/** The content of ~/.aws/credentials as the program writes it: one `default`
    profile holding the key pair, which replaces whatever the file held. A
    reader of that format is given as the writer's inverse. */
module CredentialsFile {
  import opened Wrappers
  import opened Text
  import opened Keychain

  const Profile: string := "default"
  const ProfileHeader: string := "[" + Profile + "]"
  const KeyIdPrefix: string := "aws_access_key_id = "
  const SecretPrefix: string := "aws_secret_access_key = "

  /** The full file content for `c`: it opens with the `[default]` header line
      and ends with a line break, whatever the key pair holds. */
  function Render(c: Credentials): (content: string)
    ensures |content| > |ProfileHeader| && content[..|ProfileHeader| + 1] == ProfileHeader + "\n"
    ensures content[|content| - 1] == '\n'
  {
    "[" + Profile + "]\n" + KeyIdPrefix + c.accessKeyId + "\n" + SecretPrefix + c.secretAccessKey + "\n"
  }

  /** Neither field holds a line break, as an ini value must not. */
  predicate SingleLine(c: Credentials)
  {
    '\n' !in c.accessKeyId && '\n' !in c.secretAccessKey
  }

  /** Reads a credentials file that holds exactly one `default` profile with
      the two key lines, in that order, and nothing else. */
  function Parse(content: string): Option<Credentials>
  {
    var lines := Split(content, '\n');
    if |lines| == 4 && lines[0] == ProfileHeader
       && |KeyIdPrefix| <= |lines[1]| && lines[1][..|KeyIdPrefix|] == KeyIdPrefix
       && |SecretPrefix| <= |lines[2]| && lines[2][..|SecretPrefix|] == SecretPrefix
       && lines[3] == ""
    then Some(Credentials(lines[1][|KeyIdPrefix|..], lines[2][|SecretPrefix|..]))
    else None
  }

  /** The rendered content, as its lines joined by line breaks. */
  lemma RenderIsJoin(c: Credentials)
    ensures Render(c) == Join(RenderedLines(c), '\n')
  {
    var a, b, d := ProfileHeader, KeyIdPrefix + c.accessKeyId, SecretPrefix + c.secretAccessKey;
    assert Render(c) == a + "\n" + b + "\n" + d + "\n";
    assert [d, ""][1..] == [""];
    assert Join([d, ""], '\n') == d + "\n";
    assert [b, d, ""][1..] == [d, ""];
    assert Join([b, d, ""], '\n') == b + "\n" + d + "\n";
    assert [a, b, d, ""][1..] == [b, d, ""];
  }

  /** The lines of the rendered content: the `[default]` header, the access
      key ID line, the secret line, and the empty rest after the final break. */
  function RenderedLines(c: Credentials): seq<string>
  {
    [ProfileHeader, KeyIdPrefix + c.accessKeyId, SecretPrefix + c.secretAccessKey, ""]
  }

  /** The content is the `[default]` header, the access key ID line and the
      secret line, each ended by a line break, and nothing more. */
  lemma RenderLines(c: Credentials)
    requires SingleLine(c)
    ensures Split(Render(c), '\n') == RenderedLines(c)
  {
    RenderIsJoin(c);
    assert forall p | p in RenderedLines(c) :: '\n' !in p;
    SplitJoin(RenderedLines(c), '\n');
  }

  /** Reading back what was written gives the same key pair. */
  lemma {:induction false} ParseRender(c: Credentials)
    requires SingleLine(c)
    ensures Parse(Render(c)) == Some(c)
  {
    RenderLines(c);
    var lines := Split(Render(c), '\n');
    assert (KeyIdPrefix + c.accessKeyId)[|KeyIdPrefix|..] == c.accessKeyId;
    assert (SecretPrefix + c.secretAccessKey)[|SecretPrefix|..] == c.secretAccessKey;
  }

  /** Every content the reader accepts is exactly what the writer produces for
      the pair it reads: the format has no other shape. */
  lemma {:induction false} RenderParse(content: string, c: Credentials)
    requires Parse(content) == Some(c)
    ensures SingleLine(c) && Render(c) == content
  {
    var lines := Split(content, '\n');
    assert lines[1] == KeyIdPrefix + c.accessKeyId;
    assert lines[2] == SecretPrefix + c.secretAccessKey;
    assert lines[1] in lines && lines[2] in lines;
    assert '\n' !in c.accessKeyId by { assert c.accessKeyId == lines[1][|KeyIdPrefix|..]; }
    assert '\n' !in c.secretAccessKey by { assert c.secretAccessKey == lines[2][|SecretPrefix|..]; }
    assert lines == RenderedLines(c);
    RenderIsJoin(c);
  }

  /** Credentials as fetched from the keychain are written so that they read
      back unchanged, provided the secret is a single line. */
  lemma FetchedCredentialsRoundTrip(metadata: string, secret: string)
    requires AccessKeyIdOf(metadata) != ""
    requires '\n' !in TrimSpace(secret)
    ensures var c := Credentials(AccessKeyIdOf(metadata), TrimSpace(secret));
      Parse(Render(c)) == Some(c)
  {
    AccessKeyIdShape(metadata);
    ParseRender(Credentials(AccessKeyIdOf(metadata), TrimSpace(secret)));
  }
}
