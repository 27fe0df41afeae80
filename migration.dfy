/**
 * `migrateAttachments`: find the attachment links of a body, give each one a
 * new location (an S3 object, or whatever the `github-s3` helper returns),
 * then rewrite the body. The outside world is the `Env` passed in.
 */
module Migration {
  import opened Wrappers
  import opened StringOps
  import opened LinkPattern
  import opened Substitution
  import opened S3Location

  newtype byte = x: int | 0 <= x < 256

  /**
   * How the `github-s3` helper ended: what it printed, and its exit status
   * (non-zero also when the shell could not start it or it was killed).
   */
  datatype ProcessOutput = ProcessOutput(stdout: string, stderr: string, status: int)

  /**
   * The collaborators, as functions of their arguments:
   * `getAttachment` (None for a falsy buffer), the hex SHA-256 digest of a
   * string, the MIME type of a file name (None where the lookup gives `false`),
   * and the helper run as `github-s3 <file>` once `<file>` holds the bytes.
   */
  datatype Env = Env(
    getAttachment: string -> Option<seq<byte>>,
    sha256Hex: string -> string,
    mimeLookup: string -> Option<string>,
    runUploader: (string, seq<byte>) -> ProcessOutput)

  /**
   * The errors the function throws: a missing attachment, the rejection of the
   * promisified `exec` when the helper exits with a non-zero status, and the
   * helper's stderr output.
   */
  datatype Error = NotDownloaded(path: string) | CommandFailed(command: string, stderr: string) | UploaderFailed(stderr: string) {
    /** The error's message. */
    function Message(): string {
      match this
      case NotDownloaded(path) => "Attachment " + path + " not downloaded"
      case CommandFailed(command, stderr) => "Command failed: " + command + "\n" + stderr
      case UploaderFailed(stderr) => stderr
    }
  }

  /** The `PutObjectRequest` handed to the S3 client (sent without waiting for it). */
  datatype PutRequest = PutRequest(bucket: string, key: string, body: seq<byte>, contentType: Option<string>)

  /** `s3 && s3.bucket`: S3 settings are given and name a bucket. */
  predicate UsesS3(s3: Option<S3Settings>) {
    s3.Some? && s3.value.bucket != ""
  }

  /** Where the fallback branch saves the attachment before running the helper. */
  function TempPath(basename: string): string {
    "/tmp/" + basename
  }

  /** The command line the fallback branch runs. */
  function UploaderCommand(basename: string): string {
    "github-s3 " + TempPath(basename)
  }

  /** The new URL of a match whose attachment was downloaded as `bytes`, in the mode the settings choose. */
  function Target(m: Match, bytes: seq<byte>, repoId: Option<int>, s3: Option<S3Settings>, env: Env): string {
    var basename := Basename(m.path);
    if UsesS3(s3) then ObjectUrl(s3.value, ObjectKey(repoId, env.sha256Hex(m.path), basename))
    else Trim(env.runUploader(TempPath(basename), bytes).stdout)
  }

  /** What one pass of the loop does with one match. */
  datatype Step = Skip | Rewrite(text: string, put: Option<PutRequest>) | Fail(error: Error)

  /** One pass of the loop, as a value. */
  function Resolve(m: Match, repoId: Option<int>, s3: Option<S3Settings>, env: Env): (r: Step)
    ensures UsesS3(s3) ==> !r.Fail? && (r.Skip? <==> env.getAttachment(m.path).None?)
    ensures !UsesS3(s3) ==> !r.Skip?
    ensures !UsesS3(s3) && env.getAttachment(m.path).None? ==> r == Fail(NotDownloaded(m.path))
    ensures !UsesS3(s3) && env.getAttachment(m.path).Some? ==>
      var out := env.runUploader(TempPath(Basename(m.path)), env.getAttachment(m.path).value);
      && (r.Fail? <==> out.status != 0 || out.stderr != "")
      && (out.status != 0 ==> r == Fail(CommandFailed(UploaderCommand(Basename(m.path)), out.stderr)))
      && (out.status == 0 && out.stderr != "" ==> r == Fail(UploaderFailed(out.stderr)))
    ensures r.Rewrite? ==>
      && r.text == Link(m.bang, m.name, Target(m, env.getAttachment(m.path).value, repoId, s3, env))
      && (r.put.Some? <==> UsesS3(s3))
  {
    var basename := Basename(m.path);
    match env.getAttachment(m.path)
    case None =>
      if UsesS3(s3) then Skip else Fail(NotDownloaded(m.path))
    case Some(bytes) =>
      var url := Target(m, bytes, repoId, s3, env);
      if UsesS3(s3) then
        var key := ObjectKey(repoId, env.sha256Hex(m.path), basename);
        Rewrite(Link(m.bang, m.name, url), Some(PutRequest(s3.value.bucket, key, bytes, env.mimeLookup(basename))))
      else
        var out := env.runUploader(TempPath(basename), bytes);
        if out.status != 0 then Fail(CommandFailed(UploaderCommand(basename), out.stderr))
        else if out.stderr != "" then Fail(UploaderFailed(out.stderr))
        else Rewrite(Link(m.bang, m.name, url), None)
  }

  /** `Resolve` on a match whose attachment was downloaded, in S3 mode. */
  lemma S3Rewrite(m: Match, bytes: seq<byte>, repoId: Option<int>, cfg: S3Settings, env: Env)
    requires cfg.bucket != "" && env.getAttachment(m.path) == Some(bytes)
    ensures var key := ObjectKey(repoId, env.sha256Hex(m.path), Basename(m.path));
      Resolve(m, repoId, Some(cfg), env) ==
        Rewrite(Link(m.bang, m.name, ObjectUrl(cfg, key)), Some(PutRequest(cfg.bucket, key, bytes, env.mimeLookup(Basename(m.path)))))
  {
  }

  /** `Resolve` on a match whose attachment was downloaded, without S3, when the helper succeeds and prints nothing on stderr. */
  lemma FallbackRewrite(m: Match, bytes: seq<byte>, repoId: Option<int>, s3: Option<S3Settings>, env: Env)
    requires !UsesS3(s3) && env.getAttachment(m.path) == Some(bytes)
    requires env.runUploader(TempPath(Basename(m.path)), bytes).status == 0
    requires env.runUploader(TempPath(Basename(m.path)), bytes).stderr == ""
    ensures Resolve(m, repoId, s3, env) ==
      Rewrite(Link(m.bang, m.name, Trim(env.runUploader(TempPath(Basename(m.path)), bytes).stdout)), None)
  {
  }

  /** Without S3, a helper that exits with a non-zero status makes the pass throw `exec`'s "Command failed" error. */
  lemma FallbackCommandFails(m: Match, bytes: seq<byte>, repoId: Option<int>, s3: Option<S3Settings>, env: Env)
    requires !UsesS3(s3) && env.getAttachment(m.path) == Some(bytes)
    requires env.runUploader(TempPath(Basename(m.path)), bytes).status != 0
    ensures Resolve(m, repoId, s3, env).Fail?
    ensures var msg, p := Resolve(m, repoId, s3, env).error.Message(), "Command failed: github-s3 /tmp/";
      |p| <= |msg| && msg[..|p|] == p
  {
    var stderr := env.runUploader(TempPath(Basename(m.path)), bytes).stderr;
    assert Resolve(m, repoId, s3, env) == Fail(CommandFailed(UploaderCommand(Basename(m.path)), stderr));
    CommandFailedMessage(Basename(m.path), stderr);
  }

  /** The message of `exec`'s rejection names the helper and the temporary file. */
  lemma CommandFailedMessage(basename: string, stderr: string)
    ensures var msg, p := CommandFailed(UploaderCommand(basename), stderr).Message(), "Command failed: github-s3 /tmp/";
      |p| <= |msg| && msg[..|p|] == p
  {
    var p := "Command failed: github-s3 /tmp/";
    var msg := CommandFailed(UploaderCommand(basename), stderr).Message();
    assert msg == p + (basename + ("\n" + stderr));
  }

  /** The loop's state: `offsetToAttachment` and the requests sent so far. */
  datatype Progress = Progress(rewrites: map<int, string>, puts: seq<PutRequest>)

  const Start := Progress(map[], [])

  /** The outcome of one pass of the loop for each match, in order. */
  function Steps(ms: seq<Match>, repoId: Option<int>, s3: Option<S3Settings>, env: Env): (r: seq<Step>)
    ensures |r| == |ms|
    decreases |ms|
  {
    if ms == [] then [] else [Resolve(ms[0], repoId, s3, env)] + Steps(ms[1..], repoId, s3, env)
  }

  /** The k-th outcome is the pass over the k-th match. */
  lemma {:induction false} StepAt(ms: seq<Match>, k: nat, repoId: Option<int>, s3: Option<S3Settings>, env: Env)
    requires k < |ms|
    ensures Steps(ms, repoId, s3, env)[k] == Resolve(ms[k], repoId, s3, env)
    decreases k
  {
    if k > 0 {
      StepAt(ms[1..], k - 1, repoId, s3, env);
      assert ms[1..][k - 1] == ms[k];
    }
  }

  /** The loop from the i-th match on, each pass's outcome given by `steps`. */
  function RunFrom(ms: seq<Match>, steps: seq<Step>, i: nat, acc: Progress): Result<Progress, Error>
    requires |steps| == |ms| && i <= |ms|
    decreases |ms| - i
  {
    if i == |ms| then Success(acc)
    else match steps[i]
      case Skip => RunFrom(ms, steps, i + 1, acc)
      case Fail(e) => Failure(e)
      case Rewrite(text, put) =>
        var puts := if put.Some? then acc.puts + [put.value] else acc.puts;
        RunFrom(ms, steps, i + 1, Progress(acc.rewrites[ms[i].offset := text], puts))
  }

  /** A pass that skips leaves the loop's state as it was. */
  lemma RunSkip(ms: seq<Match>, steps: seq<Step>, i: nat, acc: Progress)
    requires |steps| == |ms| && i < |ms| && steps[i] == Skip
    ensures RunFrom(ms, steps, i, acc) == RunFrom(ms, steps, i + 1, acc)
  {
  }

  /** A pass that rewrites writes its entry at the match's offset and logs its request. */
  lemma RunRewrite(ms: seq<Match>, steps: seq<Step>, i: nat, acc: Progress, text: string, put: Option<PutRequest>)
    requires |steps| == |ms| && i < |ms| && steps[i] == Rewrite(text, put)
    ensures RunFrom(ms, steps, i, acc) ==
      RunFrom(ms, steps, i + 1, Progress(acc.rewrites[ms[i].offset := text], if put.Some? then acc.puts + [put.value] else acc.puts))
  {
  }

  /** A pass that fails ends the loop with its error. */
  lemma RunFail(ms: seq<Match>, steps: seq<Step>, i: nat, acc: Progress, e: Error)
    requires |steps| == |ms| && i < |ms| && steps[i] == Fail(e)
    ensures RunFrom(ms, steps, i, acc) == Failure(e)
  {
  }

  /** The whole loop over the links of `body`. */
  function Run(body: string, repoId: Option<int>, s3: Option<S3Settings>, env: Env): Result<Progress, Error> {
    var ms := Scan(body, 0);
    RunFrom(ms, Steps(ms, repoId, s3, env), 0, Start)
  }

  /** The whole call: the rewritten body, or the error thrown. */
  function Migrate(body: string, repoId: Option<int>, s3: Option<S3Settings>, env: Env): Result<string, Error> {
    match Run(body, repoId, s3, env)
    case Failure(e) => Failure(e)
    case Success(p) => Success(ReplaceAll(body, p.rewrites))
  }

  /** The upload requests the call sends. */
  function Issued(body: string, repoId: Option<int>, s3: Option<S3Settings>, env: Env): seq<PutRequest> {
    match Run(body, repoId, s3, env)
    case Failure(_) => []
    case Success(p) => p.puts
  }

  /**
   * The body of the `for` loop for the i-th match, up to what it does to
   * `offsetToAttachment`: skip it, throw, or rewrite it (sending an upload
   * request in S3 mode).
   */
  method ResolvePass(matches: seq<Match>, i: nat, githubRepoId: Option<int>, s3: Option<S3Settings>, env: Env)
    returns (step: Step)
    requires i < |matches|
    ensures step == Steps(matches, githubRepoId, s3, env)[i]
  {
    var m := matches[i];
    StepAt(matches, i, githubRepoId, s3, env);
    var prefix := Marker(m.bang);
    if s3.Some? && s3.value.bucket != "" {
      var basename := Basename(m.path);
      var mimeType := env.mimeLookup(basename);
      var attachment := env.getAttachment(m.path);
      if attachment.None? {
        return Skip;
      }
      var newFileName := env.sha256Hex(m.path) + "/" + basename;
      var relativePath := if HasRepoId(githubRepoId) then Decimal(githubRepoId.value) + "/" + newFileName
                          else newFileName;
      var hostname := s3.value.bucket + ".s3.amazonaws.com";
      if s3.value.region.Some? && s3.value.region.value != "" {
        hostname := "s3." + s3.value.region.value + ".amazonaws.com/" + s3.value.bucket;
      }
      var s3url := "https://" + hostname + "/" + relativePath;
      var put := PutRequest(s3.value.bucket, relativePath, attachment.value, mimeType);
      assert relativePath == ObjectKey(githubRepoId, env.sha256Hex(m.path), basename);
      assert s3url == ObjectUrl(s3.value, relativePath);
      S3Rewrite(m, attachment.value, githubRepoId, s3.value, env);
      return Rewrite(prefix + "[" + m.name + "](" + s3url + ")", Some(put));
    } else {
      var attachment := env.getAttachment(m.path);
      if attachment.None? {
        return Fail(NotDownloaded(m.path));
      }
      var basename := Basename(m.path);
      var tempFilePath := TempPath(basename);
      var output := env.runUploader(tempFilePath, attachment.value);
      if output.status != 0 {
        return Fail(CommandFailed("github-s3 " + tempFilePath, output.stderr));
      }
      if output.stderr != "" {
        return Fail(UploaderFailed(output.stderr));
      }
      FallbackRewrite(m, attachment.value, githubRepoId, s3, env);
      return Rewrite(prefix + "[" + m.name + "](" + Trim(output.stdout) + ")", None);
    }
  }

  /**
   * The `for` loop over the matches: fills `offsetToAttachment` and sends the
   * upload requests, or stops at the first error thrown.
   */
  method ResolveAll(matches: seq<Match>, githubRepoId: Option<int>, s3: Option<S3Settings>, env: Env)
    returns (outcome: Result<Progress, Error>)
    ensures outcome == RunFrom(matches, Steps(matches, githubRepoId, s3, env), 0, Start)
  {
    ghost var steps := Steps(matches, githubRepoId, s3, env);
    var offsetToAttachment: map<int, string> := map[];
    var puts: seq<PutRequest> := [];
    var i := 0;
    while i < |matches|
      invariant 0 <= i <= |matches|
      invariant RunFrom(matches, steps, 0, Start) == RunFrom(matches, steps, i, Progress(offsetToAttachment, puts))
    {
      var m := matches[i];
      var step := ResolvePass(matches, i, githubRepoId, s3, env);
      match step {
        case Skip =>
          RunSkip(matches, steps, i, Progress(offsetToAttachment, puts));
        case Fail(e) =>
          RunFail(matches, steps, i, Progress(offsetToAttachment, puts), e);
          return Failure(e);
        case Rewrite(text, put) =>
          RunRewrite(matches, steps, i, Progress(offsetToAttachment, puts), text, put);
          if put.Some? {
            puts := puts + [put.value];
          }
          offsetToAttachment := offsetToAttachment[m.offset := text];
      }
      i := i + 1;
    }
    return Success(Progress(offsetToAttachment, puts));
  }

  /**
   * `migrateAttachments(body, githubRepoId, s3, gitlabHelper)`: returns the
   * rewritten body or the error thrown, and the upload requests sent.
   */
  method MigrateAttachments(body: string, githubRepoId: Option<int>, s3: Option<S3Settings>, env: Env)
    returns (result: Result<string, Error>, puts: seq<PutRequest>)
    ensures result == Migrate(body, githubRepoId, s3, env)
    ensures puts == Issued(body, githubRepoId, s3, env)
  {
    var matches := Scan(body, 0);
    var outcome := ResolveAll(matches, githubRepoId, s3, env);
    match outcome {
      case Failure(e) =>
        return Failure(e), [];
      case Success(p) =>
        return Success(ReplaceAll(body, p.rewrites)), p.puts;
    }
  }
}
