/** What `migrateAttachments` promises, proved of its specification. */
module MigrationFacts {
  import opened Wrappers
  import opened StringOps
  import opened LinkPattern
  import opened Substitution
  import opened S3Location
  import opened Migration

  /** Offsets strictly increase along the sequence. */
  predicate Increasing(ms: seq<Match>) {
    forall j, k :: 0 <= j < k < |ms| ==> ms[j].offset < ms[k].offset
  }

  lemma ScanIncreasing(body: string)
    ensures Increasing(Scan(body, 0))
  {
    ChainedOrdered(body, 0, Scan(body, 0));
  }

  /** Some pass at or after `from` fails with `e`, and none between `from` and it fails. */
  ghost predicate FirstFailure(steps: seq<Step>, from: nat, e: Error) {
    exists k :: from <= k < |steps| && steps[k] == Fail(e) && forall j :: from <= j < k ==> !steps[j].Fail?
  }

  /** The loop throws `e` exactly when some pass fails with `e` and no earlier pass fails. */
  lemma {:induction false} RunFailure(ms: seq<Match>, steps: seq<Step>, i: nat, acc: Progress, e: Error)
    requires |steps| == |ms| && i <= |ms|
    ensures RunFrom(ms, steps, i, acc) == Failure(e) <==> FirstFailure(steps, i, e)
    decreases |ms| - i
  {
    if i < |ms| {
      match steps[i]
      case Fail(_) =>
      case Skip =>
        RunFailure(ms, steps, i + 1, acc, e);
      case Rewrite(text, put) =>
        var puts := if put.Some? then acc.puts + [put.value] else acc.puts;
        RunFailure(ms, steps, i + 1, Progress(acc.rewrites[ms[i].offset := text], puts), e);
    }
  }

  /** Each resolved match writes one entry, at its own offset, and nothing else writes. */
  lemma {:induction false} RunRewrites(ms: seq<Match>, steps: seq<Step>, i: nat, acc: Progress)
    requires |steps| == |ms| && i <= |ms| && Increasing(ms)
    requires forall o :: o in acc.rewrites ==> i < |ms| && o < ms[i].offset
    requires RunFrom(ms, steps, i, acc).Success?
    ensures var rw := RunFrom(ms, steps, i, acc).value.rewrites;
      && (forall k :: i <= k < |ms| ==> (ms[k].offset in rw <==> steps[k].Rewrite?))
      && (forall k :: i <= k < |ms| && steps[k].Rewrite? ==> rw[ms[k].offset] == steps[k].text)
      && (forall o :: o in acc.rewrites ==> o in rw && rw[o] == acc.rewrites[o])
      && (forall o :: o in rw ==> o in acc.rewrites || exists k :: i <= k < |ms| && ms[k].offset == o)
    decreases |ms| - i
  {
    if i < |ms| {
      match steps[i]
      case Skip =>
        if i + 1 < |ms| {
          RunRewrites(ms, steps, i + 1, acc);
        }
      case Rewrite(text, put) =>
        var puts := if put.Some? then acc.puts + [put.value] else acc.puts;
        if i + 1 < |ms| {
          RunRewrites(ms, steps, i + 1, Progress(acc.rewrites[ms[i].offset := text], puts));
        }
    }
  }

  /** When the loop completes, no pass failed. */
  lemma NoFailureOnSuccess(ms: seq<Match>, steps: seq<Step>, acc: Progress)
    requires |steps| == |ms| && RunFrom(ms, steps, 0, acc).Success?
    ensures forall k :: 0 <= k < |steps| ==> !steps[k].Fail?
  {
    forall k | 0 <= k < |steps| ensures !steps[k].Fail? {
      if steps[k].Fail? {
        FailingPassThrows(ms, steps, acc, k);
      }
    }
  }

  /**
   * When the call completes, `offsetToAttachment` holds an entry exactly at the
   * offsets of the links whose attachment was downloaded, each entry being the
   * link with its marker and name around the new URL, and nothing else.
   */
  lemma CallRewrites(body: string, repoId: Option<int>, s3: Option<S3Settings>, env: Env)
    requires Run(body, repoId, s3, env).Success?
    ensures var ms, rw := Scan(body, 0), Run(body, repoId, s3, env).value.rewrites;
      && (forall k :: 0 <= k < |ms| ==> (ms[k].offset in rw <==> env.getAttachment(ms[k].path).Some?))
      && (forall k :: 0 <= k < |ms| && ms[k].offset in rw ==>
            rw[ms[k].offset] == Link(ms[k].bang, ms[k].name, Target(ms[k], env.getAttachment(ms[k].path).value, repoId, s3, env)))
      && (forall o :: o in rw ==> exists k :: 0 <= k < |ms| && ms[k].offset == o)
  {
    var ms := Scan(body, 0);
    var steps := Steps(ms, repoId, s3, env);
    var rw := Run(body, repoId, s3, env).value.rewrites;
    ScanIncreasing(body);
    NoFailureOnSuccess(ms, steps, Start);
    RunWrites(ms, steps);
    forall k | 0 <= k < |ms|
      ensures ms[k].offset in rw <==> env.getAttachment(ms[k].path).Some?
      ensures ms[k].offset in rw ==>
        rw[ms[k].offset] == Link(ms[k].bang, ms[k].name, Target(ms[k], env.getAttachment(ms[k].path).value, repoId, s3, env))
    {
      PassOutcome(ms, k, repoId, s3, env);
    }
  }

  /** The whole loop writes an entry exactly at the offsets of the rewriting passes, and nowhere else. */
  lemma RunWrites(ms: seq<Match>, steps: seq<Step>)
    requires |steps| == |ms| && Increasing(ms) && RunFrom(ms, steps, 0, Start).Success?
    ensures var rw := RunFrom(ms, steps, 0, Start).value.rewrites;
      && (forall k :: 0 <= k < |ms| ==> (ms[k].offset in rw <==> steps[k].Rewrite?))
      && (forall k :: 0 <= k < |ms| && steps[k].Rewrite? ==> rw[ms[k].offset] == steps[k].text)
      && (forall o :: o in rw ==> exists k :: 0 <= k < |ms| && ms[k].offset == o)
  {
    if ms != [] {
      RunRewrites(ms, steps, 0, Start);
      var rw := RunFrom(ms, steps, 0, Start).value.rewrites;
      forall o | o in rw ensures exists k :: 0 <= k < |ms| && ms[k].offset == o {
        assert o !in Start.rewrites;
      }
    }
  }

  /** A pass that does not fail rewrites exactly when the attachment was downloaded, to the link around its new URL. */
  lemma PassOutcome(ms: seq<Match>, k: nat, repoId: Option<int>, s3: Option<S3Settings>, env: Env)
    requires k < |ms| && !Steps(ms, repoId, s3, env)[k].Fail?
    ensures var step := Steps(ms, repoId, s3, env)[k];
      && (step.Rewrite? <==> env.getAttachment(ms[k].path).Some?)
      && (step.Rewrite? ==>
            step.text == Link(ms[k].bang, ms[k].name, Target(ms[k], env.getAttachment(ms[k].path).value, repoId, s3, env)))
  {
    StepAt(ms, k, repoId, s3, env);
  }

  /** The upload requests of the resolved passes, in match order. */
  function Requests(steps: seq<Step>): seq<PutRequest>
    decreases |steps|
  {
    if steps == [] then []
    else (if steps[0].Rewrite? && steps[0].put.Some? then [steps[0].put.value] else []) + Requests(steps[1..])
  }

  lemma {:induction false} RunRequests(ms: seq<Match>, steps: seq<Step>, i: nat, acc: Progress)
    requires |steps| == |ms| && i <= |ms| && RunFrom(ms, steps, i, acc).Success?
    ensures RunFrom(ms, steps, i, acc).value.puts == acc.puts + Requests(steps[i..])
    decreases |ms| - i
  {
    if i == |ms| {
      assert steps[i..] == [];
    } else {
      assert steps[i..][1..] == steps[i + 1..];
      match steps[i]
      case Skip =>
        RunRequests(ms, steps, i + 1, acc);
      case Rewrite(text, put) =>
        var puts := if put.Some? then acc.puts + [put.value] else acc.puts;
        RunRequests(ms, steps, i + 1, Progress(acc.rewrites[ms[i].offset := text], puts));
    }
  }

  /** The call throws `e` exactly when some link's pass fails with `e` and no earlier link's pass fails. */
  lemma MigrateThrows(body: string, repoId: Option<int>, s3: Option<S3Settings>, env: Env, e: Error)
    ensures Migrate(body, repoId, s3, env) == Failure(e) <==> FirstFailure(Steps(Scan(body, 0), repoId, s3, env), 0, e)
  {
    var ms := Scan(body, 0);
    RunFailure(ms, Steps(ms, repoId, s3, env), 0, Start, e);
  }

  /** With S3 settings naming a bucket the call never throws: a missing attachment is skipped. */
  lemma S3NeverThrows(body: string, repoId: Option<int>, s3: Option<S3Settings>, env: Env)
    requires UsesS3(s3)
    ensures Migrate(body, repoId, s3, env).Success?
  {
    var ms := Scan(body, 0);
    S3PassesDoNotFail(ms, repoId, s3, env);
    PassesDoNotFailRun(ms, Steps(ms, repoId, s3, env), 0, Start);
  }

  /** In S3 mode no pass fails. */
  lemma S3PassesDoNotFail(ms: seq<Match>, repoId: Option<int>, s3: Option<S3Settings>, env: Env)
    requires UsesS3(s3)
    ensures forall k :: 0 <= k < |ms| ==> !Steps(ms, repoId, s3, env)[k].Fail?
  {
    forall k | 0 <= k < |ms| ensures !Steps(ms, repoId, s3, env)[k].Fail? {
      StepAt(ms, k, repoId, s3, env);
    }
  }

  /** A loop none of whose passes fails completes. */
  lemma {:induction false} PassesDoNotFailRun(ms: seq<Match>, steps: seq<Step>, i: nat, acc: Progress)
    requires |steps| == |ms| && i <= |ms|
    requires forall k :: i <= k < |ms| ==> !steps[k].Fail?
    ensures RunFrom(ms, steps, i, acc).Success?
    decreases |ms| - i
  {
    if i < |ms| {
      match steps[i]
      case Skip =>
        PassesDoNotFailRun(ms, steps, i + 1, acc);
      case Rewrite(text, put) =>
        var puts := if put.Some? then acc.puts + [put.value] else acc.puts;
        PassesDoNotFailRun(ms, steps, i + 1, Progress(acc.rewrites[ms[i].offset := text], puts));
    }
  }

  /** Without S3, a link whose attachment cannot be downloaded makes the whole call throw. */
  lemma FallbackMissingAttachmentThrows(body: string, repoId: Option<int>, s3: Option<S3Settings>, env: Env, k: nat)
    requires !UsesS3(s3)
    requires k < |Scan(body, 0)| && env.getAttachment(Scan(body, 0)[k].path).None?
    ensures Migrate(body, repoId, s3, env).Failure?
  {
    var ms := Scan(body, 0);
    StepAt(ms, k, repoId, s3, env);
    FailingPassThrows(ms, Steps(ms, repoId, s3, env), Start, k);
  }

  /** A loop in which some pass fails throws. */
  lemma FailingPassThrows(ms: seq<Match>, steps: seq<Step>, acc: Progress, k: nat)
    requires |steps| == |ms| && k < |ms| && steps[k].Fail?
    ensures RunFrom(ms, steps, 0, acc).Failure?
  {
    var j := FirstFailing(steps, k);
    RunFailure(ms, steps, 0, acc, steps[j].error);
  }

  /** The first failing pass at or before `k`, which fails. */
  function FirstFailing(steps: seq<Step>, k: nat): (j: nat)
    requires k < |steps| && steps[k].Fail?
    ensures j <= k && steps[j].Fail?
    ensures forall i :: 0 <= i < j ==> !steps[i].Fail?
    decreases k
  {
    if forall i :: 0 <= i < k ==> !steps[i].Fail? then k
    else
      var i :| 0 <= i < k && steps[i].Fail?;
      FirstFailing(steps, i)
  }

  /** What the callback returns for each link, as written: its rewrite, or "undefined" for a skipped link. */
  function AsWritten(steps: seq<Step>): (r: seq<string>)
    ensures |r| == |steps|
  {
    seq(|steps|, k requires 0 <= k < |steps| => if steps[k].Rewrite? then steps[k].text else "undefined")
  }

  /** The returned body: each resolved link replaced by its rewrite, each skipped one by "undefined", the rest copied. */
  lemma MigrateOutput(body: string, repoId: Option<int>, s3: Option<S3Settings>, env: Env)
    requires Migrate(body, repoId, s3, env).Success?
    ensures var ms := Scan(body, 0);
      Migrate(body, repoId, s3, env).value == Splice(body, 0, ms, AsWritten(Steps(ms, repoId, s3, env)))
  {
    var ms := Scan(body, 0);
    ScanIncreasing(body);
    CallbacksAsWritten(ms, Steps(ms, repoId, s3, env));
  }

  /** The callback's values after the loop: each rewrite, or "undefined" where the pass skipped. */
  lemma CallbacksAsWritten(ms: seq<Match>, steps: seq<Step>)
    requires |steps| == |ms| && Increasing(ms) && RunFrom(ms, steps, 0, Start).Success?
    ensures Callbacks(RunFrom(ms, steps, 0, Start).value.rewrites, ms) == AsWritten(steps)
  {
    RunWrites(ms, steps);
  }

  /** A body without attachment links comes back unchanged, and nothing is uploaded. */
  lemma NoLinksNoChange(body: string, repoId: Option<int>, s3: Option<S3Settings>, env: Env)
    requires Scan(body, 0) == []
    ensures Migrate(body, repoId, s3, env) == Success(body)
    ensures Issued(body, repoId, s3, env) == []
  {
  }

  /** The requests sent: one per resolved link, in link order. */
  lemma IssuedRequests(body: string, repoId: Option<int>, s3: Option<S3Settings>, env: Env)
    requires Migrate(body, repoId, s3, env).Success?
    ensures Issued(body, repoId, s3, env) == Requests(Steps(Scan(body, 0), repoId, s3, env))
  {
    var ms := Scan(body, 0);
    var steps := Steps(ms, repoId, s3, env);
    RunRequests(ms, steps, 0, Start);
    assert steps[0..] == steps;
  }

  /** A link keeps its `!` marker, or its lack of one, and its name. */
  lemma LinkKeepsMarker(bang: bool, name: string, target: string)
    ensures var t := Link(bang, name, target);
      && (t[0] == '!' <==> bang)
      && HasPrefixAt(t, |Marker(bang)|, "[" + name + "](")
  {
    var t := Link(bang, name, target);
    var n := |Marker(bang)| + |"[" + name + "]("|;
    assert t == (Marker(bang) + ("[" + name + "](")) + (target + ")");
    assert t[|Marker(bang)|..n] == "[" + name + "](";
  }

  /** In S3 mode the URL written into the body names the object whose upload was requested. */
  lemma RequestMatchesUrl(m: Match, repoId: Option<int>, s3: Option<S3Settings>, env: Env)
    requires UsesS3(s3) && ValidPath(m.path)
    requires Resolve(m, repoId, s3, env).Rewrite?
    ensures var r := Resolve(m, repoId, s3, env);
      && r.put.Some?
      && r.text == Link(m.bang, m.name, ObjectUrl(s3.value, r.put.value.key))
      && r.put.value.bucket == s3.value.bucket
      && Basename(r.put.value.key) == Basename(m.path)
      && r.put.value.contentType == env.mimeLookup(Basename(m.path))
      && env.getAttachment(m.path) == Some(r.put.value.body)
  {
    var bytes := env.getAttachment(m.path).value;
    S3Rewrite(m, bytes, repoId, s3.value, env);
    assert m.path[1] == UploadsDir[1] != '/';
    ObjectKeyParts(repoId, env.sha256Hex(m.path), Basename(m.path));
  }

  /** In S3 mode two links with the same path get the same object and the same URL. */
  lemma SamePathSameObject(m1: Match, m2: Match, repoId: Option<int>, s3: Option<S3Settings>, env: Env)
    requires UsesS3(s3) && m1.path == m2.path
    requires Resolve(m1, repoId, s3, env).Rewrite?
    ensures Resolve(m2, repoId, s3, env).Rewrite?
    ensures Resolve(m1, repoId, s3, env).put == Resolve(m2, repoId, s3, env).put
    ensures Target(m1, env.getAttachment(m1.path).value, repoId, s3, env)
         == Target(m2, env.getAttachment(m2.path).value, repoId, s3, env)
  {
  }

  /** The call with the replace pass as intended: a skipped link keeps its original text. */
  function MigrateIntended(body: string, repoId: Option<int>, s3: Option<S3Settings>, env: Env): Result<string, Error> {
    match Run(body, repoId, s3, env)
    case Failure(e) => Failure(e)
    case Success(p) => Success(ReplaceAllKeeping(body, p.rewrites))
  }

  /** What the intended callback returns for each link. */
  function Intended(ms: seq<Match>, steps: seq<Step>): (r: seq<string>)
    requires |steps| == |ms|
    ensures |r| == |ms|
  {
    seq(|ms|, k requires 0 <= k < |ms| => if steps[k].Rewrite? then steps[k].text else Text(ms[k]))
  }

  /** With the intended callback, resolved links are rewritten and skipped links are left as they were. */
  lemma IntendedOutput(body: string, repoId: Option<int>, s3: Option<S3Settings>, env: Env)
    requires MigrateIntended(body, repoId, s3, env).Success?
    ensures var ms := Scan(body, 0);
      MigrateIntended(body, repoId, s3, env).value == Splice(body, 0, ms, Intended(ms, Steps(ms, repoId, s3, env)))
  {
    var ms := Scan(body, 0);
    ScanIncreasing(body);
    CallbacksIntended(ms, Steps(ms, repoId, s3, env));
  }

  /** The intended callback's values after the loop: each rewrite, or the link's own text where the pass skipped. */
  lemma CallbacksIntended(ms: seq<Match>, steps: seq<Step>)
    requires |steps| == |ms| && Increasing(ms) && RunFrom(ms, steps, 0, Start).Success?
    ensures KeptOrRewritten(RunFrom(ms, steps, 0, Start).value.rewrites, ms) == Intended(ms, steps)
  {
    RunWrites(ms, steps);
  }

  /** With the intended callback, in S3 mode, a body none of whose attachments can be downloaded is unchanged. */
  lemma IntendedKeepsUnresolved(body: string, repoId: Option<int>, s3: Option<S3Settings>, env: Env)
    requires UsesS3(s3)
    requires forall m :: m in Scan(body, 0) ==> env.getAttachment(m.path).None?
    ensures MigrateIntended(body, repoId, s3, env) == Success(body)
  {
    var ms := Scan(body, 0);
    S3MissingSkipped(ms, repoId, s3, env);
    AllSkippedRun(ms, Steps(ms, repoId, s3, env), 0, Start);
    KeepingWithoutEntries(body, Start.rewrites);
  }

  /** In S3 mode every pass over a link whose attachment is missing skips it. */
  lemma S3MissingSkipped(ms: seq<Match>, repoId: Option<int>, s3: Option<S3Settings>, env: Env)
    requires UsesS3(s3)
    requires forall m :: m in ms ==> env.getAttachment(m.path).None?
    ensures forall k :: 0 <= k < |ms| ==> Steps(ms, repoId, s3, env)[k] == Skip
  {
    forall k | 0 <= k < |ms| ensures Steps(ms, repoId, s3, env)[k] == Skip {
      StepAt(ms, k, repoId, s3, env);
    }
  }

  /** A loop whose passes all skip leaves `offsetToAttachment` and the requests as they were. */
  lemma {:induction false} AllSkippedRun(ms: seq<Match>, steps: seq<Step>, i: nat, acc: Progress)
    requires |steps| == |ms| && i <= |ms|
    requires forall k :: i <= k < |ms| ==> steps[k] == Skip
    ensures RunFrom(ms, steps, i, acc) == Success(acc)
    decreases |ms| - i
  {
    if i < |ms| {
      AllSkippedRun(ms, steps, i + 1, acc);
    }
  }

  /** The one attachment link of `see [img](/uploads/1/2/pic.png)`. */
  lemma ExampleScan()
    ensures var path := "/uploads/1/2/pic.png";
      Scan("see " + Link(false, "img", path), 0) == [Match(4, false, "img", path)]
  {
    var path := "/uploads/1/2/pic.png";
    assert ValidPath(path) by {
      assert path[..|UploadsDir|] == UploadsDir;
    }
    PlainThenLink("see ", false, "img", path);
  }

  /** The loop over a single match whose pass rewrites it. */
  lemma RunOne(ms: seq<Match>, steps: seq<Step>, acc: Progress)
    requires |ms| == 1 && |steps| == 1 && steps[0].Rewrite?
    ensures RunFrom(ms, steps, 0, acc) == Success(Progress(acc.rewrites[ms[0].offset := steps[0].text],
      if steps[0].put.Some? then acc.puts + [steps[0].put.value] else acc.puts))
  {
  }

  /** A body with one link, which its pass rewrites: the text around the link is kept and one request at most is sent. */
  lemma SingleLinkRewritten(body: string, m: Match, text: string, put: Option<PutRequest>,
                            repoId: Option<int>, s3: Option<S3Settings>, env: Env)
    requires Scan(body, 0) == [m]
    requires Steps([m], repoId, s3, env) == [Rewrite(text, put)]
    ensures m.offset <= End(m) <= |body|
    ensures Migrate(body, repoId, s3, env) == Success(body[..m.offset] + text + body[End(m)..])
    ensures Issued(body, repoId, s3, env) == if put.Some? then [put.value] else []
  {
    var ms := Scan(body, 0);
    var steps := Steps(ms, repoId, s3, env);
    RunOne(ms, steps, Start);
    MigrateOutput(body, repoId, s3, env);
    assert Splice(body, 0, ms, [text]) == body[0..m.offset] + text + Splice(body, End(m), [], []) by {
      assert ms[1..] == [];
    }
  }

  lemma ExampleBasename()
    ensures Basename("/uploads/1/2/pic.png") == "pic.png"
  {
    assert "/uploads/1/2/pic.png" == "/uploads/1/2" + "/" + "pic.png";
    BasenameOfJoin("/uploads/1/2", "pic.png");
  }

  lemma ExampleTrim()
    ensures Trim("https://host/x\n") == "https://host/x"
  {
    assert "https://host/x\n" == "" + "https://host/x" + "\n";
    TrimCharacterization("", "https://host/x", "\n");
  }

  /** Without S3, the pass over the example link rewrites it to the trimmed output of the helper. */
  lemma ExampleSteps(repoId: Option<int>, s3: Option<S3Settings>, env: Env, bytes: seq<byte>)
    requires !UsesS3(s3)
    requires env.getAttachment("/uploads/1/2/pic.png") == Some(bytes)
    requires env.runUploader("/tmp/pic.png", bytes) == ProcessOutput("https://host/x\n", "", 0)
    ensures Steps([Match(4, false, "img", "/uploads/1/2/pic.png")], repoId, s3, env)
         == [Rewrite(Link(false, "img", "https://host/x"), None)]
  {
    var ms := [Match(4, false, "img", "/uploads/1/2/pic.png")];
    ExampleResolve(repoId, s3, env, bytes);
    StepAt(ms, 0, repoId, s3, env);
  }

  lemma ExampleResolve(repoId: Option<int>, s3: Option<S3Settings>, env: Env, bytes: seq<byte>)
    requires !UsesS3(s3)
    requires env.getAttachment("/uploads/1/2/pic.png") == Some(bytes)
    requires env.runUploader("/tmp/pic.png", bytes) == ProcessOutput("https://host/x\n", "", 0)
    ensures Resolve(Match(4, false, "img", "/uploads/1/2/pic.png"), repoId, s3, env)
         == Rewrite(Link(false, "img", "https://host/x"), None)
  {
    var m := Match(4, false, "img", "/uploads/1/2/pic.png");
    ExampleBasename();
    assert TempPath("pic.png") == "/tmp/pic.png";
    FallbackRewrite(m, bytes, repoId, s3, env);
    ExampleTrim();
  }

  /**
   * Without S3: for `see [img](/uploads/1/2/pic.png)`, the helper prints the
   * new URL followed by a newline, and the link is rewritten to that URL.
   */
  lemma FallbackScenario(repoId: Option<int>, s3: Option<S3Settings>, env: Env, bytes: seq<byte>)
    requires !UsesS3(s3)
    requires env.getAttachment("/uploads/1/2/pic.png") == Some(bytes)
    requires env.runUploader("/tmp/pic.png", bytes) == ProcessOutput("https://host/x\n", "", 0)
    ensures var body := "see " + Link(false, "img", "/uploads/1/2/pic.png");
      && Migrate(body, repoId, s3, env) == Success("see " + Link(false, "img", "https://host/x"))
      && Issued(body, repoId, s3, env) == []
  {
    var path := "/uploads/1/2/pic.png";
    var body := "see " + Link(false, "img", path);
    var m := Match(4, false, "img", path);
    var text := Link(false, "img", "https://host/x");
    ExampleScan();
    ExampleSteps(repoId, s3, env, bytes);
    SingleLinkRewritten(body, m, text, None, repoId, s3, env);
    assert End(m) == |body|;
    assert body[..4] == "see ";
    assert body[..m.offset] + text + body[End(m)..] == "see " + text;
  }
}
