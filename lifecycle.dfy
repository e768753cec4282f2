/**
  The `__main__` flow of the AWS Lambda end-to-end script after the model has
  been saved: create a test deployment with the BentoML CLI, scan its output
  for the endpoint, send one prediction request unless creation reported
  failure, delete the deployment, and report whether anything failed.

  The outside world enters as parameters: the service name and version of the
  saved bundle, the six hex characters drawn from `uuid4()`, the text the
  create command printed, and what the HTTP request came back with. What the
  run does to the outside world is recorded in a trace of events: each
  process it spawns and each request it posts.
 */
module Lifecycle {
  import opened PyText
  import opened Options
  import opened Commands
  import opened EndpointScan

  /** The phrase the create command's output starts with when creation failed. */
  const FailurePrefix: string := "Failed to create deployment"

  /** The body the deployed iris classifier must answer for the first iris sample. */
  const ExpectedBody: string := "[0]"

  /** What `requests.post` led to: a response, or an exception raised while requesting or reading it. */
  datatype HttpOutcome = Response(status: int, body: string) | Raised(message: string)

  /** Something the run does to the outside world. */
  datatype Event = Spawn(argv: seq<string>) | Post(url: string)

  /**
    How a run ends: it reaches the final report with the value of
    `deployment_failed`, or it dies on the uncaught `IndexError` of the
    endpoint scan, at the given list index.
   */
  datatype Run = Finished(failed: bool, trace: seq<Event>) | Aborted(index: nat, trace: seq<Event>)

  /** The kinds of event a trace can be projected on. */
  datatype Kind = Creates | Deletes | Posts

  /** The deployment an event creates or deletes, or the address it posts to, if it is of that kind. */
  function TargetOf(e: Event, kind: Kind): Option<string> {
    match (e, kind)
    case (Spawn(argv), Creates) => if CreateTarget(argv).Some? then Some(CreateTarget(argv).value.0) else None
    case (Spawn(argv), Deletes) => DeleteTarget(argv)
    case (Post(url), Posts) => Some(url)
    case _ => None
  }

  /** The targets of the events of one kind, in the order they happened. */
  function Targets(trace: seq<Event>, kind: Kind): (ts: seq<string>)
    ensures |ts| <= |trace|
    decreases |trace|
  {
    if trace == [] then []
    else
      var last := trace[|trace| - 1];
      Targets(trace[..|trace| - 1], kind)
        + (if TargetOf(last, kind).Some? then [TargetOf(last, kind).value] else [])
  }

  /** Projecting a trace distributes over concatenation. */
  lemma {:induction false} TargetsAppend(a: seq<Event>, b: seq<Event>, kind: Kind)
    ensures Targets(a + b, kind) == Targets(a, kind) + Targets(b, kind)
    decreases |b|
  {
    if b == [] {
      assert a + b == a;
    } else {
      var ab := a + b;
      assert ab[..|ab| - 1] == a + b[..|b| - 1];
      assert ab[|ab| - 1] == b[|b| - 1];
      TargetsAppend(a, b[..|b| - 1], kind);
    }
  }

  /** The trace of a run: the create command, then the requests posted, then (if the run got that far) the delete command. */
  function RunTrace(deploymentName: string, bentoTag: string, posted: seq<string>, deleted: bool): seq<Event> {
    [Spawn(CreateCommand(deploymentName, bentoTag))]
      + seq(|posted|, k requires 0 <= k < |posted| => Post(posted[k]))
      + (if deleted then [Spawn(DeleteCommand(deploymentName))] else [])
  }

  /** Helper: a run that has not yet deleted records a request by growing its posts. */
  lemma RunTracePost(deploymentName: string, bentoTag: string, posted: seq<string>, url: string)
    ensures RunTrace(deploymentName, bentoTag, posted, false) + [Post(url)]
         == RunTrace(deploymentName, bentoTag, posted + [url], false)
  {
    var n := |posted| + 1;
    assert seq(|posted|, k requires 0 <= k < |posted| => Post(posted[k])) + [Post(url)]
        == seq(n, k requires 0 <= k < n => Post((posted + [url])[k]));
  }

  /** Helper: a run that has not yet deleted records the delete command as its last event. */
  lemma RunTraceDelete(deploymentName: string, bentoTag: string, posted: seq<string>)
    ensures RunTrace(deploymentName, bentoTag, posted, false) + [Spawn(DeleteCommand(deploymentName))]
         == RunTrace(deploymentName, bentoTag, posted, true)
  {
  }

  /** Helper: a trace of posts only has the posted addresses as its `Posts` targets and nothing else. */
  lemma {:induction false} PostsTargets(posted: seq<string>, kind: Kind)
    ensures Targets(seq(|posted|, k requires 0 <= k < |posted| => Post(posted[k])), kind)
         == if kind == Posts then posted else []
    decreases |posted|
  {
    var t := seq(|posted|, k requires 0 <= k < |posted| => Post(posted[k]));
    if posted != [] {
      var front := posted[..|posted| - 1];
      PostsTargets(front, kind);
      assert t[..|t| - 1] == seq(|front|, k requires 0 <= k < |front| => Post(front[k]));
      if kind == Posts {
        assert front + [posted[|posted| - 1]] == posted;
      }
    }
  }

  /** Helper: a create command is seen only as a create, of the deployment it names. */
  lemma CreateEventTargets(deploymentName: string, bentoTag: string, kind: Kind)
    ensures Targets([Spawn(CreateCommand(deploymentName, bentoTag))], kind)
         == if kind == Creates then [deploymentName] else []
  {
    var t := [Spawn(CreateCommand(deploymentName, bentoTag))];
    assert t[..0] == [];
    CommandsShareDeployment(deploymentName, bentoTag);
    CreateTargetInverts(CreateCommand(deploymentName, bentoTag), deploymentName, bentoTag);
  }

  /** Helper: a delete command is seen only as a delete, of the deployment it names. */
  lemma DeleteEventTargets(deploymentName: string, kind: Kind)
    ensures Targets([Spawn(DeleteCommand(deploymentName))], kind)
         == if kind == Deletes then [deploymentName] else []
  {
    var t := [Spawn(DeleteCommand(deploymentName))];
    assert t[..0] == [];
    CommandsShareDeployment(deploymentName, "");
    DeleteTargetInverts(DeleteCommand(deploymentName), deploymentName);
  }

  /** Helper: the projection of a run trace on one kind, piece by piece. */
  lemma RunTraceTargetsOf(deploymentName: string, bentoTag: string, posted: seq<string>, deleted: bool, kind: Kind)
    ensures Targets(RunTrace(deploymentName, bentoTag, posted, deleted), kind)
         == (if kind == Creates then [deploymentName] else [])
          + (if kind == Posts then posted else [])
          + (if kind == Deletes && deleted then [deploymentName] else [])
  {
    var create := [Spawn(CreateCommand(deploymentName, bentoTag))];
    var posts := seq(|posted|, k requires 0 <= k < |posted| => Post(posted[k]));
    var delete: seq<Event> := if deleted then [Spawn(DeleteCommand(deploymentName))] else [];
    assert RunTrace(deploymentName, bentoTag, posted, deleted) == create + posts + delete;
    TargetsAppend(create, posts, kind);
    TargetsAppend(create + posts, delete, kind);
    CreateEventTargets(deploymentName, bentoTag, kind);
    PostsTargets(posted, kind);
    if deleted {
      DeleteEventTargets(deploymentName, kind);
    }
  }

  /** What each projection of a run's trace is: one create, the posts in order, and one delete or none. */
  lemma RunTraceTargets(deploymentName: string, bentoTag: string, posted: seq<string>, deleted: bool)
    ensures Targets(RunTrace(deploymentName, bentoTag, posted, deleted), Creates) == [deploymentName]
    ensures Targets(RunTrace(deploymentName, bentoTag, posted, deleted), Deletes)
         == if deleted then [deploymentName] else []
    ensures Targets(RunTrace(deploymentName, bentoTag, posted, deleted), Posts) == posted
  {
    RunTraceTargetsOf(deploymentName, bentoTag, posted, deleted, Creates);
    RunTraceTargetsOf(deploymentName, bentoTag, posted, deleted, Deletes);
    RunTraceTargetsOf(deploymentName, bentoTag, posted, deleted, Posts);
  }

  /** Creation was flagged as failed: line 70 of the script. */
  predicate CreateFailed(createStdout: string) {
    StartsWith(createStdout, FailurePrefix)
  }

  /** The request succeeded by the script's standard: status 200 and body exactly `[0]`. */
  predicate Served(http: HttpOutcome) {
    http.Response? && http.status == 200 && http.body == ExpectedBody
  }

  /**
    The `try` block of the script: judge `http`, the outcome of posting the
    sample to the scanned endpoint (the caller records that post in its
    trace). `failed` is whether the block
    set `deployment_failed`; `raises` records each assignment of `True` it
    made, in order (two when both the status and the body are wrong).
   */
  method SendSample(http: HttpOutcome) returns (failed: bool, ghost raises: seq<bool>)
    ensures forall k :: 0 <= k < |raises| ==> raises[k]
    ensures failed <==> raises != []
    ensures failed <==> !Served(http)
  {
    failed := false;
    raises := [];
    match http
    case Raised(_) =>
      failed := true;
      raises := raises + [failed];
    case Response(status, body) =>
      if status != 200 {
        failed := true;
        raises := raises + [failed];
      }
      if body != ExpectedBody {
        failed := true;
        raises := raises + [failed];
      }
  }

  /**
    One run of the script. `flags` is a ghost record of every value
    `deployment_failed` has held, the initial one first; the assignments made
    inside the `try` block come from `SendSample`. The clauses on `flags` only
    say that the body never resets the flag, and any verdict meets them; the
    verdict itself is pinned down by the last clause, which does not mention
    `flags`.
   */
  method RunEndToEnd(serviceName: string, serviceVersion: string, hash: string,
                     createStdout: string, http: HttpOutcome)
    returns (run: Run, ghost flags: seq<bool>)
    requires IsHexHash(hash)
    // the flag starts false, and every later assignment sets it to true
    ensures |flags| >= 1 && !flags[0]
    ensures forall k :: 0 < k < |flags| ==> flags[k]
    ensures run.Finished? ==> run.failed == flags[|flags| - 1]
    // the run dies exactly when the endpoint scan raises
    ensures run.Aborted? <==> Extract(createStdout).IndexError?
    ensures run.Aborted? ==> run.index == Extract(createStdout).index
    // the trace is exactly: create, the request if one was sent, and the delete unless the run died
    ensures run.trace == RunTrace(DeploymentName(hash), BentoTag(serviceName, serviceVersion),
      if run.Aborted? || CreateFailed(createStdout) then [] else [Extract(createStdout).url],
      run.Finished?)
    // the create command comes first and is issued once
    ensures |run.trace| >= 1
      && run.trace[0] == Spawn(CreateCommand(DeploymentName(hash), BentoTag(serviceName, serviceVersion)))
    ensures Targets(run.trace, Creates) == [DeploymentName(hash)]
    // a finished run deletes the created deployment exactly once, last, whatever the verdict
    ensures run.Aborted? ==> Targets(run.trace, Deletes) == [] && Targets(run.trace, Posts) == []
    ensures run.Finished? ==>
      Targets(run.trace, Deletes) == [DeploymentName(hash)]
      && run.trace[|run.trace| - 1] == Spawn(DeleteCommand(DeploymentName(hash)))
    // the request is sent, once, to the scanned endpoint, iff creation was not flagged as failed
    ensures run.Finished? ==>
      Targets(run.trace, Posts) == if CreateFailed(createStdout) then [] else [Extract(createStdout).url]
    // the verdict
    ensures run.Finished? ==> (!run.failed <==> !CreateFailed(createStdout) && Served(http))
  {
    var deploymentFailed := false;
    flags := [deploymentFailed];
    var bentoName := BentoTag(serviceName, serviceVersion);
    var deploymentName := DeploymentName(hash);
    var createDeploymentCommand := CreateCommand(deploymentName, bentoName);
    var trace := [Spawn(createDeploymentCommand)];
    ghost var posted: seq<string> := [];
    assert trace == RunTrace(deploymentName, bentoName, posted, false);

    if StartsWith(createStdout, FailurePrefix) {
      deploymentFailed := true;
      flags := flags + [deploymentFailed];
    }
    var scanned := ScanEndpoint(createStdout);
    if scanned.IndexError? {
      RunTraceTargets(deploymentName, bentoName, posted, false);
      run := Aborted(scanned.index, trace);
      return;
    }
    var deploymentEndpoint := scanned.url;

    if !deploymentFailed {
      trace := trace + [Post(deploymentEndpoint)];
      RunTracePost(deploymentName, bentoName, posted, deploymentEndpoint);
      posted := posted + [deploymentEndpoint];
      var requestFailed, raises := SendSample(http);
      if requestFailed {
        deploymentFailed := true;
      }
      flags := flags + raises;
    }

    assert posted == if CreateFailed(createStdout) then [] else [Extract(createStdout).url];
    assert deploymentFailed == (CreateFailed(createStdout) || !Served(http));
    var deleteDeploymentCommand := DeleteCommand(deploymentName);
    trace := trace + [Spawn(deleteDeploymentCommand)];
    RunTraceDelete(deploymentName, bentoName, posted);
    RunTraceTargets(deploymentName, bentoName, posted, true);
    run := Finished(deploymentFailed, trace);
  }

  /** Helper: an output that is just the failure phrase is flagged as a failure. */
  lemma FailurePrefixFlagged()
    ensures CreateFailed(FailurePrefix)
  {
    assert FailurePrefix[..|FailurePrefix|] == FailurePrefix;
  }

  /** Helper: the failure phrase alone is one line without quotes, so it scans to the empty endpoint. */
  lemma FailurePrefixScans()
    ensures Extract(FailurePrefix) == Endpoint("")
  {
    assert '\n' !in FailurePrefix && '"' !in FailurePrefix;
    OneLineWithoutQuotesScansEmpty(FailurePrefix);
  }

  /**
    Creation printed the failure phrase alone, one line with no marker: the run finishes failed, sends no
    request, and still deletes the deployment once.
   */
  method CreateFailureScenario(serviceName: string, serviceVersion: string, hash: string, http: HttpOutcome)
    returns (run: Run)
    requires IsHexHash(hash)
    ensures run.Finished? && run.failed
    ensures Targets(run.trace, Posts) == []
    ensures Targets(run.trace, Deletes) == [DeploymentName(hash)]
  {
    FailurePrefixFlagged();
    FailurePrefixScans();
    ghost var flags;
    run, flags := RunEndToEnd(serviceName, serviceVersion, hash, FailurePrefix, http);
  }

  /**
    Creation printed the endpoint block and the deployment answered `[0]`
    with status 200: the run finishes without failure, posts once to the
    address (inner spaces kept), and deletes the deployment once.
   */
  method SuccessScenario(serviceName: string, serviceVersion: string, hash: string, url: string)
    returns (run: Run)
    requires IsHexHash(hash)
    requires '"' !in url && '\n' !in url
    ensures run.Finished? && !run.failed
    ensures Targets(run.trace, Posts) == ["  " + url + " "]
    ensures Targets(run.trace, Deletes) == [DeploymentName(hash)]
  {
    var stdout := Marker + "\n\"  " + url + " \"\n";
    QuotedEndpointOutput(url);
    assert !CreateFailed(stdout) by { assert stdout[0] != FailurePrefix[0]; }
    ghost var flags;
    run, flags := RunEndToEnd(serviceName, serviceVersion, hash, stdout, Response(200, ExpectedBody));
  }

  /**
    Creation printed the endpoint block but the deployment answered a wrong
    body: the run finishes failed and still deletes the deployment once.
   */
  method WrongBodyScenario(serviceName: string, serviceVersion: string, hash: string, url: string)
    returns (run: Run)
    requires IsHexHash(hash)
    requires '"' !in url && '\n' !in url
    ensures run.Finished? && run.failed
    ensures Targets(run.trace, Posts) == ["  " + url + " "]
    ensures Targets(run.trace, Deletes) == [DeploymentName(hash)]
  {
    var stdout := Marker + "\n\"  " + url + " \"\n";
    QuotedEndpointOutput(url);
    assert !CreateFailed(stdout) by { assert stdout[0] != FailurePrefix[0]; }
    ghost var flags;
    run, flags := RunEndToEnd(serviceName, serviceVersion, hash, stdout, Response(200, "[1]"));
  }

  /** A create output whose final line is the marker, with no newline after it. */
  const MarkerLastOutput: string := "Deployment created\n" + Marker

  /** Helper: `MarkerLastOutput` splits into two lines, so the scan raises at index 2. */
  lemma MarkerLastOutputScans()
    ensures Extract(MarkerLastOutput) == IndexError(2)
  {
    var lines := ["Deployment created", Marker];
    assert '\n' !in lines[0] && '\n' !in lines[1];
    assert Join(lines, '\n') == MarkerLastOutput by {
      assert Join(lines[1..], '\n') == Marker;
    }
    SplitJoin(lines, '\n');
    assert Contains(Marker, Marker) by { assert OccursAt(Marker, Marker, 0); }
  }

  /**
    Creation printed `MarkerLastOutput`: the scan raises at index 2 and the
    run dies before deleting anything.
   */
  method MarkerLastScenario(serviceName: string, serviceVersion: string, hash: string, http: HttpOutcome)
    returns (run: Run)
    requires IsHexHash(hash)
    ensures run.Aborted? && run.index == 2
    ensures Targets(run.trace, Deletes) == []
  {
    MarkerLastOutputScans();
    ghost var flags;
    run, flags := RunEndToEnd(serviceName, serviceVersion, hash, MarkerLastOutput, http);
  }
}
