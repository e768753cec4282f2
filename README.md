# AWS Lambda end-to-end deployment test, modelled in Dafny

BentoML's release checks include a script that deploys a small iris classifier
to AWS Lambda and checks the live deployment
(`scripts/e2e_tests/aws_lambda/e2e_lambda_deployment.py`). After the model is
trained and saved, the script runs in three phases:

1. It runs `bentoml --verbose deploy create tests-lambda-e2e-<hash> --bento <name>:<version>
   --platform aws-lambda --region us-west-2`. If the output starts with
   `Failed to create deployment`, it sets `deployment_failed`.
2. It splits that output into lines. The endpoint is the line after the last
   line that contains `"endpoints": [`. That line is stripped of surrounding
   whitespace and then of every `"`.
3. If creation was not flagged as failed, it POSTs one sample to the endpoint.
   The run counts as failed unless the status is 200 and the body is exactly `[0]`. A
   raised exception also counts as a failure.

It then runs `bentoml deploy delete tests-lambda-e2e-<hash> --force` and
reports the value of `deployment_failed`.

The model has five modules:

- `Options` (`option.dfy`): an `Option` datatype.
- `PyText` (`py_text.dfy`): the Python string operations the script uses.
  These are `split('\n')`, `strip()` (with Python's `isspace` character set),
  `replace('"', '')`, `in` and `startswith`. Each has a partner: `Split` has
  `Join`, and `Strip` has a characterisation lemma.
- `Commands` (`commands.dfy`): the deployment name, the bento tag and the two
  argument lists, each with a recogniser that inverts it.
- `EndpointScan` (`endpoint_scan.dfy`): the scan. The declarative definition is
  `Extract`. `ScanEndpoint` is the script's `for` loop, proved equal to
  `Extract`.
- `Lifecycle` (`lifecycle.dfy`): the whole run as one method, `RunEndToEnd`.
  - It records every process spawned and every request posted in a trace.
  - It returns `Finished(failed, trace)`, or `Aborted(index, trace)` when the
    scan raises `IndexError`.
  - A ghost sequence records every value the flag has held.
  - `SendSample` is the `try` block that posts the sample and judges the
    answer.

The outside world enters as parameters:

- the saved service's name and version;
- the six hex characters taken from `uuid4().hex`;
- the create command's stdout;
- the outcome of the HTTP request: `Response(status, body)` or `Raised(message)`.

### Where the code does not do what a reader might expect

The model follows the code in each of these cases:

- **Which marker wins.** One might expect the first marker to win. In the
  code, each match overwrites the endpoint, so the last one wins
  (`EndpointScan.LastMarkerWins`).
- **Marker on the final line.** One might expect the endpoint to be reported
  as absent. In the code, `lines[index + 1]` raises `IndexError`. That
  happens outside the `try`, so the run dies before the delete command
  (`EndpointScan.IndexErrorIffMarkerLast`, `Lifecycle.MarkerLastScenario`).
  Output that ends with a newline after the marker does not raise, because
  `split` then yields an empty final line, and the endpoint becomes `''`.
- **Quoted text with spaces inside.** One might expect the quoted text
  `"  https://x.example/invoke "` to give a bare URL. The code
  strips whitespace first and removes quotes second. The spaces inside the
  quotes survive, so the result is `  https://x.example/invoke `
  (`EndpointScan.CleanKeepsInnerWhitespace`, `EndpointScan.QuotedEndpointOutput`).
- **No endpoint found.** One might expect a missing endpoint to count as a
  failed creation. The code does not: it still posts to `''`. The model
  records that post and takes its outcome as an input.

## Model

| member | source | states |
|---|---|---|
| `PyText.Split` | scripts/e2e_tests/aws_lambda/e2e_lambda_deployment.py:72 | `split('\n')` yields at least one piece, and no piece contains the separator |
| `PyText.JoinSplit` | scripts/e2e_tests/aws_lambda/e2e_lambda_deployment.py:72 | joining the pieces with the separator gives back the original output, so splitting loses nothing |
| `PyText.SplitJoin` | scripts/e2e_tests/aws_lambda/e2e_lambda_deployment.py:72 | separator-free pieces are recovered exactly by splitting their join, so the lines are determined by the text |
| `PyText.StripLeadingSpec` | scripts/e2e_tests/aws_lambda/e2e_lambda_deployment.py:77 | the result is a suffix of the line, everything dropped is whitespace, and the result does not start with whitespace |
| `PyText.StripTrailingSpec` | scripts/e2e_tests/aws_lambda/e2e_lambda_deployment.py:77 | the result is a prefix of the line, everything dropped is whitespace, and the result does not end with whitespace |
| `PyText.StripExactly` | scripts/e2e_tests/aws_lambda/e2e_lambda_deployment.py:77 | `strip()` on whitespace + m + whitespace, where m has non-space ends, gives exactly m, with any whitespace inside m kept |
| `PyText.StripDecomposes` | scripts/e2e_tests/aws_lambda/e2e_lambda_deployment.py:77 | every line is whitespace, then the stripped text, then whitespace |
| `PyText.StripTrimmed` | scripts/e2e_tests/aws_lambda/e2e_lambda_deployment.py:77 | a stripped line neither starts nor ends with whitespace |
| `PyText.StripIdempotent` | scripts/e2e_tests/aws_lambda/e2e_lambda_deployment.py:77 | stripping twice equals stripping once |
| `PyText.RemoveAll` | scripts/e2e_tests/aws_lambda/e2e_lambda_deployment.py:77 | after `replace(c, '')` the text has no `c` and is no longer than before |
| `PyText.RemoveAllCounts` | scripts/e2e_tests/aws_lambda/e2e_lambda_deployment.py:77 | the removal drops every `c` and keeps every other character as often as it occurred |
| `PyText.RemoveAllAppend` | scripts/e2e_tests/aws_lambda/e2e_lambda_deployment.py:77 | removal distributes over concatenation, so the kept characters stay in their original order |
| `PyText.RemoveAllAbsent` | scripts/e2e_tests/aws_lambda/e2e_lambda_deployment.py:77 | a text without `c` is unchanged by the removal |
| `PyText.StartsWithConcat` | scripts/e2e_tests/aws_lambda/e2e_lambda_deployment.py:70 | `startswith(p)` holds exactly when the text is `p` followed by some text |
| `PyText.ContainsOccurs` | scripts/e2e_tests/aws_lambda/e2e_lambda_deployment.py:75 | `p in s` holds exactly when `p` occurs at some position of `s` |
| `Commands.DeploymentNameRoundTrip` | scripts/e2e_tests/aws_lambda/e2e_lambda_deployment.py:48-49 | the deployment name is 23 characters, starts with `tests-lambda-e2e-` and gives back the random hash |
| `Commands.DeploymentNameInjective` | scripts/e2e_tests/aws_lambda/e2e_lambda_deployment.py:48-49 | distinct hashes give distinct deployment names |
| `Commands.BentoTagSplits` | scripts/e2e_tests/aws_lambda/e2e_lambda_deployment.py:47 | for a colon-free name and version, `'{}:{}'` splits back on `:` into the name and the version |
| `Commands.CreateTargetInverts` | scripts/e2e_tests/aws_lambda/e2e_lambda_deployment.py:50-62 | an argument list is the 11-token create command for (name, tag) exactly when the create recogniser reads back (name, tag) |
| `Commands.DeleteTargetInverts` | scripts/e2e_tests/aws_lambda/e2e_lambda_deployment.py:103-109 | an argument list is the 5-token delete command for a name exactly when the delete recogniser reads back that name |
| `Commands.CommandsShareDeployment` | scripts/e2e_tests/aws_lambda/e2e_lambda_deployment.py:50-109 | a create command is never read as a delete command, and a delete command is never read as a create command; the deployment name is token 4 of create and token 3 of delete |
| `EndpointScan.Clean` | scripts/e2e_tests/aws_lambda/e2e_lambda_deployment.py:77 | a cleaned line contains no `"` |
| `EndpointScan.LastMarkerLineSpec` | scripts/e2e_tests/aws_lambda/e2e_lambda_deployment.py:74-75 | the result is `None` exactly when no line has the marker; otherwise it is a marker line with no marker line after it |
| `EndpointScan.ScanEndpoint` | scripts/e2e_tests/aws_lambda/e2e_lambda_deployment.py:72-78 | the `for` loop over the split lines yields exactly `Extract(stdout)`: the endpoint, or the `IndexError` |
| `EndpointScan.IndexErrorIffMarkerLast` | scripts/e2e_tests/aws_lambda/e2e_lambda_deployment.py:75-77 | the scan raises `IndexError` exactly when the final line contains the marker, and then at the index equal to the number of lines |
| `EndpointScan.NoMarkerGivesEmpty` | scripts/e2e_tests/aws_lambda/e2e_lambda_deployment.py:73-78 | with no marker anywhere, the endpoint stays `''` |
| `EndpointScan.LastMarkerWins` | scripts/e2e_tests/aws_lambda/e2e_lambda_deployment.py:74-78 | if line i is the last marker line and line i+1 exists, the endpoint is line i+1 cleaned, whatever earlier lines hold |
| `EndpointScan.OneLineWithoutQuotesScansEmpty` | scripts/e2e_tests/aws_lambda/e2e_lambda_deployment.py:72-78 | an output of one line without `"` has no marker, so the endpoint is `''` |
| `EndpointScan.EndpointHasNoQuote` | scripts/e2e_tests/aws_lambda/e2e_lambda_deployment.py:77 | an extracted endpoint contains no `"` |
| `EndpointScan.CleanKeepsInnerWhitespace` | scripts/e2e_tests/aws_lambda/e2e_lambda_deployment.py:77 | strip comes before quote removal, so `"  url "` gives `  url ` |
| `EndpointScan.QuotedEndpointOutput` | scripts/e2e_tests/aws_lambda/e2e_lambda_deployment.py:72-78 | for the output `"endpoints": [`, then `"  url "`, then a newline, the endpoint is `  url ` |
| `Lifecycle.TargetsAppend` | scripts/e2e_tests/aws_lambda/e2e_lambda_deployment.py:50-114 | the deployments a trace creates, deletes or posts to are those of its first part followed by those of its second |
| `Lifecycle.RunTraceTargets` | scripts/e2e_tests/aws_lambda/e2e_lambda_deployment.py:50-114 | a run trace creates its deployment once, deletes it once or not at all, and posts to exactly the addresses it was given, in order |
| `Lifecycle.SendSample` | scripts/e2e_tests/aws_lambda/e2e_lambda_deployment.py:80-100 | the `try` block sets the flag exactly when the request raised or did not return status 200 with body `[0]`, and only ever sets it to true |
| `Lifecycle.RunEndToEnd` | scripts/e2e_tests/aws_lambda/e2e_lambda_deployment.py:43-121 | the trace is exactly the create command, the request if one was sent, and the delete unless the run died; flag only ever set to true; aborts iff the scan raises; create issued first and once; a finished run deletes the created deployment exactly once, last, whatever the verdict; on a finished run, the request is sent iff no failure prefix; `failed` is false iff no failure prefix, no exception, status 200 and body `[0]` (details below) |
| `Lifecycle.CreateFailureScenario` | scripts/e2e_tests/aws_lambda/e2e_lambda_deployment.py:70-114 | for the one-line output `Failed to create deployment` (no marker): the run finishes failed, posts nothing, and deletes once |
| `Lifecycle.SuccessScenario` | scripts/e2e_tests/aws_lambda/e2e_lambda_deployment.py:72-114 | for the output marker, newline, `"  url "`, newline, then status 200 with `[0]`: the run finishes not failed, posts once to the scanned address, and deletes once |
| `Lifecycle.WrongBodyScenario` | scripts/e2e_tests/aws_lambda/e2e_lambda_deployment.py:88-114 | for the same output, then status 200 with `[1]`: the run finishes failed and still deletes once |
| `Lifecycle.MarkerLastScenario` | scripts/e2e_tests/aws_lambda/e2e_lambda_deployment.py:72-78 | for the two-line output `Deployment created`, newline, marker: the run aborts with `IndexError` at index 2 (the number of lines) and never deletes |

`Lifecycle.RunEndToEnd` states:

- The trace is exactly `RunTrace`: the create command, then the request if
  one was sent, then the delete command unless the run died. No other
  command is spawned.
- The flag starts false, and every later assignment sets it to true.
- The run aborts exactly when the scan raises.
- The create command is issued first, and only once.
- On a finished run, the one delete command is the last event and names the
  created deployment. This holds whatever the verdict.
- On an aborted run, nothing is deleted and no request is sent.
- On a finished run, a request goes to the scanned endpoint exactly when the
  output lacks the failure prefix.
- `failed` is false exactly when three things hold: the output lacks the
  failure prefix, the request did not raise, and it returned status 200 with
  body `[0]`.

## Left out

- Training the SVM, loading the iris data, `IrisClassifier`, `pack`, `save`,
  `load` and `predict` (lines 19-42). These are floating-point numerics and
  calls into sklearn and BentoML.
- `subprocess.Popen` and reading its pipes. Each command is an event in the
  trace. The create command's stdout is an input.
- Exceptions from spawning a command or decoding its output (lines 64-67 and
  111-113): a missing `bentoml` binary, or create output that is not UTF-8,
  raises outside any `try` and ends the run before the scan or before the
  delete. The model assumes both commands start and print valid UTF-8; its
  only abort path is the scan's `IndexError`.
- The delete command's stdout (line 114). It is only logged, so it is not an
  input of the model.
- `requests.post`, the JSON payload and UTF-8 decoding of the response.
  - The outcome of the request is an input. A decoding error inside the `try`
    counts as `Raised`.
  - What the library does with an empty or malformed URL is not modelled.
- `uuid.uuid4()`. Its six hex characters are an input, constrained to lower-case
  hex by `Commands.IsHexHash`.
- Logging, including the final messages at lines 118-121. The script's exit
  status does not depend on the verdict, so the verdict is the `failed` field
  of the result.
- Timeouts, cancellation and retries, which the script does not implement.
