/**
  The two BentoML CLI invocations the end-to-end script issues, and the names
  they carry: the bento tag `name:version`, the random deployment name
  `tests-lambda-e2e-<6 hex chars>`, the `deploy create` argument list and the
  `deploy delete` argument list. Each builder has a recogniser as its partner,
  and the lemmas show that a recogniser accepts exactly what its builder makes.
 */
module Commands {
  import opened PyText
  import opened Options

  const NamePrefix: string := "tests-lambda-e2e-"
  const HexDigits: string := "0123456789abcdef"

  /** What `uuid.uuid4().hex[:6]` yields: six lower-case hexadecimal digits. */
  predicate IsHexHash(h: string) {
    |h| == 6 && forall k :: 0 <= k < |h| ==> h[k] in HexDigits
  }

  /** `'tests-lambda-e2e-{}'.format(random_hash)`. */
  function DeploymentName(hash: string): (name: string)
    requires IsHexHash(hash)
  {
    NamePrefix + hash
  }

  /** The random part of a deployment name made by `DeploymentName`. */
  function HashOf(name: string): string
    requires |name| >= |NamePrefix|
  {
    name[|NamePrefix|..]
  }

  /** A deployment name has a fixed length, starts with the prefix, and gives back its hash. */
  lemma DeploymentNameRoundTrip(hash: string)
    requires IsHexHash(hash)
    ensures |DeploymentName(hash)| == |NamePrefix| + 6
    ensures StartsWith(DeploymentName(hash), NamePrefix)
    ensures HashOf(DeploymentName(hash)) == hash
  {
    assert DeploymentName(hash)[..|NamePrefix|] == NamePrefix;
  }

  /** Different hashes give different deployment names, so runs with distinct hashes never share a deployment. */
  lemma DeploymentNameInjective(h1: string, h2: string)
    requires IsHexHash(h1) && IsHexHash(h2)
    requires DeploymentName(h1) == DeploymentName(h2)
    ensures h1 == h2
  {
    DeploymentNameRoundTrip(h1);
    DeploymentNameRoundTrip(h2);
  }

  /** `'{}:{}'.format(loaded_service.name, loaded_service.version)`. */
  function BentoTag(name: string, version: string): string {
    name + [':'] + version
  }

  /** When neither part holds a colon, `tag.split(':')` recovers the service name and version. */
  lemma BentoTagSplits(name: string, version: string)
    requires ':' !in name && ':' !in version
    ensures Split(BentoTag(name, version), ':') == [name, version]
  {
    assert Join([version], ':') == version;
    assert Join([name, version], ':') == BentoTag(name, version);
    SplitJoin([name, version], ':');
  }

  /** The argument list of `bentoml --verbose deploy create`. */
  function CreateCommand(deploymentName: string, bentoTag: string): seq<string> {
    ["bentoml", "--verbose", "deploy", "create", deploymentName,
     "--bento", bentoTag, "--platform", "aws-lambda", "--region", "us-west-2"]
  }

  /** The argument list of `bentoml deploy delete ... --force`. */
  function DeleteCommand(deploymentName: string): seq<string> {
    ["bentoml", "deploy", "delete", deploymentName, "--force"]
  }

  /** The deployment and bento tag an argument list creates, if it is a create command. */
  function CreateTarget(argv: seq<string>): Option<(string, string)> {
    if |argv| == 11 && argv[..4] == ["bentoml", "--verbose", "deploy", "create"]
       && argv[5] == "--bento" && argv[7..] == ["--platform", "aws-lambda", "--region", "us-west-2"]
    then Some((argv[4], argv[6]))
    else None
  }

  /** The deployment an argument list deletes, if it is a delete command. */
  function DeleteTarget(argv: seq<string>): Option<string> {
    if |argv| == 5 && argv[..3] == ["bentoml", "deploy", "delete"] && argv[4] == "--force"
    then Some(argv[3])
    else None
  }

  /** `CreateTarget` accepts exactly the lists `CreateCommand` builds, and reads back its arguments. */
  lemma CreateTargetInverts(argv: seq<string>, deploymentName: string, bentoTag: string)
    ensures CreateTarget(argv) == Some((deploymentName, bentoTag))
        <==> argv == CreateCommand(deploymentName, bentoTag)
  {
    if CreateTarget(argv) == Some((deploymentName, bentoTag)) {
      assert argv == argv[..4] + [argv[4], argv[5], argv[6]] + argv[7..];
    }
    if argv == CreateCommand(deploymentName, bentoTag) {
      assert argv[..4] == ["bentoml", "--verbose", "deploy", "create"];
      assert argv[7..] == ["--platform", "aws-lambda", "--region", "us-west-2"];
    }
  }

  /** `DeleteTarget` accepts exactly the lists `DeleteCommand` builds, and reads back the deployment name. */
  lemma DeleteTargetInverts(argv: seq<string>, deploymentName: string)
    ensures DeleteTarget(argv) == Some(deploymentName) <==> argv == DeleteCommand(deploymentName)
  {
    if DeleteTarget(argv) == Some(deploymentName) {
      assert argv == argv[..3] + [argv[3], argv[4]];
    }
    if argv == DeleteCommand(deploymentName) {
      assert argv[..3] == ["bentoml", "deploy", "delete"];
    }
  }

  /** The two commands are never confused, and both name the same deployment (position 4 of create, 3 of delete). */
  lemma CommandsShareDeployment(deploymentName: string, bentoTag: string)
    ensures DeleteTarget(CreateCommand(deploymentName, bentoTag)) == None
    ensures CreateTarget(DeleteCommand(deploymentName)) == None
    ensures CreateCommand(deploymentName, bentoTag)[4] == DeleteCommand(deploymentName)[3] == deploymentName
  {
    CreateTargetInverts(CreateCommand(deploymentName, bentoTag), deploymentName, bentoTag);
    DeleteTargetInverts(DeleteCommand(deploymentName), deploymentName);
  }
}
