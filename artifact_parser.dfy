/**
 * Artifact key parsing and repository classification
 * (`ArtifactParser` in artifact_parser.py).
 *
 * An artifact key has the form `repo/path.../name`; the parser splits it into
 * the repository, the path between the first and the last segment and the
 * file name. A repository is "local" when the text after its last `-`
 * contains `local`.
 */
module ArtifactParser {
  import opened Wrappers
  import opened Text

  /** The tuple `(repo_name, path, name, full_path)`. */
  datatype ArtifactPath = ArtifactPath(repo: string, path: string, name: string, key: string)

  /** `parse_artifact_path`: None for a key with fewer than two `/`-segments. */
  function ParseArtifactPath(key: string): (r: Option<ArtifactPath>)
    ensures r.Some? ==> r.value.key == key
  {
    var parts := Split(key, '/');
    if |parts| < 2 then None
    else
      var path := if |parts| > 2 then Join(parts[1..|parts| - 1], '/') else "";
      Some(ArtifactPath(parts[0], path, parts[|parts| - 1], key))
  }

  /** A key parses exactly when it contains a `/`. */
  lemma ParseFailsIffNoSlash(key: string)
    ensures ParseArtifactPath(key).None? <==> '/' !in key
  {
    SplitHasTwoPiecesIff(key, '/');
  }

  /**
   * The repository and the name are single segments, and the parts put back
   * together give the key: `repo/name` with an empty path when the key has
   * one `/`, `repo/path/name` when it has more.
   */
  lemma ParsedPartsRebuildKey(key: string)
    requires ParseArtifactPath(key).Some?
    ensures '/' !in ParseArtifactPath(key).value.repo && '/' !in ParseArtifactPath(key).value.name
    ensures multiset(key)['/'] == 1 ==>
      ParseArtifactPath(key).value.path == "" && key == ParseArtifactPath(key).value.repo + "/" + ParseArtifactPath(key).value.name
    ensures multiset(key)['/'] >= 2 ==>
      key == ParseArtifactPath(key).value.repo + "/" + ParseArtifactPath(key).value.path + "/" + ParseArtifactPath(key).value.name
  {
    var parts := Split(key, '/');
    SplitPiecesOmitSeparator(key, '/');
    SplitLength(key, '/');
    JoinSplit(key, '/');
    if |parts| == 2 {
      assert parts[1..] == [parts[1]];
    } else {
      JoinOfThreeOrMore(parts);
    }
  }

  lemma JoinOfThreeOrMore(parts: seq<string>)
    requires |parts| >= 3
    ensures Join(parts, '/') == parts[0] + "/" + Join(parts[1..|parts| - 1], '/') + "/" + parts[|parts| - 1]
  {
    TailThenInit(parts);
    JoinUnsnoc(parts[1..], '/');
    Regroup(parts[0], Join(parts[1..|parts| - 1], '/'), parts[|parts| - 1], '/');
  }

  lemma TailThenInit(parts: seq<string>)
    requires |parts| >= 3
    ensures parts[1..][..|parts| - 2] == parts[1..|parts| - 1]
  {
  }

  /** Putting a repository, a path and a name together and parsing gives them back. */
  lemma ParseOfBuiltKey(repo: string, path: string, name: string)
    requires '/' !in repo && '/' !in name
    ensures ParseArtifactPath(repo + "/" + path + "/" + name)
         == Some(ArtifactPath(repo, path, name, repo + "/" + path + "/" + name))
  {
    var key := repo + "/" + path + "/" + name;
    var pieces := Split(path, '/');
    SplitPiecesOmitSeparator(path, '/');
    JoinSplit(path, '/');
    JoinSnoc(pieces, name, '/');
    SplitJoin(pieces + [name], '/');
    assert Split(path + "/" + name, '/') == pieces + [name];
    assert key == repo + ['/'] + (path + "/" + name);
    SplitAfterPrefix(repo, path + "/" + name, '/');
    var parts := Split(key, '/');
    assert parts == [repo] + pieces + [name];
    assert parts[1..|parts| - 1] == pieces;
  }

  /** A two-segment key parses to an empty path. */
  lemma ParseOfTwoSegmentKey(repo: string, name: string)
    requires '/' !in repo && '/' !in name
    ensures ParseArtifactPath(repo + "/" + name) == Some(ArtifactPath(repo, "", name, repo + "/" + name))
  {
    SplitOfSeparatorFree(name, '/');
    assert repo + "/" + name == repo + ['/'] + name;
    SplitAfterPrefix(repo, name, '/');
  }

  /** `is_local_repo`. */
  predicate IsLocalRepo(repoName: string) {
    var i := RFind(repoName, '-');
    if i == -1 then false else Contains(repoName[i + 1..], "local")
  }

  /**
   * A repository is local exactly when its name is `prefix-suffix` with no
   * `-` in the suffix and `local` occurring in the suffix; in particular a
   * name without any `-` is never local.
   */
  lemma IsLocalRepoIff(repoName: string)
    ensures IsLocalRepo(repoName) <==>
      exists k :: 0 <= k < |repoName| && repoName[k] == '-'
        && (forall j :: k < j < |repoName| ==> repoName[j] != '-')
        && Contains(repoName[k + 1..], "local")
    ensures '-' !in repoName ==> !IsLocalRepo(repoName)
  {
  }

  /** `match_build_name_to_repo`: the first repository, in map order, whose build names hold the name. */
  function MatchBuildNameToRepo(buildName: string, repoBuildNames: seq<(string, set<string>)>): (r: Option<string>)
    ensures r.None? <==> forall i :: 0 <= i < |repoBuildNames| ==> buildName !in repoBuildNames[i].1
    ensures r.Some? ==> exists i :: (0 <= i < |repoBuildNames| && repoBuildNames[i].0 == r.value
      && buildName in repoBuildNames[i].1
      && forall j :: 0 <= j < i ==> buildName !in repoBuildNames[j].1)
    decreases |repoBuildNames|
  {
    if |repoBuildNames| == 0 then None
    else if buildName in repoBuildNames[0].1 then Some(repoBuildNames[0].0)
    else
      var r := MatchBuildNameToRepo(buildName, repoBuildNames[1..]);
      r
  }
}
