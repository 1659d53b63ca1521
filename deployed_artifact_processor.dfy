/**
 * Creation of deployed artifacts from vulnerability findings and their
 * attachment to repositories (deployed_artifact_processor.py).
 */
module DeployedArtifactProcessor {
  import opened Wrappers
  import opened Text
  import opened Assoc
  import opened Vulns
  import opened RepoModel
  import opened CiStatus

  /**
   * `create_deployed_artifact`: severities come from the finding's
   * dictionary with 0 for a missing key; everything else is passed through.
   */
  function CreateDeployedArtifact(artifactKey: string, repoName: RepoRef, vulnerabilities: seq<(string, int)>,
                                  updatedAt: Option<string>, buildName: Option<string>, jfrogPath: string,
                                  buildNumber: Option<string>, buildTimestamp: Option<string>,
                                  sha256: Option<string>): DeployedArtifact {
    DeployedArtifact(
      artifactKey, repoName,
      GetOr(vulnerabilities, "critical", 0),
      GetOr(vulnerabilities, "high", 0),
      GetOr(vulnerabilities, "medium", 0),
      GetOr(vulnerabilities, "low", 0),
      GetOr(vulnerabilities, "unknown", 0),
      "unknown", buildName, buildNumber, None, updatedAt, buildTimestamp, sha256, Some(jfrogPath))
  }

  /**
   * A severity absent from the finding counts 0 and a present one keeps its
   * value; an artifact created without a build timestamp is never a
   * candidate for "latest artifact of a build".
   */
  lemma CreatedArtifactProperties(artifactKey: string, repoName: RepoRef, vulnerabilities: seq<(string, int)>,
                                  updatedAt: Option<string>, buildName: Option<string>, jfrogPath: string,
                                  buildNumber: Option<string>, sha256: Option<string>, norm: Option<string>)
    ensures var a := CreateDeployedArtifact(artifactKey, repoName, vulnerabilities, updatedAt, buildName, jfrogPath, buildNumber, None, sha256);
      (!HasKey(vulnerabilities, "critical") ==> a.critical == 0)
      && (!HasKey(vulnerabilities, "high") ==> a.high == 0)
      && (HasKey(vulnerabilities, "critical") ==> Some(a.critical) == Get(vulnerabilities, "critical"))
      && (HasKey(vulnerabilities, "high") ==> Some(a.high) == Get(vulnerabilities, "high"))
      && a.artifactKey == artifactKey && a.repoName == repoName && a.buildName == buildName
      && a.jfrogPath == Some(jfrogPath) && a.updatedAt == updatedAt && a.artifactType == "unknown"
      && !IsCandidate(a, norm)
  {
  }

  // ---------------------------------------------------------------------
  // attaching artifacts to repositories

  /** The artifacts a repository already has, `[]` when it has no dependency data. */
  function PriorArtifacts(r: Repo): seq<DeployedArtifact>
    reads r, r.vulnerabilities, DepsOfRepo(r)
  {
    if DepsOfRepo(r) == null then [] else DepsOfRepo(r).artifacts
  }

  /** The fields of a repository that attaching artifacts leaves alone. */
  datatype RepoRest = RepoRest(productName: string, repoOwners: seq<Owner>, isProduction: bool,
                               ciStatus: CIStatus?, cdStatus: Option<CDStatus>, enforcementStatus: Option<EnforcementStatus>)

  function RestOf(r: Repo): RepoRest
    reads r
  {
    RepoRest(r.productName, r.repoOwners, r.isProduction, r.ciStatus, r.cdStatus, r.enforcementStatus)
  }

  /** Both levels of vulnerability data are present. */
  predicate HasDeps(r: Repo)
    reads r, r.vulnerabilities
  {
    r.vulnerabilities != null && r.vulnerabilities.dependenciesVulns != null
  }

  function DepsOfRepo(r: Repo): DependenciesVulnerabilities?
    reads r, r.vulnerabilities
  {
    if r.vulnerabilities == null then null else r.vulnerabilities.dependenciesVulns
  }

  function Repos(m: seq<(Repo, seq<DeployedArtifact>)>): set<Repo> {
    set j | 0 <= j < |m| :: m[j].0
  }

  function VulnsOf(m: seq<(Repo, seq<DeployedArtifact>)>): set<Vulnerabilities>
    reads Repos(m)
  {
    set j | 0 <= j < |m| && m[j].0.vulnerabilities != null :: m[j].0.vulnerabilities
  }

  function DepsOf(m: seq<(Repo, seq<DeployedArtifact>)>): set<DependenciesVulnerabilities>
    reads Repos(m), VulnsOf(m)
  {
    set j | 0 <= j < |m| && DepsOfRepo(m[j].0) != null :: DepsOfRepo(m[j].0)
  }

  /** Dictionary keys are distinct repositories. */
  predicate DistinctRepos(m: seq<(Repo, seq<DeployedArtifact>)>) {
    forall i, j :: 0 <= i < j < |m| ==> m[i].0 != m[j].0
  }

  /** No two repositories share a vulnerability object or a dependency object. */
  predicate Unshared(m: seq<(Repo, seq<DeployedArtifact>)>)
    reads Repos(m), VulnsOf(m)
  {
    forall i, j :: 0 <= i < |m| && 0 <= j < |m| && i != j ==>
      (m[i].0.vulnerabilities != null ==> m[i].0.vulnerabilities != m[j].0.vulnerabilities)
      && (DepsOfRepo(m[i].0) != null ==> DepsOfRepo(m[i].0) != DepsOfRepo(m[j].0))
  }

  /**
   * One repository's step: create missing vulnerability data, then add
   * every artifact in order.
   */
  method AddArtifactsToRepo(r: Repo, arts: seq<DeployedArtifact>)
    modifies r, r.vulnerabilities, DepsOfRepo(r)
    ensures HasDeps(r)
    ensures old(r.vulnerabilities) != null ==> r.vulnerabilities == old(r.vulnerabilities)
    ensures old(r.vulnerabilities) == null ==> fresh(r.vulnerabilities)
    ensures old(DepsOfRepo(r)) != null ==> DepsOfRepo(r) == old(DepsOfRepo(r))
    ensures old(DepsOfRepo(r)) == null ==> fresh(DepsOfRepo(r))
    ensures DepsOfRepo(r).artifacts == old(PriorArtifacts(r)) + arts
    ensures |arts| > 0 || old(DepsOfRepo(r)) == null ==> DepsOfRepo(r).CountersMatchArtifacts()
    ensures |arts| == 0 && old(DepsOfRepo(r)) != null ==> DepsOfRepo(r).Counters() == old(DepsOfRepo(r).Counters())
    ensures old(r.vulnerabilities) != null ==> r.vulnerabilities.codeIssues == old(r.vulnerabilities.codeIssues)
    ensures old(r.vulnerabilities) == null ==> r.vulnerabilities.codeIssues.issuesByType == [] && r.vulnerabilities.codeIssues.secretsCount == 0
    ensures RestOf(r) == old(RestOf(r))
  {
    if r.vulnerabilities == null {
      var v := new Vulnerabilities(null, null);
      r.vulnerabilities := v;
    }
    var v := r.vulnerabilities;
    if v.dependenciesVulns == null {
      var d := new DependenciesVulnerabilities(0, 0, 0, 0, 0, None);
      v.dependenciesVulns := d;
    }
    var d := v.dependenciesVulns;
    assert d.artifacts == old(PriorArtifacts(r));
    assert old(DepsOfRepo(r)) == null ==> d.CountersMatchArtifacts();
    AddAll(d, arts);
  }

  /** The loop that adds a repository's artifacts one after the other. */
  method AddAll(d: DependenciesVulnerabilities, arts: seq<DeployedArtifact>)
    modifies d
    ensures d.artifacts == old(d.artifacts) + arts
    ensures |arts| > 0 || old(d.CountersMatchArtifacts()) ==> d.CountersMatchArtifacts()
    ensures |arts| == 0 ==> d.Counters() == old(d.Counters())
  {
    for i := 0 to |arts|
      invariant d.artifacts == old(d.artifacts) + arts[..i]
      invariant i > 0 || old(d.CountersMatchArtifacts()) ==> d.CountersMatchArtifacts()
      invariant i == 0 ==> d.Counters() == old(d.Counters())
    {
      assert arts[..i + 1] == arts[..i] + [arts[i]];
      d.AddArtifact(arts[i]);
    }
    assert arts[..|arts|] == arts;
  }

  /** What a repository keeps through the update: its other fields, its code issues and its counters. */
  datatype Saved = Saved(rest: RepoRest, codeIssues: Option<CodeIssues>, counters: Option<Counts>)

  function SavedOf(r: Repo): Saved
    reads r, r.vulnerabilities, DepsOfRepo(r)
  {
    Saved(RestOf(r),
          if r.vulnerabilities == null then None else Some(r.vulnerabilities.codeIssues),
          if DepsOfRepo(r) == null then None else Some(DepsOfRepo(r).Counters()))
  }

  /** The vulnerability objects and artifact lists of every repository, before any change. */
  ghost method Snapshot(m: seq<(Repo, seq<DeployedArtifact>)>)
      returns (V: seq<Vulnerabilities?>, D: seq<DependenciesVulnerabilities?>, P: seq<seq<DeployedArtifact>>, S: seq<Saved>)
    requires Unshared(m)
    ensures |V| == |m| && |D| == |m| && |P| == |m| && |S| == |m|
    ensures forall j :: 0 <= j < |m| ==> V[j] == m[j].0.vulnerabilities && D[j] == DepsOfRepo(m[j].0) && P[j] == PriorArtifacts(m[j].0)
    ensures forall j :: 0 <= j < |m| ==> S[j] == SavedOf(m[j].0)
    ensures forall j :: 0 <= j < |m| && V[j] != null ==> V[j] in VulnsOf(m)
    ensures forall j :: 0 <= j < |m| && D[j] != null ==> D[j] in DepsOf(m)
    ensures forall i, j :: 0 <= i < |m| && 0 <= j < |m| && i != j && V[i] != null ==> V[i] != V[j]
    ensures forall i, j :: 0 <= i < |m| && 0 <= j < |m| && i != j && D[i] != null ==> D[i] != D[j]
  {
    V, D, P, S := [], [], [], [];
    for k := 0 to |m|
      invariant |V| == k && |D| == k && |P| == k && |S| == k
      invariant forall j :: 0 <= j < k ==> V[j] == m[j].0.vulnerabilities && D[j] == DepsOfRepo(m[j].0) && P[j] == PriorArtifacts(m[j].0)
      invariant forall j :: 0 <= j < k ==> S[j] == SavedOf(m[j].0)
    {
      V, D, P, S := V + [m[k].0.vulnerabilities], D + [DepsOfRepo(m[k].0)], P + [PriorArtifacts(m[k].0)], S + [SavedOf(m[k].0)];
    }
  }

  /** The code-issues object of a repository's vulnerability data, if any. */
  function CodeIssuesOf(r: Repo): set<object>
    reads r, r.vulnerabilities
  {
    if r.vulnerabilities == null then {} else {r.vulnerabilities.codeIssues}
  }

  /**
   * Repository `j` has been handled: its objects are its old ones or new
   * ones outside `F`, its counters are the sums over its artifacts (or kept
   * when nothing was added to existing data), its code issues are its old
   * ones or fresh empty ones, and its other fields are as they were.
   */
  predicate Done(m: seq<(Repo, seq<DeployedArtifact>)>, j: int, V: seq<Vulnerabilities?>,
                 D: seq<DependenciesVulnerabilities?>, P: seq<seq<DeployedArtifact>>, S: seq<Saved>, F: set<object>)
    requires 0 <= j < |m| && |V| == |m| && |D| == |m| && |P| == |m| && |S| == |m|
    reads m[j].0, m[j].0.vulnerabilities, DepsOfRepo(m[j].0), CodeIssuesOf(m[j].0)
  {
    HasDeps(m[j].0) && DepsOfRepo(m[j].0).artifacts == P[j] + m[j].1
    && RestOf(m[j].0) == S[j].rest
    && (|m[j].1| > 0 || D[j] == null ==> DepsOfRepo(m[j].0).CountersMatchArtifacts())
    && (|m[j].1| == 0 && S[j].counters.Some? ==> DepsOfRepo(m[j].0).Counters() == S[j].counters.value)
    && (S[j].codeIssues.Some? ==> m[j].0.vulnerabilities.codeIssues == S[j].codeIssues.value)
    && (S[j].codeIssues.None? ==> m[j].0.vulnerabilities.codeIssues.issuesByType == [] && m[j].0.vulnerabilities.codeIssues.secretsCount == 0)
    && (V[j] != null ==> m[j].0.vulnerabilities == V[j])
    && (V[j] == null ==> m[j].0.vulnerabilities !in F)
    && (D[j] != null ==> DepsOfRepo(m[j].0) == D[j])
    && (D[j] == null ==> DepsOfRepo(m[j].0) !in F)
  }

  /** Repository `j` is as it was. */
  predicate Pending(m: seq<(Repo, seq<DeployedArtifact>)>, j: int, V: seq<Vulnerabilities?>,
                    D: seq<DependenciesVulnerabilities?>, P: seq<seq<DeployedArtifact>>, S: seq<Saved>)
    requires 0 <= j < |m| && |V| == |m| && |D| == |m| && |P| == |m| && |S| == |m|
    reads m[j].0, m[j].0.vulnerabilities, DepsOfRepo(m[j].0)
  {
    m[j].0.vulnerabilities == V[j] && DepsOfRepo(m[j].0) == D[j] && PriorArtifacts(m[j].0) == P[j]
    && SavedOf(m[j].0) == S[j]
  }

  /** One iteration of the loop of `update_repository_vulnerabilities`. */
  method Step(m: seq<(Repo, seq<DeployedArtifact>)>, k: int, ghost V: seq<Vulnerabilities?>,
              ghost D: seq<DependenciesVulnerabilities?>, ghost P: seq<seq<DeployedArtifact>>, ghost S: seq<Saved>,
              ghost F: set<object>)
    requires 0 <= k < |m| && |V| == |m| && |D| == |m| && |P| == |m| && |S| == |m|
    requires DistinctRepos(m)
    requires forall i, j :: 0 <= i < |m| && 0 <= j < |m| && i != j && V[i] != null ==> V[i] != V[j]
    requires forall i, j :: 0 <= i < |m| && 0 <= j < |m| && i != j && D[i] != null ==> D[i] != D[j]
    requires forall j :: 0 <= j < |m| && V[j] != null ==> V[j] in F
    requires forall j :: 0 <= j < |m| && D[j] != null ==> D[j] in F
    requires forall j :: 0 <= j < k ==> Done(m, j, V, D, P, S, F)
    requires forall j :: k <= j < |m| ==> Pending(m, j, V, D, P, S)
    modifies m[k].0, V[k], D[k]
    ensures forall j :: 0 <= j <= k ==> Done(m, j, V, D, P, S, F)
    ensures forall j :: k < j < |m| ==> Pending(m, j, V, D, P, S)
  {
    var r := m[k].0;
    assert Pending(m, k, V, D, P, S);
    label L:
    AddArtifactsToRepo(r, m[k].1);
    forall j | k < j < |m|
      ensures Pending(m, j, V, D, P, S)
    {
      assert old@L(Pending(m, j, V, D, P, S));
      assert m[j].0 != r;
      assert V[j] != null ==> V[j] != V[k];
      assert D[j] != null ==> D[j] != D[k];
      assert m[j].0.vulnerabilities == V[j];
      assert DepsOfRepo(m[j].0) == D[j];
    }
    forall j | 0 <= j < k
      ensures Done(m, j, V, D, P, S, F)
    {
      assert old@L(Done(m, j, V, D, P, S, F));
      assert m[j].0 != r;
      ghost var x := m[j].0.vulnerabilities;
      ghost var y := DepsOfRepo(m[j].0);
      assert V[k] != null ==> x != V[k];
      assert D[k] != null ==> y != D[k];
      assert x == old@L(m[j].0.vulnerabilities);
      assert y == old@L(DepsOfRepo(m[j].0));
    }
  }

  /**
   * After the update, measured against what repository `r` had before: the
   * counters are the sums over the artifacts whenever artifacts were added
   * or the data is new, and are kept otherwise; existing code issues are
   * kept and missing ones are empty; the other fields are unchanged.
   */
  predicate Kept(r: Repo, arts: seq<DeployedArtifact>, before: Saved)
    reads r, r.vulnerabilities, DepsOfRepo(r), CodeIssuesOf(r)
  {
    HasDeps(r)
    && RestOf(r) == before.rest
    && (|arts| > 0 || before.counters.None? ==> DepsOfRepo(r).CountersMatchArtifacts())
    && (|arts| == 0 && before.counters.Some? ==> DepsOfRepo(r).Counters() == before.counters.value)
    && (before.codeIssues.Some? ==> r.vulnerabilities.codeIssues == before.codeIssues.value)
    && (before.codeIssues.None? ==> r.vulnerabilities.codeIssues.issuesByType == [] && r.vulnerabilities.codeIssues.secretsCount == 0)
  }

  /**
   * `update_repository_vulnerabilities`: every repository of the dictionary
   * ends up with dependency data whose artifact list is its old list
   * followed by the given artifacts; the count is the number of
   * repositories, since no step raises.
   */
  method UpdateRepositoryVulnerabilities(m: seq<(Repo, seq<DeployedArtifact>)>) returns (updatedCount: nat)
    requires DistinctRepos(m) && Unshared(m)
    modifies Repos(m), VulnsOf(m), DepsOf(m)
    ensures updatedCount == |m|
    ensures forall k :: 0 <= k < |m| ==> HasDeps(m[k].0)
    ensures forall k :: 0 <= k < |m| ==> DepsOfRepo(m[k].0) != null && DepsOfRepo(m[k].0).artifacts == old(PriorArtifacts(m[k].0)) + m[k].1
    ensures forall k :: 0 <= k < |m| ==> Kept(m[k].0, m[k].1, old(SavedOf(m[k].0)))
  {
    ghost var V, D, P, S := Snapshot(m);
    ghost var F: set<object> := VulnsOf(m) + DepsOf(m);
    updatedCount := 0;
    for k := 0 to |m|
      invariant updatedCount == k
      invariant forall j :: 0 <= j < k ==> Done(m, j, V, D, P, S, F)
      invariant forall j :: k <= j < |m| ==> Pending(m, j, V, D, P, S)
    {
      Step(m, k, V, D, P, S, F);
      updatedCount := updatedCount + 1;
    }
    forall j | 0 <= j < |m|
      ensures HasDeps(m[j].0) && DepsOfRepo(m[j].0) != null && DepsOfRepo(m[j].0).artifacts == old(PriorArtifacts(m[j].0)) + m[j].1
      ensures Kept(m[j].0, m[j].1, old(SavedOf(m[j].0)))
    {
      assert Done(m, j, V, D, P, S, F);
    }
  }
}
