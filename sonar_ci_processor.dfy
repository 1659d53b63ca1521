/**
 * SonarQube project detection (`SonarCiProcessor` in sonar_ci_processor.py).
 *
 * The Sonar project keys of an organisation share a prefix `text-`, taken
 * from the first key. A repository whose name is a project key with that
 * prefix removed is marked as having a Sonar integration, under the full
 * key. Loading the projects is a parameter of the model: None stands for a
 * load that failed with one of the errors the processor catches, and each
 * project is represented by its `project_key` (None when absent or null).
 */
module SonarCiProcessorModel {
  import opened Wrappers
  import opened Text
  import opened CiStatus
  import opened RepoModel

  /** `if project_key:`, for `project.get('project_key', '')`. */
  predicate KeyGiven(p: Option<string>) {
    p.Some? && p.value != ""
  }

  /** `project_keys`: the truthy keys, in order. */
  function ProjectKeys(projects: seq<Option<string>>): seq<string>
    decreases |projects|
  {
    if |projects| == 0 then []
    else
      var p := projects[|projects| - 1];
      ProjectKeys(projects[..|projects| - 1]) + (if KeyGiven(p) then [p.value] else [])
  }

  /** The loop that collects `project_keys`. */
  method CollectProjectKeys(projects: seq<Option<string>>) returns (keys: seq<string>)
    ensures keys == ProjectKeys(projects)
  {
    keys := [];
    for i := 0 to |projects|
      invariant keys == ProjectKeys(projects[..i])
    {
      assert projects[..i + 1][..i] == projects[..i];
      var p := projects[i];
      if p.Some? && p.value != "" {
        keys := keys + [p.value];
      }
    }
    assert projects[..|projects|] == projects;
  }

  /**
   * The keys are exactly the non-empty given keys; there are none exactly
   * when no project gives one; and the first key is the first project's
   * that gives one.
   */
  lemma {:induction false} ProjectKeysSpec(projects: seq<Option<string>>)
    ensures forall k :: k in ProjectKeys(projects) <==> k != "" && Some(k) in projects
    ensures ProjectKeys(projects) == [] <==> forall i :: 0 <= i < |projects| ==> !KeyGiven(projects[i])
    ensures ProjectKeys(projects) != [] ==>
      exists i :: 0 <= i < |projects| && projects[i] == Some(ProjectKeys(projects)[0])
        && forall j :: 0 <= j < i ==> !KeyGiven(projects[j])
    decreases |projects|
  {
    if |projects| > 0 {
      var n := |projects| - 1;
      var init := projects[..n];
      ProjectKeysSpec(init);
      assert projects == init + [projects[n]];
      assert forall j :: 0 <= j < n ==> init[j] == projects[j];
      if ProjectKeys(init) != [] {
        var i :| 0 <= i < n && init[i] == Some(ProjectKeys(init)[0]) && forall j :: 0 <= j < i ==> !KeyGiven(init[j]);
        assert projects[i] == Some(ProjectKeys(projects)[0]);
      } else if KeyGiven(projects[n]) {
        assert ProjectKeys(projects)[0] == projects[n].value;
      }
    }
  }

  /** The prefix `first.split('-')[0] + '-'`, or None when the first key has no `-`. */
  function DetectPrefix(first: string): (r: Option<string>)
    ensures r.None? <==> '-' !in first
    ensures r.Some? ==>
      |r.value| >= 1 && StartsWith(first, r.value) && r.value[|r.value| - 1] == '-' && '-' !in r.value[..|r.value| - 1]
  {
    if '-' in first then
      SplitFirstPiece(first, '-');
      var i := IndexOf(first, '-');
      assert first[..i + 1] == first[..i] + "-";
      assert (first[..i] + "-")[..i] == first[..i];
      Some(Split(first, '-')[0] + "-")
    else None
  }

  /** A key yields a name when it starts with the prefix and has more after it. */
  function NameOfKey(k: string, prefix: string): Option<string> {
    if StartsWith(k, prefix) && |k| > |prefix| then Some(k[|prefix|..]) else None
  }

  /** `repo_names_set`. */
  function SonarNames(keys: seq<string>, prefix: string): set<string>
    decreases |keys|
  {
    if |keys| == 0 then {}
    else
      var q := NameOfKey(keys[|keys| - 1], prefix);
      SonarNames(keys[..|keys| - 1], prefix) + (if q.Some? then {q.value} else {})
  }

  /** The loop that fills `repo_names_set`. */
  method CollectSonarNames(keys: seq<string>, prefix: string) returns (names: set<string>)
    ensures names == SonarNames(keys, prefix)
  {
    names := {};
    for i := 0 to |keys|
      invariant names == SonarNames(keys[..i], prefix)
    {
      assert keys[..i + 1][..i] == keys[..i];
      var k := keys[i];
      if |prefix| <= |k| && k[..|prefix|] == prefix {
        var name := k[|prefix|..];
        if name != "" {
          names := names + {name};
        }
      }
    }
    assert keys[..|keys|] == keys;
  }

  /** A name is in the set exactly when it is non-empty and the prefix followed by it is one of the keys. */
  lemma {:induction false} SonarNamesSpec(keys: seq<string>, prefix: string, n: string)
    ensures n in SonarNames(keys, prefix) <==> n != "" && prefix + n in keys
    decreases |keys|
  {
    if |keys| > 0 {
      var m := |keys| - 1;
      var k := keys[m];
      SonarNamesSpec(keys[..m], prefix, n);
      assert keys == keys[..m] + [k];
      if StartsWith(k, prefix) && |k| > |prefix| {
        assert k == prefix + k[|prefix|..];
      }
      if k == prefix + n {
        assert k[..|prefix|] == prefix && k[|prefix|..] == n;
      }
    }
  }

  // ---------------------------------------------------------------------
  // marking the repositories

  /** The Sonar status fields, as a value. */
  datatype SonarView = SonarView(isExist: bool, projectKey: Option<string>, isMainBranchScanned: bool)

  function SonarViewOf(s: SonarCIStatus): SonarView
    reads s
  {
    SonarView(s.isExist, s.projectKey, s.isMainBranchScanned)
  }

  /** The fields of a freshly made `SonarCIStatus()`. */
  const DefaultSonar: SonarView := SonarView(false, None, false)

  function SonarOf(r: Repo): SonarCIStatus?
    reads r
  {
    if r.ciStatus == null then null else r.ciStatus.sonarStatus
  }

  /** The Sonar fields a repository's update starts from: its own, or a default status's. */
  function SonarBefore(r: Repo): SonarView
    reads r, SonarOf(r)
  {
    if r.ciStatus == null then DefaultSonar else SonarViewOf(r.ciStatus.sonarStatus)
  }

  /** A repository with a name that is in `repo_names_set`. */
  predicate Marked(k: Option<string>, names: set<string>) {
    k.Some? && k.value in names
  }

  /** `set_exists(True, prefix + name)` on a marked repository; others keep their fields. */
  function SonarMarked(v: SonarView, k: Option<string>, names: set<string>, prefix: string): SonarView {
    if Marked(k, names) then SonarView(true, Some(prefix + k.value), v.isMainBranchScanned) else v
  }

  /** `updated_count`. */
  function CountMarked(ks: seq<Option<string>>, names: set<string>): nat
    decreases |ks|
  {
    if |ks| == 0 then 0
    else CountMarked(ks[..|ks| - 1], names) + (if Marked(ks[|ks| - 1], names) then 1 else 0)
  }

  /** The count is at most the number of repositories; it is zero exactly when none is marked and full exactly when all are. */
  lemma {:induction false} CountMarkedSpec(ks: seq<Option<string>>, names: set<string>)
    ensures CountMarked(ks, names) <= |ks|
    ensures CountMarked(ks, names) == 0 <==> forall i :: 0 <= i < |ks| ==> !Marked(ks[i], names)
    ensures CountMarked(ks, names) == |ks| <==> forall i :: 0 <= i < |ks| ==> Marked(ks[i], names)
    decreases |ks|
  {
    if |ks| > 0 {
      var n := |ks| - 1;
      CountMarkedSpec(ks[..n], names);
      assert forall i :: 0 <= i < n ==> ks[..n][i] == ks[i];
    }
  }

  /**
   * A marked repository ends configured, under the full project key it was
   * found by; with a detected prefix, that key is the repository's own name
   * carrying the prefix.
   */
  lemma MarkedIsConfigured(v: SonarView, k: Option<string>, keys: seq<string>, prefix: string)
    requires Marked(k, SonarNames(keys, prefix))
    ensures var w := SonarMarked(v, k, SonarNames(keys, prefix), prefix);
      w.isExist && w.projectKey == Some(prefix + k.value) && prefix + k.value in keys
      && w.isMainBranchScanned == v.isMainBranchScanned
  {
    SonarNamesSpec(keys, prefix, k.value);
  }

  /** No two repositories share a Sonar status object. */
  predicate UnsharedSonar(repos: seq<Repo>)
    reads repos
  {
    forall i, j :: 0 <= i < |repos| && 0 <= j < |repos| && i != j && repos[i].ciStatus != null && repos[j].ciStatus != null
      ==> repos[i].ciStatus.sonarStatus != repos[j].ciStatus.sonarStatus
  }

  function SonarsOf(repos: seq<Repo>): set<SonarCIStatus>
    reads repos
  {
    set j | 0 <= j < |repos| && repos[j].ciStatus != null :: repos[j].ciStatus.sonarStatus
  }

  /** The CI status objects and Sonar fields of the repositories before the loop. */
  ghost method Snapshot(repos: seq<Repo>) returns (C: seq<CIStatus?>, W: seq<SonarView>)
    requires UnsharedSonar(repos)
    ensures |C| == |repos| && |W| == |repos|
    ensures forall j :: 0 <= j < |repos| ==> C[j] == repos[j].ciStatus && W[j] == SonarBefore(repos[j])
    ensures forall j :: 0 <= j < |repos| && C[j] != null ==> C[j].sonarStatus in SonarsOf(repos)
    ensures forall i, j :: 0 <= i < |repos| && 0 <= j < |repos| && i != j && C[i] != null && C[j] != null ==>
                          C[i].sonarStatus != C[j].sonarStatus
  {
    C, W := [], [];
    for k := 0 to |repos|
      invariant |C| == k && |W| == k
      invariant forall j :: 0 <= j < k ==> C[j] == repos[j].ciStatus && W[j] == SonarBefore(repos[j])
    {
      C, W := C + [repos[k].ciStatus], W + [SonarBefore(repos[k])];
    }
  }

  /** Repository `j` has been handled: it has a CI status, old or new, with its Sonar fields marked. */
  ghost predicate Done(repos: seq<Repo>, j: int, K: seq<Option<string>>, C: seq<CIStatus?>, W: seq<SonarView>,
                       F: set<SonarCIStatus>, names: set<string>, prefix: string)
    requires 0 <= j < |repos| && |K| == |repos| && |C| == |repos| && |W| == |repos|
    reads repos[j], SonarOf(repos[j])
  {
    repos[j].ciStatus != null
    && (C[j] != null ==> repos[j].ciStatus == C[j])
    && (C[j] == null ==> repos[j].ciStatus.sonarStatus !in F)
    && SonarViewOf(repos[j].ciStatus.sonarStatus) == SonarMarked(W[j], K[j], names, prefix)
    && RepoName(repos[j]) == K[j]
  }

  /** Repository `j` is as it was. */
  ghost predicate Pending(repos: seq<Repo>, j: int, K: seq<Option<string>>, C: seq<CIStatus?>, W: seq<SonarView>)
    requires 0 <= j < |repos| && |K| == |repos| && |C| == |repos| && |W| == |repos|
    reads repos[j], SonarOf(repos[j])
  {
    repos[j].ciStatus == C[j] && SonarBefore(repos[j]) == W[j] && RepoName(repos[j]) == K[j]
  }

  /** `process_ci_data`'s answer. */
  datatype SonarResult = SonarResult(updatedCount: nat, totalRepos: nat)

  /** `SonarCiProcessor`. */
  class SonarCiProcessor {
    const productName: string
    const organizationId: string

    constructor(productName: string, organizationId: string)
      ensures this.productName == productName && this.organizationId == organizationId
    {
      this.productName := productName;
      this.organizationId := organizationId;
    }

    /** One repository of the update loop: give it a CI status, then mark it when its name is listed. */
    method MarkRepo(r: Repo, prefix: string, names: set<string>) returns (marked: bool)
      modifies r`ciStatus, SonarOf(r)
      ensures r.ciStatus != null
      ensures old(r.ciStatus) != null ==> r.ciStatus == old(r.ciStatus)
      ensures old(r.ciStatus) == null ==> fresh(r.ciStatus) && fresh(r.ciStatus.sonarStatus)
      ensures SonarViewOf(r.ciStatus.sonarStatus) == SonarMarked(old(SonarBefore(r)), RepoName(r), names, prefix)
      ensures marked == Marked(RepoName(r), names)
      ensures NonCiOf(r) == old(NonCiOf(r))
    {
      if r.ciStatus == null {
        var c := new CIStatus(null, null);
        r.UpdateCiStatus(c);
      }
      marked := false;
      if r.scmInfo.Some? && r.scmInfo.value.repoName != "" {
        var name := r.scmInfo.value.repoName;
        if name in names {
          r.ciStatus.sonarStatus.SetExists(true, Some(prefix + name));
          marked := true;
        }
      }
    }

    /** One iteration of the update loop, with the other repositories left as they are. */
    method Step(repos: seq<Repo>, k: int, prefix: string, names: set<string>, ghost K: seq<Option<string>>,
                ghost C: seq<CIStatus?>, ghost W: seq<SonarView>, ghost F: set<SonarCIStatus>)
        returns (marked: bool)
      requires 0 <= k < |repos| && |K| == |repos| && |C| == |repos| && |W| == |repos|
      requires DistinctRepos(repos)
      requires forall i, j :: 0 <= i < |repos| && 0 <= j < |repos| && i != j && C[i] != null && C[j] != null ==>
                           C[i].sonarStatus != C[j].sonarStatus
      requires forall j :: 0 <= j < |repos| && C[j] != null ==> C[j].sonarStatus in F
      requires forall j :: 0 <= j < k ==> Done(repos, j, K, C, W, F, names, prefix)
      requires forall j :: k <= j < |repos| ==> Pending(repos, j, K, C, W)
      modifies {repos[k]}`ciStatus, SonarOf(repos[k])
      ensures forall j :: 0 <= j <= k ==> Done(repos, j, K, C, W, F, names, prefix)
      ensures forall j :: k < j < |repos| ==> Pending(repos, j, K, C, W)
      ensures marked == Marked(K[k], names)
    {
      var r := repos[k];
      assert Pending(repos, k, K, C, W);
      label L:
      marked := MarkRepo(r, prefix, names);
      forall j | k < j < |repos|
        ensures Pending(repos, j, K, C, W)
      {
        assert old@L(Pending(repos, j, K, C, W));
        assert repos[j] != r;
        assert C[j] != null && C[k] != null ==> C[j].sonarStatus != C[k].sonarStatus;
        assert repos[j].ciStatus == C[j];
      }
      forall j | 0 <= j < k
        ensures Done(repos, j, K, C, W, F, names, prefix)
      {
        assert old@L(Done(repos, j, K, C, W, F, names, prefix));
        assert repos[j] != r;
        ghost var x := repos[j].ciStatus.sonarStatus;
        assert C[j] != null && C[k] != null ==> x != C[k].sonarStatus;
        assert C[j] == null && C[k] != null ==> x != C[k].sonarStatus;
        assert x == old@L(repos[j].ciStatus.sonarStatus);
      }
      assert Done(repos, k, K, C, W, F, names, prefix);
    }

    /**
     * The update loop: every repository ends with a CI status (its own
     * when it had one), its Sonar fields are marked when its name is
     * listed and kept otherwise, and the count is the number marked.
     */
    method MarkRepos(repos: seq<Repo>, prefix: string, names: set<string>) returns (updatedCount: nat)
      requires DistinctRepos(repos) && UnsharedSonar(repos)
      modifies RepoSet(repos)`ciStatus, SonarsOf(repos)
      ensures updatedCount == CountMarked(RepoNames(repos), names)
      ensures forall j :: 0 <= j < |repos| ==> (repos[j].ciStatus != null
        && (old(repos[j].ciStatus) != null ==> repos[j].ciStatus == old(repos[j].ciStatus))
        && SonarViewOf(repos[j].ciStatus.sonarStatus) == SonarMarked(old(SonarBefore(repos[j])), RepoName(repos[j]), names, prefix))
      ensures forall j :: 0 <= j < |repos| ==> NonCiKept(repos[j])
    {
      ghost var K := RepoNames(repos);
      ghost var C, W := Snapshot(repos);
      ghost var F := SonarsOf(repos);
      updatedCount := 0;
      for k := 0 to |repos|
        invariant updatedCount == CountMarked(K[..k], names)
        invariant forall j :: 0 <= j < k ==> Done(repos, j, K, C, W, F, names, prefix)
        invariant forall j :: k <= j < |repos| ==> Pending(repos, j, K, C, W)
      {
        assert K[..k + 1][..k] == K[..k];
        assert Pending(repos, k, K, C, W);
        assert repos[k] in RepoSet(repos);
        assert C[k] != null ==> SonarOf(repos[k]) in F;
        var marked := Step(repos, k, prefix, names, K, C, W, F);
        if marked {
          updatedCount := updatedCount + 1;
        }
      }
      assert K[..|repos|] == K;
      forall j | 0 <= j < |repos|
        ensures NonCiKept(repos[j])
      {
        ghost var r := repos[j];
        assert r.repoOwners == old(r.repoOwners) && r.vulnerabilities == old(r.vulnerabilities);
      }
      forall j | 0 <= j < |repos|
        ensures repos[j].ciStatus != null
        && (old(repos[j].ciStatus) != null ==> repos[j].ciStatus == old(repos[j].ciStatus))
        && SonarViewOf(repos[j].ciStatus.sonarStatus) == SonarMarked(old(SonarBefore(repos[j])), RepoName(repos[j]), names, prefix)
      {
        assert Done(repos, j, K, C, W, F, names, prefix);
      }
    }

    /**
     * `process_ci_data`: a failed load, no projects, no project key or a
     * first key without `-` change nothing and count no update; otherwise
     * the repositories are marked under the detected prefix.
     */
    method ProcessCiData(sonarData: Option<seq<Option<string>>>, repos: seq<Repo>) returns (res: SonarResult)
      requires DistinctRepos(repos) && UnsharedSonar(repos)
      modifies RepoSet(repos)`ciStatus, SonarsOf(repos)
      ensures res.totalRepos == |repos|
      ensures var keys := if sonarData.Some? then ProjectKeys(sonarData.value) else [];
        if keys == [] || DetectPrefix(keys[0]).None? then
          res.updatedCount == 0 && unchanged(RepoSet(repos)) && unchanged(SonarsOf(repos))
        else
          var prefix := DetectPrefix(keys[0]).value;
          var names := SonarNames(keys, prefix);
          res.updatedCount == CountMarked(RepoNames(repos), names)
          && forall j :: 0 <= j < |repos| ==> (repos[j].ciStatus != null
               && (old(repos[j].ciStatus) != null ==> repos[j].ciStatus == old(repos[j].ciStatus))
               && SonarViewOf(repos[j].ciStatus.sonarStatus)
                  == SonarMarked(old(SonarBefore(repos[j])), RepoName(repos[j]), names, prefix))
      ensures forall j :: 0 <= j < |repos| ==> NonCiKept(repos[j])
    {
      if sonarData.None? || sonarData.value == [] {
        return SonarResult(0, |repos|);
      }
      var keys := CollectProjectKeys(sonarData.value);
      if keys == [] {
        return SonarResult(0, |repos|);
      }
      var first := keys[0];
      if '-' !in first {
        return SonarResult(0, |repos|);
      }
      var prefix := Split(first, '-')[0] + "-";
      var names := CollectSonarNames(keys, prefix);
      var updatedCount := MarkRepos(repos, prefix, names);
      res := SonarResult(updatedCount, |repos|);
    }
  }

  /**
   * A key `text-rest` whose text has no `-` yields the prefix `text-`:
   * "cyberint-alert-service" yields "cyberint-".
   */
  lemma PrefixOfKey(head: string, rest: string)
    requires '-' !in head
    ensures DetectPrefix(head + "-" + rest) == Some(head + "-")
  {
    var s := head + "-" + rest;
    assert s[|head|] == '-';
    var p := DetectPrefix(s).value;
    assert p == s[..|p|];
    assert forall j :: 0 <= j < |head| ==> s[j] == head[j];
    assert s[|p| - 1] == '-';
    assert forall j :: 0 <= j < |p| - 1 ==> s[j] == p[..|p| - 1][j] != '-';
    assert |p| == |head| + 1;
    assert s[..|head| + 1] == head + "-";
  }
}
