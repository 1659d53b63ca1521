/**
 * Correlation of artifacts that are missing from the per-repository AQL
 * caches (`ArtifactCoordinator.fetch_missing_artifacts_from_aql` in
 * artifact_coordinator.py).
 *
 * For each JFrog repository with missing artifact keys, the coordinator
 * first chooses the AQL data to use: a full query when the repository has
 * no cache file, otherwise a targeted query for the missing keys merged
 * into the loaded cache (or a full query when the cache cannot be used).
 * Then every missing key is traced to the build that produced it, from the
 * build to a repository of the product, and to the vulnerability finding
 * whose key contains it; each success appends one deployed artifact to that
 * repository's list. The cache directory is a map from repository name to
 * the loaded file (None when it cannot be loaded); HTTP is the `post`
 * parameter of the JFrog client.
 */
module ArtifactCoordinatorModel {
  import opened Wrappers
  import opened Text
  import opened Assoc
  import opened AqlCache
  import opened JfrogClient
  import opened ArtifactParser
  import opened Vulns
  import opened RepoModel
  import opened DeployedArtifactProcessor

  /**
   * The cache directory: for each JFrog repository that has a cache file,
   * its content as loaded, or None when loading fails.
   */
  type CacheDir = map<string, Option<AqlData>>

  /** One entry of `jfrog_vulnerabilities`: the severity counts and `updated_at`. */
  datatype Finding = Finding(vulnerabilities: seq<(string, int)>, updatedAt: Option<string>)

  // ---------------------------------------------------------------------
  // (path, name) pairs of the missing keys

  /** The `(path, name)` pair of a missing key; None when it has fewer than two segments. */
  function PairOf(p: string): (r: Option<(string, string)>)
    ensures r.None? <==> '/' !in p
  {
    ParseFailsIffNoSlash(p);
    var a := ParseArtifactPath(p);
    if a.None? then None else Some((a.value.path, a.value.name))
  }

  /** The pairs of the keys that have one, in order. */
  function ArtifactPairs(paths: seq<string>): seq<(string, string)>
    decreases |paths|
  {
    if |paths| == 0 then []
    else
      var q := PairOf(paths[|paths| - 1]);
      ArtifactPairs(paths[..|paths| - 1]) + (if q.Some? then [q.value] else [])
  }

  /** The loop that builds `artifact_paths`. */
  method CollectArtifactPairs(paths: seq<string>) returns (pairs: seq<(string, string)>)
    ensures pairs == ArtifactPairs(paths)
  {
    pairs := [];
    for i := 0 to |paths|
      invariant pairs == ArtifactPairs(paths[..i])
    {
      assert paths[..i + 1][..i] == paths[..i];
      var parts := Split(paths[i], '/');
      if |parts| >= 2 {
        var name := parts[|parts| - 1];
        var path := if |parts| > 2 then Join(parts[1..|parts| - 1], '/') else "";
        pairs := pairs + [(path, name)];
      }
    }
    assert paths[..|paths|] == paths;
  }

  /**
   * Every pair comes from a missing key with a `/`, in order, and there
   * are none exactly when no key has a `/`.
   */
  lemma {:induction false} ArtifactPairsSpec(paths: seq<string>)
    ensures |ArtifactPairs(paths)| <= |paths|
    ensures ArtifactPairs(paths) == [] <==> forall i :: 0 <= i < |paths| ==> '/' !in paths[i]
    ensures forall q :: q in ArtifactPairs(paths) ==> exists i :: 0 <= i < |paths| && PairOf(paths[i]) == Some(q)
    decreases |paths|
  {
    if |paths| > 0 {
      var n := |paths| - 1;
      var init := paths[..n];
      ArtifactPairsSpec(init);
      assert forall i :: 0 <= i < n ==> init[i] == paths[i];
      var q := PairOf(paths[n]);
      forall x | x in ArtifactPairs(paths) ensures exists i :: 0 <= i < |paths| && PairOf(paths[i]) == Some(x) {
        if x in ArtifactPairs(init) {
          var i :| 0 <= i < n && PairOf(init[i]) == Some(x);
          assert PairOf(paths[i]) == Some(x);
        } else {
          assert PairOf(paths[n]) == Some(x);
        }
      }
      if ArtifactPairs(paths) == [] {
        assert q.None?;
        assert ArtifactPairs(init) == [];
      }
    }
  }

  // ---------------------------------------------------------------------
  // choosing the AQL data of one repository

  /** What the first phase decides for a repository: the data to use (None: skip it) and what is saved. */
  datatype Plan = Plan(data: Option<AqlData>, saved: Option<AqlData>)

  /** `not existing_cache`: the file does not load, or loads as `{}`. */
  predicate Unusable(c: Option<AqlData>) {
    c.None? || c.value == EmptyData
  }

  /** The merged cache with `added_count` removed. */
  function MergedForm(existing: AqlData, specific: AqlData): AqlData {
    var rs := MergeResults(ResultsOf(existing), ResultsOf(specific));
    SavedForm(rs, AqlRange(0, |rs|, |rs|))
  }

  /** The first phase of one repository, as a value. */
  function PlanFor(repoName: string, paths: seq<string>, cache: CacheDir, post: string -> HttpOutcome): Plan {
    if repoName !in cache then
      var full := QueryAqlArtifacts(repoName, post);
      if HasResults(full) then Plan(Some(full), Some(full)) else Plan(None, None)
    else
      var pairs := ArtifactPairs(paths);
      if pairs == [] then Plan(None, None)
      else
        var specific := ReplyData(post(SpecificQuery(repoName, pairs)));
        if !HasResults(specific) then Plan(None, None)
        else if Unusable(cache[repoName]) then
          var full := QueryAqlArtifacts(repoName, post);
          if HasResults(full) then Plan(Some(full), None) else Plan(None, None)
        else
          var merged := MergedForm(cache[repoName].value, specific);
          Plan(Some(merged), Some(merged))
  }

  /** The cache directory after a plan: the saved data replaces the repository's file. */
  function SaveInto(cache: CacheDir, repoName: string, plan: Plan): CacheDir {
    if plan.saved.Some? then cache[repoName := plan.saved] else cache
  }

  /**
   * Without a cache file, the full response is used and saved when it has
   * results, and the repository is skipped otherwise. With a cache file,
   * no valid pair or an empty targeted response skips the repository; a
   * cache that cannot be used gives way to a full response that is not
   * saved; a usable cache is merged, keeping its results first and adding
   * the targeted results it lacks, and the merge is both saved and used.
   * Whatever data is used has at least one result.
   */
  lemma PlanSpec(repoName: string, paths: seq<string>, cache: CacheDir, post: string -> HttpOutcome)
    ensures var plan := PlanFor(repoName, paths, cache, post);
      (plan.saved.Some? ==> plan.saved == plan.data)
      && (plan.data.Some? ==> HasResults(plan.data.value))
      && (repoName !in cache ==>
            plan.data == (if HasResults(QueryAqlArtifacts(repoName, post)) then Some(QueryAqlArtifacts(repoName, post)) else None)
            && plan.saved == plan.data)
      && (repoName in cache && (forall i :: 0 <= i < |paths| ==> '/' !in paths[i]) ==> plan == Plan(None, None))
      && (repoName in cache && Unusable(cache[repoName]) ==> plan.saved.None?)
      && (repoName in cache && !Unusable(cache[repoName]) && plan.data.Some? ==>
            var rs := ResultsOf(plan.data.value);
            var old_ := ResultsOf(cache[repoName].value);
            |old_| <= |rs| && rs[..|old_|] == old_
            && KeySet(rs) == KeySet(old_)
               + KeySet(ResultsOf(ReplyData(post(SpecificQuery(repoName, ArtifactPairs(paths)))))))
  {
    ArtifactPairsSpec(paths);
    if repoName in cache && !Unusable(cache[repoName]) {
      var pairs := ArtifactPairs(paths);
      if pairs != [] {
        var specific := ReplyData(post(SpecificQuery(repoName, pairs)));
        var old_ := ResultsOf(cache[repoName].value);
        MergeKeepsExisting(old_, ResultsOf(specific));
        if HasResults(specific) {
          var rs := MergeResults(old_, ResultsOf(specific));
          var r0 := ResultsOf(specific)[0];
          KeySetMembers(ResultsOf(specific), KeyOf(r0));
          KeySetMembers(rs, KeyOf(r0));
        }
      }
    }
  }

  /**
   * The first phase of one repository: the data to use, and the cache
   * directory with whatever it saved.
   */
  method ChooseData(repoName: string, paths: seq<string>, cache: CacheDir, post: string -> HttpOutcome)
      returns (data: Option<AqlData>, cache': CacheDir)
    ensures data == PlanFor(repoName, paths, cache, post).data
    ensures cache' == SaveInto(cache, repoName, PlanFor(repoName, paths, cache, post))
  {
    cache' := cache;
    if repoName !in cache {
      var full := QueryAqlArtifacts(repoName, post);
      if !HasResults(full) {
        return None, cache';
      }
      cache' := cache'[repoName := Some(full)];
      return Some(full), cache';
    }
    var pairs := CollectArtifactPairs(paths);
    if pairs == [] {
      return None, cache';
    }
    var specific, _ := QueryAqlSpecificArtifacts(repoName, pairs, post);
    if !HasResults(specific) {
      return None, cache';
    }
    var existing := cache[repoName];
    if Unusable(existing) {
      var full := QueryAqlArtifacts(repoName, post);
      if !HasResults(full) {
        return None, cache';
      }
      return Some(full), cache';
    }
    var list: RecordList? := null;
    if existing.value.results.Some? {
      list := new RecordList(existing.value.results.value);
    }
    var merged := MergeAqlCaches(list, specific);
    var saved := SavedForm(merged.results.items, merged.range);
    cache' := cache'[repoName := Some(saved)];
    data := Some(saved);
  }

  // ---------------------------------------------------------------------
  // tracing one missing key

  /** What the correlator updates: the unmapped build names and the artifacts collected per repository. */
  datatype Correlation = Correlation(unmapped: set<Option<string>>, byRepo: seq<(Repo, seq<DeployedArtifact>)>)

  /** The first finding, in order, whose key contains the artifact key; `|findings|` when there is none. */
  function FirstKeyContaining(findings: seq<(string, Finding)>, p: string): (i: nat)
    ensures i <= |findings|
    ensures i < |findings| ==> Contains(findings[i].0, p)
    ensures forall j :: 0 <= j < i ==> !Contains(findings[j].0, p)
    decreases |findings|
  {
    if |findings| == 0 then 0
    else if Contains(findings[0].0, p) then 0
    else 1 + FirstKeyContaining(findings[1..], p)
  }

  /** The loop that looks for `original_artifact_key`. */
  method FindFindingKey(findings: seq<(string, Finding)>, p: string) returns (i: nat)
    ensures i == FirstKeyContaining(findings, p)
  {
    i := 0;
    while i < |findings|
      invariant i <= |findings|
      invariant i + FirstKeyContaining(findings[i..], p) == FirstKeyContaining(findings, p)
    {
      if Contains(findings[i].0, p) {
        return;
      }
      assert findings[i..][1..] == findings[i + 1..];
      i := i + 1;
    }
  }

  /**
   * The artifact created for a traced key: the finding's key and counts,
   * the repository object in place of the repository name, the build name
   * and the key as JFrog path, and no build number, timestamp or sha256.
   */
  function NewArtifact(f: (string, Finding), r: Repo, buildName: Option<string>, p: string): DeployedArtifact {
    CreateDeployedArtifact(f.0, RepoObject(r), f.1.vulnerabilities, f.1.updatedAt, buildName, p, None, None, None)
  }

  /** One missing key in the loop over `missing_paths`. */
  function ArtifactStep(c: Correlation, p: string, data: AqlData, buildMap: map<string, Repo>,
                        findings: seq<(string, Finding)>): Correlation {
    var q := PairOf(p);
    if q.None? then c
    else
      var info := ExtractBuildInfo(data, q.value.0, q.value.1);
      if info.None? then c
      else
        var bn := info.value.buildName;
        if bn in c.unmapped then c
        else if bn.None? || bn.value !in buildMap then c.(unmapped := c.unmapped + {bn})
        else
          var i := FirstKeyContaining(findings, p);
          if i == |findings| then c
          else
            var r := buildMap[bn.value];
            c.(byRepo := AppendAt(c.byRepo, r, NewArtifact(findings[i], r, bn, p)))
  }

  /** The loop over `missing_paths`, in order. */
  function ArtifactsFold(c: Correlation, paths: seq<string>, data: AqlData, buildMap: map<string, Repo>,
                         findings: seq<(string, Finding)>): Correlation
    decreases |paths|
  {
    if |paths| == 0 then c
    else ArtifactStep(ArtifactsFold(c, paths[..|paths| - 1], data, buildMap, findings), paths[|paths| - 1], data, buildMap, findings)
  }

  /**
   * One missing key: a key without `/`, without a matching AQL record or
   * whose build is already unmapped changes nothing; a build with no
   * repository is recorded as unmapped; otherwise, when a finding's key
   * contains the artifact key, exactly one artifact is appended under the
   * build's repository, and nothing else changes.
   */
  lemma ArtifactStepSpec(c: Correlation, p: string, data: AqlData, buildMap: map<string, Repo>,
                         findings: seq<(string, Finding)>)
    ensures var c2 := ArtifactStep(c, p, data, buildMap, findings);
      c.unmapped <= c2.unmapped
      && (c2.unmapped == c.unmapped || exists bn :: c2.unmapped == c.unmapped + {bn} && (bn.None? || bn.value !in buildMap))
      && (c2.byRepo == c.byRepo || exists r: Repo, a: DeployedArtifact :: (c2.byRepo == AppendAt(c.byRepo, r, a)
            && a.repoName == RepoObject(r) && a.buildName.Some? && a.buildName.value in buildMap
            && buildMap[a.buildName.value] == r && a.jfrogPath == Some(p) && a.buildTimestamp.None?
            && exists i :: 0 <= i < |findings| && a.artifactKey == findings[i].0 && Contains(findings[i].0, p)))
      && (c2.unmapped != c.unmapped ==> c2.byRepo == c.byRepo)
      && ('/' !in p ==> c2 == c)
  {
    ArtifactStepUnmapped(c, p, data, buildMap, findings);
    ArtifactStepAppends(c, p, data, buildMap, findings);
  }

  /** The unmapped set gains at most one build name, and only one the map lacks; then no list changes. */
  lemma ArtifactStepUnmapped(c: Correlation, p: string, data: AqlData, buildMap: map<string, Repo>,
                             findings: seq<(string, Finding)>)
    ensures var c2 := ArtifactStep(c, p, data, buildMap, findings);
      c.unmapped <= c2.unmapped
      && (c2.unmapped == c.unmapped || exists bn :: c2.unmapped == c.unmapped + {bn} && (bn.None? || bn.value !in buildMap))
      && (c2.unmapped != c.unmapped ==> c2.byRepo == c.byRepo)
      && ('/' !in p ==> c2 == c)
  {
  }

  /** At most one artifact is appended, under the build's repository and keyed by a finding that contains the path. */
  lemma ArtifactStepAppends(c: Correlation, p: string, data: AqlData, buildMap: map<string, Repo>,
                            findings: seq<(string, Finding)>)
    ensures var c2 := ArtifactStep(c, p, data, buildMap, findings);
      c2.byRepo == c.byRepo || exists r: Repo, a: DeployedArtifact :: (c2.byRepo == AppendAt(c.byRepo, r, a)
        && a.repoName == RepoObject(r) && a.buildName.Some? && a.buildName.value in buildMap
        && buildMap[a.buildName.value] == r && a.jfrogPath == Some(p) && a.buildTimestamp.None?
        && exists i :: 0 <= i < |findings| && a.artifactKey == findings[i].0 && Contains(findings[i].0, p))
  {
    var q := PairOf(p);
    if q.Some? {
      var info := ExtractBuildInfo(data, q.value.0, q.value.1);
      if info.Some? {
        var bn := info.value.buildName;
        if bn !in c.unmapped && bn.Some? && bn.value in buildMap {
          var i := FirstKeyContaining(findings, p);
          if i < |findings| {
            var r := buildMap[bn.value];
            var a := NewArtifact(findings[i], r, bn, p);
            assert a.artifactKey == findings[i].0;
          }
        }
      }
    }
  }

  /** Over the whole loop the unmapped set only grows and every repository's list only grows at its end. */
  lemma {:induction false} ArtifactsFoldGrows(c: Correlation, paths: seq<string>, data: AqlData,
                                              buildMap: map<string, Repo>, findings: seq<(string, Finding)>)
    ensures c.unmapped <= ArtifactsFold(c, paths, data, buildMap, findings).unmapped
    ensures ExtendsLists(c.byRepo, ArtifactsFold(c, paths, data, buildMap, findings).byRepo)
    decreases |paths|
  {
    if |paths| == 0 {
      ExtendsListsRefl(c.byRepo);
    } else {
      var mid := ArtifactsFold(c, paths[..|paths| - 1], data, buildMap, findings);
      ArtifactsFoldGrows(c, paths[..|paths| - 1], data, buildMap, findings);
      StepGrows(mid, paths[|paths| - 1], data, buildMap, findings);
      ExtendsListsTransitive(c.byRepo, mid.byRepo, ArtifactsFold(c, paths, data, buildMap, findings).byRepo);
    }
  }

  lemma StepGrows(c: Correlation, p: string, data: AqlData, buildMap: map<string, Repo>, findings: seq<(string, Finding)>)
    ensures c.unmapped <= ArtifactStep(c, p, data, buildMap, findings).unmapped
    ensures ExtendsLists(c.byRepo, ArtifactStep(c, p, data, buildMap, findings).byRepo)
  {
    var q := PairOf(p);
    ExtendsListsRefl(c.byRepo);
    if q.Some? {
      var info := ExtractBuildInfo(data, q.value.0, q.value.1);
      if info.Some? {
        var bn := info.value.buildName;
        if bn !in c.unmapped && bn.Some? && bn.value in buildMap {
          var i := FirstKeyContaining(findings, p);
          if i < |findings| {
            var r := buildMap[bn.value];
            AppendAtExtends(c.byRepo, r, NewArtifact(findings[i], r, bn, p));
          }
        }
      }
    }
  }

  /** One pass of the loop over `missing_paths`. */
  method ProcessArtifact(c: Correlation, p: string, data: AqlData, buildMap: map<string, Repo>,
                         findings: seq<(string, Finding)>) returns (c': Correlation)
    ensures c' == ArtifactStep(c, p, data, buildMap, findings)
  {
    c' := c;
    var parts := Split(p, '/');
    if |parts| < 2 {
      SplitHasTwoPiecesIff(p, '/');
      ParseFailsIffNoSlash(p);
      return;
    }
    var name := parts[|parts| - 1];
    var path := if |parts| > 2 then Join(parts[1..|parts| - 1], '/') else "";
    var info := ExtractBuildInfo(data, path, name);
    if info.None? {
      return;
    }
    var bn := info.value.buildName;
    if bn in c.unmapped {
      return;
    }
    if bn.None? || bn.value !in buildMap {
      c' := c.(unmapped := c.unmapped + {bn});
      return;
    }
    var repo := buildMap[bn.value];
    var i := FindFindingKey(findings, p);
    if i == |findings| {
      return;
    }
    c' := c.(byRepo := AppendAt(c.byRepo, repo, NewArtifact(findings[i], repo, bn, p)));
  }

  /** The loop over `missing_paths` for one repository's data. */
  method ProcessArtifacts(c: Correlation, paths: seq<string>, data: AqlData, buildMap: map<string, Repo>,
                          findings: seq<(string, Finding)>) returns (c': Correlation)
    ensures c' == ArtifactsFold(c, paths, data, buildMap, findings)
  {
    c' := c;
    for k := 0 to |paths|
      invariant c' == ArtifactsFold(c, paths[..k], data, buildMap, findings)
    {
      assert paths[..k + 1][..k] == paths[..k];
      c' := ProcessArtifact(c', paths[k], data, buildMap, findings);
    }
    assert paths[..|paths|] == paths;
  }

  // ---------------------------------------------------------------------
  // the loop over repositories

  /** One repository: choose the data, save what the plan saves, and trace its keys when not skipped. */
  function RepoStep(st: (CacheDir, Correlation), entry: (string, seq<string>), post: string -> HttpOutcome,
                    buildMap: map<string, Repo>, findings: seq<(string, Finding)>): (CacheDir, Correlation) {
    var plan := PlanFor(entry.0, entry.1, st.0, post);
    var cache := SaveInto(st.0, entry.0, plan);
    if plan.data.None? then (cache, st.1)
    else (cache, ArtifactsFold(st.1, entry.1, plan.data.value, buildMap, findings))
  }

  /** `fetch_missing_artifacts_from_aql` over `missing_artifacts_by_repo`, in order. */
  function FetchAll(st: (CacheDir, Correlation), missing: seq<(string, seq<string>)>, post: string -> HttpOutcome,
                    buildMap: map<string, Repo>, findings: seq<(string, Finding)>): (CacheDir, Correlation)
    decreases |missing|
  {
    if |missing| == 0 then st
    else RepoStep(FetchAll(st, missing[..|missing| - 1], post, buildMap, findings), missing[|missing| - 1], post, buildMap, findings)
  }

  /**
   * Over the whole call the unmapped set never shrinks and the collected
   * lists are only extended; a cache file is only ever replaced, never
   * removed.
   */
  lemma {:induction false} FetchAllGrows(st: (CacheDir, Correlation), missing: seq<(string, seq<string>)>,
                                         post: string -> HttpOutcome, buildMap: map<string, Repo>,
                                         findings: seq<(string, Finding)>)
    ensures st.1.unmapped <= FetchAll(st, missing, post, buildMap, findings).1.unmapped
    ensures ExtendsLists(st.1.byRepo, FetchAll(st, missing, post, buildMap, findings).1.byRepo)
    ensures st.0.Keys <= FetchAll(st, missing, post, buildMap, findings).0.Keys
    decreases |missing|
  {
    if |missing| == 0 {
      ExtendsListsRefl(st.1.byRepo);
    } else {
      var mid := FetchAll(st, missing[..|missing| - 1], post, buildMap, findings);
      FetchAllGrows(st, missing[..|missing| - 1], post, buildMap, findings);
      var e := missing[|missing| - 1];
      var plan := PlanFor(e.0, e.1, mid.0, post);
      var fin := FetchAll(st, missing, post, buildMap, findings);
      if plan.data.Some? {
        ArtifactsFoldGrows(mid.1, e.1, plan.data.value, buildMap, findings);
        ExtendsListsTransitive(st.1.byRepo, mid.1.byRepo, fin.1.byRepo);
      }
    }
  }

  /** A repository whose first phase is skipped leaves the collected artifacts and unmapped names alone. */
  lemma SkippedRepoStep(st: (CacheDir, Correlation), entry: (string, seq<string>), post: string -> HttpOutcome,
                        buildMap: map<string, Repo>, findings: seq<(string, Finding)>)
    requires PlanFor(entry.0, entry.1, st.0, post).data.None?
    ensures RepoStep(st, entry, post, buildMap, findings).1 == st.1
  {
  }

  /** `ArtifactCoordinator`. */
  class ArtifactCoordinator {
    const productName: string

    constructor(productName: string)
      ensures this.productName == productName
    {
      this.productName := productName;
    }

    /**
     * `fetch_missing_artifacts_from_aql`: the caller's cache directory,
     * unmapped set and per-repository lists, as they are after the call.
     */
    method FetchMissingArtifacts(missing: seq<(string, seq<string>)>, post: string -> HttpOutcome, cache0: CacheDir,
                                 buildMap: map<string, Repo>, unmapped0: set<Option<string>>,
                                 findings: seq<(string, Finding)>, byRepo0: seq<(Repo, seq<DeployedArtifact>)>)
        returns (cache: CacheDir, unmapped: set<Option<string>>, byRepo: seq<(Repo, seq<DeployedArtifact>)>)
      ensures (cache, Correlation(unmapped, byRepo))
           == FetchAll((cache0, Correlation(unmapped0, byRepo0)), missing, post, buildMap, findings)
      ensures unmapped0 <= unmapped && ExtendsLists(byRepo0, byRepo)
    {
      var c := Correlation(unmapped0, byRepo0);
      cache := cache0;
      for k := 0 to |missing|
        invariant (cache, c) == FetchAll((cache0, Correlation(unmapped0, byRepo0)), missing[..k], post, buildMap, findings)
      {
        assert missing[..k + 1][..k] == missing[..k];
        var repoName := missing[k].0;
        var paths := missing[k].1;
        var data;
        data, cache := ChooseData(repoName, paths, cache, post);
        if data.None? {
          continue;
        }
        c := ProcessArtifacts(c, paths, data.value, buildMap, findings);
      }
      assert missing[..|missing|] == missing;
      unmapped, byRepo := c.unmapped, c.byRepo;
      FetchAllGrows((cache0, Correlation(unmapped0, byRepo0)), missing, post, buildMap, findings);
    }
  }
}
