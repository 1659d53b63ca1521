/**
 * GitHub owner detection (github_repo_processor.py): the named
 * repositories are asked for their pull-request reviewers in batches of
 * 30, and each repository GitHub answered for gets its three most
 * frequent reviewers, enriched with HR data, as its owners.
 */
module GitHubModel {
  import opened Wrappers
  import opened Text
  import opened Assoc
  import opened CounterModel
  import opened RepoModel
  import opened HrdbModel

  // ---------------------------------------------------------------------
  // collecting the names

  /** `repo_names`: the names present, in repository order (duplicates kept). */
  function PresentNames(ks: seq<Option<string>>): (r: seq<string>)
    ensures |r| <= |ks|
    decreases |ks|
  {
    if |ks| == 0 then []
    else
      var init := PresentNames(ks[..|ks| - 1]);
      match ks[|ks| - 1]
      case Some(n) => init + [n]
      case None => init
  }

  /** `repo_map`: each name sent to the last repository carrying it. */
  function RepoMapOf(ks: seq<Option<string>>, repos: seq<Repo>): map<string, Repo>
    requires |ks| == |repos|
    decreases |ks|
  {
    if |ks| == 0 then map[]
    else
      var n := |ks| - 1;
      var m := RepoMapOf(ks[..n], repos[..n]);
      match ks[n]
      case Some(name) => m[name := repos[n]]
      case None => m
  }

  /** The names collected are exactly the names present, each as often as it occurs. */
  lemma {:induction false} PresentNamesSpec(ks: seq<Option<string>>)
    ensures forall n :: n in PresentNames(ks) <==> Some(n) in ks
    ensures PresentNames(ks) == [] <==> forall j :: 0 <= j < |ks| ==> ks[j].None?
    decreases |ks|
  {
    if |ks| > 0 {
      var k := |ks| - 1;
      PresentNamesSpec(ks[..k]);
      assert ks == ks[..k] + [ks[k]];
      forall n ensures n in PresentNames(ks) <==> Some(n) in ks {
        assert Some(n) in ks <==> Some(n) in ks[..k] || ks[k] == Some(n);
      }
      assert (forall j :: 0 <= j < |ks| ==> ks[j].None?) <==>
        (forall j :: 0 <= j < k ==> ks[..k][j].None?) && ks[k].None?;
    }
  }

  /**
   * The map holds exactly the names present, and each name maps to the
   * repository at the last position carrying it.
   */
  lemma {:induction false} RepoMapSpec(ks: seq<Option<string>>, repos: seq<Repo>)
    requires |ks| == |repos|
    ensures forall n :: n in RepoMapOf(ks, repos) <==> Some(n) in ks
    ensures forall n :: n in RepoMapOf(ks, repos) ==>
      exists j :: 0 <= j < |ks| && ks[j] == Some(n) && RepoMapOf(ks, repos)[n] == repos[j] &&
        forall j2 :: j < j2 < |ks| ==> ks[j2] != Some(n)
    decreases |ks|
  {
    if |ks| > 0 {
      var k := |ks| - 1;
      var m := RepoMapOf(ks[..k], repos[..k]);
      RepoMapSpec(ks[..k], repos[..k]);
      assert ks == ks[..k] + [ks[k]];
      forall n | n in RepoMapOf(ks, repos)
        ensures exists j :: (0 <= j < |ks| && ks[j] == Some(n) && RepoMapOf(ks, repos)[n] == repos[j] &&
                             forall j2 :: j < j2 < |ks| ==> ks[j2] != Some(n))
      {
        if ks[k] == Some(n) {
          assert RepoMapOf(ks, repos)[n] == repos[k];
        } else {
          var j :| 0 <= j < k && ks[..k][j] == Some(n) && m[n] == repos[..k][j] &&
            forall j2 :: j < j2 < k ==> ks[..k][j2] != Some(n);
          assert ks[j] == Some(n) && RepoMapOf(ks, repos)[n] == repos[j];
        }
      }
    }
  }

  // ---------------------------------------------------------------------
  // batches and the fetched reviewers

  /** `batch_size`. */
  const BatchSize: nat := 30

  /** The batches `repo_names[i:i + 30]` for `i` in `range(0, len(repo_names), 30)`. */
  function Batches(names: seq<string>): seq<seq<string>>
    decreases |names|
  {
    if |names| == 0 then []
    else if |names| <= BatchSize then [names]
    else [names[..BatchSize]] + Batches(names[BatchSize..])
  }

  function Flatten(bs: seq<seq<string>>): seq<string>
    decreases |bs|
  {
    if |bs| == 0 then [] else bs[0] + Flatten(bs[1..])
  }

  function Min(a: int, b: int): int {
    if a <= b then a else b
  }

  /** There are `(len + 29) // 30` batches, each of 1 to 30 names, and together they are the names in order. */
  lemma {:induction false} BatchesCount(names: seq<string>)
    ensures |Batches(names)| == (|names| + BatchSize - 1) / BatchSize
    ensures forall k :: 0 <= k < |Batches(names)| ==> 0 < |Batches(names)[k]| <= BatchSize
    ensures Flatten(Batches(names)) == names
    decreases |names|
  {
    if |names| > BatchSize {
      var rest := names[BatchSize..];
      BatchesCount(rest);
      assert Batches(names)[1..] == Batches(rest);
      assert names == names[..BatchSize] + rest;
    }
  }

  /** Batch `k` is the slice `repo_names[30 * k:30 * k + 30]`. */
  lemma {:induction false} BatchesAt(names: seq<string>)
    ensures forall k :: 0 <= k < |Batches(names)| ==>
      BatchSize * k < |names| && Batches(names)[k] == names[BatchSize * k..Min(BatchSize * k + BatchSize, |names|)]
    decreases |names|
  {
    if |names| > BatchSize {
      var rest := names[BatchSize..];
      BatchesAt(rest);
      var bs := Batches(names);
      assert bs[1..] == Batches(rest);
      forall k | 0 < k < |bs|
        ensures BatchSize * k < |names| && bs[k] == names[BatchSize * k..Min(BatchSize * k + BatchSize, |names|)]
      {
        assert bs[k] == Batches(rest)[k - 1];
        var a := BatchSize * (k - 1);
        var b := Min(a + BatchSize, |rest|);
        assert a + BatchSize == BatchSize * k;
        assert b + BatchSize == Min(BatchSize * k + BatchSize, |names|);
        assert rest[a..b] == names[a + BatchSize..b + BatchSize];
      }
    }
  }

  /** `reviewers_by_repo` after the updates with the results of batches `bs`. */
  function UpdateAll(m: seq<(string, seq<string>)>, bs: seq<seq<string>>,
                     fetch: seq<string> -> seq<(string, seq<string>)>): seq<(string, seq<string>)>
    decreases |bs|
  {
    if |bs| == 0 then m
    else UpdateWith(UpdateAll(m, bs[..|bs| - 1], fetch), fetch(bs[|bs| - 1]))
  }

  /** `reviewers_by_repo` once every batch is fetched; `fetch` stands for `fetch_repo_reviewers_batch`. */
  function FetchAll(names: seq<string>, fetch: seq<string> -> seq<(string, seq<string>)>): seq<(string, seq<string>)> {
    UpdateAll([], Batches(names), fetch)
  }

  lemma {:induction false} UpdateAllUnique(m: seq<(string, seq<string>)>, bs: seq<seq<string>>,
                                           fetch: seq<string> -> seq<(string, seq<string>)>)
    requires UniqueKeys(m)
    ensures UniqueKeys(UpdateAll(m, bs, fetch))
    decreases |bs|
  {
    if |bs| > 0 {
      UpdateAllUnique(m, bs[..|bs| - 1], fetch);
      UpdateWithUnique(UpdateAll(m, bs[..|bs| - 1], fetch), fetch(bs[|bs| - 1]));
    }
  }

  /** A repository has reviewers after the updates exactly when it had them before or some batch answered for it. */
  lemma {:induction false} UpdateAllHasKey(m: seq<(string, seq<string>)>, bs: seq<seq<string>>,
                                           fetch: seq<string> -> seq<(string, seq<string>)>, k: string)
    ensures HasKey(UpdateAll(m, bs, fetch), k) <==> HasKey(m, k) || exists q :: 0 <= q < |bs| && HasKey(fetch(bs[q]), k)
    decreases |bs|
  {
    if |bs| > 0 {
      var n := |bs| - 1;
      var init := bs[..n];
      UpdateAllHasKey(m, init, fetch, k);
      UpdateWithHasKey(UpdateAll(m, init, fetch), fetch(bs[n]), k);
      if exists q :: 0 <= q < |bs| && HasKey(fetch(bs[q]), k) {
        var q :| 0 <= q < |bs| && HasKey(fetch(bs[q]), k);
        if q < n {
          assert init[q] == bs[q];
        }
      }
      if exists q :: 0 <= q < |init| && HasKey(fetch(init[q]), k) {
        var q :| 0 <= q < |init| && HasKey(fetch(init[q]), k);
        assert init[q] == bs[q];
      }
    }
  }

  /**
   * With every batch answered by a dictionary, a repository has the
   * reviewers of the last batch that answered for it.
   */
  lemma {:induction false} UpdateAllGet(m: seq<(string, seq<string>)>, bs: seq<seq<string>>,
                                        fetch: seq<string> -> seq<(string, seq<string>)>, k: string, q: nat)
    requires forall b :: UniqueKeys(fetch(b))
    requires q < |bs| && HasKey(fetch(bs[q]), k)
    requires forall q2 :: q < q2 < |bs| ==> !HasKey(fetch(bs[q2]), k)
    ensures Get(UpdateAll(m, bs, fetch), k) == Get(fetch(bs[q]), k)
    decreases |bs|
  {
    var n := |bs| - 1;
    var init := bs[..n];
    UpdateWithGet(UpdateAll(m, init, fetch), fetch(bs[n]), k);
    if q < n {
      assert forall q2 :: q < q2 < |init| ==> init[q2] == bs[q2];
      assert init[q] == bs[q];
      UpdateAllGet(m, init, fetch, k, q);
    }
  }

  // ---------------------------------------------------------------------
  // the owners of one repository

  /** The `chkp-` prefix of a username is dropped. */
  function StripChkp(username: string): string {
    if StartsWith(username, "chkp-") then username[|"chkp-"|..] else username
  }

  /** Dropping the prefix leaves the rest of the username and touches no other username. */
  lemma StripChkpSpec(username: string, rest: string)
    ensures StripChkp("chkp-" + rest) == rest
    ensures !StartsWith(username, "chkp-") ==> StripChkp(username) == username
    ensures EndsWith(username, StripChkp(username))
  {
    var s := "chkp-" + rest;
    assert s[..5] == "chkp-" && s[5..] == rest;
    var r := StripChkp(username);
    assert username[|username| - |r|..] == r;
  }

  /** `most_common(3)`. */
  const TopReviewers: nat := 3

  /** The owner record of one `(username, review_count)` pair. */
  function ReviewerOwner(e: (string, nat), table: seq<Record>): Owner {
    OwnerRecord(StripChkp(e.0), ("review_count", FInt(e.1)), GetUserData(table, StripChkp(e.0)))
  }

  function ReviewerOwners(top: seq<(string, nat)>, table: seq<Record>): (r: seq<Owner>)
    ensures |r| == |top|
    ensures forall q :: 0 <= q < |top| ==> r[q] == ReviewerOwner(top[q], table)
  {
    seq(|top|, q requires 0 <= q < |top| => ReviewerOwner(top[q], table))
  }

  /** The owners stored for a repository with these reviewers. */
  function TopOwners(reviewers: seq<string>, table: seq<Record>): seq<Owner> {
    ReviewerOwners(MostCommon(reviewers, TopReviewers), table)
  }

  /** The loop that builds `enriched_owners`. */
  method EnrichReviewers(top: seq<(string, nat)>, table: seq<Record>) returns (enriched: seq<Owner>)
    ensures enriched == ReviewerOwners(top, table)
  {
    enriched := [];
    var i := 0;
    while i < |top|
      invariant 0 <= i <= |top|
      invariant |enriched| == i
      invariant forall k :: 0 <= k < i ==> enriched[k] == ReviewerOwner(top[k], table)
    {
      enriched := enriched + [ReviewerOwner(top[i], table)];
      i := i + 1;
    }
  }

  lemma ReviewerOwnerFields(e: (string, nat), table: seq<Record>)
    ensures Get(ReviewerOwner(e, table), "name") == Some(FStr(StripChkp(e.0)))
    ensures Get(ReviewerOwner(e, table), "review_count") == Some(FInt(e.1))
  {
    OwnerRecordSpec(StripChkp(e.0), ("review_count", FInt(e.1)), GetUserData(table, StripChkp(e.0)));
  }

  /**
   * At most three owners, fewer only when there are fewer distinct
   * reviewers; each names a distinct reviewer (without `chkp-`) with its
   * true review count, counts never increase down the list, and no
   * reviewer left out reviewed more than one kept.
   */
  lemma TopOwnersSpec(reviewers: seq<string>, table: seq<Record>)
    ensures |TopOwners(reviewers, table)| == Min(TopReviewers, |Distinct(reviewers)|)
    ensures reviewers == [] ==> TopOwners(reviewers, table) == []
    ensures forall q :: 0 <= q < |TopOwners(reviewers, table)| ==>
      exists u :: u in reviewers &&
        Get(TopOwners(reviewers, table)[q], "name") == Some(FStr(StripChkp(u))) &&
        Get(TopOwners(reviewers, table)[q], "review_count") == Some(FInt(Occurrences(reviewers, u)))
    ensures forall i, j :: 0 <= i < j < |TopOwners(reviewers, table)| ==>
      Get(TopOwners(reviewers, table)[i], "review_count").value.i >= Get(TopOwners(reviewers, table)[j], "review_count").value.i
    ensures forall u :: u in reviewers && (forall q :: 0 <= q < |MostCommon(reviewers, TopReviewers)| ==> MostCommon(reviewers, TopReviewers)[q].0 != u) ==>
      forall q :: 0 <= q < |TopOwners(reviewers, table)| ==>
        Occurrences(reviewers, u) <= Get(TopOwners(reviewers, table)[q], "review_count").value.i
  {
    var top := MostCommon(reviewers, TopReviewers);
    var r := TopOwners(reviewers, table);
    MostCommonSpec(reviewers, TopReviewers);
    forall q | 0 <= q < |top|
      ensures Get(r[q], "review_count") == Some(FInt(top[q].1))
      ensures exists u :: (u in reviewers && Get(r[q], "name") == Some(FStr(StripChkp(u))) &&
                           Get(r[q], "review_count") == Some(FInt(Occurrences(reviewers, u))))
    {
      ReviewerOwnerFields(top[q], table);
      var u := top[q].0;
      assert u in reviewers && top[q].1 == Occurrences(reviewers, u);
    }
  }

  // ---------------------------------------------------------------------
  // the whole product

  /** Whether each entry of `reviewers_by_repo` counts as processed: a mapped repository with reviewers. */
  function ProcessedFlags(b: seq<(string, seq<string>)>, m: map<string, Repo>): (r: seq<bool>)
    ensures |r| == |b|
    ensures forall q :: 0 <= q < |b| ==> r[q] == (b[q].0 in m && |b[q].1| > 0)
  {
    seq(|b|, q requires 0 <= q < |b| => b[q].0 in m && |b[q].1| > 0)
  }

  /** `processed_count` after the loop over `reviewers_by_repo`. */
  function CountProcessed(b: seq<(string, seq<string>)>, m: map<string, Repo>): nat {
    Occurrences(ProcessedFlags(b, m), true)
  }

  /** The count is the number of entries naming a mapped repository with at least one reviewer. */
  lemma CountProcessedSpec(b: seq<(string, seq<string>)>, m: map<string, Repo>)
    ensures CountProcessed(b, m) == |Positions(ProcessedFlags(b, m), true)|
    ensures CountProcessed(b, m) == 0 <==> forall q :: 0 <= q < |b| ==> b[q].0 !in m || b[q].1 == []
  {
    OccurrencesPositions(ProcessedFlags(b, m), true);
    OccurrencesPositive(ProcessedFlags(b, m), true);
  }

  /**
   * The owners a repository holds after the loop: when it is the
   * repository its name maps to and GitHub answered for that name, the
   * top reviewers; otherwise what it held before.
   */
  function Assigned(r: Repo, name: Option<string>, m: map<string, Repo>, b: seq<(string, seq<string>)>,
                    table: seq<Record>, prev: seq<Owner>): seq<Owner>
  {
    if name.Some? && name.value in m && m[name.value] == r && HasKey(b, name.value)
    then TopOwners(Get(b, name.value).value, table)
    else prev
  }

  /** Whether the first `k` entries of `b` include the one that reaches `r` under `name`. */
  predicate Reached(name: Option<string>, r: Repo, m: map<string, Repo>, b: seq<(string, seq<string>)>, k: nat) {
    name.Some? && name.value in m && m[name.value] == r && IndexOfKey(b, name.value) < k
  }

  /** The owners a repository holds once the first `k` entries of `b` are handled. */
  function OwnersAfter(name: Option<string>, r: Repo, m: map<string, Repo>, b: seq<(string, seq<string>)>, k: nat,
                       table: seq<Record>, prev: seq<Owner>): seq<Owner>
    requires k <= |b|
  {
    if Reached(name, r, m, b, k) then TopOwners(b[IndexOfKey(b, name.value)].1, table) else prev
  }

  /** Handling entry `k` leaves every repository it does not map to as it was. */
  lemma ReachedOther(name: Option<string>, r: Repo, m: map<string, Repo>, b: seq<(string, seq<string>)>, k: nat)
    requires k < |b|
    requires !(name == Some(b[k].0) && b[k].0 in m && m[b[k].0] == r)
    ensures Reached(name, r, m, b, k + 1) == Reached(name, r, m, b, k)
  {
    if name.Some? && IndexOfKey(b, name.value) == k {
      assert b[k].0 == name.value;
    }
  }

  /** Handling entry `k` gives the repository it maps to the top reviewers of that entry. */
  lemma OwnersAfterHit(name: Option<string>, r: Repo, m: map<string, Repo>, b: seq<(string, seq<string>)>, k: nat,
                       table: seq<Record>, prev: seq<Owner>)
    requires UniqueKeys(b) && k < |b|
    requires name == Some(b[k].0) && b[k].0 in m && m[b[k].0] == r
    ensures OwnersAfter(name, r, m, b, k + 1, table, prev) == TopOwners(b[k].1, table)
  {
    assert IndexOfKey(b, b[k].0) == k;
  }

  /** After the whole list, the owners are those `Assigned` describes. */
  lemma OwnersAfterAll(name: Option<string>, r: Repo, m: map<string, Repo>, b: seq<(string, seq<string>)>,
                       table: seq<Record>, prev: seq<Owner>)
    ensures OwnersAfter(name, r, m, b, |b|, table, prev) == Assigned(r, name, m, b, table, prev)
  {
  }

  /** Every repository holds the owners it has once the first `k` entries of `b` are handled. */
  ghost predicate Progress(repos: seq<Repo>, ks: seq<Option<string>>, m: map<string, Repo>,
                           b: seq<(string, seq<string>)>, k: nat, table: seq<Record>, owners0: seq<seq<Owner>>)
    requires k <= |b| && |ks| == |repos| && |owners0| == |repos|
    reads repos
  {
    forall j :: 0 <= j < |repos| ==> repos[j].repoOwners == OwnersAfter(ks[j], repos[j], m, b, k, table, owners0[j])
  }

  /**
   * How `repo_map` relates to the repository list: one object never
   * carries two names, and each mapped repository sits at a position
   * with that name.
   */
  ghost predicate Indexed(ks: seq<Option<string>>, repos: seq<Repo>, m: map<string, Repo>) {
    |ks| == |repos| &&
    (forall i, j :: 0 <= i < |repos| && 0 <= j < |repos| && repos[i] == repos[j] ==> ks[i] == ks[j]) &&
    (forall n :: n in m ==> exists j :: 0 <= j < |ks| && ks[j] == Some(n) && m[n] == repos[j])
  }

  lemma RepoMapIndexed(repos: seq<Repo>)
    ensures Indexed(RepoNames(repos), repos, RepoMapOf(RepoNames(repos), repos))
  {
    RepoMapSpec(RepoNames(repos), repos);
  }

  /** Whether `populate_repo_owners` gets past its early returns: some name, and some answer. */
  function Proceeds(ks: seq<Option<string>>, fetch: seq<string> -> seq<(string, seq<string>)>): bool {
    PresentNames(ks) != [] && FetchAll(PresentNames(ks), fetch) != []
  }

  /** The count `populate_repo_owners` returns once a client exists. */
  function PopulatedCount(ks: seq<Option<string>>, repos: seq<Repo>, fetch: seq<string> -> seq<(string, seq<string>)>): nat
    requires |ks| == |repos|
  {
    if Proceeds(ks, fetch) then CountProcessed(FetchAll(PresentNames(ks), fetch), RepoMapOf(ks, repos)) else 0
  }

  /** The owners every repository holds after the loop over `reviewers_by_repo`. */
  function AssignedAll(repos: seq<Repo>, ks: seq<Option<string>>, m: map<string, Repo>, b: seq<(string, seq<string>)>,
                       table: seq<Record>, prevs: seq<seq<Owner>>): (r: seq<seq<Owner>>)
    requires |ks| == |repos| && |prevs| == |repos|
    ensures |r| == |repos|
    ensures forall j :: 0 <= j < |repos| ==> r[j] == Assigned(repos[j], ks[j], m, b, table, prevs[j])
  {
    seq(|repos|, j requires 0 <= j < |repos| => Assigned(repos[j], ks[j], m, b, table, prevs[j]))
  }

  /** The owners every repository holds after `populate_repo_owners` once a client exists. */
  function PopulatedOwners(ks: seq<Option<string>>, repos: seq<Repo>, fetch: seq<string> -> seq<(string, seq<string>)>,
                           table: seq<Record>, prevs: seq<seq<Owner>>): (r: seq<seq<Owner>>)
    requires |ks| == |repos| && |prevs| == |repos|
    ensures |r| == |repos|
    ensures !Proceeds(ks, fetch) ==> r == prevs
    ensures Proceeds(ks, fetch) ==> forall j :: 0 <= j < |repos| ==>
      r[j] == Assigned(repos[j], ks[j], RepoMapOf(ks, repos), FetchAll(PresentNames(ks), fetch), table, prevs[j])
  {
    if Proceeds(ks, fetch) then AssignedAll(repos, ks, RepoMapOf(ks, repos), FetchAll(PresentNames(ks), fetch), table, prevs)
    else prevs
  }

  /** Without names, or without answers, nothing changes and nothing is counted. */
  lemma PopulatedStops(ks: seq<Option<string>>, repos: seq<Repo>, fetch: seq<string> -> seq<(string, seq<string>)>,
                       table: seq<Record>, prevs: seq<seq<Owner>>)
    requires |ks| == |repos| && |prevs| == |repos|
    requires PresentNames(ks) == [] || FetchAll(PresentNames(ks), fetch) == []
    ensures PopulatedCount(ks, repos, fetch) == 0
    ensures PopulatedOwners(ks, repos, fetch, table, prevs) == prevs
  {
  }

  /** Once names and answers exist, the outcome is that of the loop over the answers. */
  lemma PopulatedProceeds(ks: seq<Option<string>>, repos: seq<Repo>, fetch: seq<string> -> seq<(string, seq<string>)>,
                          table: seq<Record>, prevs: seq<seq<Owner>>, b: seq<(string, seq<string>)>)
    requires |ks| == |repos| && |prevs| == |repos|
    requires PresentNames(ks) != [] && b == FetchAll(PresentNames(ks), fetch) && b != []
    ensures PopulatedCount(ks, repos, fetch) == CountProcessed(b, RepoMapOf(ks, repos))
    ensures PopulatedOwners(ks, repos, fetch, table, prevs) == AssignedAll(repos, ks, RepoMapOf(ks, repos), b, table, prevs)
  {
  }

  /** The owners each repository holds. */
  function OwnerLists(repos: seq<Repo>): (r: seq<seq<Owner>>)
    reads repos
    ensures |r| == |repos|
    ensures forall j :: 0 <= j < |repos| ==> r[j] == repos[j].repoOwners
  {
    seq(|repos|, j reads repos requires 0 <= j < |repos| => repos[j].repoOwners)
  }

  /** The loop that fills `repo_names` and `repo_map`. */
  method CollectRepoNames(repos: seq<Repo>) returns (names: seq<string>, repoMap: map<string, Repo>)
    ensures names == PresentNames(RepoNames(repos))
    ensures repoMap == RepoMapOf(RepoNames(repos), repos)
  {
    ghost var ks := RepoNames(repos);
    names := [];
    repoMap := map[];
    var i := 0;
    while i < |repos|
      invariant 0 <= i <= |repos|
      invariant names == PresentNames(ks[..i])
      invariant repoMap == RepoMapOf(ks[..i], repos[..i])
    {
      assert ks[..i + 1][..i] == ks[..i] && repos[..i + 1][..i] == repos[..i];
      var name := RepoName(repos[i]);
      if name.Some? {
        names := names + [name.value];
        repoMap := repoMap[name.value := repos[i]];
      }
      i := i + 1;
    }
    assert ks[..|repos|] == ks && repos[..|repos|] == repos;
  }

  /** The batch loop: every batch fetched and merged into `reviewers_by_repo` in turn. */
  method FetchReviewers(names: seq<string>, fetch: seq<string> -> seq<(string, seq<string>)>)
    returns (byRepo: seq<(string, seq<string>)>)
    ensures byRepo == FetchAll(names, fetch)
    ensures UniqueKeys(byRepo)
  {
    ghost var bs := Batches(names);
    BatchesCount(names);
    BatchesAt(names);
    byRepo := [];
    var i := 0;
    ghost var q := 0;
    while i < |names|
      invariant 0 <= q <= |bs| && 0 <= i <= |names|
      invariant q < |bs| ==> i == BatchSize * q
      invariant q == |bs| ==> i == |names|
      invariant byRepo == UpdateAll([], bs[..q], fetch)
      decreases |names| - i
    {
      var batch := names[i..Min(i + BatchSize, |names|)];
      assert batch == bs[q];
      assert bs[..q + 1][..q] == bs[..q];
      byRepo := UpdateWith(byRepo, fetch(batch));
      i := Min(i + BatchSize, |names|);
      q := q + 1;
    }
    assert bs[..q] == bs;
    UpdateAllUnique([], bs, fetch);
  }

  /** `GitHubRepoProcessor`: the product it serves, the loaded HR table and whether a client exists. */
  class GitHubRepoProcessor {
    const productName: string
    const hrdb: seq<Record>
    var hasClient: bool

    constructor(productName: string, hrdb: seq<Record>)
      ensures this.productName == productName && this.hrdb == hrdb && !hasClient
    {
      this.productName := productName;
      this.hrdb := hrdb;
      hasClient := false;
    }

    /** `initialize_client` with the token and organisation configured, `""` when missing. */
    method InitializeClient(token: string, org: string) returns (ok: bool)
      modifies this
      ensures ok <==> token != "" && org != ""
      ensures hasClient == (old(hasClient) || ok)
    {
      if token == "" || org == "" {
        ok := false;
      } else {
        hasClient := true;
        ok := true;
      }
    }

    /** The loop over `reviewers_by_repo.items()`. */
    method AssignOwners(b: seq<(string, seq<string>)>, repoMap: map<string, Repo>, ghost ks: seq<Option<string>>,
                        repos: seq<Repo>, ghost owners0: seq<seq<Owner>>) returns (processedCount: nat)
      requires ks == RepoNames(repos) && repoMap == RepoMapOf(ks, repos) && UniqueKeys(b)
      requires owners0 == OwnerLists(repos)
      modifies repos`repoOwners
      ensures processedCount == CountProcessed(b, repoMap)
      ensures OwnerLists(repos) == AssignedAll(repos, ks, repoMap, b, hrdb, owners0)
    {
      RepoMapIndexed(repos);
      ghost var flags := ProcessedFlags(b, repoMap);
      processedCount := 0;
      var k := 0;
      while k < |b|
        invariant 0 <= k <= |b|
        invariant processedCount == Occurrences(flags[..k], true)
        invariant Progress(repos, ks, repoMap, b, k, hrdb, owners0)
      {
        OccurrencesPrefix(flags, k, true);
        var counted := AssignEntry(b, repoMap, ks, repos, owners0, k);
        if counted {
          processedCount := processedCount + 1;
        }
        k := k + 1;
      }
      assert flags[..|b|] == flags;
      forall j | 0 <= j < |repos|
        ensures OwnerLists(repos)[j] == AssignedAll(repos, ks, repoMap, b, hrdb, owners0)[j]
      {
        OwnersAfterAll(ks[j], repos[j], repoMap, b, hrdb, owners0[j]);
      }
    }

    /** One entry of `reviewers_by_repo`: the repository it maps to, if any, gets its top reviewers. */
    method AssignEntry(b: seq<(string, seq<string>)>, repoMap: map<string, Repo>, ghost ks: seq<Option<string>>,
                       repos: seq<Repo>, ghost owners0: seq<seq<Owner>>, k: nat) returns (counted: bool)
      requires k < |b| && UniqueKeys(b) && Indexed(ks, repos, repoMap) && |owners0| == |repos|
      requires Progress(repos, ks, repoMap, b, k, hrdb, owners0)
      modifies repos`repoOwners
      ensures counted == (b[k].0 in repoMap && |b[k].1| > 0)
      ensures Progress(repos, ks, repoMap, b, k + 1, hrdb, owners0)
    {
      var name := b[k].0;
      var reviewers := b[k].1;
      counted := false;
      if name in repoMap {
        var r := repoMap[name];
        ghost var jr :| 0 <= jr < |ks| && ks[jr] == Some(name) && r == repos[jr];
        if |reviewers| == 0 {
          TopOwnersSpec(reviewers, hrdb);
          SetRepoOwners(r, []);
        } else {
          var top := MostCommon(reviewers, TopReviewers);
          var enriched := EnrichReviewers(top, hrdb);
          SetRepoOwners(r, enriched);
          counted := true;
        }
        forall j | 0 <= j < |repos|
          ensures repos[j].repoOwners == OwnersAfter(ks[j], repos[j], repoMap, b, k + 1, hrdb, owners0[j])
        {
          if repos[j] == r {
            assert ks[j] == Some(name);
            OwnersAfterHit(ks[j], repos[j], repoMap, b, k, hrdb, owners0[j]);
          } else {
            ReachedOther(ks[j], repos[j], repoMap, b, k);
          }
        }
      } else {
        forall j | 0 <= j < |repos|
          ensures repos[j].repoOwners == OwnersAfter(ks[j], repos[j], repoMap, b, k + 1, hrdb, owners0[j])
        {
          ReachedOther(ks[j], repos[j], repoMap, b, k);
        }
      }
    }

    /**
     * `populate_repo_owners`: without a client (no token or organisation)
     * nothing is touched and 0 is returned; with one, the outcome
     * `PopulatedCount` and `PopulatedOwners` describe.
     */
    method PopulateRepoOwners(repos: seq<Repo>, token: string, org: string,
                              fetch: seq<string> -> seq<(string, seq<string>)>) returns (processedCount: nat)
      modifies this, repos`repoOwners
      ensures hasClient == (old(hasClient) || (token != "" && org != ""))
      ensures processedCount == (if hasClient then PopulatedCount(RepoNames(repos), repos, fetch) else 0)
      ensures OwnerLists(repos) ==
        (if hasClient then PopulatedOwners(RepoNames(repos), repos, fetch, hrdb, old(OwnerLists(repos)))
         else old(OwnerLists(repos)))
    {
      ghost var ks := RepoNames(repos);
      ghost var owners0 := OwnerLists(repos);
      if !hasClient {
        var ok := InitializeClient(token, org);
        if !ok {
          return 0;
        }
      }
      assert RepoNames(repos) == ks && OwnerLists(repos) == owners0;
      processedCount := PopulateWithClient(repos, fetch, ks, owners0);
    }

    /** The part of `populate_repo_owners` after the client check. */
    method PopulateWithClient(repos: seq<Repo>, fetch: seq<string> -> seq<(string, seq<string>)>,
                              ghost ks: seq<Option<string>>, ghost owners0: seq<seq<Owner>>)
      returns (processedCount: nat)
      requires ks == RepoNames(repos) && owners0 == OwnerLists(repos)
      modifies repos`repoOwners
      ensures processedCount == PopulatedCount(ks, repos, fetch)
      ensures OwnerLists(repos) == PopulatedOwners(ks, repos, fetch, hrdb, owners0)
    {
      var names, repoMap := CollectRepoNames(repos);
      var byRepo: seq<(string, seq<string>)> := [];
      if |names| > 0 {
        byRepo := FetchReviewers(names, fetch);
      }
      if |byRepo| == 0 {
        PopulatedStops(ks, repos, fetch, hrdb, owners0);
        return 0;
      }
      PopulatedProceeds(ks, repos, fetch, hrdb, owners0, byRepo);
      processedCount := AssignOwners(byRepo, repoMap, ks, repos, owners0);
    }
  }
}
