/**
 * Bitbucket owner detection (bitbucket_repo_processor.py): the full name
 * `project/slug` of each repository is split at its first `/`, the
 * reviewers of its recent merged pull requests are counted and the three
 * most frequent become its owners, each enriched with HR data.
 */
module BitbucketModel {
  import opened Wrappers
  import opened Text
  import opened Assoc
  import opened CounterModel
  import opened RepoModel
  import opened HrdbModel

  // ---------------------------------------------------------------------
  // project key and slug

  /**
   * `s.split(c, 1)` unpacked into two names: the text before and after the
   * first `c`, or `None` where the unpacking raises ValueError.
   */
  function SplitOnce(s: string, c: char): Option<(string, string)> {
    var i := IndexOf(s, c);
    if i < |s| then Some((s[..i], s[i + 1..])) else None
  }

  /**
   * The split fails exactly when there is no separator; otherwise the two
   * parts joined by the separator give back the text, and the first part
   * holds no separator.
   */
  lemma SplitOnceSpec(s: string, c: char)
    ensures SplitOnce(s, c).None? <==> c !in s
    ensures SplitOnce(s, c).Some? ==>
      SplitOnce(s, c).value.0 + [c] + SplitOnce(s, c).value.1 == s && c !in SplitOnce(s, c).value.0
  {
    var i := IndexOf(s, c);
    if i < |s| {
      assert s[..i] + [c] + s[i + 1..] == s;
    }
  }

  /** Joining a separator-free key and any slug, then splitting, gives the two back. */
  lemma SplitOnceJoin(key: string, slug: string, c: char)
    requires c !in key
    ensures SplitOnce(key + [c] + slug, c) == Some((key, slug))
  {
    var s := key + [c] + slug;
    assert s[|key|] == c;
    assert s[..|key|] == key;
    var i := IndexOf(s, c);
    assert i == |key|;
    assert s[..i] == key && s[i + 1..] == slug;
  }

  /**
   * The `try` of `_populate_single_repo_owners` as written: the project key
   * and slug, or `None` for a name without `/`; without `scm_info` the
   * handler's own warning reads `repo.scm_info.full_name` again and the
   * AttributeError escapes.
   */
  function ParseFullNameAsWritten(scm: Option<ScmInfo>): Result<Option<(string, string)>> {
    if scm.None? then Failure("AttributeError") else Success(SplitOnce(scm.value.fullName, '/'))
  }

  /** The intended parse: a repository without `scm_info` is handled like one whose name does not split. */
  function ParseFullName(scm: Option<ScmInfo>): Option<(string, string)> {
    if scm.None? then None else SplitOnce(scm.value.fullName, '/')
  }

  /**
   * Without `scm_info` the code as written raises where the handler meant to
   * store no owners. The case is latent: constructing a `Repo` without
   * `scm_info` already fails, and the field is never reassigned.
   */
  lemma ParseFullNameAsWrittenRaises()
    ensures ParseFullNameAsWritten(None) == Failure("AttributeError")
    ensures ParseFullName(None) == None
  {
  }

  /**
   * With `scm_info` both parses agree; the intended one never raises and
   * yields `None` exactly when the full name is missing or has no `/`.
   */
  lemma ParseFullNameSpec(scm: Option<ScmInfo>)
    ensures scm.Some? ==> ParseFullNameAsWritten(scm) == Success(ParseFullName(scm))
    ensures ParseFullName(scm).None? <==> scm.None? || '/' !in scm.value.fullName
  {
    if scm.Some? {
      SplitOnceSpec(scm.value.fullName, '/');
    }
  }

  // ---------------------------------------------------------------------
  // the owners of one repository

  /** `most_common(3)`. */
  const TopReviewers: nat := 3

  /** The owner record of one `(username, review_count)` pair. */
  function ReviewerOwner(e: (string, nat), table: seq<Record>): Owner {
    OwnerRecord(e.0, ("review_count", FInt(e.1)), GetUserData(table, e.0))
  }

  function ReviewerOwners(top: seq<(string, nat)>, table: seq<Record>): (r: seq<Owner>)
    ensures |r| == |top|
    ensures forall q :: 0 <= q < |top| ==> r[q] == ReviewerOwner(top[q], table)
  {
    seq(|top|, q requires 0 <= q < |top| => ReviewerOwner(top[q], table))
  }

  /** The owners stored for a repository with these reviewers. */
  function TopOwners(reviewers: seq<string>, table: seq<Record>): seq<Owner> {
    ReviewerOwners(MostCommon(reviewers, TopReviewers), table)
  }

  /** The `review_count` an owner record shows, 0 for a record without one. */
  function ReviewCount(o: Owner): int {
    var c := Get(o, "review_count");
    if c.Some? && c.value.FInt? then c.value.i else 0
  }

  lemma ReviewerOwnerFields(e: (string, nat), table: seq<Record>)
    ensures Get(ReviewerOwner(e, table), "name") == Some(FStr(e.0))
    ensures Get(ReviewerOwner(e, table), "review_count") == Some(FInt(e.1))
  {
    OwnerRecordSpec(e.0, ("review_count", FInt(e.1)), GetUserData(table, e.0));
  }

  /**
   * At most three owners, fewer only when there are fewer distinct
   * reviewers; each carries the username of a reviewer with its true
   * review count, and counts never increase down the list.
   */
  lemma TopOwnersSpec(reviewers: seq<string>, table: seq<Record>)
    ensures |TopOwners(reviewers, table)| == if |Distinct(reviewers)| < TopReviewers then |Distinct(reviewers)| else TopReviewers
    ensures forall q :: 0 <= q < |TopOwners(reviewers, table)| ==>
      exists u :: u in reviewers &&
        Get(TopOwners(reviewers, table)[q], "name") == Some(FStr(u)) &&
        Get(TopOwners(reviewers, table)[q], "review_count") == Some(FInt(Occurrences(reviewers, u)))
    ensures forall i, j :: 0 <= i < j < |TopOwners(reviewers, table)| ==>
      ReviewCount(TopOwners(reviewers, table)[i]) >= ReviewCount(TopOwners(reviewers, table)[j])
  {
    var top := MostCommon(reviewers, TopReviewers);
    var r := TopOwners(reviewers, table);
    MostCommonSpec(reviewers, TopReviewers);
    TopOwnersFields(reviewers, table);
    forall q | 0 <= q < |r|
      ensures exists u :: (u in reviewers && Get(r[q], "name") == Some(FStr(u)) &&
                           Get(r[q], "review_count") == Some(FInt(Occurrences(reviewers, u))))
    {
      var u := top[q].0;
      assert u in reviewers && top[q].1 == Occurrences(reviewers, u);
    }
  }

  /**
   * No two owners carry the same username, and no reviewer left out
   * reviewed more than any owner kept.
   */
  lemma TopOwnersDistinct(reviewers: seq<string>, table: seq<Record>)
    ensures forall i, j :: 0 <= i < j < |TopOwners(reviewers, table)| ==>
      Get(TopOwners(reviewers, table)[i], "name") != Get(TopOwners(reviewers, table)[j], "name")
    ensures forall u :: u in reviewers && (forall q :: 0 <= q < |TopOwners(reviewers, table)| ==>
                                            Get(TopOwners(reviewers, table)[q], "name") != Some(FStr(u))) ==>
      forall q :: 0 <= q < |TopOwners(reviewers, table)| ==>
        Occurrences(reviewers, u) <= ReviewCount(TopOwners(reviewers, table)[q])
  {
    var top := MostCommon(reviewers, TopReviewers);
    var r := TopOwners(reviewers, table);
    TopOwnersFields(reviewers, table);
    forall i, j | 0 <= i < j < |r| ensures Get(r[i], "name") != Get(r[j], "name") {
      MostCommonSpec(reviewers, TopReviewers);
    }
    forall u | u in reviewers && (forall q :: 0 <= q < |r| ==> Get(r[q], "name") != Some(FStr(u)))
      ensures forall q :: 0 <= q < |r| ==> Occurrences(reviewers, u) <= ReviewCount(r[q])
    {
      assert forall q :: 0 <= q < |top| ==> top[q].0 != u;
      MostCommonLeftOut(reviewers, TopReviewers, u);
    }
  }

  /** Each owner shows the name and the count of the reviewer at its rank. */
  lemma TopOwnersFields(reviewers: seq<string>, table: seq<Record>)
    ensures |TopOwners(reviewers, table)| == |MostCommon(reviewers, TopReviewers)|
    ensures forall q :: 0 <= q < |TopOwners(reviewers, table)| ==>
      Get(TopOwners(reviewers, table)[q], "name") == Some(FStr(MostCommon(reviewers, TopReviewers)[q].0)) &&
      Get(TopOwners(reviewers, table)[q], "review_count") == Some(FInt(MostCommon(reviewers, TopReviewers)[q].1))
    ensures forall q :: 0 <= q < |TopOwners(reviewers, table)| ==>
      ReviewCount(TopOwners(reviewers, table)[q]) == MostCommon(reviewers, TopReviewers)[q].1
  {
    var top := MostCommon(reviewers, TopReviewers);
    forall q | 0 <= q < |top|
      ensures Get(TopOwners(reviewers, table)[q], "name") == Some(FStr(top[q].0))
      ensures Get(TopOwners(reviewers, table)[q], "review_count") == Some(FInt(top[q].1))
      ensures ReviewCount(TopOwners(reviewers, table)[q]) == top[q].1
    {
      ReviewerOwnerFields(top[q], table);
    }
  }

  /** What `_populate_single_repo_owners` stores, given the reviewer fetch. */
  function OwnersOf(scm: Option<ScmInfo>, fetch: (string, string) -> seq<string>, table: seq<Record>): seq<Owner> {
    var parsed := ParseFullName(scm);
    if parsed.None? then []
    else
      var reviewers := fetch(parsed.value.0, parsed.value.1);
      if |reviewers| == 0 then [] else TopOwners(reviewers, table)
  }

  /**
   * A repository gets no owners exactly when its full name does not split
   * or its pull requests had no reviewers; otherwise between one and three,
   * the three most frequent reviewers of its own project and slug.
   */
  lemma OwnersOfSpec(scm: Option<ScmInfo>, fetch: (string, string) -> seq<string>, table: seq<Record>)
    ensures OwnersOf(scm, fetch, table) == [] <==>
      ParseFullName(scm).None? || fetch(ParseFullName(scm).value.0, ParseFullName(scm).value.1) == []
    ensures |OwnersOf(scm, fetch, table)| <= TopReviewers
    ensures ParseFullName(scm).Some? && fetch(ParseFullName(scm).value.0, ParseFullName(scm).value.1) != [] ==>
      OwnersOf(scm, fetch, table) == TopOwners(fetch(ParseFullName(scm).value.0, ParseFullName(scm).value.1), table)
  {
    var parsed := ParseFullName(scm);
    if parsed.Some? {
      var reviewers := fetch(parsed.value.0, parsed.value.1);
      TopOwnersSpec(reviewers, table);
      if |reviewers| > 0 {
        DistinctMembers(reviewers);
        assert reviewers[0] in Distinct(reviewers);
      }
    }
  }

  /** `BitbucketRepoProcessor`: the product it serves, the loaded HR table and whether a client exists. */
  class BitbucketRepoProcessor {
    const productName: string
    const hrdb: seq<Record>
    var hasClient: bool

    constructor(productName: string, hrdb: seq<Record>)
      ensures this.productName == productName && this.hrdb == hrdb && !hasClient
    {
      this.productName := productName;
      this.hrdb := hrdb;
      hasClient := false;
    }

    /** `initialize_client` with the token the environment gives, `""` when there is none. */
    method InitializeClient(token: string) returns (ok: bool)
      modifies this
      ensures ok <==> token != ""
      ensures hasClient == (old(hasClient) || ok)
    {
      if token == "" {
        ok := false;
      } else {
        hasClient := true;
        ok := true;
      }
    }

    /** `_populate_single_repo_owners`: the owners are reset, then the top reviewers appended one by one. */
    method PopulateSingleRepoOwners(repo: Repo, fetch: (string, string) -> seq<string>)
      modifies repo`repoOwners
      ensures repo.repoOwners == OwnersOf(repo.scmInfo, fetch, hrdb)
    {
      var parsed := ParseFullName(repo.scmInfo);
      if parsed.None? {
        repo.repoOwners := [];
        return;
      }
      var reviewers := fetch(parsed.value.0, parsed.value.1);
      if |reviewers| == 0 {
        repo.repoOwners := [];
        return;
      }
      var top := MostCommon(reviewers, TopReviewers);
      ghost var all := ReviewerOwners(top, hrdb);
      repo.repoOwners := [];
      var i := 0;
      while i < |top|
        invariant 0 <= i <= |top|
        invariant repo.repoOwners == all[..i]
      {
        var owner := ReviewerOwner(top[i], hrdb);
        TakeOneMore(all, i);
        repo.repoOwners := repo.repoOwners + [owner];
        i := i + 1;
      }
      assert all[..|top|] == all;
    }

    /**
     * `populate_repo_owners`: without a client and without a token nothing
     * is touched and 0 is returned; otherwise every repository gets its
     * owners and the number of repositories is returned.
     */
    method PopulateRepoOwners(repos: seq<Repo>, token: string, fetch: (string, string) -> seq<string>)
      returns (processedCount: nat)
      modifies this, repos`repoOwners
      ensures processedCount == if old(hasClient) || token != "" then |repos| else 0
      ensures hasClient == (old(hasClient) || token != "")
      ensures forall j :: 0 <= j < |repos| ==>
        repos[j].repoOwners == (if old(hasClient) || token != "" then OwnersOf(repos[j].scmInfo, fetch, hrdb)
                                else old(repos[j].repoOwners))
    {
      if !hasClient {
        var ok := InitializeClient(token);
        if !ok {
          return 0;
        }
      }
      processedCount := 0;
      var i := 0;
      while i < |repos|
        invariant 0 <= i <= |repos| && processedCount == i
        invariant hasClient == (old(hasClient) || token != "") && (old(hasClient) || token != "")
        invariant forall j :: 0 <= j < i ==> repos[j].repoOwners == OwnersOf(repos[j].scmInfo, fetch, hrdb)
      {
        PopulateSingleRepoOwners(repos[i], fetch);
        processedCount := processedCount + 1;
        i := i + 1;
      }
    }
  }
}
