/**
 * GitLab owner detection (gitlab_repo_processor.py): the owners of each
 * project are enriched with HR data, then ordered so that owners whose VP
 * is the most common one among them come first, owners with no usable VP
 * come last, and ties keep the order GitLab gave.
 */
module GitLabModel {
  import opened Wrappers
  import opened Text
  import opened Assoc
  import opened KeySort
  import opened CounterModel
  import opened RepoModel
  import opened HrdbModel

  /** One entry of `fetch_project_owners`: the member's username and access level. */
  datatype ProjectMember = ProjectMember(username: string, accessLevel: Field)

  /** The enriched owner record of one project member. */
  function Enrich(m: ProjectMember, table: seq<Record>): Owner {
    OwnerRecord(m.username, ("access_level", m.accessLevel), GetUserData(table, m.username))
  }

  /** An enriched record holds the member's username, access level and HR VP. */
  lemma EnrichSpec(m: ProjectMember, table: seq<Record>)
    ensures |Enrich(m, table)| == 12
    ensures Get(Enrich(m, table), "name") == Some(FStr(m.username))
    ensures Get(Enrich(m, table), "access_level") == Some(m.accessLevel)
    ensures Get(Enrich(m, table), "vp") == Some(FStr(GetUserData(table, m.username).vp))
  {
    var u := GetUserData(table, m.username);
    OwnerRecordSpec(m.username, ("access_level", m.accessLevel), u);
  }

  /** The enriched records of a member list, in the order GitLab gave. */
  function Enriched(members: seq<ProjectMember>, table: seq<Record>): (r: seq<Owner>)
    ensures |r| == |members|
    ensures forall i :: 0 <= i < |members| ==> r[i] == Enrich(members[i], table)
  {
    seq(|members|, i requires 0 <= i < |members| => Enrich(members[i], table))
  }

  /** The loop that builds `enriched_owners`. */
  method EnrichOwners(members: seq<ProjectMember>, table: seq<Record>) returns (enriched: seq<Owner>)
    ensures enriched == Enriched(members, table)
  {
    enriched := [];
    var i := 0;
    while i < |members|
      invariant 0 <= i <= |members|
      invariant |enriched| == i
      invariant forall k :: 0 <= k < i ==> enriched[k] == Enrich(members[k], table)
    {
      enriched := enriched + [Enrich(members[i], table)];
      i := i + 1;
    }
  }

  // ---------------------------------------------------------------------
  // VP normalisation and counting

  /** `normalize_vp` on text: stripped and lowercased, with `unknown` read as no VP. */
  function NormalizeVp(vp: string): Option<string> {
    var v := Lower(Strip(vp));
    if v == "unknown" then None else Some(v)
  }

  /**
   * Only `unknown`, in any case and with any surrounding whitespace, is
   * dropped; every other VP becomes a trimmed lowercase name.
   */
  lemma NormalizeVpSpec(vp: string)
    ensures NormalizeVp(vp).None? <==> Lower(Strip(vp)) == "unknown"
    ensures NormalizeVp(vp).Some? ==>
      Lower(NormalizeVp(vp).value) == NormalizeVp(vp).value && Strip(NormalizeVp(vp).value) == NormalizeVp(vp).value
  {
    var t := Strip(vp);
    StripShape(vp);
    StripLowerCommute(t);
    LowerIdempotent(t);
  }

  /** Two VPs that differ only in case or padding normalise to the same name. */
  lemma NormalizeVpIgnoresCase(vp: string)
    ensures NormalizeVp(Lower(vp)) == NormalizeVp(vp)
    ensures NormalizeVp(Strip(vp)) == NormalizeVp(vp)
  {
    var t := Strip(vp);
    StripShape(vp);
    StripLowerCommute(vp);
    LowerIdempotent(t);
  }

  /** The VP an owner is grouped by, or None for a missing, non-text or `unknown` VP. */
  function VpOf(o: Owner): Option<string> {
    var f := Get(o, "vp");
    if f.Some? && f.value.FStr? then NormalizeVp(f.value.s) else None
  }

  /** `vps`: the normalised VPs of the owners that have one, in owner order. */
  function ValidVps(owners: seq<Owner>): seq<string>
    decreases |owners|
  {
    if |owners| == 0 then []
    else
      var init := ValidVps(owners[..|owners| - 1]);
      match VpOf(owners[|owners| - 1])
      case Some(v) => init + [v]
      case None => init
  }

  /** The group of each owner, in owner order. */
  function VpsOf(owners: seq<Owner>): (r: seq<Option<string>>)
    ensures |r| == |owners|
    ensures forall i :: 0 <= i < |owners| ==> r[i] == VpOf(owners[i])
  {
    seq(|owners|, i requires 0 <= i < |owners| => VpOf(owners[i]))
  }

  /** How many owners are grouped under `v`: the positions whose VP normalises to `v`. */
  function VpCount(owners: seq<Owner>, v: string): nat {
    |Positions(VpsOf(owners), Some(v))|
  }

  lemma {:induction false} ValidVpsOccurrences(owners: seq<Owner>, v: string)
    ensures Occurrences(ValidVps(owners), v) == Occurrences(VpsOf(owners), Some(v))
    decreases |owners|
  {
    if |owners| > 0 {
      var n := |owners| - 1;
      var init := owners[..n];
      ValidVpsOccurrences(init, v);
      assert VpsOf(owners)[..n] == VpsOf(init);
      var vps := ValidVps(init);
      match VpOf(owners[n])
      case Some(w) =>
        assert ValidVps(owners) == vps + [w];
        assert (vps + [w])[..|vps|] == vps;
      case None =>
    }
  }

  /** `vp_counter[v]`: the Counter's entry, 0 for a VP it never saw, is the number of owners under `v`. */
  lemma CounterLookup(owners: seq<Owner>, v: string)
    ensures GetOr(Tally(ValidVps(owners)), v, 0) == VpCount(owners, v)
  {
    var vps := ValidVps(owners);
    TallyGet(vps, v);
    OccurrencesPositive(vps, v);
    ValidVpsOccurrences(owners, v);
    OccurrencesPositions(VpsOf(owners), Some(v));
  }

  // ---------------------------------------------------------------------
  // the owner order

  /**
   * `owner_sort_key` without its index: `(-count, _)` for an owner with a
   * VP and `(inf, _)` for one without. The first component here is 0 or
   * 1, so every owner with a VP sorts before every owner without one, as
   * a finite number sorts before infinity.
   */
  function Rank(counter: seq<(string, nat)>, vp: Option<string>): (int, int) {
    match vp
    case None => (1, 0)
    case Some(v) => (0, -(GetOr(counter, v, 0) as int))
  }

  function RankBy(owners: seq<Owner>): Owner -> (int, int) {
    var counter := Tally(ValidVps(owners));
    (o: Owner) => Rank(counter, VpOf(o))
  }

  /** `sorted(enumerate(enriched_owners), key=owner_sort_key)`. */
  function Ordered(owners: seq<Owner>): seq<(Key, Owner)> {
    Sort(Tag(owners, RankBy(owners)))
  }

  /** The owners in the order they are stored. */
  function SortOwners(owners: seq<Owner>): seq<Owner> {
    Items(Ordered(owners))
  }

  /** Where each stored owner stood in GitLab's list. */
  function OwnerOrder(owners: seq<Owner>): (p: seq<nat>)
    ensures |p| == |Ordered(owners)|
  {
    var s := Ordered(owners);
    seq(|s|, q requires 0 <= q < |s| => s[q].0.idx)
  }

  lemma RankCounts(owners: seq<Owner>, o: Owner)
    ensures VpOf(o).None? ==> RankBy(owners)(o) == (1, 0)
    ensures VpOf(o).Some? ==> RankBy(owners)(o) == (0, -(VpCount(owners, VpOf(o).value) as int))
  {
    RankByApply(owners, o);
    if VpOf(o).Some? {
      RankOfVp(owners, VpOf(o).value);
    }
  }

  lemma RankOfVp(owners: seq<Owner>, v: string)
    ensures Rank(Tally(ValidVps(owners)), Some(v)) == (0, -(VpCount(owners, v) as int))
  {
    CounterLookup(owners, v);
  }

  lemma RankByApply(owners: seq<Owner>, o: Owner)
    ensures RankBy(owners)(o) == Rank(Tally(ValidVps(owners)), VpOf(o))
  {
  }

  /** The stored owners are GitLab's owners rearranged: position `q` holds owner `OwnerOrder[q]`, each once. */
  lemma SortOwnersPermutation(owners: seq<Owner>)
    ensures |SortOwners(owners)| == |owners| && |OwnerOrder(owners)| == |owners|
    ensures multiset(SortOwners(owners)) == multiset(owners)
    ensures forall q :: 0 <= q < |owners| ==>
      OwnerOrder(owners)[q] < |owners| && SortOwners(owners)[q] == owners[OwnerOrder(owners)[q]]
    ensures forall q1, q2 :: 0 <= q1 < q2 < |owners| ==> OwnerOrder(owners)[q1] != OwnerOrder(owners)[q2]
  {
    var s := Ordered(owners);
    SortTagSpec(owners, RankBy(owners), s);
    forall q1, q2 | 0 <= q1 < q2 < |owners| ensures OwnerOrder(owners)[q1] != OwnerOrder(owners)[q2] {
      assert Before(s[q1].0, s[q2].0);
    }
  }

  /**
   * Owners without a VP are all at the end, and among owners with one the
   * number of owners sharing the VP never increases down the list.
   */
  lemma SortOwnersOrder(owners: seq<Owner>)
    ensures var r := SortOwners(owners);
      forall i, j :: 0 <= i < j < |r| && VpOf(r[i]).None? ==> VpOf(r[j]).None?
    ensures var r := SortOwners(owners);
      forall i, j :: 0 <= i < j < |r| && VpOf(r[i]).Some? && VpOf(r[j]).Some? ==>
        VpCount(owners, VpOf(r[i]).value) >= VpCount(owners, VpOf(r[j]).value)
  {
    var s := Ordered(owners);
    var r := SortOwners(owners);
    SortTagSpec(owners, RankBy(owners), s);
    forall i, j | 0 <= i < j < |r|
      ensures VpOf(r[i]).None? ==> VpOf(r[j]).None?
      ensures VpOf(r[i]).Some? && VpOf(r[j]).Some? ==>
        VpCount(owners, VpOf(r[i]).value) >= VpCount(owners, VpOf(r[j]).value)
    {
      assert Before(s[i].0, s[j].0);
      RankCounts(owners, r[i]);
      RankCounts(owners, r[j]);
    }
  }

  /** Owners that tie (both without a VP, or with equally common VPs) keep GitLab's order. */
  lemma SortOwnersStable(owners: seq<Owner>)
    ensures var r := SortOwners(owners); var p := OwnerOrder(owners);
      forall i, j :: 0 <= i < j < |r| && VpOf(r[i]).None? && VpOf(r[j]).None? ==> p[i] < p[j]
    ensures var r := SortOwners(owners); var p := OwnerOrder(owners);
      forall i, j :: (0 <= i < j < |r| && VpOf(r[i]).Some? && VpOf(r[j]).Some? &&
                      VpCount(owners, VpOf(r[i]).value) == VpCount(owners, VpOf(r[j]).value)) ==> p[i] < p[j]
  {
    var s := Ordered(owners);
    var r := SortOwners(owners);
    SortTagSpec(owners, RankBy(owners), s);
    forall i, j | 0 <= i < j < |r|
      ensures VpOf(r[i]).None? && VpOf(r[j]).None? ==> s[i].0.idx < s[j].0.idx
      ensures (VpOf(r[i]).Some? && VpOf(r[j]).Some? &&
               VpCount(owners, VpOf(r[i]).value) == VpCount(owners, VpOf(r[j]).value)) ==> s[i].0.idx < s[j].0.idx
    {
      assert Before(s[i].0, s[j].0);
      RankCounts(owners, r[i]);
      RankCounts(owners, r[j]);
    }
  }

  // ---------------------------------------------------------------------
  // one repository

  /** `getattr(repo.scm_info, 'id', None)`. */
  function ProjectId(scm: Option<ScmInfo>): Field {
    if scm.Some? then scm.value.id else FNull
  }

  /**
   * The owners stored for a repository: none without a project id or
   * without GitLab owners, otherwise the enriched owners in sorted order.
   * `fetch` stands for `fetch_project_owners`.
   */
  function OwnersOf(scm: Option<ScmInfo>, fetch: Field -> seq<ProjectMember>, table: seq<Record>): seq<Owner> {
    var pid := ProjectId(scm);
    if !Truthy(pid) then []
    else
      var members := fetch(pid);
      if |members| == 0 then [] else SortOwners(Enriched(members, table))
  }

  /**
   * A repository gets no owners exactly when it has no truthy project id
   * or GitLab lists no owners for it; otherwise it gets one enriched
   * record per GitLab owner, rearranged.
   */
  lemma OwnersOfSpec(scm: Option<ScmInfo>, fetch: Field -> seq<ProjectMember>, table: seq<Record>)
    ensures OwnersOf(scm, fetch, table) == [] <==> !Truthy(ProjectId(scm)) || fetch(ProjectId(scm)) == []
    ensures Truthy(ProjectId(scm)) ==>
      multiset(OwnersOf(scm, fetch, table)) == multiset(Enriched(fetch(ProjectId(scm)), table))
    ensures scm.None? ==> OwnersOf(scm, fetch, table) == []
  {
    var pid := ProjectId(scm);
    if Truthy(pid) {
      SortOwnersPermutation(Enriched(fetch(pid), table));
    }
  }

  /** `GitLabRepoProcessor`: the product it serves, the loaded HR table and whether a client exists. */
  class GitLabRepoProcessor {
    const productName: string
    const hrdb: seq<Record>
    var hasClient: bool

    constructor(productName: string, hrdb: seq<Record>)
      ensures this.productName == productName && this.hrdb == hrdb && !hasClient
    {
      this.productName := productName;
      this.hrdb := hrdb;
      hasClient := false;
    }

    /** `initialize_client` with the token the environment gives, `""` when there is none. */
    method InitializeClient(token: string) returns (ok: bool)
      modifies this
      ensures ok <==> token != ""
      ensures hasClient == (old(hasClient) || ok)
    {
      if token == "" {
        ok := false;
      } else {
        hasClient := true;
        ok := true;
      }
    }

    /** `_populate_single_repo_owners`. */
    method PopulateSingleRepoOwners(repo: Repo, fetch: Field -> seq<ProjectMember>)
      modifies repo`repoOwners
      ensures repo.repoOwners == OwnersOf(repo.scmInfo, fetch, hrdb)
    {
      var pid := ProjectId(repo.scmInfo);
      if !Truthy(pid) {
        SetRepoOwners(repo, []);
        return;
      }
      var members := fetch(pid);
      if |members| == 0 {
        SetRepoOwners(repo, []);
        return;
      }
      var enriched := EnrichOwners(members, hrdb);
      SetRepoOwners(repo, SortOwners(enriched));
    }

    /**
     * `populate_repo_owners`: without a client and without a token nothing
     * is touched and 0 is returned; otherwise every repository gets its
     * owners and the number of repositories is returned.
     */
    method PopulateRepoOwners(repos: seq<Repo>, token: string, fetch: Field -> seq<ProjectMember>)
      returns (processedCount: nat)
      modifies this, repos`repoOwners
      ensures processedCount == if old(hasClient) || token != "" then |repos| else 0
      ensures hasClient == (old(hasClient) || token != "")
      ensures forall j :: 0 <= j < |repos| ==>
        repos[j].repoOwners == (if old(hasClient) || token != "" then OwnersOf(repos[j].scmInfo, fetch, hrdb)
                                else old(repos[j].repoOwners))
    {
      if !hasClient {
        var ok := InitializeClient(token);
        if !ok {
          return 0;
        }
      }
      processedCount := 0;
      var i := 0;
      while i < |repos|
        invariant 0 <= i <= |repos| && processedCount == i
        invariant hasClient == (old(hasClient) || token != "") && (old(hasClient) || token != "")
        invariant forall j :: 0 <= j < i ==> repos[j].repoOwners == OwnersOf(repos[j].scmInfo, fetch, hrdb)
      {
        PopulateSingleRepoOwners(repos[i], fetch);
        processedCount := processedCount + 1;
        i := i + 1;
      }
    }
  }
}
