/**
 * The repository aggregate (repo.py) and its source-control details
 * (scm_info.py). A repository starts with no CI status, CD status,
 * vulnerabilities or enforcement status; processors fill them in later.
 */
module RepoModel {
  import opened Wrappers
  import opened Text
  import opened CiStatus
  import opened Vulns

  /** A JSON scalar as it appears in API data and owner records. */
  datatype Field = FNull | FBool(b: bool) | FInt(i: int) | FStr(s: string)

  /** Python truthiness of a scalar. */
  predicate Truthy(f: Field) {
    match f
    case FNull => false
    case FBool(b) => b
    case FInt(i) => i != 0
    case FStr(s) => s != ""
  }

  /** Python's `str()` of a scalar. */
  function PyStr(f: Field): string {
    match f
    case FNull => "None"
    case FBool(b) => if b then "True" else "False"
    case FInt(i) => IntToString(i)
    case FStr(s) => s
  }

  /** An owner record: a dictionary from field name to scalar, in insertion order. */
  type Owner = seq<(string, Field)>

  /** A parsed timestamp; parsing ISO text is a parameter of the model. */
  datatype DateTime = DateTime(iso: string)

  /** Placeholder statuses with no state of their own. */
  datatype CDStatus = CDStatus
  datatype EnforcementStatus = EnforcementStatus

  /** `SCMInfo`. */
  datatype ScmInfo = ScmInfo(
    repoName: string,
    fullName: string,
    id: Field,
    defaultBranch: string,
    isPrivate: bool,
    createdInCompassAt: Option<DateTime>,
    updatedInCompassAt: Option<DateTime>)

  /** The keys of one repository's JSON object that `from_json` reads; None is an absent key. */
  datatype RepoJson = RepoJson(
    repoName: Option<string>,
    fullName: Option<string>,
    githubId: Option<Field>,
    id: Option<Field>,
    defaultBranch: Option<string>,
    isPrivate: Option<bool>,
    repoCreatedAt: Option<string>,
    repoUpdatedAt: Option<string>)

  /** The text handed to `fromisoformat`: a trailing `Z` becomes `+00:00`. */
  function NormalizeIso(s: string): (r: string)
    ensures EndsWith(s, "Z") ==> !EndsWith(r, "Z") && StartsWith(r, s[..|s| - 1]) && EndsWith(r, "+00:00")
    ensures !EndsWith(s, "Z") ==> r == s
  {
    if EndsWith(s, "Z") then
      var r := s[..|s| - 1] + "+00:00";
      assert r[..|s| - 1] == s[..|s| - 1];
      assert r[|r| - 6..] == "+00:00";
      assert r[|r| - 1..] == "0";
      r
    else s
  }

  /** `_parse_datetime`, with `datetime.fromisoformat` as the parameter `fromIso` (None where it raises). */
  function ParseDatetime(s: Option<string>, fromIso: string -> Option<DateTime>): Option<DateTime> {
    if s.None? || s.value == "" then None else fromIso(NormalizeIso(s.value))
  }

  /** Empty or missing text is never parsed; other text reaches the parser with no trailing `Z`. */
  lemma ParseDatetimeSpec(s: Option<string>, fromIso: string -> Option<DateTime>)
    ensures s.None? || s.value == "" ==> ParseDatetime(s, fromIso).None?
    ensures s.Some? && s.value != "" ==> ParseDatetime(s, fromIso) == fromIso(NormalizeIso(s.value))
    ensures s.Some? && EndsWith(s.value, "Z") ==> ParseDatetime(s, fromIso) == fromIso(s.value[..|s.value| - 1] + "+00:00")
    ensures ParseDatetime(Some("2024-05-01T10:00:00Z"), fromIso) == fromIso("2024-05-01T10:00:00+00:00")
  {
    var t := "2024-05-01T10:00:00Z";
    assert EndsWith(t, "Z");
    assert t[..|t| - 1] + "+00:00" == "2024-05-01T10:00:00+00:00";
  }

  /** The details `from_json` reads out of the JSON object. */
  function ScmInfoFromJson(j: RepoJson, fromIso: string -> Option<DateTime>): ScmInfo {
    ScmInfo(
      j.repoName.GetOr(""),
      j.fullName.GetOr(""),
      if j.githubId.Some? then j.githubId.value else FStr(PyStr(j.id.GetOr(FStr("")))),
      j.defaultBranch.GetOr("main"),
      j.isPrivate.GetOr(false),
      ParseDatetime(j.repoCreatedAt, fromIso),
      ParseDatetime(j.repoUpdatedAt, fromIso))
  }

  /**
   * Defaults of `from_json`: an empty object gives empty names, branch
   * `main`, public, no dates and the id `""`; `github_id` wins over `id`,
   * and a numeric `id` is stored as its decimal text.
   */
  lemma ScmInfoFromJsonDefaults(fromIso: string -> Option<DateTime>, g: Field, n: nat)
    ensures ScmInfoFromJson(RepoJson(None, None, None, None, None, None, None, None), fromIso)
         == ScmInfo("", "", FStr(""), "main", false, None, None)
    ensures ScmInfoFromJson(RepoJson(None, None, Some(g), Some(FInt(n)), None, None, None, None), fromIso).id == g
    ensures ScmInfoFromJson(RepoJson(None, None, None, Some(FInt(n)), None, None, None, None), fromIso).id == FStr(NatToString(n))
  {
  }

  /** `Repo`. */
  class Repo {
    const scmInfo: Option<ScmInfo>
    var productName: string
    var repoOwners: seq<Owner>
    var isProduction: bool
    var ciStatus: CIStatus?
    var cdStatus: Option<CDStatus>
    var vulnerabilities: Vulnerabilities?
    var enforcementStatus: Option<EnforcementStatus>

    /** A new repository: owners default to `[]` and every status is unset. */
    constructor(scmInfo: Option<ScmInfo>, productName: string, repoOwners: Option<seq<Owner>>, isProduction: bool)
      ensures this.scmInfo == scmInfo && this.productName == productName
      ensures this.repoOwners == repoOwners.GetOr([]) && this.isProduction == isProduction
      ensures ciStatus == null && cdStatus.None? && vulnerabilities == null && enforcementStatus.None?
      ensures !HasCiStatus() && !HasVulnerabilities()
    {
      this.scmInfo := scmInfo;
      this.productName := productName;
      this.repoOwners := repoOwners.GetOr([]);
      this.isProduction := isProduction;
      ciStatus := null;
      cdStatus := None;
      vulnerabilities := null;
      enforcementStatus := None;
    }

    /** `from_json`: details from the object, no owners, not production, no statuses. */
    static method FromJson(j: RepoJson, productName: string, fromIso: string -> Option<DateTime>) returns (r: Repo)
      ensures fresh(r)
      ensures r.scmInfo == Some(ScmInfoFromJson(j, fromIso)) && r.productName == productName
      ensures r.repoOwners == [] && !r.isProduction
      ensures r.ciStatus == null && r.cdStatus.None? && r.vulnerabilities == null && r.enforcementStatus.None?
    {
      r := new Repo(Some(ScmInfoFromJson(j, fromIso)), productName, Some([]), false);
    }

    method UpdateCiStatus(c: CIStatus)
      modifies this`ciStatus
      ensures ciStatus == c && HasCiStatus()
      ensures HasVulnerabilities() == old(HasVulnerabilities())
      ensures productName == old(productName) && repoOwners == old(repoOwners)
      ensures isProduction == old(isProduction) && cdStatus == old(cdStatus)
      ensures vulnerabilities == old(vulnerabilities) && enforcementStatus == old(enforcementStatus)
    {
      ciStatus := c;
    }

    method UpdateVulnerabilities(v: Vulnerabilities)
      modifies this
      ensures vulnerabilities == v && HasVulnerabilities()
      ensures HasCiStatus() == old(HasCiStatus())
      ensures productName == old(productName) && repoOwners == old(repoOwners)
      ensures isProduction == old(isProduction) && cdStatus == old(cdStatus)
      ensures ciStatus == old(ciStatus) && enforcementStatus == old(enforcementStatus)
    {
      vulnerabilities := v;
    }

    method UpdateCdStatus(c: CDStatus)
      modifies this
      ensures cdStatus == Some(c)
      ensures productName == old(productName) && repoOwners == old(repoOwners)
      ensures isProduction == old(isProduction) && ciStatus == old(ciStatus)
      ensures vulnerabilities == old(vulnerabilities) && enforcementStatus == old(enforcementStatus)
    {
      cdStatus := Some(c);
    }

    method UpdateEnforcementStatus(e: EnforcementStatus)
      modifies this
      ensures enforcementStatus == Some(e)
      ensures productName == old(productName) && repoOwners == old(repoOwners)
      ensures isProduction == old(isProduction) && ciStatus == old(ciStatus)
      ensures vulnerabilities == old(vulnerabilities) && cdStatus == old(cdStatus)
    {
      enforcementStatus := Some(e);
    }

    /** `get_repository_name`; the source raises when there are no details. */
    function GetRepositoryName(): string
      requires scmInfo.Some?
    {
      scmInfo.value.repoName
    }

    function GetFullName(): string
      requires scmInfo.Some?
    {
      scmInfo.value.fullName
    }

    predicate IsPrivateRepo()
      requires scmInfo.Some?
    {
      scmInfo.value.isPrivate
    }

    function GetScmId(): Field
      requires scmInfo.Some?
    {
      scmInfo.value.id
    }

    function GetDefaultBranch(): string
      requires scmInfo.Some?
    {
      scmInfo.value.defaultBranch
    }

    predicate HasCiStatus()
      reads this
    {
      ciStatus != null
    }

    predicate HasVulnerabilities()
      reads this
    {
      vulnerabilities != null
    }

    /** The processors' guard `repo.scm_info and repo.scm_info.repo_name`. */
    predicate HasName()
    {
      scmInfo.Some? && scmInfo.value.repoName != ""
    }
  }

  /** A repository's fields other than its CI status, which the CI processors leave alone. */
  datatype NonCi = NonCi(productName: string, repoOwners: seq<Owner>, isProduction: bool, cdStatus: Option<CDStatus>,
                         vulnerabilities: Vulnerabilities?, enforcementStatus: Option<EnforcementStatus>)

  function NonCiOf(r: Repo): NonCi
    reads r
  {
    NonCi(r.productName, r.repoOwners, r.isProduction, r.cdStatus, r.vulnerabilities, r.enforcementStatus)
  }

  /** Between two states, a repository has kept every field except its CI status. */
  twostate predicate NonCiKept(r: Repo)
    reads r
  {
    r.productName == old(r.productName) && r.repoOwners == old(r.repoOwners) && r.isProduction == old(r.isProduction)
    && r.cdStatus == old(r.cdStatus) && r.vulnerabilities == old(r.vulnerabilities)
    && r.enforcementStatus == old(r.enforcementStatus)
  }

  /** The accessors read the details the repository was built from. */
  lemma RepoAccessors(r: Repo, s: ScmInfo)
    requires r.scmInfo == Some(s)
    ensures r.GetRepositoryName() == s.repoName && r.GetFullName() == s.fullName
    ensures r.GetScmId() == s.id && r.GetDefaultBranch() == s.defaultBranch
    ensures r.IsPrivateRepo() == s.isPrivate
    ensures r.HasName() <==> s.repoName != ""
  {
  }

  // ---------------------------------------------------------------------
  // lists of repositories, as the processors walk them

  /** The name under the guard `repo.scm_info and repo.scm_info.repo_name`, or None. */
  function RepoName(r: Repo): Option<string>
  {
    if r.HasName() then Some(r.scmInfo.value.repoName) else None
  }

  function RepoNames(repos: seq<Repo>): (ks: seq<Option<string>>)
    ensures |ks| == |repos|
    ensures forall i :: 0 <= i < |repos| ==> ks[i] == RepoName(repos[i])
    decreases |repos|
  {
    if |repos| == 0 then [] else RepoNames(repos[..|repos| - 1]) + [RepoName(repos[|repos| - 1])]
  }

  /** No repository appears twice. */
  predicate DistinctRepos(repos: seq<Repo>) {
    forall i, j :: 0 <= i < j < |repos| ==> repos[i] != repos[j]
  }

  function RepoSet(repos: seq<Repo>): set<Repo> {
    set j | 0 <= j < |repos| :: repos[j]
  }

  /** `repo.repo_owners = owners`, as the owner processors write it. */
  method SetRepoOwners(r: Repo, owners: seq<Owner>)
    modifies r`repoOwners
    ensures r.repoOwners == owners
  {
    r.repoOwners := owners;
  }
}
