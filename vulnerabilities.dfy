/**
 * Vulnerability data of a repository (vulnerabilities.py): deployed
 * artifacts with their per-severity counts, the dependency totals over all
 * artifacts, the "latest artifact per build" selection, SonarQube code
 * issues by type and severity, and the aggregate of both.
 */
module Vulns {
  import opened Wrappers
  import opened Text
  import opened Assoc

  // ---------------------------------------------------------------------
  // deployed artifacts

  /**
   * What an artifact's `repo_name` attribute holds: the repository name as
   * text, or a repository object when a caller passes one in its place.
   */
  datatype RepoRef = RepoText(text: string) | RepoObject(obj: object)

  /** `DeployedArtifact`; `artifactType` is "unknown" unless given. */
  datatype DeployedArtifact = DeployedArtifact(
    artifactKey: string,
    repoName: RepoRef,
    critical: int,
    high: int,
    medium: int,
    low: int,
    unknown: int,
    artifactType: string,
    buildName: Option<string>,
    buildNumber: Option<string>,
    createdAt: Option<string>,
    updatedAt: Option<string>,
    buildTimestamp: Option<string>,
    sha256: Option<string>,
    jfrogPath: Option<string>)
  {
    /** `is_latest`: the key ends with `:latest`. */
    predicate IsLatest() {
      EndsWith(artifactKey, ":latest")
    }

    function Total(): int {
      critical + high + medium + low + unknown
    }

    function HighAndCritical(): int {
      critical + high
    }

    predicate HasCritical() {
      critical > 0
    }

    predicate HasAny() {
      Total() > 0
    }

    predicate NonNegative() {
      critical >= 0 && high >= 0 && medium >= 0 && low >= 0 && unknown >= 0
    }
  }

  /**
   * With counts that are not negative, high-and-critical is part of the
   * total and a critical finding is a finding; `:latest` keys are the
   * latest ones.
   */
  lemma ArtifactSeverityFacts(a: DeployedArtifact)
    requires a.NonNegative()
    ensures 0 <= a.HighAndCritical() <= a.Total()
    ensures a.HasCritical() ==> a.HasAny()
    ensures a.HasAny() <==> a.critical > 0 || a.high > 0 || a.medium > 0 || a.low > 0 || a.unknown > 0
    ensures a.IsLatest() <==> |a.artifactKey| >= 7 && a.artifactKey[|a.artifactKey| - 7..] == ":latest"
  {
  }

  /** The five severity counters. */
  datatype Counts = Counts(critical: int, high: int, medium: int, low: int, unknown: int)

  const Zero := Counts(0, 0, 0, 0, 0)

  function AddCounts(c: Counts, a: DeployedArtifact): Counts {
    Counts(c.critical + a.critical, c.high + a.high, c.medium + a.medium, c.low + a.low, c.unknown + a.unknown)
  }

  function Plus(c: Counts, d: Counts): Counts {
    Counts(c.critical + d.critical, c.high + d.high, c.medium + d.medium, c.low + d.low, c.unknown + d.unknown)
  }

  /** Per-severity sums over a list of artifacts; empty gives zeros. */
  function Totals(arts: seq<DeployedArtifact>): Counts
    decreases |arts|
  {
    if |arts| == 0 then Zero else AddCounts(Totals(arts[..|arts| - 1]), arts[|arts| - 1])
  }

  /** The sums over two lists put together are the sums of the sums. */
  lemma {:induction false} TotalsAppend(a: seq<DeployedArtifact>, b: seq<DeployedArtifact>)
    ensures Totals(a + b) == Plus(Totals(a), Totals(b))
    decreases |b|
  {
    if |b| > 0 {
      var b' := b[..|b| - 1];
      assert (a + b)[..|a + b| - 1] == a + b';
      TotalsAppend(a, b');
    } else {
      assert a + b == a;
    }
  }

  /** Sums of counts that are not negative are not negative. */
  lemma {:induction false} TotalsNonNegative(arts: seq<DeployedArtifact>)
    requires forall i :: 0 <= i < |arts| ==> arts[i].NonNegative()
    ensures var t := Totals(arts); t.critical >= 0 && t.high >= 0 && t.medium >= 0 && t.low >= 0 && t.unknown >= 0
    decreases |arts|
  {
    if |arts| > 0 {
      TotalsNonNegative(arts[..|arts| - 1]);
      assert arts[|arts| - 1].NonNegative();
    }
  }

  /** With counts that are not negative, the critical sum is positive exactly when some artifact has a critical finding. */
  lemma {:induction false} CriticalTotalPositiveIff(arts: seq<DeployedArtifact>)
    requires forall i :: 0 <= i < |arts| ==> arts[i].NonNegative()
    ensures Totals(arts).critical >= 0
    ensures Totals(arts).critical > 0 <==> exists i :: 0 <= i < |arts| && arts[i].critical > 0
    decreases |arts|
  {
    if |arts| > 0 {
      var init := arts[..|arts| - 1];
      CriticalTotalPositiveIff(init);
      if exists i :: 0 <= i < |init| && init[i].critical > 0 {
        var i :| 0 <= i < |init| && init[i].critical > 0;
        assert arts[i].critical > 0;
      }
      if exists i :: 0 <= i < |arts| && arts[i].critical > 0 {
        var i :| 0 <= i < |arts| && arts[i].critical > 0;
        if i < |init| {
          assert init[i].critical > 0;
        }
      }
    }
  }

  /** The five counters added together. */
  function CountsSum(c: Counts): int {
    c.critical + c.high + c.medium + c.low + c.unknown
  }

  /** With counts that are not negative, the sum of all sums is positive exactly when some artifact has a finding. */
  lemma {:induction false} AnyTotalPositiveIff(arts: seq<DeployedArtifact>)
    requires forall i :: 0 <= i < |arts| ==> arts[i].NonNegative()
    ensures CountsSum(Totals(arts)) >= 0
    ensures CountsSum(Totals(arts)) > 0 <==> exists i :: 0 <= i < |arts| && arts[i].HasAny()
    decreases |arts|
  {
    if |arts| > 0 {
      var init := arts[..|arts| - 1];
      var last := arts[|arts| - 1];
      AnyTotalPositiveIff(init);
      assert CountsSum(Totals(arts)) == CountsSum(Totals(init)) + last.Total();
      if exists i :: 0 <= i < |init| && init[i].HasAny() {
        var i :| 0 <= i < |init| && init[i].HasAny();
        assert arts[i].HasAny();
      }
      if exists i :: 0 <= i < |arts| && arts[i].HasAny() {
        var i :| 0 <= i < |arts| && arts[i].HasAny();
        if i < |init| {
          assert init[i].HasAny();
        }
      }
    }
  }

  /**
   * `get_artifacts_by_repo_name`: the artifacts of one repository, in list
   * order; an artifact holding a repository object never equals the text.
   */
  function ArtifactsOfRepo(arts: seq<DeployedArtifact>, repoName: string): (r: seq<DeployedArtifact>)
    ensures |r| <= |arts|
    ensures forall i :: 0 <= i < |r| ==> r[i] in arts && r[i].repoName == RepoText(repoName)
    ensures forall i :: 0 <= i < |arts| && arts[i].repoName == RepoText(repoName) ==> arts[i] in r
    decreases |arts|
  {
    if |arts| == 0 then []
    else (if arts[0].repoName == RepoText(repoName) then [arts[0]] else []) + ArtifactsOfRepo(arts[1..], repoName)
  }

  // ---------------------------------------------------------------------
  // latest artifact per build

  /** `_normalize_build_name`: falsy names give None, others are stripped and lowercased. */
  function NormalizeBuildName(name: Option<string>): Option<string> {
    if name.None? || name.value == "" then None else Some(Lower(Strip(name.value)))
  }

  /**
   * Normalisation ignores case, and applying it again to a non-empty
   * normal form changes nothing. A name of only whitespace normalises to
   * the empty name, which normalises further to None.
   */
  lemma NormalizeProperties(s: string)
    ensures NormalizeBuildName(Some(Lower(s))) == NormalizeBuildName(Some(s))
    ensures NormalizeBuildName(Some(s)).Some? && NormalizeBuildName(Some(s)).value != "" ==>
      NormalizeBuildName(NormalizeBuildName(Some(s))) == NormalizeBuildName(Some(s))
    ensures s != "" && Strip(s) == "" ==> NormalizeBuildName(Some(s)) == Some("")
  {
    StripLowerCommute(s);
    var t := Strip(s);
    assert Lower(Lower(t)) == Lower(t);
    StripLowerCommute(t);
    StripShape(s);
    assert Strip(t) == t;
  }

  predicate IsCandidate(a: DeployedArtifact, norm: Option<string>) {
    NormalizeBuildName(a.buildName) == norm && a.buildTimestamp.Some? && a.buildTimestamp.value != ""
  }

  /** The candidates of `_get_latest_artifact`, in list order. */
  function Candidates(arts: seq<DeployedArtifact>, norm: Option<string>): (r: seq<DeployedArtifact>)
    ensures |r| <= |arts|
    ensures forall i :: 0 <= i < |r| ==> r[i] in arts && IsCandidate(r[i], norm)
    ensures forall i :: 0 <= i < |arts| && IsCandidate(arts[i], norm) ==> arts[i] in r
    decreases |arts|
  {
    if |arts| == 0 then []
    else (if IsCandidate(arts[0], norm) then [arts[0]] else []) + Candidates(arts[1..], norm)
  }

  function CandidatesFor(arts: seq<DeployedArtifact>, buildName: string): seq<DeployedArtifact> {
    Candidates(arts, NormalizeBuildName(Some(buildName)))
  }

  /** `int(a.build_timestamp)`, None where it raises. */
  function TimestampKey(a: DeployedArtifact): Option<int> {
    if a.buildTimestamp.Some? then ParseInt(a.buildTimestamp.value) else None
  }

  /** Python's `max`: the position of the first maximal element. */
  function FirstMaxIndex(keys: seq<int>): (i: nat)
    requires |keys| > 0
    ensures i < |keys|
    ensures forall j :: 0 <= j < |keys| ==> keys[j] <= keys[i]
    ensures forall j :: 0 <= j < i ==> keys[j] < keys[i]
    decreases |keys|
  {
    if |keys| == 1 then 0
    else
      var p := FirstMaxIndex(keys[..|keys| - 1]);
      if keys[|keys| - 1] > keys[p] then |keys| - 1 else p
  }

  predicate AllTimestampsParse(c: seq<DeployedArtifact>) {
    forall i :: 0 <= i < |c| ==> TimestampKey(c[i]).Some?
  }

  function TimestampKeys(c: seq<DeployedArtifact>): (keys: seq<int>)
    requires AllTimestampsParse(c)
    ensures |keys| == |c|
    ensures forall i :: 0 <= i < |c| ==> Some(keys[i]) == TimestampKey(c[i])
  {
    seq(|c|, i requires 0 <= i < |c| => TimestampKey(c[i]).value)
  }

  /**
   * `_get_latest_artifact`: among the candidates, the first one with the
   * largest integer timestamp; None without candidates; a timestamp that
   * `int()` rejects raises ValueError.
   */
  function LatestArtifact(arts: seq<DeployedArtifact>, buildName: string): Result<Option<DeployedArtifact>> {
    var c := CandidatesFor(arts, buildName);
    if |c| == 0 then Success(None)
    else if !AllTimestampsParse(c) then Failure("ValueError")
    else
      var keys := TimestampKeys(c);
      var i := FirstMaxIndex(keys);
      Success(Some(c[i]))
  }

  /**
   * No candidates gives None; a candidate whose timestamp `int()` rejects
   * raises; otherwise the result is the first candidate whose timestamp is
   * not smaller than any other.
   */
  lemma LatestArtifactSpec(arts: seq<DeployedArtifact>, buildName: string)
    ensures LatestArtifact(arts, buildName) == Success(None) <==> |CandidatesFor(arts, buildName)| == 0
    ensures LatestArtifact(arts, buildName).Failure? <==>
      |CandidatesFor(arts, buildName)| > 0 && !AllTimestampsParse(CandidatesFor(arts, buildName))
    ensures LatestArtifact(arts, buildName).Success? && LatestArtifact(arts, buildName).value.Some? ==>
      var c := CandidatesFor(arts, buildName);
      AllTimestampsParse(c) &&
      exists i :: (0 <= i < |c| && c[i] == LatestArtifact(arts, buildName).value.value
        && (forall j :: 0 <= j < |c| ==> TimestampKey(c[j]).value <= TimestampKey(c[i]).value)
        && (forall j :: 0 <= j < i ==> TimestampKey(c[j]).value < TimestampKey(c[i]).value))
  {
    var c := CandidatesFor(arts, buildName);
    if |c| > 0 && AllTimestampsParse(c) {
      var keys := TimestampKeys(c);
      var i := FirstMaxIndex(keys);
      assert c[i] == LatestArtifact(arts, buildName).value.value;
    }
  }

  /** The winner is a candidate: its build name normalises like the query, and it has a timestamp. */
  lemma LatestIsCandidate(arts: seq<DeployedArtifact>, buildName: string)
    requires LatestArtifact(arts, buildName).Success? && LatestArtifact(arts, buildName).value.Some?
    ensures LatestArtifact(arts, buildName).value.value in arts
    ensures IsCandidate(LatestArtifact(arts, buildName).value.value, NormalizeBuildName(Some(buildName)))
  {
    LatestArtifactSpec(arts, buildName);
    var c := CandidatesFor(arts, buildName);
    var a := LatestArtifact(arts, buildName).value.value;
    var i :| 0 <= i < |c| && c[i] == a;
    assert a in c;
  }

  /**
   * `_get_latest_artifacts_by_build`: a dictionary from each name that has
   * a latest artifact to that artifact; a ValueError stops the loop.
   */
  function LatestByBuild(arts: seq<DeployedArtifact>, names: seq<string>): Result<seq<(string, DeployedArtifact)>>
    decreases |names|
  {
    if |names| == 0 then Success([])
    else
      var prev := LatestByBuild(arts, names[..|names| - 1]);
      var last := names[|names| - 1];
      if prev.Failure? then prev
      else
        var l := LatestArtifact(arts, last);
        if l.Failure? then Failure(l.error)
        else if l.value.Some? then Success(Put(prev.value, last, l.value.value))
        else prev
  }

  /** The two counters the repository-level getters report. */
  datatype Severity = Critical | High

  function SeverityOf(a: DeployedArtifact, sev: Severity): int {
    match sev
    case Critical => a.critical
    case High => a.high
  }

  function SumSeverity(vals: seq<DeployedArtifact>, sev: Severity): int
    decreases |vals|
  {
    if |vals| == 0 then 0 else SumSeverity(vals[..|vals| - 1], sev) + SeverityOf(vals[|vals| - 1], sev)
  }

  /** Reference for the "multi" policy: per matched name, its latest artifact's count, or 0 without one. */
  function PerNameSum(arts: seq<DeployedArtifact>, names: seq<string>, sev: Severity): Result<int>
    decreases |names|
  {
    if |names| == 0 then Success(0)
    else
      var prev := PerNameSum(arts, names[..|names| - 1], sev);
      var l := LatestArtifact(arts, names[|names| - 1]);
      if prev.Failure? then prev
      else if l.Failure? then Failure(l.error)
      else Success(prev.value + (if l.value.Some? then SeverityOf(l.value.value, sev) else 0))
  }

  /** The dictionary's keys are matched names. */
  lemma {:induction false} LatestByBuildKeys(arts: seq<DeployedArtifact>, names: seq<string>)
    requires LatestByBuild(arts, names).Success?
    ensures forall i :: 0 <= i < |LatestByBuild(arts, names).value| ==> LatestByBuild(arts, names).value[i].0 in names
    decreases |names|
  {
    if |names| > 0 {
      var init := names[..|names| - 1];
      var prev := LatestByBuild(arts, init);
      LatestByBuildKeys(arts, init);
      var l := LatestArtifact(arts, names[|names| - 1]);
      if l.value.Some? {
        PutKeys(prev.value, names[|names| - 1], l.value.value);
        var r := Put(prev.value, names[|names| - 1], l.value.value);
        forall i | 0 <= i < |r| ensures r[i].0 in names {
          assert Keys(r)[i] == r[i].0;
          if i < |prev.value| {
            assert Keys(prev.value)[i] == prev.value[i].0;
            assert prev.value[i].0 in init;
          }
        }
      }
    }
  }

  /**
   * Over names without repeats (a set's elements), the "multi" sum is the
   * sum over the names of their latest artifact's count, and it fails
   * exactly when that reference fails.
   */
  lemma {:induction false} MultiSumIsPerNameSum(arts: seq<DeployedArtifact>, names: seq<string>, sev: Severity)
    requires forall i, j :: 0 <= i < j < |names| ==> names[i] != names[j]
    ensures LatestByBuild(arts, names).Failure? <==> PerNameSum(arts, names, sev).Failure?
    ensures LatestByBuild(arts, names).Success? ==>
      SumSeverity(Values(LatestByBuild(arts, names).value), sev) == PerNameSum(arts, names, sev).value
    decreases |names|
  {
    if |names| > 0 {
      var init := names[..|names| - 1];
      var last := names[|names| - 1];
      MultiSumIsPerNameSum(arts, init, sev);
      var prev := LatestByBuild(arts, init);
      var l := LatestArtifact(arts, last);
      if prev.Success? && l.Success? && l.value.Some? {
        assert last !in init;
        LatestByBuildKeys(arts, init);
        SumAfterNewName(prev.value, last, l.value.value, sev);
      }
    }
  }

  /** A name the dictionary does not have adds its artifact's count to the sum of values. */
  lemma SumAfterNewName(m: seq<(string, DeployedArtifact)>, name: string, a: DeployedArtifact, sev: Severity)
    requires forall i :: 0 <= i < |m| ==> m[i].0 != name
    ensures SumSeverity(Values(Put(m, name, a)), sev) == SumSeverity(Values(m), sev) + SeverityOf(a, sev)
  {
    PutNew(m, name, a);
    var vs := Values(m + [(name, a)]);
    assert vs[..|vs| - 1] == Values(m);
  }

  /**
   * `get_critical_count` / `get_high_count`: 0 without matched names; "mono"
   * reads the latest artifact of the first name in iteration order; "multi"
   * sums the latest artifacts of all names; any other type gives 0.
   */
  function GetCount(arts: seq<DeployedArtifact>, sev: Severity, publishType: string, matched: seq<string>): (r: Result<int>)
    ensures |matched| == 0 || (publishType != "mono" && publishType != "multi") ==> r == Success(0)
    ensures publishType == "mono" && |matched| > 0 ==>
      (r.Failure? <==> LatestArtifact(arts, matched[0]).Failure?)
  {
    if |matched| == 0 then Success(0)
    else if publishType == "mono" then
      var l := LatestArtifact(arts, matched[0]);
      if l.Failure? then Failure(l.error)
      else if l.value.Some? then Success(SeverityOf(l.value.value, sev))
      else Success(0)
    else if publishType == "multi" then
      var m := LatestByBuild(arts, matched);
      if m.Failure? then Failure(m.error) else Success(SumSeverity(Values(m.value), sev))
    else Success(0)
  }

  /** With one matched name the two policies agree. */
  lemma MonoAndMultiAgreeOnOneName(arts: seq<DeployedArtifact>, sev: Severity, name: string)
    ensures GetCount(arts, sev, "mono", [name]) == GetCount(arts, sev, "multi", [name])
  {
    var names := [name];
    assert names[..0] == [];
    assert LatestByBuild(arts, []) == Success([]);
    var l := LatestArtifact(arts, name);
    if l.Success? && l.value.Some? {
      var a := l.value.value;
      assert LatestByBuild(arts, names) == Success(Put([], name, a));
      assert Put([], name, a) == [(name, a)];
      var vs := Values([(name, a)]);
      assert vs == [a] && vs[..0] == [];
      assert SumSeverity(vs, sev) == SeverityOf(a, sev);
      assert GetCount(arts, sev, "multi", names) == Success(SumSeverity(vs, sev));
    }
  }

  /** The "multi" count equals the per-name reference sum. */
  lemma MultiCountIsPerNameSum(arts: seq<DeployedArtifact>, sev: Severity, matched: seq<string>)
    requires |matched| > 0
    requires forall i, j :: 0 <= i < j < |matched| ==> matched[i] != matched[j]
    ensures GetCount(arts, sev, "multi", matched) == PerNameSum(arts, matched, sev)
  {
    MultiSumIsPerNameSum(arts, matched, sev);
    if PerNameSum(arts, matched, sev).Failure? {
      PerNameSumError(arts, matched, sev);
      LatestByBuildError(arts, matched);
    }
  }

  /** The only error either fold produces is ValueError. */
  lemma {:induction false} PerNameSumError(arts: seq<DeployedArtifact>, names: seq<string>, sev: Severity)
    ensures PerNameSum(arts, names, sev).Failure? ==> PerNameSum(arts, names, sev).error == "ValueError"
    decreases |names|
  {
    if |names| > 0 {
      PerNameSumError(arts, names[..|names| - 1], sev);
    }
  }

  lemma {:induction false} LatestByBuildError(arts: seq<DeployedArtifact>, names: seq<string>)
    ensures LatestByBuild(arts, names).Failure? ==> LatestByBuild(arts, names).error == "ValueError"
    decreases |names|
  {
    if |names| > 0 {
      LatestByBuildError(arts, names[..|names| - 1]);
    }
  }

  // ---------------------------------------------------------------------
  // dependency totals

  /** `DependenciesVulnerabilities`: the artifact list and five counters. */
  class DependenciesVulnerabilities {
    var criticalCount: int
    var highCount: int
    var mediumCount: int
    var lowCount: int
    var unknownCount: int
    var artifacts: seq<DeployedArtifact>

    function Counters(): Counts
      reads this
    {
      Counts(criticalCount, highCount, mediumCount, lowCount, unknownCount)
    }

    /** The counters are the sums over all artifacts. */
    predicate CountersMatchArtifacts()
      reads this
    {
      Counters() == Totals(artifacts)
    }

    /** The given counters stand unless artifacts are given, which then decide them. */
    constructor(critical: int, high: int, medium: int, low: int, unknown: int, artifacts: Option<seq<DeployedArtifact>>)
      ensures this.artifacts == artifacts.GetOr([])
      ensures |this.artifacts| == 0 ==> Counters() == Counts(critical, high, medium, low, unknown)
      ensures |this.artifacts| > 0 ==> CountersMatchArtifacts()
    {
      criticalCount := critical;
      highCount := high;
      mediumCount := medium;
      lowCount := low;
      unknownCount := unknown;
      this.artifacts := artifacts.GetOr([]);
      new;
      if |this.artifacts| > 0 {
        UpdateCountersFromArtifacts();
      }
    }

    /** `_update_counters_from_artifacts`: each counter becomes its sum over all artifacts. */
    method UpdateCountersFromArtifacts()
      modifies this
      ensures artifacts == old(artifacts)
      ensures CountersMatchArtifacts()
    {
      if |artifacts| == 0 {
        criticalCount, highCount, mediumCount, lowCount, unknownCount := 0, 0, 0, 0, 0;
        return;
      }
      var acc := Zero;
      for i := 0 to |artifacts|
        invariant acc == Totals(artifacts[..i])
      {
        assert artifacts[..i + 1][..i] == artifacts[..i];
        acc := AddCounts(acc, artifacts[i]);
      }
      assert artifacts[..|artifacts|] == artifacts;
      criticalCount, highCount, mediumCount, lowCount, unknownCount := acc.critical, acc.high, acc.medium, acc.low, acc.unknown;
    }

    /**
     * `add_artifact`: the artifact goes last and the counters are the sums
     * over the whole new list; when they were already the sums, each grows
     * by the new artifact's count.
     */
    method AddArtifact(a: DeployedArtifact)
      modifies this
      ensures artifacts == old(artifacts) + [a]
      ensures CountersMatchArtifacts()
      ensures old(CountersMatchArtifacts()) ==> Counters() == AddCounts(old(Counters()), a)
    {
      artifacts := artifacts + [a];
      assert artifacts[..|artifacts| - 1] == old(artifacts);
      UpdateCountersFromArtifacts();
    }

    function TotalCount(): int
      reads this
    {
      criticalCount + highCount + mediumCount + lowCount + unknownCount
    }

    /** The artifacts' counts are not negative and the counters are their sums. */
    predicate SumsOfNonNegative()
      reads this
    {
      CountersMatchArtifacts() && forall i :: 0 <= i < |artifacts| ==> artifacts[i].NonNegative()
    }

    /** `get_high_and_critical_count`: with the counters as sums, part of the total. */
    function GetHighAndCriticalCount(): (n: int)
      reads this
      ensures CountersMatchArtifacts() ==> n == Totals(artifacts).critical + Totals(artifacts).high
      ensures SumsOfNonNegative() ==> 0 <= n <= TotalCount()
    {
      if SumsOfNonNegative() then TotalsNonNegative(artifacts); criticalCount + highCount
      else criticalCount + highCount
    }

    /** `has_critical_vulnerabilities`: with the counters as sums, some artifact has a critical finding. */
    predicate HasCriticalVulnerabilities()
      reads this
      ensures SumsOfNonNegative() ==>
        (HasCriticalVulnerabilities() <==> exists i :: 0 <= i < |artifacts| && artifacts[i].critical > 0)
    {
      if SumsOfNonNegative() then CriticalTotalPositiveIff(artifacts); criticalCount > 0
      else criticalCount > 0
    }

    /** `has_any_vulnerabilities`: with the counters as sums, some artifact has a finding. */
    predicate HasAnyVulnerabilities()
      reads this
      ensures SumsOfNonNegative() ==>
        (HasAnyVulnerabilities() <==> exists i :: 0 <= i < |artifacts| && artifacts[i].HasAny())
    {
      if SumsOfNonNegative() then AnyTotalPositiveIff(artifacts); TotalCount() > 0
      else TotalCount() > 0
    }

    /** `get_artifacts_by_repo_name`: the artifacts whose repository is that name, and all of them. */
    function GetArtifactsByRepoName(repoName: string): (r: seq<DeployedArtifact>)
      reads this
      ensures |r| <= |artifacts|
      ensures forall i :: 0 <= i < |r| ==> r[i] in artifacts && r[i].repoName == RepoText(repoName)
      ensures forall i :: 0 <= i < |artifacts| && artifacts[i].repoName == RepoText(repoName) ==> artifacts[i] in r
    {
      ArtifactsOfRepo(artifacts, repoName)
    }

    /**
     * `get_critical_count(repo_publish_artifacts_type, matched_build_names)`:
     * 0 without names or for an unknown type; "mono" reads the latest
     * artifact of the first name; "multi" over distinct names is the sum of
     * their latest artifacts' counts.
     */
    function GetCriticalCount(publishType: string, matched: seq<string>): (r: Result<int>)
      reads this
      ensures |matched| == 0 || (publishType != "mono" && publishType != "multi") ==> r == Success(0)
      ensures publishType == "mono" && |matched| > 0 ==> r == MonoCount(artifacts, Critical, matched[0])
      ensures publishType == "multi" && |matched| > 0 && DistinctNames(matched) ==> r == PerNameSum(artifacts, matched, Critical)
    {
      if publishType == "multi" && |matched| > 0 && DistinctNames(matched) then
        MultiCountIsPerNameSum(artifacts, Critical, matched); GetCount(artifacts, Critical, publishType, matched)
      else GetCount(artifacts, Critical, publishType, matched)
    }

    /** `get_high_count`: the same rules on the high counts. */
    function GetHighCount(publishType: string, matched: seq<string>): (r: Result<int>)
      reads this
      ensures |matched| == 0 || (publishType != "mono" && publishType != "multi") ==> r == Success(0)
      ensures publishType == "mono" && |matched| > 0 ==> r == MonoCount(artifacts, High, matched[0])
      ensures publishType == "multi" && |matched| > 0 && DistinctNames(matched) ==> r == PerNameSum(artifacts, matched, High)
    {
      if publishType == "multi" && |matched| > 0 && DistinctNames(matched) then
        MultiCountIsPerNameSum(artifacts, High, matched); GetCount(artifacts, High, publishType, matched)
      else GetCount(artifacts, High, publishType, matched)
    }
  }

  /** Names without repeats, as the elements of a set. */
  predicate DistinctNames(names: seq<string>) {
    forall i, j :: 0 <= i < j < |names| ==> names[i] != names[j]
  }

  /** The "mono" reading: the latest artifact's count, 0 without one, ValueError when `int()` fails. */
  function MonoCount(arts: seq<DeployedArtifact>, sev: Severity, name: string): Result<int> {
    var l := LatestArtifact(arts, name);
    if l.Failure? then Failure(l.error)
    else if l.value.Some? then Success(SeverityOf(l.value.value, sev))
    else Success(0)
  }

  predicate DepsIsEmpty(d: DependenciesVulnerabilities)
    reads d
  {
    d.artifacts == [] && d.Counters() == Zero
  }

  /** When the counters are the sums, a critical counter is positive exactly when some artifact has a critical finding. */
  lemma DepsCriticalIff(d: DependenciesVulnerabilities)
    requires d.CountersMatchArtifacts()
    requires forall i :: 0 <= i < |d.artifacts| ==> d.artifacts[i].NonNegative()
    ensures d.HasCriticalVulnerabilities() <==> exists i :: 0 <= i < |d.artifacts| && d.artifacts[i].critical > 0
  {
    CriticalTotalPositiveIff(d.artifacts);
  }

  // ---------------------------------------------------------------------
  // code issues

  /** Severity name to count, for one issue type. */
  type SeverityCounts = seq<(string, int)>

  /** `sum(counts.values())`. */
  function SumValues(m: SeverityCounts): int
    decreases |m|
  {
    if |m| == 0 then 0 else m[0].1 + SumValues(m[1..])
  }

  /** `counts.get('CRITICAL', 0) + counts.get('BLOCKER', 0)`. */
  function CriticalOf(m: SeverityCounts): int {
    GetOr(m, "CRITICAL", 0) + GetOr(m, "BLOCKER", 0)
  }

  /** A per-type figure summed over all issue types. */
  function SumOverTypes(m: seq<(string, SeverityCounts)>, f: SeverityCounts -> int): int
    decreases |m|
  {
    if |m| == 0 then 0 else f(m[0].1) + SumOverTypes(m[1..], f)
  }

  lemma {:induction false} SumOverTypesSnoc(m: seq<(string, SeverityCounts)>, e: (string, SeverityCounts), f: SeverityCounts -> int)
    ensures SumOverTypes(m + [e], f) == SumOverTypes(m, f) + f(e.1)
    decreases |m|
  {
    if |m| > 0 {
      assert (m + [e])[1..] == m[1..] + [e];
      SumOverTypesSnoc(m[1..], e, f);
    }
  }

  /**
   * Replacing one type's counts changes a sum over types by exactly the
   * difference between the new and the old counts' figure.
   */
  lemma {:induction false} SumOverTypesPut(m: seq<(string, SeverityCounts)>, t: string, c: SeverityCounts, f: SeverityCounts -> int)
    requires UniqueKeys(m)
    ensures SumOverTypes(Put(m, t, c), f) == SumOverTypes(m, f) - (if HasKey(m, t) then f(Get(m, t).value) else 0) + f(c)
    decreases |m|
  {
    if |m| > 0 {
      var rest := m[1..];
      assert UniqueKeys(rest) by {
        forall i, j | 0 <= i < j < |rest| ensures rest[i].0 != rest[j].0 {
          assert m[i + 1].0 != m[j + 1].0;
        }
      }
      if m[0].0 == t {
        forall i | 0 <= i < |rest| ensures rest[i].0 != t {
          assert rest[i] == m[i + 1];
        }
        assert HasKey(m, t) by { assert m[0].0 == t; }
        assert Put(m, t, c)[1..] == rest;
      } else {
        SumOverTypesPut(rest, t, c, f);
        assert Put(m, t, c)[1..] == Put(rest, t, c);
        assert HasKey(m, t) <==> HasKey(rest, t) by {
          if HasKey(m, t) {
            var i :| 0 <= i < |m| && m[i].0 == t;
            assert rest[i - 1].0 == t;
          }
          if HasKey(rest, t) {
            var i :| 0 <= i < |rest| && rest[i].0 == t;
            assert m[i + 1].0 == t;
          }
        }
        assert IndexOfKey(m, t) == 1 + IndexOfKey(rest, t);
      }
    }
  }

  /** Every count of every type is at least 0. */
  predicate AllCountsNonNegative(m: seq<(string, SeverityCounts)>) {
    forall i, j :: 0 <= i < |m| && 0 <= j < |m[i].1| ==> m[i].1[j].1 >= 0
  }

  lemma {:induction false} SumValuesNonNegative(m: SeverityCounts)
    requires forall j :: 0 <= j < |m| ==> m[j].1 >= 0
    ensures SumValues(m) >= 0
    decreases |m|
  {
    if |m| > 0 {
      SumValuesNonNegative(m[1..]);
    }
  }

  lemma GetOrNonNegative(m: SeverityCounts, k: string)
    requires forall j :: 0 <= j < |m| ==> m[j].1 >= 0
    ensures GetOr(m, k, 0) >= 0
  {
    var i := IndexOfKey(m, k);
    if i < |m| {
      assert m[i].1 >= 0;
    }
  }

  /** The two per-type figures are never negative on non-negative counts. */
  lemma FiguresNonNegative(m: seq<(string, SeverityCounts)>, i: int)
    requires AllCountsNonNegative(m) && 0 <= i < |m|
    ensures SumValues(m[i].1) >= 0 && CriticalOf(m[i].1) >= 0
  {
    var c := m[i].1;
    assert forall j :: 0 <= j < |c| ==> c[j].1 >= 0 by {
      forall j | 0 <= j < |c| ensures c[j].1 >= 0 {
        assert m[i].1[j].1 >= 0;
      }
    }
    SumValuesNonNegative(c);
    GetOrNonNegative(c, "CRITICAL");
    GetOrNonNegative(c, "BLOCKER");
  }

  lemma {:induction false} SumOverTypesNonNegative(m: seq<(string, SeverityCounts)>, f: SeverityCounts -> int)
    requires forall i :: 0 <= i < |m| ==> f(m[i].1) >= 0
    ensures SumOverTypes(m, f) >= 0
    decreases |m|
  {
    if |m| > 0 {
      SumOverTypesNonNegative(m[1..], f);
    }
  }

  /** With figures that are not negative, one type's figure is part of the sum over all types. */
  lemma {:induction false} TypeFigureAtMostSum(m: seq<(string, SeverityCounts)>, t: string, f: SeverityCounts -> int)
    requires forall i :: 0 <= i < |m| ==> f(m[i].1) >= 0
    requires HasKey(m, t)
    ensures 0 <= f(Get(m, t).value) <= SumOverTypes(m, f)
    decreases |m|
  {
    var rest := m[1..];
    forall i | 0 <= i < |rest| ensures f(rest[i].1) >= 0 {
      assert rest[i] == m[i + 1];
    }
    SumOverTypesNonNegative(rest, f);
    if m[0].0 != t {
      var i :| 0 <= i < |m| && m[i].0 == t;
      assert rest[i - 1].0 == t;
      TypeFigureAtMostSum(rest, t, f);
      assert IndexOfKey(m, t) == 1 + IndexOfKey(rest, t);
    }
  }

  /** Both figures of one type are bounded by their sums over all types. */
  lemma TypeFiguresAtMostSums(m: seq<(string, SeverityCounts)>, t: string)
    requires AllCountsNonNegative(m)
    ensures 0 <= SumValues(GetOr(m, t, [])) <= SumOverTypes(m, SumValues)
    ensures 0 <= CriticalOf(GetOr(m, t, [])) <= SumOverTypes(m, CriticalOf)
  {
    forall i | 0 <= i < |m| ensures SumValues(m[i].1) >= 0 && CriticalOf(m[i].1) >= 0 {
      FiguresNonNegative(m, i);
    }
    SumOverTypesNonNegative(m, SumValues);
    SumOverTypesNonNegative(m, CriticalOf);
    if HasKey(m, t) {
      TypeFigureAtMostSum(m, t, SumValues);
      TypeFigureAtMostSum(m, t, CriticalOf);
    } else {
      var empty: SeverityCounts := [];
      assert GetOr(empty, "CRITICAL", 0) == 0 && GetOr(empty, "BLOCKER", 0) == 0;
    }
  }

  /** `CodeIssues`: issue type to severity counts, and the number of secrets. */
  class CodeIssues {
    var issuesByType: seq<(string, SeverityCounts)>
    var secretsCount: int

    constructor(issuesByType: Option<seq<(string, SeverityCounts)>>, secretsCount: int)
      ensures this.issuesByType == issuesByType.GetOr([]) && this.secretsCount == secretsCount
    {
      this.issuesByType := issuesByType.GetOr([]);
      this.secretsCount := secretsCount;
    }

    /** `add_issue_type`: that type's counts are replaced, the others kept. */
    method AddIssueType(issueType: string, counts: SeverityCounts)
      modifies this
      ensures issuesByType == Put(old(issuesByType), issueType, counts)
      ensures Get(issuesByType, issueType) == Some(counts)
      ensures forall t :: t != issueType ==> Get(issuesByType, t) == Get(old(issuesByType), t)
      ensures secretsCount == old(secretsCount)
    {
      PutGet(issuesByType, issueType, counts, issueType);
      forall t | t != issueType
        ensures Get(Put(issuesByType, issueType, counts), t) == Get(issuesByType, t)
      {
        PutGet(issuesByType, issueType, counts, t);
      }
      issuesByType := Put(issuesByType, issueType, counts);
    }

    /** `get_issue_types`: the types present, one per entry, in insertion order. */
    function GetIssueTypes(): (r: seq<string>)
      reads this
      ensures |r| == |issuesByType|
      ensures forall i :: 0 <= i < |r| ==> r[i] == issuesByType[i].0
      ensures forall t :: t in r <==> HasKey(issuesByType, t)
    {
      forall t ensures t in Keys(issuesByType) <==> HasKey(issuesByType, t) {
        HasKeyInKeys(issuesByType, t);
      }
      Keys(issuesByType)
    }

    /** `get_counts_for_type`: the stored counts of a present type, `{}` for an absent one. */
    function GetCountsForType(issueType: string): (r: SeverityCounts)
      reads this
      ensures !HasKey(issuesByType, issueType) ==> r == []
      ensures HasKey(issuesByType, issueType) ==> Get(issuesByType, issueType) == Some(r)
    {
      GetOr(issuesByType, issueType, [])
    }

    /** `get_total_count_for_type`: 0 for an absent type, and on non-negative counts part of `get_total_count`. */
    function GetTotalCountForType(issueType: string): (n: int)
      reads this
      ensures !HasKey(issuesByType, issueType) ==> n == 0
      ensures AllCountsNonNegative(issuesByType) ==> 0 <= n <= SumOverTypes(issuesByType, SumValues)
    {
      if AllCountsNonNegative(issuesByType) then
        TypeFiguresAtMostSums(issuesByType, issueType); SumValues(GetCountsForType(issueType))
      else SumValues(GetCountsForType(issueType))
    }

    /** `get_critical_count_for_type`: 0 for an absent type, and on non-negative counts part of `get_critical_count`. */
    function GetCriticalCountForType(issueType: string): (n: int)
      reads this
      ensures !HasKey(issuesByType, issueType) ==> n == 0
      ensures AllCountsNonNegative(issuesByType) ==> 0 <= n <= SumOverTypes(issuesByType, CriticalOf)
    {
      if AllCountsNonNegative(issuesByType) then
        TypeFiguresAtMostSums(issuesByType, issueType); CriticalOf(GetCountsForType(issueType))
      else
        var empty: SeverityCounts := [];
        assert GetOr(empty, "CRITICAL", 0) == 0 && GetOr(empty, "BLOCKER", 0) == 0;
        CriticalOf(GetCountsForType(issueType))
    }

    /** `get_total_count`: all counts over all types. */
    method GetTotalCount() returns (total: int)
      ensures total == SumOverTypes(issuesByType, SumValues)
    {
      total := 0;
      for i := 0 to |issuesByType|
        invariant total == SumOverTypes(issuesByType[..i], SumValues)
      {
        assert issuesByType[..i + 1] == issuesByType[..i] + [issuesByType[i]];
        SumOverTypesSnoc(issuesByType[..i], issuesByType[i], SumValues);
        total := total + SumValues(issuesByType[i].1);
      }
      assert issuesByType[..|issuesByType|] == issuesByType;
    }

    /** `get_critical_count`: CRITICAL plus BLOCKER over all types. */
    method GetCriticalCount() returns (total: int)
      ensures total == SumOverTypes(issuesByType, CriticalOf)
    {
      total := 0;
      for i := 0 to |issuesByType|
        invariant total == SumOverTypes(issuesByType[..i], CriticalOf)
      {
        assert issuesByType[..i + 1] == issuesByType[..i] + [issuesByType[i]];
        SumOverTypesSnoc(issuesByType[..i], issuesByType[i], CriticalOf);
        total := total + CriticalOf(issuesByType[i].1);
      }
      assert issuesByType[..|issuesByType|] == issuesByType;
    }

    method HasIssues() returns (b: bool)
      ensures b <==> SumOverTypes(issuesByType, SumValues) > 0
    {
      var total := GetTotalCount();
      b := total > 0;
    }

    method HasCriticalIssues() returns (b: bool)
      ensures b <==> SumOverTypes(issuesByType, CriticalOf) > 0
    {
      var total := GetCriticalCount();
      b := total > 0;
    }

    /** The backward-compatible figures read the VULNERABILITY type only. */
    function VulnerabilityCount(): int
      reads this
    {
      GetTotalCountForType("VULNERABILITY")
    }

    function CriticalCount(): int
      reads this
    {
      GetCriticalCountForType("VULNERABILITY")
    }

    function HighCount(): int
      reads this
    {
      GetOr(GetCountsForType("VULNERABILITY"), "MAJOR", 0)
    }

    function MediumCount(): int
      reads this
    {
      GetOr(GetCountsForType("VULNERABILITY"), "MINOR", 0)
    }

    function LowCount(): int
      reads this
    {
      GetOr(GetCountsForType("VULNERABILITY"), "INFO", 0)
    }

    /**
     * `has_vulnerabilities`: only the VULNERABILITY type counts, so without
     * it the answer is no, and on non-negative counts a yes means some issue.
     */
    predicate HasVulnerabilities()
      reads this
      ensures !HasKey(issuesByType, "VULNERABILITY") ==> !HasVulnerabilities()
      ensures AllCountsNonNegative(issuesByType) && HasVulnerabilities() ==> SumOverTypes(issuesByType, SumValues) > 0
    {
      VulnerabilityCount() > 0
    }

    /** `has_critical_vulnerabilities`: the same, for CRITICAL and BLOCKER of that type. */
    predicate HasCriticalVulnerabilities()
      reads this
      ensures !HasKey(issuesByType, "VULNERABILITY") ==> !HasCriticalVulnerabilities()
      ensures AllCountsNonNegative(issuesByType) && HasCriticalVulnerabilities() ==> SumOverTypes(issuesByType, CriticalOf) > 0
    {
      CriticalCount() > 0
    }
  }

  /**
   * The severity-named figures for the VULNERABILITY type: critical is
   * CRITICAL plus BLOCKER, high MAJOR, medium MINOR, low INFO, each 0 when
   * absent; other types do not contribute.
   */
  lemma BackwardCompatibleCounts(ci: CodeIssues, counts: SeverityCounts)
    requires Get(ci.issuesByType, "VULNERABILITY") == Some(counts)
    ensures ci.CriticalCount() == GetOr(counts, "CRITICAL", 0) + GetOr(counts, "BLOCKER", 0)
    ensures ci.HighCount() == GetOr(counts, "MAJOR", 0)
    ensures ci.MediumCount() == GetOr(counts, "MINOR", 0)
    ensures ci.LowCount() == GetOr(counts, "INFO", 0)
  {
  }

  /** Without a VULNERABILITY entry every backward-compatible figure is 0. */
  lemma BackwardCompatibleCountsAbsent(ci: CodeIssues)
    requires !HasKey(ci.issuesByType, "VULNERABILITY")
    ensures ci.CriticalCount() == 0 && ci.HighCount() == 0 && ci.MediumCount() == 0 && ci.LowCount() == 0
    ensures !ci.HasVulnerabilities()
  {
    var empty: SeverityCounts := [];
    assert GetOr(empty, "CRITICAL", 0) == 0;
  }

  /** Replacing a type's counts moves the grand total by the difference of that type's totals. */
  lemma AddIssueTypeTotals(m: seq<(string, SeverityCounts)>, t: string, c: SeverityCounts)
    requires UniqueKeys(m)
    ensures SumOverTypes(Put(m, t, c), SumValues) == SumOverTypes(m, SumValues) - SumValues(GetOr(m, t, [])) + SumValues(c)
    ensures SumOverTypes(Put(m, t, c), CriticalOf) == SumOverTypes(m, CriticalOf) - CriticalOf(GetOr(m, t, [])) + CriticalOf(c)
  {
    SumOverTypesPut(m, t, c, SumValues);
    SumOverTypesPut(m, t, c, CriticalOf);
  }

  // ---------------------------------------------------------------------
  // aggregate

  /** `Vulnerabilities`: code issues and dependency vulnerabilities. */
  class Vulnerabilities {
    var codeIssues: CodeIssues
    var dependenciesVulns: DependenciesVulnerabilities?

    /** Missing parts become fresh empty objects. */
    constructor(codeIssues: CodeIssues?, dependenciesVulns: DependenciesVulnerabilities?)
      ensures codeIssues != null ==> this.codeIssues == codeIssues
      ensures codeIssues == null ==> fresh(this.codeIssues) && this.codeIssues.issuesByType == [] && this.codeIssues.secretsCount == 0
      ensures dependenciesVulns != null ==> this.dependenciesVulns == dependenciesVulns
      ensures dependenciesVulns == null ==> this.dependenciesVulns != null && fresh(this.dependenciesVulns) && DepsIsEmpty(this.dependenciesVulns)
    {
      var c: CodeIssues;
      if codeIssues == null {
        c := new CodeIssues(None, 0);
      } else {
        c := codeIssues;
      }
      var d: DependenciesVulnerabilities;
      if dependenciesVulns == null {
        d := new DependenciesVulnerabilities(0, 0, 0, 0, 0, None);
      } else {
        d := dependenciesVulns;
      }
      this.codeIssues := c;
      this.dependenciesVulns := d;
    }

    /** `get_total_vulnerability_count`: every code issue plus every dependency finding. */
    method GetTotalVulnerabilityCount() returns (total: int)
      requires dependenciesVulns != null
      ensures total == SumOverTypes(codeIssues.issuesByType, SumValues) + dependenciesVulns.TotalCount()
    {
      var code := codeIssues.GetTotalCount();
      total := code + dependenciesVulns.TotalCount();
    }

    /**
     * `get_critical_vulnerability_count`: critical code vulnerabilities plus
     * critical dependency findings; other issue types add nothing.
     */
    function GetCriticalVulnerabilityCount(): (n: int)
      requires dependenciesVulns != null
      reads this, codeIssues, dependenciesVulns
      ensures !HasKey(codeIssues.issuesByType, "VULNERABILITY") ==> n == dependenciesVulns.criticalCount
      ensures AllCountsNonNegative(codeIssues.issuesByType) && dependenciesVulns.SumsOfNonNegative() ==>
        0 <= n <= SumOverTypes(codeIssues.issuesByType, CriticalOf) + Totals(dependenciesVulns.artifacts).critical
    {
      if dependenciesVulns.SumsOfNonNegative() then
        CriticalTotalPositiveIff(dependenciesVulns.artifacts); codeIssues.CriticalCount() + dependenciesVulns.criticalCount
      else codeIssues.CriticalCount() + dependenciesVulns.criticalCount
    }

    /** `has_critical_vulnerabilities`: on non-negative counts, exactly when the critical count is positive. */
    predicate HasCriticalVulnerabilities()
      requires dependenciesVulns != null
      reads this, codeIssues, dependenciesVulns
      ensures AllCountsNonNegative(codeIssues.issuesByType) && dependenciesVulns.SumsOfNonNegative() ==>
        (HasCriticalVulnerabilities() <==> GetCriticalVulnerabilityCount() > 0)
    {
      if AllCountsNonNegative(codeIssues.issuesByType) && dependenciesVulns.SumsOfNonNegative() then
        CriticalTotalPositiveIff(dependenciesVulns.artifacts);
        codeIssues.HasCriticalVulnerabilities() || dependenciesVulns.HasCriticalVulnerabilities()
      else codeIssues.HasCriticalVulnerabilities() || dependenciesVulns.HasCriticalVulnerabilities()
    }

    /** `has_any_vulnerabilities`: any code issue (of any type) or any dependency finding. */
    method HasAnyVulnerabilities() returns (b: bool)
      requires dependenciesVulns != null
      ensures b <==> SumOverTypes(codeIssues.issuesByType, SumValues) > 0 || dependenciesVulns.TotalCount() > 0
    {
      b := codeIssues.HasIssues();
      if !b {
        b := dependenciesVulns.HasAnyVulnerabilities();
      }
    }
  }

  /** With counts that are not negative, the critical flag agrees with the critical count. */
  lemma CriticalFlagAgreesWithCount(v: Vulnerabilities)
    requires v.dependenciesVulns != null
    requires v.codeIssues.CriticalCount() >= 0 && v.dependenciesVulns.criticalCount >= 0
    ensures v.HasCriticalVulnerabilities() <==> v.GetCriticalVulnerabilityCount() > 0
  {
  }
}
