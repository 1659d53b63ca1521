/**
 * Matching of JFrog builds to the repositories of a product
 * (jfrog_ci_processor.py). A listed build is resolved to its build-info
 * record (from a details cache keyed by build name and sanitised start
 * time, or from the JFrog API), then matched to a repository either by its
 * SOURCE_REPO property or, when that is missing, by the longest repository
 * name that is a `-`-bounded prefix of the build name. Matched repositories
 * get their JFrog CI status set and their builds recorded in a
 * build-name-to-repository map.
 */
module JfrogCiProcessorModel {
  import opened Wrappers
  import opened Text
  import opened Assoc
  import opened CiStatus
  import opened RepoModel

  /** One entry of the project's build list; an absent key reads as `""`. */
  datatype BuildEntry = BuildEntry(uri: string, lastStarted: string)

  /** One entry of a build's `buildsNumbers`; an absent key reads as `""`. */
  datatype BuildRun = BuildRun(uri: string, started: string)

  /** Build metadata; `buildsNumbers` may be absent. */
  datatype Metadata = Metadata(buildsNumbers: Option<seq<BuildRun>>)

  /** The parts of `buildInfo` the matcher reads. */
  datatype BuildInfo = BuildInfo(sourceRepo: Option<string>, sourceBranch: Option<string>, url: Option<string>)

  /** A build-details document; `buildInfo` may be absent. */
  datatype BuildDetails = BuildDetails(buildInfo: Option<BuildInfo>)

  /**
   * The details cache and the two JFrog calls, as parameters. `None` stands
   * for a missing or unreadable cache file or a falsy document or response.
   */
  datatype Sources = Sources(
    cached: (string, string) -> Option<BuildDetails>,
    fetchMetadata: string -> Option<Metadata>,
    fetchDetails: (string, string) -> Option<BuildDetails>)

  // ---------------------------------------------------------------------
  // build names and cache file names

  /** The build name `uri[1:]` of a listed build that is considered at all. */
  function BuildNameOf(b: BuildEntry): (r: Option<string>)
    ensures r.Some? <==> StartsWith(b.uri, "/") && b.lastStarted != "" && |b.uri| > 1
    ensures r.Some? ==> b.uri == "/" + r.value && r.value != ""
  {
    if StartsWith(b.uri, "/") && b.lastStarted != "" && b.uri[1..] != "" then
      assert b.uri == b.uri[..1] + b.uri[1..];
      Some(b.uri[1..])
    else None
  }

  /** `lastStarted` with `:`, `.` and `+` replaced by `-`. */
  function SafeTimestamp(t: string): string {
    ReplaceChar(ReplaceChar(ReplaceChar(t, ':', '-'), '.', '-'), '+', '-')
  }

  function DetailsCacheFileName(t: string): string {
    "details_" + SafeTimestamp(t) + ".json"
  }

  /**
   * The sanitised timestamp has the same length, holds no `:`, `.` or `+`,
   * turns exactly those characters into `-` and keeps every other one.
   */
  lemma SafeTimestampSpec(t: string)
    ensures |SafeTimestamp(t)| == |t|
    ensures ':' !in SafeTimestamp(t) && '.' !in SafeTimestamp(t) && '+' !in SafeTimestamp(t)
    ensures forall i :: 0 <= i < |t| ==>
      SafeTimestamp(t)[i] == (if t[i] in {':', '.', '+'} then '-' else t[i])
    ensures DetailsCacheFileName(t) == "details_" + SafeTimestamp(t) + ".json"
  {
    var s := SafeTimestamp(t);
    forall i | 0 <= i < |s| ensures s[i] != ':' && s[i] != '.' && s[i] != '+' {
    }
  }

  lemma SafeTimestampExample()
    ensures SafeTimestamp("2024-05-01T10:00:00.000+0000") == "2024-05-01T10-00-00-000-0000"
  {
    var t := "2024-05-01T10:00:00.000+0000";
    var e := "2024-05-01T10-00-00-000-0000";
    SafeTimestampSpec(t);
    assert |SafeTimestamp(t)| == |e|;
    forall i | 0 <= i < |e| ensures SafeTimestamp(t)[i] == e[i] {
    }
  }

  // ---------------------------------------------------------------------
  // resolving a build to its build info

  function StartedKeys(runs: seq<BuildRun>): (ks: seq<string>)
    ensures |ks| == |runs|
    ensures forall i :: 0 <= i < |runs| ==> ks[i] == runs[i].started
  {
    seq(|runs|, i requires 0 <= i < |runs| => runs[i].started)
  }

  /** `max(builds_numbers, key=started)`: the first run with the greatest start time. */
  function LatestRun(runs: seq<BuildRun>): BuildRun
    requires |runs| > 0
  {
    runs[FirstMaxStr(StartedKeys(runs))]
  }

  /** The build number of a run: its uri without the leading `/`. */
  function RunNumber(run: BuildRun): Option<string> {
    if StartsWith(run.uri, "/") then Some(run.uri[1..]) else None
  }

  /** The details document the processor works with, or None when it skips the build. */
  function ResolveDetails(buildName: string, lastStarted: string, src: Sources): Option<BuildDetails> {
    var cached := src.cached(buildName, SafeTimestamp(lastStarted));
    if cached.Some? then cached
    else
      var md := src.fetchMetadata(buildName);
      if md.None? || md.value.buildsNumbers.None? || |md.value.buildsNumbers.value| == 0 then None
      else
        var run := LatestRun(md.value.buildsNumbers.value);
        if RunNumber(run).None? then None
        else src.fetchDetails(buildName, RunNumber(run).value)
  }

  /** The `buildInfo` of the resolved details, or None when nothing more happens. */
  function ResolveBuildInfo(buildName: string, lastStarted: string, src: Sources): Option<BuildInfo> {
    var d := ResolveDetails(buildName, lastStarted, src);
    if d.Some? then d.value.buildInfo else None
  }

  /**
   * A usable cache entry is taken as it is. Otherwise the metadata must list
   * at least one run; the run with the greatest start time (the first one on a
   * tie) must have a `/`-uri, and its number is what the details are fetched for.
   */
  lemma ResolveBuildInfoSpec(buildName: string, lastStarted: string, src: Sources)
    ensures src.cached(buildName, SafeTimestamp(lastStarted)).Some? ==>
      ResolveBuildInfo(buildName, lastStarted, src) == src.cached(buildName, SafeTimestamp(lastStarted)).value.buildInfo
    ensures src.cached(buildName, SafeTimestamp(lastStarted)).None? ==>
      var md := src.fetchMetadata(buildName);
      (md.None? || md.value.buildsNumbers.None? || md.value.buildsNumbers.value == [] ==>
        ResolveBuildInfo(buildName, lastStarted, src).None?)
    ensures src.cached(buildName, SafeTimestamp(lastStarted)).None? ==>
      var md := src.fetchMetadata(buildName);
      (md.Some? && md.value.buildsNumbers.Some? && md.value.buildsNumbers.value != [] ==>
        var runs := md.value.buildsNumbers.value;
        exists i :: 0 <= i < |runs| && runs[i] == LatestRun(runs)
          && (forall j :: 0 <= j < |runs| ==> !LexLess(runs[i].started, runs[j].started))
          && (forall j :: 0 <= j < i ==> LexLess(runs[j].started, runs[i].started))
          && (!StartsWith(runs[i].uri, "/") ==> ResolveBuildInfo(buildName, lastStarted, src).None?)
          && (StartsWith(runs[i].uri, "/") ==>
                var d := src.fetchDetails(buildName, runs[i].uri[1..]);
                ResolveBuildInfo(buildName, lastStarted, src) == (if d.Some? then d.value.buildInfo else None)))
  {
    var md := src.fetchMetadata(buildName);
    if src.cached(buildName, SafeTimestamp(lastStarted)).None? && md.Some? && md.value.buildsNumbers.Some? && md.value.buildsNumbers.value != [] {
      var runs := md.value.buildsNumbers.value;
      var i := FirstMaxStr(StartedKeys(runs));
      assert runs[i] == LatestRun(runs);
      assert forall j :: 0 <= j < |runs| ==> StartedKeys(runs)[j] == runs[j].started;
    }
  }

  // ---------------------------------------------------------------------
  // longest-prefix fallback

  /** `name` is a prefix of `buildName` followed by `-` or the end. */
  predicate IsBoundaryPrefix(name: string, buildName: string) {
    StartsWith(buildName, name) && (|name| == |buildName| || buildName[|name|] == '-')
  }

  predicate IsCandidate(name: string, buildName: string) {
    |name| > 0 && IsBoundaryPrefix(name, buildName)
  }

  predicate HasCandidate(buildName: string, names: set<string>) {
    exists n :: n in names && IsCandidate(n, buildName)
  }

  /** `name` is a longest candidate among `names`. */
  predicate IsLongest(name: string, buildName: string, names: set<string>) {
    name in names && IsCandidate(name, buildName)
    && forall m :: m in names && IsCandidate(m, buildName) ==> |m| <= |name|
  }

  /** Two prefixes of the same length are the same string, so the longest candidate is unique. */
  lemma LongestIsUnique(a: string, b: string, buildName: string, names: set<string>)
    requires IsLongest(a, buildName, names) && IsLongest(b, buildName, names)
    ensures a == b
  {
    assert |a| == |b|;
    assert a == buildName[..|a|] && b == buildName[..|b|];
  }

  lemma {:induction false} LongestExists(buildName: string, names: set<string>)
    requires HasCandidate(buildName, names)
    ensures exists n :: IsLongest(n, buildName, names)
    decreases |names|
  {
    var x :| x in names && IsCandidate(x, buildName);
    var rest := names - {x};
    if HasCandidate(buildName, rest) {
      LongestExists(buildName, rest);
      var y :| IsLongest(y, buildName, rest);
      if |x| <= |y| {
        assert IsLongest(y, buildName, names);
      } else {
        assert IsLongest(x, buildName, names);
      }
    } else {
      assert IsLongest(x, buildName, names);
    }
  }

  /** The fallback's answer: the longest candidate, if there is any. */
  ghost function BestPrefixOf(buildName: string, names: set<string>): Option<string> {
    if HasCandidate(buildName, names) then
      LongestExists(buildName, names);
      Some(var n :| IsLongest(n, buildName, names); n)
    else None
  }

  /** The fallback finds a longest candidate exactly when there is a candidate. */
  lemma BestPrefixSpec(buildName: string, names: set<string>, n: string)
    ensures BestPrefixOf(buildName, names).None? <==> !HasCandidate(buildName, names)
    ensures BestPrefixOf(buildName, names) == Some(n) <==> IsLongest(n, buildName, names)
  {
    if IsLongest(n, buildName, names) {
      LongestIsUnique(n, BestPrefixOf(buildName, names).value, buildName, names);
    }
  }

  /** With repositories `svc` and `svc-api`, build `svc-api-worker` goes to `svc-api`; `svcx` to none. */
  lemma BestPrefixExample()
    ensures BestPrefixOf("svc-api-worker", {"svc", "svc-api"}) == Some("svc-api")
    ensures BestPrefixOf("svcx", {"svc", "svc-api"}).None?
  {
    var names := {"svc", "svc-api"};
    assert "svc-api-worker"[..7] == "svc-api";
    assert IsCandidate("svc-api", "svc-api-worker");
    forall m | m in names && IsCandidate(m, "svc-api-worker") ensures |m| <= 7 {
    }
    BestPrefixSpec("svc-api-worker", names, "svc-api");
    assert "svcx"[..3] == "svc";
    assert !IsCandidate("svc", "svcx");
    assert !IsCandidate("svc-api", "svcx");
  }

  /**
   * The fallback loop: scans the product's repository names in the set's
   * iteration order and replaces the best match only on a strictly longer
   * candidate.
   */
  method LongestPrefixMatch(buildName: string, names: set<string>) returns (best: Option<string>)
    ensures best == BestPrefixOf(buildName, names)
  {
    best := None;
    var bestLength := 0;
    var rest := names;
    while rest != {}
      invariant rest <= names
      invariant best.None? ==> bestLength == 0 && !HasCandidate(buildName, names - rest)
      invariant best.Some? ==> bestLength == |best.value| && IsLongest(best.value, buildName, names - rest)
      decreases |rest|
    {
      var n :| n in rest;
      if StartsWith(buildName, n) && |n| > bestLength && (|n| == |buildName| || buildName[|n|] == '-') {
        best := Some(n);
        bestLength := |n|;
      }
      rest := rest - {n};
    }
    assert names - rest == names;
    if best.Some? {
      BestPrefixSpec(buildName, names, best.value);
    }
  }

  // ---------------------------------------------------------------------
  // the build loop as a fold

  datatype MatchType = SourceRepo | LongestPrefix

  /** One entry of `repo_matches` / `fallback_repo_matches`; `build_number` repeats the name. */
  datatype BuildMatch = BuildMatch(
    buildName: string, branch: Option<string>, jobUrl: Option<string>, started: string, matchType: MatchType)

  /**
   * The dictionaries and the set the build loop fills: metadata matches,
   * unmatched SOURCE_REPO values, fallback matches (each keyed by repository
   * name) and unmapped build names.
   */
  datatype MatchState = MatchState(
    repoMatches: seq<(string, seq<BuildMatch>)>,
    unmatched: seq<(string, seq<string>)>,
    fallback: seq<(string, seq<BuildMatch>)>,
    unmapped: set<string>)

  predicate Truthy(s: Option<string>) {
    s.Some? && s.value != ""
  }

  /** What one listed build does to the state, given the product's repository names. */
  ghost function StepBuild(st: MatchState, b: BuildEntry, src: Sources, names: set<string>): MatchState {
    var bn := BuildNameOf(b);
    if bn.None? then st
    else
      var info := ResolveBuildInfo(bn.value, b.lastStarted, src);
      if info.None? then st
      else
        var i := info.value;
        if Truthy(i.sourceRepo) then
          if i.sourceRepo.value in names then
            st.(repoMatches := AppendAt(st.repoMatches, i.sourceRepo.value,
                  BuildMatch(bn.value, i.sourceBranch, i.url, b.lastStarted, SourceRepo)))
          else
            st.(unmatched := AppendAt(st.unmatched, i.sourceRepo.value, bn.value))
        else
          var best := BestPrefixOf(bn.value, names);
          if best.Some? then
            st.(fallback := AppendAt(st.fallback, best.value,
                  BuildMatch(bn.value, None, i.url, b.lastStarted, LongestPrefix)))
          else
            st.(unmapped := st.unmapped + {bn.value})
  }

  /** The state after the whole build list, in order. */
  ghost function MatchAll(st: MatchState, builds: seq<BuildEntry>, src: Sources, names: set<string>): MatchState
    decreases |builds|
  {
    if |builds| == 0 then st
    else StepBuild(MatchAll(st, builds[..|builds| - 1], src, names), builds[|builds| - 1], src, names)
  }

  /** A build that ends up unmapped: resolved, no SOURCE_REPO, no fallback candidate. */
  ghost predicate IsUnmappedBuild(b: BuildEntry, src: Sources, names: set<string>) {
    BuildNameOf(b).Some?
    && ResolveBuildInfo(BuildNameOf(b).value, b.lastStarted, src).Some?
    && !Truthy(ResolveBuildInfo(BuildNameOf(b).value, b.lastStarted, src).value.sourceRepo)
    && !HasCandidate(BuildNameOf(b).value, names)
  }

  ghost function UnmappedNames(builds: seq<BuildEntry>, src: Sources, names: set<string>): set<string> {
    set i | 0 <= i < |builds| && IsUnmappedBuild(builds[i], src, names) :: BuildNameOf(builds[i]).value
  }

  /**
   * The unmapped set only grows, and exactly by the names of the builds
   * that were resolved, carry no SOURCE_REPO and have no fallback candidate.
   */
  lemma {:induction false} MatchAllUnmapped(st: MatchState, builds: seq<BuildEntry>, src: Sources, names: set<string>)
    ensures MatchAll(st, builds, src, names).unmapped == st.unmapped + UnmappedNames(builds, src, names)
    decreases |builds|
  {
    if |builds| > 0 {
      var init := builds[..|builds| - 1];
      var last := builds[|builds| - 1];
      MatchAllUnmapped(st, init, src, names);
      StepUnmapped(MatchAll(st, init, src, names), last, src, names);
      UnmappedNamesSnoc(builds, src, names);
    }
  }

  /** One build adds its name to the unmapped set exactly when it is an unmapped build. */
  lemma StepUnmapped(st: MatchState, b: BuildEntry, src: Sources, names: set<string>)
    ensures StepBuild(st, b, src, names).unmapped
         == st.unmapped + (if IsUnmappedBuild(b, src, names) then {BuildNameOf(b).value} else {})
  {
    if BuildNameOf(b).Some? {
      BestPrefixSpec(BuildNameOf(b).value, names, "");
    }
  }

  lemma UnmappedNamesSnoc(builds: seq<BuildEntry>, src: Sources, names: set<string>)
    requires |builds| > 0
    ensures var last := builds[|builds| - 1];
      UnmappedNames(builds, src, names)
      == UnmappedNames(builds[..|builds| - 1], src, names)
         + (if IsUnmappedBuild(last, src, names) then {BuildNameOf(last).value} else {})
  {
    var init := builds[..|builds| - 1];
    var last := builds[|builds| - 1];
    var u := UnmappedNames(builds, src, names);
    var u0 := UnmappedNames(init, src, names);
    forall x | x in u ensures x in u0 || (IsUnmappedBuild(last, src, names) && x == BuildNameOf(last).value) {
      var i :| 0 <= i < |builds| && IsUnmappedBuild(builds[i], src, names) && x == BuildNameOf(builds[i]).value;
      if i < |init| {
        assert init[i] == builds[i];
      }
    }
    forall x | x in u0 ensures x in u {
      var i :| 0 <= i < |init| && IsUnmappedBuild(init[i], src, names) && x == BuildNameOf(init[i]).value;
      assert builds[i] == init[i];
    }
    if IsUnmappedBuild(last, src, names) {
      assert BuildNameOf(last).value in u by {
        assert builds[|builds| - 1] == last;
      }
    }
  }

  /**
   * A resolved build with a SOURCE_REPO is a metadata match when the value
   * is a product repository name and is only listed as unmatched otherwise;
   * it never reaches the fallback or the unmapped set.
   */
  lemma StepWithSourceRepo(st: MatchState, b: BuildEntry, src: Sources, names: set<string>)
    requires BuildNameOf(b).Some?
    requires ResolveBuildInfo(BuildNameOf(b).value, b.lastStarted, src).Some?
    requires Truthy(ResolveBuildInfo(BuildNameOf(b).value, b.lastStarted, src).value.sourceRepo)
    ensures var s := ResolveBuildInfo(BuildNameOf(b).value, b.lastStarted, src).value.sourceRepo.value;
      var st2 := StepBuild(st, b, src, names);
      st2.fallback == st.fallback && st2.unmapped == st.unmapped
      && (s in names ==> (st2.unmatched == st.unmatched
            && Get(st2.repoMatches, s) == Some(GetOr(st.repoMatches, s, []) + [BuildMatch(BuildNameOf(b).value,
                 ResolveBuildInfo(BuildNameOf(b).value, b.lastStarted, src).value.sourceBranch,
                 ResolveBuildInfo(BuildNameOf(b).value, b.lastStarted, src).value.url, b.lastStarted, SourceRepo)])))
      && (s !in names ==> (st2.repoMatches == st.repoMatches
            && Get(st2.unmatched, s) == Some(GetOr(st.unmatched, s, []) + [BuildNameOf(b).value])))
  {
    var i := ResolveBuildInfo(BuildNameOf(b).value, b.lastStarted, src).value;
    var s := i.sourceRepo.value;
    PutGet(st.repoMatches, s, GetOr(st.repoMatches, s, []) + [BuildMatch(BuildNameOf(b).value, i.sourceBranch, i.url, b.lastStarted, SourceRepo)], s);
    PutGet(st.unmatched, s, GetOr(st.unmatched, s, []) + [BuildNameOf(b).value], s);
  }

  /**
   * A resolved build without SOURCE_REPO either joins the fallback list of
   * the longest candidate (with no branch) or goes to the unmapped set.
   */
  lemma StepWithoutSourceRepo(st: MatchState, b: BuildEntry, src: Sources, names: set<string>, n: string)
    requires BuildNameOf(b).Some?
    requires ResolveBuildInfo(BuildNameOf(b).value, b.lastStarted, src).Some?
    requires !Truthy(ResolveBuildInfo(BuildNameOf(b).value, b.lastStarted, src).value.sourceRepo)
    ensures var bn := BuildNameOf(b).value;
      var st2 := StepBuild(st, b, src, names);
      st2.repoMatches == st.repoMatches && st2.unmatched == st.unmatched
      && (IsLongest(n, bn, names) ==> (st2.unmapped == st.unmapped
            && Get(st2.fallback, n) == Some(GetOr(st.fallback, n, []) + [BuildMatch(bn, None,
                 ResolveBuildInfo(bn, b.lastStarted, src).value.url, b.lastStarted, LongestPrefix)])))
      && (!HasCandidate(bn, names) ==> st2.fallback == st.fallback && st2.unmapped == st.unmapped + {bn})
  {
    var bn := BuildNameOf(b).value;
    BestPrefixSpec(bn, names, n);
    if IsLongest(n, bn, names) {
      var i := ResolveBuildInfo(bn, b.lastStarted, src).value;
      PutGet(st.fallback, n, GetOr(st.fallback, n, []) + [BuildMatch(bn, None, i.url, b.lastStarted, LongestPrefix)], n);
    }
  }

  /** A build that is not considered, or whose details hold no build info, changes nothing. */
  lemma StepSkipped(st: MatchState, b: BuildEntry, src: Sources, names: set<string>)
    requires BuildNameOf(b).None? || ResolveBuildInfo(BuildNameOf(b).value, b.lastStarted, src).None?
    ensures StepBuild(st, b, src, names) == st
  {
  }

  // ---------------------------------------------------------------------
  // shape of the match dictionaries

  /** Every key is a product repository name, every list is non-empty and of the given kind. */
  ghost predicate MatchesWellFormed(m: seq<(string, seq<BuildMatch>)>, names: set<string>, t: MatchType) {
    forall k :: HasKey(m, k) ==> (k in names && |Get(m, k).value| > 0
      && forall j :: 0 <= j < |Get(m, k).value| ==> Get(m, k).value[j].matchType == t)
  }

  /** Every fallback match is recorded under the build's longest candidate. */
  ghost predicate FallbackKeysLongest(m: seq<(string, seq<BuildMatch>)>, names: set<string>) {
    forall k :: HasKey(m, k) ==>
      forall j :: 0 <= j < |Get(m, k).value| ==> IsLongest(k, Get(m, k).value[j].buildName, names)
  }

  ghost predicate StateWellFormed(st: MatchState, names: set<string>) {
    MatchesWellFormed(st.repoMatches, names, SourceRepo)
    && MatchesWellFormed(st.fallback, names, LongestPrefix)
    && FallbackKeysLongest(st.fallback, names)
    && UniqueKeys(st.repoMatches) && UniqueKeys(st.fallback)
  }

  lemma AppendAtWellFormed(m: seq<(string, seq<BuildMatch>)>, names: set<string>, t: MatchType, k: string, x: BuildMatch)
    requires MatchesWellFormed(m, names, t) && UniqueKeys(m)
    requires k in names && x.matchType == t
    ensures MatchesWellFormed(AppendAt(m, k, x), names, t) && UniqueKeys(AppendAt(m, k, x))
    ensures Get(AppendAt(m, k, x), k) == Some(GetOr(m, k, []) + [x])
    ensures forall k2 :: k2 != k ==> Get(AppendAt(m, k, x), k2) == Get(m, k2)
  {
    var v := GetOr(m, k, []) + [x];
    PutUnique(m, k, v);
    forall k2 ensures Get(AppendAt(m, k, x), k2) == if k2 == k then Some(v) else Get(m, k2) {
      PutGet(m, k, v, k2);
    }
  }

  lemma StepBuildWellFormed(st: MatchState, b: BuildEntry, src: Sources, names: set<string>)
    requires StateWellFormed(st, names)
    ensures StateWellFormed(StepBuild(st, b, src, names), names)
  {
    var bn := BuildNameOf(b);
    if bn.Some? {
      var info := ResolveBuildInfo(bn.value, b.lastStarted, src);
      if info.Some? {
        var i := info.value;
        if Truthy(i.sourceRepo) {
          if i.sourceRepo.value in names {
            AppendAtWellFormed(st.repoMatches, names, SourceRepo, i.sourceRepo.value,
              BuildMatch(bn.value, i.sourceBranch, i.url, b.lastStarted, SourceRepo));
          }
        } else {
          var best := BestPrefixOf(bn.value, names);
          if best.Some? {
            BestPrefixSpec(bn.value, names, best.value);
            var x := BuildMatch(bn.value, None, i.url, b.lastStarted, LongestPrefix);
            AppendAtWellFormed(st.fallback, names, LongestPrefix, best.value, x);
            var f: seq<(string, seq<BuildMatch>)> := AppendAt(st.fallback, best.value, x);
            forall k: string | HasKey(f, k)
              ensures forall j :: 0 <= j < |Get(f, k).value| ==> IsLongest(k, Get(f, k).value[j].buildName, names)
            {
              if k == best.value {
                var old_ := GetOr(st.fallback, k, []);
                assert Get(f, k).value == old_ + [x];
                forall j | 0 <= j < |Get(f, k).value| ensures IsLongest(k, Get(f, k).value[j].buildName, names) {
                  if j < |old_| {
                    assert Get(f, k).value[j] == old_[j];
                    assert HasKey(st.fallback, k);
                  }
                }
              } else {
                assert Get(f, k) == Get(st.fallback, k);
              }
            }
          }
        }
      }
    }
  }

  lemma {:induction false} MatchAllWellFormed(st: MatchState, builds: seq<BuildEntry>, src: Sources, names: set<string>)
    requires StateWellFormed(st, names)
    ensures StateWellFormed(MatchAll(st, builds, src, names), names)
    decreases |builds|
  {
    if |builds| > 0 {
      MatchAllWellFormed(st, builds[..|builds| - 1], src, names);
      StepBuildWellFormed(MatchAll(st, builds[..|builds| - 1], src, names), builds[|builds| - 1], src, names);
    }
  }

  lemma EmptyStateWellFormed(unmapped: set<string>, names: set<string>)
    ensures StateWellFormed(MatchState([], [], [], unmapped), names)
  {
  }

  // ---------------------------------------------------------------------
  // the call to `set_exists` as written

  /**
   * Python's binding of a call to `JfrogCIStatus.set_exists(self, exists)`:
   * it binds only when the one parameter is given exactly once, by
   * position or as `exists=`; every other mix of arguments raises TypeError.
   */
  function SetExistsCallError(positional: nat, keywords: seq<string>): (e: Option<string>)
    ensures e.None? <==> (positional == 1 && keywords == []) || (positional == 0 && keywords == ["exists"])
    ensures e.Some? ==> e.value == "TypeError"
  {
    if (positional == 1 && keywords == []) || (positional == 0 && keywords == ["exists"]) then None
    else Some("TypeError")
  }

  /** The exceptions the handler of `process_ci_data` turns into a zero result. */
  const CaughtByProcessCiData: set<string> := {"ImportError", "KeyError", "ValueError"}

  /**
   * As written, the update of a matched repository calls `set_exists` with
   * one positional and four keyword arguments. That raises TypeError,
   * which the handler of `process_ci_data` does not catch, so the first
   * matched repository aborts the whole call.
   */
  lemma SetExistsAsWrittenRaises()
    ensures SetExistsCallError(1, ["branch", "job_url", "matched_build_names", "build_name_mapping_methods"])
         == Some("TypeError")
    ensures SetExistsCallError(1, []) == None
    ensures "TypeError" !in CaughtByProcessCiData
  {
  }

  // ---------------------------------------------------------------------
  // metadata and fallback matches together

  /** `all_repo_matches`: the metadata matches, then each fallback list appended under its key. */
  function Combined(rm: seq<(string, seq<BuildMatch>)>, fb: seq<(string, seq<BuildMatch>)>): seq<(string, seq<BuildMatch>)>
    decreases |fb|
  {
    if |fb| == 0 then rm
    else
      var c := Combined(rm, fb[..|fb| - 1]);
      var last := fb[|fb| - 1];
      Put(c, last.0, GetOr(c, last.0, []) + last.1)
  }

  /**
   * Under every key, the combined dictionary holds the metadata matches
   * followed by the fallback matches; it has exactly the keys of the two.
   */
  lemma {:induction false} CombinedGet(rm: seq<(string, seq<BuildMatch>)>, fb: seq<(string, seq<BuildMatch>)>, k: string)
    requires UniqueKeys(rm) && UniqueKeys(fb)
    ensures UniqueKeys(Combined(rm, fb))
    ensures HasKey(Combined(rm, fb), k) <==> HasKey(rm, k) || HasKey(fb, k)
    ensures GetOr(Combined(rm, fb), k, []) == GetOr(rm, k, []) + GetOr(fb, k, [])
    decreases |fb|
  {
    if |fb| == 0 {
      assert !HasKey(fb, k);
    } else {
      var init := fb[..|fb| - 1];
      var last := fb[|fb| - 1];
      assert fb == init + [last];
      assert UniqueKeys(init) by {
        forall i, j | 0 <= i < j < |init| ensures init[i].0 != init[j].0 {
          assert init[i] == fb[i] && init[j] == fb[j];
        }
      }
      assert !HasKey(init, last.0) by {
        forall i | 0 <= i < |init| ensures init[i].0 != last.0 {
          assert init[i] == fb[i];
        }
      }
      var c := Combined(rm, init);
      CombinedGet(rm, init, k);
      CombinedGet(rm, init, last.0);
      PutUnique(c, last.0, GetOr(c, last.0, []) + last.1);
      PutGet(c, last.0, GetOr(c, last.0, []) + last.1, k);
      GetSnoc(init, last.0, last.1, k);
    }
  }

  /** The loop of `_load_metadata_based` that builds `all_repo_matches`. */
  method CombineMatches(rm: seq<(string, seq<BuildMatch>)>, fb: seq<(string, seq<BuildMatch>)>)
      returns (all: seq<(string, seq<BuildMatch>)>)
    requires UniqueKeys(rm) && UniqueKeys(fb)
    ensures all == Combined(rm, fb)
    ensures UniqueKeys(all)
    ensures forall k :: (HasKey(all, k) <==> HasKey(rm, k) || HasKey(fb, k))
    ensures forall k :: GetOr(all, k, []) == GetOr(rm, k, []) + GetOr(fb, k, [])
  {
    all := rm;
    for i := 0 to |fb|
      invariant all == Combined(rm, fb[..i])
    {
      assert fb[..i + 1][..i] == fb[..i];
      all := Put(all, fb[i].0, GetOr(all, fb[i].0, []) + fb[i].1);
    }
    assert fb[..|fb|] == fb;
    forall k ensures UniqueKeys(all) && (HasKey(all, k) <==> HasKey(rm, k) || HasKey(fb, k))
        && GetOr(all, k, []) == GetOr(rm, k, []) + GetOr(fb, k, []) {
      CombinedGet(rm, fb, k);
    }
    CombinedGet(rm, fb, "");
  }

  /** Every list of the dictionary is non-empty. */
  ghost predicate NonEmptyLists(all: seq<(string, seq<BuildMatch>)>) {
    forall k :: HasKey(all, k) ==> |Get(all, k).value| > 0
  }

  /** Every key of the combined dictionary is a repository name, and none of its lists is empty. */
  ghost predicate AllMatchesWellFormed(all: seq<(string, seq<BuildMatch>)>, names: set<string>) {
    UniqueKeys(all) && NonEmptyLists(all)
    && forall k :: HasKey(all, k) ==> (k in names
      && forall j :: 0 <= j < |Get(all, k).value| ==>
           (Get(all, k).value[j].matchType == SourceRepo
            || IsLongest(k, Get(all, k).value[j].buildName, names)))
  }

  /**
   * The combined dictionary keeps the shape of the two it joins: its
   * keys are repository names, its lists are non-empty, and each match is
   * a metadata match or a fallback match under the build's longest
   * candidate.
   */
  lemma CombinedWellFormed(st: MatchState, names: set<string>)
    requires StateWellFormed(st, names)
    ensures AllMatchesWellFormed(Combined(st.repoMatches, st.fallback), names)
  {
    var all: seq<(string, seq<BuildMatch>)> := Combined(st.repoMatches, st.fallback);
    CombinedGet(st.repoMatches, st.fallback, "");
    forall k: string | HasKey(all, k)
      ensures k in names && |Get(all, k).value| > 0
      ensures forall j :: 0 <= j < |Get(all, k).value| ==>
           (Get(all, k).value[j].matchType == SourceRepo
            || IsLongest(k, Get(all, k).value[j].buildName, names))
    {
      CombinedGet(st.repoMatches, st.fallback, k);
      var a: seq<BuildMatch> := GetOr(st.repoMatches, k, []);
      var b: seq<BuildMatch> := GetOr(st.fallback, k, []);
      assert Get(all, k).value == a + b;
      forall j | 0 <= j < |a + b|
        ensures (a + b)[j].matchType == SourceRepo || IsLongest(k, (a + b)[j].buildName, names)
      {
        if j < |a| {
          assert (a + b)[j] == a[j];
        } else {
          assert (a + b)[j] == b[j - |a|];
        }
      }
    }
  }

  // ---------------------------------------------------------------------
  // what a matched repository records

  /** `build_names`: the names of a repository's matched builds. */
  function MatchedNames(ms: seq<BuildMatch>): set<string> {
    set j | 0 <= j < |ms| :: ms[j].buildName
  }

  /** The start times of the matches, the key of `max`. */
  function Starteds(ms: seq<BuildMatch>): (ts: seq<string>)
    ensures |ts| == |ms|
    ensures forall j :: 0 <= j < |ms| ==> ts[j] == ms[j].started
  {
    seq(|ms|, j requires 0 <= j < |ms| => ms[j].started)
  }

  /** `max(builds_for_repo, key=started)`: the first match with the greatest start time. */
  function LatestMatch(ms: seq<BuildMatch>): BuildMatch
    requires |ms| > 0
  {
    ms[FirstMaxStr(Starteds(ms))]
  }

  /** The latest match is a member started no earlier than any other and later than every one before it. */
  lemma LatestMatchSpec(ms: seq<BuildMatch>)
    requires |ms| > 0
    ensures exists i :: (0 <= i < |ms| && ms[i] == LatestMatch(ms)
      && (forall j :: 0 <= j < |ms| ==> !LexLess(ms[i].started, ms[j].started))
      && (forall j :: 0 <= j < i ==> LexLess(ms[j].started, ms[i].started)))
  {
    var i := FirstMaxStr(Starteds(ms));
    assert forall j :: 0 <= j < |ms| ==> !LexLess(Starteds(ms)[i], Starteds(ms)[j]);
    assert ms[i] == LatestMatch(ms);
  }

  /** The text recorded for a match type. */
  function MethodName(t: MatchType): string {
    match t
    case SourceRepo => "source_repo"
    case LongestPrefix => "longest_prefix"
  }

  /** `build_name_mapping_methods`: for each matched name, the method of its last match. */
  function MappingMethods(ms: seq<BuildMatch>): map<string, string>
    decreases |ms|
  {
    if |ms| == 0 then map[]
    else MappingMethods(ms[..|ms| - 1])[ms[|ms| - 1].buildName := MethodName(ms[|ms| - 1].matchType)]
  }

  /** The loop of `_load_metadata_based` that fills `build_name_mapping_methods`. */
  method BuildMappingMethods(ms: seq<BuildMatch>) returns (m: map<string, string>)
    ensures m == MappingMethods(ms)
  {
    m := map[];
    for i := 0 to |ms|
      invariant m == MappingMethods(ms[..i])
    {
      assert ms[..i + 1][..i] == ms[..i];
      m := m[ms[i].buildName := MethodName(ms[i].matchType)];
    }
    assert ms[..|ms|] == ms;
  }

  /** Match `j` is the last one for the build name `bn`. */
  predicate LastMatchOf(ms: seq<BuildMatch>, j: int, bn: string) {
    0 <= j < |ms| && ms[j].buildName == bn && forall j2 :: j < j2 < |ms| ==> ms[j2].buildName != bn
  }

  lemma MatchedNamesSnoc(ms: seq<BuildMatch>)
    requires |ms| > 0
    ensures MatchedNames(ms) == MatchedNames(ms[..|ms| - 1]) + {ms[|ms| - 1].buildName}
  {
    var init := ms[..|ms| - 1];
    forall x | x in MatchedNames(ms) ensures x in MatchedNames(init) + {ms[|ms| - 1].buildName} {
      var j :| 0 <= j < |ms| && ms[j].buildName == x;
      if j < |init| {
        assert init[j] == ms[j];
      }
    }
    forall x | x in MatchedNames(init) ensures x in MatchedNames(ms) {
      var j :| 0 <= j < |init| && init[j].buildName == x;
      assert ms[j] == init[j];
    }
    assert ms[|ms| - 1].buildName in MatchedNames(ms);
  }

  /** The methods dictionary has exactly the matched names as keys. */
  lemma {:induction false} MappingMethodsKeys(ms: seq<BuildMatch>)
    ensures MappingMethods(ms).Keys == MatchedNames(ms)
    decreases |ms|
  {
    if |ms| > 0 {
      MappingMethodsKeys(ms[..|ms| - 1]);
      MatchedNamesSnoc(ms);
    }
  }

  /** Each name maps to the method of its last match. */
  lemma {:induction false} MappingMethodsLast(ms: seq<BuildMatch>, bn: string)
    requires bn in MappingMethods(ms)
    ensures exists j :: LastMatchOf(ms, j, bn) && MappingMethods(ms)[bn] == MethodName(ms[j].matchType)
    decreases |ms|
  {
    var n := |ms| - 1;
    if ms[n].buildName == bn {
      assert LastMatchOf(ms, n, bn);
    } else {
      var init := ms[..n];
      MappingMethodsLast(init, bn);
      var j :| LastMatchOf(init, j, bn) && MappingMethods(init)[bn] == MethodName(init[j].matchType);
      assert ms[j] == init[j];
      forall j2 | j < j2 < |ms| ensures ms[j2].buildName != bn {
        if j2 < n {
          assert ms[j2] == init[j2];
        }
      }
      assert LastMatchOf(ms, j, bn);
    }
  }

  /**
   * The methods dictionary has exactly the matched names as keys; each
   * name maps to the method of its last match, which is `source_repo` or
   * `longest_prefix` (the `not_mapped` default cannot arise).
   */
  lemma MappingMethodsSpec(ms: seq<BuildMatch>)
    ensures MappingMethods(ms).Keys == MatchedNames(ms)
    ensures forall bn :: bn in MappingMethods(ms) ==>
      exists j :: LastMatchOf(ms, j, bn) && MappingMethods(ms)[bn] == MethodName(ms[j].matchType)
    ensures forall bn :: bn in MappingMethods(ms) ==>
      (MappingMethods(ms)[bn] == "source_repo" || MappingMethods(ms)[bn] == "longest_prefix")
  {
    MappingMethodsKeys(ms);
    forall bn | bn in MappingMethods(ms)
      ensures exists j :: LastMatchOf(ms, j, bn) && MappingMethods(ms)[bn] == MethodName(ms[j].matchType)
    {
      MappingMethodsLast(ms, bn);
    }
  }

  /** One line of the status update the matcher intends for a repository. */
  datatype StatusUpdate = StatusUpdate(
    repo: Repo,
    branch: Option<string>,
    jobUrl: Option<string>,
    matchedBuildNames: set<string>,
    mappingMethods: map<string, string>)

  /** The update for a repository with these matches: branch and job URL of the latest match. */
  function IntendedUpdate(r: Repo, ms: seq<BuildMatch>): StatusUpdate
    requires |ms| > 0
  {
    StatusUpdate(r, LatestMatch(ms).branch, LatestMatch(ms).jobUrl, MatchedNames(ms), MappingMethods(ms))
  }

  // ---------------------------------------------------------------------
  // the repositories of the product

  /** `product_repo_names`. */
  function NamesOf(ks: seq<Option<string>>): set<string> {
    set i | 0 <= i < |ks| && ks[i].Some? :: ks[i].value
  }

  lemma NamesOfSnoc(ks: seq<Option<string>>, k: Option<string>)
    ensures NamesOf(ks + [k]) == NamesOf(ks) + (if k.Some? then {k.value} else {})
  {
    var a := NamesOf(ks + [k]);
    forall x | x in a ensures x in NamesOf(ks) + (if k.Some? then {k.value} else {}) {
      var i :| 0 <= i < |ks + [k]| && (ks + [k])[i].Some? && x == (ks + [k])[i].value;
      if i < |ks| {
        assert (ks + [k])[i] == ks[i];
      }
    }
    forall x | x in NamesOf(ks) ensures x in a {
      var i :| 0 <= i < |ks| && ks[i].Some? && x == ks[i].value;
      assert (ks + [k])[i] == ks[i];
    }
    if k.Some? {
      assert (ks + [k])[|ks|] == k;
    }
  }

  /** The loop of `_load_metadata_based` that collects `product_repo_names`. */
  method CollectRepoNames(repos: seq<Repo>) returns (names: set<string>)
    ensures names == NamesOf(RepoNames(repos))
    ensures forall n :: n in names <==> exists i :: 0 <= i < |repos| && RepoName(repos[i]) == Some(n)
  {
    names := {};
    ghost var ks := RepoNames(repos);
    for i := 0 to |repos|
      invariant names == NamesOf(ks[..i])
    {
      assert ks[..i + 1] == ks[..i] + [ks[i]];
      NamesOfSnoc(ks[..i], ks[i]);
      if repos[i].scmInfo.Some? && repos[i].scmInfo.value.repoName != "" {
        names := names + {repos[i].scmInfo.value.repoName};
      }
    }
    assert ks[..|repos|] == ks;
    forall n ensures n in names ==> exists i :: 0 <= i < |repos| && RepoName(repos[i]) == Some(n) {
      if n in names {
        var i :| 0 <= i < |ks| && ks[i].Some? && n == ks[i].value;
        assert RepoName(repos[i]) == Some(n);
      }
    }
  }

  /** A repository with a name under which the combined dictionary has matches. */
  predicate Matched(k: Option<string>, all: seq<(string, seq<BuildMatch>)>) {
    k.Some? && HasKey(all, k.value)
  }

  /** The JFrog status fields, as a value. */
  datatype JfrogView = JfrogView(
    isExist: bool,
    branch: Option<string>,
    ciPlatform: Option<string>,
    jobUrl: Option<string>,
    deployedArtifacts: seq<string>)

  function ViewOf(j: JfrogCIStatus): JfrogView
    reads j
  {
    JfrogView(j.isExist, j.branch, j.ciPlatform, j.jobUrl, j.deployedArtifacts)
  }

  /** The fields of a freshly made `JfrogCIStatus()`. */
  const DefaultView: JfrogView := JfrogView(false, None, None, None, [])

  function JfrogOf(r: Repo): JfrogCIStatus?
    reads r
  {
    if r.ciStatus == null then null else r.ciStatus.jfrogStatus
  }

  /** The JFrog fields a repository's update starts from: its own, or a default status's. */
  function ViewBefore(r: Repo): JfrogView
    reads r, JfrogOf(r)
  {
    if r.ciStatus == null then DefaultView else ViewOf(r.ciStatus.jfrogStatus)
  }

  /** The JFrog fields after the update: a matched repository gets existence, branch and job URL. */
  function Updated(v: JfrogView, k: Option<string>, all: seq<(string, seq<BuildMatch>)>): JfrogView
    requires NonEmptyLists(all)
  {
    if Matched(k, all) then
      var latest := LatestMatch(GetOr(all, k.value, []));
      v.(isExist := true, branch := latest.branch, jobUrl := latest.jobUrl)
    else v
  }

  /** The intended status update of one repository, if it is matched. */
  function StepUpdate(r: Repo, k: Option<string>, all: seq<(string, seq<BuildMatch>)>): Option<StatusUpdate>
    requires NonEmptyLists(all)
  {
    if Matched(k, all) then Some(IntendedUpdate(r, GetOr(all, k.value, []))) else None
  }

  /** `build_name -> repo` for every name in `s`. */
  function MapTo(s: set<string>, r: Repo): map<string, Repo> {
    map bn | bn in s :: r
  }

  /** The build-name map after one repository: its matched names now point at it. */
  function StepMap(m: map<string, Repo>, r: Repo, k: Option<string>, all: seq<(string, seq<BuildMatch>)>): map<string, Repo> {
    if Matched(k, all) then m + MapTo(MatchedNames(GetOr(all, k.value, [])), r) else m
  }

  /** The updated count over the repositories, in order. */
  function CountMatched(ks: seq<Option<string>>, all: seq<(string, seq<BuildMatch>)>): nat
    decreases |ks|
  {
    if |ks| == 0 then 0
    else CountMatched(ks[..|ks| - 1], all) + (if Matched(ks[|ks| - 1], all) then 1 else 0)
  }

  /** The intended status updates over the repositories, in order. */
  function StatusUpdates(repos: seq<Repo>, ks: seq<Option<string>>, all: seq<(string, seq<BuildMatch>)>): seq<StatusUpdate>
    requires |repos| == |ks| && NonEmptyLists(all)
    decreases |ks|
  {
    if |ks| == 0 then []
    else
      var u := StepUpdate(repos[|ks| - 1], ks[|ks| - 1], all);
      StatusUpdates(repos[..|ks| - 1], ks[..|ks| - 1], all) + (if u.Some? then [u.value] else [])
  }

  /** The build-name map over the repositories, in order. */
  function FoldMap(m0: map<string, Repo>, repos: seq<Repo>, ks: seq<Option<string>>,
                   all: seq<(string, seq<BuildMatch>)>): map<string, Repo>
    requires |repos| == |ks|
    decreases |ks|
  {
    if |ks| == 0 then m0
    else StepMap(FoldMap(m0, repos[..|ks| - 1], ks[..|ks| - 1], all), repos[|ks| - 1], ks[|ks| - 1], all)
  }

  /** Repository `i` has matches and one of them is the build `bn`. */
  predicate HoldsBuild(k: Option<string>, all: seq<(string, seq<BuildMatch>)>, bn: string) {
    Matched(k, all) && bn in MatchedNames(GetOr(all, k.value, []))
  }

  /**
   * A build name is in the final map exactly when it was there before or
   * some matched repository holds it, and then it points at the LAST
   * repository in the list that holds it.
   */
  lemma FoldMapSpec(m0: map<string, Repo>, repos: seq<Repo>, ks: seq<Option<string>>,
                     all: seq<(string, seq<BuildMatch>)>, bn: string)
    requires |repos| == |ks|
    ensures bn in FoldMap(m0, repos, ks, all) <==> bn in m0 || exists i :: 0 <= i < |ks| && HoldsBuild(ks[i], all, bn)
    ensures forall i :: (0 <= i < |ks| && HoldsBuild(ks[i], all, bn)
      && (forall j :: i < j < |ks| ==> !HoldsBuild(ks[j], all, bn))) ==> FoldMap(m0, repos, ks, all)[bn] == repos[i]
    ensures (bn in m0 && forall i :: 0 <= i < |ks| ==> !HoldsBuild(ks[i], all, bn)) ==> FoldMap(m0, repos, ks, all)[bn] == m0[bn]
  {
    FoldMapKeys(m0, repos, ks, all, bn);
    FoldMapLast(m0, repos, ks, all, bn);
    FoldMapKept(m0, repos, ks, all, bn);
  }

  /** A build name ends up in the map when it was there or some matched repository holds it. */
  lemma {:induction false} FoldMapKeys(m0: map<string, Repo>, repos: seq<Repo>, ks: seq<Option<string>>,
                                       all: seq<(string, seq<BuildMatch>)>, bn: string)
    requires |repos| == |ks|
    ensures bn in FoldMap(m0, repos, ks, all) <==> bn in m0 || exists i :: 0 <= i < |ks| && HoldsBuild(ks[i], all, bn)
    decreases |ks|
  {
    if |ks| > 0 {
      var n := |ks| - 1;
      FoldMapKeys(m0, repos[..n], ks[..n], all, bn);
      assert forall i :: 0 <= i < n ==> ks[..n][i] == ks[i];
    }
  }

  /** The name points at the last repository holding it. */
  lemma {:induction false} FoldMapLast(m0: map<string, Repo>, repos: seq<Repo>, ks: seq<Option<string>>,
                                       all: seq<(string, seq<BuildMatch>)>, bn: string)
    requires |repos| == |ks|
    ensures forall i :: (0 <= i < |ks| && HoldsBuild(ks[i], all, bn)
      && (forall j :: i < j < |ks| ==> !HoldsBuild(ks[j], all, bn))) ==>
        bn in FoldMap(m0, repos, ks, all) && FoldMap(m0, repos, ks, all)[bn] == repos[i]
    decreases |ks|
  {
    if |ks| > 0 {
      var n := |ks| - 1;
      FoldMapLast(m0, repos[..n], ks[..n], all, bn);
      if !HoldsBuild(ks[n], all, bn) {
        forall i | 0 <= i < n && HoldsBuild(ks[i], all, bn) && (forall j :: i < j < |ks| ==> !HoldsBuild(ks[j], all, bn))
          ensures bn in FoldMap(m0, repos, ks, all) && FoldMap(m0, repos, ks, all)[bn] == repos[i]
        {
          assert ks[..n][i] == ks[i] && repos[..n][i] == repos[i];
          assert forall j :: i < j < n ==> !HoldsBuild(ks[..n][j], all, bn);
        }
      }
    }
  }

  /** A name no matched repository holds keeps its old entry. */
  lemma {:induction false} FoldMapKept(m0: map<string, Repo>, repos: seq<Repo>, ks: seq<Option<string>>,
                                       all: seq<(string, seq<BuildMatch>)>, bn: string)
    requires |repos| == |ks|
    ensures (bn in m0 && forall i :: 0 <= i < |ks| ==> !HoldsBuild(ks[i], all, bn)) ==>
      bn in FoldMap(m0, repos, ks, all) && FoldMap(m0, repos, ks, all)[bn] == m0[bn]
    decreases |ks|
  {
    if |ks| > 0 {
      var n := |ks| - 1;
      FoldMapKept(m0, repos[..n], ks[..n], all, bn);
      assert forall i :: 0 <= i < n ==> ks[..n][i] == ks[i];
    }
  }

  /** The count is the number of status updates, and no more than the number of repositories. */
  lemma {:induction false} CountMatchedSpec(repos: seq<Repo>, ks: seq<Option<string>>, all: seq<(string, seq<BuildMatch>)>)
    requires |repos| == |ks| && NonEmptyLists(all)
    ensures CountMatched(ks, all) == |StatusUpdates(repos, ks, all)| <= |ks|
    ensures (forall i :: 0 <= i < |ks| ==> !Matched(ks[i], all)) ==> CountMatched(ks, all) == 0
    ensures forall u :: u in StatusUpdates(repos, ks, all) ==>
      exists i :: 0 <= i < |ks| && Matched(ks[i], all) && u == IntendedUpdate(repos[i], GetOr(all, ks[i].value, []))
    decreases |ks|
  {
    if |ks| > 0 {
      var n := |ks| - 1;
      CountMatchedSpec(repos[..n], ks[..n], all);
      assert forall i :: 0 <= i < n ==> ks[..n][i] == ks[i] && repos[..n][i] == repos[i];
    }
  }


  // ---------------------------------------------------------------------
  // aliasing between repositories

  /** No two repositories share a JFrog status object. */
  predicate UnsharedJfrog(repos: seq<Repo>)
    reads repos
  {
    forall i, j :: 0 <= i < |repos| && 0 <= j < |repos| && i != j && repos[i].ciStatus != null && repos[j].ciStatus != null
      ==> repos[i].ciStatus.jfrogStatus != repos[j].ciStatus.jfrogStatus
  }

  function JfrogsOf(repos: seq<Repo>): set<JfrogCIStatus>
    reads repos
  {
    set j | 0 <= j < |repos| && repos[j].ciStatus != null :: repos[j].ciStatus.jfrogStatus
  }

  /** The CI status objects and JFrog fields of the repositories before the status loop. */
  ghost method Snapshot(repos: seq<Repo>) returns (C: seq<CIStatus?>, W: seq<JfrogView>)
    requires UnsharedJfrog(repos)
    ensures |C| == |repos| && |W| == |repos|
    ensures forall j :: 0 <= j < |repos| ==> C[j] == repos[j].ciStatus && W[j] == ViewBefore(repos[j])
    ensures forall j :: 0 <= j < |repos| && C[j] != null ==> C[j].jfrogStatus in JfrogsOf(repos)
    ensures forall i, j :: 0 <= i < |repos| && 0 <= j < |repos| && i != j && C[i] != null && C[j] != null ==>
                          C[i].jfrogStatus != C[j].jfrogStatus
  {
    C, W := [], [];
    for k := 0 to |repos|
      invariant |C| == k && |W| == k
      invariant forall j :: 0 <= j < k ==> C[j] == repos[j].ciStatus && W[j] == ViewBefore(repos[j])
    {
      C, W := C + [repos[k].ciStatus], W + [ViewBefore(repos[k])];
    }
  }

  /** Repository `j` has been handled: its JFrog fields are updated and its objects are old or new. */
  ghost predicate Done(repos: seq<Repo>, j: int, K: seq<Option<string>>, C: seq<CIStatus?>, W: seq<JfrogView>,
                       F: set<JfrogCIStatus>, all: seq<(string, seq<BuildMatch>)>)
    requires 0 <= j < |repos| && |K| == |repos| && |C| == |repos| && |W| == |repos| && NonEmptyLists(all)
    reads repos[j], JfrogOf(repos[j])
  {
    repos[j].ciStatus != null
    && (C[j] != null ==> repos[j].ciStatus == C[j])
    && (C[j] == null ==> repos[j].ciStatus.jfrogStatus !in F)
    && ViewOf(repos[j].ciStatus.jfrogStatus) == Updated(W[j], K[j], all)
    && RepoName(repos[j]) == K[j]
  }

  /** The snapshot's JFrog statuses all lie in `F`, and no two repositories share one. */
  ghost predicate SeparateJfrogs(C: seq<CIStatus?>, F: set<JfrogCIStatus>) {
    (forall j :: 0 <= j < |C| && C[j] != null ==> C[j].jfrogStatus in F)
    && forall i, j :: 0 <= i < |C| && 0 <= j < |C| && i != j && C[i] != null && C[j] != null ==>
         C[i].jfrogStatus != C[j].jfrogStatus
  }

  /** Repository `j` is as it was. */
  ghost predicate Pending(repos: seq<Repo>, j: int, K: seq<Option<string>>, C: seq<CIStatus?>, W: seq<JfrogView>)
    requires 0 <= j < |repos| && |K| == |repos| && |C| == |repos| && |W| == |repos|
    reads repos[j], JfrogOf(repos[j])
  {
    repos[j].ciStatus == C[j] && ViewBefore(repos[j]) == W[j] && RepoName(repos[j]) == K[j]
  }

  // ---------------------------------------------------------------------
  // the processor

  /** A processor's answer: `updated_count`, `total_repos`, and the two collections when matching ran. */
  datatype CiResult = CiResult(
    updatedCount: nat,
    totalRepos: nat,
    buildNameToRepoMap: Option<map<string, Repo>>,
    unmappedBuildNames: Option<set<string>>,
    statusUpdates: seq<StatusUpdate>)

  /** The matching state of the whole build list, started from an unmapped set. */
  ghost function MatchedState(unmapped0: set<string>, builds: seq<BuildEntry>, src: Sources, names: set<string>): MatchState {
    MatchAll(MatchState([], [], [], unmapped0), builds, src, names)
  }

  /** `all_repo_matches` for the whole build list. */
  ghost function AllMatches(unmapped0: set<string>, builds: seq<BuildEntry>, src: Sources, names: set<string>)
    : seq<(string, seq<BuildMatch>)>
  {
    var st := MatchedState(unmapped0, builds, src, names);
    Combined(st.repoMatches, st.fallback)
  }

  lemma AllMatchesShape(unmapped0: set<string>, builds: seq<BuildEntry>, src: Sources, names: set<string>)
    ensures AllMatchesWellFormed(AllMatches(unmapped0, builds, src, names), names)
  {
    EmptyStateWellFormed(unmapped0, names);
    MatchAllWellFormed(MatchState([], [], [], unmapped0), builds, src, names);
    CombinedWellFormed(MatchedState(unmapped0, builds, src, names), names);
  }

  /** `JfrogCIProcessor`: the build-name map and the unmapped names persist across calls. */
  class JfrogCiProcessor {
    const productName: string
    var buildNameToRepoMap: map<string, Repo>
    var unmappedBuildNames: set<string>

    constructor(productName: string)
      ensures this.productName == productName
      ensures buildNameToRepoMap == map[] && unmappedBuildNames == {}
    {
      this.productName := productName;
      buildNameToRepoMap := map[];
      unmappedBuildNames := {};
    }

    /** The loop over the build list: the three dictionaries and the unmapped set follow `MatchAll`. */
    method MatchBuilds(builds: seq<BuildEntry>, src: Sources, names: set<string>)
        returns (repoMatches: seq<(string, seq<BuildMatch>)>, unmatched: seq<(string, seq<string>)>,
                 fallback: seq<(string, seq<BuildMatch>)>)
      modifies this
      ensures MatchState(repoMatches, unmatched, fallback, unmappedBuildNames)
           == MatchedState(old(unmappedBuildNames), builds, src, names)
      ensures buildNameToRepoMap == old(buildNameToRepoMap)
    {
      repoMatches, unmatched, fallback := [], [], [];
      for i := 0 to |builds|
        invariant MatchState(repoMatches, unmatched, fallback, unmappedBuildNames)
               == MatchAll(MatchState([], [], [], old(unmappedBuildNames)), builds[..i], src, names)
        invariant buildNameToRepoMap == old(buildNameToRepoMap)
      {
        assert builds[..i + 1][..i] == builds[..i];
        var b := builds[i];
        var bn := BuildNameOf(b);
        if bn.Some? {
          var info := ResolveBuildInfo(bn.value, b.lastStarted, src);
          if info.Some? {
            var bi := info.value;
            if bi.sourceRepo.Some? && bi.sourceRepo.value != "" {
              if bi.sourceRepo.value in names {
                repoMatches := AppendAt(repoMatches, bi.sourceRepo.value,
                  BuildMatch(bn.value, bi.sourceBranch, bi.url, b.lastStarted, SourceRepo));
              } else {
                unmatched := AppendAt(unmatched, bi.sourceRepo.value, bn.value);
              }
            } else {
              var best := LongestPrefixMatch(bn.value, names);
              if best.Some? {
                fallback := AppendAt(fallback, best.value,
                  BuildMatch(bn.value, None, bi.url, b.lastStarted, LongestPrefix));
              } else {
                unmappedBuildNames := unmappedBuildNames + {bn.value};
              }
            }
          }
        }
      }
      assert builds[..|builds|] == builds;
    }

    /**
     * The body of the status loop for one repository: a missing CI status
     * is replaced by a default one; a named repository with matches gets
     * existence, branch and job URL of its latest match, and every one of
     * its matched build names is mapped to it.
     */
    method UpdateRepo(r: Repo, all: seq<(string, seq<BuildMatch>)>) returns (u: Option<StatusUpdate>)
      requires NonEmptyLists(all)
      modifies this, r`ciStatus, JfrogOf(r)
      ensures r.ciStatus != null
      ensures old(r.ciStatus) != null ==> r.ciStatus == old(r.ciStatus)
      ensures old(r.ciStatus) == null ==> fresh(r.ciStatus) && fresh(r.ciStatus.jfrogStatus)
      ensures ViewOf(r.ciStatus.jfrogStatus) == Updated(old(ViewBefore(r)), RepoName(r), all)
      ensures NonCiOf(r) == old(NonCiOf(r))
      ensures u == StepUpdate(r, RepoName(r), all)
      ensures buildNameToRepoMap == StepMap(old(buildNameToRepoMap), r, RepoName(r), all)
      ensures unmappedBuildNames == old(unmappedBuildNames)
    {
      if r.ciStatus == null {
        var c := new CIStatus(null, null);
        r.UpdateCiStatus(c);
      }
      var k := RepoName(r);
      if k.Some? && HasKey(all, k.value) {
        var ms := GetOr(all, k.value, []);
        var latest := LatestMatch(ms);
        r.ciStatus.jfrogStatus.SetBuildMatch(true, latest.branch, latest.jobUrl);
        var names := MatchedNames(ms);
        var methods := BuildMappingMethods(ms);
        MapBuildNames(names, r);
        u := Some(StatusUpdate(r, latest.branch, latest.jobUrl, names, methods));
      } else {
        u := None;
      }
    }

    /** `for build_name in build_names: self.build_name_to_repo_map[build_name] = repo`. */
    method MapBuildNames(names: set<string>, r: Repo)
      modifies this
      ensures buildNameToRepoMap == old(buildNameToRepoMap) + MapTo(names, r)
      ensures unmappedBuildNames == old(unmappedBuildNames)
    {
      var rest := names;
      while rest != {}
        invariant rest <= names
        invariant buildNameToRepoMap == old(buildNameToRepoMap) + MapTo(names - rest, r)
        invariant unmappedBuildNames == old(unmappedBuildNames)
        decreases rest
      {
        var bn :| bn in rest;
        buildNameToRepoMap := buildNameToRepoMap[bn := r];
        rest := rest - {bn};
        assert names - rest == (names - (rest + {bn})) + {bn};
      }
      assert names - rest == names;
    }

    /** One iteration of the status loop, with the other repositories left as they are. */
    method Step(repos: seq<Repo>, k: int, all: seq<(string, seq<BuildMatch>)>, ghost K: seq<Option<string>>,
                ghost C: seq<CIStatus?>, ghost W: seq<JfrogView>, ghost F: set<JfrogCIStatus>)
        returns (u: Option<StatusUpdate>)
      requires 0 <= k < |repos| && |K| == |repos| && |C| == |repos| && |W| == |repos| && NonEmptyLists(all)
      requires DistinctRepos(repos)
      requires SeparateJfrogs(C, F)
      requires forall j :: 0 <= j < k ==> Done(repos, j, K, C, W, F, all)
      requires forall j :: k <= j < |repos| ==> Pending(repos, j, K, C, W)
      modifies this, {repos[k]}`ciStatus, JfrogOf(repos[k])
      ensures forall j :: 0 <= j <= k ==> Done(repos, j, K, C, W, F, all)
      ensures forall j :: k < j < |repos| ==> Pending(repos, j, K, C, W)
      ensures u == StepUpdate(repos[k], K[k], all)
      ensures buildNameToRepoMap == StepMap(old(buildNameToRepoMap), repos[k], K[k], all)
      ensures unmappedBuildNames == old(unmappedBuildNames)
    {
      var r := repos[k];
      assert Pending(repos, k, K, C, W);
      label L:
      u := UpdateRepo(r, all);
      forall j | k < j < |repos|
        ensures Pending(repos, j, K, C, W)
      {
        assert old@L(Pending(repos, j, K, C, W));
        assert repos[j] != r;
        assert C[j] != null && C[k] != null ==> C[j].jfrogStatus != C[k].jfrogStatus;
        assert repos[j].ciStatus == C[j];
      }
      forall j | 0 <= j < k
        ensures Done(repos, j, K, C, W, F, all)
      {
        assert old@L(Done(repos, j, K, C, W, F, all));
        assert repos[j] != r;
        ghost var x := repos[j].ciStatus.jfrogStatus;
        assert C[j] != null && C[k] != null ==> x != C[k].jfrogStatus;
        assert C[j] == null && C[k] != null ==> x != C[k].jfrogStatus;
        assert x == old@L(repos[j].ciStatus.jfrogStatus);
      }
      assert Done(repos, k, K, C, W, F, all);
    }

    /**
     * The status loop of `_load_metadata_based`: the count, the intended
     * updates and the build-name map follow the repositories in order;
     * every repository ends with a CI status, and its JFrog fields are
     * updated when it is matched and kept otherwise.
     */
    method UpdateRepoStatuses(repos: seq<Repo>, all: seq<(string, seq<BuildMatch>)>)
        returns (updatedCount: nat, updates: seq<StatusUpdate>)
      requires DistinctRepos(repos) && UnsharedJfrog(repos) && NonEmptyLists(all)
      modifies this, RepoSet(repos)`ciStatus, JfrogsOf(repos)
      ensures updatedCount == CountMatched(RepoNames(repos), all)
      ensures updates == StatusUpdates(repos, RepoNames(repos), all)
      ensures buildNameToRepoMap == FoldMap(old(buildNameToRepoMap), repos, RepoNames(repos), all)
      ensures unmappedBuildNames == old(unmappedBuildNames)
      ensures forall j :: 0 <= j < |repos| ==> (repos[j].ciStatus != null
        && (old(repos[j].ciStatus) != null ==> repos[j].ciStatus == old(repos[j].ciStatus))
        && ViewOf(repos[j].ciStatus.jfrogStatus) == Updated(old(ViewBefore(repos[j])), RepoName(repos[j]), all))
      ensures forall j :: 0 <= j < |repos| ==> NonCiKept(repos[j])
    {
      ghost var K := RepoNames(repos);
      ghost var C, W := Snapshot(repos);
      ghost var F := JfrogsOf(repos);
      updatedCount, updates := UpdateEach(repos, all, K, C, W, F);
      forall j | 0 <= j < |repos|
        ensures NonCiKept(repos[j])
      {
        ghost var r := repos[j];
        assert r.repoOwners == old(r.repoOwners) && r.vulnerabilities == old(r.vulnerabilities);
      }
      forall j | 0 <= j < |repos|
        ensures repos[j].ciStatus != null
        && (old(repos[j].ciStatus) != null ==> repos[j].ciStatus == old(repos[j].ciStatus))
        && ViewOf(repos[j].ciStatus.jfrogStatus) == Updated(old(ViewBefore(repos[j])), RepoName(repos[j]), all)
      {
        assert Done(repos, j, K, C, W, F, all);
      }
    }

    /** The loop of `update_repo_statuses`, stated against the snapshot taken before it. */
    method UpdateEach(repos: seq<Repo>, all: seq<(string, seq<BuildMatch>)>, ghost K: seq<Option<string>>,
                      ghost C: seq<CIStatus?>, ghost W: seq<JfrogView>, ghost F: set<JfrogCIStatus>)
        returns (updatedCount: nat, updates: seq<StatusUpdate>)
      requires DistinctRepos(repos) && NonEmptyLists(all)
      requires K == RepoNames(repos) && F == JfrogsOf(repos) && |C| == |repos| && |W| == |repos|
      requires forall j :: 0 <= j < |repos| ==> C[j] == repos[j].ciStatus && W[j] == ViewBefore(repos[j])
      requires SeparateJfrogs(C, F)
      modifies this, RepoSet(repos)`ciStatus, JfrogsOf(repos)
      ensures updatedCount == CountMatched(K, all)
      ensures updates == StatusUpdates(repos, K, all)
      ensures buildNameToRepoMap == FoldMap(old(buildNameToRepoMap), repos, K, all)
      ensures unmappedBuildNames == old(unmappedBuildNames)
      ensures forall j :: 0 <= j < |repos| ==> Done(repos, j, K, C, W, F, all)
    {
      ghost var m0 := buildNameToRepoMap;
      updatedCount, updates := 0, [];
      for k := 0 to |repos|
        invariant updatedCount == CountMatched(K[..k], all)
        invariant updates == StatusUpdates(repos[..k], K[..k], all)
        invariant buildNameToRepoMap == FoldMap(m0, repos[..k], K[..k], all)
        invariant unmappedBuildNames == old(unmappedBuildNames)
        invariant forall j :: 0 <= j < k ==> Done(repos, j, K, C, W, F, all)
        invariant forall j :: k <= j < |repos| ==> Pending(repos, j, K, C, W)
      {
        assert repos[..k + 1][..k] == repos[..k] && K[..k + 1][..k] == K[..k];
        assert Pending(repos, k, K, C, W);
        assert repos[k] in RepoSet(repos);
        assert C[k] != null ==> JfrogOf(repos[k]) in F;
        var u := Step(repos, k, all, K, C, W, F);
        if u.Some? {
          updatedCount := updatedCount + 1;
          updates := updates + [u.value];
        }
      }
      assert repos[..|repos|] == repos && K[..|repos|] == K;
    }

    /**
     * `_load_metadata_based`: match every listed build, combine the
     * metadata and fallback matches, and update the repositories; the
     * answer carries the count, the repository total, the build-name map
     * and the unmapped names.
     */
    method LoadMetadataBased(builds: seq<BuildEntry>, src: Sources, repos: seq<Repo>) returns (res: CiResult)
      requires DistinctRepos(repos) && UnsharedJfrog(repos)
      modifies this, RepoSet(repos)`ciStatus, JfrogsOf(repos)
      ensures var ks := RepoNames(repos);
        var all := AllMatches(old(unmappedBuildNames), builds, src, NamesOf(ks));
        AllMatchesWellFormed(all, NamesOf(ks))
        && unmappedBuildNames == MatchedState(old(unmappedBuildNames), builds, src, NamesOf(ks)).unmapped
        && buildNameToRepoMap == FoldMap(old(buildNameToRepoMap), repos, ks, all)
        && res == CiResult(CountMatched(ks, all), |repos|, Some(buildNameToRepoMap), Some(unmappedBuildNames),
                           StatusUpdates(repos, ks, all))
        && forall j :: 0 <= j < |repos| ==> (repos[j].ciStatus != null
             && ViewOf(repos[j].ciStatus.jfrogStatus) == Updated(old(ViewBefore(repos[j])), ks[j], all))
      ensures forall j :: 0 <= j < |repos| ==> NonCiKept(repos[j])
    {
      var all := MatchRepoBuilds(builds, src, repos);
      var updatedCount, updates := UpdateRepoStatuses(repos, all);
      res := CiResult(updatedCount, |repos|, Some(buildNameToRepoMap), Some(unmappedBuildNames), updates);
    }

    /** The first half of `_load_metadata_based`: the combined matches of every listed build. */
    method MatchRepoBuilds(builds: seq<BuildEntry>, src: Sources, repos: seq<Repo>)
        returns (all: seq<(string, seq<BuildMatch>)>)
      modifies this
      ensures var names := NamesOf(RepoNames(repos));
        all == AllMatches(old(unmappedBuildNames), builds, src, names)
        && AllMatchesWellFormed(all, names)
        && unmappedBuildNames == MatchedState(old(unmappedBuildNames), builds, src, names).unmapped
      ensures buildNameToRepoMap == old(buildNameToRepoMap)
    {
      var names := CollectRepoNames(repos);
      var repoMatches, unmatched, fallback := MatchBuilds(builds, src, names);
      EmptyStateWellFormed(old(unmappedBuildNames), names);
      MatchAllWellFormed(MatchState([], [], [], old(unmappedBuildNames)), builds, src, names);
      AllMatchesShape(old(unmappedBuildNames), builds, src, names);
      all := CombineMatches(repoMatches, fallback);
    }

    /**
     * `process_ci_data`: with no JFrog project configured for the product,
     * or no token, nothing changes and the answer counts no update;
     * otherwise the project's build list is matched.
     */
    method ProcessCiData(jfrogProject: string, token: string, builds: seq<BuildEntry>, src: Sources, repos: seq<Repo>)
        returns (res: CiResult)
      requires DistinctRepos(repos) && UnsharedJfrog(repos)
      modifies this, RepoSet(repos)`ciStatus, JfrogsOf(repos)
      ensures (jfrogProject == "" || token == "") ==> (res == CiResult(0, |repos|, None, None, [])
        && unchanged(this) && unchanged(RepoSet(repos)) && unchanged(JfrogsOf(repos)))
      ensures (jfrogProject != "" && token != "") ==>
        var ks := RepoNames(repos);
        var all := AllMatches(old(unmappedBuildNames), builds, src, NamesOf(ks));
        AllMatchesWellFormed(all, NamesOf(ks))
        && res == CiResult(CountMatched(ks, all), |repos|, Some(FoldMap(old(buildNameToRepoMap), repos, ks, all)),
                           Some(MatchedState(old(unmappedBuildNames), builds, src, NamesOf(ks)).unmapped),
                           StatusUpdates(repos, ks, all))
        && forall j :: 0 <= j < |repos| ==> (repos[j].ciStatus != null
             && ViewOf(repos[j].ciStatus.jfrogStatus) == Updated(old(ViewBefore(repos[j])), ks[j], all))
      ensures forall j :: 0 <= j < |repos| ==> NonCiKept(repos[j])
    {
      if jfrogProject == "" || token == "" {
        return CiResult(0, |repos|, None, None, []);
      }
      res := LoadMetadataBased(builds, src, repos);
    }
  }

}
