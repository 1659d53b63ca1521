/**
 * AQL response handling (`AqlCacheManager` in aql_cache_manager.py):
 * looking up the build properties of one artifact and merging a targeted
 * response into the per-repository cache without duplicating artifacts.
 *
 * An AQL response or cache file is a JSON object with an optional
 * `results` list of artifact records and an optional `range` summary.
 */
module AqlCache {
  import opened Wrappers
  import opened Text

  /** One entry of a record's `properties` list; either member may be missing. */
  datatype Prop = Prop(key: Option<string>, value: Option<string>)

  /** One artifact of `results`; an absent `properties` list is the empty one. */
  datatype AqlRecord = AqlRecord(path: Option<string>, name: Option<string>, properties: seq<Prop>)

  datatype AqlRange = AqlRange(startPos: int, endPos: int, total: int)

  /** A response or cache file; `{}` has neither member. */
  datatype AqlData = AqlData(results: Option<seq<AqlRecord>>, range: Option<AqlRange>)

  const EmptyData := AqlData(None, None)

  /** `data.get('results', [])`. */
  function ResultsOf(data: AqlData): seq<AqlRecord> {
    data.results.GetOr([])
  }

  /** `data and data.get('results')` is truthy: there is at least one result. */
  predicate HasResults(data: AqlData) {
    data.results.Some? && |data.results.value| > 0
  }

  /** The tuple `(build_name, build_number, build_timestamp, sha256)`. */
  datatype BuildInfo = BuildInfo(buildName: Option<string>, buildNumber: Option<string>,
                                 buildTimestamp: Option<string>, sha256: Option<string>)

  const NoBuildInfo := BuildInfo(None, None, None, None)

  // ---------------------------------------------------------------------
  // build info of one artifact

  /** A `build.name` value such as `Ns/svc/tool` names the build by its second segment. */
  function BuildNameOfValue(v: string): string {
    if '/' in v then (SplitHasTwoPiecesIff(v, '/'); Split(v, '/')[1]) else v
  }

  /**
   * A value without `/` is the build name itself; otherwise the build name
   * is the text between the first `/` and the next `/` (or the end).
   */
  lemma BuildNameOfValueSegment(v: string)
    ensures '/' !in v ==> BuildNameOfValue(v) == v
    ensures '/' in v ==>
      var rest := v[IndexOf(v, '/') + 1..];
      BuildNameOfValue(v) == rest[..IndexOf(rest, '/')]
  {
    if '/' in v {
      SplitSecondPiece(v, '/');
      SplitFirstPiece(v[IndexOf(v, '/') + 1..], '/');
    }
  }

  /** One iteration of the property loop: later properties overwrite earlier ones. */
  function ApplyProp(info: BuildInfo, p: Prop): BuildInfo {
    if p.key == Some("build.name") then
      if p.value.Some? && p.value.value != "" then info.(buildName := Some(BuildNameOfValue(p.value.value)))
      else info
    else if p.key == Some("build.number") then info.(buildNumber := p.value)
    else if p.key == Some("build.timestamp") then info.(buildTimestamp := p.value)
    else if p.key == Some("sha256") then info.(sha256 := p.value)
    else info
  }

  /** The four locals after the loop over a record's properties. */
  function ExtractProps(props: seq<Prop>): BuildInfo
    decreases |props|
  {
    if |props| == 0 then NoBuildInfo
    else ApplyProp(ExtractProps(props[..|props| - 1]), props[|props| - 1])
  }

  /** Index of the last property satisfying `f`, or -1. */
  function LastIndexWhere(props: seq<Prop>, f: Prop -> bool): (r: int)
    ensures -1 <= r < |props|
    ensures r >= 0 ==> f(props[r])
    ensures forall j :: r < j < |props| ==> !f(props[j])
    decreases |props|
  {
    if |props| == 0 then -1
    else if f(props[|props| - 1]) then |props| - 1
    else LastIndexWhere(props[..|props| - 1], f)
  }

  predicate IsKey(k: string, p: Prop) {
    p.key == Some(k)
  }

  predicate IsNamedBuild(p: Prop) {
    p.key == Some("build.name") && p.value.Some? && p.value.value != ""
  }

  /** The value of the last property with key `k`, or None when there is none. */
  function LastValue(props: seq<Prop>, k: string): Option<string> {
    var j := LastIndexWhere(props, p => IsKey(k, p));
    if j == -1 then None else props[j].value
  }

  lemma LastIndexSnoc(props: seq<Prop>, q: Prop, f: Prop -> bool)
    ensures LastIndexWhere(props + [q], f) == if f(q) then |props| else LastIndexWhere(props, f)
  {
    assert (props + [q])[..|props|] == props;
  }

  /**
   * The property loop keeps, for number, timestamp and sha256, the value of
   * the last property with that key, and for the build name the last
   * non-empty `build.name` value (reduced to its second segment); a field
   * with no such property stays None.
   */
  lemma {:induction false} ExtractPropsLastWins(props: seq<Prop>)
    ensures ExtractProps(props).buildNumber == LastValue(props, "build.number")
    ensures ExtractProps(props).buildTimestamp == LastValue(props, "build.timestamp")
    ensures ExtractProps(props).sha256 == LastValue(props, "sha256")
    ensures var j := LastIndexWhere(props, IsNamedBuild);
      ExtractProps(props).buildName == if j == -1 then None else Some(BuildNameOfValue(props[j].value.value))
    decreases |props|
  {
    if |props| > 0 {
      var init := props[..|props| - 1];
      var q := props[|props| - 1];
      ExtractPropsLastWins(init);
      assert props == init + [q];
      LastIndexSnoc(init, q, p => IsKey("build.number", p));
      LastIndexSnoc(init, q, p => IsKey("build.timestamp", p));
      LastIndexSnoc(init, q, p => IsKey("sha256", p));
      LastIndexSnoc(init, q, IsNamedBuild);
    }
  }

  /** Without a non-empty `build.name` property the build name is None. */
  lemma ExtractPropsWithoutBuildName(props: seq<Prop>)
    requires forall i :: 0 <= i < |props| ==> !IsNamedBuild(props[i])
    ensures ExtractProps(props).buildName == None
  {
    ExtractPropsLastWins(props);
  }

  predicate RecordMatches(r: AqlRecord, path: string, name: string) {
    r.path == Some(path) && r.name == Some(name)
  }

  /** Index of the first record for `(path, name)`, or `|rs|`. */
  function FirstMatch(rs: seq<AqlRecord>, path: string, name: string): (i: nat)
    ensures i <= |rs|
    ensures i < |rs| ==> RecordMatches(rs[i], path, name)
    ensures forall j :: 0 <= j < i ==> !RecordMatches(rs[j], path, name)
    decreases |rs|
  {
    if |rs| == 0 then 0
    else if RecordMatches(rs[0], path, name) then 0
    else 1 + FirstMatch(rs[1..], path, name)
  }

  /**
   * `extract_artifact_build_info_from_aql`: the build info of the first
   * record whose path and name are the given ones, or None when no record
   * matches.
   */
  function ExtractBuildInfo(data: AqlData, path: string, name: string): (r: Option<BuildInfo>)
    ensures r.None? <==> forall i :: 0 <= i < |ResultsOf(data)| ==> !RecordMatches(ResultsOf(data)[i], path, name)
    ensures r.Some? ==> exists i :: (0 <= i < |ResultsOf(data)| && RecordMatches(ResultsOf(data)[i], path, name)
      && (forall j :: 0 <= j < i ==> !RecordMatches(ResultsOf(data)[j], path, name))
      && r.value == ExtractProps(ResultsOf(data)[i].properties))
  {
    var rs := ResultsOf(data);
    var i := FirstMatch(rs, path, name);
    if i < |rs| then Some(ExtractProps(rs[i].properties)) else None
  }

  // ---------------------------------------------------------------------
  // merging a targeted response into the cache

  /** The dedup key `(result.get('path', ''), result.get('name', ''))`. */
  function KeyOf(r: AqlRecord): (string, string) {
    (r.path.GetOr(""), r.name.GetOr(""))
  }

  function KeySet(rs: seq<AqlRecord>): set<(string, string)>
    decreases |rs|
  {
    if |rs| == 0 then {} else KeySet(rs[..|rs| - 1]) + {KeyOf(rs[|rs| - 1])}
  }

  lemma {:induction false} KeySetMembers(rs: seq<AqlRecord>, k: (string, string))
    ensures k in KeySet(rs) <==> exists i :: 0 <= i < |rs| && KeyOf(rs[i]) == k
    decreases |rs|
  {
    if |rs| > 0 {
      var init := rs[..|rs| - 1];
      KeySetMembers(init, k);
      if k in KeySet(init) {
        var i :| 0 <= i < |init| && KeyOf(init[i]) == k;
        assert KeyOf(rs[i]) == k;
      }
      if exists i :: 0 <= i < |rs| && KeyOf(rs[i]) == k {
        var i :| 0 <= i < |rs| && KeyOf(rs[i]) == k;
        if i < |init| { assert KeyOf(init[i]) == k; }
      }
    }
  }

  lemma KeySetSnoc(rs: seq<AqlRecord>, r: AqlRecord)
    ensures KeySet(rs + [r]) == KeySet(rs) + {KeyOf(r)}
  {
    assert (rs + [r])[..|rs|] == rs;
  }

  /**
   * The cache's results after the merge: each new result, in order, is
   * appended when its key is not yet among those already present.
   */
  function MergeResults(existing: seq<AqlRecord>, newer: seq<AqlRecord>): seq<AqlRecord>
    decreases |newer|
  {
    if |newer| == 0 then existing
    else
      var m := MergeResults(existing, newer[..|newer| - 1]);
      var r := newer[|newer| - 1];
      if KeyOf(r) in KeySet(m) then m else m + [r]
  }

  predicate UniqueRecordKeys(rs: seq<AqlRecord>) {
    forall i, j :: 0 <= i < j < |rs| ==> KeyOf(rs[i]) != KeyOf(rs[j])
  }

  /**
   * Merging keeps the existing results unchanged and in order, appends only
   * new results, and leaves exactly the keys of both inputs.
   */
  lemma {:induction false} MergeKeepsExisting(existing: seq<AqlRecord>, newer: seq<AqlRecord>)
    ensures |existing| <= |MergeResults(existing, newer)|
    ensures MergeResults(existing, newer)[..|existing|] == existing
    ensures forall i :: |existing| <= i < |MergeResults(existing, newer)| ==> MergeResults(existing, newer)[i] in newer
    ensures KeySet(MergeResults(existing, newer)) == KeySet(existing) + KeySet(newer)
    decreases |newer|
  {
    if |newer| > 0 {
      var init := newer[..|newer| - 1];
      var r := newer[|newer| - 1];
      MergeKeepsExisting(existing, init);
      var m := MergeResults(existing, init);
      assert newer == init + [r];
      KeySetSnoc(init, r);
      if KeyOf(r) !in KeySet(m) {
        KeySetSnoc(m, r);
        assert (m + [r])[..|existing|] == m[..|existing|];
        forall i | |existing| <= i < |m + [r]| ensures (m + [r])[i] in newer {
          if i < |m| { assert m[i] in init; }
        }
      } else {
        forall i | |existing| <= i < |m| ensures m[i] in newer {
          assert m[i] in init;
        }
      }
    }
  }

  /** Merging keeps keys unique when the existing results had unique keys. */
  lemma {:induction false} MergeUniqueKeys(existing: seq<AqlRecord>, newer: seq<AqlRecord>)
    requires UniqueRecordKeys(existing)
    ensures UniqueRecordKeys(MergeResults(existing, newer))
    decreases |newer|
  {
    if |newer| > 0 {
      var init := newer[..|newer| - 1];
      var r := newer[|newer| - 1];
      MergeUniqueKeys(existing, init);
      var m := MergeResults(existing, init);
      if KeyOf(r) !in KeySet(m) {
        forall i | 0 <= i < |m| ensures KeyOf(m[i]) != KeyOf(r) {
          KeySetMembers(m, KeyOf(r));
        }
      }
    }
  }

  /** New results whose keys are all present already add nothing. */
  lemma {:induction false} MergeOfCoveredKeys(existing: seq<AqlRecord>, newer: seq<AqlRecord>)
    requires KeySet(newer) <= KeySet(existing)
    ensures MergeResults(existing, newer) == existing
    decreases |newer|
  {
    if |newer| > 0 {
      var init := newer[..|newer| - 1];
      var r := newer[|newer| - 1];
      assert KeySet(newer) == KeySet(init) + {KeyOf(r)};
      MergeOfCoveredKeys(existing, init);
    }
  }

  /** Merging the same response a second time changes nothing. */
  lemma MergeIdempotent(existing: seq<AqlRecord>, newer: seq<AqlRecord>)
    ensures MergeResults(MergeResults(existing, newer), newer) == MergeResults(existing, newer)
  {
    MergeKeepsExisting(existing, newer);
    MergeOfCoveredKeys(MergeResults(existing, newer), newer);
  }

  /** New results with distinct keys not present before are all appended, in order. */
  lemma {:induction false} MergeOfDisjointKeys(existing: seq<AqlRecord>, newer: seq<AqlRecord>)
    requires UniqueRecordKeys(newer)
    requires KeySet(newer) !! KeySet(existing)
    ensures MergeResults(existing, newer) == existing + newer
    decreases |newer|
  {
    if |newer| > 0 {
      var init := newer[..|newer| - 1];
      var r := newer[|newer| - 1];
      assert KeySet(newer) == KeySet(init) + {KeyOf(r)};
      MergeOfDisjointKeys(existing, init);
      KeySetSnoc(existing, r);
      assert KeySet(existing + init) == KeySet(existing) + KeySet(init) by {
        MergeKeepsExisting(existing, init);
      }
      assert KeyOf(r) !in KeySet(init) by {
        KeySetMembers(init, KeyOf(r));
        forall i | 0 <= i < |init| ensures KeyOf(init[i]) != KeyOf(r) {
          assert init[i] == newer[i];
        }
      }
      assert existing + init + [r] == existing + newer;
    }
  }

  /** The results list of a cache dictionary, which the merge extends in place. */
  class RecordList {
    var items: seq<AqlRecord>

    constructor(items: seq<AqlRecord>)
      ensures this.items == items
    {
      this.items := items;
    }
  }

  /** The dictionary `merge_aql_caches` returns. */
  datatype MergedCache = MergedCache(results: RecordList, range: AqlRange, addedCount: nat)

  /**
   * `merge_aql_caches`. `existingResults` is the existing cache's `results`
   * list, or null when the cache has none (then a new list is used). The
   * list is extended in place, and the returned cache holds that same list.
   */
  method MergeAqlCaches(existingResults: RecordList?, newCache: AqlData) returns (merged: MergedCache)
    modifies if existingResults == null then {} else {existingResults}
    ensures existingResults != null ==> merged.results == existingResults
    ensures existingResults == null ==> fresh(merged.results)
    ensures var before := if existingResults == null then [] else old(existingResults.items);
      && merged.results.items == MergeResults(before, ResultsOf(newCache))
      && merged.addedCount == |merged.results.items| - |before|
    ensures merged.range == AqlRange(0, |merged.results.items|, |merged.results.items|)
  {
    var list: RecordList;
    if existingResults == null {
      list := new RecordList([]);
    } else {
      list := existingResults;
    }
    var before := list.items;
    var seen: set<(string, string)> := {};
    for i := 0 to |before|
      invariant seen == KeySet(before[..i])
      invariant list.items == before
    {
      assert before[..i + 1] == before[..i] + [before[i]];
      KeySetSnoc(before[..i], before[i]);
      seen := seen + {KeyOf(before[i])};
    }
    assert before[..|before|] == before;
    var newResults := ResultsOf(newCache);
    var addedCount := 0;
    assert newResults[..0] == [];
    for i := 0 to |newResults|
      invariant list.items == MergeResults(before, newResults[..i])
      invariant seen == KeySet(list.items)
      invariant addedCount == |list.items| - |before|
    {
      assert newResults[..i + 1][..i] == newResults[..i];
      var key := KeyOf(newResults[i]);
      if key !in seen {
        KeySetSnoc(list.items, newResults[i]);
        list.items := list.items + [newResults[i]];
        seen := seen + {key};
        addedCount := addedCount + 1;
      }
    }
    assert newResults[..|newResults|] == newResults;
    merged := MergedCache(list, AqlRange(0, |list.items|, |list.items|), addedCount);
  }

  /** The merged cache as it is saved: `added_count` removed. */
  function SavedForm(results: seq<AqlRecord>, range: AqlRange): AqlData {
    AqlData(Some(results), Some(range))
  }
}
