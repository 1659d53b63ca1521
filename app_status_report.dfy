/**
 * The App Status sheet (`AppStatusReport` in app_status_report.py): manager
 * report rows grouped by VP, director and product, one output row per
 * group with its Sonar and JFrog figures.
 *
 * A manager row is a dictionary of scalars. The grouping is a three-level
 * dictionary filled in the order the rows come, so groups come out by
 * first appearance of their VP, then of their director under that VP,
 * then of their product. Counts are summed over integrated repositories
 * only, and only where the value is an integer (a Python bool counts as
 * one); with no integrated repository the count is "N/A".
 */
module AppStatusReportModel {
  import opened Wrappers
  import opened Assoc
  import opened RepoModel

  /** One row of the manager report. */
  type Record = seq<(string, Field)>

  /** `repo_data.get(key, 'unknown')`. */
  function GetOrUnknown(r: Record, key: string): Field {
    GetOr(r, key, FStr("unknown"))
  }

  /** The (vp, director, product) of a group. */
  datatype Triple = Triple(vp: Field, director: Field, product: Field)

  function TripleOf(r: Record): Triple {
    Triple(GetOrUnknown(r, "vp"), GetOrUnknown(r, "director"), GetOrUnknown(r, "product"))
  }

  /** A row with an unknown VP, director or product is left out. */
  predicate Skipped(r: Record) {
    var t := TripleOf(r);
    t.vp == FStr("unknown") || t.director == FStr("unknown") || t.product == FStr("unknown")
  }

  // ---------------------------------------------------------------------
  // grouping

  type ProductGroups = seq<(Field, seq<Record>)>
  type DirectorGroups = seq<(Field, ProductGroups)>
  type Hierarchy = seq<(Field, DirectorGroups)>

  /** `grouped[vp][director][product].append(r)`. */
  function AddRow(g: Hierarchy, t: Triple, r: Record): Hierarchy {
    var dm := GetOr(g, t.vp, []);
    Put(g, t.vp, Put(dm, t.director, AppendAt(GetOr(dm, t.director, []), t.product, r)))
  }

  /** The rows of a group, or None when the hierarchy has no such group. */
  function Group(g: Hierarchy, t: Triple): Option<seq<Record>> {
    var dm := Get(g, t.vp);
    if dm.None? then None
    else
      var pm := Get(dm.value, t.director);
      if pm.None? then None else Get(pm.value, t.product)
  }

  /** `_group_by_hierarchy`, over the rows in order. */
  function Grouped(rows: seq<Record>): Hierarchy
    decreases |rows|
  {
    if |rows| == 0 then []
    else
      var g := Grouped(rows[..|rows| - 1]);
      var r := rows[|rows| - 1];
      if Skipped(r) then g else AddRow(g, TripleOf(r), r)
  }

  /** The reference: the kept rows of a group, in order. */
  function Members(rows: seq<Record>, t: Triple): seq<Record>
    decreases |rows|
  {
    if |rows| == 0 then []
    else
      var r := rows[|rows| - 1];
      Members(rows[..|rows| - 1], t) + (if !Skipped(r) && TripleOf(r) == t then [r] else [])
  }

  /** A row is a member of a group exactly when it is a kept row with that group's triple. */
  lemma {:induction false} MembersSpec(rows: seq<Record>, t: Triple, x: Record)
    ensures x in Members(rows, t) <==> x in rows && !Skipped(x) && TripleOf(x) == t
    decreases |rows|
  {
    if |rows| > 0 {
      MembersSpec(rows[..|rows| - 1], t, x);
      assert rows == rows[..|rows| - 1] + [rows[|rows| - 1]];
    }
  }

  /** Every level of the hierarchy has unique keys. */
  ghost predicate WellFormed(g: Hierarchy) {
    UniqueKeys(g)
    && forall v :: HasKey(g, v) ==>
         UniqueKeys(Get(g, v).value)
         && forall d :: HasKey(Get(g, v).value, d) ==> UniqueKeys(Get(Get(g, v).value, d).value)
  }

  /** Adding a row extends exactly its own group, creating it when absent. */
  lemma AddRowGroup(g: Hierarchy, t: Triple, r: Record, t2: Triple)
    ensures Group(AddRow(g, t, r), t2) == if t2 == t then Some(Group(g, t).GetOr([]) + [r]) else Group(g, t2)
  {
    var dm := GetOr(g, t.vp, []);
    var pm := GetOr(dm, t.director, []);
    var dm' := Put(dm, t.director, AppendAt(pm, t.product, r));
    PutGet(g, t.vp, dm', t2.vp);
    PutGet(dm, t.director, AppendAt(pm, t.product, r), t2.director);
    AppendAtGet(pm, t.product, r, t2.product);
  }

  lemma AddRowWellFormed(g: Hierarchy, t: Triple, r: Record)
    requires WellFormed(g)
    ensures WellFormed(AddRow(g, t, r))
  {
    var dm := GetOr(g, t.vp, []);
    var pm := GetOr(dm, t.director, []);
    var pm' := AppendAt(pm, t.product, r);
    var dm' := Put(dm, t.director, pm');
    var g' := AddRow(g, t, r);
    PutUnique(g, t.vp, dm');
    PutUnique(pm, t.product, GetOr(pm, t.product, []) + [r]);
    PutUnique(dm, t.director, pm');
    forall v | HasKey(g', v)
      ensures UniqueKeys(Get(g', v).value)
      ensures forall d :: HasKey(Get(g', v).value, d) ==> UniqueKeys(Get(Get(g', v).value, d).value)
    {
      PutGet(g, t.vp, dm', v);
      if v == t.vp {
        forall d | HasKey(dm', d) ensures UniqueKeys(Get(dm', d).value) {
          PutGet(dm, t.director, pm', d);
        }
      }
    }
  }

  /**
   * The grouping has unique keys at every level, and the group of a
   * triple holds exactly its kept rows, in order; there is a group exactly
   * when at least one kept row has that triple.
   */
  lemma {:induction false} GroupedSpec(rows: seq<Record>, t: Triple)
    ensures WellFormed(Grouped(rows))
    ensures Group(Grouped(rows), t) == if Members(rows, t) == [] then None else Some(Members(rows, t))
    decreases |rows|
  {
    if |rows| > 0 {
      var init := rows[..|rows| - 1];
      var r := rows[|rows| - 1];
      GroupedSpec(init, t);
      assert Grouped(rows) == if Skipped(r) then Grouped(init) else AddRow(Grouped(init), TripleOf(r), r);
      assert Members(rows, t) == Members(init, t) + (if !Skipped(r) && TripleOf(r) == t then [r] else []);
      if !Skipped(r) {
        AddRowGroup(Grouped(init), TripleOf(r), r, t);
        AddRowWellFormed(Grouped(init), TripleOf(r), r);
      }
      if Skipped(r) || TripleOf(r) != t {
        assert Members(rows, t) == Members(init, t);
      }
    }
  }

  /** The loop of `_group_by_hierarchy`. */
  method GroupByHierarchy(rows: seq<Record>) returns (g: Hierarchy)
    ensures g == Grouped(rows)
  {
    g := [];
    for i := 0 to |rows|
      invariant g == Grouped(rows[..i])
    {
      assert rows[..i + 1][..i] == rows[..i];
      var r := rows[i];
      var vp := GetOrUnknown(r, "vp");
      var director := GetOrUnknown(r, "director");
      var product := GetOrUnknown(r, "product");
      if vp == FStr("unknown") || director == FStr("unknown") || product == FStr("unknown") {
        continue;
      }
      g := AddRow(g, Triple(vp, director, product), r);
    }
    assert rows[..|rows|] == rows;
  }

  // ---------------------------------------------------------------------
  // the figures of one group

  /** A count in the sheet: "N/A" or a number. */
  datatype Metric = NotApplicable | Total(n: int)

  /** `isinstance(v, int)`, where a bool is an int. */
  function IntegerValue(f: Option<Field>): Option<int> {
    match f
    case Some(FInt(i)) => Some(i)
    case Some(FBool(b)) => Some(if b then 1 else 0)
    case _ => None
  }

  /** `r.get(flag) is True`. */
  predicate IsIntegrated(r: Record, flag: string) {
    Get(r, flag) == Some(FBool(true))
  }

  /** The integrated repositories of a group, in order. */
  function Integrated(rs: seq<Record>, flag: string): seq<Record>
    decreases |rs|
  {
    if |rs| == 0 then []
    else Integrated(rs[..|rs| - 1], flag) + (if IsIntegrated(rs[|rs| - 1], flag) then [rs[|rs| - 1]] else [])
  }

  /** The integer values of a key, summed. */
  function SumOf(rs: seq<Record>, key: string): int
    decreases |rs|
  {
    if |rs| == 0 then 0 else SumOf(rs[..|rs| - 1], key) + IntegerValue(Get(rs[|rs| - 1], key)).GetOr(0)
  }

  /** The reference sum: integer values of a key over the integrated rows only. */
  function SumWhere(rs: seq<Record>, flag: string, key: string): int
    decreases |rs|
  {
    if |rs| == 0 then 0
    else
      var r := rs[|rs| - 1];
      SumWhere(rs[..|rs| - 1], flag, key) + (if IsIntegrated(r, flag) then IntegerValue(Get(r, key)).GetOr(0) else 0)
  }

  /** The figures of one tool: the integrated count and two counts. */
  datatype ToolMetrics = ToolMetrics(integrated: nat, first: Metric, second: Metric)

  function ToolMetricsOf(rs: seq<Record>, flag: string, k1: string, k2: string): ToolMetrics {
    var ig := Integrated(rs, flag);
    if |ig| == 0 then ToolMetrics(0, NotApplicable, NotApplicable)
    else ToolMetrics(|ig|, Total(SumOf(ig, k1)), Total(SumOf(ig, k2)))
  }

  /** Summing over the integrated rows is summing over all rows with the others counted as zero. */
  lemma {:induction false} SumOfIntegrated(rs: seq<Record>, flag: string, key: string)
    ensures SumOf(Integrated(rs, flag), key) == SumWhere(rs, flag, key)
    decreases |rs|
  {
    if |rs| > 0 {
      var init := rs[..|rs| - 1];
      var r := rs[|rs| - 1];
      SumOfIntegrated(init, flag, key);
      if IsIntegrated(r, flag) {
        var ig := Integrated(init, flag) + [r];
        assert Integrated(rs, flag) == ig;
        assert ig[..|ig| - 1] == Integrated(init, flag) && ig[|ig| - 1] == r;
      } else {
        assert Integrated(rs, flag) == Integrated(init, flag);
      }
    }
  }

  /** The integrated rows are exactly the rows whose flag is `True`. */
  lemma {:induction false} IntegratedSpec(rs: seq<Record>, flag: string)
    ensures |Integrated(rs, flag)| <= |rs|
    ensures forall x :: x in Integrated(rs, flag) <==> x in rs && IsIntegrated(x, flag)
    ensures Integrated(rs, flag) == [] <==> forall i :: 0 <= i < |rs| ==> !IsIntegrated(rs[i], flag)
    decreases |rs|
  {
    if |rs| > 0 {
      var init := rs[..|rs| - 1];
      IntegratedSpec(init, flag);
      assert rs == init + [rs[|rs| - 1]];
      assert forall i :: 0 <= i < |init| ==> init[i] == rs[i];
    }
  }

  /**
   * The counts are "N/A" exactly when no repository of the group has its
   * flag exactly `True`; otherwise they are the integer values summed over
   * the integrated repositories.
   */
  lemma ToolMetricsSpec(rs: seq<Record>, flag: string, k1: string, k2: string)
    ensures var m := ToolMetricsOf(rs, flag, k1, k2);
      m.integrated <= |rs|
      && (m.first.NotApplicable? <==> forall i :: 0 <= i < |rs| ==> !IsIntegrated(rs[i], flag))
      && (m.second.NotApplicable? <==> m.first.NotApplicable?)
      && (m.first.Total? ==> m.first.n == SumWhere(rs, flag, k1) && m.second.n == SumWhere(rs, flag, k2))
  {
    IntegratedSpec(rs, flag);
    SumOfIntegrated(rs, flag, k1);
    SumOfIntegrated(rs, flag, k2);
  }

  /** The `+=` loop over the integrated repositories. */
  method AccumulateCounts(ig: seq<Record>, k1: string, k2: string) returns (a: int, b: int)
    ensures a == SumOf(ig, k1) && b == SumOf(ig, k2)
  {
    a, b := 0, 0;
    for i := 0 to |ig|
      invariant a == SumOf(ig[..i], k1) && b == SumOf(ig[..i], k2)
    {
      assert ig[..i + 1][..i] == ig[..i];
      var r := ig[i];
      var v1 := IntegerValue(Get(r, k1));
      if v1.Some? {
        a := a + v1.value;
      }
      var v2 := IntegerValue(Get(r, k2));
      if v2.Some? {
        b := b + v2.value;
      }
    }
    assert ig[..|ig|] == ig;
  }

  /** `_calculate_sonar_metrics`: secrets and critical vulnerabilities. */
  method CalculateSonarMetrics(rs: seq<Record>) returns (m: ToolMetrics)
    ensures m == ToolMetricsOf(rs, "status_scan_sast_sonar", "critical_code_secrets_sonar", "critical_code_vulnerabilities_sonar")
  {
    var ig := Integrated(rs, "status_scan_sast_sonar");
    if |ig| == 0 {
      return ToolMetrics(0, NotApplicable, NotApplicable);
    }
    var secrets, critical := AccumulateCounts(ig, "critical_code_secrets_sonar", "critical_code_vulnerabilities_sonar");
    m := ToolMetrics(|ig|, Total(secrets), Total(critical));
  }

  /** `_calculate_jfrog_metrics`: critical and high dependency vulnerabilities. */
  method CalculateJfrogMetrics(rs: seq<Record>) returns (m: ToolMetrics)
    ensures m == ToolMetricsOf(rs, "status_scan_dependencies_jfrog", "critical_dependencies_vulnerabilities_jfrog",
                               "high_dependencies_vulnerabilities_jfrog")
  {
    var ig := Integrated(rs, "status_scan_dependencies_jfrog");
    if |ig| == 0 {
      return ToolMetrics(0, NotApplicable, NotApplicable);
    }
    var critical, high := AccumulateCounts(ig, "critical_dependencies_vulnerabilities_jfrog",
                                           "high_dependencies_vulnerabilities_jfrog");
    m := ToolMetrics(|ig|, Total(critical), Total(high));
  }

  /**
   * A row of the sheet. The integration percentages are given by the
   * integrated counts and the group size.
   */
  datatype AppStatusRow = AppStatusRow(
    vp: Field, am: Field, product: Field, scm: Field, totalRepos: nat,
    codeIntegrated: nat, failNewSonar: string, secrets: Metric, sastCritical: Metric,
    artifactIntegrated: nat, failNewJfrog: string, depsCritical: Metric, depsHigh: Metric)

  function SonarOf(rs: seq<Record>): ToolMetrics {
    ToolMetricsOf(rs, "status_scan_sast_sonar", "critical_code_secrets_sonar", "critical_code_vulnerabilities_sonar")
  }

  function JfrogOf(rs: seq<Record>): ToolMetrics {
    ToolMetricsOf(rs, "status_scan_dependencies_jfrog", "critical_dependencies_vulnerabilities_jfrog",
                  "high_dependencies_vulnerabilities_jfrog")
  }

  /** `_calculate_metrics_for_group`. */
  function MetricsFor(t: Triple, rs: seq<Record>): AppStatusRow {
    var s := SonarOf(rs);
    var j := JfrogOf(rs);
    AppStatusRow(t.vp, t.director, t.product, if rs != [] then GetOr(rs[0], "scm", FStr("unknown")) else FStr("unknown"),
                 |rs|, s.integrated, "TBD", s.first, s.second, j.integrated, "TBD", j.first, j.second)
  }

  /** The triple a sheet row reports on. */
  function TripleOfRow(x: AppStatusRow): Triple {
    Triple(x.vp, x.am, x.product)
  }

  /** A row names its group, with the director as AM, the SCM of its first repository, and 'TBD' twice. */
  method CalculateMetricsForGroup(vp: Field, director: Field, product: Field, rs: seq<Record>) returns (x: AppStatusRow)
    ensures x == MetricsFor(Triple(vp, director, product), rs)
    ensures TripleOfRow(x) == Triple(vp, director, product) && x.am == director
    ensures x.failNewSonar == "TBD" && x.failNewJfrog == "TBD" && x.totalRepos == |rs|
    ensures rs != [] ==> x.scm == GetOr(rs[0], "scm", FStr("unknown"))
  {
    var scm := if rs != [] then GetOr(rs[0], "scm", FStr("unknown")) else FStr("unknown");
    var s := CalculateSonarMetrics(rs);
    var j := CalculateJfrogMetrics(rs);
    x := AppStatusRow(vp, director, product, scm, |rs|, s.integrated, "TBD", s.first, s.second,
                      j.integrated, "TBD", j.first, j.second);
  }

  // ---------------------------------------------------------------------
  // the sheet: walking the hierarchy

  /** The groups of one director, as (triple, rows) entries in order. */
  function Flat1(vp: Field, d: Field, pm: ProductGroups): (f: seq<(Triple, seq<Record>)>)
    ensures |f| == |pm|
    ensures forall i :: 0 <= i < |pm| ==> f[i] == (Triple(vp, d, pm[i].0), pm[i].1)
  {
    seq(|pm|, i requires 0 <= i < |pm| => (Triple(vp, d, pm[i].0), pm[i].1))
  }

  function Flat2(vp: Field, dm: DirectorGroups): seq<(Triple, seq<Record>)>
    decreases |dm|
  {
    if |dm| == 0 then []
    else Flat2(vp, dm[..|dm| - 1]) + Flat1(vp, dm[|dm| - 1].0, dm[|dm| - 1].1)
  }

  /** All groups, as an association list from triple to rows, in the sheet's order. */
  function Flat3(g: Hierarchy): seq<(Triple, seq<Record>)>
    decreases |g|
  {
    if |g| == 0 then [] else Flat3(g[..|g| - 1]) + Flat2(g[|g| - 1].0, g[|g| - 1].1)
  }

  function RowsOf(f: seq<(Triple, seq<Record>)>): (xs: seq<AppStatusRow>)
    ensures |xs| == |f|
    ensures forall i :: 0 <= i < |f| ==> xs[i] == MetricsFor(f[i].0, f[i].1)
  {
    seq(|f|, i requires 0 <= i < |f| => MetricsFor(f[i].0, f[i].1))
  }

  lemma RowsOfAppend(a: seq<(Triple, seq<Record>)>, b: seq<(Triple, seq<Record>)>)
    ensures RowsOf(a + b) == RowsOf(a) + RowsOf(b)
  {
  }

  lemma Flat1Spec(vp: Field, d: Field, pm: ProductGroups, t: Triple)
    requires UniqueKeys(pm)
    ensures UniqueKeys(Flat1(vp, d, pm))
    ensures Get(Flat1(vp, d, pm), t) == if t.vp == vp && t.director == d then Get(pm, t.product) else None
  {
    var f := Flat1(vp, d, pm);
    if HasKey(f, t) {
      var i :| 0 <= i < |f| && f[i].0 == t;
      assert pm[i].0 == t.product;
    }
    if t.vp == vp && t.director == d && HasKey(pm, t.product) {
      var i :| 0 <= i < |pm| && pm[i].0 == t.product;
      GetAt(pm, i);
      GetAt(f, i);
    }
  }

  lemma {:induction false} Flat2Spec(vp: Field, dm: DirectorGroups, t: Triple)
    requires UniqueKeys(dm)
    requires forall d :: HasKey(dm, d) ==> UniqueKeys(Get(dm, d).value)
    ensures UniqueKeys(Flat2(vp, dm))
    ensures Get(Flat2(vp, dm), t) == if t.vp != vp then None else
      (var pm := Get(dm, t.director); if pm.None? then None else Get(pm.value, t.product))
    decreases |dm|
  {
    if |dm| > 0 {
      var n := |dm| - 1;
      var init := dm[..n];
      var last := dm[n];
      assert dm == init + [last];
      assert UniqueKeys(init);
      forall d | HasKey(init, d) ensures UniqueKeys(Get(init, d).value) {
        GetSnoc(init, last.0, last.1, d);
      }
      GetSnoc(init, last.0, last.1, last.0);
      assert HasKey(dm, last.0) by { assert dm[n].0 == last.0; }
      forall i | 0 <= i < |init| ensures init[i].0 != last.0 {
        assert init[i] == dm[i];
      }
      Flat2Spec(vp, init, t);
      Flat1Spec(vp, last.0, last.1, t);
      var a := Flat2(vp, init);
      var b := Flat1(vp, last.0, last.1);
      forall i, j | 0 <= i < |a| && 0 <= j < |b| ensures a[i].0 != b[j].0 {
        Flat2Keys(vp, init, a[i].0);
        assert a[i].0.director != last.0;
      }
      UniqueAppend(a, b);
      GetAppend(a, b, t);
      GetSnoc(init, last.0, last.1, t.director);
    }
  }

  /** Every key of a director's flattening carries the VP and one of its directors. */
  lemma {:induction false} Flat2Keys(vp: Field, dm: DirectorGroups, t: Triple)
    requires HasKey(Flat2(vp, dm), t)
    ensures t.vp == vp && exists j :: 0 <= j < |dm| && dm[j].0 == t.director
    decreases |dm|
  {
    var n := |dm| - 1;
    var a: seq<(Triple, seq<Record>)> := Flat2(vp, dm[..n]);
    var b: seq<(Triple, seq<Record>)> := Flat1(vp, dm[n].0, dm[n].1);
    var i: int :| 0 <= i < |a + b| && (a + b)[i].0 == t;
    if i < |a| {
      assert a[i].0 == t;
      Flat2Keys(vp, dm[..n], t);
      var j :| 0 <= j < n && dm[..n][j].0 == t.director;
      assert dm[j].0 == t.director;
    } else {
      assert b[i - |a|].0 == t;
    }
  }

  /** Every key of the flattening carries one of the hierarchy's VPs. */
  lemma {:induction false} Flat3Keys(g: Hierarchy, t: Triple)
    requires HasKey(Flat3(g), t)
    ensures exists j :: 0 <= j < |g| && g[j].0 == t.vp
    decreases |g|
  {
    var n := |g| - 1;
    var a: seq<(Triple, seq<Record>)> := Flat3(g[..n]);
    var b: seq<(Triple, seq<Record>)> := Flat2(g[n].0, g[n].1);
    var i: int :| 0 <= i < |a + b| && (a + b)[i].0 == t;
    if i < |a| {
      assert a[i].0 == t;
      Flat3Keys(g[..n], t);
      var j :| 0 <= j < n && g[..n][j].0 == t.vp;
      assert g[j].0 == t.vp;
    } else {
      assert b[i - |a|].0 == t;
      assert HasKey(b, t);
      Flat2Keys(g[n].0, g[n].1, t);
    }
  }

  /** The flattening of a well-formed hierarchy has unique triples and looks up the same groups. */
  lemma {:induction false} Flat3Spec(g: Hierarchy, t: Triple)
    requires WellFormed(g)
    ensures UniqueKeys(Flat3(g))
    ensures Get(Flat3(g), t) == Group(g, t)
    decreases |g|
  {
    if |g| > 0 {
      var n := |g| - 1;
      var init := g[..n];
      var last := g[n];
      assert g == init + [last];
      forall i | 0 <= i < |init| ensures init[i].0 != last.0 {
        assert init[i] == g[i];
      }
      forall v | HasKey(init, v) ensures Get(init, v) == Get(g, v) {
        GetSnoc(init, last.0, last.1, v);
      }
      GetSnoc(init, last.0, last.1, last.0);
      assert HasKey(g, last.0) by { assert g[n].0 == last.0; }
      assert WellFormed(init);
      Flat3Spec(init, t);
      Flat2Spec(last.0, last.1, t);
      var a := Flat3(init);
      var b := Flat2(last.0, last.1);
      forall i, j | 0 <= i < |a| && 0 <= j < |b| ensures a[i].0 != b[j].0 {
        assert HasKey(a, a[i].0);
        Flat3Keys(init, a[i].0);
        assert HasKey(b, b[j].0);
        Flat2Keys(last.0, last.1, b[j].0);
      }
      UniqueAppend(a, b);
      GetAppend(a, b, t);
      GetSnoc(init, last.0, last.1, t.vp);
    }
  }

  /** `generate_app_status_data`'s answer for a hierarchy. */
  function AppStatusRows(g: Hierarchy): seq<AppStatusRow> {
    RowsOf(Flat3(g))
  }

  /**
   * The sheet has exactly one row per triple of a kept manager row, no
   * triple twice, and each row holds the figures of exactly that triple's
   * rows.
   */
  lemma AppStatusSpec(rows: seq<Record>)
    ensures var out := AppStatusRows(Grouped(rows));
      (forall i, j :: 0 <= i < j < |out| ==> TripleOfRow(out[i]) != TripleOfRow(out[j]))
      && (forall i :: 0 <= i < |out| ==>
            Members(rows, TripleOfRow(out[i])) != []
            && out[i] == MetricsFor(TripleOfRow(out[i]), Members(rows, TripleOfRow(out[i]))))
      && (forall r :: r in rows && !Skipped(r) ==> exists i :: 0 <= i < |out| && TripleOfRow(out[i]) == TripleOf(r))
  {
    AppStatusDistinct(rows);
    AppStatusFigures(rows);
    AppStatusCovers(rows);
  }

  /** No triple has two rows. */
  lemma AppStatusDistinct(rows: seq<Record>)
    ensures var out := AppStatusRows(Grouped(rows));
      forall i, j :: 0 <= i < j < |out| ==> TripleOfRow(out[i]) != TripleOfRow(out[j])
  {
    GroupedSpec(rows, Triple(FNull, FNull, FNull));
    Flat3Spec(Grouped(rows), Triple(FNull, FNull, FNull));
  }

  /** Each row holds the figures of its own triple's manager rows, of which there is at least one. */
  lemma AppStatusFigures(rows: seq<Record>)
    ensures var out := AppStatusRows(Grouped(rows));
      forall i :: 0 <= i < |out| ==>
        Members(rows, TripleOfRow(out[i])) != []
        && out[i] == MetricsFor(TripleOfRow(out[i]), Members(rows, TripleOfRow(out[i])))
  {
    var g := Grouped(rows);
    var f := Flat3(g);
    var out := AppStatusRows(g);
    GroupedSpec(rows, Triple(FNull, FNull, FNull));
    Flat3Spec(g, Triple(FNull, FNull, FNull));
    forall i | 0 <= i < |out|
      ensures Members(rows, TripleOfRow(out[i])) != []
      ensures out[i] == MetricsFor(TripleOfRow(out[i]), Members(rows, TripleOfRow(out[i])))
    {
      var t := f[i].0;
      assert TripleOfRow(out[i]) == t;
      GetAt(f, i);
      Flat3Spec(g, t);
      GroupedSpec(rows, t);
    }
  }

  /** Every kept manager row's triple has a row. */
  lemma AppStatusCovers(rows: seq<Record>)
    ensures var out := AppStatusRows(Grouped(rows));
      forall r :: r in rows && !Skipped(r) ==> exists i :: 0 <= i < |out| && TripleOfRow(out[i]) == TripleOf(r)
  {
    var g := Grouped(rows);
    var f := Flat3(g);
    var out := AppStatusRows(g);
    GroupedSpec(rows, Triple(FNull, FNull, FNull));
    Flat3Spec(g, Triple(FNull, FNull, FNull));
    forall r | r in rows && !Skipped(r) ensures exists i :: 0 <= i < |out| && TripleOfRow(out[i]) == TripleOf(r) {
      var t := TripleOf(r);
      MembersSpec(rows, t, r);
      GroupedSpec(rows, t);
      Flat3Spec(g, t);
      var i := IndexOfKey(f, t);
      assert TripleOfRow(out[i]) == t;
    }
  }

  /** `AppStatusReport`. */
  class AppStatusReport {
    const managerData: seq<Record>

    constructor(managerData: seq<Record>)
      ensures this.managerData == managerData
    {
      this.managerData := managerData;
    }

    /** `generate_app_status_data`: the loop over VPs. */
    method GenerateAppStatusData() returns (out: seq<AppStatusRow>)
      ensures out == AppStatusRows(Grouped(managerData))
    {
      var g := GroupByHierarchy(managerData);
      out := [];
      for a := 0 to |g|
        invariant out == RowsOf(Flat3(g[..a]))
      {
        assert g[..a + 1][..a] == g[..a];
        var xs := RowsForVp(g[a].0, g[a].1);
        RowsOfAppend(Flat3(g[..a]), Flat2(g[a].0, g[a].1));
        out := out + xs;
      }
      assert g[..|g|] == g;
    }

    /** The loop over the directors of one VP. */
    method RowsForVp(vp: Field, directors: DirectorGroups) returns (out: seq<AppStatusRow>)
      ensures out == RowsOf(Flat2(vp, directors))
    {
      out := [];
      for b := 0 to |directors|
        invariant out == RowsOf(Flat2(vp, directors[..b]))
      {
        assert directors[..b + 1][..b] == directors[..b];
        var xs := RowsForDirector(vp, directors[b].0, directors[b].1);
        RowsOfAppend(Flat2(vp, directors[..b]), Flat1(vp, directors[b].0, directors[b].1));
        out := out + xs;
      }
      assert directors[..|directors|] == directors;
    }

    /** The loop over the products of one director. */
    method RowsForDirector(vp: Field, director: Field, products: ProductGroups) returns (out: seq<AppStatusRow>)
      ensures out == RowsOf(Flat1(vp, director, products))
    {
      out := [];
      for c := 0 to |products|
        invariant |out| == c
        invariant forall i :: 0 <= i < c ==> out[i] == MetricsFor(Triple(vp, director, products[i].0), products[i].1)
      {
        var x := CalculateMetricsForGroup(vp, director, products[c].0, products[c].1);
        out := out + [x];
      }
    }
  }
}
