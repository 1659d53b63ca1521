/**
 * The older HR database lookup (src/services/hrdb_client.py): a table
 * keyed by e-mail address, where a username is turned into the company
 * address and only the senior manager and VP are read back, as the raw
 * cells of the first matching row.
 */
module HrdbEmailModel {
  import opened Wrappers
  import opened Text
  import opened Assoc
  import opened HrdbModel

  /** The mail domain appended to a username. */
  const Domain: string := "@checkpoint.com"

  /** The table as the client holds it after loading: the `EMAIL` column lowercased. */
  function LoadEmailTable(rows: seq<Record>): seq<Record> {
    LowerColumn(rows, "EMAIL")
  }

  /** `HRDBClient(hrdb_path)`: the frame keyed by `EMAIL`. */
  function LoadEmailHrdb(csv: Option<Csv>): HrTable {
    LoadFrame(csv, "EMAIL")
  }

  /** `f"{username.lower()}@checkpoint.com"`. */
  function EmailFor(username: string): string {
    Lower(username) + Domain
  }

  /** The two fields handed back, as the raw cells (NaN is passed through). */
  datatype ManagerVp = ManagerVp(generalManager: Cell, vp: Cell)

  /** `get_manager_vp`: the first row with the user's address, or two empty values. */
  function GetManagerVp(table: seq<Record>, username: string): ManagerVp {
    var i := FirstRow(table, "EMAIL", EmailFor(username));
    if i < |table| then ManagerVp(Lookup(table[i], "Senior Manager"), Lookup(table[i], "VP"))
    else ManagerVp(Val(""), Val(""))
  }

  /**
   * `get_manager_vp` on the client's frame: the empty frame has no `EMAIL`
   * column, so `self.df['EMAIL']` raises KeyError.
   */
  function GetManagerVpOf(t: HrTable, username: string): Result<ManagerVp> {
    if t.EmptyFrame? then Failure("KeyError") else Success(GetManagerVp(t.rows, username))
  }

  /**
   * After a failed load every lookup raises KeyError; after a good one, a
   * lookup succeeds, and a row matches exactly when its raw address agrees
   * with the user's company address ignoring case.
   */
  lemma GetManagerVpAfterLoad(csv: Option<Csv>, username: string)
    ensures GetManagerVpOf(LoadEmailHrdb(csv), username).Failure? <==> csv.None? || "EMAIL" !in csv.value.columns
    ensures GetManagerVpOf(LoadEmailHrdb(csv), username).Failure? ==> GetManagerVpOf(LoadEmailHrdb(csv), username).error == "KeyError"
    ensures GetManagerVpOf(LoadEmailHrdb(csv), username).Success? ==>
      GetManagerVpOf(LoadEmailHrdb(csv), username).value == GetManagerVp(LoadEmailTable(csv.value.rows), username)
  {
  }

  /** The address of a username is that username in lower case followed by the domain. */
  lemma EmailForSpec(username: string)
    ensures |EmailFor(username)| == |username| + |Domain|
    ensures EndsWith(EmailFor(username), Domain)
    ensures EmailFor(username)[..|username|] == Lower(username)
    ensures Lower(EmailFor(username)) == EmailFor(username)
    ensures EmailFor(Lower(username)) == EmailFor(username)
  {
    var e := EmailFor(username);
    assert e[|e| - |Domain|..] == Domain;
    assert Lower(Domain) == Domain;
    assert Lower(e) == e;
    assert Lower(Lower(username)) == Lower(username);
  }

  /**
   * A loaded row matches a username exactly when its raw address is as
   * long as the company address and its local part and domain agree with
   * them ignoring case.
   */
  lemma LoadedEmail(rows: seq<Record>, i: nat, username: string)
    requires i < |rows|
    ensures ColumnIs(LoadEmailTable(rows)[i], "EMAIL", EmailFor(username)) <==>
      Lookup(rows[i], "EMAIL").Val? &&
      |Lookup(rows[i], "EMAIL").text| == |username| + |Domain| &&
      Lower(Lookup(rows[i], "EMAIL").text[..|username|]) == Lower(username) &&
      Lower(Lookup(rows[i], "EMAIL").text[|username|..]) == Domain
  {
    LoadedColumn(rows, "EMAIL", i, EmailFor(username));
    var c := Lookup(rows[i], "EMAIL");
    if c.Val? && |c.text| == |username| + |Domain| {
      var t := c.text;
      var e := EmailFor(username);
      assert Lower(t)[..|username|] == Lower(t[..|username|]);
      assert Lower(t)[|username|..] == Lower(t[|username|..]);
      assert e[..|username|] == Lower(username) && e[|username|..] == Domain;
      assert Lower(t) == Lower(t)[..|username|] + Lower(t)[|username|..];
    }
  }

  /**
   * `get_manager_vp`: with a row holding the user's address, the two raw
   * cells of the first such row; with none, two empty values. A row whose
   * address is outside the domain never matches, and the case of the
   * username does not matter.
   */
  lemma GetManagerVpSpec(table: seq<Record>, username: string)
    ensures (exists i :: 0 <= i < |table| && ColumnIs(table[i], "EMAIL", EmailFor(username))) ==>
      exists i :: 0 <= i < |table| && ColumnIs(table[i], "EMAIL", EmailFor(username)) &&
        (forall j :: 0 <= j < i ==> !ColumnIs(table[j], "EMAIL", EmailFor(username))) &&
        GetManagerVp(table, username) == ManagerVp(Lookup(table[i], "Senior Manager"), Lookup(table[i], "VP"))
    ensures (forall i :: 0 <= i < |table| ==> !ColumnIs(table[i], "EMAIL", EmailFor(username))) ==>
      GetManagerVp(table, username) == ManagerVp(Val(""), Val(""))
    ensures forall i :: 0 <= i < |table| && Lookup(table[i], "EMAIL").Val? && !EndsWith(Lookup(table[i], "EMAIL").text, Domain) ==>
      !ColumnIs(table[i], "EMAIL", EmailFor(username))
    ensures GetManagerVp(table, Lower(username)) == GetManagerVp(table, username)
  {
    EmailForSpec(username);
    var i := FirstRow(table, "EMAIL", EmailFor(username));
    if i < |table| {
      assert ColumnIs(table[i], "EMAIL", EmailFor(username));
    }
  }
}
