/**
 * The HR database lookup (src/services/hrdb_clients/hrdb_client.py): a
 * table of employee records, looked up by lowercased username. The
 * organisational fields fall back along fixed column chains, and every
 * value handed out is trimmed, with NaN and the texts "nan"/"NaN" read
 * as empty.
 */
module HrdbModel {
  import opened Wrappers
  import opened Text
  import opened Assoc
  import opened RepoModel

  /** One cell of the table: NaN, or a value with its `str()` text. */
  datatype Cell = NaN | Val(text: string)

  /** One row of the table: column name to cell, in column order. */
  type Record = seq<(string, Cell)>

  /** `record.get(column, '')`. */
  function Lookup(record: Record, column: string): Cell {
    GetOr(record, column, Val(""))
  }

  /** `is_empty`: NaN, or text that trims to "", "nan" or "NaN". */
  predicate IsEmpty(c: Cell) {
    c.NaN? || Strip(c.text) == "" || Strip(c.text) == "nan" || Strip(c.text) == "NaN"
  }

  /** `safe_str`: NaN and the NaN texts become "", anything else is trimmed. */
  function SafeStr(c: Cell): string {
    if c.NaN? then ""
    else if Strip(c.text) == "nan" || Strip(c.text) == "NaN" then ""
    else Strip(c.text)
  }

  /** `safe_str` gives "" exactly on the cells `is_empty` rejects, and its result is trimmed. */
  lemma SafeStrSpec(c: Cell)
    ensures SafeStr(c) == "" <==> IsEmpty(c)
    ensures Strip(SafeStr(c)) == SafeStr(c)
    ensures !IsEmpty(c) ==> SafeStr(c) == Strip(c.text)
  {
    if c.Val? {
      StripShape(c.text);
    }
    StripUnpadded("");
  }

  /** The first non-empty of the given columns, trimmed, or "" (the reference for the chains). */
  function FirstNonEmpty(record: Record, columns: seq<string>): string
    decreases |columns|
  {
    if |columns| == 0 then ""
    else if !IsEmpty(Lookup(record, columns[0])) then Strip(Lookup(record, columns[0]).text)
    else FirstNonEmpty(record, columns[1..])
  }

  /**
   * `FirstNonEmpty` is "" exactly when every column is empty; otherwise it
   * is the trimmed value of a non-empty column with only empty columns
   * before it.
   */
  lemma {:induction false} FirstNonEmptySpec(record: Record, columns: seq<string>)
    ensures FirstNonEmpty(record, columns) == "" <==> forall i :: 0 <= i < |columns| ==> IsEmpty(Lookup(record, columns[i]))
    ensures FirstNonEmpty(record, columns) != "" ==>
      exists i :: 0 <= i < |columns| && !IsEmpty(Lookup(record, columns[i])) &&
        FirstNonEmpty(record, columns) == SafeStr(Lookup(record, columns[i])) &&
        forall j :: 0 <= j < i ==> IsEmpty(Lookup(record, columns[j]))
    ensures Strip(FirstNonEmpty(record, columns)) == FirstNonEmpty(record, columns)
    decreases |columns|
  {
    if |columns| == 0 {
      StripUnpadded("");
    } else {
      var c := Lookup(record, columns[0]);
      SafeStrSpec(c);
      if IsEmpty(c) {
        var rest := columns[1..];
        FirstNonEmptySpec(record, rest);
        assert forall i :: 0 < i < |columns| ==> columns[i] == rest[i - 1];
        if FirstNonEmpty(record, rest) != "" {
          var i :| 0 <= i < |rest| && !IsEmpty(Lookup(record, rest[i])) &&
            FirstNonEmpty(record, rest) == SafeStr(Lookup(record, rest[i])) &&
            forall j :: 0 <= j < i ==> IsEmpty(Lookup(record, rest[j]));
          assert columns[i + 1] == rest[i];
          assert forall j :: 0 <= j < i + 1 ==> IsEmpty(Lookup(record, columns[j]));
        }
      } else {
        assert !IsEmpty(Lookup(record, columns[0]));
      }
    }
  }

  const VpColumns := ["VP 2", "VP 1", "C Level"]
  const DirectorColumns := ["Director", "Sr. Manager (GM/CM)"]
  const GroupManagerColumns := ["Sr. Manager (GM/CM)", "Manager 2", "Manager Name"]

  /** `_get_vp_with_fallback`. */
  function VpWithFallback(record: Record): string {
    var vp2 := Lookup(record, "VP 2");
    var vp1 := Lookup(record, "VP 1");
    var cLevel := Lookup(record, "C Level");
    if !IsEmpty(vp2) then Strip(vp2.text)
    else if !IsEmpty(vp1) then Strip(vp1.text)
    else if !IsEmpty(cLevel) then Strip(cLevel.text)
    else ""
  }

  /** `_get_director_with_fallback`. */
  function DirectorWithFallback(record: Record): string {
    var director := Lookup(record, "Director");
    var srManager := Lookup(record, "Sr. Manager (GM/CM)");
    if !IsEmpty(director) then Strip(director.text)
    else if !IsEmpty(srManager) then Strip(srManager.text)
    else ""
  }

  /** `_get_group_manager_with_fallback`. */
  function GroupManagerWithFallback(record: Record): string {
    var srManager := Lookup(record, "Sr. Manager (GM/CM)");
    var manager2 := Lookup(record, "Manager 2");
    var managerName := Lookup(record, "Manager Name");
    if !IsEmpty(srManager) then Strip(srManager.text)
    else if !IsEmpty(manager2) then Strip(manager2.text)
    else if !IsEmpty(managerName) then Strip(managerName.text)
    else ""
  }

  /** Each chain is the first non-empty value along its columns, so each is trimmed. */
  lemma FallbackChains(record: Record)
    ensures VpWithFallback(record) == FirstNonEmpty(record, VpColumns)
    ensures DirectorWithFallback(record) == FirstNonEmpty(record, DirectorColumns)
    ensures GroupManagerWithFallback(record) == FirstNonEmpty(record, GroupManagerColumns)
  {
    assert VpColumns[1..] == ["VP 1", "C Level"] && VpColumns[1..][1..] == ["C Level"];
    assert VpColumns[1..][1..][1..] == [];
    assert DirectorColumns[1..] == ["Sr. Manager (GM/CM)"] && DirectorColumns[1..][1..] == [];
    assert GroupManagerColumns[1..] == ["Manager 2", "Manager Name"] && GroupManagerColumns[1..][1..] == ["Manager Name"];
    assert GroupManagerColumns[1..][1..][1..] == [];
  }

  /** The VP chain, case by case: 'VP 2', then 'VP 1', then 'C Level', then "". */
  lemma VpFallbackOrder(record: Record)
    ensures !IsEmpty(Lookup(record, "VP 2")) ==> VpWithFallback(record) == SafeStr(Lookup(record, "VP 2"))
    ensures IsEmpty(Lookup(record, "VP 2")) && !IsEmpty(Lookup(record, "VP 1")) ==>
      VpWithFallback(record) == SafeStr(Lookup(record, "VP 1"))
    ensures IsEmpty(Lookup(record, "VP 2")) && IsEmpty(Lookup(record, "VP 1")) && !IsEmpty(Lookup(record, "C Level")) ==>
      VpWithFallback(record) == SafeStr(Lookup(record, "C Level"))
    ensures VpWithFallback(record) == "" <==>
      IsEmpty(Lookup(record, "VP 2")) && IsEmpty(Lookup(record, "VP 1")) && IsEmpty(Lookup(record, "C Level"))
    ensures Strip(VpWithFallback(record)) == VpWithFallback(record)
  {
    SafeStrSpec(Lookup(record, "VP 2"));
    SafeStrSpec(Lookup(record, "VP 1"));
    SafeStrSpec(Lookup(record, "C Level"));
    StripUnpadded("");
  }

  /** The director chain: 'Director', then 'Sr. Manager (GM/CM)', then "". */
  lemma DirectorFallbackOrder(record: Record)
    ensures !IsEmpty(Lookup(record, "Director")) ==> DirectorWithFallback(record) == SafeStr(Lookup(record, "Director"))
    ensures IsEmpty(Lookup(record, "Director")) && !IsEmpty(Lookup(record, "Sr. Manager (GM/CM)")) ==>
      DirectorWithFallback(record) == SafeStr(Lookup(record, "Sr. Manager (GM/CM)"))
    ensures DirectorWithFallback(record) == "" <==>
      IsEmpty(Lookup(record, "Director")) && IsEmpty(Lookup(record, "Sr. Manager (GM/CM)"))
    ensures Strip(DirectorWithFallback(record)) == DirectorWithFallback(record)
  {
    SafeStrSpec(Lookup(record, "Director"));
    SafeStrSpec(Lookup(record, "Sr. Manager (GM/CM)"));
    StripUnpadded("");
  }

  /** The group-manager chain: 'Sr. Manager (GM/CM)', then 'Manager 2', then 'Manager Name', then "". */
  lemma GroupManagerFallbackOrder(record: Record)
    ensures !IsEmpty(Lookup(record, "Sr. Manager (GM/CM)")) ==>
      GroupManagerWithFallback(record) == SafeStr(Lookup(record, "Sr. Manager (GM/CM)"))
    ensures IsEmpty(Lookup(record, "Sr. Manager (GM/CM)")) && !IsEmpty(Lookup(record, "Manager 2")) ==>
      GroupManagerWithFallback(record) == SafeStr(Lookup(record, "Manager 2"))
    ensures (IsEmpty(Lookup(record, "Sr. Manager (GM/CM)")) && IsEmpty(Lookup(record, "Manager 2")) &&
             !IsEmpty(Lookup(record, "Manager Name"))) ==>
      GroupManagerWithFallback(record) == SafeStr(Lookup(record, "Manager Name"))
    ensures GroupManagerWithFallback(record) == "" <==>
      IsEmpty(Lookup(record, "Sr. Manager (GM/CM)")) && IsEmpty(Lookup(record, "Manager 2")) &&
      IsEmpty(Lookup(record, "Manager Name"))
    ensures Strip(GroupManagerWithFallback(record)) == GroupManagerWithFallback(record)
  {
    SafeStrSpec(Lookup(record, "Sr. Manager (GM/CM)"));
    SafeStrSpec(Lookup(record, "Manager 2"));
    SafeStrSpec(Lookup(record, "Manager Name"));
    StripUnpadded("");
  }

  /** The ten fields `get_user_data` hands out. */
  datatype UserData = UserData(
    generalManager: string,
    vp: string,
    title: string,
    department: string,
    managerName: string,
    director: string,
    vp2: string,
    cLevel: string,
    workerId: string,
    fullName: string)

  const NoUserData := UserData("", "", "", "", "", "", "", "", "", "")

  /** The fields of one matching record. */
  function UserOf(record: Record): UserData {
    UserData(
      GroupManagerWithFallback(record),
      VpWithFallback(record),
      SafeStr(Lookup(record, "Title")),
      SafeStr(Lookup(record, "Department Desc")),
      SafeStr(Lookup(record, "Manager Name")),
      DirectorWithFallback(record),
      SafeStr(Lookup(record, "VP 2")),
      SafeStr(Lookup(record, "C Level")),
      SafeStr(Lookup(record, "Worker ID")),
      SafeStr(Lookup(record, "Full Name")))
  }

  predicate Trimmed(u: UserData) {
    Strip(u.generalManager) == u.generalManager && Strip(u.vp) == u.vp && Strip(u.title) == u.title &&
    Strip(u.department) == u.department && Strip(u.managerName) == u.managerName &&
    Strip(u.director) == u.director && Strip(u.vp2) == u.vp2 && Strip(u.cLevel) == u.cLevel &&
    Strip(u.workerId) == u.workerId && Strip(u.fullName) == u.fullName
  }

  /** The load step's `.str.lower()` on one cell; NaN stays NaN. */
  function LowerCell(c: Cell): Cell {
    if c.NaN? then NaN else Val(Lower(c.text))
  }

  /** `df[column] = df[column].str.lower()`: rows without the column are left as they are. */
  function LowerColumn(rows: seq<Record>, column: string): (r: seq<Record>)
    ensures |r| == |rows|
    ensures forall i :: 0 <= i < |rows| && HasKey(rows[i], column) ==> r[i] == Put(rows[i], column, LowerCell(Lookup(rows[i], column)))
    ensures forall i :: 0 <= i < |rows| && !HasKey(rows[i], column) ==> r[i] == rows[i]
  {
    seq(|rows|, i requires 0 <= i < |rows| =>
      if HasKey(rows[i], column) then Put(rows[i], column, LowerCell(Lookup(rows[i], column))) else rows[i])
  }

  /** The table as the client holds it after loading the CSV rows. */
  function LoadTable(rows: seq<Record>): seq<Record> {
    LowerColumn(rows, "Username")
  }

  /** A CSV file as `read_csv` returns it: the header's column names and the rows. */
  datatype Csv = Csv(columns: seq<string>, rows: seq<Record>)

  /** The client's frame: the loaded table, or the empty, column-less frame a failed load leaves. */
  datatype HrTable = Loaded(rows: seq<Record>) | EmptyFrame

  /**
   * The constructor's `try`: a file that cannot be read (`None`), or one
   * without the key column (lowering it raises KeyError inside the same
   * `try`), leaves the empty frame; otherwise the key column is lowercased.
   */
  function LoadFrame(csv: Option<Csv>, column: string): (t: HrTable)
    ensures t.EmptyFrame? <==> csv.None? || column !in csv.value.columns
    ensures t.Loaded? ==> t.rows == LowerColumn(csv.value.rows, column)
  {
    if csv.None? || column !in csv.value.columns then EmptyFrame
    else Loaded(LowerColumn(csv.value.rows, column))
  }

  /** `HRDBClient(hrdb_path)`: the frame keyed by `Username`. */
  function LoadHrdb(csv: Option<Csv>): HrTable {
    LoadFrame(csv, "Username")
  }

  /** `df[column] == value` for one row. */
  predicate ColumnIs(record: Record, column: string, value: string) {
    Lookup(record, column) == Val(value)
  }

  /** The position of the first row whose `column` is `value`, or `|table|` (`row.iloc[0]`). */
  function FirstRow(table: seq<Record>, column: string, value: string): (i: nat)
    ensures i <= |table|
    ensures i < |table| ==> ColumnIs(table[i], column, value)
    ensures forall j :: 0 <= j < i ==> !ColumnIs(table[j], column, value)
    decreases |table|
  {
    if |table| == 0 then 0
    else if ColumnIs(table[0], column, value) then 0
    else 1 + FirstRow(table[1..], column, value)
  }

  /** `get_user_data`: the first row of the lowercased user, or ten empty fields. */
  function GetUserData(table: seq<Record>, username: string): UserData {
    var i := FirstRow(table, "Username", Lower(username));
    if i < |table| then UserOf(table[i]) else NoUserData
  }

  /**
   * `get_user_data` on the client's frame: the empty frame has no
   * `Username` column, so `self.df['Username']` raises KeyError.
   */
  function GetUserDataOf(t: HrTable, username: string): Result<UserData> {
    if t.EmptyFrame? then Failure("KeyError") else Success(GetUserData(t.rows, username))
  }

  /**
   * After a failed load every lookup raises KeyError; after a good one,
   * every lookup succeeds with trimmed fields and the lowercased stored
   * usernames match whatever the case of the file or the query.
   */
  lemma GetUserDataAfterLoad(csv: Option<Csv>, username: string)
    ensures GetUserDataOf(LoadHrdb(csv), username).Failure? <==> csv.None? || "Username" !in csv.value.columns
    ensures GetUserDataOf(LoadHrdb(csv), username).Failure? ==> GetUserDataOf(LoadHrdb(csv), username).error == "KeyError"
    ensures GetUserDataOf(LoadHrdb(csv), username).Success? ==>
      Trimmed(GetUserDataOf(LoadHrdb(csv), username).value) &&
      GetUserDataOf(LoadHrdb(csv), username).value == GetUserData(LoadTable(csv.value.rows), username)
  {
    if csv.Some? && "Username" in csv.value.columns {
      GetUserDataTrimmed(LoadTable(csv.value.rows), username);
    }
  }

  lemma LowerIdempotent(s: string)
    ensures Lower(Lower(s)) == Lower(s)
  {
  }

  /**
   * After lowering a column, a row matches a value exactly when its raw
   * cell lowercases to that value, so the lookup ignores the case of the
   * stored text.
   */
  lemma LoadedColumn(rows: seq<Record>, column: string, i: nat, value: string)
    requires i < |rows|
    ensures ColumnIs(LowerColumn(rows, column)[i], column, value) <==>
      Lookup(rows[i], column).Val? && Lower(Lookup(rows[i], column).text) == value
  {
    var r := rows[i];
    if HasKey(r, column) {
      PutGet(r, column, LowerCell(Lookup(r, column)), column);
    }
  }

  /**
   * `get_user_data`: with a matching row, the fields of the first one;
   * with none, ten empty fields. Either way every field is trimmed, and the
   * case of the username does not matter.
   */
  lemma GetUserDataSpec(table: seq<Record>, username: string)
    ensures (exists i :: 0 <= i < |table| && ColumnIs(table[i], "Username", Lower(username))) ==>
      exists i :: 0 <= i < |table| && ColumnIs(table[i], "Username", Lower(username)) &&
        (forall j :: 0 <= j < i ==> !ColumnIs(table[j], "Username", Lower(username))) &&
        GetUserData(table, username) == UserOf(table[i])
    ensures (forall i :: 0 <= i < |table| ==> !ColumnIs(table[i], "Username", Lower(username))) ==>
      GetUserData(table, username) == NoUserData
    ensures Trimmed(GetUserData(table, username))
    ensures GetUserData(table, Lower(username)) == GetUserData(table, username)
  {
    GetUserDataRows(table, username);
    GetUserDataTrimmed(table, username);
    LowerIdempotent(username);
  }

  /** The row `get_user_data` reads: the first match, or none. */
  lemma GetUserDataRows(table: seq<Record>, username: string)
    ensures (exists i :: 0 <= i < |table| && ColumnIs(table[i], "Username", Lower(username))) ==>
      exists i :: 0 <= i < |table| && ColumnIs(table[i], "Username", Lower(username)) &&
        (forall j :: 0 <= j < i ==> !ColumnIs(table[j], "Username", Lower(username))) &&
        GetUserData(table, username) == UserOf(table[i])
    ensures (forall i :: 0 <= i < |table| ==> !ColumnIs(table[i], "Username", Lower(username))) ==>
      GetUserData(table, username) == NoUserData
  {
    var i := FirstRow(table, "Username", Lower(username));
  }

  /** Each field `get_user_data` returns is trimmed. */
  lemma GetUserDataTrimmed(table: seq<Record>, username: string)
    ensures Trimmed(GetUserData(table, username))
  {
    StripUnpadded("");
    var i := FirstRow(table, "Username", Lower(username));
    if i < |table| {
      UserOfTrimmed(table[i]);
    }
  }

  /** Every field read from a record is trimmed. */
  lemma UserOfTrimmed(record: Record)
    ensures Trimmed(UserOf(record))
  {
    VpFallbackOrder(record);
    DirectorFallbackOrder(record);
    GroupManagerFallbackOrder(record);
    SafeStrSpec(Lookup(record, "Title"));
    SafeStrSpec(Lookup(record, "Department Desc"));
    SafeStrSpec(Lookup(record, "Manager Name"));
    SafeStrSpec(Lookup(record, "VP 2"));
    SafeStrSpec(Lookup(record, "C Level"));
    SafeStrSpec(Lookup(record, "Worker ID"));
    SafeStrSpec(Lookup(record, "Full Name"));
  }

  /** The ten HR fields of an owner record, in the order the processors write them. */
  function HrFields(u: UserData): Owner {
    [("general_manager", FStr(u.generalManager)), ("vp", FStr(u.vp)), ("title", FStr(u.title)),
     ("department", FStr(u.department)), ("manager_name", FStr(u.managerName)), ("director", FStr(u.director)),
     ("vp2", FStr(u.vp2)), ("c_level", FStr(u.cLevel)), ("worker_id", FStr(u.workerId)), ("full_name", FStr(u.fullName))]
  }

  /** An owner record: its name, one field of the source's own, then the HR fields. */
  function OwnerRecord(name: string, second: (string, Field), u: UserData): Owner {
    [("name", FStr(name)), second] + HrFields(u)
  }

  /**
   * An owner record holds its name, then its own field, then the HR values
   * under their keys (the own field's key differing from the keys read back).
   */
  lemma OwnerRecordSpec(name: string, second: (string, Field), u: UserData)
    requires second.0 != "name" && second.0 != "general_manager" && second.0 != "vp" && second.0 != "director"
    ensures |OwnerRecord(name, second, u)| == 12
    ensures Get(OwnerRecord(name, second, u), "name") == Some(FStr(name))
    ensures Get(OwnerRecord(name, second, u), second.0) == Some(second.1)
    ensures Get(OwnerRecord(name, second, u), "general_manager") == Some(FStr(u.generalManager))
    ensures Get(OwnerRecord(name, second, u), "vp") == Some(FStr(u.vp))
    ensures Get(OwnerRecord(name, second, u), "director") == Some(FStr(u.director))
  {
    var head: Owner := [("name", FStr(name)), second];
    var h := HrFields(u);
    assert OwnerRecord(name, second, u) == head + h;
    assert h[0].0 == "general_manager" && h[1].0 == "vp" && h[5].0 == "director";
    assert !HasKey(head, "general_manager") && !HasKey(head, "vp") && !HasKey(head, "director");
    assert Get(head, "name") == Some(FStr(name));
    assert IndexOfKey(head, second.0) == 1;
    GetAppend(head, h, "name");
    GetAppend(head, h, second.0);
    GetAppend(head, h, "general_manager");
    GetAppend(head, h, "vp");
    GetAppend(head, h, "director");
  }
}
