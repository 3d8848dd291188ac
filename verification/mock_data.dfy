/**
 * The in-memory entity store (mockDataService). Ten module-level arrays,
 * one per entity, are read by copying, grown by `push`, updated by
 * indexed assignment after `findIndex`, and shrunk by `splice`. Records
 * are plain JS objects; a create or update spreads the caller's partial
 * record over the stored one and stamps an id or a timestamp. Some
 * tables copy a display name from a parent table.
 *
 * Fresh ids (`crypto.randomUUID`) and timestamps (`new Date()`) are
 * parameters; the simulated delay is not modelled.
 */
module MockData {
  import opened JsValues

  type Rows = seq<Record>

  datatype Entity =
    | Region | Country | Department | Position | Employee
    | EmployeeHistory | Attendance | Contract | Payroll | Leave

  /** The key holding each entity's primary id. */
  function IdField(e: Entity): string
  {
    match e
    case Region => "regionId"
    case Country => "countryId"
    case Department => "departmentId"
    case Position => "positionId"
    case Employee => "employeeId"
    case EmployeeHistory => "employeeHistoryId"
    case Attendance => "attendanceId"
    case Contract => "contractId"
    case Payroll => "payrollId"
    case Leave => "leaveId"
  }

  /** The message an update of a missing id throws. */
  function NotFoundMessage(e: Entity): string
  {
    match e
    case Region => "Region not found"
    case Country => "Country not found"
    case Department => "Department not found"
    case Position => "Position not found"
    case Employee => "Employee not found"
    case EmployeeHistory => "Employee history not found"
    case Attendance => "Attendance not found"
    case Contract => "Contract not found"
    case Payroll => "Payroll not found"
    case Leave => "Leave not found"
  }

  // ---------------------------------------------------------------------------
  // Searching
  // ---------------------------------------------------------------------------

  /** `rows.findIndex(r => r[key] === v)`: the first match, or -1. */
  function IndexOf(rows: Rows, key: string, v: Value): (i: int)
    ensures -1 <= i < |rows|
    ensures i >= 0 ==> Get(rows[i], key) == v
    ensures forall j :: 0 <= j < |rows| && (i < 0 || j < i) ==> Get(rows[j], key) != v
    decreases |rows|
  {
    if rows == [] then -1
    else if Get(rows[0], key) == v then 0
    else
      var k := IndexOf(rows[1..], key, v);
      if k < 0 then -1 else k + 1
  }

  /** `rows.find(r => r[key] === v)`. */
  function FindRow(rows: Rows, key: string, v: Value): (found: Option<Record>)
    ensures found.None? <==> forall j :: 0 <= j < |rows| ==> Get(rows[j], key) != v
    ensures found.Some? ==> found.value in rows && Get(found.value, key) == v
    ensures found.Some? ==>
              exists i :: 0 <= i < |rows| && found.value == rows[i] && Get(rows[i], key) == v &&
                          forall j :: 0 <= j < i ==> Get(rows[j], key) != v
  {
    var i := IndexOf(rows, key, v);
    if i < 0 then None else Some(rows[i])
  }

  /** `found?.field`. */
  function Pick(found: Option<Record>, field: string): Value
  {
    match found
    case None => Undefined
    case Some(r) => Get(r, field)
  }

  /** `a || b`. */
  function OrElse(a: Value, b: Value): Value
  {
    if Truthy(a) then a else b
  }

  // ---------------------------------------------------------------------------
  // Denormalised names
  // ---------------------------------------------------------------------------

  /** The parent tables a create or update reads its display names from. */
  datatype Parents = Parents(regions: Rows, countries: Rows, departments: Rows, positions: Rows, employees: Rows)

  /** `${emp.firstName} ${emp.lastName}`. */
  function FullName(emp: Record): string
  {
    ToJsString(Get(emp, "firstName")) + " " + ToJsString(Get(emp, "lastName"))
  }

  /** `emp ? `${first} ${last}` : fallback`, emp looked up by `data.employeeId`. */
  function EmployeeNameOr(p: Parents, data: Record, fallback: Value): Value
  {
    match FindRow(p.employees, "employeeId", Get(data, "employeeId"))
    case Some(emp) => Str(FullName(emp))
    case None => fallback
  }

  function RegionNameFor(p: Parents, data: Record): Value
  {
    Pick(FindRow(p.regions, "regionId", Get(data, "regionId")), "regionName")
  }

  function CountryNameFor(p: Parents, data: Record): Value
  {
    Pick(FindRow(p.countries, "countryId", Get(data, "countryId")), "countryName")
  }

  function DepartmentNameFor(p: Parents, data: Record): Value
  {
    Pick(FindRow(p.departments, "departmentId", Get(data, "departmentId")), "departmentName")
  }

  function PositionNameFor(p: Parents, data: Record): Value
  {
    Pick(FindRow(p.positions, "positionId", Get(data, "positionId")), "positionName")
  }

  /** The display-name keys each entity's create and update always write. */
  function NameKeys(e: Entity): set<string>
  {
    match e
    case Country => {"regionName"}
    case Department => {"countryName"}
    case EmployeeHistory => {"employeeName", "departmentName", "positionName"}
    case Attendance | Contract | Payroll | Leave => {"employeeName"}
    case _ => {}
  }

  /** The display names a create writes: the parent's name, or undefined when no parent matches. */
  function CreateNames(e: Entity, data: Record, p: Parents): (names: map<string, Value>)
    ensures names.Keys == NameKeys(e)
  {
    match e
    case Country => map["regionName" := RegionNameFor(p, data)]
    case Department => map["countryName" := CountryNameFor(p, data)]
    case EmployeeHistory =>
      map["employeeName" := EmployeeNameOr(p, data, Undefined),
          "departmentName" := DepartmentNameFor(p, data),
          "positionName" := PositionNameFor(p, data)]
    case Attendance | Contract | Payroll | Leave => map["employeeName" := EmployeeNameOr(p, data, Undefined)]
    case _ => map[]
  }

  /**
   * The display names an update writes. Country and department always
   * overwrite theirs; the others fall back to the stored record's name.
   */
  function UpdateNames(e: Entity, stored: Record, data: Record, p: Parents): (names: map<string, Value>)
    ensures names.Keys == NameKeys(e)
  {
    match e
    case Country => map["regionName" := RegionNameFor(p, data)]
    case Department => map["countryName" := CountryNameFor(p, data)]
    case EmployeeHistory =>
      map["employeeName" := EmployeeNameOr(p, data, Get(stored, "employeeName")),
          "departmentName" := OrElse(DepartmentNameFor(p, data), Get(stored, "departmentName")),
          "positionName" := OrElse(PositionNameFor(p, data), Get(stored, "positionName"))]
    case Attendance | Contract | Payroll | Leave =>
      map["employeeName" := EmployeeNameOr(p, data, Get(stored, "employeeName"))]
    case _ => map[]
  }

  // ---------------------------------------------------------------------------
  // Records written by create and update
  // ---------------------------------------------------------------------------

  /** The id field is neither a display-name field nor a timestamp. */
  lemma IdFieldIsPlain(e: Entity)
    ensures IdField(e) !in NameKeys(e) && IdField(e) != "createdAt" && IdField(e) != "updatedAt"
    ensures "createdAt" !in NameKeys(e) && "updatedAt" !in NameKeys(e)
  {
    match e
    case Region =>
    case Country =>
    case Department =>
    case Position =>
    case Employee =>
    case EmployeeHistory =>
    case Attendance =>
    case Contract =>
    case Payroll =>
    case Leave =>
  }

  /** `{ ...data, <id>: freshId, <names>, createdAt: now }`. */
  function CreatedRecord(e: Entity, data: Record, p: Parents, freshId: string, now: string): (r: Record)
    ensures Get(r, IdField(e)) == Str(freshId)
    ensures Get(r, "createdAt") == Str(now)
    ensures r.Keys == data.Keys + {IdField(e), "createdAt"} + NameKeys(e)
    ensures forall k :: k in data && k != IdField(e) && k != "createdAt" && k !in NameKeys(e) ==> r[k] == data[k]
  {
    IdFieldIsPlain(e);
    data + map[IdField(e) := Str(freshId)] + CreateNames(e, data, p) + map["createdAt" := Str(now)]
  }

  /** `{ ...old, ...data, <names>, updatedAt: now }`. */
  function UpdatedRecord(e: Entity, stored: Record, data: Record, p: Parents, now: string): (r: Record)
    ensures Get(r, "updatedAt") == Str(now)
    ensures r.Keys == stored.Keys + data.Keys + NameKeys(e) + {"updatedAt"}
    ensures forall k :: k in data && k != "updatedAt" && k !in NameKeys(e) ==> r[k] == data[k]
    ensures forall k :: k in stored && k !in data && k != "updatedAt" && k !in NameKeys(e) ==> r[k] == stored[k]
  {
    stored + data + UpdateNames(e, stored, data, p) + map["updatedAt" := Str(now)]
  }

  /** A key of the middle map of `{ ...a, ...names, t: v }` other than `t` reads from `names`. */
  lemma MergeLookup(a: Record, names: map<string, Value>, t: string, v: Value, k: string)
    requires k in names && k != t
    ensures k in a + names + map[t := v] && (a + names + map[t := v])[k] == names[k]
  {
  }

  /** Each display-name field of a created record holds the name the create looked up. */
  lemma CreatedNameField(e: Entity, data: Record, p: Parents, freshId: string, now: string, k: string)
    requires k in NameKeys(e)
    ensures k in CreatedRecord(e, data, p, freshId, now)
    ensures CreatedRecord(e, data, p, freshId, now)[k] == CreateNames(e, data, p)[k]
  {
    IdFieldIsPlain(e);
    MergeLookup(data + map[IdField(e) := Str(freshId)], CreateNames(e, data, p), "createdAt", Str(now), k);
  }

  /** Each display-name field of an updated record holds the name the update chose. */
  lemma UpdatedNameField(e: Entity, stored: Record, data: Record, p: Parents, now: string, k: string)
    requires k in NameKeys(e)
    ensures k in UpdatedRecord(e, stored, data, p, now)
    ensures UpdatedRecord(e, stored, data, p, now)[k] == UpdateNames(e, stored, data, p)[k]
  {
    IdFieldIsPlain(e);
    MergeLookup(stored + data, UpdateNames(e, stored, data, p), "updatedAt", Str(now), k);
  }

  /** `if (idx >= 0) rows.splice(idx, 1)` after a `findIndex`. */
  function RemoveFirst(rows: Rows, key: string, v: Value): Rows
  {
    var i := IndexOf(rows, key, v);
    if i < 0 then rows else rows[..i] + rows[i + 1..]
  }

  /** No two stored records share an id. */
  ghost predicate UniqueIds(rows: Rows, key: string)
  {
    forall i, j :: 0 <= i < j < |rows| ==> Get(rows[i], key) != Get(rows[j], key)
  }

  // ---------------------------------------------------------------------------
  // One table
  // ---------------------------------------------------------------------------

  /** One module-level array of records. */
  class Table {
    const entity: Entity
    var rows: Rows

    constructor(entity: Entity, seed: Rows)
      ensures this.entity == entity && rows == seed
    {
      this.entity := entity;
      rows := seed;
    }

    /** `getX`: a copy holding the same records in the same order. */
    method GetAll() returns (copy: Rows)
      ensures copy == rows
    {
      copy := rows[..];
    }

    /** `findIndex` on the id field. */
    method FindIndex(id: Value) returns (idx: int)
      ensures idx == IndexOf(rows, IdField(entity), id)
    {
      var key := IdField(entity);
      var i := 0;
      while i < |rows|
        invariant 0 <= i <= |rows|
        invariant forall j :: 0 <= j < i ==> Get(rows[j], key) != id
      {
        if Get(rows[i], key) == id {
          return i;
        }
        i := i + 1;
      }
      return -1;
    }

    /** `createX`: appends the new record and returns it. */
    method Create(data: Record, p: Parents, freshId: string, now: string) returns (created: Record)
      modifies this
      ensures created == CreatedRecord(entity, data, p, freshId, now)
      ensures rows == old(rows) + [created]
    {
      created := CreatedRecord(entity, data, p, freshId, now);
      rows := rows + [created];
    }

    /** `updateX`: merges into the first record with that id, or throws "... not found". */
    method Update(id: string, data: Record, p: Parents, now: string) returns (result: Result<Record>)
      modifies this
      ensures var i := IndexOf(old(rows), IdField(entity), Str(id));
              if i < 0 then result == Err(NotFoundMessage(entity)) && rows == old(rows)
              else result == Ok(UpdatedRecord(entity, old(rows)[i], data, p, now)) && rows == old(rows)[i := result.value]
    {
      var idx := FindIndex(Str(id));
      if idx >= 0 {
        var updated := UpdatedRecord(entity, rows[idx], data, p, now);
        rows := rows[idx := updated];
        result := Ok(updated);
      } else {
        result := Err(NotFoundMessage(entity));
      }
    }

    /** `deleteX`: splices out the first record with that id; a missing id changes nothing. */
    method Delete(id: string)
      modifies this
      ensures rows == RemoveFirst(old(rows), IdField(entity), Str(id))
    {
      var idx := FindIndex(Str(id));
      if idx >= 0 {
        rows := rows[..idx] + rows[idx + 1..];
      }
    }
  }

  // ---------------------------------------------------------------------------
  // The service: ten tables
  // ---------------------------------------------------------------------------

  function SeedOf(seed: map<Entity, Rows>, e: Entity): Rows
  {
    if e in seed then seed[e] else []
  }

  class DataService {
    const regions: Table
    const countries: Table
    const departments: Table
    const positions: Table
    const employees: Table
    const employeeHistory: Table
    const attendance: Table
    const contracts: Table
    const payroll: Table
    const leaves: Table

    /** The array backing each entity. */
    function Tab(e: Entity): Table
    {
      match e
      case Region => regions
      case Country => countries
      case Department => departments
      case Position => positions
      case Employee => employees
      case EmployeeHistory => employeeHistory
      case Attendance => attendance
      case Contract => contracts
      case Payroll => payroll
      case Leave => leaves
    }

    /** Each entity has its own array, tagged with that entity. */
    predicate Valid()
    {
      (forall e :: Tab(e).entity == e) &&
      (forall e1, e2 :: e1 != e2 ==> Tab(e1) != Tab(e2))
    }

    /** The parent tables as they stand now. */
    function Snapshot(): Parents
      reads regions, countries, departments, positions, employees
    {
      Parents(regions.rows, countries.rows, departments.rows, positions.rows, employees.rows)
    }

    constructor(seed: map<Entity, Rows>)
      ensures Valid()
      ensures forall e :: Tab(e).rows == SeedOf(seed, e)
      ensures forall e :: fresh(Tab(e))
    {
      regions := new Table(Region, SeedOf(seed, Region));
      countries := new Table(Country, SeedOf(seed, Country));
      departments := new Table(Department, SeedOf(seed, Department));
      positions := new Table(Position, SeedOf(seed, Position));
      employees := new Table(Employee, SeedOf(seed, Employee));
      employeeHistory := new Table(EmployeeHistory, SeedOf(seed, EmployeeHistory));
      attendance := new Table(Attendance, SeedOf(seed, Attendance));
      contracts := new Table(Contract, SeedOf(seed, Contract));
      payroll := new Table(Payroll, SeedOf(seed, Payroll));
      leaves := new Table(Leave, SeedOf(seed, Leave));
      new;
      forall e
        ensures Tab(e).entity == e && Tab(e).rows == SeedOf(seed, e) && fresh(Tab(e))
      {
      }
    }

    /** `getRegions` ... `getLeaves`. */
    method Get(e: Entity) returns (copy: Rows)
      ensures copy == Tab(e).rows
    {
      copy := Tab(e).GetAll();
    }

    /** `createRegion` ... `createLeave`: only that entity's array grows. */
    method Create(e: Entity, data: Record, freshId: string, now: string) returns (created: Record)
      requires Valid()
      modifies Tab(e)
      ensures created == CreatedRecord(e, data, old(Snapshot()), freshId, now)
      ensures Tab(e).rows == old(Tab(e).rows) + [created]
      ensures forall other :: other != e ==> Tab(other).rows == old(Tab(other).rows)
    {
      created := Tab(e).Create(data, Snapshot(), freshId, now);
    }

    /** `updateRegion` ... `updateLeave`. */
    method Update(e: Entity, id: string, data: Record, now: string) returns (result: Result<Record>)
      requires Valid()
      modifies Tab(e)
      ensures var i := IndexOf(old(Tab(e).rows), IdField(e), Str(id));
              if i < 0 then result == Err(NotFoundMessage(e)) && Tab(e).rows == old(Tab(e).rows)
              else result == Ok(UpdatedRecord(e, old(Tab(e).rows)[i], data, old(Snapshot()), now)) &&
                   Tab(e).rows == old(Tab(e).rows)[i := result.value]
      ensures forall other :: other != e ==> Tab(other).rows == old(Tab(other).rows)
    {
      result := Tab(e).Update(id, data, Snapshot(), now);
    }

    /** `deleteRegion` ... `deleteLeave`. */
    method Delete(e: Entity, id: string)
      requires Valid()
      modifies Tab(e)
      ensures Tab(e).rows == RemoveFirst(old(Tab(e).rows), IdField(e), Str(id))
      ensures forall other :: other != e ==> Tab(other).rows == old(Tab(other).rows)
    {
      Tab(e).Delete(id);
    }
  }

  // ---------------------------------------------------------------------------
  // Properties of the table operations
  // ---------------------------------------------------------------------------

  /** A create with an id not yet in the table keeps the ids unique. */
  lemma CreateKeepsIdsUnique(e: Entity, rows: Rows, data: Record, p: Parents, freshId: string, now: string)
    requires UniqueIds(rows, IdField(e))
    requires forall j :: 0 <= j < |rows| ==> Get(rows[j], IdField(e)) != Str(freshId)
    ensures UniqueIds(rows + [CreatedRecord(e, data, p, freshId, now)], IdField(e))
  {
  }

  /** Replacing a record by one with the same id changes neither uniqueness nor where an id is found. */
  lemma ReplaceKeepsIds(rows: Rows, i: int, r: Record, key: string, v: Value)
    requires 0 <= i < |rows| && Get(r, key) == Get(rows[i], key)
    ensures UniqueIds(rows[i := r], key) <==> UniqueIds(rows, key)
    ensures IndexOf(rows[i := r], key, v) == IndexOf(rows, key, v)
  {
    var rows' := rows[i := r];
    assert forall j :: 0 <= j < |rows| ==> Get(rows'[j], key) == Get(rows[j], key);
    IndexOfByKeys(rows', rows, key, v);
  }

  /** `findIndex` sees only the key column. */
  lemma {:induction false} IndexOfByKeys(a: Rows, b: Rows, key: string, v: Value)
    requires |a| == |b| && forall j :: 0 <= j < |a| ==> Get(a[j], key) == Get(b[j], key)
    ensures IndexOf(a, key, v) == IndexOf(b, key, v)
    decreases |a|
  {
    if a != [] {
      IndexOfByKeys(a[1..], b[1..], key, v);
    }
  }

  /** An update whose data leaves the id alone keeps the ids unique and the record findable. */
  lemma UpdateKeepsIdsUnique(e: Entity, rows: Rows, id: string, data: Record, p: Parents, now: string)
    requires UniqueIds(rows, IdField(e))
    requires IdField(e) in data ==> data[IdField(e)] == Str(id)
    requires IndexOf(rows, IdField(e), Str(id)) >= 0
    ensures var i := IndexOf(rows, IdField(e), Str(id));
            var rows' := rows[i := UpdatedRecord(e, rows[i], data, p, now)];
            UniqueIds(rows', IdField(e)) && IndexOf(rows', IdField(e), Str(id)) == i
  {
    var key := IdField(e);
    var i := IndexOf(rows, key, Str(id));
    var r := UpdatedRecord(e, rows[i], data, p, now);
    IdFieldIsPlain(e);
    assert Get(r, key) == Str(id);
    ReplaceKeepsIds(rows, i, r, key, Str(id));
  }

  /** Delete keeps every other record, in order, and removes exactly one when the id exists. */
  lemma DeleteKeepsOthers(rows: Rows, key: string, v: Value)
    ensures var i := IndexOf(rows, key, v);
            var rest := RemoveFirst(rows, key, v);
            (i < 0 ==> rest == rows) &&
            (i >= 0 ==> |rest| == |rows| - 1 && multiset(rest) + multiset{rows[i]} == multiset(rows) &&
                        (forall j :: 0 <= j < i ==> rest[j] == rows[j]) &&
                        (forall j :: i <= j < |rest| ==> rest[j] == rows[j + 1]))
  {
    var i := IndexOf(rows, key, v);
    if i >= 0 {
      RemoveAt(rows, i, RemoveFirst(rows, key, v));
    }
  }

  lemma RemoveAt<T>(s: seq<T>, i: int, rest: seq<T>)
    requires 0 <= i < |s| && rest == s[..i] + s[i + 1..]
    ensures |rest| == |s| - 1
    ensures multiset(rest) + multiset{s[i]} == multiset(s)
    ensures forall j :: 0 <= j < i ==> rest[j] == s[j]
    ensures forall j :: i <= j < |rest| ==> rest[j] == s[j + 1]
  {
    assert s == s[..i] + [s[i]] + s[i + 1..];
  }

  /** With unique ids, a delete leaves no record with that id and keeps the rest unique. */
  lemma DeleteRemovesId(rows: Rows, key: string, v: Value)
    requires UniqueIds(rows, key)
    ensures UniqueIds(RemoveFirst(rows, key, v), key)
    ensures forall j :: 0 <= j < |RemoveFirst(rows, key, v)| ==> Get(RemoveFirst(rows, key, v)[j], key) != v
  {
    var i := IndexOf(rows, key, v);
    var rest := RemoveFirst(rows, key, v);
    if i >= 0 {
      DeleteKeepsOthers(rows, key, v);
      forall a, b | 0 <= a < b < |rest|
        ensures Get(rest[a], key) != Get(rest[b], key)
      {
        var a' := if a < i then a else a + 1;
        var b' := if b < i then b else b + 1;
        assert rest[a] == rows[a'] && rest[b] == rows[b'];
      }
      forall j | 0 <= j < |rest|
        ensures Get(rest[j], key) != v
      {
        var j' := if j < i then j else j + 1;
        assert rest[j] == rows[j'];
      }
    }
  }

  /** Deleting a record just created with a fresh id gives back the table as it was. */
  lemma DeleteUndoesCreate(e: Entity, rows: Rows, data: Record, p: Parents, freshId: string, now: string)
    requires forall j :: 0 <= j < |rows| ==> Get(rows[j], IdField(e)) != Str(freshId)
    ensures RemoveFirst(rows + [CreatedRecord(e, data, p, freshId, now)], IdField(e), Str(freshId)) == rows
  {
    var grown := rows + [CreatedRecord(e, data, p, freshId, now)];
    assert Get(grown[|rows|], IdField(e)) == Str(freshId);
    assert forall j :: 0 <= j < |rows| ==> grown[j] == rows[j];
    assert IndexOf(grown, IdField(e), Str(freshId)) == |rows|;
    assert grown[..|rows|] == rows;
  }

  /** Update of an id not in the table is the identity and reports the entity's message. */
  lemma UpdateMissingIsError(rows: Rows, e: Entity, id: string)
    requires forall j :: 0 <= j < |rows| ==> Get(rows[j], IdField(e)) != Str(id)
    ensures IndexOf(rows, IdField(e), Str(id)) == -1
    ensures RemoveFirst(rows, IdField(e), Str(id)) == rows
  {
  }

  // ---------------------------------------------------------------------------
  // Properties of the denormalised names
  // ---------------------------------------------------------------------------

  /** createCountry copies the first matching region's name, or leaves it undefined. */
  lemma CountryRegionName(data: Record, p: Parents, freshId: string, now: string)
    ensures var r := CreatedRecord(Country, data, p, freshId, now);
            var i := IndexOf(p.regions, "regionId", Get(data, "regionId"));
            (i >= 0 ==> r["regionName"] == Get(p.regions[i], "regionName")) &&
            (i < 0 ==> r["regionName"] == Undefined)
  {
  }

  /** updateCountry overwrites the region name every time; with no matching region it becomes undefined. */
  lemma CountryUpdateOverwritesRegionName(stored: Record, data: Record, p: Parents, now: string)
    requires forall j :: 0 <= j < |p.regions| ==> Get(p.regions[j], "regionId") != Get(data, "regionId")
    ensures UpdatedRecord(Country, stored, data, p, now)["regionName"] == Undefined
  {
  }

  /** updateDepartment likewise overwrites the country name. */
  lemma DepartmentUpdateOverwritesCountryName(stored: Record, data: Record, p: Parents, now: string)
    requires forall j :: 0 <= j < |p.countries| ==> Get(p.countries[j], "countryId") != Get(data, "countryId")
    ensures UpdatedRecord(Department, stored, data, p, now)["countryName"] == Undefined
    ensures CreatedRecord(Department, data, p, "", now)["countryName"] == Undefined
  {
  }

  /** The entities whose records carry the employee's display name. */
  predicate EmployeeLinked(e: Entity)
  {
    e.EmployeeHistory? || e.Attendance? || e.Contract? || e.Payroll? || e.Leave?
  }

  /** The employee-linked creates write "first last" of the matching employee, else undefined. */
  lemma CreatedEmployeeName(e: Entity, data: Record, p: Parents, freshId: string, now: string)
    requires EmployeeLinked(e)
    ensures var r := CreatedRecord(e, data, p, freshId, now);
            var i := IndexOf(p.employees, "employeeId", Get(data, "employeeId"));
            (i >= 0 ==> r["employeeName"] == Str(FullName(p.employees[i]))) &&
            (i < 0 ==> r["employeeName"] == Undefined)
  {
    CreateNamesEmployee(e, data, p);
    CreatedNameField(e, data, p, freshId, now, "employeeName");
    EmployeeNameLookup(p, data, Undefined);
  }

  /** The employee lookup: "first last" of the first matching employee, else the fallback. */
  lemma EmployeeNameLookup(p: Parents, data: Record, fallback: Value)
    ensures var i := IndexOf(p.employees, "employeeId", Get(data, "employeeId"));
            (i >= 0 ==> EmployeeNameOr(p, data, fallback) == Str(FullName(p.employees[i]))) &&
            (i < 0 ==> EmployeeNameOr(p, data, fallback) == fallback)
  {
  }

  lemma CreateNamesEmployee(e: Entity, data: Record, p: Parents)
    requires EmployeeLinked(e)
    ensures "employeeName" in NameKeys(e)
    ensures CreateNames(e, data, p)["employeeName"] == EmployeeNameOr(p, data, Undefined)
  {
  }

  /** The employee-linked updates keep the stored names when the lookups fail. */
  lemma UpdateKeepsOldNames(e: Entity, stored: Record, data: Record, p: Parents, now: string)
    requires EmployeeLinked(e)
    requires forall j :: 0 <= j < |p.employees| ==> Get(p.employees[j], "employeeId") != Get(data, "employeeId")
    requires forall j :: 0 <= j < |p.departments| ==> Get(p.departments[j], "departmentId") != Get(data, "departmentId")
    requires forall j :: 0 <= j < |p.positions| ==> Get(p.positions[j], "positionId") != Get(data, "positionId")
    ensures var r := UpdatedRecord(e, stored, data, p, now);
            Get(r, "employeeName") == Get(stored, "employeeName") &&
            (e == EmployeeHistory ==> Get(r, "departmentName") == Get(stored, "departmentName") &&
                                      Get(r, "positionName") == Get(stored, "positionName"))
  {
    var names := UpdateNames(e, stored, data, p);
    assert EmployeeNameOr(p, data, Get(stored, "employeeName")) == Get(stored, "employeeName");
    assert "employeeName" in NameKeys(e);
    UpdatedNameField(e, stored, data, p, now, "employeeName");
    assert names["employeeName"] == Get(stored, "employeeName");
    if e == EmployeeHistory {
      assert DepartmentNameFor(p, data) == Undefined && PositionNameFor(p, data) == Undefined;
      UpdatedNameField(e, stored, data, p, now, "departmentName");
      UpdatedNameField(e, stored, data, p, now, "positionName");
    }
  }

  /** A history update also keeps the stored department name when the found one is empty (`||`). */
  lemma HistoryEmptyDepartmentNameFallsBack(stored: Record, data: Record, p: Parents, now: string)
    requires !Truthy(DepartmentNameFor(p, data))
    ensures Get(UpdatedRecord(EmployeeHistory, stored, data, p, now), "departmentName") == Get(stored, "departmentName")
  {
  }
}
