/**
 * The leave-balance report (LeaveBalance): three summary cards counting
 * rows by balance status, a remaining-days bar coloured by thresholds, an
 * avatar of initials, and a table searched by name, department and
 * position.
 */
module LeaveBalance {
  import opened JsValues
  import opened Text
  import DataTable

  datatype LeaveBalanceRow = LeaveBalanceRow(
    employeeId: string,
    fullName: string,
    departmentName: string,
    positionName: string,
    totalAllowedDays: int,
    paidDaysUsed: int,
    sickDaysUsed: int,
    unpaidDaysUsed: int,
    remainingDays: int,
    scheduledFutureDays: int,
    balanceStatus: string,
    usagePercentage: int)

  // ---------------------------------------------------------------------------
  // Summary cards
  // ---------------------------------------------------------------------------

  datatype Card = GoodStanding | LowBalance | Critical

  /** Each card's test on the status; the tests are case-sensitive. */
  predicate InCard(status: string, card: Card)
  {
    match card
    case GoodStanding => status == "OK"
    case LowBalance => Includes(status, "LOW") || Includes(status, "WARNING")
    case Critical => Includes(status, "OVERUSED") || Includes(status, "DEPLETED")
  }

  /** `data.filter(d => ...)` for one card. */
  function CardRows(rows: seq<LeaveBalanceRow>, card: Card): (r: seq<LeaveBalanceRow>)
    ensures |r| <= |rows|
    ensures forall x :: x in r <==> x in rows && InCard(x.balanceStatus, card)
    decreases |rows|
  {
    if rows == [] then []
    else (if InCard(rows[0].balanceStatus, card) then [rows[0]] else []) + CardRows(rows[1..], card)
  }

  /** The number a card shows. */
  function CardCount(rows: seq<LeaveBalanceRow>, card: Card): (n: nat)
    ensures n <= |rows|
    ensures n == 0 <==> forall x :: x in rows ==> !InCard(x.balanceStatus, card)
  {
    var r := CardRows(rows, card);
    assert r != [] ==> r[0] in r;
    |r|
  }

  /** Every row counts in the card exactly when every status passes its test. */
  lemma {:induction false} CardCountFull(rows: seq<LeaveBalanceRow>, card: Card)
    ensures CardCount(rows, card) == |rows| <==> forall i :: 0 <= i < |rows| ==> InCard(rows[i].balanceStatus, card)
    decreases |rows|
  {
    if rows != [] {
      CardCountFull(rows[1..], card);
      assert forall i :: 1 <= i < |rows| ==> rows[i] == rows[1..][i - 1];
      assert CardCount(rows, card) == (if InCard(rows[0].balanceStatus, card) then 1 else 0) + CardCount(rows[1..], card);
    }
  }

  /** Counts add up over the two halves of a list. */
  lemma {:induction false} CardCountAppend(a: seq<LeaveBalanceRow>, b: seq<LeaveBalanceRow>, card: Card)
    ensures CardCount(a + b, card) == CardCount(a, card) + CardCount(b, card)
    decreases |a|
  {
    if a == [] {
      assert a + b == b;
    } else {
      CardCountAppend(a[1..], b, card);
      assert (a + b)[1..] == a[1..] + b;
      var head := if InCard(a[0].balanceStatus, card) then [a[0]] else [];
      assert CardRows(a + b, card) == head + CardRows(a[1..] + b, card);
      assert CardRows(a, card) == head + CardRows(a[1..], card);
    }
  }

  /** "OK" passes neither the low-balance nor the critical test. */
  lemma GoodStandingIsExclusive(status: string)
    requires InCard(status, GoodStanding)
    ensures !InCard(status, LowBalance) && !InCard(status, Critical)
  {
    MissingCharExcludes(status, "LOW", 'L');
    MissingCharExcludes(status, "WARNING", 'W');
    MissingCharExcludes(status, "OVERUSED", 'V');
    MissingCharExcludes(status, "DEPLETED", 'D');
  }

  /** A row counted as in good standing is counted in neither other card. */
  lemma {:induction false} GoodStandingCountsSeparately(rows: seq<LeaveBalanceRow>)
    ensures CardCount(rows, GoodStanding) + CardCount(rows, LowBalance) <= |rows|
    ensures CardCount(rows, GoodStanding) + CardCount(rows, Critical) <= |rows|
    decreases |rows|
  {
    if rows != [] {
      GoodStandingCountsSeparately(rows[1..]);
      var s := rows[0].balanceStatus;
      if InCard(s, GoodStanding) {
        GoodStandingIsExclusive(s);
      }
      assert CardRows(rows, GoodStanding) == (if InCard(s, GoodStanding) then [rows[0]] else []) + CardRows(rows[1..], GoodStanding);
      assert CardRows(rows, LowBalance) == (if InCard(s, LowBalance) then [rows[0]] else []) + CardRows(rows[1..], LowBalance);
      assert CardRows(rows, Critical) == (if InCard(s, Critical) then [rows[0]] else []) + CardRows(rows[1..], Critical);
    }
  }

  /** The low and critical tests are substring tests: a status may pass both. */
  lemma LowAndCriticalOverlap()
    ensures InCard("LOW, OVERUSED", LowBalance) && InCard("LOW, OVERUSED", Critical)
  {
    IncludesStretch("", "LOW", ", OVERUSED");
    assert "" + "LOW" + ", OVERUSED" == "LOW, OVERUSED";
    IncludesStretch("LOW, ", "OVERUSED", "");
    assert "LOW, " + "OVERUSED" + "" == "LOW, OVERUSED";
  }

  /** Tests are case-sensitive: a lower-case "ok" is not in good standing. */
  lemma StatusTestsAreCaseSensitive()
    ensures !InCard("ok", GoodStanding)
    ensures !InCard("low", LowBalance)
  {
    MissingCharExcludes("low", "LOW", 'L');
    MissingCharExcludes("low", "WARNING", 'W');
  }

  // ---------------------------------------------------------------------------
  // Remaining-days bar
  // ---------------------------------------------------------------------------

  datatype BarColour = DestructiveBar | WarningBar | SuccessBar

  function RemainingColour(remainingDays: int): (c: BarColour)
    ensures c == DestructiveBar <==> remainingDays < 5
    ensures c == WarningBar <==> 5 <= remainingDays < 10
    ensures c == SuccessBar <==> 10 <= remainingDays
  {
    if remainingDays < 5 then DestructiveBar
    else if remainingDays < 10 then WarningBar
    else SuccessBar
  }

  function Severity(c: BarColour): nat
  {
    match c
    case DestructiveBar => 2
    case WarningBar => 1
    case SuccessBar => 0
  }

  /** More days remaining never makes the bar more severe. */
  lemma ColourMonotone(a: int, b: int)
    requires a <= b
    ensures Severity(RemainingColour(b)) <= Severity(RemainingColour(a))
  {
  }

  // ---------------------------------------------------------------------------
  // Avatar and search
  // ---------------------------------------------------------------------------

  /** `fullName.split(' ').map(n => n[0]).join('')`: an empty segment contributes nothing. */
  function Initials(fullName: string): string
  {
    JoinFirsts(Split(fullName, ' '))
  }

  function JoinFirsts(parts: seq<string>): (r: string)
    ensures |r| <= |parts|
  {
    if parts == [] then ""
    else (if parts[0] == "" then "" else [parts[0][0]]) + JoinFirsts(parts[1..])
  }

  /** A first and a last name give their two initials. */
  lemma TwoWordInitials(first: string, last: string)
    requires first != "" && last != "" && ' ' !in first && ' ' !in last
    ensures Initials(first + " " + last) == [first[0], last[0]]
  {
    assert first + " " + last == first + [' '] + last;
    SplitAtFirst(first, ' ', last);
    SplitNoSeparator(last, ' ');
    assert Split(first + " " + last, ' ') == [first, last];
    assert [first, last][1..] == [last];
    assert JoinFirsts([last]) == [last[0]] + JoinFirsts([]);
    assert JoinFirsts([first, last]) == [first[0]] + JoinFirsts([last]);
  }

  /** The table searches only these three columns. */
  const SearchKeys: seq<string> := ["fullName", "departmentName", "positionName"]

  /** The row as the table sees it. */
  function AsRecord(row: LeaveBalanceRow): Record
  {
    map[
      "employeeId" := Str(row.employeeId), "fullName" := Str(row.fullName),
      "departmentName" := Str(row.departmentName), "positionName" := Str(row.positionName),
      "totalAllowedDays" := Num(row.totalAllowedDays), "paidDaysUsed" := Num(row.paidDaysUsed),
      "sickDaysUsed" := Num(row.sickDaysUsed), "unpaidDaysUsed" := Num(row.unpaidDaysUsed),
      "remainingDays" := Num(row.remainingDays), "scheduledFutureDays" := Num(row.scheduledFutureDays),
      "balanceStatus" := Str(row.balanceStatus), "usagePercentage" := Num(row.usagePercentage)]
  }

  /** A row matches the search through its name, department or position, and through nothing else. */
  lemma SearchSeesOnlyNames(row: LeaveBalanceRow, query: string)
    ensures DataTable.RowMatches(AsRecord(row), SearchKeys, query) <==>
              Includes(Lower(row.fullName), query) || Includes(Lower(row.departmentName), query) ||
              Includes(Lower(row.positionName), query)
  {
    var r := AsRecord(row);
    assert Get(r, "fullName") == Str(row.fullName);
    assert Get(r, "departmentName") == Str(row.departmentName);
    assert Get(r, "positionName") == Str(row.positionName);
    assert SearchKeys[0] == "fullName" && SearchKeys[1] == "departmentName" && SearchKeys[2] == "positionName";
  }
}
