/**
 * The generic table view (DataTable): on every render the rows are
 * filtered by the search box, sorted by the chosen column and sliced into
 * pages; the header, pagination buttons and search box update a small
 * view state.
 */
module DataTable {
  import opened JsValues
  import opened Text

  type Row = Record

  // ---------------------------------------------------------------------------
  // Filter
  // ---------------------------------------------------------------------------

  /** One field against the lower-cased query: strings case-insensitively, numbers by their digits. */
  predicate ValueMatches(v: Value, query: string)
  {
    match v
    case Str(s) => Includes(Lower(s), query)
    case Num(n) => Includes(NumberToString(n), query)
    case _ => false
  }

  /** `searchKeys.some(...)`: some search key of the row matches. */
  predicate RowMatches(row: Row, keys: seq<string>, query: string)
  {
    exists k :: k in keys && ValueMatches(Get(row, k), query)
  }

  /** The filter callback: an empty search keeps the row. */
  predicate Keep(row: Row, search: string, keys: seq<string>)
  {
    search == "" || RowMatches(row, keys, Lower(search))
  }

  /** `data.filter(...)`. */
  function FilterRows(data: seq<Row>, search: string, keys: seq<string>): (r: seq<Row>)
    ensures |r| <= |data|
    ensures forall x :: x in r <==> x in data && Keep(x, search, keys)
    decreases |data|
  {
    if data == [] then []
    else (if Keep(data[0], search, keys) then [data[0]] else []) + FilterRows(data[1..], search, keys)
  }

  /** a is obtained from b by deleting elements: order is preserved. */
  ghost predicate IsSubsequence<T>(a: seq<T>, b: seq<T>)
    decreases |b|
  {
    a == [] || (b != [] && ((a[0] == b[0] && IsSubsequence(a[1..], b[1..])) || IsSubsequence(a, b[1..])))
  }

  lemma {:induction false} FilterIsSubsequence(data: seq<Row>, search: string, keys: seq<string>)
    ensures IsSubsequence(FilterRows(data, search, keys), data)
    decreases |data|
  {
    if data != [] {
      FilterIsSubsequence(data[1..], search, keys);
      var rest := FilterRows(data[1..], search, keys);
      if Keep(data[0], search, keys) {
        assert FilterRows(data, search, keys) == [data[0]] + rest;
        assert ([data[0]] + rest)[1..] == rest;
      } else {
        assert FilterRows(data, search, keys) == rest;
      }
    }
  }

  /** An empty search box shows every row, in order. */
  lemma {:induction false} EmptySearchKeepsAll(data: seq<Row>, keys: seq<string>)
    ensures FilterRows(data, "", keys) == data
    decreases |data|
  {
    if data != [] {
      EmptySearchKeepsAll(data[1..], keys);
      assert [data[0]] + data[1..] == data;
    }
  }

  /** The filter never keeps a row twice nor invents one: its multiset is below the input's. */
  lemma {:induction false} FilterMultiset(data: seq<Row>, search: string, keys: seq<string>)
    ensures multiset(FilterRows(data, search, keys)) <= multiset(data)
    decreases |data|
  {
    if data != [] {
      FilterMultiset(data[1..], search, keys);
      assert data == [data[0]] + data[1..];
    }
  }

  /** Values of any type other than string and number never match a non-empty search. */
  lemma OnlyStringsAndNumbersMatch(row: Row, keys: seq<string>, search: string)
    requires search != ""
    requires forall k :: k in keys ==> !Get(row, k).Str? && !Get(row, k).Num?
    ensures row !in FilterRows([row], search, keys)
  {
  }

  // ---------------------------------------------------------------------------
  // Sort
  // ---------------------------------------------------------------------------

  datatype Direction = Asc | Desc

  predicate Missing(v: Value)
  {
    v.Null? || v.Undefined?
  }

  /** JS `<` on two strings: lexicographic by character code. */
  predicate StrLess(a: string, b: string)
    decreases |a|
  {
    if a == [] then b != []
    else if b == [] then false
    else a[0] < b[0] || (a[0] == b[0] && StrLess(a[1..], b[1..]))
  }

  /** JS `<` on two values of the same primitive kind; across kinds it is false, as for NaN. */
  predicate Less(a: Value, b: Value)
  {
    match (a, b)
    case (Num(x), Num(y)) => x < y
    case (Str(x), Str(y)) => StrLess(x, y)
    case (Bool(x), Bool(y)) => !x && y
    case _ => false
  }

  /** `!sortColumn`: no column, or the empty key, leaves the order alone. */
  predicate SortOff(column: Option<string>)
  {
    column.None? || column.value == ""
  }

  /** The comparator handed to `Array.prototype.sort`. */
  function Compare(a: Row, b: Row, column: Option<string>, dir: Direction): int
  {
    if SortOff(column) then 0
    else
      var av := Get(a, column.value);
      var bv := Get(b, column.value);
      if av == bv then 0
      else if Missing(av) then 1
      else if Missing(bv) then -1
      else
        var comparison := if Less(av, bv) then -1 else 1;
        if dir == Asc then comparison else -comparison
  }

  /** The comparator's promises for one column: equal is 0, missing last both ways, desc negates asc. */
  lemma CompareLaws(a: Row, b: Row, key: string)
    requires key != ""
    ensures Get(a, key) == Get(b, key) ==> Compare(a, b, Some(key), Asc) == 0 && Compare(a, b, Some(key), Desc) == 0
    ensures Missing(Get(a, key)) && !Missing(Get(b, key)) ==>
              Compare(a, b, Some(key), Asc) == 1 && Compare(a, b, Some(key), Desc) == 1 &&
              Compare(b, a, Some(key), Asc) == -1 && Compare(b, a, Some(key), Desc) == -1
    ensures !Missing(Get(a, key)) && !Missing(Get(b, key)) ==>
              Compare(a, b, Some(key), Desc) == -Compare(a, b, Some(key), Asc)
  {
  }

  /** Stable insertion of x after every element that does not compare greater than it. */
  function Insert(x: Row, s: seq<Row>, column: Option<string>, dir: Direction): seq<Row>
    decreases |s|
  {
    if s == [] then [x]
    else if Compare(s[0], x, column, dir) > 0 then [x] + s
    else [s[0]] + Insert(x, s[1..], column, dir)
  }

  /** `[...filteredData].sort(compare)`, as the stable insertion sort it is specified to equal. */
  function SortRows(s: seq<Row>, column: Option<string>, dir: Direction): seq<Row>
    decreases |s|
  {
    if s == [] then []
    else Insert(s[|s| - 1], SortRows(s[..|s| - 1], column, dir), column, dir)
  }

  lemma {:induction false} InsertMultiset(x: Row, s: seq<Row>, column: Option<string>, dir: Direction)
    ensures multiset(Insert(x, s, column, dir)) == multiset(s) + multiset{x}
    decreases |s|
  {
    if s != [] && Compare(s[0], x, column, dir) <= 0 {
      InsertMultiset(x, s[1..], column, dir);
      assert s == [s[0]] + s[1..];
    }
  }

  /** Sorting returns a permutation of its input. */
  lemma {:induction false} SortIsPermutation(s: seq<Row>, column: Option<string>, dir: Direction)
    ensures multiset(SortRows(s, column, dir)) == multiset(s)
    decreases |s|
  {
    if s != [] {
      var init := s[..|s| - 1];
      SortIsPermutation(init, column, dir);
      InsertMultiset(s[|s| - 1], SortRows(init, column, dir), column, dir);
      assert s == init + [s[|s| - 1]];
    }
  }

  /** With no sort column the comparator is 0 everywhere and the order is left unchanged. */
  lemma {:induction false} UnsortedKeepsOrder(s: seq<Row>, column: Option<string>, dir: Direction)
    requires SortOff(column)
    ensures SortRows(s, column, dir) == s
    decreases |s|
  {
    if s != [] {
      var init := s[..|s| - 1];
      UnsortedKeepsOrder(init, column, dir);
      InsertAppends(s[|s| - 1], init, column, dir);
      assert init + [s[|s| - 1]] == s;
    }
  }

  lemma {:induction false} InsertAppends(x: Row, s: seq<Row>, column: Option<string>, dir: Direction)
    requires SortOff(column)
    ensures Insert(x, s, column, dir) == s + [x]
    decreases |s|
  {
    if s != [] {
      InsertAppends(x, s[1..], column, dir);
      assert [s[0]] + (s[1..] + [x]) == s + [x];
    }
  }

  // Order of the sorted output.

  datatype Kind = NumKind | StrKind | BoolKind | NoKind

  function KindOf(v: Value): Kind
  {
    match v
    case Num(_) => NumKind
    case Str(_) => StrKind
    case Bool(_) => BoolKind
    case _ => NoKind
  }

  /** Two values a column can hold together: one kind of defined value, plus missing ones. */
  predicate SameKind(a: Value, b: Value)
  {
    Missing(a) || Missing(b) || KindOf(a) == KindOf(b)
  }

  /** Every row has the same shape: the column never mixes kinds of defined values. */
  ghost predicate UniformColumn(s: seq<Row>, key: string)
  {
    forall a, b :: a in s && b in s ==> SameKind(Get(a, key), Get(b, key))
  }

  /** The order a sorted column is promised to have: defined values by direction, missing ones last. */
  predicate Before(a: Value, b: Value, dir: Direction)
  {
    if Missing(a) then Missing(b)
    else if Missing(b) then true
    else if dir == Asc then !Less(b, a) else !Less(a, b)
  }

  ghost predicate SortedBy(s: seq<Row>, key: string, dir: Direction)
  {
    forall i, j :: 0 <= i < j < |s| ==> Before(Get(s[i], key), Get(s[j], key), dir)
  }

  lemma {:induction false} StrLessIrreflexive(a: string)
    ensures !StrLess(a, a)
    decreases |a|
  {
    if a != [] {
      StrLessIrreflexive(a[1..]);
    }
  }

  lemma {:induction false} StrLessTransitive(a: string, b: string, c: string)
    requires StrLess(a, b) && StrLess(b, c)
    ensures StrLess(a, c)
    decreases |a|
  {
    if a != [] && b != [] && c != [] && a[0] == b[0] && b[0] == c[0] {
      StrLessTransitive(a[1..], b[1..], c[1..]);
    }
  }

  lemma {:induction false} StrLessTotal(a: string, b: string)
    requires a != b
    ensures StrLess(a, b) || StrLess(b, a)
    decreases |a|
  {
    if a != [] && b != [] && a[0] == b[0] {
      assert a[1..] != b[1..] by {
        assert a == [a[0]] + a[1..] && b == [b[0]] + b[1..];
      }
      StrLessTotal(a[1..], b[1..]);
    }
  }

  lemma {:induction false} StrLessAsymmetric(a: string, b: string)
    requires StrLess(a, b)
    ensures !StrLess(b, a)
  {
    if StrLess(b, a) {
      StrLessTransitive(a, b, a);
      StrLessIrreflexive(a);
    }
  }

  /** On defined values of one kind, `<` is a strict total order. */
  lemma LessOrder(a: Value, b: Value, c: Value)
    requires !Missing(a) && !Missing(b) && !Missing(c)
    requires KindOf(a) == KindOf(b) == KindOf(c)
    ensures !Less(a, a)
    ensures Less(a, b) ==> !Less(b, a)
    ensures a != b ==> Less(a, b) || Less(b, a)
    ensures Less(a, b) && Less(b, c) ==> Less(a, c)
  {
    if a.Str? {
      StrLessIrreflexive(a.s);
      if Less(a, b) {
        StrLessAsymmetric(a.s, b.s);
      }
      if a != b {
        StrLessTotal(a.s, b.s);
      }
      if Less(a, b) && Less(b, c) {
        StrLessTransitive(a.s, b.s, c.s);
      }
    }
  }

  lemma BeforeTransitive(a: Value, b: Value, c: Value, dir: Direction)
    requires SameKind(a, b) && SameKind(b, c) && SameKind(a, c)
    requires Before(a, b, dir) && Before(b, c, dir)
    ensures Before(a, c, dir)
  {
    if !Missing(a) && !Missing(b) && !Missing(c) {
      LessOrder(a, b, c);
      LessOrder(c, b, a);
      LessOrder(b, a, c);
      LessOrder(a, c, b);
    }
  }

  lemma CompareNotAboveIsBefore(y: Row, x: Row, key: string, dir: Direction)
    requires key != "" && SameKind(Get(y, key), Get(x, key))
    requires Compare(y, x, Some(key), dir) <= 0
    ensures Before(Get(y, key), Get(x, key), dir)
  {
    var yv, xv := Get(y, key), Get(x, key);
    if !Missing(yv) && !Missing(xv) {
      LessOrder(yv, xv, xv);
    }
  }

  lemma CompareAboveIsAfter(y: Row, x: Row, key: string, dir: Direction)
    requires key != "" && SameKind(Get(y, key), Get(x, key))
    requires Compare(y, x, Some(key), dir) > 0
    ensures Before(Get(x, key), Get(y, key), dir)
  {
    var yv, xv := Get(y, key), Get(x, key);
    if !Missing(yv) && !Missing(xv) {
      LessOrder(yv, xv, xv);
    }
  }

  /** A row that comes before every row of a sorted list can be put in front of it. */
  lemma PrependSorted(y: Row, s: seq<Row>, key: string, dir: Direction)
    requires SortedBy(s, key, dir)
    requires forall j :: 0 <= j < |s| ==> Before(Get(y, key), Get(s[j], key), dir)
    ensures SortedBy([y] + s, key, dir)
  {
    var r := [y] + s;
    forall i, j | 0 <= i < j < |r|
      ensures Before(Get(r[i], key), Get(r[j], key), dir)
    {
      assert r[j] == s[j - 1];
      if i > 0 {
        assert r[i] == s[i - 1];
      }
    }
  }

  /** A row before the head of a sorted list of one kind is before all of it. */
  lemma BeforeHeadBeforeAll(x: Row, s: seq<Row>, key: string, dir: Direction)
    requires s != [] && UniformColumn(s + [x], key) && SortedBy(s, key, dir)
    requires Before(Get(x, key), Get(s[0], key), dir)
    ensures forall j :: 0 <= j < |s| ==> Before(Get(x, key), Get(s[j], key), dir)
  {
    forall j | 0 < j < |s|
      ensures Before(Get(x, key), Get(s[j], key), dir)
    {
      assert s[0] in s + [x] && s[j] in s + [x] && x in s + [x];
      BeforeTransitive(Get(x, key), Get(s[0], key), Get(s[j], key), dir);
    }
  }

  /** The head of a sorted list that is before `x` is before every row of the tail with `x` inserted. */
  lemma HeadBeforeInsert(x: Row, s: seq<Row>, t: seq<Row>, key: string, dir: Direction)
    requires s != [] && SortedBy(s, key, dir)
    requires Before(Get(s[0], key), Get(x, key), dir)
    requires t == Insert(x, s[1..], Some(key), dir)
    ensures forall j :: 0 <= j < |t| ==> Before(Get(s[0], key), Get(t[j], key), dir)
  {
    var tail := s[1..];
    InsertMultiset(x, tail, Some(key), dir);
    forall j | 0 <= j < |t|
      ensures Before(Get(s[0], key), Get(t[j], key), dir)
    {
      var e := t[j];
      assert e in multiset(t);
      if e != x {
        assert e in tail;
        var k :| 0 <= k < |tail| && tail[k] == e;
        assert s[k + 1] == e;
      }
    }
  }

  lemma {:induction false} InsertSorted(x: Row, s: seq<Row>, key: string, dir: Direction)
    requires key != ""
    requires UniformColumn(s + [x], key)
    requires SortedBy(s, key, dir)
    ensures SortedBy(Insert(x, s, Some(key), dir), key, dir)
    decreases |s|
  {
    var col := Some(key);
    if s == [] {
    } else {
      assert s[0] in s + [x] && x in s + [x];
      if Compare(s[0], x, col, dir) > 0 {
        CompareAboveIsAfter(s[0], x, key, dir);
        BeforeHeadBeforeAll(x, s, key, dir);
        PrependSorted(x, s, key, dir);
      } else {
        var tail := s[1..];
        assert forall a :: a in tail + [x] ==> a in s + [x];
        InsertSorted(x, tail, key, dir);
        CompareNotAboveIsBefore(s[0], x, key, dir);
        HeadBeforeInsert(x, s, Insert(x, tail, col, dir), key, dir);
        PrependSorted(s[0], Insert(x, tail, col, dir), key, dir);
      }
    }
  }

  /** On a column of one kind, the sorted rows follow the direction with missing values last. */
  lemma {:induction false} SortIsOrdered(s: seq<Row>, key: string, dir: Direction)
    requires key != ""
    requires UniformColumn(s, key)
    ensures SortedBy(SortRows(s, Some(key), dir), key, dir)
    decreases |s|
  {
    if s != [] {
      var init := s[..|s| - 1];
      var last := s[|s| - 1];
      assert forall a :: a in init ==> a in s;
      SortIsOrdered(init, key, dir);
      var sorted := SortRows(init, Some(key), dir);
      SortIsPermutation(init, Some(key), dir);
      forall a | a in sorted + [last]
        ensures a in s
      {
        if a in sorted {
          assert a in multiset(sorted);
          assert a in multiset(init);
        }
      }
      InsertSorted(last, sorted, key, dir);
    }
  }

  // Stability of the sort.

  /** The rows whose `key` holds `v`, in their order. */
  function Select(s: seq<Row>, key: string, v: Value): (r: seq<Row>)
    ensures |r| <= |s|
    ensures forall i :: 0 <= i < |r| ==> Get(r[i], key) == v
    decreases |s|
  {
    if s == [] then [] else (if Get(s[0], key) == v then [s[0]] else []) + Select(s[1..], key, v)
  }

  lemma {:induction false} SelectAppend(a: seq<Row>, b: seq<Row>, key: string, v: Value)
    ensures Select(a + b, key, v) == Select(a, key, v) + Select(b, key, v)
    decreases |a|
  {
    if a == [] {
      assert a + b == b;
    } else {
      var head := if Get(a[0], key) == v then [a[0]] else [];
      assert (a + b)[0] == a[0];
      assert (a + b)[1..] == a[1..] + b;
      assert Select(a + b, key, v) == head + Select(a[1..] + b, key, v);
      SelectAppend(a[1..], b, key, v);
      assert Select(a, key, v) == head + Select(a[1..], key, v);
    }
  }

  /** No row holds `v`: nothing is selected. */
  lemma {:induction false} SelectNone(s: seq<Row>, key: string, v: Value)
    requires forall j :: 0 <= j < |s| ==> Get(s[j], key) != v
    ensures Select(s, key, v) == []
    decreases |s|
  {
    if s != [] {
      SelectNone(s[1..], key, v);
    }
  }

  /** A column never holds both `null` and `undefined`, the two values the comparator ranks against each other inconsistently. */
  ghost predicate OneMissingKind(s: seq<Row>, key: string)
  {
    forall a, b :: a in s && b in s && Missing(Get(a, key)) && Missing(Get(b, key)) ==> Get(a, key) == Get(b, key)
  }

  /** On values a column can hold together, `Before` both ways means equal. */
  lemma BeforeAntisymmetric(a: Value, b: Value, dir: Direction)
    requires SameKind(a, b) && (Missing(a) && Missing(b) ==> a == b)
    requires Before(a, b, dir) && Before(b, a, dir)
    ensures a == b
  {
    if !Missing(a) && !Missing(b) {
      LessOrder(a, b, b);
    }
  }

  /** A row put in front of a sorted list compares below every row of it, so none holds its value. */
  lemma FrontRowIsAlone(x: Row, t: seq<Row>, key: string, dir: Direction)
    requires key != "" && t != []
    requires UniformColumn(t + [x], key) && OneMissingKind(t + [x], key) && SortedBy(t, key, dir)
    requires Compare(t[0], x, Some(key), dir) > 0
    ensures Select(t, key, Get(x, key)) == []
  {
    var v := Get(x, key);
    assert t[0] in t + [x] && x in t + [x];
    CompareAboveIsAfter(t[0], x, key, dir);
    forall j | 0 <= j < |t|
      ensures Get(t[j], key) != v
    {
      if j > 0 && Get(t[j], key) == v {
        BeforeAntisymmetric(Get(t[0], key), v, dir);
      }
    }
    SelectNone(t, key, v);
  }

  /** Putting a row before a list whose rows it is alone among commutes with selection. */
  lemma FrontSelect(x: Row, t: seq<Row>, key: string, v: Value)
    requires Get(x, key) == v ==> Select(t, key, v) == []
    ensures Select([x] + t, key, v) == Select(t, key, v) + Select([x], key, v)
  {
    SelectAppend([x], t, key, v);
  }

  /** A row kept in front is selected in front. */
  lemma ConsSelect(y: Row, a: seq<Row>, b: seq<Row>, c: seq<Row>, key: string, v: Value)
    requires Select(a, key, v) == Select(b, key, v) + c
    ensures Select([y] + a, key, v) == Select([y] + b, key, v) + c
  {
    SelectAppend([y], a, key, v);
    SelectAppend([y], b, key, v);
  }

  /** Inserting a row leaves the rows of each value in order and puts it after those of its own value. */
  lemma {:induction false} InsertSelect(x: Row, t: seq<Row>, key: string, dir: Direction, v: Value)
    requires key != ""
    requires UniformColumn(t + [x], key) && OneMissingKind(t + [x], key) && SortedBy(t, key, dir)
    ensures Select(Insert(x, t, Some(key), dir), key, v) == Select(t, key, v) + Select([x], key, v)
    decreases |t|
  {
    if t == [] {
      assert Insert(x, t, Some(key), dir) == [x];
    } else if Compare(t[0], x, Some(key), dir) > 0 {
      assert Insert(x, t, Some(key), dir) == [x] + t;
      if Get(x, key) == v {
        FrontRowIsAlone(x, t, key, dir);
      }
      FrontSelect(x, t, key, v);
    } else {
      var tail := t[1..];
      var inserted := Insert(x, tail, Some(key), dir);
      assert Insert(x, t, Some(key), dir) == [t[0]] + inserted;
      SortedTail(t, x, key, dir);
      InsertSelect(x, tail, key, dir, v);
      ConsSelect(t[0], inserted, tail, Select([x], key, v), key, v);
      assert t == [t[0]] + tail;
    }
  }

  /** The tail of a sorted list of one kind, with `x` after it, keeps both column properties. */
  lemma SortedTail(t: seq<Row>, x: Row, key: string, dir: Direction)
    requires t != []
    requires UniformColumn(t + [x], key) && OneMissingKind(t + [x], key) && SortedBy(t, key, dir)
    ensures UniformColumn(t[1..] + [x], key) && OneMissingKind(t[1..] + [x], key) && SortedBy(t[1..], key, dir)
  {
    assert forall a :: a in t[1..] + [x] ==> a in t + [x];
  }

  /** The sort keeps the rows it is given, so their membership. */
  lemma SortKeepsMembers(s: seq<Row>, column: Option<string>, dir: Direction)
    ensures forall a :: a in SortRows(s, column, dir) <==> a in s
  {
    SortIsPermutation(s, column, dir);
    forall a
      ensures a in SortRows(s, column, dir) <==> a in s
    {
      assert a in SortRows(s, column, dir) <==> a in multiset(SortRows(s, column, dir));
      assert a in s <==> a in multiset(s);
    }
  }

  /** Both column properties pass to any list of rows drawn from the column. */
  lemma ColumnPropertiesOfPart(a: seq<Row>, b: seq<Row>, key: string)
    requires forall r :: r in a ==> r in b
    requires UniformColumn(b, key) && OneMissingKind(b, key)
    ensures UniformColumn(a, key) && OneMissingKind(a, key)
  {
  }

  /** The sort is stable: on a column of one kind, rows holding the same value keep their relative order. */
  lemma {:induction false} SortIsStable(s: seq<Row>, key: string, dir: Direction, v: Value)
    requires key != ""
    requires UniformColumn(s, key) && OneMissingKind(s, key)
    ensures Select(SortRows(s, Some(key), dir), key, v) == Select(s, key, v)
    decreases |s|
  {
    if s != [] {
      var init := s[..|s| - 1];
      var last := s[|s| - 1];
      assert s == init + [last];
      ColumnPropertiesOfPart(init, s, key);
      SortIsStable(init, key, dir, v);
      SortIsOrdered(init, key, dir);
      var sorted := SortRows(init, Some(key), dir);
      SortKeepsMembers(init, Some(key), dir);
      ColumnPropertiesOfPart(sorted + [last], s, key);
      InsertSelect(last, sorted, key, dir, v);
      SelectAppend(init, [last], key, v);
    }
  }

  /** Outside that scope the sort is not stable: a string between two equal numbers sends the later one first. */
  lemma MixedKindsReorder()
    ensures var first := map["k" := Num(1)];
            var middle := map["k" := Str("x")];
            var second := map["k" := Num(1), "n" := Num(2)];
            SortRows([first, middle, second], Some("k"), Asc) == [second, middle, first]
  {
    var first := map["k" := Num(1)];
    var middle := map["k" := Str("x")];
    var second := map["k" := Num(1), "n" := Num(2)];
    assert [first, middle, second][..2] == [first, middle];
    assert [first, middle][..1] == [first];
    assert SortRows([first], Some("k"), Asc) == [first];
    assert SortRows([first, middle], Some("k"), Asc) == [middle, first];
  }

  // ---------------------------------------------------------------------------
  // Pagination
  // ---------------------------------------------------------------------------

  function Min(a: int, b: int): int { if a < b then a else b }
  function Max(a: int, b: int): int { if a < b then b else a }

  /** `Math.ceil(length / pageSize)`. */
  function TotalPages(n: nat, pageSize: nat): (t: nat)
    requires pageSize > 0
    ensures t * pageSize >= n
    ensures n > 0 ==> (t - 1) * pageSize < n
    ensures n == 0 <==> t == 0
  {
    var t := (n + pageSize - 1) / pageSize;
    assert t * pageSize >= n by {
      assert (n + pageSize - 1) % pageSize < pageSize;
    }
    t
  }

  /** How `Array.prototype.slice` normalises an index. */
  function SliceIndex(i: int, len: nat): (r: nat)
    ensures r <= len
  {
    if i < 0 then (if len + i < 0 then 0 else len + i) else if i > len then len else i
  }

  /** `s.slice(start, end)`. */
  function JsSlice<T>(s: seq<T>, start: int, end: int): seq<T>
  {
    var a := SliceIndex(start, |s|);
    var b := SliceIndex(end, |s|);
    if a < b then s[a..b] else []
  }

  /** `sortedData.slice((page - 1) * pageSize, page * pageSize)`. */
  function PageRows(s: seq<Row>, page: int, pageSize: nat): seq<Row>
  {
    JsSlice(s, (page - 1) * pageSize, page * pageSize)
  }

  /** Page p holds the rows from (p-1)*pageSize up to p*pageSize, cut at the end. */
  lemma PageIsSlice(s: seq<Row>, page: int, pageSize: nat)
    requires page >= 1 && pageSize > 0
    ensures PageRows(s, page, pageSize) ==
              s[Min((page - 1) * pageSize, |s|)..Min(page * pageSize, |s|)]
    ensures |PageRows(s, page, pageSize)| <= pageSize
  {
    assert (page - 1) * pageSize >= 0;
    assert page * pageSize == (page - 1) * pageSize + pageSize;
  }

  /** Pages 1..k laid end to end. */
  function PagesUpTo(s: seq<Row>, k: nat, pageSize: nat): seq<Row>
  {
    if k == 0 then [] else PagesUpTo(s, k - 1, pageSize) + PageRows(s, k, pageSize)
  }

  lemma {:induction false} PagesUpToIsPrefix(s: seq<Row>, k: nat, pageSize: nat)
    requires pageSize > 0
    ensures PagesUpTo(s, k, pageSize) == s[..Min(k * pageSize, |s|)]
  {
    if k > 0 {
      PagesUpToIsPrefix(s, k - 1, pageSize);
      PageIsSlice(s, k, pageSize);
      var lo, hi := (k - 1) * pageSize, k * pageSize;
      MulMonotone(k - 1, k, pageSize);
      var a, b := Min(lo, |s|), Min(hi, |s|);
      assert PagesUpTo(s, k, pageSize) == s[..a] + s[a..b];
      assert s[..a] + s[a..b] == s[..b];
    }
  }

  /** Concatenating pages 1..totalPages gives back the whole sorted sequence, each row once. */
  lemma AllPagesRebuildRows(s: seq<Row>, pageSize: nat)
    requires pageSize > 0
    ensures PagesUpTo(s, TotalPages(|s|, pageSize), pageSize) == s
  {
    PagesUpToIsPrefix(s, TotalPages(|s|, pageSize), pageSize);
  }

  lemma MulMonotone(a: int, b: int, c: nat)
    requires 0 <= a <= b
    ensures a * c <= b * c
  {
    assert b * c == a * c + (b - a) * c;
  }

  /** An existing page starts inside the rows; every page before the last ends inside them. */
  lemma PageStartsInside(n: nat, page: int, pageSize: nat)
    requires pageSize > 0
    requires 1 <= page <= TotalPages(n, pageSize)
    ensures 0 <= (page - 1) * pageSize < n
    ensures page * pageSize == (page - 1) * pageSize + pageSize
    ensures page < TotalPages(n, pageSize) ==> page * pageSize < n
  {
    var t := TotalPages(n, pageSize);
    MulMonotone(page - 1, t - 1, pageSize);
    MulMonotone(0, page - 1, pageSize);
    if page < t {
      MulMonotone(page, t - 1, pageSize);
    }
  }

  /** Every page but the last is full; the last holds the remainder. */
  lemma PageSizes(s: seq<Row>, page: int, pageSize: nat)
    requires pageSize > 0
    requires 1 <= page <= TotalPages(|s|, pageSize)
    ensures page < TotalPages(|s|, pageSize) ==> |PageRows(s, page, pageSize)| == pageSize
    ensures page == TotalPages(|s|, pageSize) ==>
              |PageRows(s, page, pageSize)| == |s| - (page - 1) * pageSize > 0
  {
    PageIsSlice(s, page, pageSize);
    PageStartsInside(|s|, page, pageSize);
    var t := TotalPages(|s|, pageSize);
    if page == t {
      assert page * pageSize >= |s|;
    }
  }

  /** First entry number of "Showing X to Y of N entries". */
  function ShowingFrom(page: int, pageSize: nat): int
  {
    (page - 1) * pageSize + 1
  }

  /** Last entry number of "Showing X to Y of N entries". */
  function ShowingTo(page: int, pageSize: nat, n: nat): int
  {
    Min(page * pageSize, n)
  }

  /** On an existing page, the "Showing" bounds number exactly the rows the page displays. */
  lemma ShowingMatchesPage(s: seq<Row>, page: int, pageSize: nat)
    requires pageSize > 0
    requires 1 <= page <= TotalPages(|s|, pageSize)
    ensures 1 <= ShowingFrom(page, pageSize) <= ShowingTo(page, pageSize, |s|) <= |s|
    ensures ShowingTo(page, pageSize, |s|) - ShowingFrom(page, pageSize) + 1 == |PageRows(s, page, pageSize)|
    ensures PageRows(s, page, pageSize) ==
              s[ShowingFrom(page, pageSize) - 1..ShowingTo(page, pageSize, |s|)]
  {
    PageIsSlice(s, page, pageSize);
    PageStartsInside(|s|, page, pageSize);
  }

  /** The i-th of the numbered page buttons. */
  function PageButton(i: int, current: int, total: nat): int
  {
    if total <= 5 then i + 1
    else if current <= 3 then i + 1
    else if current >= total - 2 then total - 4 + i
    else current - 2 + i
  }

  /** `Array.from({ length: Math.min(5, totalPages) }, ...)`: the numbered buttons shown. */
  function PageWindow(current: int, total: nat): (w: seq<int>)
    ensures |w| == Min(5, total)
    ensures forall i :: 0 <= i < |w| ==> 1 <= w[i] <= total
    ensures forall i :: 0 <= i < |w| - 1 ==> w[i + 1] == w[i] + 1
    ensures 1 <= current <= total ==> current in w
    ensures |w| > 0 && (total <= 5 || current <= 3) ==> w[0] == 1
    ensures total > 5 && current > 3 && current >= total - 2 ==> w[|w| - 1] == total
    ensures total > 5 && 3 < current < total - 2 ==> w[2] == current
  {
    var w := seq(Min(5, total), i => PageButton(i, current, total));
    var at := CurrentSlot(current, total);
    assert 1 <= current <= total ==> 0 <= at < |w| && w[at] == current;
    w
  }

  /** Where the current page sits among the numbered buttons. */
  function CurrentSlot(current: int, total: nat): int
  {
    if total <= 5 || current <= 3 then current - 1
    else if current >= total - 2 then current - total + 4
    else 2
  }

  /** The window's buttons are pairwise distinct. */
  lemma PageWindowDistinct(current: int, total: nat, i: int, j: int)
    requires 0 <= i < j < |PageWindow(current, total)|
    ensures PageWindow(current, total)[i] < PageWindow(current, total)[j]
  {
    var w := PageWindow(current, total);
    assert forall k :: 0 <= k < |w| ==> w[k] == w[0] + k;
  }

  // ---------------------------------------------------------------------------
  // View state and its handlers
  // ---------------------------------------------------------------------------

  datatype ViewState = ViewState(search: string, sortColumn: Option<string>, sortDirection: Direction, currentPage: int)

  /** Empty search, no sort column, ascending, page 1. */
  function InitialView(): ViewState
  {
    ViewState("", None, Asc, 1)
  }

  function Flip(d: Direction): Direction
  {
    if d == Asc then Desc else Asc
  }

  /** Clicking a sortable header. */
  function HandleSort(v: ViewState, key: string): (r: ViewState)
    ensures r.sortColumn == Some(key)
    ensures v.sortColumn == Some(key) ==> r.sortDirection == Flip(v.sortDirection) != v.sortDirection
    ensures v.sortColumn != Some(key) ==> r.sortDirection == Asc
    ensures r.search == v.search && r.currentPage == v.currentPage
  {
    if v.sortColumn == Some(key) then v.(sortDirection := Flip(v.sortDirection))
    else v.(sortColumn := Some(key), sortDirection := Asc)
  }

  /** Two clicks on the current column restore its direction; a sort column is never cleared. */
  lemma HandleSortTwice(v: ViewState, key: string)
    ensures HandleSort(HandleSort(v, key), key).sortColumn == Some(key)
    ensures v.sortColumn == Some(key) ==> HandleSort(HandleSort(v, key), key) == v
    ensures v.sortColumn != Some(key) ==> HandleSort(HandleSort(v, key), key).sortDirection == Desc
  {
  }

  /** Typing in the search box: the page goes back to 1. */
  function SetSearch(v: ViewState, text: string): (r: ViewState)
    ensures r.search == text && r.currentPage == 1
    ensures r.sortColumn == v.sortColumn && r.sortDirection == v.sortDirection
  {
    v.(search := text, currentPage := 1)
  }

  /** The Previous button: `Math.max(1, prev - 1)`. */
  function PrevPage(v: ViewState): (r: ViewState)
    ensures r.currentPage >= 1
    ensures v.currentPage > 1 ==> r.currentPage == v.currentPage - 1
    ensures v.currentPage <= 1 ==> r.currentPage == 1
    ensures r.search == v.search && r.sortColumn == v.sortColumn && r.sortDirection == v.sortDirection
  {
    v.(currentPage := Max(1, v.currentPage - 1))
  }

  /** The Next button: `Math.min(totalPages, prev + 1)`. */
  function NextPage(v: ViewState, total: nat): (r: ViewState)
    ensures r.currentPage <= total
    ensures v.currentPage < total ==> r.currentPage == v.currentPage + 1
    ensures v.currentPage >= total ==> r.currentPage == total
    ensures r.search == v.search && r.sortColumn == v.sortColumn && r.sortDirection == v.sortDirection
  {
    v.(currentPage := Min(total, v.currentPage + 1))
  }

  /** A numbered page button. */
  function GoToPage(v: ViewState, page: int): ViewState
  {
    v.(currentPage := page)
  }

  /** Prev and Next keep an in-range page in range (the buttons exist only when totalPages > 1). */
  lemma PrevNextStayInRange(v: ViewState, total: nat)
    requires 1 <= v.currentPage <= total
    ensures 1 <= PrevPage(v).currentPage <= total
    ensures 1 <= NextPage(v, total).currentPage <= total
  {
  }

  /** What the table body shows: filter, then sort, then the current page. */
  function VisibleRows(data: seq<Row>, keys: seq<string>, v: ViewState, pageSize: nat): seq<Row>
  {
    PageRows(SortRows(FilterRows(data, v.search, keys), v.sortColumn, v.sortDirection), v.currentPage, pageSize)
  }

  /** Every row on screen comes from the data and passes the search. */
  lemma VisibleRowsAreMatches(data: seq<Row>, keys: seq<string>, v: ViewState, pageSize: nat, row: Row)
    requires v.currentPage >= 1 && pageSize > 0
    requires row in VisibleRows(data, keys, v, pageSize)
    ensures row in data && Keep(row, v.search, keys)
  {
    var filtered := FilterRows(data, v.search, keys);
    var sorted := SortRows(filtered, v.sortColumn, v.sortDirection);
    SortIsPermutation(filtered, v.sortColumn, v.sortDirection);
    PageIsSlice(sorted, v.currentPage, pageSize);
    assert row in sorted;
    assert row in multiset(sorted);
    assert row in filtered;
  }

  /** Worked example: rows Alice/Eng and Bob/HR searched on "name" for "ali" keep only Alice. */
  lemma SearchExample()
    ensures var alice := map["name" := Str("Alice"), "dept" := Str("Eng")];
            var bob := map["name" := Str("Bob"), "dept" := Str("HR")];
            FilterRows([alice, bob], "ali", ["name"]) == [alice]
  {
    var alice := map["name" := Str("Alice"), "dept" := Str("Eng")];
    var bob := map["name" := Str("Bob"), "dept" := Str("HR")];
    assert Lower("Alice") == "alice";
    assert Lower("ali") == "ali";
    assert StartsWith("alice", "ali");
    assert ValueMatches(Get(alice, "name"), "ali");
    assert Keep(alice, "ali", ["name"]);
    assert Lower("Bob") == "bob";
    assert !Includes("", "ali");
    assert !Includes("b", "ali") by { assert "b"[1..] == ""; }
    assert !Includes("ob", "ali") by { assert "ob"[1..] == "b"; }
    assert !Includes("bob", "ali") by {
      assert "bob"[1..] == "ob";
      assert "bob"[..3] == "bob";
    }
    assert !ValueMatches(Get(bob, "name"), "ali");
    assert !Keep(bob, "ali", ["name"]);
    assert [alice, bob][1..] == [bob];
  }

  /** Worked example: 23 rows in pages of 10 give 3 pages of 10, 10 and 3 rows, buttons [1, 2, 3]. */
  lemma PaginationExample(s: seq<Row>)
    requires |s| == 23
    ensures TotalPages(|s|, 10) == 3
    ensures |PageRows(s, 1, 10)| == 10 && |PageRows(s, 2, 10)| == 10 && |PageRows(s, 3, 10)| == 3
    ensures PageWindow(1, 3) == [1, 2, 3]
  {
    PageIsSlice(s, 1, 10);
    PageIsSlice(s, 2, 10);
    PageIsSlice(s, 3, 10);
  }
}
