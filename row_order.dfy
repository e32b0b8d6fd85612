/**
 * `ORDER BY` over the rows of a member query: each sort key compares one
 * column ascending or descending, keys are compared lexicographically, NULL
 * sorts before every value, and strings compare by character code. The sort
 * is stable: rows that tie on every key keep their table order.
 */
module RowOrder {
  import opened Wrappers
  import opened MemberStore

  /** A sort direction; an empty `order` clause sorts ascending. */
  datatype Dir = Asc | Desc | NoDir

  function DirSql(d: Dir): string {
    match d
    case Asc => "ASC"
    case Desc => "DESC"
    case NoDir => ""
  }

  // ---------------------------------------------------------------------------
  // Comparing values

  /** Three-way comparison of strings by character code. */
  function StrCmp(a: string, b: string): (r: int)
    ensures -1 <= r <= 1
    decreases |a|
  {
    if |a| == 0 && |b| == 0 then 0
    else if |a| == 0 then -1
    else if |b| == 0 then 1
    else if a[0] < b[0] then -1
    else if a[0] > b[0] then 1
    else StrCmp(a[1..], b[1..])
  }

  lemma {:induction false} StrCmpZero(a: string, b: string)
    ensures StrCmp(a, b) == 0 <==> a == b
    decreases |a|
  {
    if |a| > 0 && |b| > 0 && a[0] == b[0] {
      StrCmpZero(a[1..], b[1..]);
      assert a == [a[0]] + a[1..] && b == [b[0]] + b[1..];
    }
  }

  lemma {:induction false} StrCmpFlip(a: string, b: string)
    ensures StrCmp(a, b) == -StrCmp(b, a)
    decreases |a|
  {
    if |a| > 0 && |b| > 0 && a[0] == b[0] {
      StrCmpFlip(a[1..], b[1..]);
    }
  }

  lemma {:induction false} StrCmpTrans(a: string, b: string, c: string)
    requires StrCmp(a, b) <= 0 && StrCmp(b, c) <= 0
    ensures StrCmp(a, c) <= 0
    decreases |a|
  {
    if |a| > 0 && |b| > 0 && |c| > 0 && a[0] == b[0] == c[0] {
      StrCmpTrans(a[1..], b[1..], c[1..]);
    }
  }

  function Rank(v: SortVal): nat {
    match v
    case Null => 0
    case Num(_) => 1
    case Str(_) => 2
  }

  /** Three-way comparison of column values: NULL first, then numbers, then strings. */
  function ValCmp(a: SortVal, b: SortVal): (r: int)
    ensures -1 <= r <= 1
  {
    if Rank(a) < Rank(b) then -1
    else if Rank(a) > Rank(b) then 1
    else match a
      case Null => 0
      case Num(x) => if x < b.n then -1 else if x > b.n then 1 else 0
      case Str(s) => StrCmp(s, b.s)
  }

  /** `ValCmp` is a total order: it is zero exactly on equal values, flips with
      its arguments, and is transitive. */
  lemma ValCmpOrder(a: SortVal, b: SortVal, c: SortVal)
    ensures ValCmp(a, b) == 0 <==> a == b
    ensures ValCmp(a, b) == -ValCmp(b, a)
    ensures ValCmp(a, b) <= 0 && ValCmp(b, c) <= 0 ==> ValCmp(a, c) <= 0
  {
    if a.Str? && b.Str? {
      StrCmpZero(a.s, b.s);
      StrCmpFlip(a.s, b.s);
      if c.Str? && ValCmp(a, b) <= 0 && ValCmp(b, c) <= 0 {
        StrCmpTrans(a.s, b.s, c.s);
      }
    }
  }

  // ---------------------------------------------------------------------------
  // Comparing rows

  /** One sort key: a column and its direction. */
  function KeyCmp(key: (Column, Dir), x: Row, y: Row, db: Db): int {
    var vx := ColumnValue(key.0, x, db);
    var vy := ColumnValue(key.0, y, db);
    if key.1 == Desc then ValCmp(vy, vx) else ValCmp(vx, vy)
  }

  /** Lexicographic comparison over the sort keys; zero when rows tie on all keys. */
  function RowCmp(keys: seq<(Column, Dir)>, x: Row, y: Row, db: Db): int
    decreases |keys|
  {
    if |keys| == 0 then 0
    else
      var c := KeyCmp(keys[0], x, y, db);
      if c != 0 then c else RowCmp(keys[1..], x, y, db)
  }

  lemma {:induction false} RowCmpFlip(keys: seq<(Column, Dir)>, x: Row, y: Row, db: Db)
    ensures RowCmp(keys, x, y, db) == -RowCmp(keys, y, x, db)
    decreases |keys|
  {
    if |keys| > 0 {
      var k := keys[0];
      ValCmpOrder(ColumnValue(k.0, x, db), ColumnValue(k.0, y, db), ColumnValue(k.0, y, db));
      RowCmpFlip(keys[1..], x, y, db);
    }
  }

  lemma {:induction false} RowCmpTrans(keys: seq<(Column, Dir)>, x: Row, y: Row, z: Row, db: Db)
    requires RowCmp(keys, x, y, db) <= 0 && RowCmp(keys, y, z, db) <= 0
    ensures RowCmp(keys, x, z, db) <= 0
    decreases |keys|
  {
    if |keys| > 0 {
      var k := keys[0];
      var vx, vy, vz := ColumnValue(k.0, x, db), ColumnValue(k.0, y, db), ColumnValue(k.0, z, db);
      ValCmpOrder(vx, vy, vz);
      ValCmpOrder(vz, vy, vx);
      ValCmpOrder(vy, vz, vx);
      ValCmpOrder(vx, vz, vy);
      ValCmpOrder(vy, vx, vz);
      if KeyCmp(k, x, y, db) == 0 && KeyCmp(k, y, z, db) == 0 {
        RowCmpTrans(keys[1..], x, y, z, db);
      }
    }
  }

  // ---------------------------------------------------------------------------
  // The sort

  predicate Sorted(rows: seq<Row>, keys: seq<(Column, Dir)>, db: Db) {
    forall i, j :: 0 <= i < j < |rows| ==> RowCmp(keys, rows[i], rows[j], db) <= 0
  }

  /** Inserts a row after every row that does not sort after it. */
  function Insert(x: Row, rows: seq<Row>, keys: seq<(Column, Dir)>, db: Db): (r: seq<Row>)
    ensures multiset(r) == multiset(rows) + multiset{x}
    decreases |rows|
  {
    if |rows| == 0 then [x]
    else if RowCmp(keys, x, rows[0], db) < 0 then [x] + rows
    else
      assert rows == [rows[0]] + rows[1..];
      [rows[0]] + Insert(x, rows[1..], keys, db)
  }

  lemma {:induction false} InsertSorted(x: Row, rows: seq<Row>, keys: seq<(Column, Dir)>, db: Db)
    requires Sorted(rows, keys, db)
    ensures Sorted(Insert(x, rows, keys, db), keys, db)
    decreases |rows|
  {
    if |rows| > 0 {
      var r := Insert(x, rows, keys, db);
      if RowCmp(keys, x, rows[0], db) < 0 {
        forall j | 1 <= j < |r|
          ensures RowCmp(keys, x, r[j], db) <= 0
        {
          assert r[j] == rows[j - 1];
          if j > 1 {
            RowCmpTrans(keys, x, rows[0], r[j], db);
          }
        }
      } else {
        InsertSorted(x, rows[1..], keys, db);
        RowCmpFlip(keys, x, rows[0], db);
        var tail := Insert(x, rows[1..], keys, db);
        forall j | 0 <= j < |tail|
          ensures RowCmp(keys, rows[0], tail[j], db) <= 0
        {
          assert tail[j] in multiset(tail);
          assert tail[j] == x || tail[j] in rows[1..];
        }
      }
    }
  }

  /** `ORDER BY keys`, as a stable insertion sort. */
  function SortRows(rows: seq<Row>, keys: seq<(Column, Dir)>, db: Db): (r: seq<Row>)
    ensures multiset(r) == multiset(rows)
    decreases |rows|
  {
    if |rows| == 0 then []
    else
      assert rows == rows[..|rows| - 1] + [rows[|rows| - 1]];
      Insert(rows[|rows| - 1], SortRows(rows[..|rows| - 1], keys, db), keys, db)
  }

  /** The sort returns the same rows, ordered by the keys. */
  lemma {:induction false} SortRowsSorted(rows: seq<Row>, keys: seq<(Column, Dir)>, db: Db)
    ensures Sorted(SortRows(rows, keys, db), keys, db)
    ensures multiset(SortRows(rows, keys, db)) == multiset(rows)
    decreases |rows|
  {
    if |rows| > 0 {
      SortRowsSorted(rows[..|rows| - 1], keys, db);
      InsertSorted(rows[|rows| - 1], SortRows(rows[..|rows| - 1], keys, db), keys, db);
    }
  }

  /** The sort keeps exactly the rows it was given. */
  lemma SortRowsMembers(rows: seq<Row>, keys: seq<(Column, Dir)>, db: Db)
    ensures forall x :: x in SortRows(rows, keys, db) <==> x in rows
  {
    var r := SortRows(rows, keys, db);
    forall x
      ensures x in r <==> x in rows
    {
      assert x in r <==> x in multiset(r);
      assert x in rows <==> x in multiset(rows);
    }
  }

  /** One step of the sort: the last row is inserted into the sorted rest. */
  lemma SortRowsLast(rows: seq<Row>, keys: seq<(Column, Dir)>, db: Db)
    requires |rows| > 0
    ensures SortRows(rows, keys, db) == Insert(rows[|rows| - 1], SortRows(rows[..|rows| - 1], keys, db), keys, db)
  {
  }

  lemma {:induction false} InsertWithoutKeys(x: Row, rows: seq<Row>, db: Db)
    ensures Insert(x, rows, [], db) == rows + [x]
    decreases |rows|
  {
    if |rows| > 0 {
      assert RowCmp([], x, rows[0], db) == 0;
      calc {
        Insert(x, rows, [], db);
        [rows[0]] + Insert(x, rows[1..], [], db);
      == { InsertWithoutKeys(x, rows[1..], db); }
        [rows[0]] + (rows[1..] + [x]);
      == { assert rows == [rows[0]] + rows[1..]; }
        rows + [x];
      }
    }
  }

  /** Without an ORDER BY the rows stay in table order. */
  lemma {:induction false} SortWithoutKeys(rows: seq<Row>, db: Db)
    ensures SortRows(rows, [], db) == rows
    decreases |rows|
  {
    if |rows| > 0 {
      var init := rows[..|rows| - 1];
      var last := rows[|rows| - 1];
      calc {
        SortRows(rows, [], db);
      == { SortRowsLast(rows, [], db); }
        Insert(last, SortRows(init, [], db), [], db);
      == { SortWithoutKeys(init, db); }
        Insert(last, init, [], db);
      == { InsertWithoutKeys(last, init, db); }
        init + [last];
      == { assert init + [last] == rows; }
        rows;
      }
    }
  }

  // ---------------------------------------------------------------------------
  // LIMIT

  /** `LIMIT offset, count`; no clause keeps every row. */
  function Limit(rows: seq<Row>, limit: Option<(nat, nat)>): (r: seq<Row>)
    ensures limit.None? ==> r == rows
    ensures limit.Some? ==> var lo := if limit.value.0 < |rows| then limit.value.0 else |rows|;
      var hi := if lo + limit.value.1 < |rows| then lo + limit.value.1 else |rows|;
      r == rows[lo..hi]
  {
    match limit
    case None => rows
    case Some((offset, count)) =>
      var lo := if offset < |rows| then offset else |rows|;
      var hi := if lo + count < |rows| then lo + count else |rows|;
      rows[lo..hi]
  }

  /** A LIMIT returns rows of its input. */
  lemma LimitMembers(rows: seq<Row>, limit: Option<(nat, nat)>)
    ensures forall x :: x in Limit(rows, limit) ==> x in rows
  {
  }

  /** A LIMIT of a sorted result is sorted. */
  lemma LimitSorted(rows: seq<Row>, limit: Option<(nat, nat)>, keys: seq<(Column, Dir)>, db: Db)
    requires Sorted(rows, keys, db)
    ensures Sorted(Limit(rows, limit), keys, db)
  {
    if limit.Some? {
      var lo := if limit.value.0 < |rows| then limit.value.0 else |rows|;
      var hi := if lo + limit.value.1 < |rows| then lo + limit.value.1 else |rows|;
      var r := Limit(rows, limit);
      assert r == rows[lo..hi];
      assert |r| == hi - lo;
      forall i, j | 0 <= i < j < |r|
        ensures RowCmp(keys, r[i], r[j], db) <= 0
      {
        assert r[i] == rows[lo + i];
        assert r[j] == rows[lo + j];
      }
    }
  }
}
