/**
 * Result order and paging of the store's SELECT statements: ORDER BY name, ORDER BY
 * published_date ASC or DESC, and LIMIT/OFFSET. Text compares in SQLite's BINARY
 * collation. Rows with the same published_date come in id order.
 */
module Listings {
  import opened Wrappers
  import opened Strings
  import opened StoreModel

  /** Strictly before in the binary collation. */
  predicate LexLt(a: string, b: string) {
    LexLe(a, b) && a != b
  }

  lemma LexLtTransitive(a: string, b: string, c: string)
    requires LexLt(a, b) && LexLt(b, c)
    ensures LexLt(a, c)
  {
    LexLeTransitive(a, b, c);
    if a == c {
      LexLeAntisymmetric(a, b);
    }
  }

  lemma LexLtTotal(a: string, b: string)
    requires a != b
    ensures LexLt(a, b) || LexLt(b, a)
  {
    LexLeTotal(a, b);
  }

  lemma LexLtAsymmetric(a: string, b: string)
    requires LexLt(a, b)
    ensures !LexLt(b, a)
  {
    if LexLe(b, a) {
      LexLeAntisymmetric(a, b);
    }
  }

  // ---------------------------------------------------------------- ORDER BY name

  /** Names in ascending order without repeats. */
  predicate NamesSorted(names: seq<string>) {
    forall i, j :: 0 <= i < j < |names| ==> LexLt(names[i], names[j])
  }

  /** names is the set pool, in ascending order. */
  ghost predicate IsNameListing(names: seq<string>, pool: set<string>) {
    NamesSorted(names) && forall n :: n in pool <==> n in names
  }

  /** Every non-empty set of names has a least one. */
  lemma {:induction false} LeastNameExists(pool: set<string>)
    requires pool != {}
    ensures exists m :: m in pool && forall n :: n in pool && n != m ==> LexLt(m, n)
    decreases |pool|
  {
    var x :| x in pool;
    var rest := pool - {x};
    if rest == {} {
      assert pool == {x};
    } else {
      LeastNameExists(rest);
      var m :| m in rest && forall n :: n in rest && n != m ==> LexLt(m, n);
      LexLtTotal(x, m);
      if LexLt(x, m) {
        forall n | n in pool && n != x ensures LexLt(x, n) {
          if n != m {
            LexLtTransitive(x, m, n);
          }
        }
      } else {
        assert forall n :: n in pool && n != m ==> LexLt(m, n);
      }
    }
  }

  /** ORDER BY a.name over a set of names, by repeatedly taking the least one left. */
  method SortNames(pool: set<string>) returns (names: seq<string>)
    ensures IsNameListing(names, pool)
  {
    names := [];
    var rest := pool;
    while rest != {}
      invariant rest <= pool
      invariant forall n :: n in pool <==> n in rest || n in names
      invariant forall n :: n in rest ==> n !in names
      invariant NamesSorted(names)
      invariant forall i, n :: 0 <= i < |names| && n in rest ==> LexLt(names[i], n)
      decreases |rest|
    {
      LeastNameExists(rest);
      var m :| m in rest && forall n :: n in rest && n != m ==> LexLt(m, n);
      forall i | 0 <= i < |names| ensures LexLt(names[i], m) {
      }
      names := names + [m];
      rest := rest - {m};
    }
  }

  // ---------------------------------------------------------------- ORDER BY published_date

  /** a comes strictly before b: by published date in the given direction, then by id. */
  predicate RowBefore(a: Row, b: Row, ascending: bool) {
    if a.publishedDate != b.publishedDate then
      (if ascending then LexLt(a.publishedDate, b.publishedDate) else LexLt(b.publishedDate, a.publishedDate))
    else LexLt(a.id, b.id)
  }

  lemma RowBeforeTransitive(a: Row, b: Row, c: Row, ascending: bool)
    requires RowBefore(a, b, ascending) && RowBefore(b, c, ascending)
    ensures RowBefore(a, c, ascending)
  {
    if a.publishedDate == b.publishedDate && b.publishedDate == c.publishedDate {
      LexLtTransitive(a.id, b.id, c.id);
    } else if ascending {
      if a.publishedDate != b.publishedDate && b.publishedDate != c.publishedDate {
        LexLtTransitive(a.publishedDate, b.publishedDate, c.publishedDate);
        LexLtAsymmetric(a.publishedDate, c.publishedDate);
      }
    } else {
      if a.publishedDate != b.publishedDate && b.publishedDate != c.publishedDate {
        LexLtTransitive(c.publishedDate, b.publishedDate, a.publishedDate);
      }
    }
  }

  lemma RowBeforeTotal(a: Row, b: Row, ascending: bool)
    requires a.id != b.id
    ensures RowBefore(a, b, ascending) || RowBefore(b, a, ascending)
  {
    if a.publishedDate != b.publishedDate {
      LexLtTotal(a.publishedDate, b.publishedDate);
    } else {
      LexLtTotal(a.id, b.id);
    }
  }

  lemma RowBeforeAsymmetric(a: Row, b: Row, ascending: bool)
    requires RowBefore(a, b, ascending)
    ensures !RowBefore(b, a, ascending) && a != b
  {
    if a.publishedDate != b.publishedDate {
      if ascending {
        LexLtAsymmetric(a.publishedDate, b.publishedDate);
      } else {
        LexLtAsymmetric(b.publishedDate, a.publishedDate);
      }
    } else {
      LexLtAsymmetric(a.id, b.id);
    }
  }

  /** No two rows of the set share an id (the papers table's primary key). */
  predicate IdsDistinct(pool: set<Row>) {
    forall a, b :: a in pool && b in pool && a.id == b.id ==> a == b
  }

  predicate RowsSorted(rows: seq<Row>, ascending: bool) {
    forall i, j :: 0 <= i < j < |rows| ==> RowBefore(rows[i], rows[j], ascending)
  }

  /** rows is the set pool in result order. */
  ghost predicate IsListing(rows: seq<Row>, pool: set<Row>, ascending: bool) {
    RowsSorted(rows, ascending) && forall r :: r in pool <==> r in rows
  }

  /** Every non-empty set of rows with distinct ids has a first one. */
  lemma {:induction false} FirstRowExists(pool: set<Row>, ascending: bool)
    requires pool != {} && IdsDistinct(pool)
    ensures exists m :: m in pool && forall r :: r in pool && r != m ==> RowBefore(m, r, ascending)
    decreases |pool|
  {
    var x :| x in pool;
    var rest := pool - {x};
    if rest == {} {
      assert pool == {x};
    } else {
      FirstRowExists(rest, ascending);
      var m :| m in rest && forall r :: r in rest && r != m ==> RowBefore(m, r, ascending);
      RowBeforeTotal(x, m, ascending);
      if RowBefore(x, m, ascending) {
        forall r | r in pool && r != x ensures RowBefore(x, r, ascending) {
          if r != m {
            RowBeforeTransitive(x, m, r, ascending);
          }
        }
      } else {
        assert forall r :: r in pool && r != m ==> RowBefore(m, r, ascending);
      }
    }
  }

  /** Every set of rows with distinct ids can be listed in result order. */
  lemma {:induction false} ListingExists(pool: set<Row>, ascending: bool)
    requires IdsDistinct(pool)
    ensures exists rows :: IsListing(rows, pool, ascending)
    decreases |pool|
  {
    if pool == {} {
      assert IsListing([], pool, ascending);
    } else {
      FirstRowExists(pool, ascending);
      var m :| m in pool && forall r :: r in pool && r != m ==> RowBefore(m, r, ascending);
      var rest := pool - {m};
      ListingExists(rest, ascending);
      var tail :| IsListing(tail, rest, ascending);
      ConsListing(m, tail, pool, ascending);
    }
  }

  /** Putting the first row of the set before a listing of the others lists the whole set. */
  lemma ConsListing(m: Row, tail: seq<Row>, pool: set<Row>, ascending: bool)
    requires m in pool && IsListing(tail, pool - {m}, ascending)
    requires forall r :: r in pool && r != m ==> RowBefore(m, r, ascending)
    ensures IsListing([m] + tail, pool, ascending)
  {
    var rows := [m] + tail;
    forall i, j | 0 <= i < j < |rows| ensures RowBefore(rows[i], rows[j], ascending) {
      assert rows[j] == tail[j - 1];
      if i > 0 {
        assert rows[i] == tail[i - 1];
      } else {
        assert rows[j] in pool - {m};
      }
    }
    forall r ensures r in pool <==> r in rows {
      assert r in rows <==> r == m || r in tail;
    }
  }

  lemma HeadIn<T>(s: seq<T>)
    requires s != []
    ensures s[0] in s
  {
  }

  /** The listing of a set is unique: ORDER BY with the id tie-break is deterministic. */
  lemma {:induction false} ListingUnique(a: seq<Row>, b: seq<Row>, pool: set<Row>, ascending: bool)
    requires IsListing(a, pool, ascending) && IsListing(b, pool, ascending)
    ensures a == b
    decreases |a|
  {
    if a == [] {
      assert pool == {};
      if b != [] {
        HeadIn(b);
        assert false;
      }
    } else {
      assert b != [] by { assert a[0] in pool; }
      assert a[0] in pool && b[0] in pool;
      if a[0] != b[0] {
        var j :| 0 <= j < |a| && a[j] == b[0];
        var k :| 0 <= k < |b| && b[k] == a[0];
        assert j > 0 && k > 0;
        RowBeforeAsymmetric(a[0], b[0], ascending);
        assert false;
      }
      var rest := pool - {a[0]};
      forall r ensures r in rest <==> r in a[1..] {
        if r in a[1..] {
          var i :| 0 <= i < |a[1..]| && a[1..][i] == r;
          RowBeforeAsymmetric(a[0], a[i + 1], ascending);
        }
      }
      forall r ensures r in rest <==> r in b[1..] {
        if r in b[1..] {
          var i :| 0 <= i < |b[1..]| && b[1..][i] == r;
          RowBeforeAsymmetric(b[0], b[i + 1], ascending);
        }
      }
      ListingUnique(a[1..], b[1..], rest, ascending);
      assert a == [a[0]] + a[1..] && b == [b[0]] + b[1..];
    }
  }

  /** The result order of a set of rows with distinct ids. */
  ghost function Listing(pool: set<Row>, ascending: bool): (rows: seq<Row>)
    requires IdsDistinct(pool)
    ensures IsListing(rows, pool, ascending)
  {
    ListingExists(pool, ascending);
    var rows :| IsListing(rows, pool, ascending);
    rows
  }

  /** ORDER BY published_date over a set of rows, by repeatedly taking the first one left. */
  method SortRows(pool: set<Row>, ascending: bool) returns (rows: seq<Row>)
    requires IdsDistinct(pool)
    ensures rows == Listing(pool, ascending)
  {
    rows := [];
    var rest := pool;
    while rest != {}
      invariant rest <= pool
      invariant forall r :: r in pool <==> r in rest || r in rows
      invariant forall r :: r in rest ==> r !in rows
      invariant RowsSorted(rows, ascending)
      invariant forall i, r :: 0 <= i < |rows| && r in rest ==> RowBefore(rows[i], r, ascending)
      decreases |rest|
    {
      FirstRowExists(rest, ascending);
      var m :| m in rest && forall r :: r in rest && r != m ==> RowBefore(m, r, ascending);
      forall i | 0 <= i < |rows| ensures RowBefore(rows[i], m, ascending) {
      }
      rows := rows + [m];
      rest := rest - {m};
    }
    ListingUnique(rows, Listing(pool, ascending), pool, ascending);
  }

  // ---------------------------------------------------------------- LIMIT / OFFSET

  function Max(a: int, b: int): int {
    if a < b then b else a
  }

  /**
   * LIMIT and OFFSET as SQLite applies them: no limit, or a negative one, bounds nothing;
   * an offset below one skips nothing.
   */
  function Window<T>(s: seq<T>, limit: Option<int>, offset: int): (r: seq<T>)
    ensures |r| <= Max(|s| - Max(offset, 0), 0)
    ensures limit.Some? && limit.value >= 0 ==> |r| == if |s| - Max(offset, 0) < limit.value then Max(|s| - Max(offset, 0), 0) else limit.value
    ensures limit.None? || limit.value < 0 ==> |r| == Max(|s| - Max(offset, 0), 0)
    ensures forall i :: 0 <= i < |r| ==> r[i] == s[Max(offset, 0) + i]
  {
    var start := Max(offset, 0);
    var rest := if start <= |s| then s[start..] else [];
    if limit.Some? && 0 <= limit.value < |rest| then rest[..limit.value] else rest
  }

  /** Two consecutive pages of size k are the page of size 2k. */
  lemma ConsecutivePages<T>(s: seq<T>, k: nat, offset: nat)
    ensures Window(s, Some(k), offset) + Window(s, Some(k), offset + k) == Window(s, Some(2 * k), offset)
  {
    var a, b, c := Window(s, Some(k), offset), Window(s, Some(k), offset + k), Window(s, Some(2 * k), offset);
    assert |a + b| == |c|;
    forall i | 0 <= i < |c| ensures (a + b)[i] == c[i] {
      if i >= |a| {
        assert |a| == k;
        assert b[i - k] == s[offset + i];
      }
    }
  }

  /** Pages at different offsets of a listing share no row. */
  lemma PagesDisjoint(rows: seq<Row>, ascending: bool, k: nat, o1: nat, o2: nat)
    requires RowsSorted(rows, ascending) && o1 + k <= o2
    ensures forall r :: r in Window(rows, Some(k), o1) ==> r !in Window(rows, Some(k), o2)
  {
    var a, b := Window(rows, Some(k), o1), Window(rows, Some(k), o2);
    forall i, j | 0 <= i < |a| && 0 <= j < |b| ensures a[i] != b[j] {
      RowBeforeAsymmetric(rows[o1 + i], rows[o2 + j], ascending);
    }
  }
}
