/** The query semantics of the relational store, as far as the roster
    application relies on them: stored rows with primary keys, one full
    table scan in the store's own (unspecified) row order, `filter`,
    `order_by` with the row order deciding ties, `first`, and the order
    of text columns. */
module QuerySets {

  datatype Option<+T> = None | Some(value: T)

  /** Primary keys of every table and of the user accounts. */
  type Id = nat

  /** A stored row: its primary key and its field values. */
  datatype Row<+T> = Row(id: Id, val: T)

  /** `rows` is one full scan of `table`, in whatever order the store
      returns it: every stored row exactly once and nothing else. */
  ghost predicate IsScan<T>(rows: seq<Row<T>>, table: map<Id, T>) {
    && (forall i :: 0 <= i < |rows| ==> rows[i].id in table && table[rows[i].id] == rows[i].val)
    && (forall k :: k in table ==> exists i :: 0 <= i < |rows| && rows[i].id == k)
    && (forall i, j :: 0 <= i < j < |rows| ==> rows[i].id != rows[j].id)
  }

  /** A scan holds exactly the stored rows. */
  lemma ScanRows<T>(rows: seq<Row<T>>, table: map<Id, T>, k: Id, v: T)
    requires IsScan(rows, table)
    ensures Row(k, v) in rows <==> k in table && table[k] == v
  {
    if k in table && table[k] == v {
      var i :| 0 <= i < |rows| && rows[i].id == k;
      assert rows[i] == Row(k, v);
    }
  }

  ghost predicate Distinct<T>(s: seq<T>) {
    forall i, j :: 0 <= i < j < |s| ==> s[i] != s[j]
  }

  /** In a sequence without repetitions every element occurs exactly once. */
  lemma {:induction false} DistinctOccurrences<T>(s: seq<T>, x: T)
    requires Distinct(s)
    ensures multiset(s)[x] == if x in s then 1 else 0
  {
    if s != [] {
      assert s == [s[0]] + s[1..];
      assert Distinct(s[1..]) by {
        forall i, j | 0 <= i < j < |s[1..]| ensures s[1..][i] != s[1..][j] {
          assert s[1..][i] == s[i + 1] && s[1..][j] == s[j + 1];
        }
      }
      DistinctOccurrences(s[1..], x);
      if x == s[0] {
        assert x !in s[1..] by {
          forall j | 0 <= j < |s[1..]| ensures s[1..][j] != x {
            assert s[1..][j] == s[j + 1];
          }
        }
      }
    }
  }

  /** A scan holds every stored row exactly once. */
  lemma ScanOccurrences<T>(rows: seq<Row<T>>, table: map<Id, T>, k: Id)
    requires IsScan(rows, table)
    requires k in table
    ensures multiset(rows)[Row(k, table[k])] == 1
  {
    assert Distinct(rows);
    DistinctOccurrences(rows, Row(k, table[k]));
    ScanRows(rows, table, k, table[k]);
  }

  /** Two scans of one table hold the same rows, in possibly different orders. */
  lemma ScansArePermutations<T>(a: seq<Row<T>>, b: seq<Row<T>>, table: map<Id, T>)
    requires IsScan(a, table) && IsScan(b, table)
    ensures multiset(a) == multiset(b)
  {
    assert Distinct(a) && Distinct(b);
    forall x | true ensures multiset(a)[x] == multiset(b)[x] {
      DistinctOccurrences(a, x);
      DistinctOccurrences(b, x);
      ScanRows(a, table, x.id, x.val);
      ScanRows(b, table, x.id, x.val);
    }
  }

  /** `qs.filter(p)`: the rows that satisfy `p`, in scan order. */
  function Filter<T(!new)>(s: seq<T>, p: T -> bool): (r: seq<T>)
    ensures forall x :: x in r <==> x in s && p(x)
    ensures forall x :: multiset(r)[x] == if p(x) then multiset(s)[x] else 0
  {
    if s == [] then []
    else
      assert s == [s[0]] + s[1..];
      (if p(s[0]) then [s[0]] else []) + Filter(s[1..], p)
  }

  /** `qs.first()`: the first row, or nothing for an empty result. */
  function First<T>(s: seq<T>): (r: Option<T>)
    ensures r.None? <==> s == []
    ensures r.Some? ==> r.value in s
  {
    if s == [] then None else Some(s[0])
  }

  /** An ordering of rows (the `ORDER BY` of a query): `le(a, b)` when `a`
      may come before `b`. Every ordering used here is total and
      transitive; rows that are equal under it are ties. */
  ghost predicate TotalPreorder<T(!new)>(le: (T, T) -> bool) {
    && (forall a, b :: le(a, b) || le(b, a))
    && (forall a, b, c :: le(a, b) && le(b, c) ==> le(a, c))
  }

  ghost predicate Sorted<T>(s: seq<T>, le: (T, T) -> bool) {
    forall i, j :: 0 <= i < j < |s| ==> le(s[i], s[j])
  }

  /** Places `x` before the first element it may precede. */
  function Insert<T>(x: T, s: seq<T>, le: (T, T) -> bool): (r: seq<T>)
    ensures multiset(r) == multiset(s) + multiset{x}
  {
    if s == [] || le(x, s[0]) then [x] + s
    else
      assert s == [s[0]] + s[1..];
      [s[0]] + Insert(x, s[1..], le)
  }

  /** `qs.order_by(...)`: the rows rearranged by `le`; rows that tie keep
      the order in which the scan returned them. */
  function OrderBy<T>(s: seq<T>, le: (T, T) -> bool): (r: seq<T>)
    ensures multiset(r) == multiset(s)
  {
    if s == [] then []
    else
      assert s == [s[0]] + s[1..];
      Insert(s[0], OrderBy(s[1..], le), le)
  }

  lemma {:induction false} InsertSorted<T(!new)>(x: T, s: seq<T>, le: (T, T) -> bool)
    requires TotalPreorder(le) && Sorted(s, le)
    ensures Sorted(Insert(x, s, le), le)
  {
    if s == [] || le(x, s[0]) {
      var r := [x] + s;
      forall i, j | 0 <= i < j < |r| ensures le(r[i], r[j]) {
        if i == 0 && j > 1 {
          assert le(s[0], s[j - 1]);
        }
      }
    } else {
      assert Sorted(s[1..], le);
      InsertSorted(x, s[1..], le);
      var t := Insert(x, s[1..], le);
      forall j | 0 <= j < |t| ensures le(s[0], t[j]) {
        assert t[j] in multiset(t);
        if t[j] != x {
          assert t[j] in s[1..];
        }
      }
      var r := [s[0]] + t;
      forall i, j | 0 <= i < j < |r| ensures le(r[i], r[j]) {
        if i > 0 {
          assert r[i] == t[i - 1] && r[j] == t[j - 1];
        }
      }
    }
  }

  /** Every total preorder sorts its rows. */
  lemma {:induction false} OrderBySorted<T(!new)>(s: seq<T>, le: (T, T) -> bool)
    requires TotalPreorder(le)
    ensures Sorted(OrderBy(s, le), le)
  {
    if s != [] {
      OrderBySorted(s[1..], le);
      InsertSorted(s[0], OrderBy(s[1..], le), le);
    }
  }

  /** `qs.order_by(...).first()` is a row of `s` that may precede every
      row of `s`; it is absent only when `s` is empty. */
  lemma FirstOfOrdered<T(!new)>(s: seq<T>, le: (T, T) -> bool)
    requires TotalPreorder(le)
    ensures First(OrderBy(s, le)).None? <==> s == []
    ensures First(OrderBy(s, le)).Some? ==>
              First(OrderBy(s, le)).value in s &&
              forall y :: y in s ==> le(First(OrderBy(s, le)).value, y)
  {
    var o := OrderBy(s, le);
    if s == [] {
    } else {
      assert s[0] in multiset(o);
      assert o != [];
      assert o[0] in multiset(s);
      OrderBySorted(s, le);
      forall y | y in s ensures le(o[0], y) {
        assert y in multiset(o);
        var j :| 0 <= j < |o| && o[j] == y;
        if j == 0 {
          assert le(y, y);
        }
      }
    }
  }

  lemma HeadPrecedes<T(!new)>(s: seq<T>, le: (T, T) -> bool, x: T)
    requires TotalPreorder(le) && Sorted(s, le) && x in s
    ensures le(s[0], x)
  {
    var i :| 0 <= i < |s| && s[i] == x;
    if i == 0 {
      assert le(x, x);
    }
  }

  lemma SameTails<T>(a: seq<T>, b: seq<T>)
    requires a != [] && b != [] && a[0] == b[0] && multiset(a) == multiset(b)
    ensures multiset(a[1..]) == multiset(b[1..])
  {
    assert a == [a[0]] + a[1..];
    assert b == [b[0]] + b[1..];
    assert multiset(a[1..]) == multiset(a) - multiset{a[0]};
    assert multiset(b[1..]) == multiset(b) - multiset{b[0]};
  }

  /** Two sorted sequences with the same elements are equal when the
      ordering has no ties between distinct elements. */
  lemma {:induction false} SortedUnique<T(!new)>(a: seq<T>, b: seq<T>, le: (T, T) -> bool)
    requires TotalPreorder(le)
    requires Sorted(a, le) && Sorted(b, le)
    requires multiset(a) == multiset(b)
    requires forall x, y :: x in a && y in a && le(x, y) && le(y, x) ==> x == y
    ensures a == b
  {
    if a != [] {
      assert a[0] in multiset(b);
      assert b != [];
      assert b[0] in multiset(a);
      HeadPrecedes(a, le, b[0]);
      HeadPrecedes(b, le, a[0]);
      assert a[0] == b[0];
      SameTails(a, b);
      assert Sorted(a[1..], le) && Sorted(b[1..], le);
      forall x, y | x in a[1..] && y in a[1..] && le(x, y) && le(y, x) ensures x == y {
        assert x in a && y in a;
      }
      SortedUnique(a[1..], b[1..], le);
    }
  }

  /** When no two distinct rows tie, `order_by` does not depend on the
      order of the scan. */
  lemma OrderByWithoutTies<T(!new)>(a: seq<T>, b: seq<T>, le: (T, T) -> bool)
    requires TotalPreorder(le)
    requires multiset(a) == multiset(b)
    requires forall x, y :: x in a && y in a && le(x, y) && le(y, x) ==> x == y
    ensures OrderBy(a, le) == OrderBy(b, le)
  {
    OrderBySorted(a, le);
    OrderBySorted(b, le);
    var oa := OrderBy(a, le);
    forall x, y | x in oa && y in oa && le(x, y) && le(y, x) ensures x == y {
      assert x in multiset(oa) && y in multiset(oa);
      assert x in a && y in a;
    }
    SortedUnique(oa, OrderBy(b, le), le);
  }

  /** Text columns are ordered character by character on code points; a
      proper prefix comes first. */
  predicate LexLe(a: string, b: string) {
    if a == [] then true
    else if b == [] then false
    else if a[0] != b[0] then a[0] < b[0]
    else LexLe(a[1..], b[1..])
  }

  /** The usual reading of the text order: `a` is a prefix of `b`, or at
      the first position where they differ `a` has the smaller character. */
  lemma {:induction false} LexLeMeaning(a: string, b: string)
    ensures LexLe(a, b) <==>
              a <= b ||
              exists i :: 0 <= i < |a| && i < |b| && a[..i] == b[..i] && a[i] < b[i]
  {
    if a == [] {
    } else if b == [] {
      assert !(a <= b);
    } else if a[0] != b[0] {
      if a[0] < b[0] {
        assert a[..0] == b[..0];
      } else {
        assert !(a <= b);
        assert forall i :: 0 < i <= |a| && i <= |b| ==> a[..i][0] == a[0] && b[..i][0] == b[0];
      }
    } else {
      LexLeMeaning(a[1..], b[1..]);
      assert a == [a[0]] + a[1..] && b == [b[0]] + b[1..];
      assert a <= b <==> a[1..] <= b[1..];
      if i :| 0 <= i < |a[1..]| && i < |b[1..]| && a[1..][..i] == b[1..][..i] && a[1..][i] < b[1..][i] {
        assert a[..i + 1] == [a[0]] + a[1..][..i];
        assert b[..i + 1] == [b[0]] + b[1..][..i];
        assert a[..i + 1] == b[..i + 1];
      }
      if i :| 0 <= i < |a| && i < |b| && a[..i] == b[..i] && a[i] < b[i] {
        assert i > 0;
        assert a[1..][..i - 1] == a[..i][1..];
        assert b[1..][..i - 1] == b[..i][1..];
        assert a[1..][i - 1] == a[i];
      }
    }
  }

  lemma {:induction false} LexLeTotal(a: string, b: string)
    ensures LexLe(a, b) || LexLe(b, a)
  {
    if a != [] && b != [] && a[0] == b[0] {
      LexLeTotal(a[1..], b[1..]);
    }
  }

  lemma {:induction false} LexLeTransitive(a: string, b: string, c: string)
    requires LexLe(a, b) && LexLe(b, c)
    ensures LexLe(a, c)
  {
    if a != [] && b != [] && c != [] && a[0] == b[0] == c[0] {
      LexLeTransitive(a[1..], b[1..], c[1..]);
    }
  }

  lemma {:induction false} LexLeAntisymmetric(a: string, b: string)
    requires LexLe(a, b) && LexLe(b, a)
    ensures a == b
  {
    if a != [] && b != [] {
      LexLeAntisymmetric(a[1..], b[1..]);
      assert a == [a[0]] + a[1..] && b == [b[0]] + b[1..];
    }
  }
}
