/** Small shared types and the sequence facts several modules lean on. */
module Base {

  datatype Option<+T> = None | Some(value: T)

  datatype Result<+T, +E> = Ok(value: T) | Err(error: E)

  ghost predicate NoDup<T>(s: seq<T>) {
    forall i, j :: 0 <= i < j < |s| ==> s[i] != s[j]
  }

  ghost function Elems<T>(s: seq<T>): set<T> {
    set x | x in s
  }

  /** A duplicate-free sequence is as long as its set of elements. */
  lemma {:induction false} NoDupSize<T>(s: seq<T>)
    requires NoDup(s)
    ensures |Elems(s)| == |s|
  {
    if s == [] {
      assert Elems(s) == {};
    } else {
      NoDupSize(s[1..]);
      assert s[0] !in s[1..];
      assert Elems(s) == Elems(s[1..]) + {s[0]};
    }
  }

  /** A duplicate-free sequence taken apart at its head. */
  lemma NoDupHead<T>(s: seq<T>, before: set<T>)
    requires s != [] && NoDup(s)
    ensures NoDup(s[1..]) && s[0] in s && (forall x | x in s[1..] :: x in s && x != s[0])
    ensures before + Elems(s) == (before + {s[0]}) + Elems(s[1..])
  {
    assert forall x :: x in s <==> x == s[0] || x in s[1..];
  }

  lemma NothingAnd<T>(s: set<T>)
    ensures {} + s == s
  {
  }

  lemma ElemsNext<T>(s: seq<T>, i: nat)
    requires i < |s|
    ensures s[i] in Elems(s) && Elems(s[..i + 1]) == Elems(s[..i]) + {s[i]}
    ensures i + 1 == |s| ==> Elems(s[..i + 1]) == Elems(s)
  {
    assert s[..i + 1] == s[..i] + [s[i]];
    assert s[..|s|] == s;
  }

  lemma NoDupCons<T>(x: T, s: seq<T>)
    requires NoDup(s) && x !in s
    ensures NoDup([x] + s)
  {
    NoDupConcat([x], s);
  }

  lemma NoDupConcat<T>(a: seq<T>, b: seq<T>)
    requires NoDup(a) && NoDup(b)
    requires forall x | x in b :: x !in a
    ensures NoDup(a + b)
  {
    var c := a + b;
    forall i, j | 0 <= i < j < |c| ensures c[i] != c[j] {
      if i < |a| && |a| <= j { assert c[j] == b[j - |a|] && c[j] in b; }
    }
  }

  /** A subset is no larger than the set it sits in. */
  lemma {:induction false} SubsetSize<T>(a: set<T>, b: set<T>)
    requires a <= b
    ensures |a| <= |b|
    ensures |a| == |b| ==> a == b
  {
    assert b == a + (b - a);
    assert a !! (b - a);
  }

  /** SQL's ORDER BY on one integer column: insert one row into sorted rows. */
  function InsertSorted(x: int, rows: seq<int>, desc: bool): seq<int> {
    if rows == [] then [x]
    else if Precedes(x, rows[0], desc) then [x] + rows
    else [rows[0]] + InsertSorted(x, rows[1..], desc)
  }

  predicate Precedes(x: int, y: int, desc: bool) {
    if desc then y <= x else x <= y
  }

  function OrderBy(rows: seq<int>, desc: bool): seq<int> {
    if rows == [] then [] else InsertSorted(rows[0], OrderBy(rows[1..], desc), desc)
  }

  ghost predicate Sorted(rows: seq<int>, desc: bool) {
    forall i, j :: 0 <= i < j < |rows| ==> Precedes(rows[i], rows[j], desc)
  }

  lemma {:induction false} InsertSortedRows(x: int, rows: seq<int>, desc: bool)
    ensures multiset(InsertSorted(x, rows, desc)) == multiset(rows) + multiset{x}
  {
    if rows != [] {
      assert rows == [rows[0]] + rows[1..];
      InsertSortedRows(x, rows[1..], desc);
    }
  }

  lemma {:induction false} InsertKeepsSorted(x: int, rows: seq<int>, desc: bool)
    requires Sorted(rows, desc)
    ensures Sorted(InsertSorted(x, rows, desc), desc)
  {
    if rows != [] && !Precedes(x, rows[0], desc) {
      var rest := InsertSorted(x, rows[1..], desc);
      InsertKeepsSorted(x, rows[1..], desc);
      InsertSortedRows(x, rows[1..], desc);
      forall j | 0 <= j < |rest| ensures Precedes(rows[0], rest[j], desc) {
        assert rest[j] in multiset(rest);
      }
    }
  }

  /** ORDER BY keeps every row, each as often as it was, and sorts. */
  lemma {:induction false} OrderByRows(rows: seq<int>, desc: bool)
    ensures multiset(OrderBy(rows, desc)) == multiset(rows)
    ensures Sorted(OrderBy(rows, desc), desc)
    ensures forall y :: y in OrderBy(rows, desc) <==> y in rows
  {
    if rows != [] {
      assert rows == [rows[0]] + rows[1..];
      OrderByRows(rows[1..], desc);
      InsertSortedRows(rows[0], OrderBy(rows[1..], desc), desc);
      InsertKeepsSorted(rows[0], OrderBy(rows[1..], desc), desc);
    }
    assert forall y :: y in rows <==> y in multiset(rows);
    assert forall y :: y in OrderBy(rows, desc) <==> y in multiset(OrderBy(rows, desc));
  }

  lemma SomeMember<T>(s: set<T>) returns (x: T)
    requires s != {}
    ensures x in s
  {
    x :| x in s;
  }

  /** The largest member, as SQLite's `MAX` or `ORDER BY id DESC LIMIT 1` finds it. */
  lemma {:induction false} MaxExists(s: set<int>)
    requires s != {}
    ensures exists m :: m in s && forall x | x in s :: x <= m
  {
    var x := SomeMember(s);
    var rest := s - {x};
    if rest == {} {
      assert forall y | y in s :: y == x || y in rest;
    } else {
      MaxExists(rest);
      var m :| m in rest && forall y | y in rest :: y <= m;
      var top := if m < x then x else m;
      assert forall y | y in s :: y == x || y in rest;
      assert top in s && forall y | y in s :: y <= top;
    }
  }

  ghost function MaxOf(s: set<int>): (m: int)
    requires s != {}
    ensures m in s
    ensures forall x | x in s :: x <= m
  {
    MaxExists(s);
    var m :| m in s && forall x | x in s :: x <= m;
    m
  }

  /** The rowid SQLite gives the next row of a table without AUTOINCREMENT. */
  ghost function NextRowId(ids: set<int>): (id: int)
    ensures id !in ids
    ensures forall x | x in ids :: x < id
  {
    if ids == {} then 1 else MaxOf(ids) + 1
  }
}
