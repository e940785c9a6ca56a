/**
 Problem rows, their display order, and the stable sort that list views apply. Sorting by id and then, stably,
 by descending opening time is the same as sorting once by the pair of keys.
 */
module ProblemOrder {

  datatype Row = Row(
    tenantId: string,
    problemId: string,
    sourceId: string,
    resourceId: string,
    generation: string,
    activeGeneration: string,
    problemState: string,
    severity: string,
    openedAt: int,
    sizeBytes: nat)

  // ----- Text order, character by character -----

  predicate TextBefore(a: string, b: string) {
    b != [] && (a == [] || a[0] < b[0] || (a[0] == b[0] && TextBefore(a[1..], b[1..])))
  }

  lemma {:induction false} TextBeforeTotal(a: string, b: string)
    ensures a != b <==> TextBefore(a, b) || TextBefore(b, a)
    ensures !(TextBefore(a, b) && TextBefore(b, a))
    decreases |a|
  {
    if a != [] && b != [] {
      TextBeforeTotal(a[1..], b[1..]);
      assert a == [a[0]] + a[1..] && b == [b[0]] + b[1..];
    }
  }

  lemma {:induction false} TextBeforeTransitive(a: string, b: string, c: string)
    requires TextBefore(a, b) && TextBefore(b, c)
    ensures TextBefore(a, c)
    decreases |a|
  {
    if a != [] && a[0] == b[0] == c[0] {
      TextBeforeTransitive(a[1..], b[1..], c[1..]);
    }
  }

  // ----- Row order: latest opening first, then by id -----

  predicate Precedes(a: Row, b: Row) {
    a.openedAt > b.openedAt || (a.openedAt == b.openedAt && TextBefore(a.problemId, b.problemId))
  }

  lemma PrecedesTotal(a: Row, b: Row)
    requires a.problemId != b.problemId
    ensures Precedes(a, b) <==> !Precedes(b, a)
  {
    TextBeforeTotal(a.problemId, b.problemId);
  }

  lemma PrecedesTransitive(a: Row, b: Row, c: Row)
    requires Precedes(a, b) && Precedes(b, c)
    ensures Precedes(a, c)
  {
    if a.openedAt == b.openedAt == c.openedAt {
      TextBeforeTransitive(a.problemId, b.problemId, c.problemId);
    }
  }

  ghost predicate Ordered(rows: seq<Row>) {
    forall i, j | 0 <= i < j < |rows| :: Precedes(rows[i], rows[j])
  }

  ghost predicate UniqueIds(rows: seq<Row>) {
    forall i, j | 0 <= i < j < |rows| :: rows[i].problemId != rows[j].problemId
  }

  // ----- Stable sorting -----

  datatype SortKey = ById | ByOpenedDescending | ByBoth

  predicate LessEqual(key: SortKey, a: Row, b: Row) {
    match key
    case ById => !TextBefore(b.problemId, a.problemId)
    case ByOpenedDescending => a.openedAt >= b.openedAt
    case ByBoth => !Precedes(b, a)
  }

  /** `x` came before everything in `s`, so it goes in front of its equals. */
  function Insert(key: SortKey, x: Row, s: seq<Row>): seq<Row> {
    if s == [] then [x]
    else if LessEqual(key, x, s[0]) then [x] + s
    else [s[0]] + Insert(key, x, s[1..])
  }

  function StableSort(key: SortKey, rows: seq<Row>): seq<Row> {
    if rows == [] then [] else Insert(key, rows[0], StableSort(key, rows[1..]))
  }

  lemma {:induction false} InsertKeepsRows(key: SortKey, x: Row, s: seq<Row>)
    ensures multiset(Insert(key, x, s)) == multiset{x} + multiset(s)
  {
    if s != [] {
      assert s == [s[0]] + s[1..];
      if !LessEqual(key, x, s[0]) {
        InsertKeepsRows(key, x, s[1..]);
      }
    }
  }

  lemma {:induction false} SortKeepsRows(key: SortKey, rows: seq<Row>)
    ensures multiset(StableSort(key, rows)) == multiset(rows)
  {
    if rows != [] {
      SortKeepsRows(key, rows[1..]);
      InsertKeepsRows(key, rows[0], StableSort(key, rows[1..]));
      assert rows == [rows[0]] + rows[1..];
    }
  }

  function OpenedAt(rows: seq<Row>, t: int): seq<Row> {
    if rows == [] then []
    else (if rows[0].openedAt == t then [rows[0]] else []) + OpenedAt(rows[1..], t)
  }

  /** The sort never reorders rows that its key cannot tell apart. */
  lemma {:induction false} SortIsStable(rows: seq<Row>, t: int)
    ensures OpenedAt(StableSort(ByOpenedDescending, rows), t) == OpenedAt(rows, t)
  {
    if rows != [] {
      SortIsStable(rows[1..], t);
      InsertIsStable(rows[0], StableSort(ByOpenedDescending, rows[1..]), t);
    }
  }

  lemma {:induction false} InsertIsStable(x: Row, s: seq<Row>, t: int)
    ensures OpenedAt(Insert(ByOpenedDescending, x, s), t) == (if x.openedAt == t then [x] else []) + OpenedAt(s, t)
  {
    if s != [] {
      if LessEqual(ByOpenedDescending, x, s[0]) {
        assert ([x] + s)[1..] == s;
      } else {
        InsertIsStable(x, s[1..], t);
        var tail := Insert(ByOpenedDescending, x, s[1..]);
        assert ([s[0]] + tail)[1..] == tail;
      }
    }
  }

  // ----- Ordered lists are determined by their rows -----

  lemma {:induction false} OrderedUnique(a: seq<Row>, b: seq<Row>)
    requires Ordered(a) && Ordered(b) && multiset(a) == multiset(b)
    ensures a == b
    decreases |a|
  {
    assert |multiset(a)| == |a| && |multiset(b)| == |b|;
    if a != [] {
      Headless(a);
      Headless(b);
      HeadsAgree(a, b);
      OrderedUnique(a[1..], b[1..]);
      assert a == [a[0]] + a[1..] && b == [b[0]] + b[1..];
    }
  }

  lemma Headless(a: seq<Row>)
    requires a != []
    ensures a[0] in multiset(a)
    ensures multiset(a[1..]) == multiset(a) - multiset{a[0]}
  {
    assert a == [a[0]] + a[1..];
  }

  lemma HeadsAgree(a: seq<Row>, b: seq<Row>)
    requires Ordered(a) && Ordered(b) && a != [] && b != [] && a[0] in multiset(b) && b[0] in multiset(a)
    ensures a[0] == b[0]
  {
    var i :| 0 <= i < |b| && b[i] == a[0];
    var j :| 0 <= j < |a| && a[j] == b[0];
    if i > 0 && j > 0 {
      TextBeforeTotal(a[0].problemId, b[0].problemId);
    }
  }

  // ----- Sorting by both keys -----

  lemma {:induction false} InsertByBoth(x: Row, s: seq<Row>)
    requires Ordered(s) && forall i | 0 <= i < |s| :: s[i].problemId != x.problemId
    ensures Ordered(Insert(ByBoth, x, s))
  {
    if s != [] {
      PrecedesTotal(x, s[0]);
      if LessEqual(ByBoth, x, s[0]) {
        PrependOrdered(x, s);
      } else {
        InsertByBoth(x, s[1..]);
        PrependBefore(s[0], x, s[1..], ByBoth);
      }
    }
  }

  lemma PrependOrdered(x: Row, s: seq<Row>)
    requires Ordered(s) && (s != [] ==> Precedes(x, s[0]))
    ensures Ordered([x] + s)
  {
    forall i | 0 <= i < |s| ensures Precedes(x, s[i]) {
      if i > 0 {
        PrecedesTransitive(x, s[0], s[i]);
      }
    }
  }

  lemma PrependBefore(h: Row, x: Row, s: seq<Row>, key: SortKey)
    requires Precedes(h, x) && Ordered([h] + s) && Ordered(Insert(key, x, s))
    ensures Ordered([h] + Insert(key, x, s))
  {
    InsertKeepsRows(key, x, s);
    var t := Insert(key, x, s);
    forall i | 0 <= i < |t| ensures Precedes(h, t[i]) {
      assert t[i] in multiset(t);
      if t[i] != x {
        var j :| 0 <= j < |s| && s[j] == t[i];
        assert Precedes(([h] + s)[0], ([h] + s)[j + 1]);
      }
    }
  }

  lemma {:induction false} SortByBothOrdered(rows: seq<Row>)
    requires UniqueIds(rows)
    ensures Ordered(StableSort(ByBoth, rows))
  {
    if rows != [] {
      var s := StableSort(ByBoth, rows[1..]);
      SortByBothOrdered(rows[1..]);
      SortKeepsRows(ByBoth, rows[1..]);
      forall i | 0 <= i < |s| ensures s[i].problemId != rows[0].problemId {
        assert s[i] in multiset(s);
        var j :| 0 <= j < |rows[1..]| && rows[1..][j] == s[i];
        assert rows[j + 1] == s[i];
      }
      InsertByBoth(rows[0], s);
    }
  }

  // ----- Two passes are one -----

  ghost predicate IdsAscending(rows: seq<Row>) {
    forall i, j | 0 <= i < j < |rows| :: TextBefore(rows[i].problemId, rows[j].problemId)
  }

  lemma {:induction false} SortByIdAscending(rows: seq<Row>)
    requires UniqueIds(rows)
    ensures IdsAscending(StableSort(ById, rows))
  {
    if rows != [] {
      var s := StableSort(ById, rows[1..]);
      SortByIdAscending(rows[1..]);
      SortKeepsRows(ById, rows[1..]);
      forall i | 0 <= i < |s| ensures s[i].problemId != rows[0].problemId {
        assert s[i] in multiset(s);
        var j :| 0 <= j < |rows[1..]| && rows[1..][j] == s[i];
        assert rows[j + 1] == s[i];
      }
      InsertById(rows[0], s);
    }
  }

  lemma {:induction false} InsertById(x: Row, s: seq<Row>)
    requires IdsAscending(s) && forall i | 0 <= i < |s| :: s[i].problemId != x.problemId
    ensures IdsAscending(Insert(ById, x, s))
  {
    if s != [] {
      TextBeforeTotal(x.problemId, s[0].problemId);
      if LessEqual(ById, x, s[0]) {
        forall i | 0 < i < |s| ensures TextBefore(x.problemId, s[i].problemId) {
          TextBeforeTransitive(x.problemId, s[0].problemId, s[i].problemId);
        }
      } else {
        InsertById(x, s[1..]);
        InsertKeepsRows(ById, x, s[1..]);
        var t := Insert(ById, x, s[1..]);
        forall i | 0 <= i < |t| ensures TextBefore(s[0].problemId, t[i].problemId) {
          assert t[i] in multiset(t);
          if t[i] != x {
            var j :| 0 <= j < |s[1..]| && s[1..][j] == t[i];
            assert s[j + 1] == t[i];
          }
        }
      }
    }
  }

  /** The second pass keeps the order of the first among rows opened at the same time. */
  lemma {:induction false} SecondPassOrders(rows: seq<Row>)
    requires IdsAscending(rows)
    ensures Ordered(StableSort(ByOpenedDescending, rows))
  {
    if rows != [] {
      var s := StableSort(ByOpenedDescending, rows[1..]);
      SecondPassOrders(rows[1..]);
      SortKeepsRows(ByOpenedDescending, rows[1..]);
      forall i | 0 <= i < |s| ensures TextBefore(rows[0].problemId, s[i].problemId) {
        assert s[i] in multiset(s);
        var j :| 0 <= j < |rows[1..]| && rows[1..][j] == s[i];
        assert rows[j + 1] == s[i];
      }
      InsertByOpened(rows[0], s);
    }
  }

  lemma {:induction false} InsertByOpened(x: Row, s: seq<Row>)
    requires Ordered(s) && forall i | 0 <= i < |s| :: TextBefore(x.problemId, s[i].problemId)
    ensures Ordered(Insert(ByOpenedDescending, x, s))
  {
    if s != [] {
      if LessEqual(ByOpenedDescending, x, s[0]) {
        PrependOrdered(x, s);
      } else {
        InsertByOpened(x, s[1..]);
        PrependBefore(s[0], x, s[1..], ByOpenedDescending);
      }
    }
  }

  /** Sorting by id and then, stably, by descending opening time gives the rows in display order. */
  lemma TwoPassesAreOne(rows: seq<Row>)
    requires UniqueIds(rows)
    ensures StableSort(ByOpenedDescending, StableSort(ById, rows)) == StableSort(ByBoth, rows)
    ensures Ordered(StableSort(ByBoth, rows))
  {
    var byId := StableSort(ById, rows);
    SortByIdAscending(rows);
    SecondPassOrders(byId);
    SortByBothOrdered(rows);
    SortKeepsRows(ById, rows);
    SortKeepsRows(ByOpenedDescending, byId);
    SortKeepsRows(ByBoth, rows);
    OrderedUnique(StableSort(ByOpenedDescending, byId), StableSort(ByBoth, rows));
  }

  // ----- The orders, characterised -----

  /** The texts agree before position i, and there the first one ends or has the smaller character. */
  predicate FirstDifference(a: string, b: string, i: nat) {
    && i <= |a| && i < |b|
    && (forall j | 0 <= j < i :: a[j] == b[j])
    && (i == |a| || a[i] < b[i])
  }

  lemma DifferenceShifts(a: string, b: string, i: nat)
    requires a != [] && b != [] && a[0] == b[0]
    ensures FirstDifference(a[1..], b[1..], i) <==> FirstDifference(a, b, i + 1)
  {
    if FirstDifference(a[1..], b[1..], i) {
      forall j | 0 <= j < i + 1 ensures a[j] == b[j] {
        assert j > 0 ==> a[j] == a[1..][j - 1] && b[j] == b[1..][j - 1];
      }
    }
  }

  lemma {:induction false} TextBeforeExactly(a: string, b: string)
    ensures TextBefore(a, b) <==> exists i: nat :: FirstDifference(a, b, i)
    decreases |a|
  {
    if a != [] && b != [] && a[0] == b[0] {
      TextBeforeExactly(a[1..], b[1..]);
      if i: nat :| FirstDifference(a[1..], b[1..], i) {
        DifferenceShifts(a, b, i);
      }
      if i: nat :| FirstDifference(a, b, i) {
        DifferenceShifts(a, b, i - 1);
      }
    } else if TextBefore(a, b) {
      assert FirstDifference(a, b, 0);
    }
  }

  /** The later opening comes first; at the same time, the text that is smaller at the first difference does. */
  lemma PrecedesExactly(a: Row, b: Row)
    ensures Precedes(a, b) <==>
            || b.openedAt < a.openedAt
            || (a.openedAt == b.openedAt && exists i: nat :: FirstDifference(a.problemId, b.problemId, i))
  {
    TextBeforeExactly(a.problemId, b.problemId);
  }
}
