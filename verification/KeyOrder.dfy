/**
 Ordered keys, a stable sort by key, and the removal of neighbours with equal keys.
 Together they leave, in increasing key order, the first row of every key.
 */
module KeyOrder {
  import opened Wrappers

  /** Strings in lexicographic order of their characters. */
  predicate StringLess(a: string, b: string)
  {
    if b == "" then false
    else if a == "" then true
    else if a[0] != b[0] then a[0] < b[0]
    else StringLess(a[1..], b[1..])
  }

  lemma {:induction false} StringLessTrans(a: string, b: string, c: string)
    requires StringLess(a, b) && StringLess(b, c)
    ensures StringLess(a, c)
  {
    if a != "" && a[0] == b[0] && b[0] == c[0] {
      StringLessTrans(a[1..], b[1..], c[1..]);
    }
  }

  lemma {:induction false} StringLessIrreflexive(a: string)
    ensures !StringLess(a, a)
  {
    if a != "" {
      StringLessIrreflexive(a[1..]);
    }
  }

  lemma {:induction false} StringLessTotal(a: string, b: string)
    ensures StringLess(a, b) || a == b || StringLess(b, a)
  {
    if a != "" && b != "" && a[0] == b[0] {
      StringLessTotal(a[1..], b[1..]);
      assert a == [a[0]] + a[1..] && b == [b[0]] + b[1..];
    }
  }

  /** The first difference decides, and a proper beginning comes before what it begins. */
  lemma {:induction false} StringLessExact(a: string, b: string)
    ensures StringLess(a, b)
            <==> exists n :: 0 <= n <= |a| && n < |b| && a[..n] == b[..n] && (n == |a| || (a[n] as int) < (b[n] as int))
  {
    if a != "" && b != "" && a[0] == b[0] {
      StringLessExact(a[1..], b[1..]);
      if n :| 0 <= n <= |a[1..]| && n < |b[1..]| && a[1..][..n] == b[1..][..n]
              && (n == |a[1..]| || (a[1..][n] as int) < (b[1..][n] as int)) {
        assert a[..n + 1] == [a[0]] + a[1..][..n] && b[..n + 1] == [b[0]] + b[1..][..n];
        assert 0 <= n + 1 <= |a| && n + 1 < |b| && a[..n + 1] == b[..n + 1]
               && (n + 1 == |a| || (a[n + 1] as int) < (b[n + 1] as int));
      }
      if m :| 0 <= m <= |a| && m < |b| && a[..m] == b[..m] && (m == |a| || (a[m] as int) < (b[m] as int)) {
        var n := m - 1;
        assert a[1..][..n] == a[..m][1..] && b[1..][..n] == b[..m][1..];
      }
    } else if StringLess(a, b) {
      assert a[..0] == b[..0];
    } else if m :| 0 <= m <= |a| && m < |b| && a[..m] == b[..m] && (m == |a| || (a[m] as int) < (b[m] as int)) {
      SameFirst(a, b, m);
    }
  }

  lemma SameFirst(a: string, b: string, m: nat)
    requires m <= |a| && m <= |b| && a[..m] == b[..m]
    ensures m > 0 ==> a[0] == b[0]
  {
    if m > 0 {
      assert a[..m][0] == b[..m][0];
    }
  }

  datatype Key = Key(major: string, minor: Option<string>)

  /** By the major part first; a missing minor part comes before every other. */
  predicate KeyLess(a: Key, b: Key)
  {
    StringLess(a.major, b.major)
    || (a.major == b.major && b.minor.Some? && (a.minor.None? || StringLess(a.minor.value, b.minor.value)))
  }

  lemma KeyLessExact(a: Key, b: Key)
    ensures a.major != b.major ==> (KeyLess(a, b) <==> StringLess(a.major, b.major))
    ensures a.major == b.major ==>
              (KeyLess(a, b) <==> match (a.minor, b.minor)
                                  case (_, None) => false
                                  case (None, Some(_)) => true
                                  case (Some(x), Some(y)) => StringLess(x, y))
  {
    StringLessIrreflexive(a.major);
  }

  lemma KeyLessTrans(a: Key, b: Key, c: Key)
    requires KeyLess(a, b) && KeyLess(b, c)
    ensures KeyLess(a, c)
  {
    hide StringLess;
    if StringLess(a.major, b.major) && StringLess(b.major, c.major) {
      StringLessTrans(a.major, b.major, c.major);
    }
    if a.minor.Some? && b.minor.Some? && c.minor.Some? && StringLess(a.minor.value, b.minor.value)
       && StringLess(b.minor.value, c.minor.value) {
      StringLessTrans(a.minor.value, b.minor.value, c.minor.value);
    }
  }

  lemma KeyLessIrreflexive(a: Key)
    ensures !KeyLess(a, a)
  {
    StringLessIrreflexive(a.major);
    if a.minor.Some? {
      StringLessIrreflexive(a.minor.value);
    }
  }

  lemma KeyLessTotal(a: Key, b: Key)
    ensures KeyLess(a, b) || a == b || KeyLess(b, a)
  {
    hide StringLess;
    StringLessTotal(a.major, b.major);
    if a.minor.Some? && b.minor.Some? {
      StringLessTotal(a.minor.value, b.minor.value);
    }
  }

  /** Not greater: the order a sort establishes between neighbours. */
  predicate KeyLeq(a: Key, b: Key)
  {
    !KeyLess(b, a)
  }

  lemma LeqIsLessOrEqual(a: Key, b: Key)
    ensures KeyLeq(a, b) <==> KeyLess(a, b) || a == b
  {
    hide KeyLess;
    KeyLessTotal(a, b);
    KeyLessIrreflexive(a);
    if KeyLess(a, b) && KeyLess(b, a) {
      KeyLessTrans(a, b, a);
    }
  }

  // ---------------------------------------------------------------- rows with keys

  ghost predicate NonDecreasing<T>(rows: seq<T>, key: T -> Key)
  {
    forall i, j :: 0 <= i < j < |rows| ==> KeyLeq(key(rows[i]), key(rows[j]))
  }

  ghost predicate Increasing<T>(rows: seq<T>, key: T -> Key)
  {
    forall i, j :: 0 <= i < j < |rows| ==> KeyLess(key(rows[i]), key(rows[j]))
  }

  /** The first row with the key. */
  function FirstWith<T>(rows: seq<T>, key: T -> Key, k: Key): Option<T>
  {
    if rows == [] then None
    else if key(rows[0]) == k then Some(rows[0])
    else FirstWith(rows[1..], key, k)
  }

  lemma {:induction false} FirstWithExact<T>(rows: seq<T>, key: T -> Key, k: Key)
    ensures FirstWith(rows, key, k).None? <==> forall i :: 0 <= i < |rows| ==> key(rows[i]) != k
    ensures FirstWith(rows, key, k).Some? ==> key(FirstWith(rows, key, k).value) == k && FirstWith(rows, key, k).value in rows
  {
    if rows != [] {
      FirstWithExact(rows[1..], key, k);
      assert forall i :: 1 <= i < |rows| ==> rows[i] == rows[1..][i - 1];
    }
  }

  lemma {:induction false} FirstWithAppend<T>(a: seq<T>, b: seq<T>, key: T -> Key, k: Key)
    ensures FirstWith(a + b, key, k) == if FirstWith(a, key, k).Some? then FirstWith(a, key, k) else FirstWith(b, key, k)
  {
    if a == [] {
      assert a + b == b;
    } else {
      assert (a + b)[1..] == a[1..] + b;
      FirstWithAppend(a[1..], b, key, k);
    }
  }

  /** All rows with the key, in order. */
  function RowsWith<T>(rows: seq<T>, key: T -> Key, k: Key): seq<T>
  {
    if rows == [] then []
    else (if key(rows[0]) == k then [rows[0]] else []) + RowsWith(rows[1..], key, k)
  }

  lemma {:induction false} RowsWithAppend<T>(a: seq<T>, b: seq<T>, key: T -> Key, k: Key)
    ensures RowsWith(a + b, key, k) == RowsWith(a, key, k) + RowsWith(b, key, k)
  {
    if a == [] {
      assert a + b == b;
    } else {
      assert (a + b)[1..] == a[1..] + b;
      RowsWithAppend(a[1..], b, key, k);
    }
  }

  lemma {:induction false} FirstOfRows<T>(rows: seq<T>, key: T -> Key, k: Key)
    ensures FirstWith(rows, key, k) == if RowsWith(rows, key, k) == [] then None else Some(RowsWith(rows, key, k)[0])
  {
    if rows != [] {
      FirstOfRows(rows[1..], key, k);
    }
  }

  // ---------------------------------------------------------------- stable sort

  /** Puts the row behind every row whose key is not greater. */
  function InsertRow<T>(rows: seq<T>, row: T, key: T -> Key): seq<T>
  {
    if rows == [] || KeyLess(key(row), key(rows[0])) then [row] + rows
    else [rows[0]] + InsertRow(rows[1..], row, key)
  }

  function SortRows<T>(rows: seq<T>, key: T -> Key): seq<T>
  {
    if rows == [] then [] else InsertRow(SortRows(rows[..|rows| - 1], key), rows[|rows| - 1], key)
  }

  lemma {:induction false} InsertMembers<T>(rows: seq<T>, row: T, key: T -> Key)
    ensures multiset(InsertRow(rows, row, key)) == multiset(rows) + multiset{row}
  {
    hide KeyLess;
    if rows == [] || KeyLess(key(row), key(rows[0])) {
    } else {
      InsertMembers(rows[1..], row, key);
      assert rows == [rows[0]] + rows[1..];
    }
  }

  lemma ConsNonDecreasing<T>(x: T, rows: seq<T>, key: T -> Key)
    requires NonDecreasing(rows, key) && forall y :: y in rows ==> KeyLeq(key(x), key(y))
    ensures NonDecreasing([x] + rows, key)
  {
    hide KeyLeq;
    var all := [x] + rows;
    forall i, j | 0 <= i < j < |all|
      ensures KeyLeq(key(all[i]), key(all[j]))
    {
      assert all[j] == rows[j - 1] && rows[j - 1] in rows;
    }
  }

  lemma TailNonDecreasing<T>(rows: seq<T>, key: T -> Key)
    requires rows != [] && NonDecreasing(rows, key)
    ensures NonDecreasing(rows[1..], key) && forall y :: y in rows[1..] ==> KeyLeq(key(rows[0]), key(y))
  {
    hide KeyLeq;
  }

  lemma {:induction false} InsertSorted<T>(rows: seq<T>, row: T, key: T -> Key)
    requires NonDecreasing(rows, key)
    ensures NonDecreasing(InsertRow(rows, row, key), key)
    decreases |rows|
  {
    hide KeyLess, NonDecreasing, KeyLeq;
    if rows == [] {
      assert [row] + rows == [row];
      SingleSorted(row, key);
    } else {
      TailNonDecreasing(rows, key);
      if KeyLess(key(row), key(rows[0])) {
        forall y | y in rows
          ensures KeyLeq(key(row), key(y))
        {
          FrontLeq(rows, y, key);
          LessLeq(key(row), key(rows[0]), key(y));
        }
        ConsNonDecreasing(row, rows, key);
      } else {
        InsertSorted(rows[1..], row, key);
        InsertMembers(rows[1..], row, key);
        var rest := InsertRow(rows[1..], row, key);
        forall y | y in rest
          ensures KeyLeq(key(rows[0]), key(y))
        {
          assert y in multiset(rest);
          NotLess(key(row), key(rows[0]));
        }
        ConsNonDecreasing(rows[0], rest, key);
      }
    }
  }

  lemma SingleSorted<T>(row: T, key: T -> Key)
    ensures NonDecreasing([row], key)
  {
  }

  lemma FrontLeq<T>(rows: seq<T>, y: T, key: T -> Key)
    requires rows != [] && NonDecreasing(rows, key) && y in rows
    ensures KeyLeq(key(rows[0]), key(y))
  {
    hide KeyLess;
    KeyLessIrreflexive(key(rows[0]));
  }

  lemma NotLess(a: Key, b: Key)
    requires !KeyLess(a, b)
    ensures KeyLeq(b, a)
  {
  }

  lemma LessLeq(a: Key, b: Key, c: Key)
    requires KeyLess(a, b) && KeyLeq(b, c)
    ensures KeyLess(a, c) && KeyLeq(a, c)
  {
    hide KeyLess;
    LeqIsLessOrEqual(b, c);
    if KeyLess(b, c) {
      KeyLessTrans(a, b, c);
    }
    LeqIsLessOrEqual(a, c);
  }

  /** The inserted row comes behind the rows that have its key already. */
  lemma {:induction false} InsertStable<T>(rows: seq<T>, row: T, key: T -> Key, k: Key)
    requires NonDecreasing(rows, key)
    ensures RowsWith(InsertRow(rows, row, key), key, k) == RowsWith(rows, key, k) + RowsWith([row], key, k)
    decreases |rows|
  {
    hide KeyLess, NonDecreasing, KeyLeq, RowsWith;
    RowsOfOne(row, key, k);
    NoRows(key, k);
    if rows == [] {
      assert [row] + rows == [row];
    } else if KeyLess(key(row), key(rows[0])) {
      RowsWithAppend([row], rows, key, k);
      if key(row) == k {
        NoneEqual(rows, row, key);
      }
    } else {
      TailNonDecreasing(rows, key);
      InsertStable(rows[1..], row, key, k);
      RowsWithAppend([rows[0]], InsertRow(rows[1..], row, key), key, k);
      RowsWithAppend([rows[0]], rows[1..], key, k);
      assert rows == [rows[0]] + rows[1..];
    }
  }

  lemma NoRows<T>(key: T -> Key, k: Key)
    ensures RowsWith([], key, k) == []
  {
  }

  lemma RowsOfOne<T>(row: T, key: T -> Key, k: Key)
    ensures RowsWith([row], key, k) == if key(row) == k then [row] else []
  {
  }

  lemma FirstOfOne<T>(row: T, key: T -> Key, k: Key)
    ensures FirstWith([row], key, k) == if key(row) == k then Some(row) else None
  {
  }

  lemma NoneEqual<T>(rows: seq<T>, row: T, key: T -> Key)
    requires rows != [] && NonDecreasing(rows, key) && KeyLess(key(row), key(rows[0]))
    ensures RowsWith(rows, key, key(row)) == []
  {
    hide KeyLess, NonDecreasing, KeyLeq, FirstWith, RowsWith;
    FirstWithExact(rows, key, key(row));
    FirstOfRows(rows, key, key(row));
    KeyLessIrreflexive(key(row));
    forall i | 0 <= i < |rows|
      ensures key(rows[i]) != key(row)
    {
      FrontLeq(rows, rows[i], key);
      LessLeq(key(row), key(rows[0]), key(rows[i]));
    }
  }

  /** The sort orders the rows by key, and rows of one key stay in their order. */
  lemma {:induction false} SortIsStable<T>(rows: seq<T>, key: T -> Key, k: Key)
    ensures NonDecreasing(SortRows(rows, key), key)
    ensures RowsWith(SortRows(rows, key), key, k) == RowsWith(rows, key, k)
    decreases |rows|
  {
    if rows != [] {
      hide *;
      var init, last := rows[..|rows| - 1], rows[|rows| - 1];
      SortStep(rows, key);
      SortIsStable(init, key, k);
      var sorted := SortRows(init, key);
      InsertSorted(sorted, last, key);
      InsertStable(sorted, last, key, k);
      RowsWithAppend(init, [last], key, k);
      assert rows == init + [last];
    }
  }

  lemma SortKeepsFirst<T>(rows: seq<T>, key: T -> Key, k: Key)
    ensures FirstWith(SortRows(rows, key), key, k) == FirstWith(rows, key, k)
  {
    hide *;
    SortIsStable(rows, key, k);
    FirstOfRows(rows, key, k);
    FirstOfRows(SortRows(rows, key), key, k);
  }

  lemma SortStep<T>(rows: seq<T>, key: T -> Key)
    requires rows != []
    ensures SortRows(rows, key) == InsertRow(SortRows(rows[..|rows| - 1], key), rows[|rows| - 1], key)
  {
  }

  /** A sort moves rows and neither adds nor drops any. */
  lemma {:induction false} SortMembers<T>(rows: seq<T>, key: T -> Key)
    ensures multiset(SortRows(rows, key)) == multiset(rows)
    decreases |rows|
  {
    if rows != [] {
      hide InsertRow;
      var init, last := rows[..|rows| - 1], rows[|rows| - 1];
      SortMembers(init, key);
      InsertMembers(SortRows(init, key), last, key);
      assert rows == init + [last];
    }
  }

  // ---------------------------------------------------------------- removing equal neighbours

  /** Of neighbours with the same key only the first stays. */
  function DedupRows<T>(rows: seq<T>, key: T -> Key): seq<T>
    decreases |rows|
  {
    if |rows| <= 1 then rows
    else if key(rows[0]) == key(rows[1]) then DedupRows([rows[0]] + rows[2..], key)
    else [rows[0]] + DedupRows(rows[1..], key)
  }

  /** What the source does to each list of the index. */
  function SortDedup<T>(rows: seq<T>, key: T -> Key): seq<T>
  {
    DedupRows(SortRows(rows, key), key)
  }

  lemma {:induction false} DedupFirst<T>(rows: seq<T>, key: T -> Key, k: Key)
    ensures FirstWith(DedupRows(rows, key), key, k) == FirstWith(rows, key, k)
    decreases |rows|
  {
    if |rows| > 1 {
      hide FirstWith;
      var a, b := rows[0], rows[1];
      assert rows == [a] + rows[1..] && rows[1..] == [b] + rows[2..];
      FirstWithAppend([a], rows[1..], key, k);
      FirstWithAppend([b], rows[2..], key, k);
      FirstOfOne(a, key, k);
      FirstOfOne(b, key, k);
      if key(a) == key(b) {
        FirstWithAppend([a], rows[2..], key, k);
        DedupFirst([a] + rows[2..], key, k);
      } else {
        DedupFirst(rows[1..], key, k);
        FirstWithAppend([a], DedupRows(rows[1..], key), key, k);
      }
    }
  }

  lemma {:induction false} DedupIncreasing<T>(rows: seq<T>, key: T -> Key)
    requires NonDecreasing(rows, key)
    ensures Increasing(DedupRows(rows, key), key)
    ensures rows != [] ==> DedupRows(rows, key) != [] && DedupRows(rows, key)[0] == rows[0]
    decreases |rows|
  {
    if |rows| > 1 {
      hide KeyLess, KeyLeq, NonDecreasing, Increasing;
      if key(rows[0]) == key(rows[1]) {
        SkipSecond(rows, key);
        DedupIncreasing([rows[0]] + rows[2..], key);
      } else {
        TailNonDecreasing(rows, key);
        DedupIncreasing(rows[1..], key);
        FrontLeq(rows, rows[1], key);
        LeqIsLessOrEqual(key(rows[0]), key(rows[1]));
        ConsIncreasing(rows[0], DedupRows(rows[1..], key), key);
      }
    } else {
      assert Increasing(rows, key);
    }
  }

  lemma SkipSecond<T>(rows: seq<T>, key: T -> Key)
    requires |rows| > 1 && NonDecreasing(rows, key)
    ensures NonDecreasing([rows[0]] + rows[2..], key)
  {
    hide KeyLeq;
    var all := [rows[0]] + rows[2..];
    forall i, j | 0 <= i < j < |all|
      ensures KeyLeq(key(all[i]), key(all[j]))
    {
      assert all[j] == rows[j + 1];
      assert i > 0 ==> all[i] == rows[i + 1];
    }
  }

  lemma ConsIncreasing<T>(x: T, rows: seq<T>, key: T -> Key)
    requires Increasing(rows, key) && (rows != [] ==> KeyLess(key(x), key(rows[0])))
    ensures Increasing([x] + rows, key)
  {
    hide KeyLess;
    var all := [x] + rows;
    forall i, j | 0 <= i < j < |all|
      ensures KeyLess(key(all[i]), key(all[j]))
    {
      assert all[j] == rows[j - 1];
      if i == 0 && j > 1 {
        KeyLessTrans(key(x), key(rows[0]), key(rows[j - 1]));
      }
    }
  }

  /** Sorting and removing equal neighbours leaves the first row of every key, in increasing key order. */
  lemma SortDedupExact<T>(rows: seq<T>, key: T -> Key)
    ensures Increasing(SortDedup(rows, key), key)
    ensures forall k :: FirstWith(SortDedup(rows, key), key, k) == FirstWith(rows, key, k)
  {
    hide FirstWith, DedupRows, SortRows, Increasing, NonDecreasing;
    var any := Key("", None);
    SortIsStable(rows, key, any);
    DedupIncreasing(SortRows(rows, key), key);
    forall k
      ensures FirstWith(SortDedup(rows, key), key, k) == FirstWith(rows, key, k)
    {
      SortKeepsFirst(rows, key, k);
      DedupFirst(SortRows(rows, key), key, k);
    }
  }

  /** Those two facts determine the list. */
  lemma {:induction false} IncreasingUnique<T>(a: seq<T>, b: seq<T>, key: T -> Key)
    requires Increasing(a, key) && Increasing(b, key)
    requires forall k :: FirstWith(a, key, k) == FirstWith(b, key, k)
    ensures a == b
    decreases |a|
  {
    hide KeyLess;
    if a == [] {
      if b != [] {
        NotLikeEmpty(b, key);
      }
    } else if b == [] {
      NotLikeEmpty(a, key);
    } else {
      SameHead(a, b, key);
      forall k
        ensures FirstWith(a[1..], key, k) == FirstWith(b[1..], key, k)
      {
        TailFirst(a, key, k);
        TailFirst(b, key, k);
      }
      IncreasingUnique(a[1..], b[1..], key);
      assert a == [a[0]] + a[1..] && b == [b[0]] + b[1..];
    }
  }

  lemma HeadFound<T>(a: seq<T>, key: T -> Key)
    requires a != []
    ensures FirstWith(a, key, key(a[0])) == Some(a[0])
  {
  }

  lemma NotLikeEmpty<T>(a: seq<T>, key: T -> Key)
    requires a != []
    ensures exists k :: FirstWith(a, key, k) != FirstWith([], key, k)
  {
    HeadFound(a, key);
  }

  lemma TailFirst<T>(a: seq<T>, key: T -> Key, k: Key)
    requires a != [] && Increasing(a, key)
    ensures FirstWith(a[1..], key, k) == if key(a[0]) == k then None else FirstWith(a, key, k)
  {
    hide KeyLess;
    if key(a[0]) == k {
      FirstWithExact(a[1..], key, k);
      KeyLessIrreflexive(k);
    }
  }

  lemma HeadLeast<T>(a: seq<T>, key: T -> Key, k: Key)
    requires a != [] && Increasing(a, key) && FirstWith(a, key, k).Some?
    ensures KeyLeq(key(a[0]), k)
  {
    hide KeyLess, KeyLeq;
    FirstWithExact(a, key, k);
    LeqIsLessOrEqual(key(a[0]), k);
  }

  lemma SameHead<T>(a: seq<T>, b: seq<T>, key: T -> Key)
    requires a != [] && b != [] && Increasing(a, key) && Increasing(b, key)
    requires forall k :: FirstWith(a, key, k) == FirstWith(b, key, k)
    ensures a[0] == b[0]
  {
    hide KeyLess, KeyLeq, FirstWith, Increasing;
    HeadFound(a, key);
    HeadFound(b, key);
    HeadLeast(a, key, key(b[0]));
    HeadLeast(b, key, key(a[0]));
    LeqIsLessOrEqual(key(a[0]), key(b[0]));
    LeqIsLessOrEqual(key(b[0]), key(a[0]));
    if KeyLess(key(a[0]), key(b[0])) {
      LessLeq(key(a[0]), key(b[0]), key(a[0]));
      KeyLessIrreflexive(key(a[0]));
    }
  }
}
