// The merge rule for cached statement history (backend/core/history_merge.py), and what a
// whole run of full, clamped, empty and error answers leaves in the cache.
module HistoryMerge {
  import opened Options

  // A row of a payload: its period (the date, as a number in ISO order), when it has one, and
  // its other fields. NotARow is a list element that is not an object.
  datatype Row = Row(period: Option<int>, fields: string) | NotARow

  // A decoded payload.
  datatype Body = Missing | NotAList | List(rows: seq<Row>)

  datatype Action = Replace | Merge | KeptCached

  datatype HistoryMerge = HistoryMerge(rows: Body, action: Action, clamped: bool, emptyKept: bool)

  function RowsOf(b: Body): seq<Row> {
    if b.List? then b.rows else []
  }

  function PeriodKey(r: Row): Option<int> {
    if r.Row? then r.period else None
  }

  predicate Keyed(rows: seq<Row>) {
    forall i :: 0 <= i < |rows| ==> PeriodKey(rows[i]).Some?
  }

  function Key(r: Row): int
    requires PeriodKey(r).Some?
  {
    r.period.value
  }

  predicate HasPeriod(rows: seq<Row>, k: int) {
    exists i :: 0 <= i < |rows| && PeriodKey(rows[i]) == Some(k)
  }

  // min over the rows that have a period
  function Oldest(rows: seq<Row>): Option<int> {
    if rows == [] then None
    else
      var rest := Oldest(rows[1..]);
      match PeriodKey(rows[0])
      case None => rest
      case Some(k) => if rest.Some? && rest.value < k then rest else Some(k)
  }

  // Stable sort, newest period first.
  function Insert(r: Row, rows: seq<Row>): (out: seq<Row>)
    requires PeriodKey(r).Some? && Keyed(rows)
    ensures Keyed(out) && multiset(out) == multiset{r} + multiset(rows)
  {
    if rows == [] || Key(r) >= Key(rows[0]) then [r] + rows
    else
      assert rows == [rows[0]] + rows[1..];
      [rows[0]] + Insert(r, rows[1..])
  }

  function NewestFirst(rows: seq<Row>): (out: seq<Row>)
    requires Keyed(rows)
    ensures Keyed(out) && multiset(out) == multiset(rows)
  {
    if rows == [] then []
    else
      assert rows == [rows[0]] + rows[1..];
      Insert(rows[0], NewestFirst(rows[1..]))
  }

  // The rows whose period the fresh answer does not contain.
  function NotIn(rows: seq<Row>, answer: seq<Row>): (kept: seq<Row>)
    requires Keyed(rows)
    ensures Keyed(kept) && |kept| <= |rows|
    ensures forall r :: r in kept <==> r in rows && !HasPeriod(answer, Key(r))
  {
    if rows == [] then []
    else
      assert rows == [rows[0]] + rows[1..];
      (if HasPeriod(answer, Key(rows[0])) then [] else [rows[0]]) + NotIn(rows[1..], answer)
  }

  function Max(a: nat, b: nat): nat { if a >= b then a else b }

  function Min(a: nat, b: nat): nat { if a <= b then a else b }

  // The cached rows that survive beside the fresh ones: the newest that still fit.
  function Carried(cached: seq<Row>, answer: seq<Row>): (carried: seq<Row>)
    requires Keyed(cached)
    ensures Keyed(carried)
  {
    var kept := NewestFirst(NotIn(cached, answer));
    var room := Max(|cached|, |answer|) - |answer|;
    kept[..Min(room, |kept|)]
  }

  predicate UsableRows(b: Body) {
    b.List? && |b.rows| > 0 && forall i :: 0 <= i < |b.rows| ==> b.rows[i].Row?
  }

  function MergeHistory(cached: Body, answer: Body): HistoryMerge {
    var held := RowsOf(cached);
    if held == [] then HistoryMerge(answer, Replace, false, false)
    else if !UsableRows(answer) then HistoryMerge(cached, KeptCached, false, true)
    else if !Keyed(held) || !Keyed(answer.rows) then
      if |answer.rows| >= |held| then HistoryMerge(answer, Replace, false, false)
      else HistoryMerge(cached, KeptCached, true, false)
    else
      var carried := Carried(held, answer.rows);
      var oldestCached, oldestNew := Oldest(held), Oldest(answer.rows);
      HistoryMerge(
        List(NewestFirst(answer.rows + carried)),
        if carried != [] then Merge else Replace,
        |answer.rows| < |held| && oldestCached.Some? && oldestNew.Some? && oldestCached.value < oldestNew.value,
        false)
  }

  // ---- sorting ----

  ghost predicate Descending(rows: seq<Row>) {
    Keyed(rows) && forall i, j :: 0 <= i < j < |rows| ==> Key(rows[i]) >= Key(rows[j])
  }

  lemma {:induction false} InsertDescends(r: Row, rows: seq<Row>)
    requires PeriodKey(r).Some? && Descending(rows)
    ensures Descending(Insert(r, rows))
  {
    if rows != [] && Key(r) < Key(rows[0]) {
      InsertDescends(r, rows[1..]);
      var rest := Insert(r, rows[1..]);
      forall i | 0 <= i < |rest|
        ensures Key(rest[i]) <= Key(rows[0])
      {
        assert rest[i] in multiset(rest);
        assert rest[i] == r || rest[i] in rows[1..];
      }
    }
  }

  lemma {:induction false} NewestFirstDescends(rows: seq<Row>)
    requires Keyed(rows)
    ensures Descending(NewestFirst(rows))
  {
    if rows != [] {
      NewestFirstDescends(rows[1..]);
      InsertDescends(rows[0], NewestFirst(rows[1..]));
    }
  }

  lemma {:induction false} SortedIsFixed(rows: seq<Row>)
    requires Descending(rows)
    ensures NewestFirst(rows) == rows
  {
    if rows != [] {
      SortedIsFixed(rows[1..]);
      assert rows == [rows[0]] + rows[1..];
      assert |rows| > 1 ==> Key(rows[0]) >= Key(rows[1]);
    }
  }

  lemma SameElements(a: seq<Row>, b: seq<Row>)
    requires multiset(a) == multiset(b)
    ensures |a| == |b| && forall r :: r in a <==> r in b
  {
    assert |a| == |multiset(a)| == |multiset(b)| == |b|;
    forall r
      ensures r in a <==> r in b
    {
      assert r in a <==> r in multiset(a);
    }
  }

  // ---- one merge, on any input ----

  // How many cached rows belong to a period the fresh answer also has.
  function Overwritten(cached: seq<Row>, answer: seq<Row>): nat
    requires Keyed(cached)
  {
    |cached| - |NotIn(cached, answer)|
  }

  // A cache keyed by period is never shortened, except exactly when more cached rows than fresh
  // ones carry the fresh answer's periods -- which takes duplicate periods in the cache.
  lemma NeverShorterIff(cached: seq<Row>, answer: Body)
    requires cached != []
    ensures |RowsOf(MergeHistory(List(cached), answer).rows)| < |cached|
       <==> && UsableRows(answer) && Keyed(cached) && Keyed(answer.rows)
            && Overwritten(cached, answer.rows) > |answer.rows|
  {
    if UsableRows(answer) && Keyed(cached) && Keyed(answer.rows) {
      SameElements(NotIn(cached, answer.rows), NewestFirst(NotIn(cached, answer.rows)));
      var carried := Carried(cached, answer.rows);
      SameElements(answer.rows + carried, NewestFirst(answer.rows + carried));
    }
  }

  // The smallest such cache: two rows of one period, answered with one row of it.
  lemma DuplicatePeriodsShorten()
    ensures var r := Row(Some(20260930), "");
      |RowsOf(MergeHistory(List([r, r]), List([r])).rows)| == 1
  {
    var r := Row(Some(20260930), "");
    assert PeriodKey([r][0]) == Some(20260930);
    AllOverwritten([r, r], [r]);
    assert NewestFirst([]) == [] && Carried([r, r], [r]) == [];
    SameElements([r] + [], NewestFirst([r] + []));
  }

  lemma {:induction false} AllOverwritten(rows: seq<Row>, answer: seq<Row>)
    requires Keyed(rows) && forall i :: 0 <= i < |rows| ==> HasPeriod(answer, Key(rows[i]))
    ensures NotIn(rows, answer) == []
    decreases |rows|
  {
    if rows != [] {
      AllOverwritten(rows[1..], answer);
    }
  }

  ghost predicate DistinctPeriods(rows: seq<Row>) {
    Keyed(rows) && forall i, j :: 0 <= i < j < |rows| ==> Key(rows[i]) != Key(rows[j])
  }

  // With one row per period the condition cannot arise.
  lemma {:induction false} DistinctNeverOverflows(cached: seq<Row>, answer: seq<Row>)
    requires DistinctPeriods(cached) && Keyed(answer)
    ensures Overwritten(cached, answer) <= |answer|
    decreases |cached|
  {
    if cached != [] {
      var k := Key(cached[0]);
      if HasPeriod(answer, k) {
        var i :| 0 <= i < |answer| && PeriodKey(answer[i]) == Some(k);
        var without := answer[..i] + answer[i + 1..];
        DistinctNeverOverflows(cached[1..], without);
        NotInShrinks(cached[1..], answer, without, i);
      } else {
        DistinctNeverOverflows(cached[1..], answer);
      }
    }
  }

  // Dropping one fresh row keeps back only rows of its period.
  lemma {:induction false} NotInShrinks(rows: seq<Row>, answer: seq<Row>, without: seq<Row>, i: nat)
    requires Keyed(rows) && Keyed(answer) && i < |answer| && without == answer[..i] + answer[i + 1..]
    requires forall j :: 0 <= j < |rows| ==> Key(rows[j]) != Key(answer[i])
    ensures NotIn(rows, without) == NotIn(rows, answer)
    decreases |rows|
  {
    if rows != [] {
      NotInShrinks(rows[1..], answer, without, i);
      SamePeriods(answer, without, i, Key(rows[0]));
    }
  }

  lemma SamePeriods(answer: seq<Row>, without: seq<Row>, i: nat, k: int)
    requires Keyed(answer) && i < |answer| && without == answer[..i] + answer[i + 1..] && k != Key(answer[i])
    ensures HasPeriod(without, k) <==> HasPeriod(answer, k)
  {
    if HasPeriod(answer, k) {
      var j :| 0 <= j < |answer| && PeriodKey(answer[j]) == Some(k);
      assert PeriodKey(without[if j < i then j else j - 1]) == Some(k);
    }
    if HasPeriod(without, k) {
      var j :| 0 <= j < |without| && PeriodKey(without[j]) == Some(k);
      assert PeriodKey(answer[if j < i then j else j + 1]) == Some(k);
    }
  }

  ghost predicate InOrder(b: Body) {
    UsableRows(b) && Keyed(b.rows) ==> Descending(b.rows)
  }

  // The cases in which an answer is stored exactly as it came.
  predicate TakenWhole(held: seq<Row>, answer: seq<Row>) {
    held == [] || (!Keyed(held) && |answer| >= |held|)
  }

  // Storing the same answer twice changes nothing, except that an answer stored as it came and
  // out of order is put in order by the second write.
  lemma IdempotentIff(cached: Body, answer: Body)
    ensures var once := MergeHistory(cached, answer).rows;
      MergeHistory(once, answer).rows == once <==> InOrder(answer) || !TakenWhole(RowsOf(cached), RowsOf(answer))
  {
    if !UsableRows(answer) || !Keyed(answer.rows) {
    } else if TakenWhole(RowsOf(cached), answer.rows) {
      WholeAnswerAgain(answer);
    } else if Keyed(RowsOf(cached)) {
      MergedAgain(cached, answer);
    }
  }

  lemma WholeAnswerAgain(answer: Body)
    requires UsableRows(answer) && Keyed(answer.rows)
    ensures MergeHistory(answer, answer).rows == answer <==> Descending(answer.rows)
  {
    FirstAnswerAgain(answer.rows);
  }

  lemma MergedAgain(cached: Body, answer: Body)
    requires UsableRows(answer) && Keyed(answer.rows) && RowsOf(cached) != [] && Keyed(RowsOf(cached))
    ensures MergeHistory(MergeHistory(cached, answer).rows, answer).rows == MergeHistory(cached, answer).rows
  {
    MergeAgain(RowsOf(cached), answer.rows);
    NotEmptied(answer.rows + Carried(RowsOf(cached), answer.rows));
    KeyedMerge(cached, answer);
    KeyedMerge(MergeHistory(cached, answer).rows, answer);
  }

  lemma NotEmptied(rows: seq<Row>)
    requires Keyed(rows) && rows != []
    ensures NewestFirst(rows) != []
  {
    SameElements(NewestFirst(rows), rows);
  }

  lemma KeyedMerge(cached: Body, answer: Body)
    requires UsableRows(answer) && Keyed(answer.rows) && RowsOf(cached) != [] && Keyed(RowsOf(cached))
    ensures MergeHistory(cached, answer).rows == List(NewestFirst(answer.rows + Carried(RowsOf(cached), answer.rows)))
  {
  }

  lemma FirstAnswerAgain(rows: seq<Row>)
    requires Keyed(rows)
    ensures NewestFirst(rows + Carried(rows, rows)) == rows <==> Descending(rows)
  {
    assert rows + Carried(rows, rows) == rows;
    NewestFirstDescends(rows);
    if Descending(rows) {
      SortedIsFixed(rows);
    }
  }

  lemma MergeAgain(held: seq<Row>, answer: seq<Row>)
    requires Keyed(held) && Keyed(answer)
    ensures var once := NewestFirst(answer + Carried(held, answer));
      NewestFirst(answer + Carried(once, answer)) == once
  {
    CarriedFacts(held, answer);
    CarriedAgain(answer, Carried(held, answer));
  }

  // What is carried is in order and shares no period with the answer.
  lemma CarriedFacts(held: seq<Row>, answer: seq<Row>)
    requires Keyed(held) && Keyed(answer)
    ensures var carried := Carried(held, answer);
      && Descending(carried)
      && forall i :: 0 <= i < |carried| ==> carried[i] in held && !HasPeriod(answer, Key(carried[i]))
  {
    var kept := NewestFirst(NotIn(held, answer));
    NewestFirstDescends(NotIn(held, answer));
    SameElements(NotIn(held, answer), kept);
    forall i | 0 <= i < |Carried(held, answer)|
      ensures kept[i] in held && !HasPeriod(answer, Key(kept[i]))
    {
      assert kept[i] in kept;
    }
  }

  lemma CarriedAgain(answer: seq<Row>, carried: seq<Row>)
    requires Keyed(answer) && Descending(carried)
    requires forall i :: 0 <= i < |carried| ==> !HasPeriod(answer, Key(carried[i]))
    ensures Carried(NewestFirst(answer + carried), answer) == carried
  {
    OwnPeriods(answer);
    StableExtraction(answer, carried, answer);
    var once := NewestFirst(answer + carried);
    SortedIsFixed(carried);
    SameElements(answer + carried, once);
    assert NewestFirst(NotIn(once, answer)) == carried && |once| == |answer| + |carried|;
  }

  lemma OwnPeriods(answer: seq<Row>)
    requires Keyed(answer)
    ensures forall i :: 0 <= i < |answer| ==> HasPeriod(answer, Key(answer[i]))
  {
    forall i | 0 <= i < |answer|
      ensures HasPeriod(answer, Key(answer[i]))
    {
      assert PeriodKey(answer[i]) == Some(Key(answer[i]));
    }
  }

  // Filtering the fresh periods back out of the sorted union gives the carried rows in order.
  lemma {:induction false} StableExtraction(front: seq<Row>, carried: seq<Row>, answer: seq<Row>)
    requires Keyed(front) && Keyed(answer) && Descending(carried)
    requires forall i :: 0 <= i < |front| ==> HasPeriod(answer, Key(front[i]))
    requires forall i :: 0 <= i < |carried| ==> !HasPeriod(answer, Key(carried[i]))
    ensures NotIn(NewestFirst(front + carried), answer) == carried
    decreases |front|
  {
    if front == [] {
      SortedIsFixed(carried);
      assert front + carried == carried;
      AllKept(carried, answer);
    } else {
      StableExtraction(front[1..], carried, answer);
      InsertFilteredOut(front[0], NewestFirst(front[1..] + carried), answer);
      NewestFirstOfCons(front, carried);
    }
  }

  lemma NewestFirstOfCons(front: seq<Row>, rest: seq<Row>)
    requires front != [] && Keyed(front) && Keyed(rest)
    ensures NewestFirst(front + rest) == Insert(front[0], NewestFirst(front[1..] + rest))
  {
    TailOfSum(front, rest);
    NewestFirstUnfolds(front + rest);
  }

  lemma TailOfSum<T>(a: seq<T>, b: seq<T>)
    requires a != []
    ensures (a + b)[0] == a[0] && (a + b)[1..] == a[1..] + b
  {
  }

  lemma NewestFirstUnfolds(rows: seq<Row>)
    requires Keyed(rows) && rows != []
    ensures NewestFirst(rows) == Insert(rows[0], NewestFirst(rows[1..]))
  {
  }

  lemma {:induction false} AllKept(rows: seq<Row>, answer: seq<Row>)
    requires Keyed(rows) && forall i :: 0 <= i < |rows| ==> !HasPeriod(answer, Key(rows[i]))
    ensures NotIn(rows, answer) == rows
    decreases |rows|
  {
    if rows != [] {
      AllKept(rows[1..], answer);
    }
  }

  lemma {:induction false} InsertFilteredOut(r: Row, rows: seq<Row>, answer: seq<Row>)
    requires PeriodKey(r).Some? && Keyed(rows) && HasPeriod(answer, Key(r))
    ensures NotIn(Insert(r, rows), answer) == NotIn(rows, answer)
    decreases |rows|
  {
    if rows != [] && Key(r) < Key(rows[0]) {
      InsertFilteredOut(r, rows[1..], answer);
      var out := Insert(r, rows);
      assert out[0] == rows[0] && out[1..] == Insert(r, rows[1..]);
    } else {
      assert ([r] + rows)[1..] == rows;
    }
  }

  // ---- what one merge stores and reports ----

  // An answer to take seriously: a list with something in it, and only objects.
  ghost predicate Serious(b: Body) {
    b.List? && b.rows != [] && NotARow !in b.rows
  }

  // Some row on either side has no date.
  ghost predicate Undated(held: seq<Row>, answer: seq<Row>) {
    exists r :: (r in held || r in answer) && (r.NotARow? || r.period.None?)
  }

  lemma UndatedIff(held: seq<Row>, answer: seq<Row>)
    ensures Undated(held, answer) <==> !Keyed(held) || !Keyed(answer)
  {
    if !Keyed(held) {
      var i :| 0 <= i < |held| && PeriodKey(held[i]).None?;
      assert held[i] in held;
    } else if !Keyed(answer) {
      var i :| 0 <= i < |answer| && PeriodKey(answer[i]).None?;
      assert answer[i] in answer;
    }
  }

  // The oldest held row is older than everything answered.
  ghost predicate ReachesFurther(held: seq<Row>, answer: seq<Row>)
    requires Keyed(held) && Keyed(answer)
  {
    exists r :: r in held && forall q :: q in answer ==> r.period.value < q.period.value
  }

  lemma {:induction false} OldestIs(rows: seq<Row>)
    requires Keyed(rows) && rows != []
    ensures Oldest(rows).Some?
    ensures exists i :: 0 <= i < |rows| && Key(rows[i]) == Oldest(rows).value
    ensures forall i :: 0 <= i < |rows| ==> Oldest(rows).value <= Key(rows[i])
    decreases |rows|
  {
    if |rows| > 1 {
      OldestIs(rows[1..]);
      var i :| 0 <= i < |rows[1..]| && Key(rows[1..][i]) == Oldest(rows[1..]).value;
      assert rows[1..][i] == rows[i + 1];
      assert forall j :: 0 < j < |rows| ==> rows[1..][j - 1] == rows[j];
    }
  }

  lemma FurtherIff(held: seq<Row>, answer: seq<Row>)
    requires Keyed(held) && Keyed(answer) && held != [] && answer != []
    ensures Oldest(held).Some? && Oldest(answer).Some?
    ensures Oldest(held).value < Oldest(answer).value <==> ReachesFurther(held, answer)
  {
    OldestIs(held);
    OldestIs(answer);
    var i :| 0 <= i < |held| && Key(held[i]) == Oldest(held).value;
    var j :| 0 <= j < |answer| && Key(answer[j]) == Oldest(answer).value;
    assert held[i] in held && answer[j] in answer;
    if Oldest(held).value < Oldest(answer).value {
      assert forall q :: q in answer ==> held[i].period.value < q.period.value;
    }
  }

  // What is stored without comparing periods, and what is reported: nothing held, the answer is
  // taken as it came; no serious answer, what is held stays; a row without a date, the longer list
  // wins, the answer on a tie.
  lemma TakenOrKept(cached: Body, answer: Body)
    ensures var held, merge := RowsOf(cached), MergeHistory(cached, answer);
      && (held == [] ==> merge == HistoryMerge(answer, Replace, false, false))
      && (held != [] && !Serious(answer) ==> merge == HistoryMerge(cached, KeptCached, false, true))
      && (held != [] && Serious(answer) && Undated(held, answer.rows) ==>
            merge == if |answer.rows| < |held| then HistoryMerge(cached, KeptCached, true, false)
                     else HistoryMerge(answer, Replace, false, false))
  {
    SeriousIff(answer);
    if answer.List? {
      UndatedIff(RowsOf(cached), answer.rows);
    }
  }

  lemma SeriousIff(b: Body)
    ensures UsableRows(b) <==> Serious(b)
  {
    if UsableRows(b) {
      assert NotARow !in b.rows;
    }
  }

  // The rows stored beside the answer's.
  ghost function Beside(stored: seq<Row>, answer: seq<Row>): multiset<Row> {
    multiset(stored) - multiset(answer)
  }

  // A held row of a period the answer lacks, and not stored either.
  ghost predicate LeftOut(q: Row, held: seq<Row>, answer: seq<Row>, stored: seq<Row>)
    requires Keyed(held)
  {
    q in held && !HasPeriod(answer, q.period.value) && q !in stored
  }

  // With a date on every row the whole answer is stored, newest first, and beside it only rows of
  // periods it lacks; as many of those as fit without getting longer than either list, and none of
  // those left out is newer than any of them.
  lemma MergedRows(held: seq<Row>, answer: seq<Row>)
    requires held != [] && answer != [] && Keyed(held) && Keyed(answer)
    ensures var stored := RowsOf(MergeHistory(List(held), List(answer)).rows);
      && Descending(stored) && multiset(answer) <= multiset(stored)
      && (|stored| == |answer| || |stored| <= |held|)
      && (forall r :: r in Beside(stored, answer) ==> r in held && !HasPeriod(answer, r.period.value))
      && (forall r, q :: r in Beside(stored, answer) && LeftOut(q, held, answer, stored) ==>
            q.period.value <= r.period.value)
      && (|stored| < |held| ==> forall q :: !LeftOut(q, held, answer, stored))
  {
    var carried := Carried(held, answer);
    var all := answer + carried;
    SeriousIff(List(answer));
    KeyedMerge(List(held), List(answer));
    NewestFirstDescends(all);
    SameElements(all, NewestFirst(all));
    CarriedFacts(held, answer);
    assert multiset(NewestFirst(all)) - multiset(answer) == multiset(carried);
    forall r | r in Beside(NewestFirst(all), answer)
      ensures r in carried
    {
    }
    LeftOutAreOlder(held, answer);
  }

  lemma NotInFront(rows: seq<Row>, front: seq<Row>, j: nat)
    requires |front| <= |rows| && front == rows[..|front|] && j < |rows| && rows[j] !in front
    ensures |front| <= j
  {
    assert forall k :: 0 <= k < |front| ==> front[k] == rows[k] && front[k] in front;
  }

  lemma LeftOutAreOlder(held: seq<Row>, answer: seq<Row>)
    requires Keyed(held) && Keyed(answer)
    ensures var carried := Carried(held, answer);
      && (forall r, q :: r in carried && q in held && q !in carried && !HasPeriod(answer, Key(q)) ==> Key(q) <= Key(r))
      && (|answer| + |carried| < |held| ==> forall q :: q in held && !HasPeriod(answer, Key(q)) ==> q in carried)
  {
    var uncovered := NotIn(held, answer);
    var kept, carried := NewestFirst(uncovered), Carried(held, answer);
    NewestFirstDescends(uncovered);
    SameElements(uncovered, kept);
    forall r, q | r in carried && q in held && q !in carried && !HasPeriod(answer, Key(q))
      ensures Key(q) <= Key(r)
    {
      assert q in kept;
      var i :| 0 <= i < |carried| && carried[i] == r;
      var j :| 0 <= j < |kept| && kept[j] == q;
      NotInFront(kept, carried, j);
    }
  }

  // And it is reported as a merge exactly when something is stored beside the answer, and as clamped
  // exactly when the answer is shorter than what was held and starts later.
  lemma MergedReport(held: seq<Row>, answer: seq<Row>)
    requires held != [] && answer != [] && Keyed(held) && Keyed(answer)
    ensures var merge := MergeHistory(List(held), List(answer));
      && (merge.action == if |RowsOf(merge.rows)| > |answer| then Merge else Replace)
      && (merge.clamped <==> |answer| < |held| && ReachesFurther(held, answer))
      && !merge.emptyKept
  {
    var all := answer + Carried(held, answer);
    SeriousIff(List(answer));
    KeyedMerge(List(held), List(answer));
    SameElements(all, NewestFirst(all));
    FurtherIff(held, answer);
  }
}
