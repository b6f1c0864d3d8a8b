// What a whole run of answers leaves in a statement cache that starts empty: exactly the
// newest M periods ever returned, M being the longest answer so far.
module HistoryRuns {
  import opened Options
  import opened HistoryMerge

  // One fetch: the periods the provider has by then, and the body it answers with.
  datatype Fetch = Fetch(timeline: set<int>, body: Body)

  ghost predicate StrictlyDescending(rows: seq<Row>) {
    Keyed(rows) && forall i, j :: 0 <= i < j < |rows| ==> Key(rows[i]) > Key(rows[j])
  }

  ghost predicate OlderThanAll(k: int, rows: seq<Row>)
    requires Keyed(rows)
  {
    forall i :: 0 <= i < |rows| ==> k < Key(rows[i])
  }

  // A newest-first prefix of the timeline: full when it is all of it, clamped when it is not.
  ghost predicate IsPrefixOf(rows: seq<Row>, timeline: set<int>) {
    && StrictlyDescending(rows)
    && (forall i :: 0 <= i < |rows| ==> Key(rows[i]) in timeline)
    && forall k :: k in timeline ==> HasPeriod(rows, k) || OlderThanAll(k, rows)
  }

  // A usable answer, or an empty list, an error object or no body at all.
  ghost predicate Proper(f: Fetch) {
    RowsOf(f.body) == [] || (UsableRows(f.body) && IsPrefixOf(f.body.rows, f.timeline))
  }

  ghost predicate ProperRun(fs: seq<Fetch>) {
    && (forall i :: 0 <= i < |fs| ==> Proper(fs[i]))
    && forall i, j :: 0 <= i <= j < |fs| ==> fs[i].timeline <= fs[j].timeline
  }

  // What the code stores.
  function Store(fs: seq<Fetch>): Body
    decreases |fs|
  {
    if fs == [] then Missing
    else MergeHistory(Store(fs[..|fs| - 1]), fs[|fs| - 1].body).rows
  }

  // The whole-run description, without merging: the last row returned for each period, and the
  // length of the longest answer.
  function ByPeriod(rows: seq<Row>): (m: map<int, Row>)
    requires Keyed(rows)
    ensures forall k :: k in m <==> HasPeriod(rows, k)
  {
    if rows == [] then map[]
    else
      var m := ByPeriod(rows[1..])[Key(rows[0]) := rows[0]];
      assert forall k :: HasPeriod(rows[1..], k) ==> HasPeriod(rows, k) by { TailPeriods(rows); }
      assert forall k :: HasPeriod(rows, k) ==> k == Key(rows[0]) || HasPeriod(rows[1..], k) by { TailPeriods(rows); }
      assert PeriodKey(rows[0]) == Some(Key(rows[0]));
      m
  }

  lemma TailPeriods(rows: seq<Row>)
    requires Keyed(rows) && rows != []
    ensures forall k :: HasPeriod(rows, k) <==> k == Key(rows[0]) || HasPeriod(rows[1..], k)
  {
    assert PeriodKey(rows[0]) == Some(Key(rows[0]));
    forall k | HasPeriod(rows[1..], k)
      ensures HasPeriod(rows, k)
    {
      var i :| 0 <= i < |rows[1..]| && PeriodKey(rows[1..][i]) == Some(k);
      assert PeriodKey(rows[i + 1]) == Some(k);
    }
    forall k | HasPeriod(rows, k) && k != Key(rows[0])
      ensures HasPeriod(rows[1..], k)
    {
      var i :| 0 <= i < |rows| && PeriodKey(rows[i]) == Some(k);
      assert PeriodKey(rows[1..][i - 1]) == Some(k);
    }
  }

  lemma {:induction false} ByPeriodFindsRow(rows: seq<Row>, i: nat)
    requires StrictlyDescending(rows) && i < |rows|
    ensures HasPeriod(rows, Key(rows[i])) && ByPeriod(rows)[Key(rows[i])] == rows[i]
    decreases |rows|
  {
    assert PeriodKey(rows[i]) == Some(Key(rows[i]));
    if i > 0 {
      ByPeriodFindsRow(rows[1..], i - 1);
    }
  }

  ghost function LastReturned(fs: seq<Fetch>): map<int, Row>
    requires ProperRun(fs)
    decreases |fs|
  {
    if fs == [] then map[]
    else LastReturned(fs[..|fs| - 1]) + ByPeriod(RowsOf(fs[|fs| - 1].body))
  }

  function Longest(fs: seq<Fetch>): nat
    decreases |fs|
  {
    if fs == [] then 0 else Max(Longest(fs[..|fs| - 1]), |RowsOf(fs[|fs| - 1].body)|)
  }

  // rows lists the m newest periods of `returned`, newest first, each with its row.
  ghost predicate IsNewest(rows: seq<Row>, returned: map<int, Row>, m: nat) {
    && StrictlyDescending(rows)
    && |rows| == m
    && (forall i :: 0 <= i < |rows| ==> Key(rows[i]) in returned && returned[Key(rows[i])] == rows[i])
    && (forall k :: k in returned ==> HasPeriod(rows, k) || OlderThanAll(k, rows))
  }

  // That description leaves no choice: at most one list of rows meets it.
  lemma NewestIsUnique(a: seq<Row>, b: seq<Row>, returned: map<int, Row>, m: nat)
    requires IsNewest(a, returned, m) && IsNewest(b, returned, m)
    ensures a == b
  {
    if a != b {
      FirstDifference(a, b);
      var i :| 0 <= i < m && a[i] != b[i] && a[..i] == b[..i];
      NextAtLeast(a, b, returned, m, i);
      NextAtLeast(b, a, returned, m, i);
    }
  }

  lemma {:induction false} FirstDifference(a: seq<Row>, b: seq<Row>)
    requires |a| == |b| && a != b
    ensures exists i :: 0 <= i < |a| && a[i] != b[i] && a[..i] == b[..i]
    decreases |a|
  {
    var n := |a| - 1;
    if a[..n] == b[..n] {
      assert a == a[..n] + [a[n]] && b == b[..n] + [b[n]];
    } else {
      FirstDifference(a[..n], b[..n]);
      var i :| 0 <= i < n && a[..n][i] != b[..n][i] && a[..n][..i] == b[..n][..i];
      assert a[..n][..i] == a[..i] && b[..n][..i] == b[..i];
    }
  }

  lemma NextAtLeast(a: seq<Row>, b: seq<Row>, returned: map<int, Row>, m: nat, i: nat)
    requires IsNewest(a, returned, m) && IsNewest(b, returned, m)
    requires i < m && a[..i] == b[..i]
    ensures Key(b[i]) >= Key(a[i])
  {
    var k := Key(a[i]);
    forall j | 0 <= j < i
      ensures Key(b[j]) > k
    {
      assert a[j] == a[..i][j] == b[..i][j] == b[j];
    }
    if HasPeriod(b, k) {
      var j :| 0 <= j < |b| && PeriodKey(b[j]) == Some(k);
    } else {
      assert OlderThanAll(k, b);
    }
  }

  // ---- one answer ----

  lemma {:induction false} NotInOrdered(held: seq<Row>, answer: seq<Row>)
    requires StrictlyDescending(held)
    ensures StrictlyDescending(NotIn(held, answer))
    decreases |held|
  {
    if held != [] {
      NotInOrdered(held[1..], answer);
      var rest := NotIn(held[1..], answer);
      forall r | r in rest
        ensures r in held[1..]
      {
      }
      NewerInFront(held, rest);
    }
  }

  lemma NewerInFront(held: seq<Row>, rest: seq<Row>)
    requires StrictlyDescending(held) && held != [] && StrictlyDescending(rest)
    requires forall r :: r in rest ==> r in held[1..]
    ensures StrictlyDescending([held[0]] + rest)
  {
    forall i | 0 <= i < |rest|
      ensures Key(rest[i]) < Key(held[0])
    {
      assert rest[i] in held[1..];
    }
  }

  // Every held period the answer lacks is older than the whole answer.
  ghost predicate Dominates(answer: seq<Row>, held: seq<Row>)
    requires Keyed(answer) && Keyed(held)
  {
    forall i :: 0 <= i < |held| ==> HasPeriod(answer, Key(held[i])) || OlderThanAll(Key(held[i]), answer)
  }

  function Room(held: seq<Row>, answer: seq<Row>): nat {
    Max(|held|, |answer|) - |answer|
  }

  lemma CarriedIsNewestKept(held: seq<Row>, answer: seq<Row>)
    requires StrictlyDescending(held) && Keyed(answer)
    ensures Room(held, answer) <= |NotIn(held, answer)|
    ensures Carried(held, answer) == NotIn(held, answer)[..Room(held, answer)]
    ensures StrictlyDescending(Carried(held, answer))
  {
    NotInOrdered(held, answer);
    SortedIsFixed(NotIn(held, answer));
    DistinctNeverOverflows(held, answer);
  }

  // Under a dominating answer nothing has to be sorted: the carried rows follow the fresh ones.
  lemma CarriedFollow(held: seq<Row>, answer: seq<Row>)
    requires StrictlyDescending(held) && StrictlyDescending(answer) && Dominates(answer, held)
    ensures StrictlyDescending(answer + Carried(held, answer))
    ensures NewestFirst(answer + Carried(held, answer)) == answer + Carried(held, answer)
  {
    CarriedIsNewestKept(held, answer);
    var carried := Carried(held, answer);
    forall i | 0 <= i < |carried|
      ensures OlderThanAll(Key(carried[i]), answer)
    {
      assert carried[i] == NotIn(held, answer)[i];
      KeptAt(held, answer, i);
    }
    Appended(answer, carried);
    SortedIsFixed(answer + carried);
  }

  lemma KeptAt(held: seq<Row>, answer: seq<Row>, i: nat)
    requires Keyed(held) && i < |NotIn(held, answer)|
    ensures var r := NotIn(held, answer)[i];
      !HasPeriod(answer, Key(r)) && exists j :: 0 <= j < |held| && held[j] == r
  {
    assert NotIn(held, answer)[i] in NotIn(held, answer);
  }

  lemma Appended(a: seq<Row>, b: seq<Row>)
    requires StrictlyDescending(a) && StrictlyDescending(b)
    requires forall i :: 0 <= i < |b| ==> OlderThanAll(Key(b[i]), a)
    ensures StrictlyDescending(a + b)
  {
  }

  lemma AnswerKeepsNewest(held: seq<Row>, returned: map<int, Row>, m: nat, answer: seq<Row>)
    requires IsNewest(held, returned, m)
    requires StrictlyDescending(answer)
    requires forall k :: k in returned ==> HasPeriod(answer, k) || OlderThanAll(k, answer)
    ensures NewestFirst(answer + Carried(held, answer)) == answer + Carried(held, answer)
    ensures IsNewest(answer + Carried(held, answer), returned + ByPeriod(answer), Max(m, |answer|))
  {
    CarriedFollow(held, answer);
    CarriedIsNewestKept(held, answer);
    RowsAreReturned(held, returned, m, answer);
    OthersAreOlder(held, returned, m, answer);
  }

  lemma RowsAreReturned(held: seq<Row>, returned: map<int, Row>, m: nat, answer: seq<Row>)
    requires IsNewest(held, returned, m) && StrictlyDescending(answer)
    ensures var all, returned' := answer + Carried(held, answer), returned + ByPeriod(answer);
      forall i :: 0 <= i < |all| ==>
        PeriodKey(all[i]).Some? && Key(all[i]) in returned' && returned'[Key(all[i])] == all[i]
  {
    CarriedIsNewestKept(held, answer);
    var all, returned' := answer + Carried(held, answer), returned + ByPeriod(answer);
    forall i | 0 <= i < |all|
      ensures PeriodKey(all[i]).Some? && Key(all[i]) in returned' && returned'[Key(all[i])] == all[i]
    {
      if i < |answer| {
        ByPeriodFindsRow(answer, i);
      } else {
        KeptAt(held, answer, i - |answer|);
      }
    }
  }

  lemma OthersAreOlder(held: seq<Row>, returned: map<int, Row>, m: nat, answer: seq<Row>)
    requires IsNewest(held, returned, m) && Keyed(answer)
    requires forall k :: k in returned ==> HasPeriod(answer, k) || OlderThanAll(k, answer)
    ensures forall k :: k in returned + ByPeriod(answer) ==>
      HasPeriod(answer + Carried(held, answer), k) || OlderThanAll(k, answer + Carried(held, answer))
  {
    forall k | k in returned + ByPeriod(answer)
      ensures HasPeriod(answer + Carried(held, answer), k) || OlderThanAll(k, answer + Carried(held, answer))
    {
      PeriodOfSum(answer, Carried(held, answer), k);
      if !HasPeriod(answer, k) {
        UncarriedAreOlder(held, answer, k);
      }
    }
  }

  lemma PeriodOfSum(a: seq<Row>, b: seq<Row>, k: int)
    requires Keyed(a) && Keyed(b)
    ensures HasPeriod(a, k) || HasPeriod(b, k) ==> HasPeriod(a + b, k)
    ensures OlderThanAll(k, a) && OlderThanAll(k, b) ==> OlderThanAll(k, a + b)
  {
    if HasPeriod(a, k) {
      var i :| 0 <= i < |a| && PeriodKey(a[i]) == Some(k);
      assert PeriodKey((a + b)[i]) == Some(k);
    } else if HasPeriod(b, k) {
      var i :| 0 <= i < |b| && PeriodKey(b[i]) == Some(k);
      assert PeriodKey((a + b)[|a| + i]) == Some(k);
    }
  }

  lemma UncarriedAreOlder(held: seq<Row>, answer: seq<Row>, k: int)
    requires StrictlyDescending(held) && Keyed(answer) && !HasPeriod(answer, k)
    requires HasPeriod(held, k) || OlderThanAll(k, held)
    ensures Keyed(Carried(held, answer))
    ensures HasPeriod(Carried(held, answer), k) || OlderThanAll(k, Carried(held, answer))
  {
    CarriedIsNewestKept(held, answer);
    var kept, room := NotIn(held, answer), Room(held, answer);
    if HasPeriod(held, k) {
      var i :| 0 <= i < |held| && PeriodKey(held[i]) == Some(k);
      assert held[i] in kept;
      var j :| 0 <= j < |kept| && kept[j] == held[i];
      KeptBefore(held, answer, j, room);
    } else {
      forall i | 0 <= i < room
        ensures k < Key(kept[i])
      {
        KeptAt(held, answer, i);
      }
    }
  }

  lemma KeptBefore(held: seq<Row>, answer: seq<Row>, j: nat, room: nat)
    requires StrictlyDescending(held) && j < |NotIn(held, answer)| && room <= |NotIn(held, answer)|
    ensures var kept := NotIn(held, answer); var k := Key(kept[j]);
      HasPeriod(kept[..room], k) || OlderThanAll(k, kept[..room])
  {
    NotInOrdered(held, answer);
    var kept := NotIn(held, answer);
    if j < room {
      assert PeriodKey(kept[..room][j]) == Some(Key(kept[j]));
    }
  }

  lemma {:induction false} OldestIsLast(rows: seq<Row>)
    requires StrictlyDescending(rows) && rows != []
    ensures Oldest(rows) == Some(Key(rows[|rows| - 1]))
    decreases |rows|
  {
    if |rows| > 1 {
      OldestIsLast(rows[1..]);
    }
  }

  // The report agrees with what happened: an answer is called clamped exactly when the store
  // keeps more periods than the answer had, and that is exactly when the action is a merge.
  lemma ReportMatchesStore(held: seq<Row>, answer: seq<Row>)
    requires StrictlyDescending(held) && StrictlyDescending(answer) && held != [] && answer != []
    requires Dominates(answer, held)
    ensures var report := MergeHistory(List(held), List(answer));
      && !report.emptyKept
      && (report.clamped <==> |RowsOf(report.rows)| > |answer|)
      && (report.action == (if report.clamped then Merge else Replace))
  {
    CarriedIsNewestKept(held, answer);
    CarriedFollow(held, answer);
    MergeOfProper(List(held), List(answer));
    OldestsCompare(held, answer);
  }

  // A longer cache reaches further back than the answer.
  lemma OldestsCompare(held: seq<Row>, answer: seq<Row>)
    requires StrictlyDescending(held) && StrictlyDescending(answer) && held != [] && answer != []
    requires Dominates(answer, held)
    ensures Oldest(held).Some? && Oldest(answer).Some?
    ensures |answer| < |held| ==> Oldest(held).value < Oldest(answer).value
  {
    OldestIsLast(held);
    OldestIsLast(answer);
    if |answer| < |held| {
      SomeHeldIsOlder(held, answer);
      var j :| 0 <= j < |held| && OlderThanAll(Key(held[j]), answer);
      LastIsSmallest(held, j);
    }
  }

  lemma LastIsSmallest(rows: seq<Row>, j: nat)
    requires StrictlyDescending(rows) && j < |rows|
    ensures Key(rows[|rows| - 1]) <= Key(rows[j])
  {
  }

  lemma SomeHeldIsOlder(held: seq<Row>, answer: seq<Row>)
    requires StrictlyDescending(held) && Keyed(answer) && Dominates(answer, held) && |answer| < |held|
    ensures exists j :: 0 <= j < |held| && OlderThanAll(Key(held[j]), answer)
  {
    CarriedIsNewestKept(held, answer);
    KeptAt(held, answer, 0);
    var r := NotIn(held, answer)[0];
    var j :| 0 <= j < |held| && held[j] == r;
    assert !HasPeriod(answer, Key(held[j]));
  }

  // ---- whole runs ----

  lemma {:induction false} ReturnedWithinTimeline(fs: seq<Fetch>)
    requires ProperRun(fs)
    ensures forall k :: k in LastReturned(fs) ==> |fs| > 0 && k in fs[|fs| - 1].timeline
    ensures Longest(fs) == 0 ==> LastReturned(fs) == map[]
    decreases |fs|
  {
    if fs != [] {
      ReturnedWithinTimeline(fs[..|fs| - 1]);
    }
  }

  // One proper answer, to a store that holds the newest m of what was returned.
  lemma StoreStep(cached: Body, returned: map<int, Row>, m: nat, f: Fetch)
    requires IsNewest(RowsOf(cached), returned, m) && Proper(f) && forall k :: k in returned ==> k in f.timeline
    ensures IsNewest(RowsOf(MergeHistory(cached, f.body).rows), returned + ByPeriod(RowsOf(f.body)),
                     Max(m, |RowsOf(f.body)|))
  {
    if RowsOf(f.body) == [] {
      assert returned + map[] == returned;
    } else {
      AnswerKeepsNewest(RowsOf(cached), returned, m, f.body.rows);
      MergeOfProper(cached, f.body);
    }
  }

  // After any run of full, clamped, empty and error answers, the store holds exactly the newest
  // M periods ever returned, newest first, each with the row of the last answer containing it.
  lemma {:induction false} StoreIsNewest(fs: seq<Fetch>)
    requires ProperRun(fs)
    ensures IsNewest(RowsOf(Store(fs)), LastReturned(fs), Longest(fs))
    decreases |fs|
  {
    if fs != [] {
      var n := |fs| - 1;
      StoreIsNewest(fs[..n]);
      ReturnedWithinTimeline(fs[..n]);
      assert n > 0 ==> fs[..n][n - 1].timeline <= fs[n].timeline;
      StoreStep(Store(fs[..n]), LastReturned(fs[..n]), Longest(fs[..n]), fs[n]);
    }
  }

  lemma MergeOfProper(cached: Body, answer: Body)
    requires Keyed(RowsOf(cached)) && UsableRows(answer) && Keyed(answer.rows)
    requires var all := answer.rows + Carried(RowsOf(cached), answer.rows); NewestFirst(all) == all
    ensures MergeHistory(cached, answer).rows == List(answer.rows + Carried(RowsOf(cached), answer.rows))
  {
    if RowsOf(cached) == [] {
      assert answer.rows + [] == answer.rows;
    }
  }

  // So the store never gets shorter, whatever the next answer is.
  lemma StoreNeverShrinks(fs: seq<Fetch>, f: Fetch)
    requires ProperRun(fs + [f])
    ensures |RowsOf(Store(fs + [f]))| == Max(|RowsOf(Store(fs))|, |RowsOf(f.body)|)
  {
    var all := fs + [f];
    assert all[..|fs|] == fs;
    assert forall i :: 0 <= i < |fs| ==> fs[i] == all[i];
    StoreIsNewest(fs);
    StoreIsNewest(all);
  }
}
