/** The `stats` page: per worker, how many assignments they have in the
    schedule (`összes`), how many of them are front-row seating (`beülős`),
    how many were the show they asked to watch (`nézős`), and whether their
    `ÉK` column says `igen`. */
module Stats {
  import opened Cells
  import opened Results
  import opened Records
  import RoleRules

  datatype WorkerStats = WorkerStats(total: nat, seating: nat, watched: nat, ek: bool)

  /** `stats[d["név"]]` on a name that is not on the roster raises KeyError. */
  datatype StatsError = KeyError(name: string)

  /** The row the first loop of `stats` gives a worker. */
  function FreshStats(w: Worker): WorkerStats
  {
    WorkerStats(0, 0, 0, w.ek == Text("igen"))
  }

  /** The first loop of `stats`: one row per roster line, a later line with
      the same name replacing an earlier one. */
  function InitialStats(ws: seq<Worker>): map<string, WorkerStats>
  {
    if ws == [] then map[]
    else InitialStats(ws[..|ws| - 1])[ws[|ws| - 1].name := FreshStats(ws[|ws| - 1])]
  }

  /** The roster line at `i` is the last one with its name. */
  predicate LastWithName(ws: seq<Worker>, i: int)
  {
    0 <= i < |ws| && forall j :: i < j < |ws| ==> ws[j].name != ws[i].name
  }

  /** Every roster name gets a row, and no other name does. */
  lemma {:induction false} InitialStatsKeys(ws: seq<Worker>)
    ensures forall x :: x in InitialStats(ws) <==> x in Names(ws)
  {
    if ws != [] {
      var n := |ws| - 1;
      InitialStatsKeys(ws[..n]);
      assert Names(ws) == Names(ws[..n]) + [ws[n].name];
    }
  }

  /** Every row starts with zero counts. */
  lemma {:induction false} InitialStatsZero(ws: seq<Worker>)
    ensures forall k :: k in InitialStats(ws) ==>
      InitialStats(ws)[k].total == 0 && InitialStats(ws)[k].seating == 0 && InitialStats(ws)[k].watched == 0
  {
    if ws != [] {
      InitialStatsZero(ws[..|ws| - 1]);
    }
  }

  /** The `ÉK` flag of a row is that of the last roster line with the name. */
  lemma {:induction false} InitialStatsEk(ws: seq<Worker>, i: int)
    requires LastWithName(ws, i)
    ensures ws[i].name in InitialStats(ws)
    ensures InitialStats(ws)[ws[i].name].ek == (ws[i].ek == Text("igen"))
  {
    var n := |ws| - 1;
    if i < n {
      var front := ws[..n];
      assert front[i] == ws[i];
      assert LastWithName(front, i);
      InitialStatsEk(front, i);
      assert ws[n].name != ws[i].name;
    }
  }

  /** Every roster name gets a zeroed row, and no other name does; the `ÉK`
      flag is that of the last roster line with the name. */
  lemma InitialStatsMeaning(ws: seq<Worker>)
    ensures forall x :: x in InitialStats(ws) <==> x in Names(ws)
    ensures forall k :: k in InitialStats(ws) ==>
      InitialStats(ws)[k].total == 0 && InitialStats(ws)[k].seating == 0 && InitialStats(ws)[k].watched == 0
    ensures forall i :: LastWithName(ws, i) ==> InitialStats(ws)[ws[i].name].ek == (ws[i].ek == Text("igen"))
  {
    InitialStatsKeys(ws);
    InitialStatsZero(ws);
    forall i | LastWithName(ws, i)
      ensures InitialStats(ws)[ws[i].name].ek == (ws[i].ek == Text("igen"))
    {
      InitialStatsEk(ws, i);
    }
  }

  /** One pass of the innermost loop body of `stats` for a known name. */
  function Bump(st: WorkerStats, e: Entry): WorkerStats
  {
    WorkerStats(st.total + 1,
                st.seating + (if e.role == RoleRules.Seating then 1 else 0),
                st.watched + (if e.who.watched then 1 else 0),
                st.ek)
  }

  /** The counting loops of `stats` run over `es`, from the rows `m`; the
      first entry whose name has no row stops them with KeyError. */
  function Tally(m: map<string, WorkerStats>, es: seq<Entry>): Result<map<string, WorkerStats>, StatsError>
  {
    if es == [] then Ok(m)
    else
      match Tally(m, es[..|es| - 1])
      case Err(err) => Err(err)
      case Ok(st) =>
        var e := es[|es| - 1];
        if e.who.name in st then Ok(st[e.who.name := Bump(st[e.who.name], e)])
        else Err(KeyError(e.who.name))
  }

  /** What `stats` computes for a roster and a schedule. */
  function StatsOf(workers: seq<Worker>, schedule: seq<ShowResult>): Result<map<string, WorkerStats>, StatsError>
  {
    Tally(InitialStats(workers), Entries(schedule))
  }

  // Reference counts, one entry at a time.

  function CountTotal(es: seq<Entry>, name: string): nat
  {
    if es == [] then 0
    else CountTotal(es[..|es| - 1], name) + (if es[|es| - 1].who.name == name then 1 else 0)
  }

  function CountSeating(es: seq<Entry>, name: string): nat
  {
    if es == [] then 0
    else
      var e := es[|es| - 1];
      CountSeating(es[..|es| - 1], name) + (if e.who.name == name && e.role == RoleRules.Seating then 1 else 0)
  }

  function CountWatched(es: seq<Entry>, name: string): nat
  {
    if es == [] then 0
    else
      var e := es[|es| - 1];
      CountWatched(es[..|es| - 1], name) + (if e.who.name == name && e.who.watched then 1 else 0)
  }

  /** The entry at `i` is the first whose name has no row in `m`. */
  predicate FirstUnknown(m: map<string, WorkerStats>, es: seq<Entry>, i: int)
  {
    && 0 <= i < |es|
    && es[i].who.name !in m
    && forall j :: 0 <= j < i ==> es[j].who.name in m
  }

  /** The loops keep the set of names with a row. */
  lemma {:induction false} TallyKeys(m: map<string, WorkerStats>, es: seq<Entry>)
    requires Tally(m, es).Ok?
    ensures Tally(m, es).value.Keys == m.Keys
  {
    if es != [] {
      TallyKeys(m, es[..|es| - 1]);
    }
  }

  /** The loops succeed exactly when every assigned name has a row. */
  lemma {:induction false} TallyOk(m: map<string, WorkerStats>, es: seq<Entry>)
    ensures Tally(m, es).Ok? <==> forall i :: 0 <= i < |es| ==> es[i].who.name in m
  {
    if es != [] {
      var n := |es| - 1;
      var front := es[..n];
      TallyOk(m, front);
      assert forall j :: 0 <= j < n ==> es[j] == front[j];
      if Tally(m, front).Ok? {
        TallyKeys(m, front);
      }
    }
  }

  /** On success each row gains its name's number of assignments, of
      seating assignments and of watched assignments, and nothing else. */
  lemma {:induction false} TallyCounts(m: map<string, WorkerStats>, es: seq<Entry>, k: string)
    requires Tally(m, es).Ok? && k in m
    ensures k in Tally(m, es).value
    ensures Tally(m, es).value[k] == WorkerStats(m[k].total + CountTotal(es, k),
                                                 m[k].seating + CountSeating(es, k),
                                                 m[k].watched + CountWatched(es, k),
                                                 m[k].ek)
  {
    if es != [] {
      TallyCounts(m, es[..|es| - 1], k);
    }
  }

  /** On failure the error names the first unknown assignee. */
  lemma {:induction false} TallyError(m: map<string, WorkerStats>, es: seq<Entry>)
    requires Tally(m, es).Err?
    ensures exists i :: FirstUnknown(m, es, i) && Tally(m, es).error == KeyError(es[i].who.name)
  {
    var n := |es| - 1;
    var front := es[..n];
    assert forall j :: 0 <= j < n ==> es[j] == front[j];
    if Tally(m, front).Err? {
      TallyError(m, front);
      var i :| FirstUnknown(m, front, i) && Tally(m, front).error == KeyError(front[i].who.name);
      assert FirstUnknown(m, es, i);
    } else {
      TallyOk(m, front);
      TallyKeys(m, front);
      assert FirstUnknown(m, es, n);
    }
  }

  /** The loops succeed exactly when every assigned name has a row; they
      then add to each row its number of assignments, of seating
      assignments and of watched assignments, and change nothing else;
      otherwise the error names the first unknown assignee. */
  lemma TallyMeaning(m: map<string, WorkerStats>, es: seq<Entry>)
    ensures Tally(m, es).Ok? <==> forall i :: 0 <= i < |es| ==> es[i].who.name in m
    ensures Tally(m, es).Ok? ==> Tally(m, es).value.Keys == m.Keys
    ensures Tally(m, es).Ok? ==> forall k :: k in m ==>
      Tally(m, es).value[k] == WorkerStats(m[k].total + CountTotal(es, k),
                                           m[k].seating + CountSeating(es, k),
                                           m[k].watched + CountWatched(es, k),
                                           m[k].ek)
    ensures Tally(m, es).Err? ==>
      exists i :: FirstUnknown(m, es, i) && Tally(m, es).error == KeyError(es[i].who.name)
  {
    TallyOk(m, es);
    if Tally(m, es).Ok? {
      TallyKeys(m, es);
      forall k | k in m
        ensures Tally(m, es).value[k] == WorkerStats(m[k].total + CountTotal(es, k),
                                                     m[k].seating + CountSeating(es, k),
                                                     m[k].watched + CountWatched(es, k),
                                                     m[k].ek)
      {
        TallyCounts(m, es, k);
      }
    } else {
      TallyError(m, es);
    }
  }

  lemma {:induction false} SeatingAtMostTotal(es: seq<Entry>, name: string)
    ensures CountSeating(es, name) <= CountTotal(es, name)
    ensures CountWatched(es, name) <= CountTotal(es, name)
  {
    if es != [] {
      SeatingAtMostTotal(es[..|es| - 1], name);
    }
  }

  /** What `stats` promises about its result: it fails exactly when some
      assigned name is not on the roster, and then on the first such name;
      otherwise it has one row per roster name holding that name's counts,
      with `beülős` and `nézős` never above `összes`. */
  lemma StatsMeaning(workers: seq<Worker>, schedule: seq<ShowResult>)
    ensures var r := StatsOf(workers, schedule);
      (r.Ok? <==> forall i :: 0 <= i < |Entries(schedule)| ==> Entries(schedule)[i].who.name in Names(workers))
    ensures var r := StatsOf(workers, schedule);
      r.Err? ==> exists i :: FirstUnknown(InitialStats(workers), Entries(schedule), i)
                           && r.error == KeyError(Entries(schedule)[i].who.name)
                           && r.error.name !in Names(workers)
    ensures var r := StatsOf(workers, schedule);
      r.Ok? ==> forall x :: x in r.value <==> x in Names(workers)
    ensures var r, es := StatsOf(workers, schedule), Entries(schedule);
      r.Ok? ==> forall k :: k in r.value ==>
        && r.value[k].total == CountTotal(es, k)
        && r.value[k].seating == CountSeating(es, k)
        && r.value[k].watched == CountWatched(es, k)
        && r.value[k].seating <= r.value[k].total
        && r.value[k].watched <= r.value[k].total
  {
    var init, es := InitialStats(workers), Entries(schedule);
    InitialStatsMeaning(workers);
    TallyMeaning(init, es);
    forall k | k in init {
      SeatingAtMostTotal(es, k);
    }
  }

  /** With the `ÉK` flag, the rows say: true exactly when the worker's last
      roster line has `ÉK` equal to "igen". */
  lemma StatsEk(workers: seq<Worker>, schedule: seq<ShowResult>, i: int)
    requires StatsOf(workers, schedule).Ok?
    requires LastWithName(workers, i)
    ensures workers[i].name in StatsOf(workers, schedule).value
    ensures StatsOf(workers, schedule).value[workers[i].name].ek == (workers[i].ek == Text("igen"))
  {
    InitialStatsEk(workers, i);
    TallyCounts(InitialStats(workers), Entries(schedule), workers[i].name);
  }

  /** With nothing scheduled, every roster name has all-zero counts. */
  lemma EmptyScheduleStats(workers: seq<Worker>)
    ensures StatsOf(workers, []).Ok?
    ensures forall k :: k in StatsOf(workers, []).value ==>
      StatsOf(workers, []).value[k].total == 0
  {
    InitialStatsMeaning(workers);
  }

  // ------------------------------------------------------------ the totals

  /** The sum of `összes` over the names `ks`. */
  function SumTotals(m: map<string, WorkerStats>, ks: seq<string>): nat
  {
    if ks == [] then 0
    else (if ks[0] in m then m[ks[0]].total else 0) + SumTotals(m, ks[1..])
  }

  function SumCounts(es: seq<Entry>, ks: seq<string>): nat
  {
    if ks == [] then 0 else CountTotal(es, ks[0]) + SumCounts(es, ks[1..])
  }

  predicate Distinct(ks: seq<string>)
  {
    forall i, j :: 0 <= i < j < |ks| ==> ks[i] != ks[j]
  }

  /** The names of `ns` once each, in first-seen order. */
  function Dedup(ns: seq<string>): (r: seq<string>)
    ensures Distinct(r)
    ensures forall x :: x in r <==> x in ns
  {
    if ns == [] then []
    else
      var d := Dedup(ns[..|ns| - 1]);
      var x := ns[|ns| - 1];
      assert ns == ns[..|ns| - 1] + [x];
      if x in d then d else d + [x]
  }

  function Occurrences(ks: seq<string>, x: string): nat
  {
    if ks == [] then 0 else (if ks[0] == x then 1 else 0) + Occurrences(ks[1..], x)
  }

  lemma {:induction false} OccursOnce(ks: seq<string>, x: string)
    requires Distinct(ks) && x in ks
    ensures Occurrences(ks, x) == 1
  {
    if ks[0] == x {
      NotOccurs(ks[1..], x);
    } else {
      OccursOnce(ks[1..], x);
    }
  }

  lemma {:induction false} NotOccurs(ks: seq<string>, x: string)
    requires x !in ks
    ensures Occurrences(ks, x) == 0
  {
    if ks != [] {
      NotOccurs(ks[1..], x);
    }
  }

  lemma {:induction false} SumCountsStep(es: seq<Entry>, ks: seq<string>)
    requires es != []
    ensures SumCounts(es, ks) == SumCounts(es[..|es| - 1], ks) + Occurrences(ks, es[|es| - 1].who.name)
  {
    if ks != [] {
      SumCountsStep(es, ks[1..]);
    }
  }

  /** Counting per name over names that cover every assignee exactly once
      counts each assignment once. */
  lemma {:induction false} SumCountsIsLength(es: seq<Entry>, ks: seq<string>)
    requires Distinct(ks)
    requires forall i :: 0 <= i < |es| ==> es[i].who.name in ks
    ensures SumCounts(es, ks) == |es|
  {
    if es == [] {
      SumCountsEmpty(ks);
    } else {
      var n := |es| - 1;
      SumCountsIsLength(es[..n], ks);
      SumCountsStep(es, ks);
      OccursOnce(ks, es[n].who.name);
    }
  }

  lemma {:induction false} SumCountsEmpty(ks: seq<string>)
    ensures SumCounts([], ks) == 0
  {
    if ks != [] {
      SumCountsEmpty(ks[1..]);
    }
  }

  lemma {:induction false} SumTotalsIsSumCounts(m: map<string, WorkerStats>, es: seq<Entry>, ks: seq<string>)
    requires forall i :: 0 <= i < |ks| ==> ks[i] in m && m[ks[i]].total == CountTotal(es, ks[i])
    ensures SumTotals(m, ks) == SumCounts(es, ks)
  {
    if ks != [] {
      SumTotalsIsSumCounts(m, es, ks[1..]);
    }
  }

  /** When `stats` succeeds, the `összes` column sums, over the distinct
      roster names, to the number of assigned names in the schedule. */
  lemma TotalsSumToAssignments(workers: seq<Worker>, schedule: seq<ShowResult>)
    requires StatsOf(workers, schedule).Ok?
    ensures SumTotals(StatsOf(workers, schedule).value, Dedup(Names(workers))) == AssignedCount(schedule)
  {
    var init, es, ks := InitialStats(workers), Entries(schedule), Dedup(Names(workers));
    var m := Tally(init, es).value;
    InitialStatsKeys(workers);
    InitialStatsZero(workers);
    TallyOk(init, es);
    forall i | 0 <= i < |ks|
      ensures ks[i] in m && m[ks[i]].total == CountTotal(es, ks[i])
    {
      assert ks[i] in Names(workers);
      TallyCounts(init, es, ks[i]);
    }
    SumTotalsIsSumCounts(m, es, ks);
    forall i | 0 <= i < |es|
      ensures es[i].who.name in ks
    {
      assert es[i].who.name in init;
    }
    SumCountsIsLength(es, ks);
    EntriesCount(schedule);
  }

  // ------------------------------------------------------------ the loops

  /** Once the loops have stopped, later entries change nothing. */
  lemma {:induction false} TallyErrAppend(m: map<string, WorkerStats>, a: seq<Entry>, c: seq<Entry>)
    requires Tally(m, a).Err?
    ensures Tally(m, a + c) == Tally(m, a)
    decreases |c|
  {
    if c == [] {
      assert a + c == a;
    } else {
      assert (a + c)[..|a + c| - 1] == a + c[..|c| - 1];
      TallyErrAppend(m, a, c[..|c| - 1]);
    }
  }

  lemma TallyStep(m: map<string, WorkerStats>, a: seq<Entry>, e: Entry, st: map<string, WorkerStats>)
    requires Tally(m, a) == Ok(st)
    ensures Tally(m, a + [e]) ==
      if e.who.name in st then Ok(st[e.who.name := Bump(st[e.who.name], e)])
      else Err(KeyError(e.who.name))
  {
    assert (a + [e])[..|a|] == a;
  }

  // The next three lemmas are single steps of the loop proofs below; kept
  // apart, they keep each loop's proof obligation small.

  lemma PrefixStep(before: seq<Entry>, es: seq<Entry>, k: int)
    requires 0 <= k < |es|
    ensures before + es[..k + 1] == before + es[..k] + [es[k]]
  {
    assert es[..k + 1] == es[..k] + [es[k]];
  }

  lemma SplitAfter(before: seq<Entry>, es: seq<Entry>, k: int)
    requires 0 <= k <= |es|
    ensures before + es == (before + es[..k]) + es[k..]
  {
    assert es == es[..k] + es[k..];
  }

  lemma RolesEntriesStep(roles: seq<RoleSlot>, j: int)
    requires 0 <= j < |roles|
    ensures RolesEntries(roles[..j + 1]) == RolesEntries(roles[..j]) + SlotEntries(roles[j])
  {
    assert roles[..j + 1][..j] == roles[..j];
  }

  lemma RolesPrefixStep(before: seq<Entry>, roles: seq<RoleSlot>, j: int)
    requires 0 <= j < |roles|
    ensures before + RolesEntries(roles[..j + 1]) == before + RolesEntries(roles[..j]) + SlotEntries(roles[j])
  {
    RolesEntriesStep(roles, j);
  }

  lemma EntriesAssoc(a: seq<Entry>, b: seq<Entry>, c: seq<Entry>)
    ensures a + (b + c) == (a + b) + c
  {
  }

  lemma RolesSplitAfter(roles: seq<RoleSlot>, j: int)
    requires 0 <= j <= |roles|
    ensures RolesEntries(roles) == RolesEntries(roles[..j]) + RolesEntries(roles[j..])
  {
    assert roles == roles[..j] + roles[j..];
    RolesEntriesAppend(roles[..j], roles[j..]);
  }

  lemma ShowsSplitAfter(schedule: seq<ShowResult>, i: int)
    requires 0 <= i <= |schedule|
    ensures Entries(schedule) == Entries(schedule[..i]) + Entries(schedule[i..])
  {
    assert schedule == schedule[..i] + schedule[i..];
    EntriesAppend(schedule[..i], schedule[i..]);
  }

  lemma EntriesStep(schedule: seq<ShowResult>, i: int)
    requires 0 <= i < |schedule|
    ensures Entries(schedule[..i + 1]) == Entries(schedule[..i]) + RolesEntries(schedule[i].roles)
  {
    assert schedule[..i + 1][..i] == schedule[..i];
  }

  /** The first loop of `stats`: a fresh row for every roster line. */
  method InitialRows(workers: seq<Worker>) returns (stats: map<string, WorkerStats>)
    ensures stats == InitialStats(workers)
  {
    stats := map[];
    var w := 0;
    while w < |workers|
      invariant 0 <= w <= |workers|
      invariant stats == InitialStats(workers[..w])
    {
      assert workers[..w + 1][..w] == workers[..w];
      stats := stats[workers[w].name := FreshStats(workers[w])];
      w := w + 1;
    }
    assert workers[..w] == workers;
  }

  /** The innermost loop of `stats`, over the people of one role. */
  method TallySlot(ghost m: map<string, WorkerStats>, ghost before: seq<Entry>,
                   slot: RoleSlot, rows: map<string, WorkerStats>)
    returns (r: Result<map<string, WorkerStats>, StatsError>)
    requires Tally(m, before) == Ok(rows)
    ensures r == Tally(m, before + SlotEntries(slot))
  {
    var stats := rows;
    ghost var es := SlotEntries(slot);
    ghost var done := before;
    var k := 0;
    assert before + es[..k] == before;
    while k < |slot.assignees|
      invariant 0 <= k <= |slot.assignees|
      invariant done == before + es[..k]
      invariant Tally(m, done) == Ok(stats)
    {
      var d := slot.assignees[k];
      var e := Entry(slot.role, d);
      PrefixStep(before, es, k);
      TallyStep(m, done, e, stats);
      done := done + [e];
      if d.name !in stats {
        SplitAfter(before, es, k + 1);
        TallyErrAppend(m, done, es[k + 1..]);
        return Err(KeyError(d.name));
      }
      stats := stats[d.name := Bump(stats[d.name], e)];
      k := k + 1;
    }
    assert es[..k] == es;
    return Ok(stats);
  }

  /** The middle loop of `stats`, over the roles of one show. */
  method TallyRoles(ghost m: map<string, WorkerStats>, ghost before: seq<Entry>,
                    roles: seq<RoleSlot>, rows: map<string, WorkerStats>)
    returns (r: Result<map<string, WorkerStats>, StatsError>)
    requires Tally(m, before) == Ok(rows)
    ensures r == Tally(m, before + RolesEntries(roles))
  {
    var stats := rows;
    ghost var done := before;
    var j := 0;
    assert roles[..j] == [];
    assert before + RolesEntries(roles[..j]) == before;
    while j < |roles|
      invariant 0 <= j <= |roles|
      invariant done == before + RolesEntries(roles[..j])
      invariant Tally(m, done) == Ok(stats)
    {
      var res := TallySlot(m, done, roles[j], stats);
      RolesPrefixStep(before, roles, j);
      done := done + SlotEntries(roles[j]);
      if res.Err? {
        RolesSplitAfter(roles, j + 1);
        EntriesAssoc(before, RolesEntries(roles[..j + 1]), RolesEntries(roles[j + 1..]));
        TallyErrAppend(m, done, RolesEntries(roles[j + 1..]));
        return res;
      }
      stats := res.value;
      j := j + 1;
    }
    assert roles[..j] == roles;
    return Ok(stats);
  }

  /** `stats`: the roster loop, then the loops over the schedule's shows,
      their roles and the people assigned to each role. */
  method ComputeStats(workers: seq<Worker>, schedule: seq<ShowResult>)
    returns (r: Result<map<string, WorkerStats>, StatsError>)
    ensures r == StatsOf(workers, schedule)
  {
    var stats := InitialRows(workers);
    ghost var init := stats;
    ghost var done: seq<Entry> := [];
    var i := 0;
    while i < |schedule|
      invariant 0 <= i <= |schedule|
      invariant done == Entries(schedule[..i])
      invariant Tally(init, done) == Ok(stats)
    {
      var res := TallyRoles(init, done, schedule[i].roles, stats);
      EntriesStep(schedule, i);
      done := done + RolesEntries(schedule[i].roles);
      if res.Err? {
        ShowsSplitAfter(schedule, i + 1);
        TallyErrAppend(init, done, Entries(schedule[i + 1..]));
        return res;
      }
      stats := res.value;
      i := i + 1;
    }
    assert schedule[..i] == schedule;
    r := Ok(stats);
  }
}
