/** The module-level state of app.py (`workers`, `schedule`,
    `assignment_count`) and the roster import that seeds the counters. */
module Roster {
  import opened Records

  /** `assignment_count.setdefault(name, 0)` for each name in turn. */
  function SeedCounts(counts: map<string, int>, names: seq<string>): map<string, int>
  {
    if names == [] then counts
    else
      var m := SeedCounts(counts, names[..|names| - 1]);
      var n := names[|names| - 1];
      if n in m then m else m[n := 0]
  }

  /** After seeding, every name has a counter, counters that existed keep
      their value, and the only new counters are the names', at zero. */
  lemma {:induction false} SeedCountsMeaning(counts: map<string, int>, names: seq<string>)
    ensures SeedCounts(counts, names).Keys == counts.Keys + set n | n in names
    ensures forall k :: k in counts ==> SeedCounts(counts, names)[k] == counts[k]
    ensures forall k :: k in SeedCounts(counts, names) && k !in counts ==> SeedCounts(counts, names)[k] == 0
  {
    if names != [] {
      var front := names[..|names| - 1];
      SeedCountsMeaning(counts, front);
      assert (set n | n in names) == (set n | n in front) + {names[|names| - 1]} by {
        assert names == front + [names[|names| - 1]];
      }
    }
  }

  /** Loading the same roster again leaves the counters as they are. */
  lemma SeedCountsIdempotent(counts: map<string, int>, names: seq<string>)
    ensures SeedCounts(SeedCounts(counts, names), names) == SeedCounts(counts, names)
  {
    var once := SeedCounts(counts, names);
    SeedCountsMeaning(counts, names);
    SeedCountsMeaning(once, names);
  }

  /** The global data of the application. Nothing in app.py assigns
      `schedule`, so it keeps the empty value it starts with. */
  class AppData {
    var workers: seq<Worker>
    var schedule: seq<ShowResult>
    var assignmentCount: map<string, int>

    constructor ()
      ensures workers == [] && schedule == [] && assignmentCount == map[]
    {
      workers := [];
      schedule := [];
      assignmentCount := map[];
    }

    /** `import_workers`: replace the roster, then give each loaded name a
        zero counter unless it already has one. */
    method ImportWorkers(rows: seq<Worker>)
      modifies this
      ensures workers == rows && schedule == old(schedule)
      ensures assignmentCount == SeedCounts(old(assignmentCount), Names(rows))
    {
      workers := rows;
      var i := 0;
      while i < |rows|
        invariant 0 <= i <= |rows|
        invariant workers == rows && schedule == old(schedule)
        invariant assignmentCount == SeedCounts(old(assignmentCount), Names(rows)[..i])
      {
        assert Names(rows)[..i + 1][..i] == Names(rows)[..i];
        var name := rows[i].name;
        if name !in assignmentCount {
          assignmentCount := assignmentCount[name := 0];
        }
        i := i + 1;
      }
      assert Names(rows)[..i] == Names(rows);
    }
  }
}
