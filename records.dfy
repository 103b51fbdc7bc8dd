/** The in-memory records app.py reads: a roster row and the per-show result
    the schedule holds (`cím`, `dátum`, `szerepek` of
    (`szerep`, `kiosztott` of (`név`, `watched`))). */
module Records {
  import opened Cells

  /** A roster row: its `név` column and its `ÉK` column (`Empty` when the
      column is missing, as `w.get("ÉK")` gives `None`). */
  datatype Worker = Worker(name: string, ek: Cell)

  /** One assigned person; a missing `watched` key reads as false. */
  datatype Assignee = Assignee(name: string, watched: bool)

  datatype RoleSlot = RoleSlot(role: string, assignees: seq<Assignee>)

  datatype ShowResult = ShowResult(title: string, date: string, roles: seq<RoleSlot>)

  /** One assignment, as the innermost loop of `stats` meets it. */
  datatype Entry = Entry(role: string, who: Assignee)

  function Names(ws: seq<Worker>): (r: seq<string>)
    ensures |r| == |ws| && forall i :: 0 <= i < |ws| ==> r[i] == ws[i].name
  {
    seq(|ws|, i requires 0 <= i < |ws| => ws[i].name)
  }

  function SlotEntries(s: RoleSlot): (r: seq<Entry>)
    ensures |r| == |s.assignees|
    ensures forall k :: 0 <= k < |r| ==> r[k] == Entry(s.role, s.assignees[k])
  {
    seq(|s.assignees|, k requires 0 <= k < |s.assignees| => Entry(s.role, s.assignees[k]))
  }

  /** The assignments of a show's roles, in iteration order. */
  function RolesEntries(roles: seq<RoleSlot>): seq<Entry>
  {
    if roles == [] then []
    else RolesEntries(roles[..|roles| - 1]) + SlotEntries(roles[|roles| - 1])
  }

  /** All assignments of a schedule, in the order `for show … for s … for d`
      visits them. */
  function Entries(schedule: seq<ShowResult>): seq<Entry>
  {
    if schedule == [] then []
    else Entries(schedule[..|schedule| - 1]) + RolesEntries(schedule[|schedule| - 1].roles)
  }

  /** The number of assigned names over all shows' role lists. */
  function AssignedCount(schedule: seq<ShowResult>): nat
  {
    if schedule == [] then 0
    else AssignedCount(schedule[1..]) + RolesAssignedCount(schedule[0].roles)
  }

  function RolesAssignedCount(roles: seq<RoleSlot>): nat
  {
    if roles == [] then 0 else |roles[0].assignees| + RolesAssignedCount(roles[1..])
  }

  lemma {:induction false} RolesEntriesAppend(a: seq<RoleSlot>, b: seq<RoleSlot>)
    ensures RolesEntries(a + b) == RolesEntries(a) + RolesEntries(b)
    decreases |b|
  {
    if b != [] {
      var n := |b| - 1;
      assert (a + b)[..|a + b| - 1] == a + b[..n];
      RolesEntriesAppend(a, b[..n]);
    } else {
      assert a + b == a;
    }
  }

  lemma {:induction false} EntriesAppend(a: seq<ShowResult>, b: seq<ShowResult>)
    ensures Entries(a + b) == Entries(a) + Entries(b)
    decreases |b|
  {
    if b != [] {
      var n := |b| - 1;
      assert (a + b)[..|a + b| - 1] == a + b[..n];
      EntriesAppend(a, b[..n]);
    } else {
      assert a + b == a;
    }
  }

  lemma {:induction false} RolesEntriesCount(roles: seq<RoleSlot>)
    ensures |RolesEntries(roles)| == RolesAssignedCount(roles)
  {
    if roles != [] {
      RolesEntriesCount(roles[1..]);
      RolesEntriesAppend([roles[0]], roles[1..]);
      assert [roles[0]] + roles[1..] == roles;
      assert RolesEntries([roles[0]]) == RolesEntries([]) + SlotEntries(roles[0]);
    }
  }

  /** Flattening loses and invents nothing: there is one entry per assigned
      name. */
  lemma {:induction false} EntriesCount(schedule: seq<ShowResult>)
    ensures |Entries(schedule)| == AssignedCount(schedule)
  {
    if schedule != [] {
      EntriesCount(schedule[1..]);
      EntriesAppend([schedule[0]], schedule[1..]);
      assert [schedule[0]] + schedule[1..] == schedule;
      assert Entries([schedule[0]]) == Entries([]) + RolesEntries(schedule[0].roles);
      RolesEntriesCount(schedule[0].roles);
    }
  }
}
