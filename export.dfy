/** The row layout of `export_xlsx`: a fixed header line, then one line per
    scheduled show with its title, date and the names filling each role's
    columns. */
module Export {
  import opened Results
  import opened Records
  import opened RoleRules

  const Headers: seq<string> := [
    "Előadás", "Dátum",
    "nézőtér beülős 1", "nézőtér beülős 2",
    "nézőtér csipog 1", "nézőtér csipog 2",
    "jolly joker",
    "ruhatár bal 1", "ruhatár bal 2",
    "ruhatár jobb", "ruhatár erkély"
  ]

  /** The role and the position in its name list that each column after
      the title and the date is meant to show. */
  const Columns: seq<(string, nat)> := [
    (Seating, 0), (Seating, 1), (Pager, 0), (Pager, 1), (JollyJoker, 0),
    (CloakLeft, 0), (CloakLeft, 1), (CloakRight, 0), (CloakBalcony, 0)
  ]

  /** `[0]` on an empty name list raises IndexError; the role records which
      of the three `[0]` lookups failed. */
  datatype ExportError = IndexError(role: string)

  function SlotNames(s: RoleSlot): (r: seq<string>)
    ensures |r| == |s.assignees| && forall k :: 0 <= k < |r| ==> r[k] == s.assignees[k].name
  {
    seq(|s.assignees|, k requires 0 <= k < |s.assignees| => s.assignees[k].name)
  }

  function RoleNames(roles: seq<RoleSlot>): (r: seq<string>)
    ensures |r| == |roles| && forall j :: 0 <= j < |r| ==> r[j] == roles[j].role
  {
    seq(|roles|, j requires 0 <= j < |roles| => roles[j].role)
  }

  /** `role_map`: each role's list of names; of two entries for one role
      the later wins. */
  function RoleMap(roles: seq<RoleSlot>): map<string, seq<string>>
  {
    if roles == [] then map[]
    else RoleMap(roles[..|roles| - 1])[roles[|roles| - 1].role := SlotNames(roles[|roles| - 1])]
  }

  /** The entry at `j` is the last one for its role. */
  predicate LastWithRole(roles: seq<RoleSlot>, j: int)
  {
    0 <= j < |roles| && forall l :: j < l < |roles| ==> roles[l].role != roles[j].role
  }

  lemma {:induction false} RoleMapKeys(roles: seq<RoleSlot>)
    ensures forall x :: x in RoleMap(roles) <==> x in RoleNames(roles)
  {
    if roles != [] {
      var n := |roles| - 1;
      RoleMapKeys(roles[..n]);
      assert RoleNames(roles) == RoleNames(roles[..n]) + [roles[n].role];
    }
  }

  lemma {:induction false} RoleMapLast(roles: seq<RoleSlot>, j: int)
    requires LastWithRole(roles, j)
    ensures roles[j].role in RoleMap(roles)
    ensures RoleMap(roles)[roles[j].role] == SlotNames(roles[j])
  {
    var n := |roles| - 1;
    if j < n {
      var front := roles[..n];
      assert front[j] == roles[j];
      assert LastWithRole(front, j);
      RoleMapLast(front, j);
      assert roles[n].role != roles[j].role;
    }
  }

  /** The map has exactly the show's roles as keys, and each maps to the
      names of the last entry for it. */
  lemma RoleMapMeaning(roles: seq<RoleSlot>)
    ensures forall x :: x in RoleMap(roles) <==> x in RoleNames(roles)
    ensures forall j :: LastWithRole(roles, j) ==> RoleMap(roles)[roles[j].role] == SlotNames(roles[j])
  {
    RoleMapKeys(roles);
    forall j | LastWithRole(roles, j)
      ensures RoleMap(roles)[roles[j].role] == SlotNames(roles[j])
    {
      RoleMapLast(roles, j);
    }
  }

  /** `role_map.get(role, ["", ""])[:2]`. */
  function Pair(m: map<string, seq<string>>, role: string): (r: seq<string>)
    ensures |r| == if role !in m then 2 else if |m[role]| < 2 then |m[role]| else 2
    ensures role in m ==> r <= m[role]
    ensures role !in m ==> r == ["", ""]
  {
    var names := if role in m then m[role] else ["", ""];
    if |names| <= 2 then names else names[..2]
  }

  /** `role_map.get(role, [""])[0]`. */
  function First(m: map<string, seq<string>>, role: string): (r: Result<string, ExportError>)
    ensures r.Err? <==> role in m && m[role] == []
    ensures r.Err? ==> r.error == IndexError(role)
    ensures r.Ok? ==> r.value == Intended(m, role, 0)
  {
    var names := if role in m then m[role] else [""];
    if names == [] then Err(IndexError(role)) else Ok(names[0])
  }

  /** The `row` list of `export_xlsx` for one show; its elements are
      evaluated left to right, so the first failing `[0]` is the error. */
  function ExportRow(show: ShowResult): Result<seq<string>, ExportError>
  {
    var m := RoleMap(show.roles);
    match First(m, JollyJoker)
    case Err(e) => Err(e)
    case Ok(joker) =>
      match First(m, CloakRight)
      case Err(e) => Err(e)
      case Ok(right) =>
        match First(m, CloakBalcony)
        case Err(e) => Err(e)
        case Ok(balcony) =>
          Ok([show.title, show.date] + Pair(m, Seating) + Pair(m, Pager) + [joker]
             + Pair(m, CloakLeft) + [right] + [balcony])
  }

  /** A single-column role can be exported: it is absent, or has a name. */
  predicate Present(m: map<string, seq<string>>, role: string)
  {
    role !in m || m[role] != []
  }

  /** A two-column role fills both its columns: it is absent, or has at
      least two names. */
  predicate Full(m: map<string, seq<string>>, role: string)
  {
    role !in m || |m[role]| >= 2
  }

  /** The cell meant for a role's `slot`-th name: the name, or blank when
      the role is absent. */
  function Intended(m: map<string, seq<string>>, role: string, slot: nat): string
  {
    if role !in m then "" else if slot < |m[role]| then m[role][slot] else ""
  }

  /** A row fails exactly when a single-column role is present with no
      names, and then on the first such role in column order. */
  lemma ExportRowFails(show: ShowResult)
    ensures var m, r := RoleMap(show.roles), ExportRow(show);
      r.Ok? <==> Present(m, JollyJoker) && Present(m, CloakRight) && Present(m, CloakBalcony)
    ensures var m, r := RoleMap(show.roles), ExportRow(show);
      r.Err? ==> r.error == IndexError(if !Present(m, JollyJoker) then JollyJoker
                                       else if !Present(m, CloakRight) then CloakRight
                                       else CloakBalcony)
  {
  }

  /** A row starts with the title and the date and never has more cells
      than the header; it has all eleven exactly when every two-column role
      is absent or has two names. */
  lemma ExportRowShape(show: ShowResult)
    ensures var r := ExportRow(show);
      r.Ok? ==> 5 <= |r.value| <= |Headers| && r.value[0] == show.title && r.value[1] == show.date
    ensures var m, r := RoleMap(show.roles), ExportRow(show);
      r.Ok? ==> (|r.value| == |Headers| <==> Full(m, Seating) && Full(m, Pager) && Full(m, CloakLeft))
  {
  }

  /** Where every cell of a successful row goes. With s, p and l the number
      of seating, pager and left-cloakroom names that make it into the row
      (at most two each), the title and date come first, then the seating
      names, the pager names, the joker, the left-cloakroom names, the right
      cloakroom and the balcony, with nothing in place of a missing name. */
  lemma RowParts(show: ShowResult)
    requires ExportRow(show).Ok?
    ensures var m, row := RoleMap(show.roles), ExportRow(show).value;
      var s, p, l := |Pair(m, Seating)|, |Pair(m, Pager)|, |Pair(m, CloakLeft)|;
      && |row| == 5 + s + p + l && row[0] == show.title && row[1] == show.date
      && (forall i :: 0 <= i < s ==> row[2 + i] == Intended(m, Seating, i))
      && (forall i :: 0 <= i < p ==> row[2 + s + i] == Intended(m, Pager, i))
      && row[2 + s + p] == Intended(m, JollyJoker, 0)
      && (forall i :: 0 <= i < l ==> row[3 + s + p + i] == Intended(m, CloakLeft, i))
      && row[3 + s + p + l] == Intended(m, CloakRight, 0)
      && row[4 + s + p + l] == Intended(m, CloakBalcony, 0)
  {
    RowDecomposed(show);
    PlacedCells(RoleMap(show.roles), ExportRow(show).value, [show.title, show.date]);
  }

  lemma PlacedCells(m: map<string, seq<string>>, row: seq<string>, front: seq<string>)
    requires |front| == 2
    requires First(m, JollyJoker).Ok? && First(m, CloakRight).Ok? && First(m, CloakBalcony).Ok?
    requires row == front + Pair(m, Seating) + Pair(m, Pager) + [First(m, JollyJoker).value]
                    + Pair(m, CloakLeft) + [First(m, CloakRight).value] + [First(m, CloakBalcony).value]
    ensures var s, p, l := |Pair(m, Seating)|, |Pair(m, Pager)|, |Pair(m, CloakLeft)|;
      && |row| == 5 + s + p + l && row[0] == front[0] && row[1] == front[1]
      && (forall i :: 0 <= i < s ==> row[2 + i] == Intended(m, Seating, i))
      && (forall i :: 0 <= i < p ==> row[2 + s + i] == Intended(m, Pager, i))
      && row[2 + s + p] == Intended(m, JollyJoker, 0)
      && (forall i :: 0 <= i < l ==> row[3 + s + p + i] == Intended(m, CloakLeft, i))
      && row[3 + s + p + l] == Intended(m, CloakRight, 0)
      && row[4 + s + p + l] == Intended(m, CloakBalcony, 0)
  {
    PairCells(m, Seating);
    PairCells(m, Pager);
    PairCells(m, CloakLeft);
    PartPositions(front, Pair(m, Seating), Pair(m, Pager), First(m, JollyJoker).value,
                  Pair(m, CloakLeft), First(m, CloakRight).value, First(m, CloakBalcony).value);
  }

  lemma RowDecomposed(show: ShowResult)
    requires ExportRow(show).Ok?
    ensures var m := RoleMap(show.roles);
      && First(m, JollyJoker).Ok? && First(m, CloakRight).Ok? && First(m, CloakBalcony).Ok?
      && ExportRow(show).value == [show.title, show.date] + Pair(m, Seating) + Pair(m, Pager)
           + [First(m, JollyJoker).value] + Pair(m, CloakLeft)
           + [First(m, CloakRight).value] + [First(m, CloakBalcony).value]
  {
  }

  /** Every name a pair holds is the one meant for its column. */
  lemma PairCells(m: map<string, seq<string>>, role: string)
    ensures forall i :: 0 <= i < |Pair(m, role)| ==> Pair(m, role)[i] == Intended(m, role, i)
  {
  }

  /** Where each part of a row lands. */
  lemma PartPositions(front: seq<string>, seating: seq<string>, pager: seq<string>, joker: string,
                      left: seq<string>, right: string, balcony: string)
    requires |front| == 2
    ensures var row := front + seating + pager + [joker] + left + [right] + [balcony];
      var s, p, l := |seating|, |pager|, |left|;
      && |row| == 5 + s + p + l && row[0] == front[0] && row[1] == front[1]
      && (forall i :: 0 <= i < s ==> row[2 + i] == seating[i])
      && (forall i :: 0 <= i < p ==> row[2 + s + i] == pager[i])
      && row[2 + s + p] == joker
      && (forall i :: 0 <= i < l ==> row[3 + s + p + i] == left[i])
      && row[3 + s + p + l] == right && row[4 + s + p + l] == balcony
  {
  }

  /** A two-column role with a single name moves every later cell one
      column to the left: with one seating name, the cell under
      "nézőtér beülős 2" holds what belongs under "nézőtér csipog 1", and
      the row ends one cell short. */
  lemma ShortSeatingShifts(show: ShowResult)
    requires ExportRow(show).Ok?
    requires Seating in RoleMap(show.roles) && |RoleMap(show.roles)[Seating]| == 1
    requires Full(RoleMap(show.roles), Pager) && Full(RoleMap(show.roles), CloakLeft)
    ensures Headers[3] == "nézőtér beülős 2" && Headers[4] == "nézőtér csipog 1"
    ensures |ExportRow(show).value| == |Headers| - 1
    ensures ExportRow(show).value[2] == Intended(RoleMap(show.roles), Seating, 0)
    ensures forall c :: 3 <= c < |Headers| - 1 ==>
      ExportRow(show).value[c] == Intended(RoleMap(show.roles), Columns[c - 1].0, Columns[c - 1].1)
  {
    RowDecomposed(show);
    ShiftedCells(RoleMap(show.roles), ExportRow(show).value, [show.title, show.date]);
  }

  lemma ShiftedCells(m: map<string, seq<string>>, row: seq<string>, front: seq<string>)
    requires |front| == 2
    requires Seating in m && |m[Seating]| == 1 && Full(m, Pager) && Full(m, CloakLeft)
    requires First(m, JollyJoker).Ok? && First(m, CloakRight).Ok? && First(m, CloakBalcony).Ok?
    requires row == front + Pair(m, Seating) + Pair(m, Pager) + [First(m, JollyJoker).value]
                    + Pair(m, CloakLeft) + [First(m, CloakRight).value] + [First(m, CloakBalcony).value]
    ensures |row| == |Headers| - 1
    ensures row[2] == Intended(m, Seating, 0)
    ensures forall c :: 3 <= c < |Headers| - 1 ==> row[c] == Intended(m, Columns[c - 1].0, Columns[c - 1].1)
  {
    var seating, pager, left := Pair(m, Seating), Pair(m, Pager), Pair(m, CloakLeft);
    var joker, right, balcony := First(m, JollyJoker).value, First(m, CloakRight).value, First(m, CloakBalcony).value;
    RowCells(front, seating, pager, joker, left, right, balcony);
    PairIntended(m, Pager, 0);
    PairIntended(m, Pager, 1);
    PairIntended(m, CloakLeft, 0);
    PairIntended(m, CloakLeft, 1);
  }

  /** A row with all eleven cells has every cell under the header of the
      role and position it shows. */
  lemma ExportRowAligned(show: ShowResult)
    requires ExportRow(show).Ok? && |ExportRow(show).value| == |Headers|
    ensures forall c :: 0 <= c < |Columns| ==>
      ExportRow(show).value[c + 2] == Intended(RoleMap(show.roles), Columns[c].0, Columns[c].1)
  {
    RowDecomposed(show);
    AlignedCells(RoleMap(show.roles), ExportRow(show).value, [show.title, show.date]);
  }

  lemma AlignedCells(m: map<string, seq<string>>, row: seq<string>, front: seq<string>)
    requires |front| == 2 && |row| == |Headers|
    requires First(m, JollyJoker).Ok? && First(m, CloakRight).Ok? && First(m, CloakBalcony).Ok?
    requires row == front + Pair(m, Seating) + Pair(m, Pager) + [First(m, JollyJoker).value]
                    + Pair(m, CloakLeft) + [First(m, CloakRight).value] + [First(m, CloakBalcony).value]
    ensures forall c :: 0 <= c < |Columns| ==> row[c + 2] == Intended(m, Columns[c].0, Columns[c].1)
  {
    var seating, pager, left := Pair(m, Seating), Pair(m, Pager), Pair(m, CloakLeft);
    var joker, right, balcony := First(m, JollyJoker).value, First(m, CloakRight).value, First(m, CloakBalcony).value;
    assert |seating| == 2 && |pager| == 2 && |left| == 2;
    RowCells(front, seating, pager, joker, left, right, balcony);
    PairIntended(m, Seating, 0);
    PairIntended(m, Seating, 1);
    PairIntended(m, Pager, 0);
    PairIntended(m, Pager, 1);
    PairIntended(m, CloakLeft, 0);
    PairIntended(m, CloakLeft, 1);
    forall c | 0 <= c < |Columns|
      ensures row[c + 2] == Intended(m, Columns[c].0, Columns[c].1)
    {
      if c < 2 {
        assert row[c + 2] == seating[c];
      } else if c < 4 {
        assert row[c + 2] == pager[c - 2];
      } else if c == 4 {
        assert row[6] == joker;
      } else if c < 7 {
        assert row[c + 2] == left[c - 5];
      }
    }
  }

  /** Where each part of a row lands, once the seating names are placed. */
  lemma RowCells(front: seq<string>, seating: seq<string>, pager: seq<string>, joker: string,
                 left: seq<string>, right: string, balcony: string)
    requires |front| == 2 && |pager| == 2 && |left| == 2
    ensures var row, k := front + seating + pager + [joker] + left + [right] + [balcony], 2 + |seating|;
      && |row| == k + 7
      && (forall i :: 0 <= i < |seating| ==> row[2 + i] == seating[i])
      && row[k] == pager[0] && row[k + 1] == pager[1] && row[k + 2] == joker
      && row[k + 3] == left[0] && row[k + 4] == left[1] && row[k + 5] == right && row[k + 6] == balcony
  {
  }

  lemma PairIntended(m: map<string, seq<string>>, role: string, slot: nat)
    requires |Pair(m, role)| == 2 && slot < 2
    ensures Pair(m, role)[slot] == Intended(m, role, slot)
  {
  }

  /** The header cells are labelled with the role each column is meant for. */
  lemma HeadersLabelColumns()
    ensures |Headers| == |Columns| + 2
    ensures forall c :: 0 <= c < |Columns| ==> Columns[c].0 <= Headers[c + 2]
  {
  }

  /** `export_xlsx` up to the workbook: the header line, then one line per
      show in schedule order; the first show whose row fails aborts the
      export with that error. */
  method ExportSheet(schedule: seq<ShowResult>) returns (r: Result<seq<seq<string>>, ExportError>)
    ensures r.Ok? <==> forall i :: 0 <= i < |schedule| ==> ExportRow(schedule[i]).Ok?
    ensures r.Ok? ==> |r.value| == |schedule| + 1 && r.value[0] == Headers
    ensures r.Ok? ==> forall i :: 0 <= i < |schedule| ==> r.value[i + 1] == ExportRow(schedule[i]).value
    ensures r.Err? ==> exists i :: 0 <= i < |schedule| && ExportRow(schedule[i]) == Err(r.error)
                                   && forall j :: 0 <= j < i ==> ExportRow(schedule[j]).Ok?
  {
    var rows := [Headers];
    var i := 0;
    while i < |schedule|
      invariant 0 <= i <= |schedule|
      invariant |rows| == i + 1 && rows[0] == Headers
      invariant forall j :: 0 <= j < i ==> ExportRow(schedule[j]).Ok? && rows[j + 1] == ExportRow(schedule[j]).value
    {
      var row := ExportRow(schedule[i]);
      if row.Err? {
        return Err(row.error);
      }
      rows := rows + [row.value];
      i := i + 1;
    }
    return Ok(rows);
  }
}
