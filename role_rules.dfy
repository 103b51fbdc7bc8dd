/** `ROLE_RULES`: for a show's total headcount, the roles to fill and how many
    people each role needs, in the order the table lists them. */
module RoleRules {
  import opened Results

  const Seating := "nézőtér beülős"
  const Pager := "nézőtér csipog"
  const CloakLeft := "ruhatár bal"
  const CloakRight := "ruhatár jobb"
  const CloakBalcony := "ruhatár erkély"
  const JollyJoker := "jolly joker"

  datatype Quota = Quota(role: string, count: nat)

  const NineRules: seq<Quota> :=
    [Quota(Seating, 2), Quota(Pager, 2), Quota(CloakLeft, 2),
     Quota(CloakRight, 1), Quota(CloakBalcony, 1), Quota(JollyJoker, 1)]

  const EightRules: seq<Quota> :=
    [Quota(Seating, 2), Quota(Pager, 2), Quota(CloakLeft, 2),
     Quota(CloakRight, 1), Quota(JollyJoker, 1)]

  /** The sum of the quantities of a tier. */
  function Total(rules: seq<Quota>): nat
  {
    if rules == [] then 0 else rules[0].count + Total(rules[1..])
  }

  /** No role is listed twice in a tier (a dict has unique keys). */
  predicate UniqueRoles(rules: seq<Quota>)
  {
    forall i, j :: 0 <= i < j < |rules| ==> rules[i].role != rules[j].role
  }

  lemma TierTotals()
    ensures Total(NineRules) == 9 && Total(EightRules) == 8
  {
    assert Total(NineRules[5..]) == 1;
    assert Total(NineRules[4..]) == 2;
    assert Total(NineRules[3..]) == 3;
    assert Total(NineRules[2..]) == 5;
    assert Total(NineRules[1..]) == 7;
    assert Total(EightRules[4..]) == 1;
    assert Total(EightRules[3..]) == 2;
    assert Total(EightRules[2..]) == 4;
    assert Total(EightRules[1..]) == 6;
  }

  /** `ROLE_RULES.get(headcount)`. */
  function RulesFor(headcount: int): (r: Option<seq<Quota>>)
    ensures r.Some? <==> headcount == 8 || headcount == 9
    ensures r.Some? ==> UniqueRoles(r.value) && Total(r.value) == headcount
  {
    TierTotals();
    if headcount == 9 then Some(NineRules)
    else if headcount == 8 then Some(EightRules)
    else None
  }

  /** `rules.get(role)`. */
  function QuantityOf(rules: seq<Quota>, role: string): (q: Option<nat>)
    ensures q.Some? <==> exists i :: 0 <= i < |rules| && rules[i].role == role
    ensures q.Some? ==> exists i :: 0 <= i < |rules| && rules[i] == Quota(role, q.value)
  {
    if rules == [] then None
    else if rules[0].role == role then Some(rules[0].count)
    else
      var q := QuantityOf(rules[1..], role);
      assert forall i :: 0 < i < |rules| ==> rules[i] == rules[1..][i - 1];
      q
  }

  /** The tier without one role, other roles in the same order. */
  function Without(rules: seq<Quota>, role: string): (r: seq<Quota>)
    ensures forall i :: 0 <= i < |r| ==> r[i].role != role
    ensures |r| <= |rules|
  {
    if rules == [] then []
    else (if rules[0].role == role then [] else [rules[0]]) + Without(rules[1..], role)
  }

  /** Exactly the quotas of other roles are kept. */
  lemma {:induction false} WithoutMembers(rules: seq<Quota>, role: string)
    ensures forall q :: q in Without(rules, role) <==> q in rules && q.role != role
  {
    if rules != [] {
      WithoutMembers(rules[1..], role);
      assert rules == [rules[0]] + rules[1..];
    }
  }

  /** Removing a role from two parts of a tier removes it from each part,
      so the remaining quotas keep their order. */
  lemma {:induction false} WithoutAppend(a: seq<Quota>, b: seq<Quota>, role: string)
    ensures Without(a + b, role) == Without(a, role) + Without(b, role)
  {
    if a != [] {
      assert (a + b)[1..] == a[1..] + b;
      WithoutAppend(a[1..], b, role);
    } else {
      assert a + b == b;
    }
  }

  /** The eight-person tier is the nine-person tier less the balcony
      cloakroom, which is the fifth entry of the nine-person tier; the other
      roles keep their order and quantities. */
  lemma EightIsNineWithoutBalcony()
    ensures RulesFor(9).value[4] == Quota(CloakBalcony, 1)
    ensures RulesFor(8).value == RulesFor(9).value[..4] + RulesFor(9).value[5..]
    ensures RulesFor(8).value == Without(RulesFor(9).value, CloakBalcony)
  {
    assert RulesFor(9).value == NineRules && RulesFor(8).value == EightRules;
    assert EightRules == NineRules[..4] + NineRules[5..];
    BalconyRemoved();
  }

  lemma BalconyRemoved()
    ensures EightRules == Without(NineRules, CloakBalcony)
  {
    assert NineRules[4..][1..] == NineRules[5..];
    assert Without(NineRules[5..], CloakBalcony) == EightRules[4..];
    assert Without(NineRules[4..], CloakBalcony) == EightRules[4..];
    assert NineRules[3..][1..] == NineRules[4..];
    assert Without(NineRules[3..], CloakBalcony) == EightRules[3..];
    assert NineRules[2..][1..] == NineRules[3..];
    assert Without(NineRules[2..], CloakBalcony) == EightRules[2..];
    assert NineRules[1..][1..] == NineRules[2..];
    assert Without(NineRules[1..], CloakBalcony) == EightRules[1..];
  }

  lemma {:induction false} WithoutAbsent(rules: seq<Quota>, role: string)
    requires forall i :: 0 <= i < |rules| ==> rules[i].role != role
    ensures Without(rules, role) == rules
  {
    if rules != [] {
      WithoutAbsent(rules[1..], role);
      assert rules == [rules[0]] + rules[1..];
    }
  }

  /** The jolly joker is always one person, and the front-row seating two. */
  lemma FixedQuantities(headcount: int)
    requires RulesFor(headcount).Some?
    ensures QuantityOf(RulesFor(headcount).value, JollyJoker) == Some(1)
    ensures QuantityOf(RulesFor(headcount).value, Seating) == Some(2)
  {
    if headcount == 9 {
      assert QuantityOf(NineRules[5..], JollyJoker) == Some(1);
      assert QuantityOf(NineRules[4..], JollyJoker) == Some(1);
      assert QuantityOf(NineRules[3..], JollyJoker) == Some(1);
      assert QuantityOf(NineRules[2..], JollyJoker) == Some(1);
      assert QuantityOf(NineRules[1..], JollyJoker) == Some(1);
    } else {
      assert QuantityOf(EightRules[4..], JollyJoker) == Some(1);
      assert QuantityOf(EightRules[3..], JollyJoker) == Some(1);
      assert QuantityOf(EightRules[2..], JollyJoker) == Some(1);
      assert QuantityOf(EightRules[1..], JollyJoker) == Some(1);
    }
  }
}
