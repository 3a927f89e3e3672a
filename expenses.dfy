/** The expense bookkeeping of app/api/expenses.py: a group's running
    `total_expenses` against the sum of the amounts of its stored expenses. */
module Expenses {
  import opened Models
  import opened Ids

  /** What expense `e` adds to the total of group `g`. */
  function Contribution(e: Expense, g: int): int {
    if e.groupId == g then e.amount else 0
  }

  /** Sum of the contributions to group `g` of the expenses stored under `ids`. */
  ghost function SumOver(es: map<int, Expense>, ids: set<int>, g: int): int
    requires ids <= es.Keys
    decreases ids
  {
    if ids == {} then 0
    else
      assert (forall x :: x !in ids) ==> ids == {};
      var id :| id in ids;
      Contribution(es[id], g) + SumOver(es, ids - {id}, g)
  }

  /** The amount of all expenses of group `g` in the expense table. */
  ghost function GroupExpenseSum(es: map<int, Expense>, g: int): int {
    SumOver(es, es.Keys, g)
  }

  /** The sum does not depend on which key is taken out first. */
  lemma {:induction false} SumOverRemove(es: map<int, Expense>, ids: set<int>, id: int, g: int)
    requires ids <= es.Keys && id in ids
    ensures SumOver(es, ids, g) == Contribution(es[id], g) + SumOver(es, ids - {id}, g)
    decreases ids
  {
    assert (forall x :: x !in ids) ==> ids == {};
    var y :| y in ids && SumOver(es, ids, g) == Contribution(es[y], g) + SumOver(es, ids - {y}, g);
    if y != id {
      SumOverRemove(es, ids - {y}, id, g);
      SumOverRemove(es, ids - {id}, y, g);
      assert ids - {y} - {id} == ids - {id} - {y};
    }
  }

  /** The sum reads only the rows under `ids`. */
  lemma {:induction false} SumOverFrame(es: map<int, Expense>, es': map<int, Expense>, ids: set<int>, g: int)
    requires ids <= es.Keys && ids <= es'.Keys
    requires forall id | id in ids :: es[id] == es'[id]
    ensures SumOver(es, ids, g) == SumOver(es', ids, g)
    decreases ids
  {
    if ids != {} {
      var y := PickOne(ids);
      SumOverRemove(es, ids, y, g);
      SumOverRemove(es', ids, y, g);
      SumOverFrame(es, es', ids - {y}, g);
    }
  }

  /** Rows of other groups contribute nothing. */
  lemma {:induction false} SumOverUnreferenced(es: map<int, Expense>, ids: set<int>, g: int)
    requires ids <= es.Keys
    requires forall id | id in ids :: es[id].groupId != g
    ensures SumOver(es, ids, g) == 0
    decreases ids
  {
    if ids != {} {
      var y := PickOne(ids);
      SumOverRemove(es, ids, y, g);
      SumOverUnreferenced(es, ids - {y}, g);
    }
  }

  /** Inserting an expense under a fresh key raises its group's sum by its amount. */
  lemma {:induction false} GroupExpenseSumInsert(es: map<int, Expense>, e: Expense, g: int)
    requires e.expenseId !in es
    ensures GroupExpenseSum(es[e.expenseId := e], g) == GroupExpenseSum(es, g) + Contribution(e, g)
  {
    var es' := es[e.expenseId := e];
    assert es'.Keys - {e.expenseId} == es.Keys;
    SumOverRemove(es', es'.Keys, e.expenseId, g);
    SumOverFrame(es', es, es.Keys, g);
  }

  /** Removing a stored expense lowers its group's sum by its amount. */
  lemma {:induction false} GroupExpenseSumRemove(es: map<int, Expense>, id: int, g: int)
    requires id in es
    ensures GroupExpenseSum(es - {id}, g) == GroupExpenseSum(es, g) - Contribution(es[id], g)
  {
    var es' := es - {id};
    assert es.Keys - {id} == es'.Keys;
    SumOverRemove(es, es.Keys, id, g);
    SumOverFrame(es, es', es'.Keys, g);
  }

  /** Every stored group's `total_expenses` equals the sum of its stored expenses. */
  ghost predicate TotalsTracked(groups: map<int, Group>, es: map<int, Expense>) {
    forall g | g in groups :: groups[g].totalExpenses == GroupExpenseSum(es, g)
  }

  /** Every stored expense names a stored group. */
  predicate NoOrphanExpenses(groups: map<int, Group>, es: map<int, Expense>) {
    forall id | id in es :: es[id].groupId in groups
  }

  /** No stored expense names group `g`. */
  predicate NoExpensesFor(es: map<int, Expense>, g: int) {
    forall id | id in es :: es[id].groupId != g
  }

  /** Every participant row names a stored expense. */
  predicate ParticipantsReferenceExpenses(ps: map<int, ExpenseParticipant>, es: map<int, Expense>) {
    forall id | id in ps :: ps[id].expenseId in es
  }

  /** `group.total_expenses += delta` when the group is stored; nothing otherwise. */
  function AdjustTotalExpenses(groups: map<int, Group>, g: int, delta: int): (r: map<int, Group>)
    ensures r.Keys == groups.Keys
    ensures forall h | h in groups && h != g :: r[h] == groups[h]
    ensures g in groups ==>
      r[g] == groups[g].(totalExpenses := groups[g].totalExpenses + delta)
  {
    if g in groups then groups[g := groups[g].(totalExpenses := groups[g].totalExpenses + delta)] else groups
  }

  /** The participant table after every row of expense `expenseId` is deleted. */
  function WithoutParticipantsOf(ps: map<int, ExpenseParticipant>, expenseId: int): (r: map<int, ExpenseParticipant>)
    ensures forall id :: id in r <==> id in ps && ps[id].expenseId != expenseId
    ensures forall id | id in r :: r[id] == ps[id]
  {
    map id | id in ps && ps[id].expenseId != expenseId :: ps[id]
  }

  /** Deleting an expense together with its participant rows keeps every
      remaining row pointing at a stored expense. */
  lemma {:induction false} DeleteKeepsReferences(ps: map<int, ExpenseParticipant>, es: map<int, Expense>, id: int)
    requires ParticipantsReferenceExpenses(ps, es)
    ensures ParticipantsReferenceExpenses(WithoutParticipantsOf(ps, id), es - {id})
  {
  }

  /** create_expense keeps every stored group's total equal to its expense sum. */
  lemma {:induction false} CreateKeepsTotalsTracked(groups: map<int, Group>, es: map<int, Expense>, e: Expense)
    requires e.expenseId !in es
    requires TotalsTracked(groups, es)
    ensures TotalsTracked(AdjustTotalExpenses(groups, e.groupId, e.amount), es[e.expenseId := e])
  {
    var groups' := AdjustTotalExpenses(groups, e.groupId, e.amount);
    forall g | g in groups'
      ensures groups'[g].totalExpenses == GroupExpenseSum(es[e.expenseId := e], g)
    {
      GroupExpenseSumInsert(es, e, g);
    }
  }

  /** delete_expense keeps every stored group's total equal to its expense sum. */
  lemma {:induction false} DeleteKeepsTotalsTracked(groups: map<int, Group>, es: map<int, Expense>, id: int)
    requires id in es
    requires TotalsTracked(groups, es)
    ensures TotalsTracked(AdjustTotalExpenses(groups, es[id].groupId, -es[id].amount), es - {id})
  {
    var groups' := AdjustTotalExpenses(groups, es[id].groupId, -es[id].amount);
    forall g | g in groups'
      ensures groups'[g].totalExpenses == GroupExpenseSum(es - {id}, g)
    {
      GroupExpenseSumRemove(es, id, g);
    }
  }

  /** delete_expense keeps both expense invariants whenever they held before:
      the group totals and the rule that every expense names a stored group. */
  lemma {:induction false} DeleteKeepsExpenseInvariants(groups: map<int, Group>, es: map<int, Expense>, id: int)
    requires id in es
    ensures TotalsTracked(groups, es) ==>
      TotalsTracked(AdjustTotalExpenses(groups, es[id].groupId, -es[id].amount), es - {id})
    ensures NoOrphanExpenses(groups, es) ==>
      NoOrphanExpenses(AdjustTotalExpenses(groups, es[id].groupId, -es[id].amount), es - {id})
  {
    if TotalsTracked(groups, es) {
      DeleteKeepsTotalsTracked(groups, es, id);
    }
  }

  /** A new group with total 0 is tracked when no stored expense already names it. */
  lemma {:induction false} NewGroupKeepsTotalsTracked(groups: map<int, Group>, es: map<int, Expense>, grp: Group)
    requires TotalsTracked(groups, es)
    requires grp.totalExpenses == 0
    requires NoExpensesFor(es, grp.groupId)
    ensures TotalsTracked(groups[grp.groupId := grp], es)
  {
    SumOverUnreferenced(es, es.Keys, grp.groupId);
  }

  /** Changing a stored group's other columns leaves the expense invariants as they were. */
  lemma {:induction false} SameTotalKeepsTracked(groups: map<int, Group>, es: map<int, Expense>, grp: Group)
    requires grp.groupId in groups && grp.totalExpenses == groups[grp.groupId].totalExpenses
    ensures TotalsTracked(groups[grp.groupId := grp], es) == TotalsTracked(groups, es)
    ensures NoOrphanExpenses(groups[grp.groupId := grp], es) == NoOrphanExpenses(groups, es)
  {
    assert groups[grp.groupId := grp].Keys == groups.Keys;
  }

  /** create_expense followed by delete_expense of the new row restores the
      group totals, the expense table and the participant table. */
  lemma {:induction false} CreateThenDeleteRestores(
    groups: map<int, Group>, es: map<int, Expense>, ps: map<int, ExpenseParticipant>, e: Expense)
    requires e.expenseId !in es
    requires ParticipantsReferenceExpenses(ps, es)
    ensures AdjustTotalExpenses(AdjustTotalExpenses(groups, e.groupId, e.amount), e.groupId, -e.amount) == groups
    ensures es[e.expenseId := e] - {e.expenseId} == es
    ensures WithoutParticipantsOf(ps, e.expenseId) == ps
  {
    assert es[e.expenseId := e] - {e.expenseId} == es;
    assert forall id | id in ps :: ps[id].expenseId != e.expenseId;
    assert WithoutParticipantsOf(ps, e.expenseId).Keys == ps.Keys;
  }
}
