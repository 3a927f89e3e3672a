/** The debt ("dept") table of app/api/dept.py: the two filters and the
    settlement rule of update_dept_amount. */
module Depts {
  import opened Models
  import opened Format

  /** The debts recorded in group `g`. */
  function GroupDepts(depts: map<int, Dept>, g: int): (r: map<int, Dept>)
    ensures forall id :: id in r <==> id in depts && depts[id].groupId == g
    ensures forall id | id in r :: r[id] == depts[id]
  {
    map id | id in depts && depts[id].groupId == g :: depts[id]
  }

  /** The debts of group `g` in which `u` is the debtor or the lender. */
  function UserDepts(depts: map<int, Dept>, g: int, u: int): (r: map<int, Dept>)
    ensures forall id :: id in r <==>
      id in depts && depts[id].groupId == g && (depts[id].userId == u || depts[id].lenderId == u)
    ensures forall id | id in r :: r[id] == depts[id]
  {
    map id | id in depts && depts[id].groupId == g && (depts[id].userId == u || depts[id].lenderId == u) :: depts[id]
  }

  /** Every stored debt is still owed. */
  predicate AllPositive(depts: map<int, Dept>) {
    forall id | id in depts :: depts[id].amount > 0
  }

  const CompletelyPaid: string := "Dept completely paid successfully"
  const AmountLeftPrefix: string := "Dept updated successfully, amount left: "

  /** The debt table after a payment, and the response body. */
  datatype Settlement = Settlement(depts: map<int, Dept>, reply: Message)

  /** update_dept_amount: the debt is lowered by `paid`; at zero or below the
      record is deleted, otherwise the remainder is stored and reported. */
  function Settle(depts: map<int, Dept>, deptId: int, paid: int): (r: Result<Settlement>)
    ensures r.Err? <==> deptId !in depts
    ensures r.Err? ==> r.error == NotFound("Dept not found")
    ensures r.Ok? && depts[deptId].amount - paid <= 0 ==>
      r.value.depts == depts - {deptId} && r.value.reply == Message(CompletelyPaid)
    ensures r.Ok? && depts[deptId].amount - paid > 0 ==>
      && r.value.depts.Keys == depts.Keys
      && r.value.depts[deptId] == depts[deptId].(amount := depts[deptId].amount - paid)
      && r.value.reply == Message(AmountLeftPrefix + NatToDecimal(depts[deptId].amount - paid))
    ensures r.Ok? ==> forall id | id in depts && id != deptId :: id in r.value.depts && r.value.depts[id] == depts[id]
    ensures r.Ok? && AllPositive(depts) ==> AllPositive(r.value.depts)
  {
    if deptId !in depts then Err(NotFound("Dept not found"))
    else
      var left := depts[deptId].amount - paid;
      if left <= 0 then Ok(Settlement(depts - {deptId}, Message(CompletelyPaid)))
      else Ok(Settlement(depts[deptId := depts[deptId].(amount := left)], Message(AmountLeftPrefix + NatToDecimal(left))))
  }

  /** The remainder reported by a partial payment is exactly the stored one. */
  lemma {:induction false} AmountLeftIsStored(depts: map<int, Dept>, deptId: int, paid: int)
    requires deptId in depts && depts[deptId].amount - paid > 0
    ensures var r := Settle(depts, deptId, paid);
      && r.Ok?
      && |r.value.reply.message| > |AmountLeftPrefix|
      && r.value.reply.message[..|AmountLeftPrefix|] == AmountLeftPrefix
      && DecimalToNat(r.value.reply.message[|AmountLeftPrefix|..]) == r.value.depts[deptId].amount
  {
    var left := depts[deptId].amount - paid;
    var msg := Settle(depts, deptId, paid).value.reply.message;
    assert msg[|AmountLeftPrefix|..] == NatToDecimal(left);
    DecimalRoundTrip(left);
  }

  /** A debt of 100 paid down by 50: 50 is left, and the message says so. */
  lemma SettleHalf()
    ensures Settle(map[1 := Dept(1, 1, 2, 1, 100)], 1, 50)
         == Ok(Settlement(map[1 := Dept(1, 1, 2, 1, 50)], Message("Dept updated successfully, amount left: 50")))
  {
    assert NatToDecimal(5) == "5";
    assert NatToDecimal(50) == "50";
    assert AmountLeftPrefix + "50" == "Dept updated successfully, amount left: 50";
    assert map[1 := Dept(1, 1, 2, 1, 100)][1 := Dept(1, 1, 2, 1, 50)] == map[1 := Dept(1, 1, 2, 1, 50)];
  }
}
