/** The record-keeping layer behind the HTTP routes: one store of six tables
    and one operation per route of the five route files under app/api. Each call is one state
    transition; a raised HTTPException is an `Err` result. */
module Api {
  import opened Models
  import opened Ids
  import opened Users
  import opened Groups
  import opened Expenses
  import opened Depts
  import opened Format

  /** list_group_depts answers `{}` when the group has no debts, a list otherwise. */
  datatype DeptListing = EmptyObject | Rows(rows: map<int, Dept>)

  datatype LoginReply = LoginReply(status: string, userId: int, email: string)

  /** One entry of get_user_expenses: a participant row merged with its expense's details. */
  datatype UserExpense = UserExpense(participant: ExpenseParticipant, expenseDescription: string, expenseAmount: int)

  const InternalError: HttpError := HttpError(InternalServerError, "Internal Server Error")

  /** The consistency every route keeps: each row stored under its own key,
      the unique columns, unique memberships, `total_members` equal to the
      membership count, and participant rows pointing at stored expenses. */
  ghost predicate TablesValid(
    users: map<int, User>, groups: map<int, Group>, memberships: map<int, GroupMembership>,
    expenses: map<int, Expense>, participants: map<int, ExpenseParticipant>, depts: map<int, Dept>)
  {
    && (forall id | id in users :: users[id].userId == id)
    && (forall id | id in groups :: groups[id].groupId == id)
    && (forall id | id in memberships :: memberships[id].membershipId == id)
    && (forall id | id in expenses :: expenses[id].expenseId == id)
    && (forall id | id in participants :: participants[id].expenseParticipantId == id)
    && (forall id | id in depts :: depts[id].deptId == id)
    && UniqueUsernames(users) && UniqueEmails(users)
    && MembershipsConsistent(groups, memberships)
    && ParticipantsReferenceExpenses(participants, expenses)
  }

  /** Adjusting `total_expenses` leaves the membership invariants alone. */
  lemma {:induction false} AdjustKeepsMemberships(groups: map<int, Group>, ms: map<int, GroupMembership>, g: int, delta: int)
    requires MembershipsConsistent(groups, ms)
    ensures MembershipsConsistent(AdjustTotalExpenses(groups, g, delta), ms)
  {
    var groups' := AdjustTotalExpenses(groups, g, delta);
    assert forall h | h in groups' :: groups'[h].totalMembers == groups[h].totalMembers;
  }

  lemma {:induction false} CreateUserKeepsValid(
    users: map<int, User>, groups: map<int, Group>, memberships: map<int, GroupMembership>,
    expenses: map<int, Expense>, participants: map<int, ExpenseParticipant>, depts: map<int, Dept>, u: User)
    requires TablesValid(users, groups, memberships, expenses, participants, depts)
    requires u.userId !in users && !UsernameTaken(users, u.username) && !EmailTaken(users, u.email)
    ensures TablesValid(users[u.userId := u], groups, memberships, expenses, participants, depts)
  {
    UserInsertKeepsUnique(users, u);
  }

  lemma {:induction false} CreateGroupKeepsValid(
    users: map<int, User>, groups: map<int, Group>, memberships: map<int, GroupMembership>,
    expenses: map<int, Expense>, participants: map<int, ExpenseParticipant>, depts: map<int, Dept>,
    grp: Group, m: GroupMembership)
    requires TablesValid(users, groups, memberships, expenses, participants, depts)
    requires grp.groupId !in groups && grp.totalMembers == 1
    requires m.membershipId !in memberships && m.groupId == grp.groupId
    ensures TablesValid(users, groups[grp.groupId := grp], memberships[m.membershipId := m], expenses, participants, depts)
    ensures MemberCount(memberships[m.membershipId := m], grp.groupId) == 1
  {
    CreateGroupKeepsMemberships(groups, memberships, grp, m);
  }

  lemma {:induction false} AddMemberKeepsValid(
    users: map<int, User>, groups: map<int, Group>, memberships: map<int, GroupMembership>,
    expenses: map<int, Expense>, participants: map<int, ExpenseParticipant>, depts: map<int, Dept>,
    m: GroupMembership)
    requires TablesValid(users, groups, memberships, expenses, participants, depts)
    requires m.groupId in groups && m.membershipId !in memberships
    requires !IsMember(memberships, m.groupId, m.userId)
    ensures TablesValid(users,
      groups[m.groupId := groups[m.groupId].(totalMembers := groups[m.groupId].totalMembers + 1)],
      memberships[m.membershipId := m], expenses, participants, depts)
    ensures IsMember(memberships[m.membershipId := m], m.groupId, m.userId)
  {
    AddMemberKeepsMemberships(groups, memberships, m);
    assert memberships[m.membershipId := m][m.membershipId] == m;
  }

  lemma {:induction false} CreateExpenseKeepsValid(
    users: map<int, User>, groups: map<int, Group>, memberships: map<int, GroupMembership>,
    expenses: map<int, Expense>, participants: map<int, ExpenseParticipant>, depts: map<int, Dept>, e: Expense)
    requires TablesValid(users, groups, memberships, expenses, participants, depts)
    requires e.expenseId !in expenses
    ensures TablesValid(users, AdjustTotalExpenses(groups, e.groupId, e.amount), memberships,
      expenses[e.expenseId := e], participants, depts)
  {
    AdjustKeepsMemberships(groups, memberships, e.groupId, e.amount);
  }

  lemma {:induction false} DeleteExpenseKeepsValid(
    users: map<int, User>, groups: map<int, Group>, memberships: map<int, GroupMembership>,
    expenses: map<int, Expense>, participants: map<int, ExpenseParticipant>, depts: map<int, Dept>, id: int)
    requires TablesValid(users, groups, memberships, expenses, participants, depts)
    requires id in expenses
    ensures TablesValid(users, AdjustTotalExpenses(groups, expenses[id].groupId, -expenses[id].amount), memberships,
      expenses - {id}, WithoutParticipantsOf(participants, id), depts)
  {
    AdjustKeepsMemberships(groups, memberships, expenses[id].groupId, -expenses[id].amount);
    DeleteKeepsReferences(participants, expenses, id);
  }

  lemma {:induction false} DeptsChangeKeepsValid(
    users: map<int, User>, groups: map<int, Group>, memberships: map<int, GroupMembership>,
    expenses: map<int, Expense>, participants: map<int, ExpenseParticipant>, depts: map<int, Dept>,
    depts': map<int, Dept>)
    requires TablesValid(users, groups, memberships, expenses, participants, depts)
    requires forall id | id in depts' :: depts'[id].deptId == id
    ensures TablesValid(users, groups, memberships, expenses, participants, depts')
  {
  }

  class Store {
    var users: map<int, User>
    var groups: map<int, Group>
    var memberships: map<int, GroupMembership>
    var expenses: map<int, Expense>
    var participants: map<int, ExpenseParticipant>
    var depts: map<int, Dept>

    ghost predicate Valid()
      reads this
    {
      TablesValid(users, groups, memberships, expenses, participants, depts)
    }

    /** Every group's `total_expenses` equals the sum of its stored expenses. */
    ghost predicate ExpenseTotalsTracked()
      reads this
    {
      TotalsTracked(groups, expenses)
    }

    /** The expense invariant together with "no expense names a missing group",
        which is what keeps it through create_group. */
    ghost predicate Consistent()
      reads this
    {
      ExpenseTotalsTracked() && NoOrphanExpenses(groups, expenses)
    }

    /** An empty database. */
    constructor ()
      ensures Valid() && Consistent()
      ensures users == map[] && groups == map[] && memberships == map[]
      ensures expenses == map[] && participants == map[] && depts == map[]
    {
      users, groups, memberships := map[], map[], map[];
      expenses, participants, depts := map[], map[], map[];
    }

    // ---------------------------------------------------------------- auth

    /** login: the user with that username, if its password matches. */
    function Login(username: string, password: string): (r: Result<LoginReply>)
      reads this
      requires Valid()
      ensures r.Ok? <==> exists id | id in users :: users[id].username == username && users[id].password == password
      ensures r.Ok? ==>
        && r.value.status == "success"
        && r.value.userId in users
        && users[r.value.userId].username == username
        && users[r.value.userId].password == password
        && r.value.email == users[r.value.userId].email
      ensures r.Err? ==> r.error == HttpError(Unauthorized, "Incorrect username or password")
    {
      var found := GetUserByUsername(username);
      if found.Err? || found.value.password != password then
        Err(HttpError(Unauthorized, "Incorrect username or password"))
      else
        Ok(LoginReply("success", found.value.userId, found.value.email))
    }

    // --------------------------------------------------------------- users

    /** get_users: every stored user. */
    function GetUsers(): (r: map<int, User>)
      reads this
      ensures forall id :: id in r <==> id in users
      ensures forall id | id in r :: r[id] == users[id]
    {
      users
    }

    /** get_user_by_username: the one user with that username. */
    function GetUserByUsername(username: string): (r: Result<User>)
      reads this
      requires Valid()
      ensures r.Ok? <==> UsernameTaken(users, username)
      ensures r.Ok? ==> r.value.username == username && r.value.userId in users && users[r.value.userId] == r.value
      ensures r.Err? ==> r.error == NotFound("User not found")
    {
      if UsernameTaken(users, username) then
        var id :| id in users && users[id].username == username;
        Ok(users[id])
      else
        Err(NotFound("User not found"))
    }

    /** get_user: the user stored under `userId`. */
    function GetUser(userId: int): (r: Result<User>)
      reads this
      requires Valid()
      ensures r.Ok? <==> userId in users
      ensures r.Ok? ==> r.value.userId == userId && r.value == users[userId]
      ensures r.Err? ==> r.error == NotFound("User not found")
    {
      if userId in users then Ok(users[userId]) else Err(NotFound("User not found"))
    }

    /** create_user: rejects a taken username, then a taken email; otherwise
        stores the user, password as given, under a fresh key. */
    method CreateUser(username: string, password: string, email: string) returns (r: Result<User>)
      requires Valid()
      modifies this
      ensures Valid() && (old(Consistent()) ==> Consistent())
      ensures UsernameTaken(old(users), username) ==> r == Err(HttpError(BadRequest, "Username already exists"))
      ensures !UsernameTaken(old(users), username) && EmailTaken(old(users), email) ==>
        r == Err(HttpError(BadRequest, "Email already registered"))
      ensures r.Ok? <==> !UsernameTaken(old(users), username) && !EmailTaken(old(users), email)
      ensures r.Err? ==> users == old(users)
      ensures r.Ok? ==>
        && r.value == User(NextId(old(users).Keys), username, password, email)
        && r.value.userId !in old(users)
        && users == old(users)[r.value.userId := r.value]
      ensures groups == old(groups) && memberships == old(memberships) && expenses == old(expenses)
      ensures participants == old(participants) && depts == old(depts)
    {
      if UsernameTaken(users, username) {
        return Err(HttpError(BadRequest, "Username already exists"));
      }
      if EmailTaken(users, email) {
        return Err(HttpError(BadRequest, "Email already registered"));
      }
      var u := User(NextId(users.Keys), username, password, email);
      var users' := users[u.userId := u];
      CreateUserKeepsValid(users, groups, memberships, expenses, participants, depts, u);
      assert TablesValid(users', groups, memberships, expenses, participants, depts);
      users := users';
      r := Ok(u);
    }

    /** get_user_groups: the groups in which the user has a membership. */
    function GetUserGroups(userId: int): (r: Result<map<int, Group>>)
      reads this
      ensures r.Err? <==> userId !in users
      ensures r.Err? ==> r.error == NotFound("User not found")
      ensures r.Ok? ==> forall g :: g in r.value <==> g in groups && IsMember(memberships, g, userId)
      ensures r.Ok? ==> forall g | g in r.value :: r.value[g] == groups[g]
    {
      if userId !in users then Err(NotFound("User not found"))
      else Ok(map g | g in groups && IsMember(memberships, g, userId) :: groups[g])
    }

    /** Keys of the participant rows of user `userId`. */
    function ParticipantKeysOf(userId: int): set<int>
      reads this
    {
      set id | id in participants && participants[id].userId == userId
    }

    /** The entry get_user_expenses builds for participant row `pid`. */
    function EntryFor(pid: int): UserExpense
      reads this
      requires pid in participants && participants[pid].expenseId in expenses
    {
      var p := participants[pid];
      UserExpense(p, expenses[p.expenseId].description, expenses[p.expenseId].amount)
    }

    /** get_user_expenses: one entry per participant row of the user, in key
        order; a row whose expense is missing makes the route fail. */
    method GetUserExpenses(userId: int) returns (r: Result<seq<UserExpense>>, ghost keys: seq<int>)
      ensures userId !in users ==> r == Err(NotFound("User not found"))
      ensures r.Ok? <==> userId in users && forall pid | pid in ParticipantKeysOf(userId) :: participants[pid].expenseId in expenses
      ensures r.Err? && userId in users ==> r.error == InternalError
      ensures r.Ok? ==>
        && |r.value| == |keys|
        && (forall i | 0 <= i < |keys| :: keys[i] in ParticipantKeysOf(userId))
        && (forall pid | pid in ParticipantKeysOf(userId) :: pid in keys)
        && (forall i, j | 0 <= i < j < |keys| :: keys[i] < keys[j])
        && (forall i | 0 <= i < |keys| :: participants[keys[i]].expenseId in expenses && r.value[i] == EntryFor(keys[i]))
    {
      keys := [];
      if userId !in users {
        return Err(NotFound("User not found")), keys;
      }
      var remaining := ParticipantKeysOf(userId);
      var rows: seq<UserExpense> := [];
      while remaining != {}
        invariant remaining <= ParticipantKeysOf(userId)
        invariant forall pid | pid in ParticipantKeysOf(userId) :: pid in keys || pid in remaining
        invariant forall i | 0 <= i < |keys| :: keys[i] in ParticipantKeysOf(userId)
        invariant |rows| == |keys|
        invariant forall i | 0 <= i < |keys| :: participants[keys[i]].expenseId in expenses && rows[i] == EntryFor(keys[i])
        invariant forall i, j | 0 <= i < j < |keys| :: keys[i] < keys[j]
        invariant forall i, k | 0 <= i < |keys| && k in remaining :: keys[i] < k
        decreases remaining
      {
        var pid := MinOf(remaining);
        var p := participants[pid];
        if p.expenseId !in expenses {
          return Err(InternalError), keys;
        }
        rows := rows + [UserExpense(p, expenses[p.expenseId].description, expenses[p.expenseId].amount)];
        keys := keys + [pid];
        remaining := remaining - {pid};
      }
      r := Ok(rows);
    }

    // -------------------------------------------------------------- groups

    /** get_groups: every stored group. */
    function GetGroups(): (r: map<int, Group>)
      reads this
      ensures forall id :: id in r <==> id in groups
      ensures forall id | id in r :: r[id] == groups[id]
    {
      groups
    }

    /** get_group: the group stored under `groupId`. */
    function GetGroup(groupId: int): (r: Result<Group>)
      reads this
      requires Valid()
      ensures r.Ok? <==> groupId in groups
      ensures r.Ok? ==> r.value.groupId == groupId && r.value == groups[groupId]
      ensures r.Ok? ==> r.value.totalMembers == MemberCount(memberships, groupId) >= 1
      ensures r.Err? ==> r.error == NotFound("Group not found")
    {
      if groupId in groups then Ok(groups[groupId]) else Err(NotFound("Group not found"))
    }

    /** create_group: for a stored creator, a new group with the column
        defaults and an admin membership of the creator. */
    method CreateGroup(groupName: string, createdBy: int) returns (r: Result<Group>)
      requires Valid()
      modifies this
      ensures Valid()
      ensures r.Err? <==> createdBy !in old(users)
      ensures r.Err? ==> r.error == NotFound("User not found") && groups == old(groups) && memberships == old(memberships)
      ensures r.Ok? ==>
        && r.value == NewGroup(NextId(old(groups).Keys), groupName, createdBy)
        && r.value.groupId !in old(groups)
        && groups == old(groups)[r.value.groupId := r.value]
        && memberships == old(memberships)[NextId(old(memberships).Keys) :=
             GroupMembership(NextId(old(memberships).Keys), r.value.groupId, createdBy, true)]
        && MemberCount(memberships, r.value.groupId) == 1
      ensures users == old(users) && expenses == old(expenses) && participants == old(participants) && depts == old(depts)
      ensures old(ExpenseTotalsTracked()) && NoExpensesFor(old(expenses), NextId(old(groups).Keys)) ==> ExpenseTotalsTracked()
      ensures old(Consistent()) ==> Consistent()
    {
      if createdBy !in users {
        return Err(NotFound("User not found"));
      }
      var g := NewGroup(NextId(groups.Keys), groupName, createdBy);
      var m := GroupMembership(NextId(memberships.Keys), g.groupId, createdBy, true);
      var groups', memberships' := groups[g.groupId := g], memberships[m.membershipId := m];
      CreateGroupKeepsValid(users, groups, memberships, expenses, participants, depts, g, m);
      if ExpenseTotalsTracked() && NoExpensesFor(expenses, g.groupId) {
        NewGroupKeepsTotalsTracked(groups, expenses, g);
      }
      assert TablesValid(users, groups', memberships', expenses, participants, depts);
      groups, memberships := groups', memberships';
      r := Ok(g);
    }

    /** add_group_member: checks the user, then the group, then that the pair
        has no membership; then counts one more member and stores a
        non-admin membership. */
    method AddGroupMember(groupId: int, userId: int) returns (r: Result<GroupMembership>)
      requires Valid()
      modifies this
      ensures Valid() && (old(Consistent()) ==> Consistent())
      ensures userId !in old(users) ==> r == Err(NotFound("User not found"))
      ensures userId in old(users) && groupId !in old(groups) ==> r == Err(NotFound("Group not found"))
      ensures userId in old(users) && groupId in old(groups) && IsMember(old(memberships), groupId, userId) ==>
        r == Err(NotFound("Already in group"))
      ensures r.Ok? <==> userId in old(users) && groupId in old(groups) && !IsMember(old(memberships), groupId, userId)
      ensures r.Err? ==> groups == old(groups) && memberships == old(memberships)
      ensures r.Ok? ==>
        && r.value == NewMembership(NextId(old(memberships).Keys), groupId, userId)
        && memberships == old(memberships)[r.value.membershipId := r.value]
        && groups == old(groups)[groupId := old(groups)[groupId].(totalMembers := old(groups)[groupId].totalMembers + 1)]
        && IsMember(memberships, groupId, userId)
      ensures users == old(users) && expenses == old(expenses) && participants == old(participants) && depts == old(depts)
    {
      if userId !in users {
        return Err(NotFound("User not found"));
      }
      if groupId !in groups {
        return Err(NotFound("Group not found"));
      }
      if IsMember(memberships, groupId, userId) {
        return Err(NotFound("Already in group"));
      }
      var grp := groups[groupId].(totalMembers := groups[groupId].totalMembers + 1);
      var m := NewMembership(NextId(memberships.Keys), groupId, userId);
      var groups', memberships' := groups[groupId := grp], memberships[m.membershipId := m];
      AddMemberKeepsValid(users, groups, memberships, expenses, participants, depts, m);
      SameTotalKeepsTracked(groups, expenses, grp);
      assert TablesValid(users, groups', memberships', expenses, participants, depts);
      groups, memberships := groups', memberships';
      r := Ok(m);
    }

    // ------------------------------------------------------------ expenses

    /** get_expenses: every stored expense. */
    function GetExpenses(): (r: map<int, Expense>)
      reads this
      ensures forall id :: id in r <==> id in expenses
      ensures forall id | id in r :: r[id] == expenses[id]
    {
      expenses
    }

    /** get_expense: the expense stored under `expenseId`. */
    function GetExpense(expenseId: int): (r: Result<Expense>)
      reads this
      requires Valid()
      ensures r.Ok? <==> expenseId in expenses
      ensures r.Ok? ==> r.value.expenseId == expenseId && r.value == expenses[expenseId]
      ensures r.Err? ==> r.error == NotFound("Expense not found")
    {
      if expenseId in expenses then Ok(expenses[expenseId]) else Err(NotFound("Expense not found"))
    }

    /** create_expense as written: stores the expense without checking the
        group or the creator's membership, and adds its amount to the
        group's total when the group is stored. */
    method CreateExpense(groupId: int, description: string, amount: int, createdBy: int) returns (e: Expense)
      requires Valid()
      modifies this
      ensures Valid()
      ensures e == Expense(NextId(old(expenses).Keys), groupId, description, amount, createdBy)
      ensures e.expenseId !in old(expenses)
      ensures expenses == old(expenses)[e.expenseId := e]
      ensures groups == AdjustTotalExpenses(old(groups), groupId, amount)
      ensures users == old(users) && memberships == old(memberships) && participants == old(participants) && depts == old(depts)
      ensures old(ExpenseTotalsTracked()) ==> ExpenseTotalsTracked()
      ensures old(Consistent()) && groupId in old(groups) ==> Consistent()
    {
      e := Expense(NextId(expenses.Keys), groupId, description, amount, createdBy);
      var groups', expenses' := AdjustTotalExpenses(groups, groupId, amount), expenses[e.expenseId := e];
      CreateExpenseKeepsValid(users, groups, memberships, expenses, participants, depts, e);
      if ExpenseTotalsTracked() {
        CreateKeepsTotalsTracked(groups, expenses, e);
      }
      assert TablesValid(users, groups', memberships, expenses', participants, depts);
      groups, expenses := groups', expenses';
    }

    /** create_expense with the checks its tests expect: the creator must be
        a member of the group, then the group must exist. */
    method CreateExpenseChecked(groupId: int, description: string, amount: int, createdBy: int) returns (r: Result<Expense>)
      requires Valid()
      modifies this
      ensures Valid() && (old(Consistent()) ==> Consistent())
      ensures !IsMember(old(memberships), groupId, createdBy) ==> r == Err(NotFound("User not in Group"))
      ensures IsMember(old(memberships), groupId, createdBy) && groupId !in old(groups) ==> r == Err(NotFound("Group not found"))
      ensures r.Ok? <==> IsMember(old(memberships), groupId, createdBy) && groupId in old(groups)
      ensures r.Err? ==> expenses == old(expenses) && groups == old(groups)
      ensures r.Ok? ==>
        && r.value == Expense(NextId(old(expenses).Keys), groupId, description, amount, createdBy)
        && expenses == old(expenses)[r.value.expenseId := r.value]
        && groups == AdjustTotalExpenses(old(groups), groupId, amount)
      ensures users == old(users) && memberships == old(memberships) && participants == old(participants) && depts == old(depts)
    {
      if !IsMember(memberships, groupId, createdBy) {
        return Err(NotFound("User not in Group"));
      }
      if groupId !in groups {
        return Err(NotFound("Group not found"));
      }
      var e := CreateExpense(groupId, description, amount, createdBy);
      r := Ok(e);
    }

    /** delete_expense: takes the amount off the group's total when the group
        is stored, deletes the expense's participant rows one by one, then
        the expense. */
    method DeleteExpense(expenseId: int) returns (r: Result<Message>)
      requires Valid()
      modifies this
      ensures Valid()
      ensures r.Err? <==> expenseId !in old(expenses)
      ensures r.Err? ==>
        && r.error == NotFound("Expense not found")
        && groups == old(groups) && expenses == old(expenses) && participants == old(participants)
      ensures r.Ok? ==>
        && r.value == Message("Expense deleted successfully")
        && groups == AdjustTotalExpenses(old(groups), old(expenses)[expenseId].groupId, -old(expenses)[expenseId].amount)
        && expenses == old(expenses) - {expenseId}
        && participants == WithoutParticipantsOf(old(participants), expenseId)
      ensures users == old(users) && memberships == old(memberships) && depts == old(depts)
      ensures TotalsTracked(old(groups), old(expenses)) ==> TotalsTracked(groups, expenses)
      ensures NoOrphanExpenses(old(groups), old(expenses)) ==> NoOrphanExpenses(groups, expenses)
    {
      if expenseId !in expenses {
        return Err(NotFound("Expense not found"));
      }
      var e := expenses[expenseId];
      ghost var ps := participants;
      DeleteParticipantsOf(expenseId);
      DeleteExpenseKeepsValid(users, groups, memberships, expenses, ps, depts, expenseId);
      DeleteKeepsExpenseInvariants(groups, expenses, expenseId);
      groups, expenses := AdjustTotalExpenses(groups, e.groupId, -e.amount), expenses - {expenseId};
      r := Ok(Message("Expense deleted successfully"));
    }

    /** The loop of delete_expense: deletes the participant rows of the
        expense one at a time. */
    method DeleteParticipantsOf(expenseId: int)
      modifies this`participants
      ensures participants == WithoutParticipantsOf(old(participants), expenseId)
    {
      var doomed := set id | id in participants && participants[id].expenseId == expenseId;
      while doomed != {}
        invariant doomed <= participants.Keys
        invariant forall id | id in participants :: id in old(participants) && participants[id] == old(participants)[id]
        invariant forall id | id in participants :: participants[id].expenseId != expenseId || id in doomed
        invariant forall id | id in old(participants) && old(participants)[id].expenseId != expenseId :: id in participants
        decreases doomed
      {
        assert (forall x :: x !in doomed) ==> doomed == {};
        var pid :| pid in doomed;
        participants := participants - {pid};
        doomed := doomed - {pid};
      }
      ghost var kept := WithoutParticipantsOf(old(participants), expenseId);
      assert forall id :: id !in doomed;
      assert forall id | id in participants :: id in kept;
      assert forall id | id in kept :: id in participants;
      assert participants.Keys == kept.Keys;
      assert forall id | id in participants :: participants[id] == kept[id];
    }

    /** The lookups create_expense_participant makes before it computes the
        even share: the expense, then the user, then the expense's group,
        whose member count is the divisor. */
    function CheckExpenseParticipant(expenseId: int, userId: int): (r: Result<Group>)
      reads this
      ensures expenseId !in expenses ==> r == Err(NotFound("Expense not found"))
      ensures expenseId in expenses && userId !in users ==> r == Err(NotFound("User not found"))
      ensures expenseId in expenses && userId in users && expenses[expenseId].groupId !in groups ==>
        r == Err(NotFound("Group not found"))
      ensures r.Ok? <==> expenseId in expenses && userId in users && expenses[expenseId].groupId in groups
      ensures r.Ok? ==> r.value == groups[expenses[expenseId].groupId]
      ensures r.Ok? && Valid() ==> r.value.totalMembers >= 1
    {
      if expenseId !in expenses then Err(NotFound("Expense not found"))
      else if userId !in users then Err(NotFound("User not found"))
      else if expenses[expenseId].groupId !in groups then Err(NotFound("Group not found"))
      else Ok(groups[expenses[expenseId].groupId])
    }

    // --------------------------------------------------------------- depts

    /** list_group_depts: the group's debts, or `{}` when it has none. */
    function ListGroupDepts(groupId: int): (r: DeptListing)
      reads this
      ensures r.EmptyObject? <==> forall id | id in depts :: depts[id].groupId != groupId
      ensures r.Rows? ==> r.rows == GroupDepts(depts, groupId) && r.rows.Keys != {}
    {
      if exists id | id in depts :: depts[id].groupId == groupId then Rows(GroupDepts(depts, groupId))
      else EmptyObject
    }

    /** list_user_depts: the group's debts in which the user owes or lends;
        none at all is an error. */
    function ListUserDepts(groupId: int, userId: int): (r: Result<map<int, Dept>>)
      reads this
      ensures r.Err? <==> forall id | id in depts ::
        !(depts[id].groupId == groupId && (depts[id].userId == userId || depts[id].lenderId == userId))
      ensures r.Err? ==> r.error == NotFound("No depts found for the given user ID")
      ensures r.Ok? ==> r.value == UserDepts(depts, groupId, userId) && r.value.Keys != {}
    {
      if exists id | id in depts :: depts[id].groupId == groupId && (depts[id].userId == userId || depts[id].lenderId == userId)
      then Ok(UserDepts(depts, groupId, userId))
      else Err(NotFound("No depts found for the given user ID"))
    }

    /** delete_dept: removes exactly the named debt. */
    method DeleteDept(deptId: int) returns (r: Result<Message>)
      requires Valid()
      modifies this
      ensures Valid() && (old(Consistent()) ==> Consistent())
      ensures r.Err? <==> deptId !in old(depts)
      ensures r.Err? ==> r.error == NotFound("Dept not found") && depts == old(depts)
      ensures r.Ok? ==> r.value == Message("Dept deleted successfully") && depts == old(depts) - {deptId}
      ensures AllPositive(old(depts)) ==> AllPositive(depts)
      ensures users == old(users) && groups == old(groups) && memberships == old(memberships)
      ensures expenses == old(expenses) && participants == old(participants)
    {
      if deptId !in depts {
        return Err(NotFound("Dept not found"));
      }
      var depts' := depts - {deptId};
      DeptsChangeKeepsValid(users, groups, memberships, expenses, participants, depts, depts');
      assert TablesValid(users, groups, memberships, expenses, participants, depts');
      depts := depts';
      r := Ok(Message("Dept deleted successfully"));
    }

    /** update_dept_amount: settles a payment against the named debt by the rule `Settle`. */
    method UpdateDeptAmount(deptId: int, paid: int) returns (r: Result<Message>)
      requires Valid()
      modifies this
      ensures Valid() && (old(Consistent()) ==> Consistent())
      ensures Settle(old(depts), deptId, paid).Err? ==>
        r == Err(Settle(old(depts), deptId, paid).error) && depts == old(depts)
      ensures Settle(old(depts), deptId, paid).Ok? ==>
        r == Ok(Settle(old(depts), deptId, paid).value.reply) && depts == Settle(old(depts), deptId, paid).value.depts
      ensures AllPositive(old(depts)) ==> AllPositive(depts)
      ensures users == old(users) && groups == old(groups) && memberships == old(memberships)
      ensures expenses == old(expenses) && participants == old(participants)
    {
      if deptId !in depts {
        return Err(NotFound("Dept not found"));
      }
      var left := depts[deptId].amount - paid;
      if left <= 0 {
        DeptsChangeKeepsValid(users, groups, memberships, expenses, participants, depts, depts - {deptId});
        depts := depts - {deptId};
        r := Ok(Message(CompletelyPaid));
      } else {
        DeptsChangeKeepsValid(users, groups, memberships, expenses, participants, depts,
          depts[deptId := depts[deptId].(amount := left)]);
        depts := depts[deptId := depts[deptId].(amount := left)];
        r := Ok(Message(AmountLeftPrefix + NatToDecimal(left)));
      }
    }
  }

  /** create_expense as written accepts an expense for a group that does not
      exist yet. Once that group is created (with a total of 0) and the
      expense deleted again, the group's `total_expenses` is -100 although it
      never had an expense: the running total no longer matches its expenses. */
  method ExpenseBeforeGroupScenario() returns (s: Store)
    ensures s.Valid()
    ensures s.expenses == map[]
    ensures 1 in s.groups && s.groups[1].totalExpenses == -100
    ensures !TotalsTracked(s.groups, s.expenses)
  {
    s := new Store();
    var u := s.CreateUser("alice", "secret", "alice@example.com");
    var e := s.CreateExpense(1, "dinner", 100, 1);
    var g := s.CreateGroup("trip", 1);
    var d := s.DeleteExpense(1);
    assert GroupExpenseSum(s.expenses, 1) == 0;
  }
}
