# Lazy-split backend: the record-keeping layer in Dafny

This project models the backend of a shared-expense tracker: the routes of
`app/api` acting on six database tables. The tables are users, groups,
group memberships, expenses, expense participants and debts (the code calls
them "depts"). All six live in one `Api.Store` object as maps from primary
key to row. Each route is one member of `Store`. A route that writes to the
database is a `method` with `modifies this`. A route that only reads is a
`function` with `reads this`, except `GetUserExpenses`: it is a `method`
whose loop follows the source's `for` over the user's participant rows. A raised `HTTPException` is an `Err` result
carrying the status code and the detail text.

Files:

- `models.dfy` (module `Models`): the row datatypes, the column defaults of
  a new group and a new membership, `HttpError` and `Result`.
- `ids.dfy` (module `Ids`): primary-key allocation. A new row gets the
  largest key in use plus one, or 1 in an empty table.
- `users.dfy` (module `Users`): the unique constraints on `username` and
  `email`.
- `groups.dfy` (module `Groups`): membership counting and the rule that a
  (group, user) pair has at most one membership row.
- `expenses.dfy` (module `Expenses`): a group's `total_expenses` compared
  with the sum of the amounts of its stored expenses.
- `depts.dfy` (module `Depts`): the debt filters and the settlement rule of
  `update_dept_amount`.
- `format.dfy` (module `Format`): the decimal text of an amount, as
  `"{}".format(n)` writes it, and its parse.
- `api.dfy` (module `Api`): the `Store` class and one member per route.

Every write keeps `Store.Valid()`. Valid means:

- each row is stored under its own key;
- usernames are unique, and so are emails;
- memberships name stored groups;
- no (group, user) pair has two memberships;
- every group's `total_members` equals its number of memberships and is at least 1;
- every participant row names a stored expense.

The expense invariant `Store.Consistent()` is kept separately. It says every
group's `total_expenses` equals the sum of its stored expenses, and every
expense names a stored group. `create_expense` does not check that the
group exists, so this invariant is not part of `Valid()`. The routes keep it
whenever it held before, except `CreateExpense` for a missing group. The
"## Findings" section below covers that case.

## Model

| member | source | states |
|---|---|---|
| Models.NewGroup | app/models.py:26-27 | a new group has `total_expenses` 0 and `total_members` 1 |
| Models.NewMembership | app/models.py:39 | a membership added without an admin flag is not an admin |
| Ids.NextId | app/models.py:11 | the key given to a new row is not in use, is larger than every key in use, and is 1 in an empty table |
| Users.UserInsertKeepsUnique | app/models.py:12-14 | adding a user whose username and email are both untaken keeps both columns unique |
| Groups.MemberCountInsert | app/api/groups.py:65-67 | storing one membership under a fresh key adds one to its own group's count and changes no other group's count |
| Groups.CreateGroupKeepsMemberships | app/api/groups.py:35-42 | a new group with `total_members` 1 plus the creator's membership keeps the membership invariants, and the new group then counts exactly one member |
| Groups.AddMemberKeepsMemberships | app/api/groups.py:57-67 | when the pair has no membership yet, adding 1 to `total_members` and storing the row keeps counts equal to memberships and keeps pairs unique |
| Expenses.GroupExpenseSumInsert | app/api/expenses.py:20-29 | storing an expense under a fresh key raises the expense sum of its group by its amount and leaves every other group's sum unchanged |
| Expenses.GroupExpenseSumRemove | app/api/expenses.py:54-67 | removing a stored expense lowers its group's expense sum by its amount and leaves every other group's sum unchanged |
| Expenses.CreateKeepsTotalsTracked | app/api/expenses.py:26-29 | if every group's total equalled its expense sum, it still does after create_expense's insert and `+=` |
| Expenses.DeleteKeepsTotalsTracked | app/api/expenses.py:54-58 | if every group's total equalled its expense sum, it still does after delete_expense's `-=` and removal |
| Expenses.DeleteKeepsExpenseInvariants | app/api/expenses.py:54-67 | delete_expense keeps "totals equal expense sums" and "every expense names a stored group" whenever each held before |
| Expenses.NewGroupKeepsTotalsTracked | app/api/groups.py:35-37 | a new group with total 0 keeps totals equal to sums, provided no stored expense already names its key |
| Expenses.SameTotalKeepsTracked | app/api/groups.py:62 | changing a group's member count leaves both expense invariants exactly as they were |
| Expenses.DeleteKeepsReferences | app/api/expenses.py:60-67 | deleting an expense together with its participant rows leaves every remaining participant row pointing at a stored expense |
| Expenses.CreateThenDeleteRestores | app/api/expenses.py:26-67 | create_expense followed by delete_expense of the new row restores every group's total, the expense table and the participant table |
| Format.NatToDecimal | app/api/dept.py:80-82 | the remainder in the message is a non-empty string of decimal digits with no leading zero |
| Format.DecimalRoundTrip | app/api/dept.py:80-82 | reading the digits back gives the remainder that was written |
| Depts.GroupDepts | app/api/dept.py:26 | exactly the debts whose `group_id` is the group, with their stored values |
| Depts.UserDepts | app/api/dept.py:34-41 | exactly the debts of the group in which the user is the debtor or the lender |
| Depts.Settle | app/api/dept.py:65-83 | an unknown debt is 404 "Dept not found"; otherwise amount minus payment, the row deleted with "completely paid" at 0 or below, else stored and reported; other debts unchanged; positive debts stay positive |
| Depts.AmountLeftIsStored | app/api/dept.py:77-83 | after a partial payment the number in the message is exactly the amount now stored |
| Depts.SettleHalf | app/tests/test_unit.py:402-421 | a debt of 100 paid down by 50 leaves 50 and the message "Dept updated successfully, amount left: 50" |
| Expenses.AdjustTotalExpenses | app/api/expenses.py:26-28 | when the group is stored, only its `total_expenses` changes, by exactly the given amount; every other group and every other column is unchanged; when it is not stored, the group table is unchanged |
| Expenses.WithoutParticipantsOf | app/api/expenses.py:59-64 | a participant row survives exactly when it does not belong to the deleted expense, and every surviving row keeps its values |
| Api.CreateGroupKeepsValid | app/api/groups.py:35-42 | storing a new group with one member and its creator's membership under fresh keys keeps the store valid, and the new group counts exactly one member |
| Api.CreateExpenseKeepsValid | app/api/expenses.py:20-28 | storing an expense under a fresh key and adjusting its group's total keeps the store valid |
| Api.DeleteExpenseKeepsValid | app/api/expenses.py:54-67 | lowering the group's total, removing the expense and its participant rows keeps the store valid |
| Api.DeptsChangeKeepsValid | app/api/dept.py:56-77 | any change to the debt table that keeps each debt under its own key keeps the store valid |
| Api.CreateUserKeepsValid | app/api/users.py:49-68 | inserting a user whose username and email are untaken keeps the store valid, including both unique constraints |
| Api.AddMemberKeepsValid | app/api/groups.py:57-67 | adding a membership for a pair that has none keeps the store valid, and the pair is a member afterwards |
| Api.Store.Login | app/api/auth.py:17-25 | success exactly when some user has that username and password, returning "success", that user's id and email; otherwise 401 "Incorrect username or password"; no table changes |
| Api.Store.GetUsers | app/api/users.py:26-27 | every stored user and nothing else |
| Api.Store.GetUserByUsername | app/api/users.py:31-35 | the unique stored user with that username, or 404 "User not found" exactly when there is none |
| Api.Store.GetUser | app/api/users.py:39-43 | the user stored under the id, or 404 "User not found" exactly when there is none |
| Api.Store.CreateUser | app/api/users.py:47-72 | 400 "Username already exists" first, then 400 "Email already registered"; otherwise exactly one new user with the given fields and the password unchanged; uniqueness and both invariants kept |
| Api.Store.GetUserGroups | app/api/users.py:76-86 | 404 for an unknown user; otherwise exactly the stored groups in which the user has a membership, possibly none |
| Api.Store.GetUserExpenses | app/api/users.py:90-115 | 404 for an unknown user; otherwise one entry per participant row of the user, in key order, each with its expense's description and amount; 500 if such a row names a missing expense |
| Api.Store.GetGroups | app/api/groups.py:17-18 | every stored group and nothing else |
| Api.Store.GetGroup | app/api/groups.py:22-27 | the stored group, whose `total_members` equals its membership count and is at least 1, or 404 "Group not found" |
| Api.Store.CreateGroup | app/api/groups.py:31-45 | 404 "User not found" for an unknown creator with nothing changed; otherwise one new group with the defaults and exactly one admin membership of the creator; invariants kept |
| Api.Store.AddGroupMember | app/api/groups.py:49-70 | 404 "User not found", then "Group not found", then "Already in group"; otherwise `total_members` plus 1 and one non-admin membership; no duplicate pair; invariants kept |
| Api.Store.GetExpenses | app/api/expenses.py:42-43 | every stored expense and nothing else |
| Api.Store.GetExpense | app/api/expenses.py:34-38 | the expense stored under the id, or 404 "Expense not found" exactly when there is none |
| Api.Store.CreateExpense | app/api/expenses.py:19-31 | one new expense with the given fields under a fresh key; the group's total raised by the amount if the group exists, no group changed otherwise; the expense invariant kept when the group exists |
| Api.Store.CreateExpenseChecked | app/tests/test_mutation.py:332-350 | 404 "User not in Group" first, then "Group not found", with nothing changed; otherwise as create_expense, and the expense invariant is always kept |
| Api.Store.DeleteExpense | app/api/expenses.py:48-68 | 404 "Expense not found" with nothing changed; otherwise the group's total lowered by the amount, the expense and exactly its participant rows removed; both expense invariants kept |
| Api.Store.DeleteParticipantsOf | app/api/expenses.py:60-64 | the loop removes exactly the participant rows of the expense and keeps every other row as it was |
| Api.Store.CheckExpenseParticipant | app/api/expenses.py:78-90 | 404 "Expense not found", then "User not found", then "Group not found"; otherwise the expense's group, whose member count (the divisor) is at least 1 |
| Api.Store.ListGroupDepts | app/api/dept.py:24-29 | `{}` exactly when the group has no debts; otherwise exactly the group's debts |
| Api.Store.ListUserDepts | app/api/dept.py:32-46 | exactly the group's debts in which the user owes or lends; 404 "No depts found for the given user ID" exactly when there are none |
| Api.Store.DeleteDept | app/api/dept.py:49-58 | 404 "Dept not found" with nothing changed; otherwise exactly that debt removed and "Dept deleted successfully" |
| Api.Store.UpdateDeptAmount | app/api/dept.py:61-83 | the debt table and the reply are those of `Settle`; all other tables are unchanged; positive debts stay positive |
| Api.ExpenseBeforeGroupScenario | app/api/expenses.py:19-31 | an expense created before its group, followed by the group's creation and the expense's deletion, leaves that group with total -100 and no expenses |

## Left out

- The Streamlit front end (`front/`) and the FastAPI router wiring (`app/main.py`) are not part of this model.
- SQLAlchemy session mechanics are not modelled: `commit`, `refresh`, eager loading and the connection pool. Each route is one state transition. The per-step commits of `delete_expense` would matter only if a call failed midway, which the model does not have.
- Concurrent requests are not modelled. Under interleaving, the read-modify-write updates `group.total_members += 1` (app/api/groups.py:62) and `group.total_expenses += amount` (app/api/expenses.py:27) can lose an update, which would break the `total_members` and `total_expenses` invariants proved here for one request at a time.
- Api.Store.DeleteExpense: removes the participant rows before it adjusts the group and deletes the expense. The source adjusts the group first. Since the whole route is one transition, the final state is the same.
- Eager loading in `get_group` and `get_expense` is not modelled. Those routes return the row, and the related rows stay in the store. `Expense.expense_participants` is not declared in `app/models.py`, so that load would fail at run time.
- The `average_amount` / `amount_owed` computation and the insert of `create_expense_participant` (app/api/expenses.py:92-100) are not modelled. They use Python float division stored in an integer column. `Api.Store.CheckExpenseParticipant` models only the lookups before that computation, and proves that the divisor is at least 1 in a valid store.
- Debt netting on expense create or delete is not modelled. No route implements it, and nothing creates debt rows. Debts are taken as already stored.
- The `Dept` table is not declared in `app/models.py`. Its row is built from the columns the debt routes and their tests use: `dept_id`, `user_id`, `lender_id`, `group_id`, `amount`.
- The `created_at` timestamps are not modelled, because they read the clock.
- passlib's `CryptContext` is created but never used to hash or verify a password (the hashing call in `create_user` is commented out), so passwords are stored and compared as given, as in the source.
- Integers are unbounded. SQLite's 64-bit integer limit is not modelled.
- The order in which the database returns rows is not modelled. List routes return maps keyed by primary key. `Api.Store.GetUserExpenses` fixes ascending key order, and its ghost `keys` result records that order.
- Api.Store.GetUserExpenses: a participant row whose expense is missing becomes a 500 error. In the source this is an `AttributeError` on `None`. `Valid()` rules the case out for stores built through these routes.
- Primary keys are modelled as SQLite assigns them to tables without AUTOINCREMENT: largest key in use plus one. A key freed by deleting the last row can therefore be reused.

## Findings

| source | as written | input that shows it | evidently intended | confidence | as-written member | corrected member |
|---|---|---|---|---|---|---|
| app/api/expenses.py:19-31 | `create_expense` stores the expense without checking that the creator is a member of the group or that the group exists; its tests (app/tests/test_mutation.py:332-350) expect 404 "User not in Group" and 404 "Group not found" | create user 1; create expense (group 1, amount 100, creator 1) while no group exists; create group "trip" (key 1, total 0); delete expense 1: group 1's `total_expenses` is -100 with no expenses | reject the expense with 404 "User not in Group" or "Group not found", so a group's total always equals the sum of its expenses | not executed | Api.ExpenseBeforeGroupScenario | Api.Store.CreateExpenseChecked |
