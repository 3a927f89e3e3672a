/** The rows of the six tables, the error values of the HTTP layer and the
    defaults the column definitions give to new rows. */
module Models {

  datatype User = User(userId: int, username: string, password: string, email: string)

  datatype Group = Group(
    groupId: int,
    groupName: string,
    createdBy: int,
    totalExpenses: int,
    totalMembers: int)

  datatype GroupMembership = GroupMembership(membershipId: int, groupId: int, userId: int, isAdmin: bool)

  datatype Expense = Expense(expenseId: int, groupId: int, description: string, amount: int, createdBy: int)

  datatype ExpenseParticipant = ExpenseParticipant(
    expenseParticipantId: int,
    expenseId: int,
    userId: int,
    amountPaid: int,
    amountOwed: int)

  /** A debt ("dept") record: the debtor `userId` owes `lenderId` the `amount` within a group. */
  datatype Dept = Dept(deptId: int, userId: int, lenderId: int, groupId: int, amount: int)

  /** An HTTPException: status code and detail text. */
  datatype HttpError = HttpError(status: int, detail: string)

  const BadRequest: int := 400
  const Unauthorized: int := 401
  const NotFoundStatus: int := 404
  const InternalServerError: int := 500

  function NotFound(detail: string): HttpError {
    HttpError(NotFoundStatus, detail)
  }

  datatype Result<T> = Ok(value: T) | Err(error: HttpError)

  /** A `{"message": ...}` response body. */
  datatype Message = Message(message: string)

  /** A group row as the column defaults complete it: no expenses yet and one member. */
  function NewGroup(groupId: int, groupName: string, createdBy: int): (g: Group)
    ensures g.groupId == groupId && g.groupName == groupName && g.createdBy == createdBy
    ensures g.totalExpenses == 0 && g.totalMembers == 1
  {
    Group(groupId, groupName, createdBy, 0, 1)
  }

  /** A membership row whose admin flag is left to its default. */
  function NewMembership(membershipId: int, groupId: int, userId: int): (m: GroupMembership)
    ensures m.membershipId == membershipId && m.groupId == groupId && m.userId == userId
    ensures !m.isAdmin
  {
    GroupMembership(membershipId, groupId, userId, false)
  }
}
