/**
  The records the back end sends and receives for expenses. Amounts, which the
  front end holds as JavaScript numbers, are integers here: minor currency units.
 */
module ExpenseTypes {
  import opened Wrappers

  /** One participant's share of an expense and how much of it has been paid. */
  datatype ExpenseSplit = ExpenseSplit(
    splitId: string,
    userId: string,
    userName: string,
    userEmail: string,
    shareAmount: int,
    settledAmount: int,
    isSettled: bool)

  /** An expense of a group, with its splits. */
  datatype Expense = Expense(
    expenseId: string,
    groupId: string,
    groupName: string,
    paidByUserId: string,
    paidByName: string,
    paidByEmail: string,
    createdByUserId: string,
    createdByName: string,
    createdByEmail: string,
    amount: int,
    description: string,
    notes: Option<string>,
    splitStrategy: string,
    isSettled: bool,
    expenseDate: string,
    createdAt: string,
    updatedAt: Option<string>,
    splits: seq<ExpenseSplit>)

  /** The only split strategy a create request may carry. */
  const EqualStrategy: string := "EQUAL"

  /** The body of a request to create an expense. */
  datatype CreateExpenseRequest = CreateExpenseRequest(
    groupId: string,
    paidByUserId: string,
    amount: int,
    description: string,
    notes: Option<string>,
    expenseDate: string,
    splitStrategy: string,
    participantUserIds: seq<string>)
}
