/**
  The figures of the expense details page (src/pages/Expense/ExpenseDetails.tsx):
  the amount collected so far, the amount left to collect, the colour of that
  amount, the expense's status chip and each split's paid icon.
 */
module ExpenseDetails {
  import opened ExpenseTypes

  /** The sum of the settled amounts, as a reference definition. */
  function SumSettled(splits: seq<ExpenseSplit>): int {
    if splits == [] then 0 else splits[0].settledAmount + SumSettled(splits[1..])
  }

  /** `splits.reduce((sum, split) => sum + split.settledAmount, acc)`: a left fold,
      which adds the settled amounts to its starting value. */
  function SettledFold(acc: int, splits: seq<ExpenseSplit>): (r: int)
    ensures r == acc + SumSettled(splits)
    decreases |splits|
  {
    if splits == [] then acc else SettledFold(acc + splits[0].settledAmount, splits[1..])
  }

  /** `totalPaid`: the fold started at 0, so the sum of the settled amounts. */
  function TotalPaid(splits: seq<ExpenseSplit>): (r: int)
    ensures r == SumSettled(splits)
  {
    SettledFold(0, splits)
  }

  /** The sum of the shares. */
  function SumShares(splits: seq<ExpenseSplit>): int {
    if splits == [] then 0 else splits[0].shareAmount + SumShares(splits[1..])
  }

  /** The sum of what is still owed on each split. */
  function SumOutstanding(splits: seq<ExpenseSplit>): int {
    if splits == [] then 0
    else (splits[0].shareAmount - splits[0].settledAmount) + SumOutstanding(splits[1..])
  }

  lemma {:induction false} SumSettledConcat(a: seq<ExpenseSplit>, b: seq<ExpenseSplit>)
    ensures SumSettled(a + b) == SumSettled(a) + SumSettled(b)
    decreases |a|
  {
    if a != [] {
      assert (a + b)[0] == a[0];
      assert (a + b)[1..] == a[1..] + b;
      SumSettledConcat(a[1..], b);
    } else {
      assert a + b == b;
    }
  }

  /** With no splits nothing has been collected. */
  lemma {:induction false} TotalPaidEmpty()
    ensures TotalPaid([]) == 0
  {
  }

  /** Appending a split adds exactly its settled amount. */
  lemma {:induction false} TotalPaidAppend(splits: seq<ExpenseSplit>, split: ExpenseSplit)
    ensures TotalPaid(splits + [split]) == TotalPaid(splits) + split.settledAmount
  {
    SumSettledConcat(splits, [split]);
  }

  /** The order in which the splits are listed does not matter to the total of two lists. */
  lemma {:induction false} TotalPaidConcat(a: seq<ExpenseSplit>, b: seq<ExpenseSplit>)
    ensures TotalPaid(a + b) == TotalPaid(a) + TotalPaid(b)
    ensures TotalPaid(a + b) == TotalPaid(b + a)
  {
    SumSettledConcat(a, b);
    SumSettledConcat(b, a);
  }

  /** `remainingAmount`: the amount not yet collected. */
  function RemainingAmount(e: Expense): (r: int)
    ensures r + TotalPaid(e.splits) == e.amount
  {
    e.amount - TotalPaid(e.splits)
  }

  /** The colour of the remaining amount. */
  datatype Tone = Warning | Success

  function RemainingTone(e: Expense): (r: Tone)
    ensures r == Warning <==> TotalPaid(e.splits) < e.amount
  {
    if RemainingAmount(e) > 0 then Warning else Success
  }

  /** The back end's promises about an expense's splits: the shares add up to the
      amount and no split is paid beyond its share. */
  ghost predicate SplitsConsistent(e: Expense) {
    && SumShares(e.splits) == e.amount
    && forall i :: 0 <= i < |e.splits| ==> 0 <= e.splits[i].settledAmount <= e.splits[i].shareAmount
  }

  lemma {:induction false} OutstandingIsSharesMinusSettled(splits: seq<ExpenseSplit>)
    ensures SumOutstanding(splits) == SumShares(splits) - SumSettled(splits)
    decreases |splits|
  {
    if splits != [] {
      OutstandingIsSharesMinusSettled(splits[1..]);
    }
  }

  lemma {:induction false} OutstandingZeroIffAllPaid(splits: seq<ExpenseSplit>)
    requires forall i :: 0 <= i < |splits| ==> splits[i].settledAmount <= splits[i].shareAmount
    ensures SumOutstanding(splits) >= 0
    ensures SumOutstanding(splits) == 0 <==>
      forall i :: 0 <= i < |splits| ==> splits[i].settledAmount == splits[i].shareAmount
    decreases |splits|
  {
    if splits != [] {
      assert forall i :: 0 < i < |splits| ==> splits[1..][i - 1] == splits[i];
      OutstandingZeroIffAllPaid(splits[1..]);
    }
  }

  /** For consistent splits the remaining amount is what is still owed on them,
      it lies between 0 and the amount, and it is shown as success exactly when
      every split is paid in full. */
  lemma {:induction false} RemainingOfConsistentSplits(e: Expense)
    requires SplitsConsistent(e)
    ensures RemainingAmount(e) == SumOutstanding(e.splits)
    ensures 0 <= RemainingAmount(e) <= e.amount
    ensures RemainingTone(e) == Success <==>
      forall i :: 0 <= i < |e.splits| ==> e.splits[i].settledAmount == e.splits[i].shareAmount
  {
    OutstandingIsSharesMinusSettled(e.splits);
    OutstandingZeroIffAllPaid(e.splits);
    SumSettledNonNegative(e.splits);
  }

  /** Nothing paid yet leaves the whole amount to collect. */
  lemma {:induction false} NothingPaidLeavesAmount(e: Expense)
    requires forall i :: 0 <= i < |e.splits| ==> e.splits[i].settledAmount == 0
    ensures RemainingAmount(e) == e.amount
  {
    NothingPaidSumsToZero(e.splits);
  }

  lemma {:induction false} SumSettledNonNegative(splits: seq<ExpenseSplit>)
    requires forall i :: 0 <= i < |splits| ==> 0 <= splits[i].settledAmount
    ensures SumSettled(splits) >= 0
    decreases |splits|
  {
    if splits != [] {
      assert forall i :: 0 < i < |splits| ==> splits[1..][i - 1] == splits[i];
      SumSettledNonNegative(splits[1..]);
    }
  }

  lemma {:induction false} NothingPaidSumsToZero(splits: seq<ExpenseSplit>)
    requires forall i :: 0 <= i < |splits| ==> splits[i].settledAmount == 0
    ensures SumSettled(splits) == 0
    decreases |splits|
  {
    if splits != [] {
      assert forall i :: 0 < i < |splits| ==> splits[1..][i - 1] == splits[i];
      NothingPaidSumsToZero(splits[1..]);
    }
  }

  /** The expense's chip: its label and its colour. */
  datatype ExpenseChip = ExpenseChip(text: string, color: string)

  function ExpenseStatusChip(e: Expense): (r: ExpenseChip)
    ensures r.text == "Settled" <==> e.isSettled
    ensures r.text == "Pending" <==> !e.isSettled
    ensures r.color == (if e.isSettled then "success" else "warning")
  {
    ExpenseChip(if e.isSettled then "Settled" else "Pending", if e.isSettled then "success" else "warning")
  }

  /** The icon beside a split. */
  datatype SplitIcon = PaidIcon | UnpaidIcon

  function SplitStatusIcon(split: ExpenseSplit): (r: SplitIcon)
    ensures r == PaidIcon <==> split.isSettled
  {
    if split.isSettled then PaidIcon else UnpaidIcon
  }
}
