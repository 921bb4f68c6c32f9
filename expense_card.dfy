/**
  The summary card of an expense (src/pages/Expense/ExpenseCard.tsx): which of
  four status chips it shows to the signed-in user, and its people count.
  The signed-in user is given by their user id, or `None` when nobody is signed
  in; then `user?.userId` is `undefined` and equals no id.
 */
module ExpenseCard {
  import opened Wrappers
  import opened ExpenseTypes
  import JsString

  /** `i` is the first split belonging to `userId`. */
  ghost predicate IsFirstSplitOf(splits: seq<ExpenseSplit>, i: int, userId: string) {
    && 0 <= i < |splits|
    && splits[i].userId == userId
    && (forall j :: 0 <= j < i ==> splits[j].userId != userId)
  }

  lemma {:induction false} FirstSplitUnique(splits: seq<ExpenseSplit>, i: int, i': int, userId: string)
    requires IsFirstSplitOf(splits, i, userId) && IsFirstSplitOf(splits, i', userId)
    ensures i == i'
  {
  }

  /** `splits.find(s => s.userId === userId)`. */
  function FindSplit(splits: seq<ExpenseSplit>, userId: string): (r: Option<ExpenseSplit>)
    ensures r.None? <==> forall i :: 0 <= i < |splits| ==> splits[i].userId != userId
    ensures r.Some? ==> exists i :: IsFirstSplitOf(splits, i, userId) && splits[i] == r.value
  {
    if splits == [] then
      None
    else if splits[0].userId == userId then
      assert IsFirstSplitOf(splits, 0, userId);
      Some(splits[0])
    else
      var r := FindSplit(splits[1..], userId);
      assert r.None? ==> forall i :: 0 < i < |splits| ==> splits[i] == splits[1..][i - 1];
      assert r.Some? ==> exists i :: IsFirstSplitOf(splits, i, userId) && splits[i] == r.value by {
        if r.Some? {
          var i :| IsFirstSplitOf(splits[1..], i, userId) && splits[1..][i] == r.value;
          assert IsFirstSplitOf(splits, i + 1, userId);
        }
      }
      r
  }

  /** The signed-in user's split: the first split with their id, if any. */
  function UserSplit(e: Expense, user: Option<string>): (r: Option<ExpenseSplit>)
    ensures r.None? <==> user.None? || forall i :: 0 <= i < |e.splits| ==> e.splits[i].userId != user.value
    ensures r.Some? ==> user.Some? && exists i :: IsFirstSplitOf(e.splits, i, user.value) && e.splits[i] == r.value
  {
    if user.None? then None else FindSplit(e.splits, user.value)
  }

  /** `userOwes`: the user's split is unsettled and has a positive share. Only the
      first split with the user's id is looked at. */
  function UserOwes(e: Expense, user: Option<string>): (r: bool)
    ensures r <==> user.Some? && exists i :: IsFirstSplitOf(e.splits, i, user.value)
                                   && !e.splits[i].isSettled && e.splits[i].shareAmount > 0
  {
    var s := UserSplit(e, user);
    assert s.Some? ==> forall i :: IsFirstSplitOf(e.splits, i, user.value) ==> e.splits[i] == s.value by {
      if s.Some? {
        var i :| IsFirstSplitOf(e.splits, i, user.value) && e.splits[i] == s.value;
        forall i' | IsFirstSplitOf(e.splits, i', user.value) ensures e.splits[i'] == s.value {
          FirstSplitUnique(e.splits, i, i', user.value);
        }
      }
    }
    s.Some? && !s.value.isSettled && s.value.shareAmount > 0
  }

  /** `splits.some(s => !s.isSettled && s.userId !== userId)`. */
  function SomeOtherUnsettled(splits: seq<ExpenseSplit>, userId: string): (r: bool)
    ensures r <==> exists i :: 0 <= i < |splits| && !splits[i].isSettled && splits[i].userId != userId
  {
    if splits == [] then
      false
    else if !splits[0].isSettled && splits[0].userId != userId then
      true
    else
      var r := SomeOtherUnsettled(splits[1..], userId);
      assert forall i :: 0 < i < |splits| ==> splits[i] == splits[1..][i - 1];
      assert r ==> exists i :: 0 <= i < |splits| && !splits[i].isSettled && splits[i].userId != userId by {
        if r {
          var i :| 0 <= i < |splits[1..]| && !splits[1..][i].isSettled && splits[1..][i].userId != userId;
          assert splits[i + 1] == splits[1..][i];
        }
      }
      r
  }

  /** `userGetsBack`: the user paid and somebody else's split is unsettled. */
  function UserGetsBack(e: Expense, user: Option<string>): (r: bool)
    ensures r <==> user.Some? && e.paidByUserId == user.value
                   && exists i :: 0 <= i < |e.splits| && !e.splits[i].isSettled && e.splits[i].userId != user.value
  {
    user.Some? && e.paidByUserId == user.value && SomeOtherUnsettled(e.splits, user.value)
  }

  /** The four status chips of the card. */
  datatype StatusChip = Settled | YouOwe | YouGetBack | Pending {

    function Label(): string {
      match this
      case Settled => "Settled"
      case YouOwe => "You owe"
      case YouGetBack => "You get back"
      case Pending => "Pending"
    }

    /** The chip's colour; the pending chip is an uncoloured outlined one. */
    function Color(): Option<string> {
      match this
      case Settled => Some("success")
      case YouOwe => Some("warning")
      case YouGetBack => Some("info")
      case Pending => None
    }
  }

  /** Different chips carry different labels, so the card shows exactly one of them. */
  lemma {:induction false} LabelsDistinct(a: StatusChip, b: StatusChip)
    ensures a.Label() == b.Label() <==> a == b
  {
  }

  /** `getStatusChip`: settled first, then "You owe", then "You get back", else pending. */
  function GetStatusChip(e: Expense, user: Option<string>): (r: StatusChip)
    ensures r == Settled <==> e.isSettled
    ensures r == YouOwe <==> !e.isSettled && UserOwes(e, user)
    ensures r == YouGetBack <==> !e.isSettled && !UserOwes(e, user) && UserGetsBack(e, user)
    ensures r == Pending <==> !e.isSettled && !UserOwes(e, user) && !UserGetsBack(e, user)
    ensures r.Color() == Some("success") <==> e.isSettled
    ensures r.Color() == Some("warning") <==> !e.isSettled && UserOwes(e, user)
    ensures r.Color() == Some("info") <==> !e.isSettled && !UserOwes(e, user) && UserGetsBack(e, user)
    ensures r.Color() == None <==> r.Label() == "Pending"
  {
    if e.isSettled then Settled
    else if UserOwes(e, user) then YouOwe
    else if UserGetsBack(e, user) then YouGetBack
    else Pending
  }

  /** A settled expense shows "Settled" whatever its splits say. */
  lemma {:induction false} SettledWins(e: Expense, user: Option<string>)
    requires e.isSettled
    ensures GetStatusChip(e, user).Label() == "Settled"
  {
  }

  /** A payer whose own first split is unsettled with a positive share sees
      "You owe", even when other people still owe them. */
  lemma {:induction false} PayerWithOwnShareOwes(e: Expense, userId: string, i: nat)
    requires !e.isSettled && e.paidByUserId == userId
    requires IsFirstSplitOf(e.splits, i, userId)
    requires !e.splits[i].isSettled && e.splits[i].shareAmount > 0
    ensures GetStatusChip(e, Some(userId)) == YouOwe
  {
  }

  /** A payer who owes nothing sees "You get back" exactly when somebody else's
      split is unsettled. */
  lemma {:induction false} PayerGetsBack(e: Expense, userId: string)
    requires !e.isSettled && e.paidByUserId == userId
    requires forall i :: 0 <= i < |e.splits| && e.splits[i].userId == userId ==> e.splits[i].isSettled
    ensures GetStatusChip(e, Some(userId)) == YouGetBack <==>
      exists i :: 0 <= i < |e.splits| && !e.splits[i].isSettled && e.splits[i].userId != userId
  {
  }

  /** With nobody signed in, an unsettled expense is "Pending". */
  lemma {:induction false} SignedOutPending(e: Expense)
    requires !e.isSettled
    ensures GetStatusChip(e, None) == Pending
  {
  }

  /** No two splits of the list belong to the same user. */
  ghost predicate UniqueUsers(splits: seq<ExpenseSplit>) {
    forall i, j :: 0 <= i < j < |splits| ==> splits[i].userId != splits[j].userId
  }

  /** When each user has at most one split, `userOwes` holds exactly when some
      split of the user is unsettled with a positive share. */
  lemma {:induction false} OwesWithUniqueUsers(e: Expense, userId: string)
    requires UniqueUsers(e.splits)
    ensures UserOwes(e, Some(userId)) <==>
      exists i :: 0 <= i < |e.splits| && e.splits[i].userId == userId
                  && !e.splits[i].isSettled && e.splits[i].shareAmount > 0
  {
    if exists i :: 0 <= i < |e.splits| && e.splits[i].userId == userId
                   && !e.splits[i].isSettled && e.splits[i].shareAmount > 0 {
      var i :| 0 <= i < |e.splits| && e.splits[i].userId == userId
               && !e.splits[i].isSettled && e.splits[i].shareAmount > 0;
      assert IsFirstSplitOf(e.splits, i, userId);
    }
  }

  /** Without unique users, only the first split of the user decides: a settled
      first split hides a later unsettled one with a positive share, so the card
      reads "Pending" although some split of the user still owes. */
  lemma {:induction false} LaterSplitIgnored(e: Expense, userId: string)
    requires !e.isSettled && e.paidByUserId != userId && |e.splits| == 2
    requires e.splits[0].userId == userId && e.splits[0].isSettled
    requires e.splits[1].userId == userId && !e.splits[1].isSettled && e.splits[1].shareAmount > 0
    ensures GetStatusChip(e, Some(userId)) == Pending
    ensures exists i :: 0 <= i < |e.splits| && e.splits[i].userId == userId
                        && !e.splits[i].isSettled && e.splits[i].shareAmount > 0
  {
    assert IsFirstSplitOf(e.splits, 0, userId);
    forall i | IsFirstSplitOf(e.splits, i, userId) ensures i == 0 {
      FirstSplitUnique(e.splits, i, 0, userId);
    }
    assert 0 <= 1 < |e.splits| && e.splits[1].userId == userId;
  }

  /** The "N people" chip. */
  function PeopleLabel(e: Expense): (r: string)
    ensures |r| > 7 && r[|r| - 7..] == " people"
  {
    JsString.NatToString(|e.splits|) + " people"
  }

  /** The people count is the number of splits: reading the digits of the
      label back gives `|e.splits|`. */
  lemma {:induction false} PeopleCountIsSplitCount(e: Expense)
    ensures var r := PeopleLabel(e); var digits := r[..|r| - 7];
      (forall k :: 0 <= k < |digits| ==> JsString.IsDigit(digits[k]))
      && JsString.DigitsValue(digits) == |e.splits|
  {
    var r := PeopleLabel(e);
    assert r[..|r| - 7] == JsString.NatToString(|e.splits|);
    JsString.NatToStringRoundTrip(|e.splits|);
  }
}
