/**
  The dialog that adds an expense to a group (src/pages/Expense/ExpenseForm.tsx):
  its form state, the defaults it fills in when it opens, the reset when it
  closes, the field-by-field validation, the request it sends and the member
  names it displays. The date picker's value is held as the ISO text the
  request carries, and "now" is a parameter instead of a clock reading.
 */
module ExpenseForm {
  import opened Wrappers
  import opened ExpenseTypes
  import JsString

  /** A member of the group, as the dialog receives it. */
  datatype Member = Member(userId: string, name: string, email: string)

  const DescriptionRequired: string := "Description is required"
  const AmountNotPositive: string := "Amount must be greater than 0"
  const PayerRequired: string := "Please select who paid"
  const ParticipantRequired: string := "Select at least one participant"
  const SubmitFailedMessage: string := "Failed to create expense. Please try again."
  const UnknownMember: string := "Unknown"

  // ---------------------------------------------------------------- members

  /** `members.some(m => m.userId === userId)`. */
  function HasMember(members: seq<Member>, userId: string): (r: bool)
    ensures r <==> exists i :: 0 <= i < |members| && members[i].userId == userId
  {
    if members == [] then
      false
    else if members[0].userId == userId then
      true
    else
      var r := HasMember(members[1..], userId);
      assert r ==> exists i :: 0 <= i < |members| && members[i].userId == userId by {
        if r {
          var i :| 0 <= i < |members[1..]| && members[1..][i].userId == userId;
          assert members[i + 1] == members[1..][i];
        }
      }
      assert forall i :: 0 < i < |members| ==> members[i] == members[1..][i - 1];
      r
  }

  /** `members.map(m => m.userId)`. */
  function MemberIds(members: seq<Member>): (r: seq<string>)
    ensures |r| == |members|
    ensures forall i :: 0 <= i < |members| ==> r[i] == members[i].userId
  {
    if members == [] then [] else [members[0].userId] + MemberIds(members[1..])
  }

  /** The payer the dialog preselects: the signed-in user when they are a member,
      otherwise the first member. */
  function DefaultPayer(members: seq<Member>, user: Option<string>): (r: string)
    requires |members| > 0
    ensures user.Some? && HasMember(members, user.value) ==> r == user.value
    ensures !(user.Some? && HasMember(members, user.value)) ==> r == members[0].userId
  {
    if user.Some? && HasMember(members, user.value) then user.value else members[0].userId
  }

  /** The preselected payer is always one of the preselected participants. */
  lemma {:induction false} DefaultPayerIsParticipant(members: seq<Member>, user: Option<string>)
    requires |members| > 0
    ensures DefaultPayer(members, user) in MemberIds(members)
  {
    var r := DefaultPayer(members, user);
    var ids := MemberIds(members);
    if user.Some? && HasMember(members, user.value) {
      var i :| 0 <= i < |members| && members[i].userId == user.value;
      assert ids[i] == r;
    } else {
      assert ids[0] == r;
    }
  }

  /** `i` is the first member with `userId`. */
  ghost predicate IsFirstMemberWith(members: seq<Member>, i: int, userId: string) {
    && 0 <= i < |members|
    && members[i].userId == userId
    && (forall j :: 0 <= j < i ==> members[j].userId != userId)
  }

  /** `getMemberName`: the name of the first member with `userId`; "Unknown" when
      no member has it, and also when that member's name is empty (`|| 'Unknown'`). */
  function MemberName(members: seq<Member>, userId: string): (r: string)
    ensures (forall i :: 0 <= i < |members| ==> members[i].userId != userId) ==> r == UnknownMember
    ensures forall i :: IsFirstMemberWith(members, i, userId) ==>
              r == if members[i].name == [] then UnknownMember else members[i].name
  {
    if members == [] then
      UnknownMember
    else if members[0].userId == userId then
      if members[0].name == [] then UnknownMember else members[0].name
    else
      var r := MemberName(members[1..], userId);
      assert forall i :: 0 < i < |members| ==> members[i] == members[1..][i - 1];
      assert forall i :: IsFirstMemberWith(members, i, userId) ==> IsFirstMemberWith(members[1..], i - 1, userId);
      r
  }

  // ---------------------------------------------------------------- validation

  /** The four keys of the validation errors are different strings. */
  lemma {:induction false} KeysDistinct()
    ensures "description" != "amount" && "description" != "paidBy" && "description" != "participants"
    ensures "amount" != "paidBy" && "amount" != "participants" && "paidBy" != "participants"
  {
    assert "description"[0] == 'd' && "amount"[0] == 'a' && "paidBy"[0] == 'p' && "participants"[0] == 'p';
    assert "paidBy"[2] == 'i' && "participants"[2] == 'r';
  }

  /** The error map `validateForm` builds from the field values. */
  function FormErrors(description: string, amount: int, paidBy: string, participants: seq<string>): (r: map<string, string>)
    ensures "description" in r <==> JsString.Trim(description) == []
    ensures "amount" in r <==> amount <= 0
    ensures "paidBy" in r <==> paidBy == []
    ensures "participants" in r <==> participants == []
    ensures r.Keys <= {"description", "amount", "paidBy", "participants"}
    ensures "description" in r ==> r["description"] == DescriptionRequired
    ensures "amount" in r ==> r["amount"] == AmountNotPositive
    ensures "paidBy" in r ==> r["paidBy"] == PayerRequired
    ensures "participants" in r ==> r["participants"] == ParticipantRequired
  {
    KeysDistinct();
    var d := if JsString.Trim(description) == [] then map["description" := DescriptionRequired] else map[];
    var a := if amount <= 0 then d["amount" := AmountNotPositive] else d;
    var p := if paidBy == [] then a["paidBy" := PayerRequired] else a;
    if participants == [] then p["participants" := ParticipantRequired] else p
  }

  /** `FormErrors` adds the four checks' errors one after the other. */
  lemma {:induction false} FormErrorsSteps(description: string, amount: int, paidBy: string, participants: seq<string>)
    ensures
      var d := if JsString.Trim(description) == [] then map["description" := DescriptionRequired] else map[];
      var a := if amount <= 0 then d["amount" := AmountNotPositive] else d;
      var p := if paidBy == [] then a["paidBy" := PayerRequired] else a;
      FormErrors(description, amount, paidBy, participants) == if |participants| == 0 then p["participants" := ParticipantRequired] else p
  {
  }

  /** The form is valid exactly when every field passes its check. */
  lemma {:induction false} NoErrorsIffValid(description: string, amount: int, paidBy: string, participants: seq<string>)
    ensures FormErrors(description, amount, paidBy, participants) == map[] <==>
      JsString.Trim(description) != [] && amount > 0 && paidBy != [] && participants != []
  {
    var r := FormErrors(description, amount, paidBy, participants);
    if r != map[] {
      var k :| k in r;
    }
  }

  /** An all-whitespace description is reported like an empty one. */
  lemma {:induction false} BlankDescriptionIsMissing(description: string, amount: int, paidBy: string, participants: seq<string>)
    requires JsString.AllWhitespace(description)
    ensures FormErrors(description, amount, paidBy, participants)["description"] == DescriptionRequired
  {
  }

  /** The defaults leave nothing to report about the payer and the participants,
      provided the members' ids are not empty. */
  lemma {:induction false} DefaultsPassSelectionChecks(members: seq<Member>, user: Option<string>,
                                                       description: string, amount: int)
    requires |members| > 0
    requires forall i :: 0 <= i < |members| ==> members[i].userId != []
    ensures var r := FormErrors(description, amount, DefaultPayer(members, user), MemberIds(members));
      "paidBy" !in r && "participants" !in r
  {
    DefaultPayerIsParticipant(members, user);
    var ids := MemberIds(members);
    assert ids[0] == members[0].userId;
    var r := DefaultPayer(members, user);
    var i :| 0 <= i < |ids| && ids[i] == r;
    assert r == members[i].userId;
  }

  // ---------------------------------------------------------------- request

  /** The create-expense request built from the form's values. */
  function BuildRequest(groupId: string, paidBy: string, amount: int, description: string,
                        notes: string, expenseDate: string, participants: seq<string>): (r: CreateExpenseRequest)
    ensures r.splitStrategy == EqualStrategy
    ensures r.participantUserIds == participants
    ensures r.groupId == groupId && r.paidByUserId == paidBy && r.amount == amount
    ensures r.description == description && r.expenseDate == expenseDate
    ensures r.notes.None? <==> notes == []
  {
    CreateExpenseRequest(
      groupId := groupId,
      paidByUserId := paidBy,
      amount := amount,
      description := description,
      notes := if notes == [] then None else Some(notes),
      expenseDate := expenseDate,
      splitStrategy := EqualStrategy,
      participantUserIds := participants)
  }

  /** The notes text can be read back from the request, with an absent field
      standing for an empty text. */
  lemma {:induction false} NotesRoundTrip(groupId: string, paidBy: string, amount: int, description: string,
                                          notes: string, expenseDate: string, participants: seq<string>)
    ensures BuildRequest(groupId, paidBy, amount, description, notes, expenseDate, participants).notes.GetOr("") == notes
  {
  }

  // ---------------------------------------------------------------- form state

  /** The dialog's state variables. */
  class FormState {
    var description: string
    var amount: int
    var paidBy: string
    var participants: seq<string>
    var expenseDate: string
    var notes: string
    var errors: map<string, string>

    /** Every field empty or zero, the date `today`, and no errors. */
    predicate IsBlank(today: string)
      reads this
    {
      && description == [] && amount == 0 && paidBy == [] && participants == []
      && expenseDate == today && notes == [] && errors == map[]
    }

    /** The state on first render. */
    constructor (today: string)
      ensures IsBlank(today)
    {
      description, amount, paidBy, participants := [], 0, [], [];
      expenseDate, notes, errors := today, [], map[];
    }

    /** The effect that runs when the dialog opens: preselect the payer and
        every member as a participant. */
    method ApplyDefaults(open: bool, members: seq<Member>, user: Option<string>)
      modifies this`paidBy, this`participants
      ensures open && |members| > 0 ==>
        paidBy == DefaultPayer(members, user) && participants == MemberIds(members)
      ensures !(open && |members| > 0) ==> paidBy == old(paidBy) && participants == old(participants)
    {
      if open && |members| > 0 {
        if user.Some? && HasMember(members, user.value) {
          paidBy := user.value;
        } else if |members| > 0 {
          paidBy := members[0].userId;
        }
        participants := MemberIds(members);
      }
    }

    /** The effect that runs when the dialog closes: clear every field. */
    method ResetIfClosed(open: bool, today: string)
      modifies this
      ensures !open ==> IsBlank(today)
      ensures open ==> unchanged(this)
    {
      if !open {
        description := [];
        amount := 0;
        paidBy := [];
        participants := [];
        expenseDate := today;
        notes := [];
        errors := map[];
      }
    }

    /** `validateForm`: record one error per failing field and report whether
        there is none. */
    method ValidateForm() returns (valid: bool)
      modifies this`errors
      ensures errors == FormErrors(description, amount, paidBy, participants)
      ensures valid <==> errors == map[]
    {
      var newErrors: map<string, string> := map[];
      if JsString.Trim(description) == [] {
        newErrors := newErrors["description" := DescriptionRequired];
      }
      if amount <= 0 {
        newErrors := newErrors["amount" := AmountNotPositive];
      }
      if paidBy == [] {
        newErrors := newErrors["paidBy" := PayerRequired];
      }
      if |participants| == 0 {
        newErrors := newErrors["participants" := ParticipantRequired];
      }
      FormErrorsSteps(description, amount, paidBy, participants);
      errors := newErrors;
      valid := newErrors == map[];
    }

    /** The part of `handleSubmit` before the service call: validate, and when
        the form is valid, the request to send. */
    method Submit(groupId: string) returns (request: Option<CreateExpenseRequest>)
      modifies this`errors
      ensures errors == FormErrors(description, amount, paidBy, participants)
      ensures request.Some? <==> errors == map[]
      ensures request.Some? ==>
        request.value == BuildRequest(groupId, paidBy, amount, description, notes, expenseDate, participants)
    {
      var valid := ValidateForm();
      if !valid {
        return None;
      }
      request := Some(BuildRequest(groupId, paidBy, amount, description, notes, expenseDate, participants));
    }

    /** What `handleSubmit` records when the service call fails. */
    method SubmitFailed()
      modifies this`errors
      ensures errors == map["submit" := SubmitFailedMessage]
    {
      errors := map["submit" := SubmitFailedMessage];
    }
  }
}
