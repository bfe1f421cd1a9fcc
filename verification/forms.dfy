/** The dashboard's three forms: adding an expense, creating a group, and
    adding a reminder. Each validates its fields before any write, then
    issues its inserts; creating a group also adds the creator as an admin
    member and deletes the group again when that fails. The database is the
    sequence of writes issued, and which request fails is a parameter. */
module DashboardForms {
  import opened JsValues
  import opened Strings

  type UserId = string

  /** How a form submission ends: the modal closes, or it shows a message. */
  datatype Outcome = Closed | Failed(message: string)

  // ---------------------------------------------------------------------
  // Add expense

  /** `groups[0]?.id || ''`: the first group's id preselected, or nothing. */
  function InitialGroupId(groupIds: seq<string>): (g: string)
    ensures |groupIds| > 0 ==> g == groupIds[0]
    ensures |groupIds| == 0 ==> g == ""
  {
    OrElse(if |groupIds| > 0 then Some(groupIds[0]) else None, "")
  }

  /** The add-expense form's fields, as typed. */
  datatype ExpenseForm = ExpenseForm(title: string, amount: string, category: string, groupId: string)

  /** The row inserted into `expenses`; the amount is `parseFloat` of the
      typed text, which is given. */
  datatype ExpenseInsert = ExpenseInsert(title: string, amount: real, category: string, groupId: string, paidById: Option<UserId>)

  const RequiredFields := "Please fill in all required fields"

  /** `AddExpenseModal.handleSubmit`: a blank title, amount or group rejects
      the form before any insert; otherwise one expense is inserted, paid by
      the signed-in user, and the modal closes unless the insert fails. */
  function AddExpenseSubmit(form: ExpenseForm, userId: Option<UserId>, parsedAmount: real, insertError: Option<string>)
    : (r: (Outcome, seq<ExpenseInsert>))
    ensures form.title == "" || form.amount == "" || form.groupId == "" <==> r.0 == Failed(RequiredFields) && r.1 == []
    ensures r.0 == Closed <==> form.title != "" && form.amount != "" && form.groupId != "" && insertError.None?
    ensures r.1 != [] ==>
              r.1 == [ExpenseInsert(form.title, parsedAmount, form.category, form.groupId, userId)]
  {
    if form.title == "" || form.amount == "" || form.groupId == "" then (Failed(RequiredFields), [])
    else
      var row := ExpenseInsert(form.title, parsedAmount, form.category, form.groupId, userId);
      if insertError.Some? then (Failed(insertError.value), [row]) else (Closed, [row])
  }

  // ---------------------------------------------------------------------
  // Create group

  datatype GroupForm = GroupForm(name: string, emoji: string, description: string, color: string)

  datatype GroupInsert = GroupInsert(name: string, emoji: string, description: Option<string>, color: string, createdBy: UserId)

  datatype Write =
    | InsertGroup(group: GroupInsert)
    | InsertMember(groupId: string, userId: UserId, role: string)
    | DeleteGroup(groupId: string)

  /** Which request fails, with the message the database gives. When the
      admin insert fails, the compensating delete of the group may fail
      too; its error is not looked at. */
  datatype GroupFault =
    | CreatesCleanly
    | GroupInsertFails(dbMessage: string)
    | GroupNotReturned
    | MemberInsertFails(dbMessage: string, deleteFails: bool)

  /** `formData.description.trim() || null`: a blank description is stored
      as null, any other one trimmed. */
  function StoredDescription(description: string): (d: Option<string>)
    ensures d.None? <==> AllWhitespace(description)
    ensures d.Some? ==> d.value == Trim(description) && d.value != ""
  {
    TrimEmptyIff(description);
    if Trim(description) == "" then None else Some(Trim(description))
  }

  /** The row inserted into `groups`: the name trimmed, the description
      trimmed or null, the creator recorded. */
  function GroupData(form: GroupForm, userId: UserId): (g: GroupInsert)
    ensures g.name == Trim(form.name)
    ensures g.description == StoredDescription(form.description)
    ensures g.emoji == form.emoji && g.color == form.color && g.createdBy == userId
  {
    GroupInsert(Trim(form.name), form.emoji, StoredDescription(form.description), form.color, userId)
  }

  /** `CreateGroupModal.handleSubmit`. A blank name or a missing user
      rejects the form before any write. Otherwise the group is inserted
      with the id `newId` the database gives it, the creator is added as
      its admin, and when that second insert fails the group is deleted
      again. */
  function CreateGroupSubmit(form: GroupForm, userId: Option<UserId>, newId: string, fault: GroupFault)
    : (r: (Outcome, seq<Write>))
    ensures AllWhitespace(form.name) ==> r == (Failed("Group name is required"), [])
    ensures !AllWhitespace(form.name) && !Truthy(userId) ==> r == (Failed("User not authenticated"), [])
    ensures r.1 != [] ==>
              && !AllWhitespace(form.name) && Truthy(userId)
              && r.1[0] == InsertGroup(GroupData(form, userId.value))
              && r.1[0].group.name != ""
    ensures r.0 == Closed <==> !AllWhitespace(form.name) && Truthy(userId) && fault == CreatesCleanly
  {
    TrimEmptyIff(form.name);
    if Trim(form.name) == "" then (Failed("Group name is required"), [])
    else if !Truthy(userId) then (Failed("User not authenticated"), [])
    else
      var insert := InsertGroup(GroupData(form, userId.value));
      match fault
      case GroupInsertFails(m) => (Failed(OrElse(Some(m), "Failed to create group")), [insert])
      case GroupNotReturned => (Failed("Group created but no data returned"), [insert])
      case MemberInsertFails(m, _) =>
        (Failed("Failed to add you as group admin: " + m),
         [insert, InsertMember(newId, userId.value, "admin"), DeleteGroup(newId)])
      case CreatesCleanly => (Closed, [insert, InsertMember(newId, userId.value, "admin")])
  }

  /** The groups and memberships that exist after a sequence of writes, from
      a starting state; a failed request writes nothing, so only the writes
      that took effect are replayed. `newId` names the group an insert
      creates. */
  datatype Tables = Tables(groups: set<string>, members: set<(string, UserId, string)>)

  function Replay(t: Tables, writes: seq<Write>, newId: string, fault: GroupFault): Tables
  {
    if |writes| == 0 then t
    else
      var t' := Replay(t, writes[..|writes| - 1], newId, fault);
      match writes[|writes| - 1]
      case InsertGroup(_) => if fault.GroupInsertFails? then t' else Tables(t'.groups + {newId}, t'.members)
      case InsertMember(g, u, role) => if fault.MemberInsertFails? then t' else Tables(t'.groups, t'.members + {(g, u, role)})
      case DeleteGroup(g) => if fault.MemberInsertFails? && fault.deleteFails then t' else Tables(t'.groups - {g}, t'.members)
  }

  /** After the submission the new group exists exactly when the form
      closed, with the creator as its admin, or when the database stored it
      and then either returned no row or failed to delete it again after
      the admin insert failed. In those two cases the group is left with no
      member at all. */
  lemma NoGroupWithoutAdmin(t: Tables, form: GroupForm, userId: Option<UserId>, newId: string, fault: GroupFault)
    requires newId !in t.groups
    requires forall m :: m in t.members ==> m.0 != newId
    ensures var r := CreateGroupSubmit(form, userId, newId, fault);
            var after := Replay(t, r.1, newId, fault);
            && (newId in after.groups <==>
                  || r.0 == Closed
                  || (r.1 != [] && (fault == GroupNotReturned || (fault.MemberInsertFails? && fault.deleteFails))))
            && (r.0 == Closed ==> (newId, userId.value, "admin") in after.members)
            && (r.0 != Closed ==> forall m :: m in after.members ==> m.0 != newId)
  {
    var r := CreateGroupSubmit(form, userId, newId, fault);
    if r.1 != [] {
      var w := r.1;
      assert w[..1] == [w[0]];
      assert Replay(t, w[..1], newId, fault) ==
             Tables(if fault.GroupInsertFails? then t.groups else t.groups + {newId}, t.members) by {
        assert w[..1][..0] == [];
      }
      if |w| >= 2 {
        assert w[..2][..1] == w[..1];
      }
      if |w| == 3 {
        assert Replay(t, w[..2], newId, fault).members == t.members;
        assert w[..3] == w;
        assert w[..3][..2] == w[..2];
      }
    }
  }

  // ---------------------------------------------------------------------
  // Add reminder

  datatype ReminderForm = ReminderForm(title: string, message: string, reminderDate: string, reminderTime: string)

  /** The row inserted into `reminders`; the timestamp built from the date
      and time is given. */
  datatype ReminderInsert = ReminderInsert(userId: Option<UserId>, title: string, message: string, reminderAt: string, isRead: bool)

  /** `AddReminderModal.handleSubmit`: both a title and a date are needed
      before anything is inserted; the reminder is stored unread. */
  function AddReminderSubmit(form: ReminderForm, userId: Option<UserId>, timestamp: string, insertError: Option<string>)
    : (r: (Outcome, seq<ReminderInsert>))
    ensures r.1 == [] <==> form.title == "" || form.reminderDate == ""
    ensures r.1 == [] ==> r.0 == Failed("Title and date are required")
    ensures r.1 != [] ==> r.1 == [ReminderInsert(userId, form.title, form.message, timestamp, false)]
    ensures r.0 == Closed <==> form.title != "" && form.reminderDate != "" && insertError.None?
  {
    if form.title == "" || form.reminderDate == "" then (Failed("Title and date are required"), [])
    else
      var row := ReminderInsert(userId, form.title, form.message, timestamp, false);
      if insertError.Some? then (Failed(insertError.value), [row]) else (Closed, [row])
  }
}
