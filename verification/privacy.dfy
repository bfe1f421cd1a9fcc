/** The privacy settings page: the change-password form's checks and the
    request they lead to, and account deletion, which does nothing unless
    the user confirms and otherwise removes the user's data table by table
    before the account itself. */
module PrivacySettings {
  import opened JsValues
  import opened Strings

  type UserId = string

  // ---------------------------------------------------------------------
  // Change password

  /** What `PasswordChangeModal.handleSubmit` does with the three fields. */
  datatype PasswordCheck =
    | TooShort
    | Mismatch
    | Submit(currentPassword: string, newPassword: string)

  /** The length check comes first, then the confirmation check; only a new
      password of at least six UTF-16 code units that equals its confirmation is
      submitted, together with the current password as typed. */
  function CheckPassword(currentPassword: string, newPassword: string, confirmPassword: string): (c: PasswordCheck)
    ensures c == TooShort <==> Utf16Length(newPassword) < 6
    ensures c == Mismatch <==> Utf16Length(newPassword) >= 6 && newPassword != confirmPassword
    ensures c.Submit? <==> Utf16Length(newPassword) >= 6 && newPassword == confirmPassword
    ensures c.Submit? ==> c.currentPassword == currentPassword && c.newPassword == newPassword
  {
    if Utf16Length(newPassword) < 6 then TooShort
    else if newPassword != confirmPassword then Mismatch
    else Submit(currentPassword, newPassword)
  }

  /** The one request `handlePasswordChange` makes: set the new password. */
  datatype AuthRequest = UpdatePassword(password: string)

  datatype PasswordOutcome = Updated | PasswordFailed(message: string)

  /** `handlePasswordChange(currentPassword, newPassword)`, given the error
      the update returns, if any. */
  function ChangePassword(currentPassword: string, newPassword: string, updateError: Option<string>)
    : (r: (PasswordOutcome, seq<AuthRequest>))
    ensures r.1 == [UpdatePassword(newPassword)]
    ensures r.0 == Updated <==> updateError.None?
  {
    if updateError.Some? then (PasswordFailed(updateError.value), [UpdatePassword(newPassword)])
    else (Updated, [UpdatePassword(newPassword)])
  }

  /** The whole form, from the three fields to the requests made. */
  function SubmitPasswordForm(currentPassword: string, newPassword: string, confirmPassword: string,
                              updateError: Option<string>): (r: (Option<PasswordOutcome>, seq<AuthRequest>))
    ensures r.1 != [] <==> Utf16Length(newPassword) >= 6 && newPassword == confirmPassword
    ensures r.1 != [] ==> r.1 == [UpdatePassword(newPassword)]
  {
    match CheckPassword(currentPassword, newPassword, confirmPassword)
    case Submit(current, chosen) =>
      var (outcome, requests) := ChangePassword(current, chosen, updateError);
      (Some(outcome), requests)
    case _ => (None, [])
  }

  /** The current password is never checked: two submissions that differ
      only in it end alike and make the same requests. */
  lemma CurrentPasswordUnchecked(current1: string, current2: string, newPassword: string, confirmPassword: string,
                                 updateError: Option<string>)
    ensures SubmitPasswordForm(current1, newPassword, confirmPassword, updateError)
              == SubmitPasswordForm(current2, newPassword, confirmPassword, updateError)
  {
  }

  // ---------------------------------------------------------------------
  // Account deletion

  datatype Request =
    | DeleteSplitsOf(userId: UserId)
    | DeleteExpensesPaidBy(userId: UserId)
    | DeleteMembershipsOf(userId: UserId)
    | DeleteProfile(userId: UserId)
    | DeleteAuthUser(userId: UserId)
    | SignOut

  datatype DeletionOutcome = Cancelled | Deleted | DeletionFailed(message: string)

  /** `handleAccountDeletion`, given the answer to the confirmation prompt
      and the error deleting the auth user returns, if any. Unconfirmed, it
      does nothing. Confirmed, it removes the user's splits, then the
      expenses they paid, their memberships, their profile and last their
      account, every request acting on that user only; the four table
      deletions are issued without checking their results, and only a
      successful account deletion signs out. */
  function DeleteAccount(confirmed: bool, userId: UserId, authError: Option<string>)
    : (r: (DeletionOutcome, seq<Request>))
    ensures !confirmed <==> r == (Cancelled, [])
    ensures confirmed ==>
              |r.1| >= 5 && r.1[..5] == [DeleteSplitsOf(userId), DeleteExpensesPaidBy(userId), DeleteMembershipsOf(userId),
                           DeleteProfile(userId), DeleteAuthUser(userId)]
    ensures r.0 == Deleted <==> confirmed && authError.None?
    ensures r.0 == Deleted <==> |r.1| == 6 && r.1[5] == SignOut
    ensures forall q :: q in r.1 ==> q.SignOut? || q.userId == userId
  {
    if !confirmed then (Cancelled, [])
    else
      var deletes := [DeleteSplitsOf(userId), DeleteExpensesPaidBy(userId), DeleteMembershipsOf(userId),
                      DeleteProfile(userId), DeleteAuthUser(userId)];
      if authError.Some? then (DeletionFailed(authError.value), deletes)
      else (Deleted, deletes + [SignOut])
  }
}
