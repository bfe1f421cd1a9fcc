/** The profile page's loading and cancel rules: a user without a stored
    profile gets one built from the sign-up data, its name taken from the
    sign-up metadata, else the part of the email before the first '@', else
    'User'; the edit form is filled from the profile with '' for a missing
    bio or phone; cancelling an edit refills the form from the profile. */
module ProfileForm {
  import opened JsValues
  import opened Strings

  type UserId = string

  /** The signed-in user: id, email, and the name given at sign-up. */
  datatype User = User(id: UserId, email: Option<string>, metadataName: Option<string>)

  /** A `profiles` row; absent columns are `None`. */
  datatype Profile = Profile(id: UserId, email: Option<string>, name: Option<string>, bio: Option<string>, phone: Option<string>)

  datatype FormData = FormData(name: string, bio: string, phone: string)

  /** `email?.split('@')[0]`. */
  function LocalPart(email: Option<string>): (l: Option<string>)
    ensures l.Some? <==> email.Some?
  {
    if email.Some? then Some(Split(email.value, '@')[0]) else None
  }

  /** The local part is the text before the first '@': it holds no '@', the
      email starts with it, and the email either ends there or continues
      with '@'. */
  lemma LocalPartIsPrefix(email: string)
    ensures var l := LocalPart(Some(email)).value;
            && '@' !in l
            && StartsWith(email, l)
            && (|l| == |email| || email[|l|] == '@')
  {
    var fields := Split(email, '@');
    if |fields| > 1 {
      assert email == fields[0] + ['@'] + Join(fields[1..], '@');
      assert email[..|fields[0]|] == fields[0];
    }
  }

  /** `user_metadata?.name || email?.split('@')[0] || 'User'`: never empty. */
  function DefaultName(user: User): (n: string)
    ensures n != ""
    ensures Truthy(user.metadataName) ==> n == user.metadataName.value
    ensures !Truthy(user.metadataName) && Truthy(LocalPart(user.email)) ==> n == LocalPart(user.email).value
    ensures !Truthy(user.metadataName) && !Truthy(LocalPart(user.email)) ==> n == "User"
  {
    OrElse(user.metadataName, OrElse(LocalPart(user.email), "User"))
  }

  /** The profile built for a user who has none yet; bio and phone are left
      unset. */
  function NewProfile(user: User): (p: Profile)
    ensures p.id == user.id && p.email == user.email
    ensures p.name == Some(DefaultName(user)) && p.bio.None? && p.phone.None?
  {
    Profile(user.id, user.email, Some(DefaultName(user)), None, None)
  }

  /** What loading the page ends with: the profile shown, the form's
      contents, and the profiles inserted. */
  datatype Loaded = Loaded(profile: Profile, form: FormData, inserted: seq<Profile>)

  /** `loadProfile`, given the stored profile (`None` when the query fails
      or finds nothing) and the row the insert returns, if any. */
  function LoadProfile(user: User, stored: Option<Profile>, created: Option<Profile>): (r: Loaded)
    ensures r.form.name != ""
    ensures stored.Some? ==> r.inserted == [] && r.profile == stored.value
    ensures stored.None? ==> r.inserted == [NewProfile(user)]
    ensures stored.None? && created.Some? ==> r.profile == created.value
    ensures stored.None? && created.None? ==> r.profile == NewProfile(user)
    ensures Truthy(r.profile.name) ==> r.form.name == r.profile.name.value
    ensures r.form.bio == OrElse(r.profile.bio, "") && r.form.phone == OrElse(r.profile.phone, "")
  {
    if stored.None? then
      var fallback := NewProfile(user);
      var shown := if created.Some? then created.value else fallback;
      var name := OrElse(if created.Some? then created.value.name else None, DefaultName(user));
      Loaded(shown, FormData(name, OrElse(shown.bio, ""), OrElse(shown.phone, "")), [fallback])
    else
      var p := stored.value;
      Loaded(p, FormData(OrElse(p.name, DefaultName(user)), OrElse(p.bio, ""), OrElse(p.phone, "")), [])
  }

  /** The cancel button: refill the form from the profile shown, with ''
      for anything missing. */
  function Cancel(profile: Option<Profile>): (f: FormData)
    ensures profile.None? ==> f == FormData("", "", "")
    ensures profile.Some? ==> f.name == OrElse(profile.value.name, "")
    ensures profile.Some? ==> f.bio == OrElse(profile.value.bio, "") && f.phone == OrElse(profile.value.phone, "")
  {
    if profile.None? then FormData("", "", "")
    else FormData(OrElse(profile.value.name, ""), OrElse(profile.value.bio, ""), OrElse(profile.value.phone, ""))
  }

  /** Cancelling right after loading restores the loaded form exactly when
      the profile shown has a name; a stored profile without one loses the
      fallback name and leaves the name field blank. */
  lemma CancelRestoresLoadedForm(user: User, stored: Option<Profile>, created: Option<Profile>)
    ensures var r := LoadProfile(user, stored, created);
            Cancel(Some(r.profile)) == r.form <==> Truthy(r.profile.name)
  {
  }
}
