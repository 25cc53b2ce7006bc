/**
 * A user of a tenant (`UserIn`): a login and a role. Its only logic is the
 * validity check the service runs before every write.
 */
module UserInnen {
  import opened Common

  /** A user as the client sends it and as a row holds it; `id` is `null` before the first save. */
  datatype UserIn = UserIn(id: Option<int>, login: Option<string>, rolle: Option<string>)

  /** `isValid`: both login and role are non-blank in the sense of `StringUtils.isNotBlank`. */
  predicate IsValid(u: UserIn) {
    IsNotBlank(u.login) && IsNotBlank(u.rolle)
  }

  /** A login or role made only of whitespace, or empty, or `null`, makes the user invalid. */
  lemma LeerUngueltig(u: UserIn)
    requires || u.login.None? || u.rolle.None?
             || (u.login.Some? && forall i :: 0 <= i < |u.login.value| ==> IsWhitespace(u.login.value[i]))
             || (u.rolle.Some? && forall i :: 0 <= i < |u.rolle.value| ==> IsWhitespace(u.rolle.value[i]))
    ensures !IsValid(u)
  {
  }

  /** Validity does not look at the id. */
  lemma GueltigOhneId(u: UserIn, id: Option<int>)
    ensures IsValid(u.(id := id)) == IsValid(u)
  {
  }

  /**
   * The cases of the entity's unit test, and two consequences of Java's
   * notion of whitespace: an em space is blank, a no-break space is not.
   */
  lemma Beispiele()
    ensures IsValid(UserIn(None, Some("Login"), Some("Rolle")))
    ensures !IsValid(UserIn(None, None, Some("Rolle"))) && !IsValid(UserIn(None, Some(""), Some("Rolle")))
    ensures !IsValid(UserIn(None, Some("Login"), None)) && !IsValid(UserIn(None, Some("Login"), Some("")))
    ensures !IsValid(UserIn(None, Some(" \t\U{2003}"), Some("Rolle")))
    ensures IsValid(UserIn(None, Some("\U{00A0}"), Some("Rolle")))
  {
    assert !IsWhitespace("Login"[0]) && !IsWhitespace("Rolle"[0]);
    assert !IsWhitespace("\U{00A0}"[0]);
  }
}
