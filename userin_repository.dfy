/**
 * The queries of `UserInRepository` over the user rows of one tenant (the
 * tenant filter has already been applied to `us`).
 */
module UserInRepository {
  import opened Common
  import opened UserInnen

  function Logins(us: seq<UserIn>): (r: seq<Option<string>>)
    ensures |r| == |us| && forall i :: 0 <= i < |us| ==> r[i] == us[i].login
  {
    seq(|us|, i requires 0 <= i < |us| => us[i].login)
  }

  /** The ids of the rows: the projection `KundInRepository.Ids` makes, for the user table. */
  function UserIds(us: seq<UserIn>): (r: seq<Option<int>>)
    ensures |r| == |us| && forall i :: 0 <= i < |us| ==> r[i] == us[i].id
  {
    seq(|us|, i requires 0 <= i < |us| => us[i].id)
  }

  function MitId(id: int): UserIn -> bool {
    (u: UserIn) => u.id == Some(id)
  }

  /** `findById`: the tenant's user with this id. */
  function FindById(us: seq<UserIn>, id: int): (r: Einzelergebnis<UserIn>)
    ensures r == KeinErgebnis <==> forall i :: 0 <= i < |us| ==> us[i].id != Some(id)
    ensures r.Ergebnis? ==> r.wert in us && r.wert.id == Some(id)
  {
    Einzeln(Auswahl(us, MitId(id)))
  }

  /** `existsById`: `count(u) > 0` for this id; it agrees with `findById`. */
  function ExistsById(us: seq<UserIn>, id: int): (r: bool)
    ensures r <==> FindById(us, id) != KeinErgebnis
  {
    exists i | 0 <= i < |us| :: us[i].id == Some(id)
  }

  /** With unique ids, looking up a stored id yields exactly that user. */
  lemma FindByIdTrifft(us: seq<UserIn>, i: int)
    requires Distinct(UserIds(us)) && 0 <= i < |us| && us[i].id.Some?
    ensures FindById(us, us[i].id.value) == Ergebnis(us[i])
  {
    forall j | 0 <= j < |us| && j != i ensures !MitId(us[i].id.value)(us[j]) {
      assert UserIds(us)[i] != UserIds(us)[j];
    }
    AuswahlEinzeln(us, MitId(us[i].id.value), i);
  }

  function MitLogin(login: string): UserIn -> bool {
    (u: UserIn) => u.login == Some(login)
  }

  /** `findByLogin`: exact, case-sensitive comparison of the login. */
  function FindByLogin(us: seq<UserIn>, login: string): (r: Einzelergebnis<UserIn>)
    ensures r == KeinErgebnis <==> forall i :: 0 <= i < |us| ==> us[i].login != Some(login)
    ensures r.Ergebnis? ==> r.wert in us && r.wert.login == Some(login)
  {
    Einzeln(Auswahl(us, MitLogin(login)))
  }

  /** With unique logins (the table's unique constraint), a stored login finds exactly its user. */
  lemma FindByLoginTrifft(us: seq<UserIn>, i: int)
    requires Distinct(Logins(us)) && 0 <= i < |us| && us[i].login.Some?
    ensures FindByLogin(us, us[i].login.value) == Ergebnis(us[i])
  {
    forall j | 0 <= j < |us| && j != i ensures !MitLogin(us[i].login.value)(us[j]) {
      assert Logins(us)[i] != Logins(us)[j];
    }
    AuswahlEinzeln(us, MitLogin(us[i].login.value), i);
  }

  /** With unique logins the login lookup never sees several users. */
  lemma FindByLoginEindeutig(us: seq<UserIn>, login: string)
    requires Distinct(Logins(us))
    ensures FindByLogin(us, login) != MehrereErgebnisse
  {
    if FindByLogin(us, login) != KeinErgebnis {
      var i :| 0 <= i < |us| && us[i].login == Some(login);
      FindByLoginTrifft(us, i);
    }
  }

  function OhneId(id: int): UserIn -> bool {
    (u: UserIn) => u.id != Some(id)
  }

  /**
   * `deleteById`: the rows the `DELETE` leaves: no user with this id, every
   * other user kept in order, and nothing removed when the id is absent.
   */
  function DeleteById(us: seq<UserIn>, id: int): (r: seq<UserIn>)
    ensures forall i :: 0 <= i < |r| ==> r[i] in us && r[i].id != Some(id)
    ensures forall i :: 0 <= i < |us| && us[i].id != Some(id) ==> us[i] in r
    ensures !ExistsById(us, id) ==> r == us
  {
    var rest := Auswahl(us, OhneId(id));
    if !ExistsById(us, id) then AuswahlAlle(us, OhneId(id)); rest else rest
  }
}
