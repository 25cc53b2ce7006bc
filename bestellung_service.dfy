/**
 * `BestellungService`: an order sets up a tenant in one transaction, first
 * its project and then its users. The order's steps are the project and
 * user services; the transaction is explicit here: a runtime exception
 * rolls every row back, a checked exception commits what was written.
 */
module BestellungVerwaltung {
  import opened Common
  import opened Ausnahmen
  import opened Projekte
  import opened UserInnen
  import UR = UserInRepository
  import opened Datenbank
  import opened ProjektVerwaltung
  import opened UserInVerwaltung

  /** An order: the project to create and the users to create with it. */
  datatype Bestellung = Bestellung(projekt: Projekt, userInnen: seq<UserIn>)

  /** Every user of the list passes `isValid`. */
  predicate AlleGueltig(us: seq<UserIn>) {
    forall i :: 0 <= i < |us| ==> IsValid(us[i])
  }

  /**
   * The exceptions that are runtime exceptions and so mark the transaction
   * for rollback; the services' own exceptions are checked and commit.
   */
  predicate Laufzeitausnahme(e: Ausnahme) {
    e == NullZeiger || e == MehrdeutigesErgebnis || e == EindeutigkeitVerletzt
  }

  /** The exceptions project validation raises. */
  predicate ProjektFehler(e: Ausnahme) {
    e.UngueltigeGruppen? || e == UngueltigeFelddefinition
  }

  /** The tenant's rows once the order's project is saved under id `n`. */
  function MitProjekt(m: Mandant, p: Projekt, n: nat): Mandant {
    m.(projekt := Some(p.(id := Some(n))))
  }

  /**
   * The outcome of `create` of the user list `us` for a tenant holding the
   * users `zeilen` with `n` as the next id: the checks in the order the
   * service runs them, then the unique constraint on the saved rows.
   */
  function UserInnenAnlegen(us: seq<UserIn>, zeilen: seq<UserIn>, n: nat): Outcome<Ausnahme> {
    if !AlleGueltig(us) then Fail(UngueltigeUserInnendaten)
    else if !Distinct(UR.Logins(us)) then Fail(LoginMehrfachVergeben)
    else if !Eindeutig(AlleSpeichern(zeilen, n, us)) then Fail(EindeutigkeitVerletzt)
    else Pass
  }

  /**
   * The user step succeeds exactly when every user is valid, the logins of
   * the list are distinct and the saved rows keep logins unique; only the
   * last of these failing is a runtime exception.
   */
  lemma UserInnenAnlegenFaelle(us: seq<UserIn>, zeilen: seq<UserIn>, n: nat)
    ensures UserInnenAnlegen(us, zeilen, n) == Pass <==>
              AlleGueltig(us) && Distinct(UR.Logins(us)) && Eindeutig(AlleSpeichern(zeilen, n, us))
    ensures UserInnenAnlegen(us, zeilen, n).Fail? ==>
              (Laufzeitausnahme(UserInnenAnlegen(us, zeilen, n).error) <==> AlleGueltig(us) && Distinct(UR.Logins(us)))
    ensures !AlleGueltig(us) ==> UserInnenAnlegen(us, zeilen, n) == Fail(UngueltigeUserInnendaten)
    ensures AlleGueltig(us) && !Distinct(UR.Logins(us)) ==> UserInnenAnlegen(us, zeilen, n) == Fail(LoginMehrfachVergeben)
  {
  }

  /**
   * For a tenant without users, new users are saved exactly when each is
   * valid and their logins are distinct: the unique constraint cannot fail.
   */
  lemma UserInnenImLeerenMandanten(us: seq<UserIn>, n: nat)
    requires forall i :: 0 <= i < |us| ==> us[i].id.None?
    ensures UserInnenAnlegen(us, [], n) == Pass <==> AlleGueltig(us) && Distinct(UR.Logins(us))
  {
    if AlleGueltig(us) && Distinct(UR.Logins(us)) {
      NeueUserInnenEindeutig([], n, us);
    }
  }

  /** Whether an order's project step succeeds: no project yet and a valid one ordered. */
  predicate ProjektAngelegt(m: Mandant, b: Bestellung) {
    m.projekt.None? && ProjektGueltig(b.projekt)
  }

  /** The tenant's rows after a successful order: the project under id `n`, the users saved after it. */
  function Bestellt(m: Mandant, n: nat, b: Bestellung): Mandant {
    MitProjekt(m, b.projekt, n).(userInnen := AlleSpeichern(m.userInnen, n + 1, b.userInnen).zeilen)
  }

  /** Writing a tenant's rows twice leaves the second write. */
  lemma ZweimalGeschrieben(ms: map<Tenant, Mandant>, t: Tenant, m: Mandant, m': Mandant)
    ensures ms[t := m][t := m'] == ms[t := m']
  {
  }

  class BestellungService {
    const db: Datenbank
    const projektService: ProjektService
    const userInService: UserInService

    /** Both services work on the same store. */
    predicate Verbunden() {
      projektService.db == db && userInService.db == db
    }

    constructor (projektService: ProjektService, userInService: UserInService)
      requires projektService.db == userInService.db
      ensures Verbunden() && this.projektService == projektService && this.userInService == userInService
    {
      this.db := projektService.db;
      this.projektService := projektService;
      this.userInService := userInService;
    }

    /** `bestellen`: a `null` order fails at once, before anything is read or written. */
    method Bestellen(t: Tenant, b: Option<Bestellung>) returns (r: Outcome<Ausnahme>)
      requires Verbunden()
      modifies db
      ensures b.None? ==>
                r == Fail(NullZeiger) && db.mandanten == old(db.mandanten) && db.naechsteId == old(db.naechsteId)
      ensures b.Some? && old(db.Bestand(t)).projekt.Some? ==> r == Fail(ProjektBereitsVorhanden)
      ensures b.Some? && old(db.Bestand(t)).projekt.None? && !ProjektGueltig(b.value.projekt) ==>
                r.Fail? && ProjektFehler(r.error)
      ensures b.Some? && ProjektAngelegt(old(db.Bestand(t)), b.value) ==>
                r == UserInnenAnlegen(b.value.userInnen, old(db.Bestand(t)).userInnen, old(db.naechsteId) + 1)
      ensures b.Some? && r == Pass ==>
                db.mandanten == old(db.mandanten)[t := Bestellt(old(db.Bestand(t)), old(db.naechsteId), b.value)]
      ensures r.Fail? && Laufzeitausnahme(r.error) ==> db.mandanten == old(db.mandanten)
      ensures b.Some? && r.Fail? && !Laufzeitausnahme(r.error) && ProjektAngelegt(old(db.Bestand(t)), b.value) ==>
                db.mandanten == old(db.mandanten)[t := MitProjekt(old(db.Bestand(t)), b.value.projekt, old(db.naechsteId))]
      ensures b.Some? && r.Fail? && !ProjektAngelegt(old(db.Bestand(t)), b.value) ==>
                db.mandanten == old(db.mandanten) && db.naechsteId == old(db.naechsteId)
      ensures forall u :: u != t ==> db.Bestand(u) == old(db.Bestand(u))
      ensures old(db.Valid()) ==> db.Valid()
    {
      if b.None? {
        return Fail(NullZeiger);
      }
      r := Ausfuehren(t, b.value);
    }

    /**
     * The body of `bestellen` for an order: the project is created, and
     * only if that succeeds the users. The project takes the next id, the
     * users the ids after it.
     */
    method Ausfuehren(t: Tenant, b: Bestellung) returns (r: Outcome<Ausnahme>)
      requires Verbunden()
      modifies db
      ensures old(db.Bestand(t)).projekt.Some? ==> r == Fail(ProjektBereitsVorhanden)
      ensures old(db.Bestand(t)).projekt.None? && !ProjektGueltig(b.projekt) ==> r.Fail? && ProjektFehler(r.error)
      ensures ProjektAngelegt(old(db.Bestand(t)), b) ==>
                r == UserInnenAnlegen(b.userInnen, old(db.Bestand(t)).userInnen, old(db.naechsteId) + 1)
      ensures r == Pass ==> db.mandanten == old(db.mandanten)[t := Bestellt(old(db.Bestand(t)), old(db.naechsteId), b)]
      ensures r.Fail? && Laufzeitausnahme(r.error) ==> db.mandanten == old(db.mandanten)
      ensures r.Fail? && !Laufzeitausnahme(r.error) && ProjektAngelegt(old(db.Bestand(t)), b) ==>
                db.mandanten == old(db.mandanten)[t := MitProjekt(old(db.Bestand(t)), b.projekt, old(db.naechsteId))]
      ensures r.Fail? && !ProjektAngelegt(old(db.Bestand(t)), b) ==>
                db.mandanten == old(db.mandanten) && db.naechsteId == old(db.naechsteId)
      ensures old(db.Valid()) ==> db.Valid()
    {
      var vorher := db.mandanten;
      ghost var m0 := db.Bestand(t);
      ghost var n0 := db.naechsteId;
      ghost var gueltig := db.Valid() && StandGueltig(vorher, n0);
      var projekt := projektService.Create(t, b.projekt);
      if projekt.Err? {
        return Fail(projekt.error);
      }
      r := UserInnenBestellen(t, b, vorher, m0, n0, gueltig);
    }

    /**
     * The user step of an order whose transaction started with the rows
     * `vorher`, the tenant's rows `m0` among them, and the id counter at
     * `n0`, and whose project is saved: `create` of the list; a runtime
     * exception rolls the transaction back to `vorher`, a checked one keeps
     * what is written.
     */
    method UserInnenBestellen(t: Tenant, b: Bestellung, vorher: map<Tenant, Mandant>, ghost m0: Mandant,
                              ghost n0: nat, ghost gueltig: bool)
      returns (r: Outcome<Ausnahme>)
      requires Verbunden()
      requires m0 == BestandIn(vorher, t)
      requires db.mandanten == vorher[t := MitProjekt(m0, b.projekt, n0)] && db.naechsteId == n0 + 1
      requires gueltig ==> db.Valid() && StandGueltig(vorher, n0)
      modifies db
      ensures r == UserInnenAnlegen(b.userInnen, m0.userInnen, n0 + 1)
      ensures r == Pass ==> db.mandanten == vorher[t := Bestellt(m0, n0, b)]
      ensures r.Fail? && Laufzeitausnahme(r.error) ==> db.mandanten == vorher
      ensures r.Fail? && !Laufzeitausnahme(r.error) ==> db.mandanten == vorher[t := MitProjekt(m0, b.projekt, n0)]
      ensures gueltig ==> db.Valid()
    {
      assert db.Bestand(t).userInnen == m0.userInnen;
      var userInnen := userInService.CreateAll(t, b.userInnen);
      if userInnen.Err? {
        if Laufzeitausnahme(userInnen.error) {
          db.Zuruecksetzen(vorher, n0);
        }
        return Fail(userInnen.error);
      }
      ZweimalGeschrieben(vorher, t, MitProjekt(m0, b.projekt, n0), Bestellt(m0, n0, b));
      return Pass;
    }

    /** `bereitsVorhanden`: whether the tenant already has a project. */
    method BereitsVorhanden(t: Tenant) returns (vorhanden: bool)
      requires Verbunden()
      ensures vorhanden <==> db.Bestand(t).projekt.Some?
    {
      vorhanden := projektService.IsProjektBereitsVorhanden(t);
    }
  }

  /**
   * A successful order for a tenant that has stored nothing leaves it with
   * the ordered project, groups and field definitions included, under id
   * `n`, and exactly the ordered users in order, under the ids after `n`.
   */
  lemma {:induction false} BestelltVollstaendig(n: nat, b: Bestellung)
    requires forall i :: 0 <= i < |b.userInnen| ==> b.userInnen[i].id.None?
    ensures Bestellt(Leer, n, b).projekt == Some(b.projekt.(id := Some(n)))
    ensures |Bestellt(Leer, n, b).userInnen| == |b.userInnen|
    ensures forall i :: 0 <= i < |b.userInnen| ==>
              var u := Bestellt(Leer, n, b).userInnen[i];
              u.login == b.userInnen[i].login && u.rolle == b.userInnen[i].rolle && u.id == Some(n + 1 + i)
  {
    NurNeue([], n + 1, b.userInnen);
  }

  /**
   * An order of a valid project and new users with distinct logins for a
   * tenant that has stored nothing succeeds, `bereitsVorhanden` is then
   * true, and the same order a second time fails because the project
   * exists; no other tenant changes.
   */
  method ZweiteBestellungScheitert(s: BestellungService, t: Tenant, b: Bestellung)
    returns (erste: Outcome<Ausnahme>, vorhanden: bool, zweite: Outcome<Ausnahme>)
    requires s.Verbunden()
    requires s.db.Bestand(t) == Leer
    requires ProjektGueltig(b.projekt) && AlleGueltig(b.userInnen) && Distinct(UR.Logins(b.userInnen))
    requires forall i :: 0 <= i < |b.userInnen| ==> b.userInnen[i].id.None?
    modifies s.db
    ensures erste == Pass && vorhanden && zweite == Fail(ProjektBereitsVorhanden)
    ensures s.db.Bestand(t) == Bestellt(Leer, old(s.db.naechsteId), b)
    ensures forall u :: u != t ==> s.db.Bestand(u) == old(s.db.Bestand(u))
  {
    ghost var n := s.db.naechsteId;
    UserInnenImLeerenMandanten(b.userInnen, n + 1);
    erste := s.Bestellen(t, Some(b));
    assert s.db.Bestand(t) == Bestellt(Leer, n, b);
    vorhanden := s.BereitsVorhanden(t);
    zweite := s.Bestellen(t, Some(b));
  }
}
