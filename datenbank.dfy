/**
 * The database, partitioned by tenant. Every entity of the system carries a
 * tenant id and every query is filtered by it, so the store is a map from
 * tenant to that tenant's rows, and each service call reads and writes one
 * entry of the map only.
 *
 * The unique constraints of the tables become the store invariant `Valid`:
 * one project per tenant (the `Option`), customer numbers unique per tenant,
 * logins unique per tenant, group labels unique per tenant (part of a valid
 * project). Row ids come from one counter, standing in for the identity
 * columns.
 */
module Datenbank {
  import opened Common
  import opened Gruppen
  import opened Projekte
  import opened KundInnen
  import opened UserInnen
  import KundInnennummer
  import KR = KundInRepository
  import UR = UserInRepository

  type Tenant = string

  /** One tenant's rows. The tenant's group table is the group list of its project. */
  datatype Mandant = Mandant(projekt: Option<Projekt>, kundInnen: seq<KundInZeile>, userInnen: seq<UserIn>)

  /** A tenant that has stored nothing yet. */
  const Leer: Mandant := Mandant(None, [], [])

  /** The rows `FROM Gruppe` sees for this tenant. */
  function GruppenVon(m: Mandant): (gs: seq<Gruppe>)
    ensures m.projekt.Some? && m.projekt.value.gruppen.Some? ==> gs == m.projekt.value.gruppen.value
    ensures m.projekt.None? ==> gs == []
  {
    if m.projekt.Some? && m.projekt.value.gruppen.Some? then m.projekt.value.gruppen.value else []
  }

  /** The tenant's entry of the map, empty when the tenant has never written. */
  function BestandIn(ms: map<Tenant, Mandant>, t: Tenant): Mandant {
    if t in ms then ms[t] else Leer
  }

  /** Writing one tenant's entry leaves every other tenant's rows as they were. */
  lemma MandantenGetrennt(ms: map<Tenant, Mandant>, t: Tenant, m: Mandant, u: Tenant)
    requires u != t
    ensures BestandIn(ms[t := m], u) == BestandIn(ms, u)
    ensures BestandIn(ms[t := m], t) == m
  {
  }

  // ---------------------------------------------------------------------
  // The constraints

  /** A stored project has an id and passed both validations. */
  predicate ProjektInvariante(p: Option<Projekt>) {
    p.Some? ==> p.value.id.Some? && ProjektGueltig(p.value)
  }

  /** A stored customer: an id already handed out and a valid number stored in lower case. */
  predicate KundInZeileGueltig(k: KundInZeile, n: nat) {
    && 0 <= k.id < n
    && k.daten.kundInnennummer.Some?
    && IsLower(k.daten.kundInnennummer.value)
    && KundInnennummer.IsValid(k.daten.kundInnennummer)
  }

  predicate KundInnenInvariante(ks: seq<KundInZeile>, n: nat) {
    && (forall i :: 0 <= i < |ks| ==> KundInZeileGueltig(ks[i], n))
    && Distinct(KR.Ids(ks))
    && KR.NummernEindeutig(ks)
  }

  /** A stored user: an id already handed out, and valid. */
  predicate UserInGueltig(u: UserIn, n: nat) {
    u.id.Some? && 0 <= u.id.value < n && IsValid(u)
  }

  predicate UserInnenInvariante(us: seq<UserIn>, n: nat) {
    && (forall i :: 0 <= i < |us| ==> UserInGueltig(us[i], n))
    && Distinct(UR.UserIds(us))
    && Distinct(UR.Logins(us))
  }

  predicate MandantGueltig(m: Mandant, n: nat) {
    ProjektInvariante(m.projekt) && KundInnenInvariante(m.kundInnen, n) && UserInnenInvariante(m.userInnen, n)
  }

  lemma MandantMonoton(m: Mandant, n: nat, n': nat)
    requires MandantGueltig(m, n) && n <= n'
    ensures MandantGueltig(m, n')
  {
  }

  /** Replacing the customer rows by rows that keep their constraints keeps the tenant valid. */
  lemma KundInnenGetauscht(m: Mandant, n: nat, ks: seq<KundInZeile>)
    requires MandantGueltig(m, n) && KundInnenInvariante(ks, n)
    ensures MandantGueltig(m.(kundInnen := ks), n)
  {
  }

  /** Replacing the user rows by rows that keep their constraints keeps the tenant valid. */
  lemma UserInnenGetauscht(m: Mandant, n: nat, us: seq<UserIn>)
    requires MandantGueltig(m, n) && UserInnenInvariante(us, n)
    ensures MandantGueltig(m.(userInnen := us), n)
  {
  }

  // ---------------------------------------------------------------------
  // Saving a row

  /** `save` of a customer whose id exists: that row is replaced, the others stay. */
  function ErsetzeKundIn(ks: seq<KundInZeile>, k: KundInZeile): (r: seq<KundInZeile>)
    ensures |r| == |ks|
    ensures forall i :: 0 <= i < |ks| ==> r[i] == if ks[i].id == k.id then k else ks[i]
  {
    seq(|ks|, i requires 0 <= i < |ks| => if ks[i].id == k.id then k else ks[i])
  }

  /** `save` of a user whose id exists: the merge of `ErsetzeKundIn`, for the user table. */
  function ErsetzeUserIn(us: seq<UserIn>, u: UserIn): (r: seq<UserIn>)
    ensures |r| == |us|
    ensures forall i :: 0 <= i < |us| ==> r[i] == if us[i].id == u.id then u else us[i]
  {
    seq(|us|, i requires 0 <= i < |us| => if us[i].id == u.id then u else us[i])
  }

  /** Appending a customer with the next id and a number no stored row matches keeps the constraints. */
  lemma KundInAnhaengen(ks: seq<KundInZeile>, n: nat, k: KundInZeile)
    requires KundInnenInvariante(ks, n)
    requires k.id == n && KundInZeileGueltig(k, n + 1)
    requires forall i :: 0 <= i < |ks| ==> !KR.NummerPasst(ks[i], k.daten.kundInnennummer.value)
    ensures KundInnenInvariante(ks + [k], n + 1)
  {
    IdsAnhaengen(ks, n, k);
    NummernAnhaengen(ks, k);
  }

  /** A row whose id is the next one keeps the ids distinct. */
  lemma IdsAnhaengen(ks: seq<KundInZeile>, n: nat, k: KundInZeile)
    requires Distinct(KR.Ids(ks)) && (forall i :: 0 <= i < |ks| ==> ks[i].id < n) && k.id == n
    ensures Distinct(KR.Ids(ks + [k]))
  {
    var r := ks + [k];
    forall i, j | 0 <= i < j < |r| ensures KR.Ids(r)[i] != KR.Ids(r)[j] {
      if j < |ks| {
        assert KR.Ids(ks)[i] != KR.Ids(ks)[j];
      }
    }
  }

  /** A row whose number no stored row matches keeps the numbers distinct. */
  lemma NummernAnhaengen(ks: seq<KundInZeile>, k: KundInZeile)
    requires Distinct(KR.Nummern(ks)) && k.daten.kundInnennummer.Some?
    requires forall i :: 0 <= i < |ks| ==> !KR.NummerPasst(ks[i], k.daten.kundInnennummer.value)
    ensures Distinct(KR.Nummern(ks + [k]))
  {
    var r := ks + [k];
    forall i, j | 0 <= i < j < |r| ensures KR.Nummern(r)[i] != KR.Nummern(r)[j] {
      if j == |ks| {
        assert !KR.NummerPasst(ks[i], k.daten.kundInnennummer.value);
      } else {
        assert KR.Nummern(ks)[i] != KR.Nummern(ks)[j];
      }
    }
  }

  /**
   * Replacing the row with `k`'s id keeps the constraints when no other row's
   * number matches `k`'s.
   */
  lemma KundInErsetzen(ks: seq<KundInZeile>, n: nat, k: KundInZeile)
    requires KundInnenInvariante(ks, n)
    requires KundInZeileGueltig(k, n)
    requires forall i :: 0 <= i < |ks| && ks[i].id != k.id ==>
               !KR.NummerPasst(ks[i], k.daten.kundInnennummer.value)
    ensures KundInnenInvariante(ErsetzeKundIn(ks, k), n)
  {
    var r := ErsetzeKundIn(ks, k);
    ErsetzenIds(ks, k);
    ErsetzenNummern(ks, n, k);
    assert forall i :: 0 <= i < |r| ==> KundInZeileGueltig(r[i], n);
  }

  /** Replacing a row by one with the same id leaves the id column as it was. */
  lemma ErsetzenIds(ks: seq<KundInZeile>, k: KundInZeile)
    ensures KR.Ids(ErsetzeKundIn(ks, k)) == KR.Ids(ks)
  {
    var r := ErsetzeKundIn(ks, k);
    assert forall i :: 0 <= i < |r| ==> KR.Ids(r)[i] == KR.Ids(ks)[i];
  }

  /** The number part of `KundInErsetzen`. */
  lemma ErsetzenNummern(ks: seq<KundInZeile>, n: nat, k: KundInZeile)
    requires KundInnenInvariante(ks, n)
    requires KundInZeileGueltig(k, n)
    requires forall i :: 0 <= i < |ks| && ks[i].id != k.id ==>
               !KR.NummerPasst(ks[i], k.daten.kundInnennummer.value)
    ensures KR.NummernEindeutig(ErsetzeKundIn(ks, k))
  {
    var r := ErsetzeKundIn(ks, k);
    forall i, j | 0 <= i < j < |r| ensures KR.Nummern(r)[i] != KR.Nummern(r)[j] {
      assert KR.Ids(ks)[i] != KR.Ids(ks)[j] && KR.Nummern(ks)[i] != KR.Nummern(ks)[j];
      ErsetzenPaar(ks[i], ks[j], k);
    }
  }

  /** Two stored rows with different ids and numbers still differ in number after `k` replaces the one with its id. */
  lemma ErsetzenPaar(a: KundInZeile, b: KundInZeile, k: KundInZeile)
    requires a.id != b.id && a.daten.kundInnennummer != b.daten.kundInnennummer
    requires k.daten.kundInnennummer.Some? && IsLower(k.daten.kundInnennummer.value)
    requires a.daten.kundInnennummer.Some? && IsLower(a.daten.kundInnennummer.value)
    requires b.daten.kundInnennummer.Some? && IsLower(b.daten.kundInnennummer.value)
    requires a.id != k.id ==> !KR.NummerPasst(a, k.daten.kundInnennummer.value)
    requires b.id != k.id ==> !KR.NummerPasst(b, k.daten.kundInnennummer.value)
    ensures (if a.id == k.id then k else a).daten.kundInnennummer != (if b.id == k.id then k else b).daten.kundInnennummer
  {
  }

  /** Appending a valid user with the next id and a login not yet stored keeps the constraints. */
  lemma UserInAnhaengen(us: seq<UserIn>, n: nat, u: UserIn)
    requires UserInnenInvariante(us, n)
    requires u.id == Some(n) && IsValid(u)
    requires forall i :: 0 <= i < |us| ==> us[i].login != u.login
    ensures UserInnenInvariante(us + [u], n + 1)
  {
    var r := us + [u];
    forall i, j | 0 <= i < j < |r| ensures UR.UserIds(r)[i] != UR.UserIds(r)[j] && UR.Logins(r)[i] != UR.Logins(r)[j] {
      if j == |us| {
        assert r[i] == us[i];
      } else {
        assert UR.UserIds(us)[i] != UR.UserIds(us)[j] && UR.Logins(us)[i] != UR.Logins(us)[j];
      }
    }
  }

  /** Replacing the user with `u`'s id keeps the constraints when no other user holds `u`'s login. */
  lemma UserInErsetzen(us: seq<UserIn>, n: nat, u: UserIn)
    requires UserInnenInvariante(us, n)
    requires UserInGueltig(u, n)
    requires forall i :: 0 <= i < |us| && us[i].id != u.id ==> us[i].login != u.login
    ensures UserInnenInvariante(ErsetzeUserIn(us, u), n)
  {
    var r := ErsetzeUserIn(us, u);
    assert UR.UserIds(r) == UR.UserIds(us);
    forall i, j | 0 <= i < j < |r| ensures UR.Logins(r)[i] != UR.Logins(r)[j] {
      assert UR.UserIds(us)[i] != UR.UserIds(us)[j] && UR.Logins(us)[i] != UR.Logins(us)[j];
    }
  }

  /** Replacing rows by one with the same id leaves the id column as it was. */
  lemma ErsetzenUserIds(us: seq<UserIn>, u: UserIn)
    ensures UR.UserIds(ErsetzeUserIn(us, u)) == UR.UserIds(us)
  {
    var r := ErsetzeUserIn(us, u);
    assert forall i :: 0 <= i < |us| ==> UR.UserIds(r)[i] == UR.UserIds(us)[i];
  }

  /** Ids and logins pairwise different. */
  function UserInnenGetrennt(): (UserIn, UserIn) -> bool {
    (a: UserIn, b: UserIn) => a.id != b.id && a.login != b.login
  }

  /** Unique ids and unique logins, stated pairwise. */
  lemma UserInnenPaarweise(us: seq<UserIn>)
    ensures Distinct(UR.UserIds(us)) && Distinct(UR.Logins(us)) <==> Paarweise(us, UserInnenGetrennt())
  {
    if Paarweise(us, UserInnenGetrennt()) {
      forall i, j | 0 <= i < j < |us| ensures UR.UserIds(us)[i] != UR.UserIds(us)[j] && UR.Logins(us)[i] != UR.Logins(us)[j] {
        assert UserInnenGetrennt()(us[i], us[j]);
      }
    }
    if Distinct(UR.UserIds(us)) && Distinct(UR.Logins(us)) {
      forall i, j | 0 <= i < j < |us| ensures UserInnenGetrennt()(us[i], us[j]) {
        assert UR.UserIds(us)[i] != UR.UserIds(us)[j] && UR.Logins(us)[i] != UR.Logins(us)[j];
      }
    }
  }

  /** Deleting users keeps the constraints. */
  lemma UserInEntfernen(us: seq<UserIn>, n: nat, id: int)
    requires UserInnenInvariante(us, n)
    ensures UserInnenInvariante(UR.DeleteById(us, id), n)
  {
    var r := UR.DeleteById(us, id);
    assert r == Auswahl(us, UR.OhneId(id));
    UserInnenPaarweise(us);
    AuswahlPaarweise(us, UR.OhneId(id), UserInnenGetrennt());
    UserInnenPaarweise(r);
    forall i | 0 <= i < |r| ensures UserInGueltig(r[i], n) {
      assert r[i] in us;
    }
  }

  // ---------------------------------------------------------------------
  // The store

  /** Every tenant of a snapshot satisfies the table constraints. */
  predicate StandGueltig(stand: map<Tenant, Mandant>, n: nat) {
    forall t :: t in stand ==> MandantGueltig(stand[t], n)
  }

  class Datenbank {
    var mandanten: map<Tenant, Mandant>
    var naechsteId: nat

    /** Every tenant's rows satisfy the table constraints. */
    ghost predicate Valid()
      reads this
    {
      forall t :: t in mandanten ==> MandantGueltig(mandanten[t], naechsteId)
    }

    /** An empty database. */
    constructor ()
      ensures mandanten == map[] && naechsteId == 0 && Valid()
    {
      mandanten := map[];
      naechsteId := 0;
    }

    /** The rows of tenant `t`: what every tenant-filtered query sees. */
    function Bestand(t: Tenant): Mandant
      reads this
    {
      BestandIn(mandanten, t)
    }

    /** The constraints hold for every tenant, including one that has written nothing. */
    lemma BestandGueltig(t: Tenant)
      requires Valid()
      ensures MandantGueltig(Bestand(t), naechsteId)
    {
    }

    /** The identity column hands out the next id. */
    method NeueId() returns (id: nat)
      modifies this
      ensures id == old(naechsteId) && naechsteId == id + 1
      ensures mandanten == old(mandanten)
      ensures old(Valid()) ==> Valid()
    {
      id := naechsteId;
      naechsteId := naechsteId + 1;
      if old(Valid()) {
        forall t | t in mandanten ensures MandantGueltig(mandanten[t], naechsteId) {
          MandantMonoton(mandanten[t], id, naechsteId);
        }
      }
    }

    /** Commit tenant `t`'s rows; no other tenant's entry changes. */
    method Schreibe(t: Tenant, m: Mandant)
      modifies this
      ensures mandanten == old(mandanten)[t := m] && naechsteId == old(naechsteId)
      ensures forall u :: u != t ==> Bestand(u) == old(Bestand(u))
      ensures old(Valid()) && MandantGueltig(m, naechsteId) ==> Valid()
    {
      mandanten := mandanten[t := m];
    }

    /**
     * Roll back a transaction: the rows return to the snapshot taken at its
     * start, while ids the identity column handed out stay consumed.
     */
    method Zuruecksetzen(stand: map<Tenant, Mandant>, ghost n0: nat)
      modifies this
      ensures mandanten == stand && naechsteId == old(naechsteId)
      ensures forall t :: Bestand(t) == BestandIn(stand, t)
      ensures n0 <= naechsteId && StandGueltig(stand, n0) ==> Valid()
    {
      mandanten := stand;
      if n0 <= naechsteId && StandGueltig(stand, n0) {
        forall t | t in mandanten ensures MandantGueltig(mandanten[t], naechsteId) {
          MandantMonoton(stand[t], n0, naechsteId);
        }
      }
    }
  }
}
