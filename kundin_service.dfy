/**
 * `KundInService`: creating and updating customers, with the coin toss that
 * assigns a group once, and the read operations over one tenant's customers.
 *
 * The random draw is a parameter `v`; its precondition is the contract of
 * `Zufallsgenerator.zufallsgenerator`: a value between the smallest lower
 * bound and the largest upper bound of the tenant's groups, whenever that
 * range can be drawn from at all.
 */
module KundInVerwaltung {
  import opened Common
  import opened Ausnahmen
  import opened Gruppen
  import opened Projekte
  import opened GruppeRepository
  import opened KundInnen
  import KundInnennummer
  import KR = KundInRepository
  import opened Datenbank

  /** The page size of the search (`PageRequest.of(0, 101)`). */
  const Seitengroesse: nat := 101

  // ---------------------------------------------------------------------
  // The draw

  /**
   * `nextInt(min, max + 1)` in Java `int` arithmetic: it refuses a bound
   * that is not above the origin, which includes `max + 1` wrapping at the
   * largest `int`.
   */
  predicate BereichZiehbar(gs: seq<Gruppe>)
    requires |gs| > 0
  {
    Wrap32(MaxObergrenze(gs) + 1) > MinUntergrenze(gs)
  }

  /** The draw `v` honours the generator's contract for the groups `gs`. */
  predicate ZiehungZulaessig(gs: seq<Gruppe>, v: int) {
    |gs| > 0 && BereichZiehbar(gs) ==> MinUntergrenze(gs) <= v <= MaxObergrenze(gs)
  }

  /** A drawable range is exactly one whose largest upper bound is below the largest `int` and not below the smallest lower bound. */
  lemma BereichZiehbarGenau(gs: seq<Gruppe>)
    requires |gs| > 0
    ensures BereichZiehbar(gs) <==> MaxObergrenze(gs) < IntMax && MinUntergrenze(gs) <= MaxObergrenze(gs)
  {
    PlusEinsWrap(MaxObergrenze(gs));
  }

  /**
   * The decision `muenzwurf` takes for a customer whose group is `gruppe`,
   * over the tenant's groups `gs` and the draw `v`: the group to assign, or
   * the exception, in the order the source checks.
   */
  function Auslosung(gruppe: Option<Gruppe>, gs: seq<Gruppe>, v: int): (r: Result<Gruppe, Ausnahme>)
    ensures gruppe.Some? ==> r == Err(GruppeBereitsGesetzt)
    ensures gruppe.None? && |gs| == 0 ==> r == Err(KeineGruppen)
    ensures gruppe.None? && |gs| > 0 && !BereichZiehbar(gs) ==> r == Err(UngueltigerZufallsbereich)
    ensures r == Err(GruppeNichtGefunden) <==>
              gruppe.None? && |gs| > 0 && BereichZiehbar(gs) && forall i :: 0 <= i < |gs| ==> !Enthaelt(gs[i], v)
    ensures r.Ok? ==> gruppe.None? && r.value in gs && Enthaelt(r.value, v)
  {
    if gruppe.Some? then Err(GruppeBereitsGesetzt)
    else if |gs| == 0 then Err(KeineGruppen)
    else if !BereichZiehbar(gs) then Err(UngueltigerZufallsbereich)
    else
      match FindGruppeByZufallswert(gs, v)
      case KeinErgebnis => Err(GruppeNichtGefunden)
      case MehrereErgebnisse => Err(MehrdeutigesErgebnis)
      case Ergebnis(g) => Ok(g)
  }

  /**
   * On a valid group list whose upper bound stays below the largest `int`,
   * the coin toss for a customer without a group always succeeds and picks
   * the one group that contains the draw.
   */
  lemma AuslosungGelingt(gs: seq<Gruppe>, v: int) returns (i: int)
    requires GueltigeGruppen(gs) && MaxObergrenze(gs) < IntMax
    requires ZiehungZulaessig(gs, v)
    ensures 0 <= i < |gs| && Auslosung(None, gs, v) == Ok(gs[i])
    ensures forall j :: 0 <= j < |gs| && Enthaelt(gs[j], v) ==> j == i
  {
    KetteBereich(gs);
    KetteAufsteigend(gs, 0, |gs| - 1);
    BereichZiehbarGenau(gs);
    i := ZufallswertEindeutig(gs, v);
  }

  /**
   * A group list that only the 32-bit contact check of `validiereGruppen`
   * accepts has a group ending at the largest `int`, so `nextInt` refuses the
   * range and every coin toss over it fails before any group is looked up.
   */
  lemma UeberlaufUnziehbar(gs: seq<Gruppe>, v: int)
    requires GueltigeGruppen32(gs) && !GueltigeGruppen(gs)
    ensures MaxObergrenze(gs) == IntMax
    ensures Auslosung(None, gs, v) == Err(UngueltigerZufallsbereich)
  {
    var i :| 0 <= i < |gs| - 1 && !Lueckenlos(gs[i], gs[i + 1]);
    Lueckenlos32Abweichung(gs[i], gs[i + 1]);
    assert gs[i].obergrenze == IntMax;
    BereichZiehbarGenau(gs);
  }

  /**
   * In a valid store a tenant with groups has a valid list whose range is
   * not empty; it can be drawn when, in addition, its upper bound stays
   * below the largest `int`.
   */
  lemma GespeicherteGruppenZiehbar(m: Mandant, n: nat)
    requires MandantGueltig(m, n) && |GruppenVon(m)| > 0
    ensures GueltigeGruppen(GruppenVon(m))
    ensures MinUntergrenze(GruppenVon(m)) <= MaxObergrenze(GruppenVon(m))
  {
    var gs := GruppenVon(m);
    KetteBereich(gs);
    KetteAufsteigend(gs, 0, |gs| - 1);
  }

  // ---------------------------------------------------------------------
  // isKundInnennummerVergeben

  /**
   * `isKundInnennummerVergeben`: the number is taken when a row holds it,
   * unless that row is the excluded one.
   */
  function IstVergeben(ks: seq<KundInZeile>, nummer: string, ausgeschlossen: Option<int>): (r: Result<bool, Ausnahme>)
    ensures r == Err(MehrdeutigesErgebnis) <==> KR.FindByKundInnennummer(ks, nummer) == MehrereErgebnisse
    ensures r == Ok(false) <==>
              || KR.FindByKundInnennummer(ks, nummer) == KeinErgebnis
              || (KR.FindByKundInnennummer(ks, nummer).Ergebnis?
                  && ausgeschlossen == Some(KR.FindByKundInnennummer(ks, nummer).wert.id))
  {
    match KR.FindByKundInnennummer(ks, nummer)
    case KeinErgebnis => Ok(false)
    case MehrereErgebnisse => Err(MehrdeutigesErgebnis)
    case Ergebnis(k) => Ok(ausgeschlossen.None? || ausgeschlossen.value != k.id)
  }

  /**
   * Under the stored-number constraint the check never fails, and a number
   * is taken exactly when some row other than the excluded one matches it
   * up to case.
   */
  lemma IstVergebenGenau(ks: seq<KundInZeile>, nummer: string, ausgeschlossen: Option<int>)
    requires KR.NummernEindeutig(ks)
    ensures IstVergeben(ks, nummer, ausgeschlossen).Ok?
    ensures IstVergeben(ks, nummer, ausgeschlossen) == Ok(true) <==>
              exists i :: 0 <= i < |ks| && KR.NummerPasst(ks[i], nummer)
                          && (ausgeschlossen.None? || ausgeschlossen.value != ks[i].id)
  {
    KR.FindByKundInnennummerEindeutig(ks, nummer);
    if KR.FindByKundInnennummer(ks, nummer).Ergebnis? {
      var i :| 0 <= i < |ks| && KR.NummerPasst(ks[i], nummer);
      KR.FindByKundInnennummerTrifft(ks, nummer, i);
      forall j | 0 <= j < |ks| && KR.NummerPasst(ks[j], nummer) ensures j == i {
        KR.FindByKundInnennummerTrifft(ks, nummer, j);
      }
    }
  }

  /** Nobody else holds the number: every matching row is the excluded one. */
  lemma NichtVergebenFrei(ks: seq<KundInZeile>, nummer: string, ausgeschlossen: Option<int>)
    requires KR.NummernEindeutig(ks)
    requires IstVergeben(ks, nummer, ausgeschlossen) == Ok(false)
    ensures forall i :: 0 <= i < |ks| && KR.NummerPasst(ks[i], nummer) ==>
              ausgeschlossen == Some(ks[i].id)
  {
    IstVergebenGenau(ks, nummer, ausgeschlossen);
  }

  /** No row other than the one with id `ausgeschlossen` holds `nummer`, up to case. */
  predicate Frei(ks: seq<KundInZeile>, nummer: string, ausgeschlossen: Option<int>) {
    forall i :: 0 <= i < |ks| && KR.NummerPasst(ks[i], nummer) ==> ausgeschlossen == Some(ks[i].id)
  }

  /**
   * `checkKundinnennummer` as a decision over the stored rows: the format of
   * the number first, then whether it is taken.
   */
  function Pruefung(ks: seq<KundInZeile>, nummer: Option<string>, ausgeschlossen: Option<int>): (r: Outcome<Ausnahme>)
    ensures !KundInnennummer.IsValid(nummer) ==> r == Fail(UngueltigeKundInnennummer)
    ensures r == Pass ==> KundInnennummer.IsValid(nummer) && Frei(ks, Lower(nummer.value), ausgeschlossen)
    ensures KR.NummernEindeutig(ks) ==>
              (r == Pass <==> KundInnennummer.IsValid(nummer) && Frei(ks, Lower(nummer.value), ausgeschlossen))
    ensures KR.NummernEindeutig(ks) && KundInnennummer.IsValid(nummer) && !Frei(ks, Lower(nummer.value), ausgeschlossen) ==>
              r == Fail(KundInnennummerBereitsVorhanden)
  {
    if !KundInnennummer.IsValid(nummer) then Fail(UngueltigeKundInnennummer)
    else
      var vergeben := IstVergeben(ks, Lower(nummer.value), ausgeschlossen);
      VergebenFrei(ks, Lower(nummer.value), ausgeschlossen);
      match vergeben
      case Err(e) => Fail(e)
      case Ok(b) => if b then Fail(KundInnennummerBereitsVorhanden) else Pass
  }

  /**
   * A number the lookup does not attribute to anybody else is free; under
   * the stored-number constraint the converse holds as well.
   */
  lemma VergebenFrei(ks: seq<KundInZeile>, nummer: string, ausgeschlossen: Option<int>)
    ensures IstVergeben(ks, nummer, ausgeschlossen) == Ok(false) ==> Frei(ks, nummer, ausgeschlossen)
    ensures KR.NummernEindeutig(ks) ==>
              IstVergeben(ks, nummer, ausgeschlossen).Ok?
              && (IstVergeben(ks, nummer, ausgeschlossen) == Ok(false) <==> Frei(ks, nummer, ausgeschlossen))
  {
    if IstVergeben(ks, nummer, ausgeschlossen) == Ok(false) {
      var auswahl := Auswahl(ks, KR.MitNummer(nummer));
      forall i | 0 <= i < |ks| && KR.NummerPasst(ks[i], nummer) ensures ausgeschlossen == Some(ks[i].id) {
        assert KR.MitNummer(nummer)(ks[i]);
        assert ks[i] in auswahl;
      }
    }
    if KR.NummernEindeutig(ks) {
      IstVergebenGenau(ks, nummer, ausgeschlossen);
    }
  }

  /**
   * The group a saved customer ends up with, given the group it had
   * (`None` for a new one), its participation and the draw: only
   * `Teilnahme` without a group tosses the coin.
   */
  function Zuordnung(alt: Option<Gruppe>, grund: Option<TeilnahmeAbsagegrund>, gs: seq<Gruppe>, v: int): (r: Result<Option<Gruppe>, Ausnahme>)
    ensures alt.Some? ==> r == Ok(alt)
    ensures grund != Some(Teilnahme) ==> r == Ok(alt)
    ensures alt.None? && grund == Some(Teilnahme) ==>
              (r.Ok? <==> Auslosung(None, gs, v).Ok?)
              && (r.Ok? ==> r.value.Some? && r.value.value in gs && Enthaelt(r.value.value, v))
  {
    if grund == Some(Teilnahme) && alt.None? then
      match Auslosung(None, gs, v)
      case Err(e) => Err(e)
      case Ok(g) => Ok(Some(g))
    else Ok(alt)
  }

  /**
   * What a passed number check leaves in the data: a present, lower-case,
   * well-formed number that no other row holds.
   */
  predicate NummerGeprueft(ks: seq<KundInZeile>, nummer: Option<string>, ausgeschlossen: Option<int>) {
    && nummer.Some? && IsLower(nummer.value) && KundInnennummer.IsValid(nummer)
    && Frei(ks, nummer.value, ausgeschlossen)
  }

  /** Appending a new customer whose number passed the checks keeps the tenant valid. */
  lemma AnlegenGueltig(m: Mandant, n: nat, zeile: KundInZeile)
    requires MandantGueltig(m, n)
    requires zeile.id == n && NummerGeprueft(m.kundInnen, zeile.daten.kundInnennummer, None)
    ensures MandantGueltig(m.(kundInnen := m.kundInnen + [zeile]), n + 1)
  {
    MandantMonoton(m, n, n + 1);
    KundInAnhaengen(m.kundInnen, n, zeile);
    KundInnenGetauscht(m, n + 1, m.kundInnen + [zeile]);
  }

  /** Replacing a stored customer with data whose number passed the checks keeps the tenant valid. */
  lemma ErsetzenGueltig(m: Mandant, n: nat, alt: KundInZeile, zeile: KundInZeile)
    requires MandantGueltig(m, n)
    requires alt in m.kundInnen && zeile.id == alt.id
    requires NummerGeprueft(m.kundInnen, zeile.daten.kundInnennummer, Some(zeile.id))
    ensures MandantGueltig(m.(kundInnen := ErsetzeKundIn(m.kundInnen, zeile)), n)
  {
    assert KundInZeileGueltig(alt, n);
    KundInErsetzen(m.kundInnen, n, zeile);
    KundInnenGetauscht(m, n, ErsetzeKundIn(m.kundInnen, zeile));
  }

  class KundInService {
    const db: Datenbank

    constructor (db: Datenbank)
      ensures this.db == db
    {
      this.db := db;
    }

    /**
     * `muenzwurf`: assigns the group `Auslosung` picks; on every exception
     * the customer keeps the group it had.
     */
    method Muenzwurf(t: Tenant, k: KundIn, v: int) returns (r: Outcome<Ausnahme>)
      requires ZiehungZulaessig(GruppenVon(db.Bestand(t)), v)
      modifies k
      ensures k.id == old(k.id) && k.kundInnendaten == old(k.kundInnendaten)
      ensures var a := Auslosung(old(k.gruppe), GruppenVon(db.Bestand(t)), v);
              && (a.Ok? ==> r == Pass && k.gruppe == Some(a.value))
              && (a.Err? ==> r == Fail(a.error) && k.gruppe == old(k.gruppe))
    {
      var gs := GruppenVon(db.Bestand(t));
      var auslosung := Auslosung(k.gruppe, gs, v);
      match auslosung {
        case Err(e) => return Fail(e);
        case Ok(g) =>
          k.SetGruppe(Some(g));
          return Pass;
      }
    }

    /**
     * `checkKundinnennummer`: the number's format, then whether another
     * customer holds it. The format check lower-cases the number in `d`.
     */
    method CheckKundInnennummer(t: Tenant, d: KundInnendaten, ausgeschlossen: Option<int>) returns (r: Outcome<Ausnahme>)
      modifies d
      ensures d.Wert() == old(d.Wert()).(kundInnennummer := Gelesen(old(d.kundInnennummer)))
      ensures r == Pruefung(db.Bestand(t).kundInnen, old(d.kundInnennummer), ausgeschlossen)
      ensures r == Pass ==> NummerGeprueft(db.Bestand(t).kundInnen, d.kundInnennummer, ausgeschlossen)
    {
      GelesenGueltig(d.kundInnennummer);
      var gueltig := d.IsKundInnennummerValid();
      if !gueltig {
        return Fail(UngueltigeKundInnennummer);
      }
      var nummer := d.GetKundInnennummer();
      var vergeben := IstVergeben(db.Bestand(t).kundInnen, nummer.value, ausgeschlossen);
      match vergeben {
        case Err(e) => return Fail(e);
        case Ok(b) =>
          if b {
            return Fail(KundInnennummerBereitsVorhanden);
          }
          return Pass;
      }
    }

    /**
     * The step `create` and `update` share: the checked data goes into the
     * customer, then `Teilnahme` without a group tosses the coin.
     */
    method DatenUebernehmen(t: Tenant, k: KundIn, d: KundInnendaten, v: int) returns (r: Outcome<Ausnahme>)
      requires ZiehungZulaessig(GruppenVon(db.Bestand(t)), v)
      modifies k, d
      ensures d.Wert() == old(d.Wert()).(kundInnennummer := Gelesen(old(d.kundInnennummer)))
      ensures k.id == old(k.id)
      ensures !KundInnennummer.IsValid(old(d.kundInnennummer)) ==>
                r == Fail(UngueltigeKundInnendaten) && k.gruppe == old(k.gruppe)
      ensures KundInnennummer.IsValid(old(d.kundInnennummer)) ==> k.kundInnendaten == d
      ensures KundInnennummer.IsValid(old(d.kundInnennummer)) ==>
              var zuordnung := Zuordnung(old(k.gruppe), old(d.teilnahmeAbsagegrund), GruppenVon(db.Bestand(t)), v);
              && (zuordnung.Err? ==> r == Fail(zuordnung.error))
              && (zuordnung.Ok? ==> r == Pass && k.gruppe == zuordnung.value)
    {
      var gesetzt := k.SetKundInnendaten(d);
      if gesetzt.Fail? {
        return gesetzt;
      }
      if d.teilnahmeAbsagegrund == Some(Teilnahme) && k.gruppe.None? {
        r := Muenzwurf(t, k, v);
      } else {
        r := Pass;
      }
    }

    /**
     * `create` after the number check: a new customer takes the data, the
     * coin is tossed for `Teilnahme`, and the row is appended with the next id.
     */
    method Anlegen(t: Tenant, d: KundInnendaten, v: int) returns (r: Result<KundInZeile, Ausnahme>)
      requires ZiehungZulaessig(GruppenVon(db.Bestand(t)), v)
      requires d.kundInnennummer.Some? && IsLower(d.kundInnennummer.value) && KundInnennummer.IsValid(d.kundInnennummer)
      modifies db, d
      ensures d.Wert() == old(d.Wert())
      ensures var zuordnung := Zuordnung(None, d.teilnahmeAbsagegrund, GruppenVon(old(db.Bestand(t))), v);
              && (zuordnung.Err? ==> r == Err(zuordnung.error))
              && (zuordnung.Ok? ==> r == Ok(KundInZeile(old(db.naechsteId), d.Wert(), zuordnung.value)))
      ensures r.Err? ==> db.mandanten == old(db.mandanten) && db.naechsteId == old(db.naechsteId)
      ensures r.Ok? ==>
                db.mandanten == old(db.mandanten)[t := old(db.Bestand(t)).(kundInnen := old(db.Bestand(t)).kundInnen + [r.value])]
      ensures old(db.Valid()) && Frei(old(db.Bestand(t)).kundInnen, old(d.kundInnennummer).value, None) ==> db.Valid()
    {
      var k := new KundIn();
      var uebernommen := DatenUebernehmen(t, k, d, v);
      if uebernommen.Fail? {
        return Err(uebernommen.error);
      }
      var m := db.Bestand(t);
      var frei := old(db.Valid()) && Frei(m.kundInnen, d.kundInnennummer.value, None);
      if frei {
        db.BestandGueltig(t);
      }
      var id := db.NeueId();
      var zeile := KundInZeile(id, d.Wert(), k.gruppe);
      if frei {
        AnlegenGueltig(m, id, zeile);
      }
      db.Schreibe(t, m.(kundInnen := m.kundInnen + [zeile]));
      return Ok(zeile);
    }

    /**
     * `create`: number checks first, then `Anlegen`. Any exception leaves the
     * store as it was.
     */
    method Create(t: Tenant, d: KundInnendaten?, v: int) returns (r: Result<KundInZeile, Ausnahme>)
      requires ZiehungZulaessig(GruppenVon(db.Bestand(t)), v)
      modifies db, d
      ensures d == null ==> r == Err(NullZeiger)
      ensures d != null ==> d.Wert() == old(d.Wert()).(kundInnennummer := Gelesen(old(d.kundInnennummer)))
      ensures d != null ==>
                var pruefung := Pruefung(old(db.Bestand(t)).kundInnen, old(d.kundInnennummer), None);
                var zuordnung := Zuordnung(None, old(d.teilnahmeAbsagegrund), GruppenVon(old(db.Bestand(t))), v);
                && (pruefung.Fail? ==> r == Err(pruefung.error))
                && (pruefung == Pass && zuordnung.Err? ==> r == Err(zuordnung.error))
                && (pruefung == Pass && zuordnung.Ok? ==> r.Ok? && r.value.gruppe == zuordnung.value)
      ensures r.Err? ==> db.mandanten == old(db.mandanten) && db.naechsteId == old(db.naechsteId)
      ensures r.Ok? ==>
                && d != null && r.value.id == old(db.naechsteId) && r.value.daten == d.Wert()
                && db.mandanten == old(db.mandanten)[t := old(db.Bestand(t)).(kundInnen := old(db.Bestand(t)).kundInnen + [r.value])]
      ensures old(db.Valid()) ==> db.Valid()
    {
      if d == null {
        return Err(NullZeiger);
      }
      var pruefung := CheckKundInnennummer(t, d, None);
      if pruefung.Fail? {
        return Err(pruefung.error);
      }
      r := Anlegen(t, d, v);
    }

    /**
     * `update` after the number check: the stored customer is looked up, takes
     * the data, tosses the coin only for `Teilnahme` without a group, and its
     * row is replaced.
     */
    method Aendern(t: Tenant, id: int, d: KundInnendaten, v: int) returns (r: Result<KundInZeile, Ausnahme>)
      requires ZiehungZulaessig(GruppenVon(db.Bestand(t)), v)
      requires d.kundInnennummer.Some? && IsLower(d.kundInnennummer.value) && KundInnennummer.IsValid(d.kundInnennummer)
      modifies db, d
      ensures d.Wert() == old(d.Wert())
      ensures var alt := KR.FindById(old(db.Bestand(t)).kundInnen, id);
              && (alt == KeinErgebnis ==> r == Err(KundInNichtGefunden))
              && (alt == MehrereErgebnisse ==> r == Err(MehrdeutigesErgebnis))
              && (alt.Ergebnis? ==>
                    var zuordnung := Zuordnung(alt.wert.gruppe, d.teilnahmeAbsagegrund, GruppenVon(old(db.Bestand(t))), v);
                    && (zuordnung.Err? ==> r == Err(zuordnung.error))
                    && (zuordnung.Ok? ==> r == Ok(KundInZeile(id, d.Wert(), zuordnung.value))))
      ensures r.Err? ==> db.mandanten == old(db.mandanten)
      ensures db.naechsteId == old(db.naechsteId)
      ensures r.Ok? ==>
                db.mandanten == old(db.mandanten)[t := old(db.Bestand(t)).(kundInnen := ErsetzeKundIn(old(db.Bestand(t)).kundInnen, r.value))]
      ensures old(db.Valid()) && Frei(old(db.Bestand(t)).kundInnen, old(d.kundInnennummer).value, Some(id)) ==> db.Valid()
    {
      var alt := GetById(t, id);
      if alt.Err? {
        return Err(alt.error);
      }
      var k := new KundIn();
      k.SetGruppe(alt.value.gruppe);
      var uebernommen := DatenUebernehmen(t, k, d, v);
      if uebernommen.Fail? {
        return Err(uebernommen.error);
      }
      var zeile := KundInZeile(id, d.Wert(), k.gruppe);
      ZeileErsetzen(t, alt.value, zeile);
      return Ok(zeile);
    }

    /** The stored row with `zeile`'s id, found as `alt`, is replaced by `zeile`. */
    method ZeileErsetzen(t: Tenant, alt: KundInZeile, zeile: KundInZeile)
      requires alt in db.Bestand(t).kundInnen && zeile.id == alt.id
      modifies db
      ensures db.naechsteId == old(db.naechsteId)
      ensures db.mandanten == old(db.mandanten)[t := old(db.Bestand(t)).(kundInnen := ErsetzeKundIn(old(db.Bestand(t)).kundInnen, zeile))]
      ensures old(db.Valid()) && NummerGeprueft(old(db.Bestand(t)).kundInnen, zeile.daten.kundInnennummer, Some(zeile.id)) ==>
                db.Valid()
    {
      var m := db.Bestand(t);
      if db.Valid() && NummerGeprueft(m.kundInnen, zeile.daten.kundInnennummer, Some(zeile.id)) {
        db.BestandGueltig(t);
        ErsetzenGueltig(m, db.naechsteId, alt, zeile);
      }
      db.Schreibe(t, m.(kundInnen := ErsetzeKundIn(m.kundInnen, zeile)));
    }

    /**
     * `update`: the number check, excluding the customer's own id, comes
     * before the lookup of the customer; then `Aendern`. An assigned group is
     * never changed.
     */
    method Update(t: Tenant, id: int, d: KundInnendaten?, v: int) returns (r: Result<KundInZeile, Ausnahme>)
      requires ZiehungZulaessig(GruppenVon(db.Bestand(t)), v)
      modifies db, d
      ensures d == null ==> r == Err(NullZeiger)
      ensures d != null ==> d.Wert() == old(d.Wert()).(kundInnennummer := Gelesen(old(d.kundInnennummer)))
      ensures d != null ==>
                var pruefung := Pruefung(old(db.Bestand(t)).kundInnen, old(d.kundInnennummer), Some(id));
                var alt := KR.FindById(old(db.Bestand(t)).kundInnen, id);
                && (pruefung.Fail? ==> r == Err(pruefung.error))
                && (pruefung == Pass && alt == KeinErgebnis ==> r == Err(KundInNichtGefunden))
                && (pruefung == Pass && alt == MehrereErgebnisse ==> r == Err(MehrdeutigesErgebnis))
                && (pruefung == Pass && alt.Ergebnis? ==>
                      var zuordnung := Zuordnung(alt.wert.gruppe, old(d.teilnahmeAbsagegrund), GruppenVon(old(db.Bestand(t))), v);
                      && (zuordnung.Err? ==> r == Err(zuordnung.error))
                      && (zuordnung.Ok? ==> r.Ok? && r.value.gruppe == zuordnung.value))
      ensures r.Err? ==> db.mandanten == old(db.mandanten) && db.naechsteId == old(db.naechsteId)
      ensures r.Ok? ==>
                && d != null && r.value.id == id && r.value.daten == d.Wert()
                && db.naechsteId == old(db.naechsteId)
                && db.mandanten == old(db.mandanten)[t := old(db.Bestand(t)).(kundInnen := ErsetzeKundIn(old(db.Bestand(t)).kundInnen, r.value))]
      ensures old(db.Valid()) ==> db.Valid()
    {
      if d == null {
        return Err(NullZeiger);
      }
      var pruefung := CheckKundInnennummer(t, d, Some(id));
      if pruefung.Fail? {
        return Err(pruefung.error);
      }
      r := Aendern(t, id, d, v);
    }

    /** `getById`: the tenant's customer with this id. */
    method GetById(t: Tenant, id: int) returns (r: Result<KundInZeile, Ausnahme>)
      ensures var treffer := KR.FindById(db.Bestand(t).kundInnen, id);
              && (treffer == KeinErgebnis ==> r == Err(KundInNichtGefunden))
              && (treffer == MehrereErgebnisse ==> r == Err(MehrdeutigesErgebnis))
              && (treffer.Ergebnis? ==> r == Ok(treffer.wert))
      ensures r == Err(KundInNichtGefunden) <==> forall i :: 0 <= i < |db.Bestand(t).kundInnen| ==> db.Bestand(t).kundInnen[i].id != id
      ensures r.Ok? ==> r.value in db.Bestand(t).kundInnen && r.value.id == id
      ensures db.Valid() ==> r != Err(MehrdeutigesErgebnis)
    {
      var treffer := KR.FindById(db.Bestand(t).kundInnen, id);
      if db.Valid() && treffer != KeinErgebnis {
        db.BestandGueltig(t);
        var i :| 0 <= i < |db.Bestand(t).kundInnen| && db.Bestand(t).kundInnen[i].id == id;
        KR.FindByIdTrifft(db.Bestand(t).kundInnen, i);
      }
      match treffer {
        case KeinErgebnis => return Err(KundInNichtGefunden);
        case MehrereErgebnisse => return Err(MehrdeutigesErgebnis);
        case Ergebnis(k) => return Ok(k);
      }
    }

    /** `getByKundInnennummer`: the tenant's customer whose number equals `nummer` up to case. */
    method GetByKundInnennummer(t: Tenant, nummer: string) returns (r: Result<KundInZeile, Ausnahme>)
      ensures r == Err(KundInNichtGefunden) <==>
                forall i :: 0 <= i < |db.Bestand(t).kundInnen| ==> !KR.NummerPasst(db.Bestand(t).kundInnen[i], nummer)
      ensures r.Ok? ==> r.value in db.Bestand(t).kundInnen && KR.NummerPasst(r.value, nummer)
      ensures db.Valid() ==> r != Err(MehrdeutigesErgebnis)
    {
      var treffer := KR.FindByKundInnennummer(db.Bestand(t).kundInnen, nummer);
      if db.Valid() {
        db.BestandGueltig(t);
        KR.FindByKundInnennummerEindeutig(db.Bestand(t).kundInnen, nummer);
      }
      match treffer {
        case KeinErgebnis => return Err(KundInNichtGefunden);
        case MehrereErgebnisse => return Err(MehrdeutigesErgebnis);
        case Ergebnis(k) => return Ok(k);
      }
    }

    /** `getKundInnenProGruppe`: the report over the tenant's groups and customers. */
    method GetKundInnenProGruppe(t: Tenant) returns (r: seq<KR.KundInnenProGruppe>)
      ensures |r| == |GruppenVon(db.Bestand(t))|
      ensures forall i :: 0 <= i < |r| ==>
                r[i].gruppe == GruppenVon(db.Bestand(t))[i].bezeichnung
                && r[i].anzahl == KR.Anzahl(db.Bestand(t).kundInnen, r[i].gruppe)
    {
      r := KR.GetAnzahlInGruppen(GruppenVon(db.Bestand(t)), db.Bestand(t).kundInnen);
    }

    /**
     * `getBySuchbegriff`: no term or an empty one lists the first page of
     * all customers; otherwise the first page of the matches.
     */
    method GetBySuchbegriff(t: Tenant, begriff: Option<string>) returns (r: seq<KundInZeile>)
      ensures |r| <= Seitengroesse
      ensures forall i :: 0 <= i < |r| ==> r[i] in db.Bestand(t).kundInnen
      ensures begriff.None? || begriff == Some("") ==>
                r <= db.Bestand(t).kundInnen && (|r| == Seitengroesse || r == db.Bestand(t).kundInnen)
      ensures begriff.Some? && begriff != Some("") ==>
                && (forall i :: 0 <= i < |r| ==> KR.SuchbegriffPasst(r[i], begriff))
                && (|r| == Seitengroesse
                    || forall i :: 0 <= i < |db.Bestand(t).kundInnen| && KR.SuchbegriffPasst(db.Bestand(t).kundInnen[i], begriff) ==>
                         db.Bestand(t).kundInnen[i] in r)
    {
      var ks := db.Bestand(t).kundInnen;
      if begriff.None? || begriff.value == "" {
        r := KR.FindAllPagable(ks, Seitengroesse);
        assert forall i :: 0 <= i < |r| ==> r[i] == ks[i];
        return;
      }
      r := KR.FindBySuchbegriff(ks, begriff, Seitengroesse);
    }
  }
}
