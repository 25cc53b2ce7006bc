/**
 * `ProjektService`: at most one project per tenant, created once and then
 * only replaced by an update of the same id; both validations of the
 * project run before anything is written.
 */
module ProjektVerwaltung {
  import opened Common
  import opened Ausnahmen
  import opened Projekte
  import opened Datenbank

  class ProjektService {
    const db: Datenbank

    constructor (db: Datenbank)
      ensures this.db == db
    {
      this.db := db;
    }

    /** `getProjekt`: the tenant's project; none stored is an error. */
    method GetProjekt(t: Tenant) returns (r: Result<Projekt, Ausnahme>)
      ensures r == Err(ProjektNichtGefunden) <==> db.Bestand(t).projekt.None?
      ensures db.Bestand(t).projekt.Some? ==> r == Ok(db.Bestand(t).projekt.value)
    {
      var m := db.Bestand(t);
      if m.projekt.Some? {
        return Ok(m.projekt.value);
      }
      return Err(ProjektNichtGefunden);
    }

    /** `isProjektBereitsVorhanden`: the tenant's project count is positive. */
    method IsProjektBereitsVorhanden(t: Tenant) returns (vorhanden: bool)
      ensures vorhanden <==> db.Bestand(t).projekt.Some?
    {
      vorhanden := db.Bestand(t).projekt.Some?;
    }

    /**
     * `save`: groups are validated first, then field definitions; only a
     * project passing both is written, replacing the tenant's project as a
     * whole. A project whose id is the stored one keeps it; any other gets
     * the next id.
     */
    method Save(t: Tenant, p: Projekt) returns (r: Result<Projekt, Ausnahme>)
      modifies db
      ensures !(p.gruppen.Some? && GueltigeGruppen(p.gruppen.value)) ==>
                r.Err? && r.error.UngueltigeGruppen?
      ensures p.gruppen.Some? && GueltigeGruppen(p.gruppen.value) && ValidiereFelddefinitionen(p) ==>
                r == Err(UngueltigeFelddefinition)
      ensures r.Ok? <==> ProjektGueltig(p)
      ensures r.Err? ==> db.mandanten == old(db.mandanten) && db.naechsteId == old(db.naechsteId)
      ensures r.Ok? ==>
                && r.value == p.(id := r.value.id)
                && db.mandanten == old(db.mandanten)[t := old(db.Bestand(t)).(projekt := Some(r.value))]
      ensures r.Ok? && p.id.Some? && old(db.Bestand(t)).projekt.Some? && old(db.Bestand(t)).projekt.value.id == p.id ==>
                r.value.id == p.id && db.naechsteId == old(db.naechsteId)
      ensures r.Ok? && !(p.id.Some? && old(db.Bestand(t)).projekt.Some? && old(db.Bestand(t)).projekt.value.id == p.id) ==>
                r.value.id == Some(old(db.naechsteId)) && db.naechsteId == old(db.naechsteId) + 1
      ensures old(db.Valid()) ==> db.Valid()
    {
      var fehler := ValidiereGruppen(p);
      if fehler.Some? {
        return Err(UngueltigeGruppen(fehler.value));
      }
      if ValidiereFelddefinitionen(p) {
        return Err(UngueltigeFelddefinition);
      }
      var m := db.Bestand(t);
      var id: int;
      if p.id.Some? && m.projekt.Some? && m.projekt.value.id == p.id {
        id := p.id.value;
      } else {
        id := db.NeueId();
      }
      var gespeichert := p.(id := Some(id));
      if old(db.Valid()) {
        db.BestandGueltig(t);
        assert MandantGueltig(m, old(db.naechsteId));
        MandantMonoton(m, old(db.naechsteId), db.naechsteId);
      }
      db.Schreibe(t, m.(projekt := Some(gespeichert)));
      return Ok(gespeichert);
    }

    /** `create`: a tenant that already has a project is refused before any validation. */
    method Create(t: Tenant, p: Projekt) returns (r: Result<Projekt, Ausnahme>)
      modifies db
      ensures old(db.Bestand(t)).projekt.Some? ==>
                r == Err(ProjektBereitsVorhanden) && db.mandanten == old(db.mandanten)
      ensures old(db.Bestand(t)).projekt.None? && !ProjektGueltig(p) ==>
                r.Err? && (r.error.UngueltigeGruppen? || r.error == UngueltigeFelddefinition)
      ensures r.Err? ==> db.mandanten == old(db.mandanten) && db.naechsteId == old(db.naechsteId)
      ensures r.Ok? <==> old(db.Bestand(t)).projekt.None? && ProjektGueltig(p)
      ensures r.Ok? ==>
                && r.value == p.(id := Some(old(db.naechsteId))) && db.naechsteId == old(db.naechsteId) + 1
                && db.mandanten == old(db.mandanten)[t := old(db.Bestand(t)).(projekt := Some(r.value))]
      ensures old(db.Valid()) ==> db.Valid()
    {
      var vorhanden := IsProjektBereitsVorhanden(t);
      if vorhanden {
        return Err(ProjektBereitsVorhanden);
      }
      r := Save(t, p);
    }

    /**
     * `update`: the project must carry the id of the tenant's stored project;
     * otherwise it is not found, before any validation. A valid project then
     * replaces the stored one wholesale, groups and field definitions included.
     */
    method Update(t: Tenant, p: Projekt) returns (r: Result<Projekt, Ausnahme>)
      modifies db
      ensures p.id.None? || old(db.Bestand(t)).projekt.None? || old(db.Bestand(t)).projekt.value.id != p.id ==>
                r == Err(ProjektNichtGefunden)
      ensures r.Err? ==> db.mandanten == old(db.mandanten) && db.naechsteId == old(db.naechsteId)
      ensures r.Ok? <==>
                && p.id.Some? && old(db.Bestand(t)).projekt.Some? && old(db.Bestand(t)).projekt.value.id == p.id
                && ProjektGueltig(p)
      ensures r.Ok? ==>
                r == Ok(p) && db.mandanten == old(db.mandanten)[t := old(db.Bestand(t)).(projekt := Some(p))]
      ensures old(db.Valid()) ==> db.Valid()
    {
      var m := db.Bestand(t);
      if p.id.None? || m.projekt.None? || m.projekt.value.id != p.id {
        return Err(ProjektNichtGefunden);
      }
      r := Save(t, p);
    }
  }

  /**
   * After a successful `create` the tenant has a project, `getProjekt`
   * returns it, and a second `create` is refused; no other tenant changed.
   */
  method ZweitesAnlegenScheitert(s: ProjektService, t: Tenant, p: Projekt, q: Projekt)
    returns (erstes: Result<Projekt, Ausnahme>, geladen: Result<Projekt, Ausnahme>, zweites: Result<Projekt, Ausnahme>)
    requires s.db.Bestand(t).projekt.None? && ProjektGueltig(p)
    modifies s.db
    ensures erstes.Ok? && geladen == erstes
    ensures zweites == Err(ProjektBereitsVorhanden)
    ensures forall u :: u != t ==> s.db.Bestand(u) == old(s.db.Bestand(u))
  {
    erstes := s.Create(t, p);
    geladen := s.GetProjekt(t);
    var vorhanden := s.IsProjektBereitsVorhanden(t);
    assert vorhanden;
    zweites := s.Create(t, q);
  }
}
