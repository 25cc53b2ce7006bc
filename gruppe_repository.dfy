/**
 * The three queries of `GruppeRepository` over the groups of one tenant,
 * and the property the coin toss rests on: for a valid group list every
 * value between the smallest lower bound and the largest upper bound
 * lies in exactly one group.
 */
module GruppeRepository {
  import opened Common
  import opened Gruppen
  import opened Projekte

  /** The clause `untergrenze <= v AND obergrenze >= v`. */
  function EnthaeltWert(v: int): Gruppe -> bool {
    g => Enthaelt(g, v)
  }

  /**
   * `findGruppeByZufallswert`: the group containing `v`; no result when
   * none does, and a failing query when several do.
   */
  function FindGruppeByZufallswert(gs: seq<Gruppe>, v: int): (r: Einzelergebnis<Gruppe>)
    ensures r.Ergebnis? ==> r.wert in gs && Enthaelt(r.wert, v)
    ensures r == KeinErgebnis <==> forall i :: 0 <= i < |gs| ==> !Enthaelt(gs[i], v)
  {
    Einzeln(Auswahl(gs, EnthaeltWert(v)))
  }

  /** `getMaxObergrenze`: `max(obergrenze)`; with no groups the query yields no `int`. */
  function MaxObergrenze(gs: seq<Gruppe>): (m: Int32)
    requires |gs| > 0
    ensures exists i :: 0 <= i < |gs| && gs[i].obergrenze == m
    ensures forall i :: 0 <= i < |gs| ==> gs[i].obergrenze <= m
  {
    if |gs| == 1 then gs[0].obergrenze
    else
      var rest := MaxObergrenze(gs[1..]);
      if gs[0].obergrenze < rest then rest else gs[0].obergrenze
  }

  /** `getMinUntergrenze`: `min(untergrenze)`; with no groups the query yields no `int`. */
  function MinUntergrenze(gs: seq<Gruppe>): (m: Int32)
    requires |gs| > 0
    ensures exists i :: 0 <= i < |gs| && gs[i].untergrenze == m
    ensures forall i :: 0 <= i < |gs| ==> m <= gs[i].untergrenze
  {
    if |gs| == 1 then gs[0].untergrenze
    else
      var rest := MinUntergrenze(gs[1..]);
      if rest < gs[0].untergrenze then rest else gs[0].untergrenze
  }

  /** Along a chain the range runs from the first lower bound to the last upper bound. */
  lemma {:induction false} KetteBereich(gs: seq<Gruppe>)
    requires Kette(gs) && |gs| > 0
    ensures MinUntergrenze(gs) == gs[0].untergrenze
    ensures MaxObergrenze(gs) == gs[|gs| - 1].obergrenze
  {
    if |gs| > 1 {
      KetteRest(gs);
      KetteBereich(gs[1..]);
      KetteAufsteigend(gs, 0, 1);
      KetteAufsteigend(gs, 0, |gs| - 1);
      assert gs[1..][0] == gs[1] && gs[1..][|gs| - 2] == gs[|gs| - 1];
    }
  }

  /**
   * The coin toss is total and unique on a valid group list: every value in
   * `[MinUntergrenze, MaxObergrenze]` lies in exactly one group, and the
   * query returns that group, so "group not found" cannot happen.
   */
  lemma ZufallswertEindeutig(gs: seq<Gruppe>, v: int) returns (i: int)
    requires GueltigeGruppen(gs)
    requires MinUntergrenze(gs) <= v <= MaxObergrenze(gs)
    ensures 0 <= i < |gs| && Enthaelt(gs[i], v)
    ensures forall j :: 0 <= j < |gs| && Enthaelt(gs[j], v) ==> j == i
    ensures FindGruppeByZufallswert(gs, v) == Ergebnis(gs[i])
  {
    KetteBereich(gs);
    i := KetteUeberdeckt(gs, v);
    forall j | 0 <= j < |gs| && Enthaelt(gs[j], v) ensures j == i {
      KetteDisjunkt(gs, i, j, v);
    }
    AuswahlEinzeln(gs, EnthaeltWert(v), i);
  }

  /**
   * The wrap-around at Projekt.java line 187: this list passes the check as
   * written although its groups overlap; the query for the value 0 would
   * find both. The coin toss never gets that far: its upper bound is the
   * largest `int`, so the draw itself fails (`UeberlaufUnziehbar`).
   */
  lemma UeberlaufMehrdeutig()
    ensures var gs := [Gruppe("A", 0, IntMax), Gruppe("B", IntMin, 5)];
            && GueltigeGruppen32(gs)
            && !GueltigeGruppen(gs)
            && MinUntergrenze(gs) <= 0 <= MaxObergrenze(gs)
            && FindGruppeByZufallswert(gs, 0) == MehrereErgebnisse
  {
    var gs := [Gruppe("A", 0, IntMax), Gruppe("B", IntMin, 5)];
    assert Bezeichnungen(gs) == ["A", "B"];
    PlusEinsWrap(IntMax);
    assert !Lueckenlos(gs[0], gs[1]);
    assert Auswahl(gs[1..], EnthaeltWert(0)) == [gs[1]];
  }
}
