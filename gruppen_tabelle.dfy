/**
 * The tenant's group table across a project update. The project owns its
 * groups through `@OneToMany(cascade = ALL)` with no `orphanRemoval`: an
 * update writes the new list, but a group the new list drops keeps its row,
 * and the group queries of the coin toss read every row of the tenant.
 * The rest of the model stores the intended table, the project's list
 * itself (`Datenbank.GruppenVon`); this module sets the two side by side.
 */
module GruppenTabelle {
  import opened Common
  import opened Gruppen
  import opened Projekte
  import opened GruppeRepository
  import opened Datenbank

  /** Some group of `gs` carries the label `b`. */
  predicate HatBezeichnung(gs: seq<Gruppe>, b: string) {
    exists i :: 0 <= i < |gs| && gs[i].bezeichnung == b
  }

  /**
   * The stored groups an update leaves behind: those whose label the new
   * list no longer has, in table order. (A group keeping its label is the
   * same row, merged with its new bounds.)
   */
  function Waisen(alt: seq<Gruppe>, neu: seq<Gruppe>): (r: seq<Gruppe>)
    ensures forall i :: 0 <= i < |r| ==> r[i] in alt && !HatBezeichnung(neu, r[i].bezeichnung)
    ensures forall i :: 0 <= i < |alt| && !HatBezeichnung(neu, alt[i].bezeichnung) ==> alt[i] in r
  {
    if alt == [] then []
    else
      var rest := Waisen(alt[1..], neu);
      assert forall i :: 1 <= i < |alt| ==> alt[i] == alt[1..][i - 1];
      (if HatBezeichnung(neu, alt[0].bezeichnung) then [] else [alt[0]]) + rest
  }

  /** As written: the new list is in the table, and so is every group it dropped. */
  function NachUpdateWieGeschrieben(alt: seq<Gruppe>, neu: seq<Gruppe>): seq<Gruppe> {
    neu + Waisen(alt, neu)
  }

  /** An update that keeps every stored label leaves no group behind. */
  lemma {:induction false} KeineWaisen(alt: seq<Gruppe>, neu: seq<Gruppe>)
    requires forall i :: 0 <= i < |alt| ==> HatBezeichnung(neu, alt[i].bezeichnung)
    ensures Waisen(alt, neu) == []
  {
    if alt != [] {
      assert HatBezeichnung(neu, alt[0].bezeichnung);
      assert forall i :: 0 <= i < |alt[1..]| ==> alt[1..][i] == alt[i + 1];
      KeineWaisen(alt[1..], neu);
    }
  }

  /** The table as written is the project's list exactly when the update dropped no label. */
  lemma OhneWaisen(alt: seq<Gruppe>, neu: seq<Gruppe>)
    ensures NachUpdateWieGeschrieben(alt, neu) == neu <==>
              forall i :: 0 <= i < |alt| ==> HatBezeichnung(neu, alt[i].bezeichnung)
  {
    var w := Waisen(alt, neu);
    if forall i :: 0 <= i < |alt| ==> HatBezeichnung(neu, alt[i].bezeichnung) {
      KeineWaisen(alt, neu);
    } else {
      var i :| 0 <= i < |alt| && !HatBezeichnung(neu, alt[i].bezeichnung);
      assert alt[i] in w;
      assert |NachUpdateWieGeschrieben(alt, neu)| > |neu|;
    }
  }

  /** The groups of the example: a project's list before and after an update. */
  const Vorher: seq<Gruppe> := [Gruppe("A", 1, 10), Gruppe("B", 11, 20)]
  const Nachher: seq<Gruppe> := [Gruppe("A", 1, 5), Gruppe("C", 6, 20)]

  /** Both lists of the example pass the check. */
  lemma BeispielGueltig()
    ensures GueltigeGruppen(Vorher) && GueltigeGruppen(Nachher)
  {
    assert Bezeichnungen(Vorher) == ["A", "B"];
    assert Bezeichnungen(Nachher) == ["A", "C"];
  }

  /** After the update the table holds the new list and the dropped group "B". */
  lemma BeispielTabelle()
    ensures NachUpdateWieGeschrieben(Vorher, Nachher) == Nachher + [Vorher[1]]
  {
    assert Nachher[0].bezeichnung == Vorher[0].bezeichnung;
    assert Vorher[1..][1..] == [];
    assert Waisen(Vorher[1..], Nachher) == [Vorher[1]];
  }

  /**
   * Two valid lists, the second replacing the first: the group "B" it drops
   * keeps its row, so the value 15 lies both in "B" and in the new group "C"
   * and the coin toss's query for it fails, although the project's own list
   * places 15 in "C" alone.
   */
  lemma WaisenMehrdeutig()
    ensures GueltigeGruppen(Vorher) && GueltigeGruppen(Nachher)
    ensures MinUntergrenze(Nachher) <= 15 <= MaxObergrenze(Nachher)
    ensures FindGruppeByZufallswert(Nachher, 15) == Ergebnis(Gruppe("C", 6, 20))
    ensures FindGruppeByZufallswert(NachUpdateWieGeschrieben(Vorher, Nachher), 15) == MehrereErgebnisse
  {
    BeispielGueltig();
    BeispielTabelle();
    var i := ZufallswertEindeutig(Nachher, 15);
    BeispielAuswahl();
  }

  /** The value 15 lies in "C" and in "B", in that order of the table. */
  lemma BeispielAuswahl()
    ensures Auswahl(Nachher + [Vorher[1]], EnthaeltWert(15)) == [Nachher[1], Vorher[1]]
  {
    var tabelle := Nachher + [Vorher[1]];
    var p := EnthaeltWert(15);
    assert tabelle[1..] == [Nachher[1], Vorher[1]] && tabelle[1..][1..] == [Vorher[1]] && [Vorher[1]][1..] == [];
    assert Auswahl(tabelle[1..][1..], p) == [Vorher[1]];
    assert Auswahl(tabelle[1..], p) == [Nachher[1], Vorher[1]];
  }

  /**
   * Corrected: the table is the project's list, so after any update to a
   * valid project every value in the list's range lies in exactly one of
   * the project's groups and the query returns it.
   */
  lemma ErsetzteGruppenEindeutig(m: Mandant, p: Projekt, v: int)
    requires ProjektGueltig(p)
    requires MinUntergrenze(p.gruppen.value) <= v <= MaxObergrenze(p.gruppen.value)
    ensures var gs := GruppenVon(m.(projekt := Some(p)));
            && gs == p.gruppen.value
            && FindGruppeByZufallswert(gs, v).Ergebnis?
            && FindGruppeByZufallswert(gs, v).wert in p.gruppen.value
            && Enthaelt(FindGruppeByZufallswert(gs, v).wert, v)
  {
    var i := ZufallswertEindeutig(p.gruppen.value, v);
  }
}
