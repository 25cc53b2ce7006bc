/**
 * A project: its field definitions and the groups that partition the
 * range of the coin toss, with the two validations run before every save
 * (`Projekt.validiereGruppen`, `Projekt.validiereFelddefinitionen`).
 */
module Projekte {
  import opened Common
  import opened Ausnahmen
  import opened Gruppen

  /** A field definition; its type tag is opaque to the server. */
  datatype Felddefinition = Felddefinition(name: string, typ: string)

  /**
   * A project as the client sends it and as it is stored: `null` lists are
   * `None`. Dates, creator and the active flag are not part of the model.
   */
  datatype Projekt = Projekt(
    id: Option<int>,
    name: Option<string>,
    beschreibung: Option<string>,
    hilfetext: Option<string>,
    felddefinitionen: Option<seq<Felddefinition>>,
    gruppen: Option<seq<Gruppe>>)

  function Bezeichnungen(gs: seq<Gruppe>): (r: seq<string>)
    ensures |r| == |gs| && forall i :: 0 <= i < |gs| ==> r[i] == gs[i].bezeichnung
  {
    seq(|gs|, i requires 0 <= i < |gs| => gs[i].bezeichnung)
  }

  function Namen(fs: seq<Felddefinition>): (r: seq<string>)
    ensures |r| == |fs| && forall i :: 0 <= i < |fs| ==> r[i] == fs[i].name
  {
    seq(|fs|, i requires 0 <= i < |fs| => fs[i].name)
  }

  // ---------------------------------------------------------------------
  // What a valid group list is

  predicate BezeichnungenEindeutig(gs: seq<Gruppe>) {
    Distinct(Bezeichnungen(gs))
  }

  predicate GrenzenGeordnet(g: Gruppe) {
    g.untergrenze < g.obergrenze
  }

  /** The next group starts right after `a` ends (computed without overflow). */
  predicate Lueckenlos(a: Gruppe, b: Gruppe) {
    a.obergrenze + 1 == b.untergrenze
  }

  /** Every group has lower bound < upper bound and touches its list successor. */
  predicate Kette(gs: seq<Gruppe>) {
    && (forall i :: 0 <= i < |gs| ==> GrenzenGeordnet(gs[i]))
    && (forall i :: 0 <= i < |gs| - 1 ==> Lueckenlos(gs[i], gs[i + 1]))
  }

  /** The list passes `validiereGruppen`: in LIST order, not sorted order. */
  predicate GueltigeGruppen(gs: seq<Gruppe>) {
    |gs| >= 2 && BezeichnungenEindeutig(gs) && Kette(gs)
  }

  /** The checks before the loop passed: there are two or more groups with distinct labels. */
  predicate Vorgeprueft(gruppen: Option<seq<Gruppe>>) {
    gruppen.Some? && |gruppen.value| >= 2 && BezeichnungenEindeutig(gruppen.value)
  }

  /** The loop got past index `j` for every `j < i`. */
  predicate GeprueftBis(gs: seq<Gruppe>, i: int) {
    forall j :: 0 <= j < i && j < |gs| ==>
      GrenzenGeordnet(gs[j]) && (j + 1 < |gs| ==> Lueckenlos(gs[j], gs[j + 1]))
  }

  /** Index `i` is where the loop stops: everything before it passed, it does not. */
  predicate ErsterFehlerBei(gs: seq<Gruppe>, i: int) {
    && 0 <= i < |gs|
    && GeprueftBis(gs, i)
    && (!GrenzenGeordnet(gs[i]) || (i + 1 < |gs| && !Lueckenlos(gs[i], gs[i + 1])))
  }

  lemma GeprueftGanz(gs: seq<Gruppe>)
    ensures GeprueftBis(gs, |gs|) <==> Kette(gs)
  {
    if Kette(gs) {
      forall j | 0 <= j < |gs| ensures GrenzenGeordnet(gs[j]) && (j + 1 < |gs| ==> Lueckenlos(gs[j], gs[j + 1])) {
        if j + 1 < |gs| {
          assert 0 <= j < |gs| - 1;
        }
      }
    }
  }

  /** The loop stops at one index at most. */
  lemma ErsterFehlerEindeutig(gs: seq<Gruppe>, i: int, k: int)
    requires ErsterFehlerBei(gs, i) && ErsterFehlerBei(gs, k)
    ensures i == k
  {
  }

  /**
   * `validiereGruppen`: `None` for a valid list, otherwise the first failed
   * check, in the source's order: count, labels, then per index the bound
   * order of the group before its contact with the next one.
   */
  method ValidiereGruppen(p: Projekt) returns (fehler: Option<GruppenFehler>)
    ensures fehler == None <==> p.gruppen.Some? && GueltigeGruppen(p.gruppen.value)
    ensures fehler == Some(ZuWenigeGruppen) <==> p.gruppen.None? || |p.gruppen.value| < 2
    ensures fehler == Some(BezeichnungMehrfach) <==>
              p.gruppen.Some? && |p.gruppen.value| >= 2 && !BezeichnungenEindeutig(p.gruppen.value)
    ensures fehler == Some(GrenzenVertauscht) <==>
              Vorgeprueft(p.gruppen)
              && exists i :: ErsterFehlerBei(p.gruppen.value, i) && !GrenzenGeordnet(p.gruppen.value[i])
    ensures fehler == Some(NichtLueckenlos) <==>
              Vorgeprueft(p.gruppen)
              && exists i :: ErsterFehlerBei(p.gruppen.value, i) && GrenzenGeordnet(p.gruppen.value[i])
  {
    if p.gruppen.None? || |p.gruppen.value| < 2 {
      return Some(ZuWenigeGruppen);
    }
    var gruppen := p.gruppen.value;
    var bezeichnungen := Bezeichnungen(gruppen);
    DistinctCount(bezeichnungen);
    if |bezeichnungen| != |Elements(bezeichnungen)| {
      return Some(BezeichnungMehrfach);
    }

    var i := 0;
    while i < |gruppen|
      invariant 0 <= i <= |gruppen|
      invariant GeprueftBis(gruppen, i)
    {
      var g0 := gruppen[i];
      if g0.untergrenze >= g0.obergrenze {
        assert ErsterFehlerBei(gruppen, i);
        forall k | ErsterFehlerBei(gruppen, k) ensures k == i {
          ErsterFehlerEindeutig(gruppen, i, k);
        }
        GeprueftGanz(gruppen);
        return Some(GrenzenVertauscht);
      }
      if |gruppen| > i + 1 {
        var g1 := gruppen[i + 1];
        if g0.obergrenze + 1 != g1.untergrenze {
          assert ErsterFehlerBei(gruppen, i);
          forall k | ErsterFehlerBei(gruppen, k) ensures k == i {
            ErsterFehlerEindeutig(gruppen, i, k);
          }
          GeprueftGanz(gruppen);
          return Some(NichtLueckenlos);
        }
      }
      i := i + 1;
    }
    GeprueftGanz(gruppen);
    return None;
  }

  /**
   * `validiereFelddefinitionen`: no list is fine; a list is rejected exactly
   * when two field definitions share a name.
   */
  function ValidiereFelddefinitionen(p: Projekt): (fehler: bool)
    ensures fehler <==> p.felddefinitionen.Some? && !Distinct(Namen(p.felddefinitionen.value))
  {
    if p.felddefinitionen.None? then false
    else
      var namen := Namen(p.felddefinitionen.value);
      DistinctCount(namen);
      |namen| > |Elements(namen)|
  }

  /** A project that both validations accept: what `ProjektService.save` lets through. */
  predicate ProjektGueltig(p: Projekt) {
    p.gruppen.Some? && GueltigeGruppen(p.gruppen.value) && !ValidiereFelddefinitionen(p)
  }

  // ---------------------------------------------------------------------
  // What a valid list guarantees

  /** Bounds strictly increase along a chain: an earlier group ends before a later one starts. */
  lemma {:induction false} KetteAufsteigend(gs: seq<Gruppe>, i: int, j: int)
    requires Kette(gs) && 0 <= i < j < |gs|
    ensures gs[i].obergrenze < gs[j].untergrenze
  {
    if j == i + 1 {
      assert Lueckenlos(gs[i], gs[i + 1]);
    } else {
      KetteAufsteigend(gs, i, j - 1);
      assert GrenzenGeordnet(gs[j - 1]);
      assert Lueckenlos(gs[j - 1], gs[j]);
    }
  }

  /** No value lies in two groups of a chain. */
  lemma KetteDisjunkt(gs: seq<Gruppe>, i: int, j: int, v: int)
    requires Kette(gs) && 0 <= i < |gs| && 0 <= j < |gs|
    requires Enthaelt(gs[i], v) && Enthaelt(gs[j], v)
    ensures i == j
  {
    if i < j {
      KetteAufsteigend(gs, i, j);
    } else if j < i {
      KetteAufsteigend(gs, j, i);
    }
  }

  /** Dropping the first group of a chain leaves a chain. */
  lemma KetteRest(gs: seq<Gruppe>)
    requires Kette(gs) && |gs| > 0
    ensures Kette(gs[1..])
  {
    var rest := gs[1..];
    forall k | 0 <= k < |rest| ensures GrenzenGeordnet(rest[k]) {
      assert rest[k] == gs[k + 1];
    }
    forall k | 0 <= k < |rest| - 1 ensures Lueckenlos(rest[k], rest[k + 1]) {
      assert rest[k] == gs[k + 1] && rest[k + 1] == gs[k + 2];
    }
  }

  /** A chain covers every value from its first lower bound to its last upper bound. */
  lemma {:induction false} KetteUeberdeckt(gs: seq<Gruppe>, v: int) returns (i: int)
    requires Kette(gs) && |gs| > 0
    requires gs[0].untergrenze <= v <= gs[|gs| - 1].obergrenze
    ensures 0 <= i < |gs| && Enthaelt(gs[i], v)
  {
    if v <= gs[0].obergrenze {
      i := 0;
    } else {
      assert |gs| > 1;
      assert Lueckenlos(gs[0], gs[1]);
      KetteRest(gs);
      var k := KetteUeberdeckt(gs[1..], v);
      i := k + 1;
    }
  }

  // ---------------------------------------------------------------------
  // The check as written in Java int arithmetic

  /** Line 187 as Java evaluates it: `obergrenze + 1` wraps at the largest `int`. */
  predicate Lueckenlos32(a: Gruppe, b: Gruppe) {
    Wrap32(a.obergrenze + 1) == b.untergrenze
  }

  /** `validiereGruppen` as written: the contact test done in 32-bit arithmetic. */
  predicate GueltigeGruppen32(gs: seq<Gruppe>) {
    && |gs| >= 2 && BezeichnungenEindeutig(gs)
    && (forall i :: 0 <= i < |gs| ==> GrenzenGeordnet(gs[i]))
    && (forall i :: 0 <= i < |gs| - 1 ==> Lueckenlos32(gs[i], gs[i + 1]))
  }

  /**
   * The 32-bit test accepts exactly one pair more than the intended one: a
   * group ending at the largest `int` followed by one starting at the smallest.
   */
  lemma Lueckenlos32Abweichung(a: Gruppe, b: Gruppe)
    ensures Lueckenlos32(a, b) <==>
              Lueckenlos(a, b) || (a.obergrenze == IntMax && b.untergrenze == IntMin)
  {
    PlusEinsWrap(a.obergrenze);
  }

  /** On lists that never reach the largest `int` the two checks agree. */
  lemma {:induction false} GueltigeGruppen32OhneUeberlauf(gs: seq<Gruppe>)
    requires forall i :: 0 <= i < |gs| ==> gs[i].obergrenze < IntMax
    ensures GueltigeGruppen32(gs) <==> GueltigeGruppen(gs)
  {
    forall i | 0 <= i < |gs| - 1
      ensures Lueckenlos32(gs[i], gs[i + 1]) <==> Lueckenlos(gs[i], gs[i + 1])
    {
      Lueckenlos32Abweichung(gs[i], gs[i + 1]);
    }
  }
}
