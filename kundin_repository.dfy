/**
 * The queries of `KundInRepository` over the customer rows of one tenant
 * (the tenant filter has already been applied to `ks`).
 */
module KundInRepository {
  import opened Common
  import opened Gruppen
  import opened Projekte
  import opened KundInnen

  function Ids(ks: seq<KundInZeile>): (r: seq<int>)
    ensures |r| == |ks| && forall i :: 0 <= i < |ks| ==> r[i] == ks[i].id
  {
    seq(|ks|, i requires 0 <= i < |ks| => ks[i].id)
  }

  function Nummern(ks: seq<KundInZeile>): (r: seq<Option<string>>)
    ensures |r| == |ks| && forall i :: 0 <= i < |ks| ==> r[i] == ks[i].daten.kundInnennummer
  {
    seq(|ks|, i requires 0 <= i < |ks| => ks[i].daten.kundInnennummer)
  }

  /**
   * The unique constraint on (tenant, number), together with the setter that
   * lower-cases: every stored number is present, lower-case and unique.
   */
  predicate NummernEindeutig(ks: seq<KundInZeile>) {
    && (forall i :: 0 <= i < |ks| ==>
          ks[i].daten.kundInnennummer.Some? && IsLower(ks[i].daten.kundInnennummer.value))
    && Distinct(Nummern(ks))
  }

  // ---------------------------------------------------------------------
  // findById

  function MitId(id: int): KundInZeile -> bool {
    (k: KundInZeile) => k.id == id
  }

  /** `findById`: the tenant's row with this id. */
  function FindById(ks: seq<KundInZeile>, id: int): (r: Einzelergebnis<KundInZeile>)
    ensures r == KeinErgebnis <==> forall i :: 0 <= i < |ks| ==> ks[i].id != id
    ensures r.Ergebnis? ==> r.wert in ks && r.wert.id == id
  {
    Einzeln(Auswahl(ks, MitId(id)))
  }

  /** With unique ids, looking up a stored id yields exactly that row. */
  lemma FindByIdTrifft(ks: seq<KundInZeile>, i: int)
    requires Distinct(Ids(ks)) && 0 <= i < |ks|
    ensures FindById(ks, ks[i].id) == Ergebnis(ks[i])
  {
    forall j | 0 <= j < |ks| && j != i ensures !MitId(ks[i].id)(ks[j]) {
      assert Ids(ks)[i] != Ids(ks)[j];
    }
    AuswahlEinzeln(ks, MitId(ks[i].id), i);
  }

  // ---------------------------------------------------------------------
  // findByKundInnennummer

  /** `lower(k.kundInnennummer) = lower(n)`; a `null` column never compares equal. */
  predicate NummerPasst(k: KundInZeile, n: string) {
    k.daten.kundInnennummer.Some? && Lower(k.daten.kundInnennummer.value) == Lower(n)
  }

  function MitNummer(n: string): KundInZeile -> bool {
    (k: KundInZeile) => NummerPasst(k, n)
  }

  /** `findByKundInnennummer`: the tenant's row whose number equals `n` up to case. */
  function FindByKundInnennummer(ks: seq<KundInZeile>, n: string): (r: Einzelergebnis<KundInZeile>)
    ensures r == KeinErgebnis <==> forall i :: 0 <= i < |ks| ==> !NummerPasst(ks[i], n)
    ensures r.Ergebnis? ==> r.wert in ks && NummerPasst(r.wert, n)
  {
    Einzeln(Auswahl(ks, MitNummer(n)))
  }

  /** Under the stored-number constraint, a matching row is the only one, whatever the case of `n`. */
  lemma FindByKundInnennummerTrifft(ks: seq<KundInZeile>, n: string, i: int)
    requires NummernEindeutig(ks)
    requires 0 <= i < |ks| && NummerPasst(ks[i], n)
    ensures FindByKundInnennummer(ks, n) == Ergebnis(ks[i])
  {
    forall j | 0 <= j < |ks| && j != i ensures !MitNummer(n)(ks[j]) {
      assert Nummern(ks)[i] != Nummern(ks)[j];
    }
    AuswahlEinzeln(ks, MitNummer(n), i);
  }

  /** Under the stored-number constraint, the lookup never finds several rows. */
  lemma FindByKundInnennummerEindeutig(ks: seq<KundInZeile>, n: string)
    requires NummernEindeutig(ks)
    ensures FindByKundInnennummer(ks, n) != MehrereErgebnisse
  {
    if FindByKundInnennummer(ks, n) != KeinErgebnis {
      var i :| 0 <= i < |ks| && NummerPasst(ks[i], n);
      FindByKundInnennummerTrifft(ks, n, i);
    }
  }

  // ---------------------------------------------------------------------
  // findBySuchbegriff, findAllPagable

  /**
   * The search clause: no term matches every row; otherwise the term must
   * occur, ignoring case, in the surname or in the customer number.
   */
  predicate SuchbegriffPasst(k: KundInZeile, begriff: Option<string>) {
    || begriff.None?
    || (k.daten.nachname.Some? && Contains(Lower(k.daten.nachname.value), Lower(begriff.value)))
    || (k.daten.kundInnennummer.Some?
        && Contains(Lower(k.daten.kundInnennummer.value), Lower(begriff.value)))
  }

  function MitSuchbegriff(begriff: Option<string>): KundInZeile -> bool {
    (k: KundInZeile) => SuchbegriffPasst(k, begriff)
  }

  /**
   * `findBySuchbegriff` with the first page of size `seite`: only matching
   * rows, at most `seite` of them, and every match unless the page is full.
   */
  function FindBySuchbegriff(ks: seq<KundInZeile>, begriff: Option<string>, seite: nat)
    : (r: seq<KundInZeile>)
    ensures |r| <= seite
    ensures forall i :: 0 <= i < |r| ==> r[i] in ks && SuchbegriffPasst(r[i], begriff)
    ensures |r| == seite || forall i :: 0 <= i < |ks| && SuchbegriffPasst(ks[i], begriff) ==> ks[i] in r
  {
    var treffer := Auswahl(ks, MitSuchbegriff(begriff));
    assert forall i :: 0 <= i < |Take(treffer, seite)| ==> Take(treffer, seite)[i] == treffer[i];
    Take(treffer, seite)
  }

  /** `findAllPagable` with the first page of size `seite`: the first rows of the table. */
  function FindAllPagable(ks: seq<KundInZeile>, seite: nat): (r: seq<KundInZeile>)
    ensures |r| <= seite && r <= ks
    ensures |r| == seite || r == ks
  {
    Take(ks, seite)
  }

  // ---------------------------------------------------------------------
  // getAnzahlInGruppen

  /** One entry of the report: a group label and how many customers it holds. */
  datatype KundInnenProGruppe = KundInnenProGruppe(anzahl: nat, gruppe: string)

  /** The customer is assigned to the group labelled `b` (the join on the group's identity). */
  predicate InGruppe(k: KundInZeile, b: string) {
    k.gruppe.Some? && k.gruppe.value.bezeichnung == b
  }

  /** `count(k.id)` for the group labelled `b`. */
  function Anzahl(ks: seq<KundInZeile>, b: string): (n: nat)
    ensures n <= |ks|
    ensures n == 0 <==> forall i :: 0 <= i < |ks| ==> !InGruppe(ks[i], b)
  {
    if |ks| == 0 then 0
    else (if InGruppe(ks[0], b) then 1 else 0) + Anzahl(ks[1..], b)
  }

  /**
   * `getAnzahlInGruppen`: the left join from the groups, one entry per
   * group label, groups without customers counted as 0.
   */
  function GetAnzahlInGruppen(gs: seq<Gruppe>, ks: seq<KundInZeile>): (r: seq<KundInnenProGruppe>)
    ensures |r| == |gs|
    ensures forall i :: 0 <= i < |gs| ==>
              r[i].gruppe == gs[i].bezeichnung && r[i].anzahl == Anzahl(ks, gs[i].bezeichnung)
  {
    seq(|gs|, i requires 0 <= i < |gs| => KundInnenProGruppe(Anzahl(ks, gs[i].bezeichnung), gs[i].bezeichnung))
  }

  /** The number of customers that have a group at all. */
  function MitGruppe(ks: seq<KundInZeile>): (n: nat)
    ensures n <= |ks|
  {
    if |ks| == 0 then 0
    else (if ks[0].gruppe.Some? then 1 else 0) + MitGruppe(ks[1..])
  }

  function Summe(r: seq<KundInnenProGruppe>): nat {
    if |r| == 0 then 0 else r[0].anzahl + Summe(r[1..])
  }

  /** The counts for the labels `bs`, added up. */
  function SummeAnzahl(bs: seq<string>, ks: seq<KundInZeile>): nat {
    if |bs| == 0 then 0 else Anzahl(ks, bs[0]) + SummeAnzahl(bs[1..], ks)
  }

  lemma {:induction false} SummeBezeichnungen(gs: seq<Gruppe>, ks: seq<KundInZeile>)
    ensures Summe(GetAnzahlInGruppen(gs, ks)) == SummeAnzahl(Bezeichnungen(gs), ks)
  {
    if |gs| > 0 {
      SummeBezeichnungen(gs[1..], ks);
      assert GetAnzahlInGruppen(gs, ks)[1..] == GetAnzahlInGruppen(gs[1..], ks);
      assert Bezeichnungen(gs)[1..] == Bezeichnungen(gs[1..]);
    }
  }

  lemma {:induction false} SummeLeer(bs: seq<string>)
    ensures SummeAnzahl(bs, []) == 0
  {
    if |bs| > 0 {
      SummeLeer(bs[1..]);
    }
  }

  /** Counting splits into the first customer and the rest. */
  lemma {:induction false} SummeZerlegt(bs: seq<string>, ks: seq<KundInZeile>)
    requires |ks| > 0
    ensures SummeAnzahl(bs, ks) == SummeAnzahl(bs, ks[..1]) + SummeAnzahl(bs, ks[1..])
  {
    if |bs| > 0 {
      SummeZerlegt(bs[1..], ks);
      assert ks[..1][1..] == [];
    }
  }

  /** With distinct labels, one customer is counted once if its group is listed and never otherwise. */
  lemma {:induction false} SummeEinzeln(bs: seq<string>, k: KundInZeile)
    requires Distinct(bs)
    ensures SummeAnzahl(bs, [k]) == if k.gruppe.Some? && k.gruppe.value.bezeichnung in bs then 1 else 0
  {
    if |bs| > 0 {
      var rest := bs[1..];
      assert Distinct(rest) by {
        forall i, j | 0 <= i < j < |rest| ensures rest[i] != rest[j] {
          assert rest[i] == bs[i + 1] && rest[j] == bs[j + 1];
        }
      }
      SummeEinzeln(rest, k);
      assert [k][1..] == [];
      if k.gruppe.Some? && k.gruppe.value.bezeichnung == bs[0] {
        assert bs[0] !in rest by {
          forall i | 0 <= i < |rest| ensures rest[i] != bs[0] {
            assert rest[i] == bs[i + 1];
          }
        }
      } else if k.gruppe.Some? && k.gruppe.value.bezeichnung in bs {
        assert k.gruppe.value.bezeichnung in rest;
      }
    }
  }

  /**
   * The report accounts for every assigned customer exactly once: with
   * distinct labels and every assigned group listed, the counts add up to
   * the number of customers that have a group.
   */
  lemma {:induction false} AnzahlInGruppenSumme(gs: seq<Gruppe>, ks: seq<KundInZeile>)
    requires BezeichnungenEindeutig(gs)
    requires forall i :: 0 <= i < |ks| && ks[i].gruppe.Some? ==>
               ks[i].gruppe.value.bezeichnung in Bezeichnungen(gs)
    ensures Summe(GetAnzahlInGruppen(gs, ks)) == MitGruppe(ks)
  {
    SummeBezeichnungen(gs, ks);
    SummeAlle(Bezeichnungen(gs), ks);
  }

  lemma {:induction false} SummeAlle(bs: seq<string>, ks: seq<KundInZeile>)
    requires Distinct(bs)
    requires forall i :: 0 <= i < |ks| && ks[i].gruppe.Some? ==> ks[i].gruppe.value.bezeichnung in bs
    ensures SummeAnzahl(bs, ks) == MitGruppe(ks)
  {
    if |ks| == 0 {
      SummeLeer(bs);
    } else {
      SummeZerlegt(bs, ks);
      assert ks[..1] == [ks[0]];
      SummeEinzeln(bs, ks[0]);
      forall i | 0 <= i < |ks[1..]| && ks[1..][i].gruppe.Some?
        ensures ks[1..][i].gruppe.value.bezeichnung in bs
      {
        assert ks[1..][i] == ks[i + 1];
      }
      SummeAlle(bs, ks[1..]);
    }
  }
}
