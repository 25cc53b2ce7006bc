/**
 * The customer entity `KundIn` and its embedded data `KundInnendaten`.
 * Both are mutable objects in the service layer; the store holds them as
 * rows (`KundInZeile`), one value per saved customer.
 */
module KundInnen {
  import opened Common
  import opened Ausnahmen
  import opened Gruppen
  import KundInnennummer

  /** Whether the customer takes part; only `Teilnahme` triggers the coin toss. */
  datatype TeilnahmeAbsagegrund = Teilnahme | Absage

  /** The embedded customer data as a value: the columns of a row. */
  datatype Daten = Daten(
    vorname: Option<string>,
    nachname: Option<string>,
    kundInnennummer: Option<string>,
    teilnahmeAbsagegrund: Option<TeilnahmeAbsagegrund>)

  /** A saved customer: generated id, data and assigned group (`null` before the coin toss). */
  datatype KundInZeile = KundInZeile(id: int, daten: Daten, gruppe: Option<Gruppe>)

  /** What the getter of the customer number yields for a field value: lower-cased, `null` stays `null`. */
  function Gelesen(nummer: Option<string>): (r: Option<string>)
    ensures r.None? <==> nummer.None?
    ensures r.Some? ==> |r.value| == |nummer.value| && IsLower(r.value)
  {
    match nummer
    case None => None
    case Some(s) => LowerIdempotent(s); Some(Lower(s))
  }

  /** Validating the lower-cased number gives the same answer as validating the number itself. */
  lemma GelesenGueltig(nummer: Option<string>)
    ensures KundInnennummer.IsValid(Gelesen(nummer)) == KundInnennummer.IsValid(nummer)
  {
    if nummer.Some? {
      KundInnennummer.GrossKleinEgal(nummer.value);
    }
  }

  class KundInnendaten {
    var vorname: Option<string>
    var nachname: Option<string>
    var kundInnennummer: Option<string>
    var teilnahmeAbsagegrund: Option<TeilnahmeAbsagegrund>

    /** The current field values. */
    function Wert(): Daten
      reads this
    {
      Daten(vorname, nachname, kundInnennummer, teilnahmeAbsagegrund)
    }

    /** A new object with every field `null`, as JSON binding starts out. */
    constructor ()
      ensures Wert() == Daten(None, None, None, None)
    {
      vorname, nachname, kundInnennummer, teilnahmeAbsagegrund := None, None, None, None;
    }

    method SetVorname(vorname: Option<string>)
      modifies this
      ensures Wert() == old(Wert()).(vorname := vorname)
    {
      this.vorname := vorname;
    }

    method SetNachname(nachname: Option<string>)
      modifies this
      ensures Wert() == old(Wert()).(nachname := nachname)
    {
      this.nachname := nachname;
    }

    method SetTeilnahmeAbsagegrund(grund: Option<TeilnahmeAbsagegrund>)
      modifies this
      ensures Wert() == old(Wert()).(teilnahmeAbsagegrund := grund)
    {
      teilnahmeAbsagegrund := grund;
    }

    /**
     * `setKundInnenennummer`: stores the number lower-cased. A `null`
     * argument fails on `toLowerCase` before anything is written.
     */
    method SetKundInnennummer(nummer: Option<string>) returns (r: Outcome<Ausnahme>)
      modifies this
      ensures nummer.None? ==> r == Fail(NullZeiger) && Wert() == old(Wert())
      ensures nummer.Some? ==>
                r == Pass && Wert() == old(Wert()).(kundInnennummer := Some(Lower(nummer.value)))
    {
      if nummer.None? {
        return Fail(NullZeiger);
      }
      kundInnennummer := Some(Lower(nummer.value));
      return Pass;
    }

    /**
     * `getKundInnenennummer`: returns the number lower-cased and writes the
     * lower-cased value back into the field.
     */
    method GetKundInnennummer() returns (nummer: Option<string>)
      modifies this
      ensures nummer == Gelesen(old(kundInnennummer))
      ensures Wert() == old(Wert()).(kundInnennummer := nummer)
    {
      if kundInnennummer.Some? {
        kundInnennummer := Some(Lower(kundInnennummer.value));
      }
      nummer := kundInnennummer;
    }

    /**
     * `isKundInnennummerValid`: the validator applied to what the getter
     * returns; because validation ignores case, that is the validity of the
     * number as it was stored.
     */
    method IsKundInnennummerValid() returns (gueltig: bool)
      modifies this
      ensures gueltig == KundInnennummer.IsValid(old(kundInnennummer))
      ensures Wert() == old(Wert()).(kundInnennummer := Gelesen(old(kundInnennummer)))
    {
      var nummer := GetKundInnennummer();
      gueltig := KundInnennummer.IsValid(nummer);
      GelesenGueltig(old(kundInnennummer));
    }
  }

  /** Calling the getter twice changes nothing the first call did not. */
  method GetterIdempotent(d: KundInnendaten) returns (erste: Option<string>, zweite: Option<string>)
    modifies d
    ensures erste == zweite == Gelesen(old(d.kundInnennummer))
    ensures d.Wert() == old(d.Wert()).(kundInnennummer := erste)
  {
    erste := d.GetKundInnennummer();
    zweite := d.GetKundInnennummer();
  }

  class KundIn {
    var id: Option<int>
    var kundInnendaten: KundInnendaten?
    var gruppe: Option<Gruppe>

    /** A new, unsaved customer: no id, no data, no group. */
    constructor ()
      ensures id == None && kundInnendaten == null && gruppe == None
    {
      id, kundInnendaten, gruppe := None, null, None;
    }

    /** `setGruppe`: stores any group, unconditionally; assigning once is the service's rule. */
    method SetGruppe(g: Option<Gruppe>)
      modifies this
      ensures gruppe == g
      ensures id == old(id) && kundInnendaten == old(kundInnendaten)
    {
      gruppe := g;
    }

    /**
     * `setKundInnendaten`: refuses non-null data whose number is invalid and
     * keeps the old data then; `null` or data with a valid number is stored.
     * The validity check runs the getter, which lower-cases the number in `d`.
     */
    method SetKundInnendaten(d: KundInnendaten?) returns (r: Outcome<Ausnahme>)
      modifies this, d
      ensures id == old(id) && gruppe == old(gruppe)
      ensures d == null ==> r == Pass && kundInnendaten == null
      ensures d != null ==>
                d.Wert() == old(d.Wert()).(kundInnennummer := Gelesen(old(d.kundInnennummer)))
      ensures d != null && !KundInnennummer.IsValid(old(d.kundInnennummer)) ==>
                r == Fail(UngueltigeKundInnendaten) && kundInnendaten == old(kundInnendaten)
      ensures d != null && KundInnennummer.IsValid(old(d.kundInnennummer)) ==>
                r == Pass && kundInnendaten == d
    {
      if d != null {
        var gueltig := d.IsKundInnennummerValid();
        if !gueltig {
          return Fail(UngueltigeKundInnendaten);
        }
      }
      kundInnendaten := d;
      return Pass;
    }
  }
}
