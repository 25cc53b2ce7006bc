/**
 * A group of a project: a label and an inclusive range of Java `int`s,
 * together with the natural order `Gruppe.compareTo` defines on groups.
 */
module Gruppen {
  import opened Common
  import opened Ausnahmen

  /**
   * One group. Its database id and optimistic-locking version are not part
   * of the model; within a tenant a group is identified by its label.
   */
  datatype Gruppe = Gruppe(bezeichnung: string, untergrenze: Int32, obergrenze: Int32)

  /** The drawn value `v` falls into the group's inclusive range. */
  predicate Enthaelt(g: Gruppe, v: int) {
    g.untergrenze <= v <= g.obergrenze
  }

  /** `Integer.compare`. */
  function IntegerCompare(x: int, y: int): (r: int)
    ensures r == -1 <==> x < y
    ensures r == 0 <==> x == y
    ensures r == 1 <==> x > y
  {
    if x < y then -1 else if x == y then 0 else 1
  }

  /**
   * The comparison of two non-null groups: by lower bound, ties broken by
   * upper bound. Labels play no part.
   */
  function Vergleich(a: Gruppe, b: Gruppe): (r: int)
    ensures r == -1 || r == 0 || r == 1
    ensures r < 0 <==> (a.untergrenze < b.untergrenze
                        || (a.untergrenze == b.untergrenze && a.obergrenze < b.obergrenze))
    ensures r == 0 <==> a.untergrenze == b.untergrenze && a.obergrenze == b.obergrenze
  {
    var ret := IntegerCompare(a.untergrenze, b.untergrenze);
    if ret == 0 then IntegerCompare(a.obergrenze, b.obergrenze) else ret
  }

  /** `a.compareTo(o)`: a null argument is rejected before anything is compared. */
  function CompareTo(a: Gruppe, o: Option<Gruppe>): (r: Result<int, Ausnahme>)
    ensures o.None? <==> r == Err(NullZeiger)
    ensures o.Some? ==> r == Ok(Vergleich(a, o.value))
  {
    match o
    case None => Err(NullZeiger)
    case Some(b) => Ok(Vergleich(a, b))
  }

  /** Swapping the arguments negates the result. */
  lemma VergleichAntisymmetrisch(a: Gruppe, b: Gruppe)
    ensures Vergleich(a, b) == -Vergleich(b, a)
  {
  }

  /** `<= 0` is transitive, so the order is a total preorder on groups. */
  lemma VergleichTransitiv(a: Gruppe, b: Gruppe, c: Gruppe)
    requires Vergleich(a, b) <= 0 && Vergleich(b, c) <= 0
    ensures Vergleich(a, c) <= 0
    ensures Vergleich(a, b) < 0 || Vergleich(b, c) < 0 ==> Vergleich(a, c) < 0
  {
  }

  /** Groups that differ only in their label compare equal. */
  lemma VergleichIgnoriertBezeichnung(a: Gruppe, s: string)
    ensures Vergleich(a, a.(bezeichnung := s)) == 0
  {
  }
}
