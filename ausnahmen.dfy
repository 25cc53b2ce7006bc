/**
 * The exceptions the services throw, one constructor per exception class
 * (and per message where one class carries several distinguishable causes).
 */
module Ausnahmen {

  /** The four messages of `Projekt.validiereGruppen`, in the order it checks. */
  datatype GruppenFehler =
    | ZuWenigeGruppen       // fewer than two groups, or no list at all
    | BezeichnungMehrfach   // two groups share a label
    | GrenzenVertauscht     // some group has untergrenze >= obergrenze
    | NichtLueckenlos       // two neighbours in list order do not touch

  datatype Ausnahme =
    // projects
    | ProjektBereitsVorhanden
    | ProjektNichtGefunden
    | UngueltigeGruppen(grund: GruppenFehler)
    | UngueltigeFelddefinition
    // customers and the coin toss
    | UngueltigeKundInnennummer
    | KundInnennummerBereitsVorhanden
    | KundInNichtGefunden
    | GruppeNichtGefunden
    | GruppeBereitsGesetzt          // IllegalArgumentException in muenzwurf
    | UngueltigeKundInnendaten      // IllegalArgumentException in KundIn.setKundInnendaten
    | KeineGruppen                  // min/max over no groups yield null for a primitive int
    | UngueltigerZufallsbereich     // nextInt(origin, bound) with bound <= origin
    // users
    | UngueltigeUserInnendaten
    | LoginMehrfachVergeben
    | UserInNichtGefunden
    // raised by the Java runtime and the persistence layer
    | NullZeiger                    // NullPointerException
    | MehrdeutigesErgebnis          // IncorrectResultSizeDataAccessException
    | EindeutigkeitVerletzt         // DataIntegrityViolationException from a unique constraint
}
