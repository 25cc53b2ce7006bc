# Elektronischer Münzwurf — a verified model of the backend core

The "electronic coin toss" backend assigns the customers (KundInnen) of a
study to groups at random. Each tenant (Mandant) sets up one project by an
order (Bestellung). The order holds the project, with its field definitions
and the groups that partition a range of Java `int`s, and the tenant's users
(UserInnen). When a customer who takes part (`Teilnahme`) is created or
updated without a group, the service draws a random value between the
smallest lower bound and the largest upper bound of the tenant's groups. The
customer is assigned the one group whose range contains the value. A group,
once assigned, never changes.

This project models that core in Dafny:

- `Common` (common.dfy): the building blocks. It covers Java's `null` and
  exceptions (`Option`, `Result`, `Outcome`), the single-result query
  (`Einzeln`: none, one, or several rows), the 32-bit wrap-around, the
  `distinct().count()` idiom, ASCII case folding, and `StringUtils.isNotBlank`.
- `Gruppen`, `Projekte`, `GruppeRepository`: the group entity and its
  order, and the project with its two validations. `validiereGruppen` is a
  method with the source's loop. They also hold the group queries of the
  coin toss and the partition property the toss rests on.
- `KundInnennummer`, `KundInnen`, `KundInRepository`, `KundInVerwaltung`:
  - the customer-number validator (a regular-expression search);
  - the mutable entities `KundInnendaten` and `KundIn` as classes;
  - the customer queries;
  - `KundInService`, with the coin toss, create, update and the reads.
- `UserInnen`, `UserInRepository`, `UserInVerwaltung`: the user entity and
  its queries, and `UserInService`. The batch save `saveAll` is a loop
  specified by a fold.
- `ProjektVerwaltung`, `BestellungVerwaltung`: `ProjektService` (one project
  per tenant) and `BestellungService` (project, then users, in one
  transaction).
- `Datenbank`: the store as a class holding a `map<Tenant, Mandant>` and the
  identity counter. Tenant isolation is structural: every service call reads
  and writes one tenant's entry. The tables' unique constraints are the store
  invariant `Valid()`, and every writing method preserves it.
- `GruppenTabelle`: the group table as the JPA mapping actually leaves it
  after a project update (see Findings).

Where the prose documentation of the system and the code disagree, the model
follows the code:

- `validiereGruppen` checks bounds and contact in LIST order. It does not
  sort the groups first, so a list given out of order is rejected even when
  its groups would tile the range once sorted.
- The groups are owned with `cascade = ALL` but without `orphanRemoval`, so
  an update does not delete the groups it drops (Findings, second row).

For the two defects under Findings the services run on the corrected
behaviour, and the code as written is modelled beside it:

- The services validate groups with `Projekte.ValidiereGruppen`, which checks
  that consecutive groups touch in exact arithmetic. The 32-bit check as
  written is `Projekte.GueltigeGruppen32` (with `Projekte.Lueckenlos32`).
- The services read a tenant's groups through `Datenbank.GruppenVon`, the
  stored project's current list. The table as the mapping leaves it after an
  update is `GruppenTabelle.NachUpdateWieGeschrieben`.
- The exception classes of the services are taken to be checked exceptions,
  which commit the transaction of `bestellen`. Only
  `UngueltigeUserInnendatenException` is visibly declared `extends
  Exception`; the others are assumed to be declared alike. Runtime
  exceptions roll back: a `null`, a single-result query seeing several rows,
  or the unique constraint. After a rollback, identity values already drawn
  stay consumed.

## Model

Source paths are relative to the repository root.

| member | source | states |
|---|---|---|
| Common.Einzeln | src/main/java/de/arbeitsagentur/iab/emu/service/kundin/KundInRepository.java:50-55 | A single-result query yields no result exactly for no rows, a result exactly for one row (that row), and otherwise the several-rows failure |
| Common.Wrap32 | src/main/java/de/arbeitsagentur/iab/emu/service/projekt/Projekt.java:187 | Java `int` arithmetic: identity on the `int` range, and congruent to the exact value modulo 2^32 |
| Common.PlusEinsWrap | src/main/java/de/arbeitsagentur/iab/emu/service/projekt/Projekt.java:187 | `a + 1` on `int` is exact below the largest value and wraps to the smallest at it |
| Common.Auswahl | src/main/java/de/arbeitsagentur/iab/emu/service/projekt/gruppe/GruppeRepository.java:29-30 | A WHERE clause selects only table rows satisfying it, every such row, and nothing exactly when no row satisfies it |
| Common.AuswahlEinzeln | src/main/java/de/arbeitsagentur/iab/emu/service/projekt/gruppe/GruppeRepository.java:29-30 | When exactly one row satisfies the clause, the selection is that row alone |
| Common.AuswahlAlle | src/main/java/de/arbeitsagentur/iab/emu/service/userin/UserInRepository.java:65-66 | A clause every row satisfies selects the whole table |
| Common.AuswahlPaarweise | src/main/java/de/arbeitsagentur/iab/emu/service/userin/UserInRepository.java:65-66 | Selecting rows keeps any pairwise relation (such as unique ids and logins) that held in the table |
| Common.AuswahlHoechstensEine | src/main/java/de/arbeitsagentur/iab/emu/service/kundin/KundInRepository.java:54-55 | If the clause holds for at most one row, the single-result query never sees several rows |
| Common.DistinctCount | src/main/java/de/arbeitsagentur/iab/emu/service/projekt/Projekt.java:174-177 | The number of distinct values is at most the length, with equality exactly when no value repeats: the `size() != distinct().count()` test detects duplicates |
| Common.LowerChar | src/main/java/de/arbeitsagentur/iab/emu/service/kundin/KundInnendaten.java:78-80 | ASCII upper-case letters move to lower case; every other character is unchanged |
| Common.Lower | src/main/java/de/arbeitsagentur/iab/emu/service/kundin/KundInnendaten.java:78-80 | `toLowerCase` keeps the length and lower-cases each character |
| Common.LowerIdempotent | src/main/java/de/arbeitsagentur/iab/emu/service/kundin/KundInnendaten.java:65-72 | Lower-casing twice equals lower-casing once, so the getter's write-back is harmless |
| Common.Take | src/main/java/de/arbeitsagentur/iab/emu/service/kundin/KundInService.java:156-158 | The first page: a prefix of the rows, of the page size unless fewer rows exist |
| Gruppen.IntegerCompare | src/main/java/de/arbeitsagentur/iab/emu/service/projekt/gruppe/Gruppe.java:77-85 | `Integer.compare` is -1, 0 or 1 exactly for less, equal and greater |
| Gruppen.Vergleich | src/main/java/de/arbeitsagentur/iab/emu/service/projekt/gruppe/Gruppe.java:77-85 | Groups compare by lower bound, ties broken by upper bound; zero exactly when both bounds agree |
| Gruppen.CompareTo | src/main/java/de/arbeitsagentur/iab/emu/service/projekt/gruppe/Gruppe.java:77-85 | A null argument is a NullPointerException, and exactly that; otherwise the comparison of bounds |
| Gruppen.VergleichAntisymmetrisch | src/main/java/de/arbeitsagentur/iab/emu/service/projekt/gruppe/Gruppe.java:77-85 | Swapping the arguments negates the result (the `Comparable` contract) |
| Gruppen.VergleichTransitiv | src/main/java/de/arbeitsagentur/iab/emu/service/projekt/gruppe/Gruppe.java:77-85 | `<= 0` and `< 0` are transitive |
| Gruppen.VergleichIgnoriertBezeichnung | src/main/java/de/arbeitsagentur/iab/emu/service/projekt/gruppe/Gruppe.java:77-85 | The label plays no part in the order |
| Projekte.Bezeichnungen | src/main/java/de/arbeitsagentur/iab/emu/service/projekt/Projekt.java:174 | The labels of the groups, position by position |
| Projekte.Namen | src/main/java/de/arbeitsagentur/iab/emu/service/projekt/Projekt.java:157 | The names of the field definitions, position by position |
| Projekte.GeprueftGanz | src/main/java/de/arbeitsagentur/iab/emu/service/projekt/Projekt.java:180-192 | Getting past every index of the loop is the same as the list being a gap-free chain of well-ordered groups |
| Projekte.ErsterFehlerEindeutig | src/main/java/de/arbeitsagentur/iab/emu/service/projekt/Projekt.java:180-192 | The loop stops at one index at most |
| Projekte.ValidiereGruppen | src/main/java/de/arbeitsagentur/iab/emu/service/projekt/Projekt.java:169-195 | No error exactly for a valid list. Each error code holds exactly under its condition, in the source's order: fewer than two groups (or null); duplicate labels; the first failing index has bounds not ordered; the first failing index does not touch its successor |
| Projekte.ValidiereFelddefinitionen | src/main/java/de/arbeitsagentur/iab/emu/service/projekt/Projekt.java:152-162 | An error exactly when a list is present and two definitions share a name; no list is accepted |
| Projekte.KetteAufsteigend | src/main/java/de/arbeitsagentur/iab/emu/service/projekt/Projekt.java:180-192 | In a list passing the loop, every earlier group ends before every later group starts |
| Projekte.KetteDisjunkt | src/main/java/de/arbeitsagentur/iab/emu/service/projekt/Projekt.java:180-192 | In a list passing the loop, no value lies in two groups |
| Projekte.KetteRest | src/main/java/de/arbeitsagentur/iab/emu/service/projekt/Projekt.java:180-192 | The tail of a chain is a chain |
| Projekte.KetteUeberdeckt | src/main/java/de/arbeitsagentur/iab/emu/service/projekt/Projekt.java:180-192 | A chain covers every value from its first lower bound to its last upper bound: there are no gaps |
| Projekte.Lueckenlos32Abweichung | src/main/java/de/arbeitsagentur/iab/emu/service/projekt/Projekt.java:187-188 | The 32-bit contact test accepts exactly the intended pairs plus a group ending at the largest `int` followed by one starting at the smallest |
| Projekte.GueltigeGruppen32OhneUeberlauf | src/main/java/de/arbeitsagentur/iab/emu/service/projekt/Projekt.java:169-195 | On lists whose upper bounds stay below the largest `int`, the check as written and the intended check agree |
| GruppeRepository.FindGruppeByZufallswert | src/main/java/de/arbeitsagentur/iab/emu/service/projekt/gruppe/GruppeRepository.java:29-30 | A result is a stored group containing the value; no result exactly when no group contains it |
| GruppeRepository.MaxObergrenze | src/main/java/de/arbeitsagentur/iab/emu/service/projekt/gruppe/GruppeRepository.java:32-33 | `max(obergrenze)`: an upper bound of some group, and at least every upper bound |
| GruppeRepository.MinUntergrenze | src/main/java/de/arbeitsagentur/iab/emu/service/projekt/gruppe/GruppeRepository.java:35-36 | `min(untergrenze)`: a lower bound of some group, and at most every lower bound |
| GruppeRepository.KetteBereich | src/main/java/de/arbeitsagentur/iab/emu/service/projekt/gruppe/GruppeRepository.java:32-36 | On a chain the minimum is the first lower bound and the maximum the last upper bound |
| GruppeRepository.ZufallswertEindeutig | src/main/java/de/arbeitsagentur/iab/emu/service/kundin/KundInService.java:62-66 | On a valid group list, every value between min and max lies in exactly one group, and the query returns exactly that group |
| GruppeRepository.UeberlaufMehrdeutig | src/main/java/de/arbeitsagentur/iab/emu/service/projekt/Projekt.java:187-188 | The list [A: 0..MAX, B: MIN..5] passes the check as written but not the intended one, and its groups overlap: the group query for 0 would find two groups (the toss itself fails earlier, see `KundInVerwaltung.UeberlaufUnziehbar`) |
| KundInnennummer.SucheAb | src/main/java/de/arbeitsagentur/iab/emu/service/kundin/KundInnennummerValidator.java:32-34 | `Matcher.find` from position i succeeds exactly when the pattern matches at some position at or after i |
| KundInnennummer.IsValid | src/main/java/de/arbeitsagentur/iab/emu/service/kundin/KundInnennummerValidator.java:28-35 | Valid exactly when not null and three digits, a letter and six digits occur somewhere in the string |
| KundInnennummer.PasstAnLower | src/main/java/de/arbeitsagentur/iab/emu/service/kundin/KundInnennummerValidator.java:32 | Lower-casing keeps every match (CASE_INSENSITIVE on ASCII) |
| KundInnennummer.GrossKleinEgal | src/main/java/de/arbeitsagentur/iab/emu/service/kundin/KundInnennummerValidator.java:32-34 | A number is valid exactly when its lower-cased form is |
| KundInnennummer.KurzUngueltig | src/main/java/de/arbeitsagentur/iab/emu/service/kundin/KundInnennummerValidator.java:32-34 | A string shorter than ten characters is invalid |
| KundInnennummer.EingebettetGueltig | src/main/java/de/arbeitsagentur/iab/emu/service/kundin/KundInnennummerValidator.java:34 | Because `find` searches, text around a valid number keeps it valid |
| KundInnennummer.Beispiele | src/test/java/de/arbeitsagentur/iab/emu/service/kundin/KundInnennummerValidatorTest.java:28-37 | The unit test's valid and invalid numbers come out as the test expects |
| KundInnen.Gelesen | src/main/java/de/arbeitsagentur/iab/emu/service/kundin/KundInnendaten.java:65-72 | The getter's value: null stays null, otherwise the same length and lower case |
| KundInnen.GelesenGueltig | src/main/java/de/arbeitsagentur/iab/emu/service/kundin/KundInnendaten.java:83-85 | Validating what the getter returns gives the same answer as validating the stored value |
| KundInnen.KundInnendaten.constructor | src/main/java/de/arbeitsagentur/iab/emu/service/kundin/KundInnendaten.java:32-40 | A new data object has every field null |
| KundInnen.KundInnendaten.SetVorname | src/main/java/de/arbeitsagentur/iab/emu/service/kundin/KundInnendaten.java:49-51 | Changes the first name and nothing else |
| KundInnen.KundInnendaten.SetNachname | src/main/java/de/arbeitsagentur/iab/emu/service/kundin/KundInnendaten.java:55-57 | Changes the surname and nothing else |
| KundInnen.KundInnendaten.SetTeilnahmeAbsagegrund | src/main/java/de/arbeitsagentur/iab/emu/service/kundin/KundInnendaten.java:90-92 | Changes the participation field and nothing else |
| KundInnen.KundInnendaten.SetKundInnennummer | src/main/java/de/arbeitsagentur/iab/emu/service/kundin/KundInnendaten.java:78-80 | null fails with a NullPointerException and changes nothing; otherwise the lower-cased number is stored and nothing else changes |
| KundInnen.KundInnendaten.GetKundInnennummer | src/main/java/de/arbeitsagentur/iab/emu/service/kundin/KundInnendaten.java:65-72 | Returns the lower-cased number and writes it back; the other fields are unchanged |
| KundInnen.KundInnendaten.IsKundInnennummerValid | src/main/java/de/arbeitsagentur/iab/emu/service/kundin/KundInnendaten.java:83-85 | The result is the validity of the stored number, and the number is lower-cased as a side effect |
| KundInnen.GetterIdempotent | src/main/java/de/arbeitsagentur/iab/emu/service/kundin/KundInnendaten.java:65-72 | Calling the getter twice returns the same value and changes no more than one call |
| KundInnen.KundIn.constructor | src/main/java/de/arbeitsagentur/iab/emu/service/kundin/KundIn.java:33-42 | A new customer has no id, no data and no group |
| KundInnen.KundIn.SetGruppe | src/main/java/de/arbeitsagentur/iab/emu/service/kundin/KundIn.java:54-56 | Stores the group; id and data are unchanged |
| KundInnen.KundIn.SetKundInnendaten | src/main/java/de/arbeitsagentur/iab/emu/service/kundin/KundIn.java:66-72 | null is stored; data with an invalid number is refused and the old data kept; valid data is stored; the data's number is lower-cased by the check |
| KundInRepository.Ids | src/main/java/de/arbeitsagentur/iab/emu/service/kundin/KundIn.java:33-35 | The id column of the rows |
| KundInRepository.Nummern | src/main/java/de/arbeitsagentur/iab/emu/service/kundin/KundIn.java:29 | The number column the unique constraint is about |
| KundInRepository.FindById | src/main/java/de/arbeitsagentur/iab/emu/service/kundin/KundInRepository.java:50-51 | A result is a stored row with that id; none exactly when no row has it |
| KundInRepository.FindByIdTrifft | src/main/java/de/arbeitsagentur/iab/emu/service/kundin/KundInRepository.java:50-51 | With unique ids a stored id finds exactly its row |
| KundInRepository.FindByKundInnennummer | src/main/java/de/arbeitsagentur/iab/emu/service/kundin/KundInRepository.java:54-55 | A result is a stored row whose number equals the argument up to case; none exactly when no row matches |
| KundInRepository.FindByKundInnennummerTrifft | src/main/java/de/arbeitsagentur/iab/emu/service/kundin/KundInRepository.java:54-55 | Under the unique lower-case numbers, a matching row is the result, whatever the argument's case |
| KundInRepository.FindByKundInnennummerEindeutig | src/main/java/de/arbeitsagentur/iab/emu/service/kundin/KundInRepository.java:54-55 | Under the unique lower-case numbers, the lookup never sees several rows |
| KundInRepository.FindBySuchbegriff | src/main/java/de/arbeitsagentur/iab/emu/service/kundin/KundInRepository.java:33-34 | At most a page of rows, all matching the term in surname or number ignoring case, and every match unless the page is full |
| KundInRepository.FindAllPagable | src/main/java/de/arbeitsagentur/iab/emu/service/kundin/KundInRepository.java:36-37 | A prefix of the table, of the page size or the whole table |
| KundInRepository.Anzahl | src/main/java/de/arbeitsagentur/iab/emu/service/kundin/KundInRepository.java:39-40 | The count of customers in the labelled group is at most the number of rows, and zero exactly when no customer is in it |
| KundInRepository.GetAnzahlInGruppen | src/main/java/de/arbeitsagentur/iab/emu/service/kundin/KundInRepository.java:39-40 | One entry per group with its label and its customer count (0 for an empty group); the query fixes no order, and the model lists the groups in table order |
| KundInRepository.SummeBezeichnungen | src/main/java/de/arbeitsagentur/iab/emu/service/kundin/KundInRepository.java:39-40 | The report's total is the sum of the counts over the labels |
| KundInRepository.AnzahlInGruppenSumme | src/main/java/de/arbeitsagentur/iab/emu/service/kundin/KundInRepository.java:39-40 | With distinct labels covering every assigned group, the report counts each assigned customer exactly once |
| KundInRepository.SummeAlle | src/main/java/de/arbeitsagentur/iab/emu/service/kundin/KundInRepository.java:39-40 | The counts over distinct labels add up to the number of customers that have a group |
| Datenbank.GruppenVon | src/main/java/de/arbeitsagentur/iab/emu/service/projekt/Projekt.java:55-56 | The tenant's group rows are the stored project's list, and none without a project |
| Datenbank.MandantenGetrennt | src/main/java/de/arbeitsagentur/iab/emu/service/projekt/Projekt.java:30-35 | Writing one tenant's rows leaves every other tenant's rows unchanged |
| Datenbank.MandantMonoton | src/main/java/de/arbeitsagentur/iab/emu/service/kundin/KundIn.java:33-35 | The constraints stay true when the identity counter advances |
| Datenbank.KundInnenGetauscht | src/main/java/de/arbeitsagentur/iab/emu/service/kundin/KundIn.java:29 | Replacing a tenant's customer rows with rows meeting their constraints keeps the tenant valid |
| Datenbank.UserInnenGetauscht | src/main/java/de/arbeitsagentur/iab/emu/service/userin/UserIn.java:27-28 | Replacing a tenant's user rows with rows meeting their constraints keeps the tenant valid |
| Datenbank.ErsetzeKundIn | src/main/java/de/arbeitsagentur/iab/emu/service/kundin/KundInService.java:135 | Saving a customer with a stored id replaces that row and keeps every other row |
| Datenbank.ErsetzeUserIn | src/main/java/de/arbeitsagentur/iab/emu/service/userin/UserInService.java:92 | Saving a user with a stored id replaces that row and keeps every other row |
| Datenbank.KundInAnhaengen | src/main/java/de/arbeitsagentur/iab/emu/service/kundin/KundIn.java:29 | Appending a customer whose number no row matches keeps the numbers unique |
| Datenbank.KundInErsetzen | src/main/java/de/arbeitsagentur/iab/emu/service/kundin/KundIn.java:29 | Replacing a row whose number no other row matches keeps ids and numbers unique and every row valid |
| Datenbank.ErsetzenIds | src/main/java/de/arbeitsagentur/iab/emu/service/kundin/KundInService.java:135 | Replacing a row by id leaves the id column unchanged |
| Datenbank.UserInAnhaengen | src/main/java/de/arbeitsagentur/iab/emu/service/userin/UserIn.java:27-28 | Appending a valid user with the next id and a new login keeps ids and logins unique |
| Datenbank.UserInErsetzen | src/main/java/de/arbeitsagentur/iab/emu/service/userin/UserIn.java:27-28 | Replacing a user whose login no other user holds keeps the constraints |
| Datenbank.ErsetzenUserIds | src/main/java/de/arbeitsagentur/iab/emu/service/userin/UserInService.java:92 | Replacing a user by id leaves the id column unchanged |
| Datenbank.UserInnenPaarweise | src/main/java/de/arbeitsagentur/iab/emu/service/userin/UserIn.java:27-28 | Unique ids and unique logins is the same as every pair of rows differing in both |
| Datenbank.UserInEntfernen | src/main/java/de/arbeitsagentur/iab/emu/service/userin/UserInRepository.java:65-66 | Deleting users keeps the constraints |
| Datenbank.Datenbank.constructor | src/main/java/de/arbeitsagentur/iab/emu/service/projekt/Projekt.java:30-35 | An empty store satisfies the constraints |
| Datenbank.Datenbank.BestandGueltig | src/main/java/de/arbeitsagentur/iab/emu/service/projekt/Projekt.java:30-35 | In a valid store every tenant's rows, even those of a tenant that never wrote, meet the constraints |
| Datenbank.Datenbank.NeueId | src/main/java/de/arbeitsagentur/iab/emu/service/kundin/KundIn.java:33-35 | The identity column hands out the next value, no rows change, and validity is kept |
| Datenbank.Datenbank.Schreibe | src/main/java/de/arbeitsagentur/iab/emu/service/bestellung/BestellungService.java:35 | A commit changes only the tenant's own entry |
| Datenbank.Datenbank.Zuruecksetzen | src/main/java/de/arbeitsagentur/iab/emu/service/bestellung/BestellungService.java:35 | A rollback restores the rows of the snapshot while drawn ids stay drawn, and validity returns |
| KundInVerwaltung.BereichZiehbarGenau | src/main/java/de/arbeitsagentur/iab/emu/service/kundin/Zufallsgenerator.java:33-35 | `nextInt(min, max + 1)` can be drawn from exactly when max is below the largest `int` and min is at most max |
| KundInVerwaltung.Auslosung | src/main/java/de/arbeitsagentur/iab/emu/service/kundin/KundInService.java:53-70 | An assigned group is refused; no groups, an undrawable range, and no group for the value are the errors in that order; a result is a group containing the value |
| KundInVerwaltung.AuslosungGelingt | src/main/java/de/arbeitsagentur/iab/emu/service/kundin/KundInService.java:53-70 | On a valid group list below the largest `int`, the toss for a customer without a group always succeeds, with the unique group holding the draw |
| KundInVerwaltung.UeberlaufUnziehbar | src/main/java/de/arbeitsagentur/iab/emu/service/kundin/Zufallsgenerator.java:33-35 | A group list that only the 32-bit check accepts has a group ending at the largest `int`, so `nextInt(min, max + 1)` refuses the range and every toss over it fails with the invalid-range error before any group is looked up |
| KundInVerwaltung.GespeicherteGruppenZiehbar | src/main/java/de/arbeitsagentur/iab/emu/service/kundin/KundInService.java:62-64 | A stored project's groups are valid and their range is non-empty |
| KundInVerwaltung.IstVergeben | src/main/java/de/arbeitsagentur/iab/emu/service/kundin/KundInService.java:167-179 | Fails exactly when the lookup sees several rows; "not taken" exactly when no row matches or the matching row is the excluded one |
| KundInVerwaltung.IstVergebenGenau | src/main/java/de/arbeitsagentur/iab/emu/service/kundin/KundInService.java:167-179 | Under unique numbers the check does not fail, and a number is taken exactly when a row other than the excluded one matches it |
| KundInVerwaltung.NichtVergebenFrei | src/main/java/de/arbeitsagentur/iab/emu/service/kundin/KundInService.java:167-179 | "Not taken" means every matching row is the excluded one |
| KundInVerwaltung.Pruefung | src/main/java/de/arbeitsagentur/iab/emu/service/kundin/KundInService.java:104-112 | An invalid format is refused first; a pass means valid and free; under unique numbers a pass holds exactly for valid and free, and a taken number is refused as taken |
| KundInVerwaltung.VergebenFrei | src/main/java/de/arbeitsagentur/iab/emu/service/kundin/KundInService.java:167-179 | "Not taken" implies free; under unique numbers the two are equivalent |
| KundInVerwaltung.Zuordnung | src/main/java/de/arbeitsagentur/iab/emu/service/kundin/KundInService.java:88-89 | A customer keeps an assigned group and one not taking part keeps its group; only one taking part without a group tosses the coin, and then gets a group holding the draw exactly when the toss succeeds |
| KundInVerwaltung.AnlegenGueltig | src/main/java/de/arbeitsagentur/iab/emu/service/kundin/KundInService.java:92 | Appending a new customer whose number passed the check keeps the tenant valid |
| KundInVerwaltung.ErsetzenGueltig | src/main/java/de/arbeitsagentur/iab/emu/service/kundin/KundInService.java:135 | Replacing a customer whose number passed the check keeps the tenant valid |
| KundInVerwaltung.KundInService.constructor | src/main/java/de/arbeitsagentur/iab/emu/service/kundin/KundInService.java:41-44 | The service works on the given store |
| KundInVerwaltung.KundInService.Muenzwurf | src/main/java/de/arbeitsagentur/iab/emu/service/kundin/KundInService.java:53-70 | The customer gets the group the toss picks over the tenant's groups; on every exception the group is unchanged |
| KundInVerwaltung.KundInService.CheckKundInnennummer | src/main/java/de/arbeitsagentur/iab/emu/service/kundin/KundInService.java:104-112 | The outcome is the format-then-taken decision on the stored number, and a pass leaves a valid, lower-case, free number in the data |
| KundInVerwaltung.KundInService.DatenUebernehmen | src/main/java/de/arbeitsagentur/iab/emu/service/kundin/KundInService.java:87-89 | Invalid data is refused and the group kept; valid data is stored and the group is the one the assignment rule gives |
| KundInVerwaltung.KundInService.Anlegen | src/main/java/de/arbeitsagentur/iab/emu/service/kundin/KundInService.java:86-92 | A failed toss changes nothing; otherwise a row with the next id, the data and the assigned group is appended and validity kept |
| KundInVerwaltung.KundInService.Create | src/main/java/de/arbeitsagentur/iab/emu/service/kundin/KundInService.java:81-93 | null is refused; then the number check, then the toss; each failure leaves the store unchanged; success appends the row with the next id; validity kept |
| KundInVerwaltung.KundInService.Aendern | src/main/java/de/arbeitsagentur/iab/emu/service/kundin/KundInService.java:127-136 | An unknown id is not found; otherwise the customer takes the data, keeps an assigned group or tosses for participation, and its row is replaced |
| KundInVerwaltung.KundInService.ZeileErsetzen | src/main/java/de/arbeitsagentur/iab/emu/service/kundin/KundInService.java:135 | The stored row with the id is replaced, no other row changes, and validity is kept for a checked number |
| KundInVerwaltung.KundInService.Update | src/main/java/de/arbeitsagentur/iab/emu/service/kundin/KundInService.java:121-137 | null is refused; the number check (excluding the customer itself) comes before the lookup; an assigned group never changes; failure leaves the store unchanged; validity kept |
| KundInVerwaltung.KundInService.GetById | src/main/java/de/arbeitsagentur/iab/emu/service/kundin/KundInService.java:139-142 | Not found exactly when no row has the id; a result is the tenant's row with it; never ambiguous in a valid store |
| KundInVerwaltung.KundInService.GetByKundInnennummer | src/main/java/de/arbeitsagentur/iab/emu/service/kundin/KundInService.java:144-147 | Not found exactly when no number matches up to case; a result matches; never ambiguous in a valid store |
| KundInVerwaltung.KundInService.GetKundInnenProGruppe | src/main/java/de/arbeitsagentur/iab/emu/service/kundin/KundInService.java:149-151 | One entry per group of the tenant with its label and customer count |
| KundInVerwaltung.KundInService.GetBySuchbegriff | src/main/java/de/arbeitsagentur/iab/emu/service/kundin/KundInService.java:153-159 | At most 101 of the tenant's rows; no or an empty term gives the first rows of the table; otherwise only matches, and all of them unless the page is full |
| UserInnen.LeerUngueltig | src/main/java/de/arbeitsagentur/iab/emu/service/userin/UserIn.java:66-68 | A null, empty or all-whitespace login or role makes the user invalid |
| UserInnen.GueltigOhneId | src/main/java/de/arbeitsagentur/iab/emu/service/userin/UserIn.java:66-68 | Validity does not depend on the id |
| UserInnen.Beispiele | src/test/java/de/arbeitsagentur/iab/emu/service/userin/UserInTest.java:28-57 | The unit test's valid and invalid users come out as expected; an em space is blank, a no-break space is not |
| UserInRepository.Logins | src/main/java/de/arbeitsagentur/iab/emu/service/userin/UserIn.java:27-28 | The login column the unique constraint is about |
| UserInRepository.UserIds | src/main/java/de/arbeitsagentur/iab/emu/service/userin/UserIn.java:33-35 | The id column of the user rows |
| UserInRepository.FindById | src/main/java/de/arbeitsagentur/iab/emu/service/userin/UserInRepository.java:38-39 | A result is a stored user with the id; none exactly when no user has it |
| UserInRepository.ExistsById | src/main/java/de/arbeitsagentur/iab/emu/service/userin/UserInRepository.java:49-50 | `existsById` agrees with `findById` finding something |
| UserInRepository.FindByIdTrifft | src/main/java/de/arbeitsagentur/iab/emu/service/userin/UserInRepository.java:38-39 | With unique ids a stored id finds exactly its user |
| UserInRepository.FindByLogin | src/main/java/de/arbeitsagentur/iab/emu/service/userin/UserInRepository.java:53-54 | A result is a stored user with exactly that login; none exactly when no user has it |
| UserInRepository.FindByLoginTrifft | src/main/java/de/arbeitsagentur/iab/emu/service/userin/UserInRepository.java:53-54 | With unique logins a stored login finds exactly its user |
| UserInRepository.FindByLoginEindeutig | src/main/java/de/arbeitsagentur/iab/emu/service/userin/UserInRepository.java:53-54 | With unique logins the lookup never sees several users |
| UserInRepository.DeleteById | src/main/java/de/arbeitsagentur/iab/emu/service/userin/UserInRepository.java:65-66 | Every remaining user was stored and has another id, every user with another id remains, and an absent id deletes nothing |
| UserInVerwaltung.AlleSpeichern | src/main/java/de/arbeitsagentur/iab/emu/service/userin/UserInService.java:62 | Each `save` of the batch, in list order, writes one entry with the given login and role and an id; the counter never goes back. An insert runs at once and collides with a login the table holds; a merge is written at commit. What `saveAll` hands back is `Rueckgabe` |
| UserInVerwaltung.AlleSpeichernSchritt | src/main/java/de/arbeitsagentur/iab/emu/service/userin/UserInService.java:62 | Saving one more user of the list is one more single save |
| UserInVerwaltung.ZusammenfuehrenGueltig | src/main/java/de/arbeitsagentur/iab/emu/service/userin/UserInService.java:62 | Merging a valid user into the row with its id keeps the rows valid with unique ids |
| UserInVerwaltung.EinfuegenGueltig | src/main/java/de/arbeitsagentur/iab/emu/service/userin/UserInService.java:62 | Inserting a valid user with the next id keeps the rows valid with unique ids |
| UserInVerwaltung.AlleSpeichernGueltig | src/main/java/de/arbeitsagentur/iab/emu/service/userin/UserInService.java:62 | Saving a list of valid users keeps every row valid and the ids unique |
| UserInVerwaltung.NurNeue | src/main/java/de/arbeitsagentur/iab/emu/service/userin/UserInService.java:62 | Users without ids are all appended, in order, with consecutive new ids, and the table already holds the login of every row the transaction will commit |
| UserInVerwaltung.NeueUserInnenEindeutig | src/main/java/de/arbeitsagentur/iab/emu/service/userin/UserInService.java:58-62 | New users with pairwise different logins not yet stored pass the unique constraint on every insert and at commit, so the batch is not rolled back |
| UserInVerwaltung.NeueOhneKollision | src/main/java/de/arbeitsagentur/iab/emu/service/userin/UserInService.java:58-62 | Inserting new users whose logins are pairwise different and not in the table never meets a login the table holds |
| UserInVerwaltung.Verwaltet | src/main/java/de/arbeitsagentur/iab/emu/service/userin/UserInService.java:62 | The instance `save` returns for an entry has the entry's id, and is the committed row with that id whenever one exists |
| UserInVerwaltung.Rueckgabe | src/main/java/de/arbeitsagentur/iab/emu/service/userin/UserInService.java:62 | `saveAll` returns one entry per given user, each the managed instance for the id saved at that position |
| UserInVerwaltung.VerwaltetEindeutig | src/main/java/de/arbeitsagentur/iab/emu/service/userin/UserInService.java:62 | With unique ids, the instance returned for a row's id is that row |
| UserInVerwaltung.SpeichernGebunden | src/main/java/de/arbeitsagentur/iab/emu/service/userin/UserInService.java:62 | One more `save` keeps every saved entry's id among the ids of the rows |
| UserInVerwaltung.GespeichertGebunden | src/main/java/de/arbeitsagentur/iab/emu/service/userin/UserInService.java:62 | After the batch, every saved entry's id is the id of a committed row |
| UserInVerwaltung.RueckgabeAusZeilen | src/main/java/de/arbeitsagentur/iab/emu/service/userin/UserInService.java:62 | Every entry `saveAll` returns is a committed row, with the id of the user saved at that position |
| UserInVerwaltung.NeueZurueck | src/main/java/de/arbeitsagentur/iab/emu/service/userin/UserInService.java:58-62 | New valid users saved into a valid tenant come back exactly as each `save` wrote them: given login and role, new id |
| UserInVerwaltung.DoppeltGespeichert | src/main/java/de/arbeitsagentur/iab/emu/service/userin/UserInService.java:62 | A stored user saved twice in one batch (as a, then b): both saves merge into its one row, which ends as b; nothing is inserted |
| UserInVerwaltung.DoppelteId | src/main/java/de/arbeitsagentur/iab/emu/service/userin/UserInService.java:62 | Such a batch passes the unique constraint, and `saveAll` returns [b, b], the one managed instance twice, not [a, b] |
| UserInVerwaltung.LoginWiederverwendet | src/main/java/de/arbeitsagentur/iab/emu/service/userin/UserInService.java:62 | Stored user 1 with login a, then the batch [user 1 renamed to c, a new user a]: the committed logins are unique, yet the insert meets a, which the table still holds, so the batch fails |
| UserInVerwaltung.UserInService.constructor | src/main/java/de/arbeitsagentur/iab/emu/service/userin/UserInService.java:40-42 | The service works on the given store |
| UserInVerwaltung.UserInService.Get | src/main/java/de/arbeitsagentur/iab/emu/service/userin/UserInService.java:44-46 | Not found exactly when no user has the id; a result is the tenant's user with it; never ambiguous in a valid store |
| UserInVerwaltung.UserInService.SaveAll | src/main/java/de/arbeitsagentur/iab/emu/service/userin/UserInService.java:62 | The users are saved in list order; an insert meeting a login the table holds, or duplicate logins at commit, roll every row back; otherwise the tenant's users are the saved rows and the result is the managed instance per entry (`Rueckgabe`); validity kept for valid users |
| UserInVerwaltung.UserInService.SpeichernNacheinander | src/main/java/de/arbeitsagentur/iab/emu/service/userin/UserInService.java:62 | The loop's rows, saved users, counter, the logins the table holds and the collision flag are those of saving the list one by one, each insert drawing the next identity value from the store |
| UserInVerwaltung.UserInService.CreateAll | src/main/java/de/arbeitsagentur/iab/emu/service/userin/UserInService.java:52-63 | An invalid user is refused first, then a login repeated in the list; otherwise `saveAll`, with its unique-constraint outcome and its result, the managed instance per entry; every failure leaves the rows unchanged; validity kept |
| UserInVerwaltung.UserInService.Create | src/main/java/de/arbeitsagentur/iab/emu/service/userin/UserInService.java:65-77 | Invalid is refused, then a stored login; success exactly when valid and the login is new; the user is appended with the next id whatever id it carried |
| UserInVerwaltung.UserInService.Update | src/main/java/de/arbeitsagentur/iab/emu/service/userin/UserInService.java:80-93 | A missing or unknown id is checked first, then validity, then a login held by another user; success exactly when all pass; the row is replaced |
| UserInVerwaltung.UserInService.Delete | src/main/java/de/arbeitsagentur/iab/emu/service/userin/UserInService.java:95-97 | The tenant's users with the id are removed and nothing else; none with the id remains; validity kept |
| UserInVerwaltung.UpdateGueltig | src/main/java/de/arbeitsagentur/iab/emu/service/userin/UserInService.java:88-92 | Replacing a stored user with a valid one whose login no other user holds keeps the tenant valid |
| ProjektVerwaltung.ProjektService.constructor | src/main/java/de/arbeitsagentur/iab/emu/service/projekt/ProjektService.java:36-39 | The service works on the given store |
| ProjektVerwaltung.ProjektService.GetProjekt | src/main/java/de/arbeitsagentur/iab/emu/service/projekt/ProjektService.java:41-47 | Not found exactly when the tenant has no project; otherwise the project |
| ProjektVerwaltung.ProjektService.IsProjektBereitsVorhanden | src/main/java/de/arbeitsagentur/iab/emu/service/projekt/ProjektService.java:72-74 | True exactly when the tenant has a project |
| ProjektVerwaltung.ProjektService.Save | src/main/java/de/arbeitsagentur/iab/emu/service/projekt/ProjektService.java:59-70 | Groups validated first, then field definitions; success exactly for a valid project, which replaces the tenant's project; the stored id is kept or the next one assigned; failure changes nothing |
| ProjektVerwaltung.ProjektService.Create | src/main/java/de/arbeitsagentur/iab/emu/service/projekt/ProjektService.java:76-84 | A tenant with a project is refused before validation; success exactly for no project and a valid one, stored under the next id |
| ProjektVerwaltung.ProjektService.Update | src/main/java/de/arbeitsagentur/iab/emu/service/projekt/ProjektService.java:49-57 | A project without the stored id is not found, before validation; success exactly for the stored id and a valid project, which replaces the stored one |
| ProjektVerwaltung.ZweitesAnlegenScheitert | src/main/java/de/arbeitsagentur/iab/emu/service/projekt/ProjektService.java:76-84 | After a create, `getProjekt` returns the project and a second create is refused; other tenants unchanged |
| BestellungVerwaltung.UserInnenAnlegenFaelle | src/main/java/de/arbeitsagentur/iab/emu/service/userin/UserInService.java:52-63 | The user step passes exactly for valid users with distinct logins that stay unique once saved; only the unique-constraint failure is a runtime exception |
| BestellungVerwaltung.UserInnenImLeerenMandanten | src/main/java/de/arbeitsagentur/iab/emu/service/bestellung/BestellungService.java:53 | For a tenant without users, new users are created exactly when they are valid and their logins distinct |
| BestellungVerwaltung.BestellungService.constructor | src/main/java/de/arbeitsagentur/iab/emu/service/bestellung/BestellungService.java:43-47 | Both services share one store |
| BestellungVerwaltung.BestellungService.Bestellen | src/main/java/de/arbeitsagentur/iab/emu/service/bestellung/BestellungService.java:49-55 | null fails at once with nothing changed; an existing project is refused; an invalid project fails validation; otherwise the outcome is the user step's; success stores project and users; a runtime failure rolls back, a checked one keeps the project; other tenants unchanged; validity kept |
| BestellungVerwaltung.BestellungService.Ausfuehren | src/main/java/de/arbeitsagentur/iab/emu/service/bestellung/BestellungService.java:52-53 | The project is created first and the users only if that succeeds, with the store effects as for `Bestellen` |
| BestellungVerwaltung.BestellungService.UserInnenBestellen | src/main/java/de/arbeitsagentur/iab/emu/service/bestellung/BestellungService.java:53 | The user step's outcome; success stores the users after the project; a runtime exception rolls back to the start of the transaction; a checked one keeps the project |
| BestellungVerwaltung.BestellungService.BereitsVorhanden | src/main/java/de/arbeitsagentur/iab/emu/service/bestellung/BestellungService.java:57-59 | True exactly when the tenant has a project |
| BestellungVerwaltung.BestelltVollstaendig | src/test/java/de/arbeitsagentur/iab/emu/service/bestellung/BestellungServiceTest.java:60-90 | After an order for an empty tenant, it holds the ordered project under the project id and exactly the ordered users, in order, under the following ids |
| BestellungVerwaltung.ZweiteBestellungScheitert | src/test/java/de/arbeitsagentur/iab/emu/service/bestellung/BestellungServiceTest.java:60-119 | An order of a valid project and new distinct users succeeds, `bereitsVorhanden` is then true, and a second order is refused; other tenants unchanged |
| GruppenTabelle.Waisen | src/main/java/de/arbeitsagentur/iab/emu/service/projekt/Projekt.java:55-56 | The groups an update leaves behind are exactly the stored groups whose label the new list lacks |
| GruppenTabelle.KeineWaisen | src/main/java/de/arbeitsagentur/iab/emu/service/projekt/Projekt.java:55-56 | An update keeping every stored label leaves nothing behind |
| GruppenTabelle.OhneWaisen | src/main/java/de/arbeitsagentur/iab/emu/service/projekt/Projekt.java:55-56 | The table after an update is the new list exactly when the update drops no label |
| GruppenTabelle.BeispielGueltig | src/main/java/de/arbeitsagentur/iab/emu/service/projekt/Projekt.java:169-195 | Both lists of the example pass the group validation |
| GruppenTabelle.BeispielTabelle | src/main/java/de/arbeitsagentur/iab/emu/service/projekt/Projekt.java:55-56 | After the example update, the table holds the new list plus the dropped group B |
| GruppenTabelle.BeispielAuswahl | src/main/java/de/arbeitsagentur/iab/emu/service/projekt/gruppe/GruppeRepository.java:29-30 | In that table the value 15 selects both C and B |
| GruppenTabelle.WaisenMehrdeutig | src/main/java/de/arbeitsagentur/iab/emu/service/projekt/Projekt.java:55-56 | Two valid lists, the second replacing the first: the project's list places 15 in C alone, but the table as written makes the query for 15 find several groups |
| GruppenTabelle.ErsetzteGruppenEindeutig | src/main/java/de/arbeitsagentur/iab/emu/service/projekt/ProjektService.java:49-57 | With the intended table, after any update to a valid project, every value in range lies in exactly one of the project's groups and the query returns it |

## Left out

- Randomness: the drawn value is a parameter of the customer operations. Its precondition is the generator's contract (a value between min and max whenever the range can be drawn from).
- I/O, HTTP controllers, JSON binding and the tenant interceptor that sets the tenant id per request: the tenant is a parameter, and the tenant filter of every query is the map lookup.
- Concurrency: two requests at once, and constraint violations caused by interleaving.
- Change tracking of managed entities: only explicit repository saves change the store. A managed entity modified before an exception is therefore not flushed.
- Database ids and `@Version` of groups: groups are identified by label within a tenant.
- Dates, the creator, the active flag and the additional fields of projects and customers; the `TeilnahmeAbsagegrund` values other than `Teilnahme`, which are one value `Absage`.
- `getAll` of the users: a plain listing of the tenant's rows.
- Exception messages and the exception class hierarchy: each exception is a constructor of one datatype.
- Case folding and `\d` beyond ASCII.
- KundInRepository.FindBySuchbegriff: LIKE wildcards (`%`, `_`) inside the search term are treated as ordinary characters. Paging covers the first page only, and the ordering a page request may imply is not modelled.
- A null project or null user list inside an order, and null group labels.
- KundInVerwaltung.KundInService.Muenzwurf: when the range cannot be drawn from, the generator's `IllegalArgumentException` is the error `UngueltigerZufallsbereich`; the random draw inside the range is not modelled.
- The order's checked-exception commit rests on the assumption, stated above, that the service exceptions are checked.
- The identity values of all tables come from one counter; the model promises only that every new row gets a fresh value.
- Projekte.ValidiereGruppen: checks contact in exact arithmetic, so it rejects [A: 0..2147483647, B: -2147483648..5], which the code as written accepts (Findings, first row; the as-written check is `Projekte.GueltigeGruppen32`).
- Datenbank.GruppenVon: the group rows are the project's current list; after [A: 1..10, B: 11..20] is updated to [A: 1..5, C: 6..20] the code as written keeps B in the table and the model does not (Findings, second row; the as-written table is `GruppenTabelle.NachUpdateWieGeschrieben`).
- GruppenTabelle.Waisen: groups are matched by label, not by database id. A group renamed under the same id counts as dropped, although the database updates that row; a kept label sent without an id inserts a second row and meets the (tenant, label) unique constraint instead.
- UserInVerwaltung.UserInService.SaveAll: the merges are all checked at commit, on the final rows, and not one UPDATE after another; a batch that swaps the logins of two stored users is refused by the database statement by statement but succeeds in the model. Inserts are checked when they run.
- KundInRepository.GetAnzahlInGruppen: the query has `GROUP BY` without `ORDER BY`, so the order of its entries is not fixed; the model lists them in table order.

## Findings

| source | as written | input that shows it | evidently intended | confidence | as-written member | corrected member |
|---|---|---|---|---|---|---|
| src/main/java/de/arbeitsagentur/iab/emu/service/projekt/Projekt.java:187 | `g0.getObergrenze() + 1 != g1.getUntergrenze()` is evaluated in 32-bit `int`, so `Integer.MAX_VALUE + 1` wraps to `Integer.MIN_VALUE` | groups [A: 0..2147483647, B: -2147483648..5] pass validation although the values 0..5 lie in both; the largest upper bound is 2147483647, so `nextInt(min, max + 1)` refuses the range and every coin toss for that tenant fails | consecutive groups touch in exact arithmetic, so overlapping groups are refused and no value lies in two groups | high, not executed | Projekte.GueltigeGruppen32, GruppeRepository.UeberlaufMehrdeutig, KundInVerwaltung.UeberlaufUnziehbar | Projekte.ValidiereGruppen, GruppeRepository.ZufallswertEindeutig |
| src/main/java/de/arbeitsagentur/iab/emu/service/projekt/Projekt.java:55-56 | groups are owned with `cascade = ALL` and no `orphanRemoval`, so a project update leaves the groups it drops in the table, and the group queries read every group row of the tenant | project groups [A: 1..10, B: 11..20] updated to [A: 1..5, C: 6..20]; B stays, and the drawn value 15 lies in B and C | the group table is the project's current list, so every drawn value lies in exactly one group | medium, not executed | GruppenTabelle.NachUpdateWieGeschrieben, GruppenTabelle.WaisenMehrdeutig | Datenbank.GruppenVon, GruppenTabelle.ErsetzteGruppenEindeutig |
