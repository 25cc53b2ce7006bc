/**
 * `UserInService`: reading, creating (one user or a whole list), updating and
 * deleting the users of one tenant, with the validity and login checks the
 * service makes before the store's unique constraint on (tenant, login).
 */
module UserInVerwaltung {
  import opened Common
  import opened Ausnahmen
  import opened UserInnen
  import UR = UserInRepository
  import opened Datenbank

  // ---------------------------------------------------------------------
  // saveAll

  /**
   * Where a batch save stands: the tenant's user rows as the transaction will
   * commit them, the users saved so far, the next id, the logins the table
   * holds meanwhile, and whether a statement has already broken the unique
   * constraint. With IDENTITY ids an insert runs at once, while a merge is
   * written only at commit, so `belegt` has the inserts but not the merges.
   */
  datatype Stand = Stand(zeilen: seq<UserIn>, gespeichert: seq<UserIn>, naechsteId: nat,
                         belegt: seq<Option<string>>, verletzt: bool)

  /** The batch passes the unique constraint on (tenant, login): no insert collided, and the committed rows are unique. */
  predicate Eindeutig(e: Stand) {
    !e.verletzt && Distinct(UR.Logins(e.zeilen))
  }

  /** `save` merges a user whose id is stored into that row. */
  predicate Zusammenfuehren(zeilen: seq<UserIn>, u: UserIn) {
    u.id.Some? && UR.ExistsById(zeilen, u.id.value)
  }

  /**
   * `save` of one user inside `saveAll`: a user whose id is stored is merged
   * into that row; any other one is inserted with the next id, and that
   * insert breaks the constraint when the table already holds its login.
   */
  function Speichern(s: Stand, u: UserIn): Stand {
    if Zusammenfuehren(s.zeilen, u) then
      Stand(ErsetzeUserIn(s.zeilen, u), s.gespeichert + [u], s.naechsteId, s.belegt, s.verletzt)
    else
      var neu := u.(id := Some(s.naechsteId));
      Stand(s.zeilen + [neu], s.gespeichert + [neu], s.naechsteId + 1,
            s.belegt + [u.login], s.verletzt || u.login in s.belegt)
  }

  /**
   * `saveAll` of `us` on the rows `zeilen` with next id `n`: the users saved
   * one after the other, in list order; each saved user keeps its login and
   * role and has an id.
   */
  function AlleSpeichern(zeilen: seq<UserIn>, n: nat, us: seq<UserIn>): (r: Stand)
    ensures |r.gespeichert| == |us|
    ensures forall i :: 0 <= i < |us| ==>
              r.gespeichert[i].login == us[i].login && r.gespeichert[i].rolle == us[i].rolle && r.gespeichert[i].id.Some?
    ensures r.naechsteId >= n
    decreases |us|
  {
    if us == [] then Stand(zeilen, [], n, UR.Logins(zeilen), false)
    else
      var vorher := AlleSpeichern(zeilen, n, us[..|us| - 1]);
      SpeichernHaengtAn(vorher, us[|us| - 1]);
      Speichern(vorher, us[|us| - 1])
  }

  /** Saving one user appends it, with its login and role and an id, to the users saved so far. */
  lemma SpeichernHaengtAn(s: Stand, u: UserIn)
    ensures var r := Speichern(s, u);
            && |r.gespeichert| == |s.gespeichert| + 1 && r.gespeichert[..|s.gespeichert|] == s.gespeichert
            && r.gespeichert[|s.gespeichert|].login == u.login && r.gespeichert[|s.gespeichert|].rolle == u.rolle
            && r.gespeichert[|s.gespeichert|].id.Some?
            && r.naechsteId >= s.naechsteId
  {
  }

  /** One more user saved: the fold over a prefix one longer is one more `Speichern`. */
  lemma AlleSpeichernSchritt(zeilen: seq<UserIn>, n: nat, us: seq<UserIn>, i: int)
    requires 0 <= i < |us|
    ensures AlleSpeichern(zeilen, n, us[..i + 1]) == Speichern(AlleSpeichern(zeilen, n, us[..i]), us[i])
  {
    assert us[..i + 1][..i] == us[..i];
  }

  /**
   * The instance `save` hands back for the saved entry `u`: the persistence
   * context holds one managed instance per id, so it is the row with that id
   * as the transaction commits it (the first, should ids repeat).
   */
  function Verwaltet(zs: seq<UserIn>, u: UserIn): (r: UserIn)
    ensures r.id == u.id
    ensures u.id in UR.UserIds(zs) ==> r in zs
    decreases |zs|
  {
    if zs == [] then u
    else if zs[0].id == u.id then zs[0]
    else
      assert u.id in UR.UserIds(zs) ==> u.id in UR.UserIds(zs[1..]) by {
        if u.id in UR.UserIds(zs) {
          var k :| 0 <= k < |zs| && UR.UserIds(zs)[k] == u.id;
          assert UR.UserIds(zs[1..])[k - 1] == u.id;
        }
      }
      Verwaltet(zs[1..], u)
  }

  /**
   * The list `saveAll` returns: one entry per saved user, each the managed
   * instance for its id. A batch naming one stored id twice gets that
   * instance back twice, with the values merged last.
   */
  function Rueckgabe(e: Stand): (r: seq<UserIn>)
    ensures |r| == |e.gespeichert|
    ensures forall i :: 0 <= i < |r| ==> r[i].id == e.gespeichert[i].id
  {
    seq(|e.gespeichert|, i requires 0 <= i < |e.gespeichert| => Verwaltet(e.zeilen, e.gespeichert[i]))
  }

  /** Every row is a valid user with an id handed out, and no two rows share an id. */
  predicate IdsGueltig(zs: seq<UserIn>, n: nat) {
    (forall i :: 0 <= i < |zs| ==> UserInGueltig(zs[i], n)) && Distinct(UR.UserIds(zs))
  }

  /** Merging a valid user into the row with its id keeps every row valid and the ids unique. */
  lemma ZusammenfuehrenGueltig(zs: seq<UserIn>, n: nat, u: UserIn)
    requires IdsGueltig(zs, n) && IsValid(u) && Zusammenfuehren(zs, u)
    ensures IdsGueltig(ErsetzeUserIn(zs, u), n)
  {
    var k :| 0 <= k < |zs| && zs[k].id == u.id;
    assert UserInGueltig(zs[k], n);
    ErsetzenUserIds(zs, u);
  }

  /** Inserting a valid user with the next id keeps every row valid and the ids unique. */
  lemma EinfuegenGueltig(zs: seq<UserIn>, n: nat, u: UserIn)
    requires IdsGueltig(zs, n) && IsValid(u)
    ensures IdsGueltig(zs + [u.(id := Some(n))], n + 1)
  {
    var r := zs + [u.(id := Some(n))];
    forall i, j | 0 <= i < j < |r| ensures UR.UserIds(r)[i] != UR.UserIds(r)[j] {
      if j == |zs| {
        assert UserInGueltig(zs[i], n);
      } else {
        assert UR.UserIds(zs)[i] != UR.UserIds(zs)[j];
      }
    }
  }

  /** Saving a list of valid users keeps every row valid and the ids unique. */
  lemma {:induction false} AlleSpeichernGueltig(zeilen: seq<UserIn>, n: nat, us: seq<UserIn>)
    requires IdsGueltig(zeilen, n)
    requires forall i :: 0 <= i < |us| ==> IsValid(us[i])
    ensures IdsGueltig(AlleSpeichern(zeilen, n, us).zeilen, AlleSpeichern(zeilen, n, us).naechsteId)
    decreases |us|
  {
    if us != [] {
      var v := AlleSpeichern(zeilen, n, us[..|us| - 1]);
      AlleSpeichernGueltig(zeilen, n, us[..|us| - 1]);
      if Zusammenfuehren(v.zeilen, us[|us| - 1]) {
        ZusammenfuehrenGueltig(v.zeilen, v.naechsteId, us[|us| - 1]);
      } else {
        EinfuegenGueltig(v.zeilen, v.naechsteId, us[|us| - 1]);
      }
    }
  }

  /** Users without an id are all inserted: the rows grow by exactly the saved users, with consecutive new ids. */
  lemma {:induction false} NurNeue(zeilen: seq<UserIn>, n: nat, us: seq<UserIn>)
    requires forall i :: 0 <= i < |us| ==> us[i].id.None?
    ensures AlleSpeichern(zeilen, n, us).zeilen == zeilen + AlleSpeichern(zeilen, n, us).gespeichert
    ensures AlleSpeichern(zeilen, n, us).belegt == UR.Logins(AlleSpeichern(zeilen, n, us).zeilen)
    ensures AlleSpeichern(zeilen, n, us).naechsteId == n + |us|
    ensures forall i :: 0 <= i < |us| ==> AlleSpeichern(zeilen, n, us).gespeichert[i].id == Some(n + i)
    decreases |us|
  {
    if us != [] {
      var vorher := AlleSpeichern(zeilen, n, us[..|us| - 1]);
      NurNeue(zeilen, n, us[..|us| - 1]);
      assert AlleSpeichern(zeilen, n, us).gespeichert == vorher.gespeichert + [us[|us| - 1].(id := Some(n + |us| - 1))];
    }
  }

  /** Inserting new users whose logins are pairwise different and not in the table never collides with a row. */
  lemma {:induction false} NeueOhneKollision(zeilen: seq<UserIn>, n: nat, us: seq<UserIn>)
    requires Distinct(UR.Logins(us))
    requires forall i :: 0 <= i < |us| ==> us[i].id.None?
    requires forall i, j :: 0 <= i < |zeilen| && 0 <= j < |us| ==> zeilen[i].login != us[j].login
    ensures !AlleSpeichern(zeilen, n, us).verletzt
    decreases |us|
  {
    if us != [] {
      var k := |us| - 1;
      var p := us[..k];
      assert Distinct(UR.Logins(p)) by {
        forall i, j | 0 <= i < j < |p| ensures UR.Logins(p)[i] != UR.Logins(p)[j] {
          assert UR.Logins(us)[i] != UR.Logins(us)[j];
        }
      }
      NeueOhneKollision(zeilen, n, p);
      var v := AlleSpeichern(zeilen, n, p);
      NurNeue(zeilen, n, p);
      assert !Zusammenfuehren(v.zeilen, us[k]);
      forall i | 0 <= i < |v.belegt| ensures v.belegt[i] != us[k].login {
        if i >= |zeilen| {
          assert v.zeilen[i] == v.gespeichert[i - |zeilen|];
          assert UR.Logins(us)[i - |zeilen|] != UR.Logins(us)[k];
        }
      }
    }
  }

  /**
   * A list of new users whose logins are pairwise different and not yet
   * stored passes the unique constraint: the batch succeeds.
   */
  lemma NeueUserInnenEindeutig(zeilen: seq<UserIn>, n: nat, us: seq<UserIn>)
    requires Distinct(UR.Logins(zeilen)) && Distinct(UR.Logins(us))
    requires forall i :: 0 <= i < |us| ==> us[i].id.None?
    requires forall i, j :: 0 <= i < |zeilen| && 0 <= j < |us| ==> zeilen[i].login != us[j].login
    ensures Eindeutig(AlleSpeichern(zeilen, n, us))
  {
    var r := AlleSpeichern(zeilen, n, us);
    NeueOhneKollision(zeilen, n, us);
    NurNeue(zeilen, n, us);
    var z := r.zeilen;
    forall i, j | 0 <= i < j < |z| ensures UR.Logins(z)[i] != UR.Logins(z)[j] {
      if j < |zeilen| {
        assert UR.Logins(zeilen)[i] != UR.Logins(zeilen)[j];
      } else if i < |zeilen| {
        assert z[j] == r.gespeichert[j - |zeilen|];
      } else {
        assert z[i] == r.gespeichert[i - |zeilen|] && z[j] == r.gespeichert[j - |zeilen|];
        assert UR.Logins(us)[i - |zeilen|] != UR.Logins(us)[j - |zeilen|];
      }
    }
  }

  /**
   * Renaming a stored user and reusing its old login in the same batch: the
   * committed logins are unique, yet the insert meets the old login, which
   * the table still holds, so the batch fails.
   */
  lemma LoginWiederverwendet()
    ensures var e := AlleSpeichern([UserIn(Some(1), Some("a"), Some("R"))], 2,
                                   [UserIn(Some(1), Some("c"), Some("R")), UserIn(None, Some("a"), Some("R"))]);
            && Distinct(UR.Logins(e.zeilen)) && e.verletzt && !Eindeutig(e)
  {
    var zeilen := [UserIn(Some(1), Some("a"), Some("R"))];
    var us := [UserIn(Some(1), Some("c"), Some("R")), UserIn(None, Some("a"), Some("R"))];
    assert us[..1] == [us[0]] && us[..1][..0] == [];
    var s1 := Speichern(Stand(zeilen, [], 2, UR.Logins(zeilen), false), us[0]);
    assert UR.ExistsById(zeilen, 1) by { assert zeilen[0].id == Some(1); }
    assert s1.zeilen == [us[0]] && s1.belegt == [Some("a")];
  }

  /** With unique ids, the managed instance for a row's id is that row. */
  lemma {:induction false} VerwaltetEindeutig(zs: seq<UserIn>, k: int)
    requires 0 <= k < |zs| && Distinct(UR.UserIds(zs))
    ensures Verwaltet(zs, zs[k]) == zs[k]
    decreases |zs|
  {
    if k > 0 {
      assert UR.UserIds(zs)[0] != UR.UserIds(zs)[k];
      var rest := zs[1..];
      forall i, j | 0 <= i < j < |rest| ensures UR.UserIds(rest)[i] != UR.UserIds(rest)[j] {
        assert UR.UserIds(zs)[i + 1] != UR.UserIds(zs)[j + 1];
      }
      VerwaltetEindeutig(rest, k - 1);
    }
  }

  /** Every saved user's id is the id of a row of `e.zeilen`. */
  predicate Gebunden(e: Stand) {
    forall i :: 0 <= i < |e.gespeichert| ==> e.gespeichert[i].id in UR.UserIds(e.zeilen)
  }

  /** One more save keeps every saved user's id among the rows' ids. */
  lemma SpeichernGebunden(s: Stand, u: UserIn)
    requires Gebunden(s)
    ensures Gebunden(Speichern(s, u))
  {
    var r := Speichern(s, u);
    if Zusammenfuehren(s.zeilen, u) {
      assert r.zeilen == ErsetzeUserIn(s.zeilen, u) && r.gespeichert == s.gespeichert + [u];
      ErsetzenUserIds(s.zeilen, u);
      var k :| 0 <= k < |s.zeilen| && s.zeilen[k].id == u.id;
      assert UR.UserIds(s.zeilen)[k] == u.id;
    } else {
      var neu := u.(id := Some(s.naechsteId));
      assert r.zeilen == s.zeilen + [neu] && r.gespeichert == s.gespeichert + [neu];
      assert UR.UserIds(r.zeilen) == UR.UserIds(s.zeilen) + [neu.id];
    }
  }

  /** Every saved user's id is the id of a committed row. */
  lemma {:induction false} GespeichertGebunden(zeilen: seq<UserIn>, n: nat, us: seq<UserIn>)
    ensures Gebunden(AlleSpeichern(zeilen, n, us))
    decreases |us|
  {
    if us != [] {
      GespeichertGebunden(zeilen, n, us[..|us| - 1]);
      SpeichernGebunden(AlleSpeichern(zeilen, n, us[..|us| - 1]), us[|us| - 1]);
    }
  }

  /** Every entry `saveAll` returns is a committed row, with the id of the user saved at that position. */
  lemma RueckgabeAusZeilen(zeilen: seq<UserIn>, n: nat, us: seq<UserIn>)
    ensures var e := AlleSpeichern(zeilen, n, us);
            && |Rueckgabe(e)| == |us|
            && forall i :: 0 <= i < |us| ==> Rueckgabe(e)[i] in e.zeilen && Rueckgabe(e)[i].id == e.gespeichert[i].id
  {
    GespeichertGebunden(zeilen, n, us);
  }

  /**
   * New valid users saved into a valid tenant come back as they were saved:
   * each with its login and role and its new id.
   */
  lemma NeueZurueck(zeilen: seq<UserIn>, n: nat, us: seq<UserIn>)
    requires IdsGueltig(zeilen, n)
    requires forall i :: 0 <= i < |us| ==> IsValid(us[i]) && us[i].id.None?
    ensures Rueckgabe(AlleSpeichern(zeilen, n, us)) == AlleSpeichern(zeilen, n, us).gespeichert
  {
    var e := AlleSpeichern(zeilen, n, us);
    NurNeue(zeilen, n, us);
    AlleSpeichernGueltig(zeilen, n, us);
    forall i | 0 <= i < |us| ensures Rueckgabe(e)[i] == e.gespeichert[i] {
      assert e.zeilen[|zeilen| + i] == e.gespeichert[i];
      VerwaltetEindeutig(e.zeilen, |zeilen| + i);
    }
  }

  /**
   * The stored user `z` saved twice in one batch, as `a` and then `b`: both
   * saves merge into its one row, which ends with `b`'s values, and nothing
   * is inserted.
   */
  lemma DoppeltGespeichert(z: UserIn, n: nat, a: UserIn, b: UserIn)
    requires z.id.Some? && a.id == z.id && b.id == z.id
    ensures AlleSpeichern([z], n, [a, b]) == Stand([b], [a, b], n, [z.login], false)
  {
    var us := [a, b];
    assert us[..0] == [] && us[..2] == us;
    AlleSpeichernSchritt([z], n, us, 0);
    AlleSpeichernSchritt([z], n, us, 1);
    assert UR.Logins([z]) == [z.login];
    assert UR.ExistsById([z], z.id.value) by { assert [z][0].id == z.id; }
    assert ErsetzeUserIn([z], a) == [a];
    assert UR.ExistsById([a], z.id.value) by { assert [a][0].id == z.id; }
    assert ErsetzeUserIn([a], b) == [b];
  }

  /**
   * A batch naming a stored user twice passes the unique constraint, and
   * `saveAll` returns the one managed instance twice, with the values merged
   * last, not each entry as it was given.
   */
  lemma DoppelteId(z: UserIn, n: nat, a: UserIn, b: UserIn)
    requires z.id.Some? && a.id == z.id && b.id == z.id
    ensures var e := AlleSpeichern([z], n, [a, b]);
            && Eindeutig(e) && e.zeilen == [b] && e.gespeichert == [a, b]
            && Rueckgabe(e) == [b, b]
  {
    DoppeltGespeichert(z, n, a, b);
    var e := Stand([b], [a, b], n, [z.login], false);
    var r := Rueckgabe(e);
    assert r[0] == Verwaltet([b], a) == b;
    assert r[1] == Verwaltet([b], b) == b;
    assert r == [b, b];
    assert UR.Logins([b]) == [b.login];
  }

  class UserInService {
    const db: Datenbank

    constructor (db: Datenbank)
      ensures this.db == db
    {
      this.db := db;
    }

    /** `get`: the tenant's user with this id. */
    method Get(t: Tenant, id: int) returns (r: Result<UserIn, Ausnahme>)
      ensures r == Err(UserInNichtGefunden) <==> !UR.ExistsById(db.Bestand(t).userInnen, id)
      ensures r.Ok? ==> r.value in db.Bestand(t).userInnen && r.value.id == Some(id)
      ensures db.Valid() ==> r != Err(MehrdeutigesErgebnis)
    {
      var treffer := UR.FindById(db.Bestand(t).userInnen, id);
      if db.Valid() && treffer != KeinErgebnis {
        db.BestandGueltig(t);
        var i :| 0 <= i < |db.Bestand(t).userInnen| && db.Bestand(t).userInnen[i].id == Some(id);
        UR.FindByIdTrifft(db.Bestand(t).userInnen, i);
      }
      match treffer {
        case KeinErgebnis => return Err(UserInNichtGefunden);
        case MehrereErgebnisse => return Err(MehrdeutigesErgebnis);
        case Ergebnis(u) => return Ok(u);
      }
    }

    /**
     * `saveAll` in one transaction: the users are saved in order; if an
     * insert meets a login the table holds, or the committed logins are not
     * unique, the unique constraint rolls back every row (ids drawn stay drawn);
     * otherwise it returns the managed instance of each entry.
     */
    method SaveAll(t: Tenant, userInnen: seq<UserIn>) returns (r: Result<seq<UserIn>, Ausnahme>)
      modifies db
      ensures var e := AlleSpeichern(old(db.Bestand(t)).userInnen, old(db.naechsteId), userInnen);
              && (!Eindeutig(e) ==> r == Err(EindeutigkeitVerletzt) && db.mandanten == old(db.mandanten))
              && (Eindeutig(e) ==>
                    && r == Ok(Rueckgabe(e)) && db.naechsteId == e.naechsteId
                    && db.mandanten == old(db.mandanten)[t := old(db.Bestand(t)).(userInnen := e.zeilen)])
      ensures db.naechsteId >= old(db.naechsteId)
      ensures old(db.Valid()) && (forall i :: 0 <= i < |userInnen| ==> IsValid(userInnen[i])) ==> db.Valid()
    {
      var m := db.Bestand(t);
      ghost var gueltig := db.Valid() && (forall i :: 0 <= i < |userInnen| ==> IsValid(userInnen[i]));
      if gueltig {
        db.BestandGueltig(t);
      }
      ghost var n0 := db.naechsteId;
      var e := SpeichernNacheinander(m.userInnen, userInnen);
      if e.verletzt || !Distinct(UR.Logins(e.zeilen)) {
        return Err(EindeutigkeitVerletzt);
      }
      if gueltig {
        AlleSpeichernGueltig(m.userInnen, n0, userInnen);
        MandantMonoton(m, n0, db.naechsteId);
        UserInnenGetauscht(m, db.naechsteId, e.zeilen);
      }
      db.Schreibe(t, m.(userInnen := e.zeilen));
      return Ok(Rueckgabe(e));
    }

    /**
     * The loop of `saveAll`: each user saved in turn on the rows `zeilen0`,
     * a user without a stored id taking the next id from the store.
     */
    method SpeichernNacheinander(zeilen0: seq<UserIn>, userInnen: seq<UserIn>) returns (e: Stand)
      modifies db
      ensures e == AlleSpeichern(zeilen0, old(db.naechsteId), userInnen)
      ensures e.naechsteId == db.naechsteId
      ensures db.mandanten == old(db.mandanten)
      ensures old(db.Valid()) ==> db.Valid()
    {
      ghost var n0 := db.naechsteId;
      e := Stand(zeilen0, [], db.naechsteId, UR.Logins(zeilen0), false);
      var i := 0;
      while i < |userInnen|
        invariant 0 <= i <= |userInnen|
        invariant e == AlleSpeichern(zeilen0, n0, userInnen[..i])
        invariant e.naechsteId == db.naechsteId
        invariant db.mandanten == old(db.mandanten)
        invariant old(db.Valid()) ==> db.Valid()
      {
        var u := userInnen[i];
        AlleSpeichernSchritt(zeilen0, n0, userInnen, i);
        if !(u.id.Some? && UR.ExistsById(e.zeilen, u.id.value)) {
          // the insert draws the identity value that `Speichern` gives the row
          var id := db.NeueId();
          assert id == e.naechsteId;
        }
        e := Speichern(e, u);
        i := i + 1;
      }
      assert userInnen[..i] == userInnen;
    }

    /**
     * `create` of a list: every user must be valid and no login may occur
     * twice in the list; then `SaveAll`.
     */
    method CreateAll(t: Tenant, userInnen: seq<UserIn>) returns (r: Result<seq<UserIn>, Ausnahme>)
      modifies db
      ensures (exists i :: 0 <= i < |userInnen| && !IsValid(userInnen[i])) ==> r == Err(UngueltigeUserInnendaten)
      ensures (forall i :: 0 <= i < |userInnen| ==> IsValid(userInnen[i])) && !Distinct(UR.Logins(userInnen)) ==>
                r == Err(LoginMehrfachVergeben)
      ensures (forall i :: 0 <= i < |userInnen| ==> IsValid(userInnen[i])) && Distinct(UR.Logins(userInnen)) ==>
                var e := AlleSpeichern(old(db.Bestand(t)).userInnen, old(db.naechsteId), userInnen);
                && (!Eindeutig(e) ==> r == Err(EindeutigkeitVerletzt))
                && (Eindeutig(e) ==>
                      && r == Ok(Rueckgabe(e)) && db.naechsteId == e.naechsteId
                      && db.mandanten == old(db.mandanten)[t := old(db.Bestand(t)).(userInnen := e.zeilen)])
      ensures r.Err? ==> db.mandanten == old(db.mandanten)
      ensures db.naechsteId >= old(db.naechsteId)
      ensures old(db.Valid()) ==> db.Valid()
    {
      var i := 0;
      while i < |userInnen|
        invariant 0 <= i <= |userInnen|
        invariant forall j :: 0 <= j < i ==> IsValid(userInnen[j])
      {
        if !IsValid(userInnen[i]) {
          return Err(UngueltigeUserInnendaten);
        }
        i := i + 1;
      }
      var logins := Elements(UR.Logins(userInnen));
      DistinctCount(UR.Logins(userInnen));
      if |logins| < |userInnen| {
        return Err(LoginMehrfachVergeben);
      }
      r := SaveAll(t, userInnen);
    }

    /**
     * `create` of one user: validity first, then a stored user with the same
     * login refuses it; the id the client sent is dropped and the next one
     * assigned.
     */
    method Create(t: Tenant, u: UserIn) returns (r: Result<UserIn, Ausnahme>)
      modifies db
      ensures !IsValid(u) ==> r == Err(UngueltigeUserInnendaten)
      ensures IsValid(u) && UR.FindByLogin(old(db.Bestand(t)).userInnen, u.login.value).Ergebnis? ==>
                r == Err(LoginMehrfachVergeben)
      ensures r.Ok? <==> IsValid(u) && UR.FindByLogin(old(db.Bestand(t)).userInnen, u.login.value) == KeinErgebnis
      ensures r.Err? ==> db.mandanten == old(db.mandanten) && db.naechsteId == old(db.naechsteId)
      ensures r.Ok? ==>
                && r.value == u.(id := Some(old(db.naechsteId))) && db.naechsteId == old(db.naechsteId) + 1
                && db.mandanten == old(db.mandanten)[t := old(db.Bestand(t)).(userInnen := old(db.Bestand(t)).userInnen + [r.value])]
      ensures old(db.Valid()) ==> db.Valid()
      ensures old(db.Valid()) && IsValid(u) ==> r.Ok? || r == Err(LoginMehrfachVergeben)
    {
      if !IsValid(u) {
        return Err(UngueltigeUserInnendaten);
      }
      var m := db.Bestand(t);
      if old(db.Valid()) {
        db.BestandGueltig(t);
        UR.FindByLoginEindeutig(m.userInnen, u.login.value);
      }
      var vorhanden := UR.FindByLogin(m.userInnen, u.login.value);
      if vorhanden.Ergebnis? {
        return Err(LoginMehrfachVergeben);
      } else if vorhanden.MehrereErgebnisse? {
        return Err(MehrdeutigesErgebnis);
      }
      var id := db.NeueId();
      var neu := u.(id := Some(id));
      if old(db.Valid()) {
        UserInAnhaengen(m.userInnen, id, neu);
        MandantMonoton(m, id, id + 1);
        UserInnenGetauscht(m, id + 1, m.userInnen + [neu]);
      }
      db.Schreibe(t, m.(userInnen := m.userInnen + [neu]));
      return Ok(neu);
    }

    /**
     * `update`: the user must exist (its id is checked first), be valid, and
     * keep a login no other user holds; its row is then replaced.
     */
    method Update(t: Tenant, u: UserIn) returns (r: Result<UserIn, Ausnahme>)
      modifies db
      ensures u.id.None? || !UR.ExistsById(old(db.Bestand(t)).userInnen, u.id.value) ==> r == Err(UserInNichtGefunden)
      ensures u.id.Some? && UR.ExistsById(old(db.Bestand(t)).userInnen, u.id.value) && !IsValid(u) ==>
                r == Err(UngueltigeUserInnendaten)
      ensures r.Ok? <==>
                && u.id.Some? && UR.ExistsById(old(db.Bestand(t)).userInnen, u.id.value) && IsValid(u)
                && var vorhanden := UR.FindByLogin(old(db.Bestand(t)).userInnen, u.login.value);
                   vorhanden == KeinErgebnis || (vorhanden.Ergebnis? && vorhanden.wert.id == u.id)
      ensures r.Err? ==> db.mandanten == old(db.mandanten)
      ensures db.naechsteId == old(db.naechsteId)
      ensures r.Ok? ==>
                r == Ok(u) && db.mandanten == old(db.mandanten)[t := old(db.Bestand(t)).(userInnen := ErsetzeUserIn(old(db.Bestand(t)).userInnen, u))]
      ensures old(db.Valid()) ==> db.Valid()
    {
      var m := db.Bestand(t);
      if u.id.None? || !UR.ExistsById(m.userInnen, u.id.value) {
        return Err(UserInNichtGefunden);
      }
      if !IsValid(u) {
        return Err(UngueltigeUserInnendaten);
      }
      var vorhanden := UR.FindByLogin(m.userInnen, u.login.value);
      if vorhanden.MehrereErgebnisse? {
        return Err(MehrdeutigesErgebnis);
      } else if vorhanden.Ergebnis? && vorhanden.wert.id != u.id {
        return Err(LoginMehrfachVergeben);
      }
      if old(db.Valid()) {
        db.BestandGueltig(t);
        UpdateGueltig(m, db.naechsteId, u);
      }
      db.Schreibe(t, m.(userInnen := ErsetzeUserIn(m.userInnen, u)));
      return Ok(u);
    }

    /** `delete`: removes the tenant's user with this id; an unknown id changes nothing. */
    method Delete(t: Tenant, id: int)
      modifies db
      ensures db.naechsteId == old(db.naechsteId)
      ensures db.mandanten == old(db.mandanten)[t := old(db.Bestand(t)).(userInnen := UR.DeleteById(old(db.Bestand(t)).userInnen, id))]
      ensures !UR.ExistsById(db.Bestand(t).userInnen, id)
      ensures old(db.Valid()) ==> db.Valid()
    {
      var m := db.Bestand(t);
      var rest := UR.DeleteById(m.userInnen, id);
      if old(db.Valid()) {
        db.BestandGueltig(t);
        UserInEntfernen(m.userInnen, db.naechsteId, id);
        UserInnenGetauscht(m, db.naechsteId, rest);
      }
      db.Schreibe(t, m.(userInnen := rest));
    }
  }

  /** Replacing a stored user with a valid one whose login nobody else holds keeps the tenant valid. */
  lemma UpdateGueltig(m: Mandant, n: nat, u: UserIn)
    requires MandantGueltig(m, n)
    requires u.id.Some? && UR.ExistsById(m.userInnen, u.id.value) && IsValid(u)
    requires var vorhanden := UR.FindByLogin(m.userInnen, u.login.value);
             vorhanden == KeinErgebnis || (vorhanden.Ergebnis? && vorhanden.wert.id == u.id)
    ensures MandantGueltig(m.(userInnen := ErsetzeUserIn(m.userInnen, u)), n)
  {
    var us := m.userInnen;
    var k :| 0 <= k < |us| && us[k].id == u.id;
    assert UserInGueltig(us[k], n);
    forall i | 0 <= i < |us| && us[i].id != u.id ensures us[i].login != u.login {
      if us[i].login == u.login {
        UR.FindByLoginTrifft(us, i);
      }
    }
    UserInErsetzen(us, n, u);
    UserInnenGetauscht(m, n, ErsetzeUserIn(us, u));
  }
}
