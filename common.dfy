/**
 * Building blocks shared by the whole model: optional values and error
 * results (Java's null and exceptions), Java's 32-bit `int`, the
 * `distinct().count()` idiom, ASCII case folding and Java's notion of a
 * blank string.
 */
module Common {

  /** Java's nullable reference or `Optional<T>`. */
  datatype Option<+T> = None | Some(value: T)

  /** The value of a service call, or the exception it throws. */
  datatype Result<+T, +E> = Ok(value: T) | Err(error: E)

  /** A call that returns nothing (`void`), or the exception it throws. */
  datatype Outcome<+E> = Pass | Fail(error: E)

  /**
   * The result of a single-result repository query (`Optional<T>`): no row,
   * exactly one row, or several rows, for which the persistence layer throws
   * `IncorrectResultSizeDataAccessException`.
   */
  datatype Einzelergebnis<+T> = KeinErgebnis | Ergebnis(wert: T) | MehrereErgebnisse

  /** The single-result projection of the list of rows a query selects. */
  function Einzeln<T>(zeilen: seq<T>): (r: Einzelergebnis<T>)
    ensures r == KeinErgebnis <==> |zeilen| == 0
    ensures r.Ergebnis? <==> |zeilen| == 1
    ensures r.Ergebnis? ==> r.wert == zeilen[0]
  {
    if |zeilen| == 0 then KeinErgebnis
    else if |zeilen| == 1 then Ergebnis(zeilen[0])
    else MehrereErgebnisse
  }

  // ---------------------------------------------------------------------
  // Java int

  const IntMin: int := -0x8000_0000
  const IntMax: int := 0x7fff_ffff

  /** Java's 32-bit `int`. */
  type Int32 = x: int | -0x8000_0000 <= x <= 0x7fff_ffff

  /** The two's-complement wrap-around Java applies to an `int` result. */
  function Wrap32(x: int): (r: Int32)
    ensures IntMin <= x <= IntMax ==> r == x
    ensures (r - x) % 0x1_0000_0000 == 0
  {
    var m := (x + 0x8000_0000) % 0x1_0000_0000;
    m - 0x8000_0000
  }

  /** `a + 1` on Java `int`s wraps only at the largest value. */
  lemma PlusEinsWrap(a: Int32)
    ensures a < IntMax ==> Wrap32(a + 1) == a + 1
    ensures a == IntMax ==> Wrap32(a + 1) == IntMin
  {
  }

  /** The rows a `WHERE` clause selects, in table order. */
  function Auswahl<T>(zeilen: seq<T>, p: T -> bool): (r: seq<T>)
    ensures |r| <= |zeilen|
    ensures forall i :: 0 <= i < |r| ==> r[i] in zeilen && p(r[i])
    ensures forall i :: 0 <= i < |zeilen| && p(zeilen[i]) ==> zeilen[i] in r
    ensures r == [] <==> forall i :: 0 <= i < |zeilen| ==> !p(zeilen[i])
  {
    if |zeilen| == 0 then []
    else (if p(zeilen[0]) then [zeilen[0]] else []) + Auswahl(zeilen[1..], p)
  }

  /** When the clause holds for one row alone, exactly that row is selected. */
  lemma {:induction false} AuswahlEinzeln<T>(zeilen: seq<T>, p: T -> bool, i: int)
    requires 0 <= i < |zeilen| && p(zeilen[i])
    requires forall j :: 0 <= j < |zeilen| && j != i ==> !p(zeilen[j])
    ensures Auswahl(zeilen, p) == [zeilen[i]]
  {
    var rest := zeilen[1..];
    if i == 0 {
      forall j | 0 <= j < |rest| ensures !p(rest[j]) {
        assert rest[j] == zeilen[j + 1];
      }
    } else {
      forall j | 0 <= j < |rest| && j != i - 1 ensures !p(rest[j]) {
        assert rest[j] == zeilen[j + 1];
      }
      AuswahlEinzeln(rest, p, i - 1);
    }
  }

  /** A clause every row satisfies selects the whole table. */
  lemma {:induction false} AuswahlAlle<T>(zeilen: seq<T>, p: T -> bool)
    requires forall i :: 0 <= i < |zeilen| ==> p(zeilen[i])
    ensures Auswahl(zeilen, p) == zeilen
  {
    if |zeilen| > 0 {
      assert forall i :: 0 <= i < |zeilen[1..]| ==> p(zeilen[1..][i]) by {
        forall i | 0 <= i < |zeilen[1..]| ensures p(zeilen[1..][i]) {
          assert zeilen[1..][i] == zeilen[i + 1];
        }
      }
      AuswahlAlle(zeilen[1..], p);
      assert [zeilen[0]] + zeilen[1..] == zeilen;
    }
  }

  /** Every earlier element of `s` stands in the relation to every later one. */
  predicate Paarweise<T>(s: seq<T>, getrennt: (T, T) -> bool) {
    forall i, j :: 0 <= i < j < |s| ==> getrennt(s[i], s[j])
  }

  /** Selecting rows keeps any relation that held between every earlier and later row. */
  lemma {:induction false} AuswahlPaarweise<T>(zeilen: seq<T>, p: T -> bool, getrennt: (T, T) -> bool)
    requires Paarweise(zeilen, getrennt)
    ensures Paarweise(Auswahl(zeilen, p), getrennt)
  {
    if |zeilen| > 0 {
      var rest := zeilen[1..];
      forall i, j | 0 <= i < j < |rest| ensures getrennt(rest[i], rest[j]) {
        assert getrennt(zeilen[i + 1], zeilen[j + 1]);
      }
      AuswahlPaarweise(rest, p, getrennt);
      if p(zeilen[0]) {
        KopfGetrennt(zeilen, p, getrennt);
        VorneGetrennt(zeilen[0], Auswahl(rest, p), getrennt);
      }
    }
  }

  lemma VorneGetrennt<T>(h: T, r1: seq<T>, getrennt: (T, T) -> bool)
    requires Paarweise(r1, getrennt)
    requires forall j :: 0 <= j < |r1| ==> getrennt(h, r1[j])
    ensures Paarweise([h] + r1, getrennt)
  {
    var r := [h] + r1;
    forall i, j | 0 <= i < j < |r| ensures getrennt(r[i], r[j]) {
      if i == 0 {
        assert r[j] == r1[j - 1];
      } else {
        assert r[i] == r1[i - 1] && r[j] == r1[j - 1];
      }
    }
  }

  /** The first row, when selected, stands in the relation to every later selected row. */
  lemma KopfGetrennt<T>(zeilen: seq<T>, p: T -> bool, getrennt: (T, T) -> bool)
    requires |zeilen| > 0 && Paarweise(zeilen, getrennt)
    ensures forall j :: 0 <= j < |Auswahl(zeilen[1..], p)| ==> getrennt(zeilen[0], Auswahl(zeilen[1..], p)[j])
  {
    var rest := zeilen[1..];
    var r1 := Auswahl(rest, p);
    forall j | 0 <= j < |r1| ensures getrennt(zeilen[0], r1[j]) {
      assert r1[j] in rest;
      var k :| 0 <= k < |rest| && rest[k] == r1[j];
      assert rest[k] == zeilen[k + 1];
    }
  }

  /** When the clause holds for at most one row, the single-result query never sees several. */
  lemma AuswahlHoechstensEine<T>(zeilen: seq<T>, p: T -> bool)
    requires forall i, j :: 0 <= i < j < |zeilen| && p(zeilen[i]) ==> !p(zeilen[j])
    ensures Einzeln(Auswahl(zeilen, p)) != MehrereErgebnisse
  {
    if Auswahl(zeilen, p) != [] {
      var i :| 0 <= i < |zeilen| && p(zeilen[i]);
      forall j | 0 <= j < |zeilen| && j != i ensures !p(zeilen[j]) {
      }
      AuswahlEinzeln(zeilen, p, i);
    }
  }

  // ---------------------------------------------------------------------
  // distinct().count()

  /** No two positions of `s` hold equal values. */
  predicate Distinct<T(==)>(s: seq<T>) {
    forall i, j :: 0 <= i < j < |s| ==> s[i] != s[j]
  }

  /** The values occurring in `s`: what `stream().distinct()` keeps. */
  function Elements<T>(s: seq<T>): set<T> {
    set x | x in s
  }

  /**
   * `s.size() == s.stream().distinct().count()` holds exactly when no value
   * occurs twice; otherwise there are strictly fewer distinct values.
   */
  lemma {:induction false} DistinctCount<T>(s: seq<T>)
    ensures |Elements(s)| <= |s|
    ensures |Elements(s)| == |s| <==> Distinct(s)
  {
    if |s| == 0 {
      assert Elements(s) == {};
    } else {
      var rest := s[1..];
      DistinctCount(rest);
      assert Elements(s) == {s[0]} + Elements(rest) by {
        forall x ensures x in Elements(s) <==> x == s[0] || x in Elements(rest) {
          if x in s && x != s[0] {
            var k :| 0 <= k < |s| && s[k] == x;
            assert rest[k - 1] == x;
          }
        }
      }
      if s[0] in rest {
        assert Elements(s) == Elements(rest);
        var k :| 0 <= k < |rest| && rest[k] == s[0];
        assert s[0] == s[k + 1];
      } else {
        assert s[0] !in Elements(rest);
        assert |Elements(s)| == 1 + |Elements(rest)|;
        if Distinct(rest) {
          forall i, j | 0 <= i < j < |s| ensures s[i] != s[j] {
            if i == 0 {
              assert s[j] == rest[j - 1];
            } else {
              assert s[i] == rest[i - 1] && s[j] == rest[j - 1];
            }
          }
        } else {
          var i, j :| 0 <= i < j < |rest| && rest[i] == rest[j];
          assert s[i + 1] == s[j + 1];
        }
      }
    }
  }

  /** A distinct sequence holds each of its values at exactly one position. */
  lemma DistinctIndex<T>(s: seq<T>, i: int, j: int)
    requires Distinct(s)
    requires 0 <= i < |s| && 0 <= j < |s| && s[i] == s[j]
    ensures i == j
  {
  }

  // ---------------------------------------------------------------------
  // Strings

  /** `Character.toLowerCase` restricted to the ASCII letters. */
  function LowerChar(c: char): (r: char)
    ensures 'A' <= c <= 'Z' ==> r as int == c as int + 32
    ensures !('A' <= c <= 'Z') ==> r == c
  {
    if 'A' <= c <= 'Z' then (c as int + 32) as char else c
  }

  /** `String.toLowerCase` on ASCII text: every upper-case letter folded. */
  function Lower(s: string): (r: string)
    ensures |r| == |s|
    ensures forall i :: 0 <= i < |s| ==> r[i] == LowerChar(s[i])
  {
    seq(|s|, i requires 0 <= i < |s| => LowerChar(s[i]))
  }

  /** Lower-casing is idempotent, which makes the getter's write-back harmless. */
  lemma LowerIdempotent(s: string)
    ensures Lower(Lower(s)) == Lower(s)
  {
  }

  /** A string that `Lower` leaves as it is. */
  predicate IsLower(s: string) {
    Lower(s) == s
  }

  /** `Character.isWhitespace`: ASCII controls and Unicode separators, but not the no-break spaces. */
  predicate IsWhitespace(c: char) {
    || c == ' ' || c == '\t' || c == '\n' || c == '\r'
    || c == '\U{000B}' || c == '\U{000C}'
    || ('\U{001C}' <= c <= '\U{001F}')
    || c == '\U{1680}'
    || ('\U{2000}' <= c <= '\U{2006}') || ('\U{2008}' <= c <= '\U{200A}')
    || c == '\U{2028}' || c == '\U{2029}' || c == '\U{205F}' || c == '\U{3000}'
  }

  /** `StringUtils.isNotBlank`: not null, and some character is not whitespace. */
  predicate IsNotBlank(s: Option<string>) {
    s.Some? && exists i :: 0 <= i < |s.value| && !IsWhitespace(s.value[i])
  }

  /** `needle` occurs in `haystack` starting at position `i`. */
  predicate OccursAt(haystack: string, needle: string, i: int) {
    0 <= i <= |haystack| - |needle| && haystack[i..i + |needle|] == needle
  }

  /** `haystack` contains `needle` as a contiguous piece. */
  predicate Contains(haystack: string, needle: string) {
    exists i | 0 <= i <= |haystack| - |needle| :: OccursAt(haystack, needle, i)
  }

  /** The first `n` elements, or all of them when there are fewer. */
  function Take<T>(s: seq<T>, n: nat): (r: seq<T>)
    ensures |r| <= n && r <= s
    ensures |r| == if |s| < n then |s| else n
  {
    if |s| <= n then s else s[..n]
  }
}
