/**
 * `KundInnennummerValidator.isValid`: a case-insensitive regular-expression
 * SEARCH for three digits, one letter and six digits. The search looks for
 * the pattern anywhere in the string; it does not require the whole string
 * to match.
 */
module KundInnennummer {
  import opened Common

  /** `\d` without UNICODE_CHARACTER_CLASS: the ASCII digits. */
  predicate IstZiffer(c: char) {
    '0' <= c <= '9'
  }

  /** `[a-z]` under CASE_INSENSITIVE (ASCII case folding only). */
  predicate IstBuchstabe(c: char) {
    'a' <= c <= 'z' || 'A' <= c <= 'Z'
  }

  /** The ten characters starting at `i` read `\d{3}[a-z]\d{6}`. */
  predicate PasstAn(s: string, i: int) {
    && 0 <= i && i + 10 <= |s|
    && IstZiffer(s[i]) && IstZiffer(s[i + 1]) && IstZiffer(s[i + 2])
    && IstBuchstabe(s[i + 3])
    && forall k :: i + 4 <= k < i + 10 ==> IstZiffer(s[k])
  }

  /** `Matcher.find` started at position `i`: some match begins at `i` or later. */
  function SucheAb(s: string, i: nat): (gefunden: bool)
    requires i <= |s|
    ensures gefunden <==> exists j :: i <= j && PasstAn(s, j)
    decreases |s| - i
  {
    if i + 10 > |s| then false
    else PasstAn(s, i) || SucheAb(s, i + 1)
  }

  /** `isValid`: null is invalid; otherwise the pattern occurs somewhere in the string. */
  function IsValid(nummer: Option<string>): (gueltig: bool)
    ensures gueltig <==> nummer.Some? && exists i :: PasstAn(nummer.value, i)
  {
    nummer.Some? && SucheAb(nummer.value, 0)
  }

  /** Lower-casing keeps digits digits and letters letters, so it keeps every match. */
  lemma PasstAnLower(s: string, i: int)
    ensures PasstAn(s, i) <==> PasstAn(Lower(s), i)
  {
  }

  /** Validity does not depend on case: `isValid(s) == isValid(s.toLowerCase())`. */
  lemma GrossKleinEgal(s: string)
    ensures IsValid(Some(s)) == IsValid(Some(Lower(s)))
  {
    if IsValid(Some(s)) {
      var i :| PasstAn(s, i);
      PasstAnLower(s, i);
    }
    if IsValid(Some(Lower(s))) {
      var i :| PasstAn(Lower(s), i);
      PasstAnLower(s, i);
    }
  }

  /** Fewer than ten characters can never hold a match. */
  lemma KurzUngueltig(s: string)
    requires |s| < 10
    ensures !IsValid(Some(s))
  {
  }

  /** Because the check is a search, surrounding text does not make a valid number invalid. */
  lemma EingebettetGueltig(vorher: string, nummer: string, nachher: string)
    requires IsValid(Some(nummer))
    ensures IsValid(Some(vorher + nummer + nachher))
  {
    var i :| PasstAn(nummer, i);
    var s := vorher + nummer + nachher;
    forall k | |vorher| + i <= k < |vorher| + i + 10 ensures s[k] == nummer[k - |vorher|] {
    }
    assert PasstAn(s, |vorher| + i);
  }

  /** The cases of the validator's unit test. */
  lemma Beispiele()
    ensures IsValid(Some("123A567890")) && IsValid(Some("123a567890"))
    ensures !IsValid(Some("123a56789")) && !IsValid(Some("123a5!7890"))
    ensures !IsValid(Some("1!3a56789")) && !IsValid(Some("13a56789"))
  {
    assert PasstAn("123A567890", 0);
    assert PasstAn("123a567890", 0);
    KurzUngueltig("123a56789");
    KurzUngueltig("1!3a56789");
    KurzUngueltig("13a56789");
    var s := "123a5!7890";
    assert !IstZiffer(s[5]);
    assert !PasstAn(s, 0);
  }
}
