/**
 * The file-name sanitiser `sanitize_filename`: every character outside the
 * allow-list (word characters, '-', '_', '.', and the space) becomes '_'.
 */
module Sanitizer {

  /** ASCII letters and decimal digits. */
  predicate IsAsciiAlnum(c: char) {
    ('a' <= c <= 'z') || ('A' <= c <= 'Z') || ('0' <= c <= '9')
  }

  /** The smallest word class: ASCII letters, digits and the underscore. */
  predicate AsciiWord(c: char) {
    IsAsciiAlnum(c) || c == '_'
  }

  /**
   * What the model assumes of the regular-expression class `\w`: the exact
   * Unicode table is not modelled, only that it contains the ASCII letters,
   * digits and '_', and that it does not contain the path separator '/'.
   */
  ghost predicate IsWordClass(word: char -> bool) {
    (forall c :: AsciiWord(c) ==> word(c)) && !word('/')
  }

  type WordClass = word: char -> bool | IsWordClass(word) witness AsciiWord

  /** The characters `sanitize_filename` keeps: `\w`, '-', '_', '.' and ' '. */
  predicate Allowed(word: WordClass, c: char) {
    word(c) || c == '-' || c == '_' || c == '.' || c == ' '
  }

  /** The substitution applied to one character. */
  function SanitizeChar(word: WordClass, c: char): (d: char)
    ensures Allowed(word, d)
    ensures d == c <==> Allowed(word, c)
  {
    if Allowed(word, c) then c else '_'
  }

  /** `sanitize_filename(name)`: a character-wise total map on strings. */
  function Sanitize(word: WordClass, name: string): (r: string)
    ensures |r| == |name|
    ensures forall i :: 0 <= i < |name| ==> r[i] == SanitizeChar(word, name[i])
  {
    if name == [] then [] else [SanitizeChar(word, name[0])] + Sanitize(word, name[1..])
  }

  /** Every character of a sanitised name is on the allow-list; in particular no '/'. */
  lemma {:induction false} SanitizedAllowed(word: WordClass, name: string)
    ensures forall i :: 0 <= i < |Sanitize(word, name)| ==> Allowed(word, Sanitize(word, name)[i])
    ensures '/' !in Sanitize(word, name)
  {
    var r := Sanitize(word, name);
    forall i | 0 <= i < |r| ensures Allowed(word, r[i]) && r[i] != '/' {
      assert r[i] == SanitizeChar(word, name[i]);
    }
  }

  /** A name is returned unchanged exactly when it is made only of allowed characters. */
  lemma {:induction false} SanitizeFixedPoint(word: WordClass, name: string)
    ensures Sanitize(word, name) == name <==> forall i :: 0 <= i < |name| ==> Allowed(word, name[i])
  {
    var r := Sanitize(word, name);
    if forall i :: 0 <= i < |name| ==> Allowed(word, name[i]) {
      forall i | 0 <= i < |name| ensures r[i] == name[i] {
        assert r[i] == SanitizeChar(word, name[i]);
      }
    } else {
      var i :| 0 <= i < |name| && !Allowed(word, name[i]);
      assert r[i] == SanitizeChar(word, name[i]) != name[i];
    }
  }

  /** Sanitising twice is sanitising once, since '_' is itself allowed. */
  lemma {:induction false} SanitizeIdempotent(word: WordClass, name: string)
    ensures Sanitize(word, Sanitize(word, name)) == Sanitize(word, name)
  {
    SanitizedAllowed(word, name);
    SanitizeFixedPoint(word, Sanitize(word, name));
  }

  /**
   * Position by position: an allowed character is kept, and every other
   * character becomes '_'.
   */
  lemma SanitizeReplaces(word: WordClass, name: string)
    ensures forall i :: 0 <= i < |name| && Allowed(word, name[i]) ==> Sanitize(word, name)[i] == name[i]
    ensures forall i :: 0 <= i < |name| && !Allowed(word, name[i]) ==> Sanitize(word, name)[i] == '_'
  {
  }

  /** ASCII letters, digits and '_' survive in place, whichever characters `\w` adds to them. */
  lemma AsciiWordKept(word: WordClass, name: string, i: int)
    requires 0 <= i < |name| && AsciiWord(name[i])
    ensures Sanitize(word, name)[i] == name[i]
  {
  }

  /**
   * The names "." and ".." are made only of allowed characters, so they come
   * out unchanged: a remote folder or module with such a name keeps it, and
   * on disk the joined path aliases or leaves its parent directory.
   */
  lemma DotNamesKept(word: WordClass)
    ensures Sanitize(word, ".") == "." && Sanitize(word, "..") == ".."
  {
    SanitizeFixedPoint(word, ".");
    SanitizeFixedPoint(word, "..");
  }
}
