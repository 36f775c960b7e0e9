/**
 * A concrete instance of the Unicode tables, restricted to Basic Latin and Latin-1: the
 * letters Portuguese names are written with. Upper-case letters are lowered, the
 * precomposed lower-case letters decompose into a base letter and a combining mark, and
 * the combining marks and spacing accents are diacritics. Every other character is left
 * alone by all three tables.
 */
module Latin1 {
  import opened Wrappers
  import opened Seqs
  import opened Text
  import opened SearchKey

  /** `toLowerCase` on A-Z and on U+00C0 to U+00DE except the multiplication sign. */
  function LatinLower(c: char): string
  {
    if ('A' <= c <= 'Z') || ('\U{00C0}' <= c <= '\U{00DE}' && c != '\U{00D7}') then
      [(c as int + 0x20) as char]
    else
      [c]
  }

  /** Canonical decomposition of the precomposed lower-case Latin-1 letters. */
  function LatinDecompose(c: char): string
  {
    if !('à' <= c <= 'ÿ') then [c] else
    match c
    case 'à' => "a\U{0300}"
    case 'á' => "a\U{0301}"
    case 'â' => "a\U{0302}"
    case 'ã' => "a\U{0303}"
    case 'ä' => "a\U{0308}"
    case 'å' => "a\U{030A}"
    case 'ç' => "c\U{0327}"
    case 'è' => "e\U{0300}"
    case 'é' => "e\U{0301}"
    case 'ê' => "e\U{0302}"
    case 'ë' => "e\U{0308}"
    case 'ì' => "i\U{0300}"
    case 'í' => "i\U{0301}"
    case 'î' => "i\U{0302}"
    case 'ï' => "i\U{0308}"
    case 'ñ' => "n\U{0303}"
    case 'ò' => "o\U{0300}"
    case 'ó' => "o\U{0301}"
    case 'ô' => "o\U{0302}"
    case 'õ' => "o\U{0303}"
    case 'ö' => "o\U{0308}"
    case 'ù' => "u\U{0300}"
    case 'ú' => "u\U{0301}"
    case 'û' => "u\U{0302}"
    case 'ü' => "u\U{0308}"
    case 'ý' => "y\U{0301}"
    case 'ÿ' => "y\U{0308}"
    case _ => [c]
  }

  /** The combining marks used above and the spacing accents of Basic Latin and Latin-1. */
  predicate LatinDiacritic(c: char)
  {
    || c == '\U{0300}' || c == '\U{0301}' || c == '\U{0302}' || c == '\U{0303}'
    || c == '\U{0308}' || c == '\U{030A}' || c == '\U{0327}'
    || c == '^' || c == '`' || c == '\U{00A8}' || c == '\U{00AF}' || c == '\U{00B4}'
    || c == '\U{00B7}' || c == '\U{00B8}'
  }

  const LatinTables: Tables := Tables(LatinLower, LatinDecompose, LatinDiacritic)

  lemma LatinDecomposeKeeps(c: char)
    requires IsKeyChar(c) || IsJsSpace(c)
    ensures LatinDecompose(c) == [c]
  {
    assert !('à' <= c <= 'ÿ');
  }

  /** The Latin-1 tables satisfy what the search-key proofs require of the Unicode tables. */
  lemma LatinTablesValid()
    ensures ValidTables(LatinTables)
  {
    var t := LatinTables;
    forall c | IsKeyChar(c) ensures t.lower(c) == [c] && t.decompose(c) == [c] && !t.diacritic(c) {
      LatinDecomposeKeeps(c);
    }
    forall c | IsJsSpace(c) ensures AllSpace(t.lower(c)) && AllSpace(t.decompose(c)) {
      LatinDecomposeKeeps(c);
    }
  }

  lemma LowerJose()
    ensures LowerCase(LatinTables, "José") == "josé"
  {
  }

  lemma LowerJoseCaps()
    ensures LowerCase(LatinTables, "JOSÉ") == "josé"
  {
  }

  lemma DecomposeJose()
    ensures Decompose(LatinTables, "josé") == "jose\U{0301}"
  {
  }

  /** Removing diacritics from key text followed by one diacritic leaves the key text. */
  lemma StripTrailingMark(t: Tables, s: string, m: char)
    requires ValidTables(t) && t.diacritic(m)
    requires forall i :: 0 <= i < |s| ==> IsKeyChar(s[i])
    ensures StripDiacritics(t, s + [m]) == s
  {
    var f := (c: char) => !t.diacritic(c);
    FilterAppend(f, s, [m]);
    FilterAll(f, s);
    FilterSingle(f, m);
  }

  lemma JoseIsKey()
    ensures IsKey("jose")
  {
    assert NoDoubleSpace("jose");
  }

  /** The accented letter of "josé" decomposes, and its accent is removed. */
  lemma StripJose()
    ensures StripDiacritics(LatinTables, Decompose(LatinTables, "josé")) == "jose"
  {
    DecomposeJose();
    LatinTablesValid();
    JoseIsKey();
    assert "jose\U{0301}" == "jose" + ['\U{0301}'];
    StripTrailingMark(LatinTables, "jose", '\U{0301}');
  }

  lemma FoldJose()
    ensures FoldCharacters(LatinTables, "José") == "jose"
  {
    LowerJose();
    StripJose();
    JoseIsKey();
    FoldThrough(LatinTables, "José", "josé", "jose");
  }

  lemma FoldJoseCaps()
    ensures FoldCharacters(LatinTables, "JOSÉ") == "jose"
  {
    LowerJoseCaps();
    StripJose();
    JoseIsKey();
    FoldThrough(LatinTables, "JOSÉ", "josé", "jose");
  }

  /** Accents and case are ignored: "José" and "JOSÉ" have the same key, "jose". */
  lemma NormalizeJose()
    ensures Normalize(LatinTables, Some("José")) == "jose"
    ensures Normalize(LatinTables, Some("JOSÉ")) == "jose"
  {
    FoldJose();
    FoldJoseCaps();
    JoseIsKey();
    NormalizeFoldsToKey(LatinTables, "José", "jose");
    NormalizeFoldsToKey(LatinTables, "JOSÉ", "jose");
  }
}
