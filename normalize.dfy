/**
 * The search key: `normalize` in src/App.tsx. A fixed pipeline of string rewrites:
 * lower-case, canonical decomposition, removal of diacritics, `ß` to `ss`, every
 * character outside `[a-z0-9 ]` to a space, whitespace runs to one space, trim.
 *
 * Lower-casing, decomposition and the Diacritic property are Unicode tables. They are a
 * parameter here, as per-character functions, constrained only by `ValidTables`.
 */
module SearchKey {
  import opened Wrappers
  import opened Seqs
  import opened Text

  datatype Tables = Tables(
    lower: char -> string,      // String.prototype.toLowerCase, one character at a time
    decompose: char -> string,  // canonical (NFD) decomposition of one character
    diacritic: char -> bool)    // membership in \p{Diacritic}

  /** The alphabet of search keys: `[a-z0-9 ]`. */
  predicate IsKeyChar(c: char)
  {
    ('a' <= c <= 'z') || ('0' <= c <= '9') || c == ' '
  }

  /**
   * What the proofs need of the Unicode tables, and what the real ones satisfy: the key
   * alphabet is left alone, and whitespace is mapped to whitespace.
   */
  ghost predicate ValidTables(t: Tables)
  {
    && (forall c {:trigger t.lower(c)} :: IsKeyChar(c) ==> t.lower(c) == [c])
    && (forall c {:trigger t.decompose(c)} :: IsKeyChar(c) ==> t.decompose(c) == [c])
    && (forall c {:trigger t.diacritic(c)} :: IsKeyChar(c) ==> !t.diacritic(c))
    && (forall c {:trigger t.lower(c)} :: IsJsSpace(c) ==> AllSpace(t.lower(c)))
    && (forall c {:trigger t.decompose(c)} :: IsJsSpace(c) ==> AllSpace(t.decompose(c)))
  }

  /** Positions `i` and `i + 1` of `s` both hold a space. */
  predicate DoubleSpaceAt(s: string, i: int)
  {
    0 <= i < |s| - 1 && s[i] == ' ' && s[i + 1] == ' '
  }

  predicate NoDoubleSpace(s: string)
  {
    forall i :: 0 <= i < |s| - 1 ==> !DoubleSpaceAt(s, i)
  }

  lemma NoDoubleSpaceCons(x: char, y: string)
    requires NoDoubleSpace(y)
    requires x != ' ' || y == [] || y[0] != ' '
    ensures NoDoubleSpace([x] + y)
  {
    forall i | 0 <= i < |y| ensures !DoubleSpaceAt([x] + y, i) {
      if i > 0 {
        assert !DoubleSpaceAt(y, i - 1);
      }
    }
  }

  lemma NoDoubleSpaceSlice(s: string, a: int, b: int)
    requires NoDoubleSpace(s) && 0 <= a <= b <= |s|
    ensures NoDoubleSpace(s[a..b])
  {
    forall n | 0 <= n < b - a - 1 ensures !DoubleSpaceAt(s[a..b], n) {
      assert !DoubleSpaceAt(s, a + n);
    }
  }

  /**
   * A search key: only `[a-z0-9 ]`, no space at either end, never two spaces in a row.
   */
  predicate IsKey(s: string)
  {
    && (forall i :: 0 <= i < |s| ==> IsKeyChar(s[i]))
    && (s == [] || (s[0] != ' ' && s[|s| - 1] != ' '))
    && NoDoubleSpace(s)
  }

  /** `.toLowerCase()` */
  function LowerCase(t: Tables, s: string): string
  {
    FlatMap(t.lower, s)
  }

  /** `.normalize("NFD")` */
  function Decompose(t: Tables, s: string): string
  {
    FlatMap(t.decompose, s)
  }

  /** `.replace(/\p{Diacritic}/gu, "")`: the non-diacritics of `s`, in order. */
  function StripDiacritics(t: Tables, s: string): (r: string)
    ensures |r| <= |s|
    ensures forall i :: 0 <= i < |r| ==> !t.diacritic(r[i])
    ensures (forall i :: 0 <= i < |s| ==> !t.diacritic(s[i])) ==> r == s
  {
    if forall i :: 0 <= i < |s| ==> !t.diacritic(s[i]) then
      FilterAll(c => !t.diacritic(c), s);
      Filter(c => !t.diacritic(c), s)
    else
      Filter(c => !t.diacritic(c), s)
  }

  /** Removing diacritics works character by character: a concatenation is stripped part by part. */
  lemma StripDiacriticsAppend(t: Tables, a: string, b: string)
    ensures StripDiacritics(t, a + b) == StripDiacritics(t, a) + StripDiacritics(t, b)
  {
    FilterAppend(c => !t.diacritic(c), a, b);
  }

  /** A diacritic is removed and any other character is kept. */
  lemma StripDiacriticsChar(t: Tables, c: char)
    ensures StripDiacritics(t, [c]) == if t.diacritic(c) then [] else [c]
  {
    FilterSingle(c => !t.diacritic(c), c);
  }

  function SharpS(c: char): string
  {
    if c == 'ß' then "ss" else [c]
  }

  /** `.replace(/ß/g, "ss")`: no `ß` is left, and text without one is unchanged. */
  function ExpandSharpS(s: string): (r: string)
    ensures forall i :: 0 <= i < |r| ==> r[i] != 'ß'
    ensures 'ß' !in s ==> r == s
  {
    FlatMapKeeps(SharpS, c => c != 'ß', s);
    if 'ß' in s then FlatMap(SharpS, s)
    else
      FlatMapIdentity(SharpS, s);
      FlatMap(SharpS, s)
  }

  /** Expanding `ß` works character by character: a concatenation is expanded part by part. */
  lemma ExpandSharpSAppend(a: string, b: string)
    ensures ExpandSharpS(a + b) == ExpandSharpS(a) + ExpandSharpS(b)
  {
    FlatMapAppend(SharpS, a, b);
  }

  /** `ß` becomes "ss" and any other character is kept. */
  lemma ExpandSharpSChar(c: char)
    ensures ExpandSharpS([c]) == if c == 'ß' then "ss" else [c]
  {
    assert [c][1..] == [];
    assert FlatMap(SharpS, [c]) == SharpS(c) + FlatMap(SharpS, []);
  }

  function MaskChar(c: char): char
  {
    if IsKeyChar(c) then c else ' '
  }

  /** `.replace(/[^a-z0-9 ]/g, " ")`: key characters stay in place, every other character becomes a space. */
  function MaskSymbols(s: string): (r: string)
    ensures |r| == |s|
    ensures forall i :: 0 <= i < |s| ==> r[i] == (if IsKeyChar(s[i]) then s[i] else ' ')
    ensures forall i :: 0 <= i < |r| ==> IsKeyChar(r[i])
  {
    Map(MaskChar, s)
  }

  /** `.replace(/\s+/g, " ")`: every maximal run of whitespace becomes one space. */
  function CollapseSpaces(s: string): (r: string)
    ensures s == [] <==> r == []
    ensures s != [] ==> r[0] == (if IsJsSpace(s[0]) then ' ' else s[0])
    ensures NoDoubleSpace(r)
    decreases |s|
  {
    if s == [] then []
    else if IsJsSpace(s[0]) then
      var u := TrimStart(s);
      NoDoubleSpaceCons(' ', CollapseSpaces(u));
      " " + CollapseSpaces(u)
    else
      NoDoubleSpaceCons(s[0], CollapseSpaces(s[1..]));
      [s[0]] + CollapseSpaces(s[1..])
  }

  /** Lines 20 to 24: the steps that rewrite characters one at a time. */
  function FoldCharacters(t: Tables, s: string): (r: string)
    ensures forall i :: 0 <= i < |r| ==> IsKeyChar(r[i])
  {
    MaskSymbols(ExpandSharpS(StripDiacritics(t, Decompose(t, LowerCase(t, s)))))
  }

  /** `normalize(str)`: the search key of a possibly absent string. */
  function Normalize(t: Tables, s: Option<string>): (r: string)
    ensures IsKey(r)
    ensures s.None? || s.value == [] ==> r == []
  {
    if s.None? || s.value == [] then ""
    else
      var m := FoldCharacters(t, s.value);
      TrimCollapseIsKey(m);
      Trim(CollapseSpaces(m))
  }

  /** Collapsing and trimming a string over the key alphabet gives a key. */
  lemma TrimCollapseIsKey(m: string)
    requires forall i :: 0 <= i < |m| ==> IsKeyChar(m[i])
    ensures IsKey(Trim(CollapseSpaces(m)))
  {
    CollapseKeepsKeyChars(m);
    TrimIsKey(CollapseSpaces(m));
  }

  /** Collapsing whitespace brings in no character but the space. */
  lemma {:induction false} CollapseKeepsKeyChars(s: string)
    requires forall i :: 0 <= i < |s| ==> IsKeyChar(s[i])
    ensures forall i :: 0 <= i < |CollapseSpaces(s)| ==> IsKeyChar(CollapseSpaces(s)[i])
    decreases |s|
  {
    if s != [] {
      var r := CollapseSpaces(s);
      if IsJsSpace(s[0]) {
        var u := TrimStart(s);
        assert u == s[|s| - |u|..];
        CollapseKeepsKeyChars(u);
        assert r == " " + CollapseSpaces(u);
      } else {
        CollapseKeepsKeyChars(s[1..]);
        assert r == [s[0]] + CollapseSpaces(s[1..]);
      }
    }
  }

  /** Trimming a string over the key alphabet without double spaces gives a key. */
  lemma TrimIsKey(c: string)
    requires forall i :: 0 <= i < |c| ==> IsKeyChar(c[i])
    requires NoDoubleSpace(c)
    ensures IsKey(Trim(c))
  {
    var r := Trim(c);
    var a := TrimSlice(c);
    NoDoubleSpaceSlice(c, a, a + |r|);
    assert forall i :: 0 <= i < |r| ==> r[i] == c[a + i];
  }

  // ---------------------------------------------------------------------------------
  // Keys are exactly the fixed points, hence idempotence

  /** The table-driven steps leave a string over the key alphabet alone. */
  lemma TableStepsFixKeyText(t: Tables, s: string)
    requires ValidTables(t)
    requires forall i :: 0 <= i < |s| ==> IsKeyChar(s[i])
    ensures LowerCase(t, s) == s
    ensures Decompose(t, s) == s
    ensures StripDiacritics(t, Decompose(t, LowerCase(t, s))) == s
  {
    FlatMapIdentity(t.lower, s);
    assert LowerCase(t, s) == s;
    FlatMapIdentity(t.decompose, s);
    assert Decompose(t, s) == s;
    FilterAll(c => !t.diacritic(c), s);
  }

  /** Expanding `ß` and masking symbols leave a string over the key alphabet alone. */
  lemma SymbolStepsFixKeyText(s: string)
    requires forall i :: 0 <= i < |s| ==> IsKeyChar(s[i])
    ensures MaskSymbols(ExpandSharpS(s)) == s
  {
    FlatMapIdentity(SharpS, s);
    assert ExpandSharpS(s) == s;
    forall i | 0 <= i < |s| ensures MaskSymbols(s)[i] == s[i] {
      assert Map(MaskChar, s)[i] == MaskChar(s[i]);
    }
  }

  /** Masking twice is masking once. */
  lemma MaskSymbolsIdempotent(s: string)
    ensures MaskSymbols(MaskSymbols(s)) == MaskSymbols(s)
  {
    var m := MaskSymbols(s);
    assert forall i :: 0 <= i < |m| ==> MaskSymbols(m)[i] == m[i];
  }

  /** Folding ends in key text once the table-driven steps have produced key text. */
  lemma FoldThrough(t: Tables, s: string, lowered: string, k: string)
    requires LowerCase(t, s) == lowered
    requires StripDiacritics(t, Decompose(t, lowered)) == k
    requires forall i :: 0 <= i < |k| ==> IsKeyChar(k[i])
    ensures FoldCharacters(t, s) == k
  {
    SymbolStepsFixKeyText(k);
  }

  /** Every character-level step leaves a string over the key alphabet alone. */
  lemma FoldFixesKeyText(t: Tables, s: string)
    requires ValidTables(t)
    requires forall i :: 0 <= i < |s| ==> IsKeyChar(s[i])
    ensures FoldCharacters(t, s) == s
  {
    TableStepsFixKeyText(t, s);
    SymbolStepsFixKeyText(s);
  }

  /** Collapsing changes nothing in a string over the key alphabet with no two spaces in a row. */
  lemma {:induction false} CollapseFixesKeyText(s: string)
    requires forall i :: 0 <= i < |s| ==> IsKeyChar(s[i])
    requires NoDoubleSpace(s)
    ensures CollapseSpaces(s) == s
  {
    if s != [] {
      NoDoubleSpaceSlice(s, 1, |s|);
      assert s[1..|s|] == s[1..];
      CollapseFixesKeyText(s[1..]);
      if IsJsSpace(s[0]) {
        assert !DoubleSpaceAt(s, 0);
        assert s[1..] == [] || !IsJsSpace(s[1]);
        assert TrimStart(s) == s[1..];
      }
    }
  }

  /**
   * On a string over the key alphabet with no two spaces in a row, normalizing only
   * trims. Every substring of a key is such a string.
   */
  lemma NormalizeKeyText(t: Tables, s: string)
    requires ValidTables(t)
    requires forall i :: 0 <= i < |s| ==> IsKeyChar(s[i])
    requires NoDoubleSpace(s)
    ensures Normalize(t, Some(s)) == Trim(s)
  {
    if s != [] {
      FoldFixesKeyText(t, s);
      CollapseFixesKeyText(s);
    }
  }

  /** The search keys are exactly the strings that `normalize` leaves unchanged. */
  lemma KeysAreFixedPoints(t: Tables, k: string)
    requires ValidTables(t)
    ensures Normalize(t, Some(k)) == k <==> IsKey(k)
  {
    if IsKey(k) {
      NormalizeKeyText(t, k);
      TrimKey(k);
    }
  }

  /** A key has no surrounding whitespace to trim. */
  lemma TrimKey(k: string)
    requires IsKey(k)
    ensures Trim(k) == k
  {
    assert k == [] || (!IsJsSpace(k[0]) && !IsJsSpace(k[|k| - 1]));
    assert TrimStart(k) == k;
  }

  /** A string whose characters fold to a key normalizes to that key. */
  lemma NormalizeFoldsToKey(t: Tables, s: string, k: string)
    requires IsKey(k)
    requires FoldCharacters(t, s) == k
    ensures Normalize(t, Some(s)) == k
  {
    NormalizeUnguarded(t, s);
    CollapseFixesKeyText(k);
    TrimKey(k);
  }

  /** `normalize(normalize(s)) == normalize(s)` */
  lemma NormalizeIdempotent(t: Tables, s: Option<string>)
    requires ValidTables(t)
    ensures Normalize(t, Some(Normalize(t, s))) == Normalize(t, s)
  {
    KeysAreFixedPoints(t, Normalize(t, s));
  }

  // ---------------------------------------------------------------------------------
  // Trimming before normalizing is redundant

  lemma TrimStartCollapse(s: string)
    ensures TrimStart(CollapseSpaces(s)) == CollapseSpaces(TrimStart(s))
  {
    if s != [] && IsJsSpace(s[0]) {
      var u := TrimStart(s);
      assert TrimStart(CollapseSpaces(s)) == TrimStart(CollapseSpaces(u));
    }
  }

  lemma TrimEndCons(x: char, y: string)
    requires !IsJsSpace(x)
    ensures TrimEnd([x] + y) == [x] + TrimEnd(y)
  {
    if AllSpace(y) {
      TrimEndAbsorbs([x], y);
      TrimEndAbsorbs([], y);
      assert [] + y == y;
    } else {
      TrimEndPrepend([x], y);
    }
  }

  lemma CollapseCons(x: char, y: string)
    requires !IsJsSpace(x)
    ensures CollapseSpaces([x] + y) == [x] + CollapseSpaces(y)
  {
    assert ([x] + y)[1..] == y;
  }

  lemma CollapseLead(lead: string, v: string)
    requires lead != [] && AllSpace(lead)
    requires v == [] || !IsJsSpace(v[0])
    ensures CollapseSpaces(lead + v) == " " + CollapseSpaces(v)
  {
    assert IsJsSpace((lead + v)[0]);
    TrimStartAbsorbs(lead, v);
  }

  lemma TrimStartNonBlank(s: string)
    requires !AllSpace(s)
    ensures !AllSpace(TrimStart(s))
  {
    var u := TrimStart(s);
    var i :| 0 <= i < |s| && !IsJsSpace(s[i]);
    assert i >= |s| - |u|;
    assert u[i - (|s| - |u|)] == s[i];
  }

  lemma {:induction false} NonBlankCollapse(s: string)
    requires !AllSpace(s)
    ensures !AllSpace(CollapseSpaces(s))
    decreases |s|
  {
    assert s != [];
    var r := CollapseSpaces(s);
    if !IsJsSpace(s[0]) {
      assert r[0] == s[0];
    } else {
      var u := TrimStart(s);
      TrimStartNonBlank(s);
      NonBlankCollapse(u);
      var c := CollapseSpaces(u);
      assert r == " " + c;
      var j :| 0 <= j < |c| && !IsJsSpace(c[j]);
      assert r[j + 1] == c[j];
    }
  }

  lemma TrimEndNonBlank(u: string)
    requires !AllSpace(u)
    ensures !AllSpace(TrimEnd(u))
  {
    var v := TrimEnd(u);
    var i :| 0 <= i < |u| && !IsJsSpace(u[i]);
    assert i < |v|;
    assert v[i] == u[i];
  }

  lemma {:induction false} TrimEndCollapse(s: string)
    ensures TrimEnd(CollapseSpaces(s)) == CollapseSpaces(TrimEnd(s))
    decreases |s|
  {
    if s == [] {
    } else if !IsJsSpace(s[0]) {
      assert s == [s[0]] + s[1..];
      TrimEndCollapse(s[1..]);
      CollapseCons(s[0], s[1..]);
      TrimEndCons(s[0], CollapseSpaces(s[1..]));
      TrimEndCons(s[0], s[1..]);
      CollapseCons(s[0], TrimEnd(s[1..]));
    } else {
      var u := TrimStart(s);
      var lead := s[..|s| - |u|];
      assert s == lead + u;
      if u == [] {
        TrimEndAbsorbs([], s);
        assert [] + s == s;
        assert TrimEnd(" ") == [];
      } else {
        TrimEndCollapse(u);
        NonBlankCollapse(u);
        TrimEndPrepend(" ", CollapseSpaces(u));
        TrimEndPrepend(lead, u);
        TrimEndNonBlank(u);
        CollapseLead(lead, TrimEnd(u));
      }
    }
  }

  /** Trimming and collapsing whitespace can be done in either order. */
  lemma TrimCollapseCommute(s: string)
    ensures Trim(CollapseSpaces(s)) == CollapseSpaces(Trim(s))
  {
    TrimStartCollapse(s);
    TrimEndCollapse(TrimStart(s));
  }

  /** The character-level steps act on each character independently. */
  lemma FoldAppend(t: Tables, a: string, b: string)
    ensures FoldCharacters(t, a + b) == FoldCharacters(t, a) + FoldCharacters(t, b)
  {
    FlatMapAppend(t.lower, a, b);
    var la, lb := LowerCase(t, a), LowerCase(t, b);
    FlatMapAppend(t.decompose, la, lb);
    var da, db := Decompose(t, la), Decompose(t, lb);
    FilterAppend(c => !t.diacritic(c), da, db);
    var sa, sb := StripDiacritics(t, da), StripDiacritics(t, db);
    FlatMapAppend(SharpS, sa, sb);
    MapAppend(MaskChar, ExpandSharpS(sa), ExpandSharpS(sb));
  }

  /** Under valid tables, whitespace folds to whitespace. */
  lemma FoldBlank(t: Tables, w: string)
    requires ValidTables(t)
    requires AllSpace(w)
    ensures AllSpace(FoldCharacters(t, w))
  {
    FlatMapKeeps(t.lower, IsJsSpace, w);
    var l := LowerCase(t, w);
    FlatMapKeeps(t.decompose, IsJsSpace, l);
    var d := Decompose(t, l);
    var st := StripDiacritics(t, d);
    forall i | 0 <= i < |st| ensures IsJsSpace(st[i]) {
      FilterMembership(c => !t.diacritic(c), d, st[i]);
    }
    FlatMapKeeps(SharpS, IsJsSpace, st);
    var e := ExpandSharpS(st);
    forall i | 0 <= i < |e| ensures IsJsSpace(MaskSymbols(e)[i]) {
      assert Map(MaskChar, e)[i] == MaskChar(e[i]);
    }
  }

  /** For every string, empty or not, `normalize` is fold, collapse, trim. */
  lemma NormalizeUnguarded(t: Tables, s: string)
    ensures Normalize(t, Some(s)) == Trim(CollapseSpaces(FoldCharacters(t, s)))
  {
    if s == [] {
      assert FoldCharacters(t, s) == [];
    }
  }

  /**
   * `normalize(nome.trim()) == normalize(nome)`: the trim in `handleSearch` is redundant,
   * since `normalize` turns surrounding whitespace into spaces and trims them.
   */
  lemma NormalizeIgnoresTrim(t: Tables, s: string)
    requires ValidTables(t)
    ensures Normalize(t, Some(Trim(s))) == Normalize(t, Some(s))
  {
    var lead, trail := TrimSplit(s);
    var m := Trim(s);
    FoldAppend(t, lead, m);
    FoldAppend(t, lead + m, trail);
    FoldBlank(t, lead);
    FoldBlank(t, trail);
    var fl, fm, ft := FoldCharacters(t, lead), FoldCharacters(t, m), FoldCharacters(t, trail);
    assert FoldCharacters(t, s) == fl + fm + ft;
    TrimAbsorbs(fl, fm, ft);
    NormalizeUnguarded(t, s);
    NormalizeUnguarded(t, m);
    TrimCollapseCommute(fl + fm + ft);
    TrimCollapseCommute(fm);
  }

  /** A blank input (empty or whitespace only) has the empty key. */
  lemma NormalizeBlank(t: Tables, s: string)
    requires ValidTables(t)
    requires AllSpace(s)
    ensures Normalize(t, Some(s)) == []
  {
    NormalizeIgnoresTrim(t, s);
  }
}
