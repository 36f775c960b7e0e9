/**
 * The JavaScript string primitives the widget relies on: the whitespace class that
 * `\s` matches and `trim` removes, `trim`, `indexOf`, `includes` and `replace` with a
 * string pattern.
 */
module Text {
  import opened Seqs

  /** ECMAScript WhiteSpace and LineTerminator code points. */
  predicate IsJsSpace(c: char)
  {
    || c == '\t' || c == '\n' || c == '\U{000B}' || c == '\U{000C}' || c == '\r' || c == ' '
    || c == '\U{00A0}' || c == '\U{1680}' || ('\U{2000}' <= c <= '\U{200A}')
    || c == '\U{2028}' || c == '\U{2029}' || c == '\U{202F}' || c == '\U{205F}'
    || c == '\U{3000}' || c == '\U{FEFF}'
  }

  predicate AllSpace(s: string)
  {
    forall i :: 0 <= i < |s| ==> IsJsSpace(s[i])
  }

  /** `s.trimStart()`: the suffix left after removing leading whitespace. */
  function TrimStart(s: string): (r: string)
    ensures |r| <= |s| && r == s[|s| - |r|..]
    ensures AllSpace(s[..|s| - |r|])
    ensures r == [] || !IsJsSpace(r[0])
  {
    if s != [] && IsJsSpace(s[0]) then TrimStart(s[1..]) else s
  }

  /** `s.trimEnd()`: the prefix left after removing trailing whitespace. */
  function TrimEnd(s: string): (r: string)
    ensures |r| <= |s| && r == s[..|r|]
    ensures AllSpace(s[|r|..])
    ensures r == [] || !IsJsSpace(r[|r| - 1])
  {
    if s != [] && IsJsSpace(s[|s| - 1]) then TrimEnd(s[..|s| - 1]) else s
  }

  /** `s.trim()` */
  function Trim(s: string): (r: string)
    ensures r == [] <==> AllSpace(s)
    ensures r == [] || (!IsJsSpace(r[0]) && !IsJsSpace(r[|r| - 1]))
  {
    TrimEnd(TrimStart(s))
  }

  /** `trimStart` removes a whitespace prefix. */
  lemma TrimStartSplit(s: string) returns (lead: string)
    ensures s == lead + TrimStart(s) && AllSpace(lead)
  {
    var u := TrimStart(s);
    lead := s[..|s| - |u|];
    SplitAt(s, |s| - |u|);
  }

  /** `trimEnd` removes a whitespace suffix. */
  lemma TrimEndSplit(u: string) returns (trail: string)
    ensures u == TrimEnd(u) + trail && AllSpace(trail)
  {
    var r := TrimEnd(u);
    trail := u[|r|..];
    SplitAt(u, |r|);
  }

  /** Trimming cuts whitespace only: the input is the result with whitespace on either side. */
  lemma TrimSplit(s: string) returns (lead: string, trail: string)
    ensures s == lead + Trim(s) + trail
    ensures AllSpace(lead) && AllSpace(trail)
  {
    lead := TrimStartSplit(s);
    trail := TrimEndSplit(TrimStart(s));
    ConcatAssoc(lead, Trim(s), trail);
  }

  /** The trimmed string is a contiguous slice of the original. */
  lemma TrimSlice(s: string) returns (a: int)
    ensures 0 <= a <= a + |Trim(s)| <= |s| && Trim(s) == s[a..a + |Trim(s)|]
  {
    var lead, trail := TrimSplit(s);
    a := |lead|;
    MiddleSlice(lead, Trim(s), trail);
  }

  lemma {:induction false} TrimStartAbsorbs(w: string, y: string)
    requires AllSpace(w)
    ensures TrimStart(w + y) == TrimStart(y)
  {
    if w != [] {
      assert (w + y)[1..] == w[1..] + y;
      TrimStartAbsorbs(w[1..], y);
    } else {
      assert w + y == y;
    }
  }

  lemma {:induction false} TrimEndAbsorbs(y: string, w: string)
    requires AllSpace(w)
    ensures TrimEnd(y + w) == TrimEnd(y)
  {
    if w != [] {
      assert (y + w)[..|y + w| - 1] == y + w[..|w| - 1];
      TrimEndAbsorbs(y, w[..|w| - 1]);
    } else {
      assert y + w == y;
    }
  }

  lemma {:induction false} TrimStartAppend(y: string, z: string)
    requires !AllSpace(y)
    ensures TrimStart(y + z) == TrimStart(y) + z
  {
    assert (y + z)[0] == y[0];
    if IsJsSpace(y[0]) {
      assert (y + z)[1..] == y[1..] + z;
      TrimStartAppend(y[1..], z);
    }
  }

  lemma {:induction false} TrimEndPrepend(y: string, z: string)
    requires !AllSpace(z)
    ensures TrimEnd(y + z) == y + TrimEnd(z)
  {
    assert (y + z)[|y + z| - 1] == z[|z| - 1];
    if IsJsSpace(z[|z| - 1]) {
      assert (y + z)[..|y + z| - 1] == y + z[..|z| - 1];
      TrimEndPrepend(y, z[..|z| - 1]);
    }
  }

  /** Whitespace around a string does not survive `trim`. */
  lemma TrimAbsorbs(w1: string, y: string, w2: string)
    requires AllSpace(w1) && AllSpace(w2)
    ensures Trim(w1 + y + w2) == Trim(y)
  {
    assert w1 + y + w2 == w1 + (y + w2);
    TrimStartAbsorbs(w1, y + w2);
    if AllSpace(y) {
      assert AllSpace(y + w2);
    } else {
      TrimStartAppend(y, w2);
      TrimEndAbsorbs(TrimStart(y), w2);
    }
  }

  /** `t` occurs in `s` as a contiguous block starting at position `j`. */
  predicate OccursAt(s: string, t: string, j: int)
  {
    0 <= j <= |s| - |t| && s[j..j + |t|] == t
  }

  /** `j` is the first position at which `t` occurs in `s`. */
  predicate FirstOccurrence(s: string, t: string, j: int)
  {
    OccursAt(s, t, j) && forall i :: 0 <= i < j ==> !OccursAt(s, t, i)
  }

  lemma OccursAtTail(s: string, t: string, j: int)
    requires 1 <= j
    ensures OccursAt(s, t, j) <==> |s| > 0 && OccursAt(s[1..], t, j - 1)
  {
    if j <= |s| - |t| {
      assert s[j..j + |t|] == s[1..][j - 1..j - 1 + |t|];
    }
  }

  /**
   * `s.indexOf(t)`: the first position at which `t` occurs in `s`, or -1 when it
   * occurs nowhere.
   */
  function IndexOf(s: string, t: string): (k: int)
    ensures k == -1 || FirstOccurrence(s, t, k)
    ensures k == -1 ==> forall j :: !OccursAt(s, t, j)
  {
    if |t| > |s| then -1
    else if s[..|t|] == t then 0
    else
      var k := IndexOf(s[1..], t);
      assert !OccursAt(s, t, 0);
      assert forall j :: 1 <= j ==> (OccursAt(s, t, j) <==> OccursAt(s[1..], t, j - 1)) by {
        forall j | 1 <= j { OccursAtTail(s, t, j); }
      }
      if k < 0 then -1 else k + 1
  }

  /** `s.includes(t)` */
  function Includes(s: string, t: string): (b: bool)
    ensures b <==> exists j :: OccursAt(s, t, j)
  {
    IndexOf(s, t) >= 0
  }

  /** A contiguous slice of `s` is found in `s`. */
  lemma IncludesSlice(s: string, i: int, j: int)
    requires 0 <= i <= j <= |s|
    ensures Includes(s, s[i..j])
  {
    assert OccursAt(s, s[i..j], i);
  }

  /** A piece of a slice of `s` occurs in `s`. */
  lemma SliceOccurs(s: string, i: int, j: int, a: int, t: string)
    requires 0 <= i <= j <= |s| && 0 <= a <= a + |t| <= j - i
    requires t == s[i..j][a..a + |t|]
    ensures Includes(s, t)
  {
    SliceOfSlice(s, i, j, a, a + |t|);
    assert OccursAt(s, t, i + a);
  }

  /** A string holding a character that `s` lacks is not found in `s`. */
  lemma MissingCharNotIncluded(s: string, t: string, k: int)
    requires 0 <= k < |t| && t[k] !in s
    ensures !Includes(s, t)
  {
  }

  /**
   * `s.replace(pat, rep)` with a string pattern: only the first occurrence is replaced.
   * `rep` is inserted literally; the `$&`, `$$`, `` $` `` and `$'` patterns of the real
   * method are not expanded, which is exact for replacements without a `$`.
   */
  function ReplaceFirst(s: string, pat: string, rep: string): (r: string)
    ensures (forall j :: !OccursAt(s, pat, j)) ==> r == s
    ensures forall k :: FirstOccurrence(s, pat, k) ==> r == s[..k] + rep + s[k + |pat|..]
  {
    var k := IndexOf(s, pat);
    assert forall k' :: FirstOccurrence(s, pat, k') ==> k' == k;
    if k < 0 then s else s[..k] + rep + s[k + |pat|..]
  }

  /** Replacing a pattern by itself changes nothing. */
  lemma ReplaceFirstSame(s: string, pat: string)
    ensures ReplaceFirst(s, pat, pat) == s
  {
    var k := IndexOf(s, pat);
    if k >= 0 {
      assert s == s[..k] + s[k..k + |pat|] + s[k + |pat|..];
    }
  }
}
