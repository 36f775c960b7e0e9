/**
 * The matcher and the search/selection state of the `App` component in src/App.tsx:
 * `handleSearch`, `handleSelect`, the input's `onChange`, the click handlers of the
 * rendered buttons, the guards that decide what is shown, and the voting link.
 */
module Search {
  import opened Wrappers
  import opened Seqs
  import opened Text
  import opened SearchKey
  import opened Load

  /** `data.filter((item) => item._norm?.includes(term))` */
  function FindMatches(data: seq<Pessoa>, term: string): (found: seq<Pessoa>)
    ensures |found| <= |data|
    ensures forall i :: 0 <= i < |found| ==> Includes(found[i].norm, term)
  {
    Filter((p: Pessoa) => Includes(p.norm, term), data)
  }

  /** A record matches a term exactly when its key contains the term. */
  lemma FindMatchesMembership(data: seq<Pessoa>, term: string, p: Pessoa)
    ensures p in FindMatches(data, term) <==> p in data && Includes(p.norm, term)
  {
    FilterMembership((q: Pessoa) => Includes(q.norm, term), data, p);
  }

  /** `normalize(nome.trim())`: the term `handleSearch` looks for. */
  function SearchTerm(t: Tables, nome: string): (term: string)
    ensures IsKey(term)
  {
    Normalize(t, Some(Trim(nome)))
  }

  /** The matches `handleSearch` stores: none for an empty term, otherwise the records whose key contains it. */
  function SearchResult(t: Tables, data: seq<Pessoa>, nome: string): (found: seq<Pessoa>)
    ensures SearchTerm(t, nome) == [] ==> found == []
    ensures |found| <= |data|
    ensures forall i :: 0 <= i < |found| ==> Includes(found[i].norm, SearchTerm(t, nome))
  {
    var term := SearchTerm(t, nome);
    if term == [] then [] else FindMatches(data, term)
  }

  /**
   * A record is a match exactly when it is in the data, the term is not empty and the
   * record's key contains the term as a contiguous block.
   */
  lemma SearchResultMembership(t: Tables, data: seq<Pessoa>, nome: string, p: Pessoa)
    ensures p in SearchResult(t, data, nome) <==>
      p in data && SearchTerm(t, nome) != [] && exists j :: OccursAt(p.norm, SearchTerm(t, nome), j)
  {
    var term := SearchTerm(t, nome);
    FindMatchesMembership(data, term, p);
  }

  /** Matches keep the dataset order: the result commutes with splitting the data. */
  lemma SearchResultAppend(t: Tables, a: seq<Pessoa>, b: seq<Pessoa>, nome: string)
    ensures SearchResult(t, a + b, nome) == SearchResult(t, a, nome) + SearchResult(t, b, nome)
  {
    var term := SearchTerm(t, nome);
    if term != [] {
      FilterAppend((p: Pessoa) => Includes(p.norm, term), a, b);
    }
  }

  /** Filtering loaded records by a term keeps loaded records only. */
  lemma FindMatchesLoaded(t: Tables, data: seq<Pessoa>, term: string)
    requires Loaded(t, data)
    ensures Loaded(t, FindMatches(data, term))
  {
    var found := FindMatches(data, term);
    forall i | 0 <= i < |found| ensures WellFormed(t, found[i]) {
      assert found[i] in found;
      FindMatchesMembership(data, term, found[i]);
      var j :| 0 <= j < |data| && data[j] == found[i];
    }
  }

  /** A blank query (empty or whitespace only) finds nothing, whatever the data. */
  lemma BlankSearchFindsNothing(t: Tables, data: seq<Pessoa>, nome: string)
    requires AllSpace(nome)
    ensures SearchResult(t, data, nome) == []
  {
  }

  /** The trim before normalizing in `handleSearch` makes no difference. */
  lemma SearchTermIgnoresTrim(t: Tables, nome: string)
    requires ValidTables(t)
    ensures SearchTerm(t, nome) == Normalize(t, Some(nome))
  {
    NormalizeIgnoresTrim(t, nome);
  }

  /** A slice of a key is over the key alphabet and has no two spaces in a row. */
  lemma KeySlice(k: string, i: int, j: int)
    requires IsKey(k) && 0 <= i <= j <= |k|
    ensures forall n :: 0 <= n < j - i ==> IsKeyChar(k[i..j][n])
    ensures NoDoubleSpace(k[i..j])
  {
    NoDoubleSpaceSlice(k, i, j);
  }

  /** The trimmed form of any slice of `k` occurs in `k`. */
  lemma TrimmedSliceOccurs(k: string, i: int, j: int)
    requires 0 <= i <= j <= |k|
    ensures Includes(k, Trim(k[i..j]))
  {
    var a := TrimSlice(k[i..j]);
    SliceOccurs(k, i, j, a, Trim(k[i..j]));
  }

  /**
   * Matching symmetry: searching for any non-blank piece of a loaded record's key finds
   * that record.
   */
  lemma SearchFindsKeySlice(t: Tables, data: seq<Pessoa>, p: Pessoa, i: int, j: int)
    requires ValidTables(t)
    requires p in data && WellFormed(t, p)
    requires 0 <= i <= j <= |p.norm| && !AllSpace(p.norm[i..j])
    ensures p in SearchResult(t, data, p.norm[i..j])
  {
    var k := p.norm;
    var q := k[i..j];
    KeySlice(k, i, j);
    SearchTermIgnoresTrim(t, q);
    NormalizeKeyText(t, q);
    var m := Trim(q);
    assert SearchTerm(t, q) == m != [];
    TrimmedSliceOccurs(k, i, j);
    FindMatchesMembership(data, m, p);
  }

  const LinkPrefix: string := "https://sisvoto.ump.app.br/App?codigo="

  /** The voting link of a record: the fixed address followed by the raw code. */
  function VotingLink(codigo: string): (url: string)
    ensures |url| == |LinkPrefix| + |codigo|
    ensures url[..|LinkPrefix|] == LinkPrefix && url[|LinkPrefix|..] == codigo
  {
    LinkPrefix + codigo
  }

  /** Different codes give different links. */
  lemma VotingLinkInjective(a: string, b: string)
    requires VotingLink(a) == VotingLink(b)
    ensures a == b
  {
    assert a == VotingLink(a)[|LinkPrefix|..];
  }

  /** The state of the `App` component. */
  class App {
    const tables: Tables
    var data: seq<Pessoa>
    var nome: string
    var matches: seq<Pessoa>
    var selected: Option<Pessoa>
    var searched: bool

    /**
     * Every record the component holds, loaded or matched, was built by the load step,
     * and the selected record is one of the matches.
     */
    ghost predicate Valid()
      reads this
    {
      && Loaded(tables, data)
      && Loaded(tables, matches)
      && (selected.Some? ==> selected.value in matches)
    }

    /** Line 114: "name not found", after a search with no match for a non-blank input. */
    predicate ShowsNotFound()
      reads this
    {
      searched && |matches| == 0 && Trim(nome) != []
    }

    /** Line 120: the single match, offered as a button to confirm. */
    predicate ShowsSingleMatch()
      reads this
    {
      |matches| == 1 && selected.None?
    }

    /** Line 132: the list of matches to choose from. */
    predicate ShowsMatchList()
      reads this
    {
      |matches| > 1 && selected.None?
    }

    /** Lines 152 and 158: the link of the chosen record, when one is chosen. */
    function ShownLink(): (url: Option<string>)
      reads this
      ensures url.Some? <==> selected.Some?
      ensures url.Some? ==> url.value == VotingLink(selected.value.codigo)
    {
      if selected.Some? then Some(VotingLink(selected.value.codigo)) else None
    }

    /** The initial state: no data, empty input, no matches, nothing selected, no search yet. */
    constructor (t: Tables)
      ensures Valid() && tables == t
      ensures data == [] && nome == [] && matches == [] && selected == None && !searched
    {
      tables := t;
      data, nome, matches, selected, searched := [], [], [], None, false;
    }

    /** Line 77: the loaded records replace `data`; nothing else changes. */
    method SetData(rows: seq<Row>)
      requires Valid()
      modifies this
      ensures Valid()
      ensures data == LoadRecords(tables, rows)
      ensures nome == old(nome) && matches == old(matches) && selected == old(selected) && searched == old(searched)
    {
      data := LoadRecords(tables, rows);
    }

    /** Line 107: typing replaces the input; nothing else changes. */
    method SetNome(value: string)
      requires Valid()
      modifies this
      ensures Valid()
      ensures nome == value
      ensures data == old(data) && matches == old(matches) && selected == old(selected) && searched == old(searched)
    {
      nome := value;
    }

    /** `handleSearch` */
    method HandleSearch()
      requires Valid()
      modifies this
      ensures Valid()
      ensures data == old(data) && nome == old(nome)
      ensures searched && selected == None
      ensures matches == SearchResult(tables, data, nome)
      ensures ShownLink() == None
      ensures ShowsNotFound() <==> matches == [] && !AllSpace(nome)
      ensures ShowsSingleMatch() <==> |matches| == 1
      ensures ShowsMatchList() <==> |matches| > 1
    {
      var term := SearchTerm(tables, nome);
      searched := true;
      selected := None;
      if term == [] {
        matches := [];
        return;
      }
      var found := FindMatches(data, term);
      FindMatchesLoaded(tables, data, term);
      matches := found;
    }

    /**
     * `handleSelect`: only `selected` changes. Both call sites (lines 125 and 143) pass one
     * of the matches, so the link shown carries the non-empty code of a loaded record.
     */
    method HandleSelect(p: Pessoa)
      requires Valid() && p in matches
      modifies this
      ensures Valid()
      ensures selected == Some(p)
      ensures WellFormed(tables, p) && p.codigo != [] && ShownLink() == Some(VotingLink(p.codigo))
      ensures data == old(data) && nome == old(nome) && matches == old(matches) && searched == old(searched)
    {
      MatchIsLoaded(p);
      selected := Some(p);
    }

    /** Every match is a loaded record. */
    lemma MatchIsLoaded(p: Pessoa)
      requires Valid() && p in matches
      ensures WellFormed(tables, p) && p.codigo != []
    {
      var i :| 0 <= i < |matches| && matches[i] == p;
    }

    /**
     * Lines 114, 120, 132 and 152: at most one of the not-found message, the single-match
     * prompt, the list and the link is shown.
     */
    lemma PanelsExclusive()
      requires Valid()
      ensures ShowsNotFound() ==> !ShowsSingleMatch() && !ShowsMatchList() && ShownLink() == None
      ensures ShowsSingleMatch() ==> !ShowsMatchList() && ShownLink() == None
      ensures ShowsMatchList() ==> ShownLink() == None
    {
    }

    /** Line 125: confirming the single match selects it and shows its link. */
    method ConfirmSingleMatch()
      requires Valid() && ShowsSingleMatch()
      modifies this
      ensures Valid()
      ensures data == old(data) && nome == old(nome) && matches == old(matches) && searched == old(searched)
      ensures selected == Some(matches[0]) && ShownLink() == Some(VotingLink(matches[0].codigo))
    {
      HandleSelect(matches[0]);
    }

    /** Line 143: choosing one of the listed matches selects it and shows its link. */
    method ChooseMatch(i: nat)
      requires Valid() && ShowsMatchList() && i < |matches|
      modifies this
      ensures Valid()
      ensures data == old(data) && nome == old(nome) && matches == old(matches) && searched == old(searched)
      ensures selected == Some(matches[i]) && ShownLink() == Some(VotingLink(matches[i].codigo))
    {
      HandleSelect(matches[i]);
    }
  }
}
