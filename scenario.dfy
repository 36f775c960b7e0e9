/**
 * A worked session of the widget over the Latin-1 tables: of four rows, the one without a
 * name is dropped and the other three are loaded; a query matching two people shows the list, choosing the second
 * shows that person's link, a query matching one person is confirmed and shows her link, and a query matching nobody shows "name not found".
 */
module Scenario {
  import opened Wrappers
  import opened Seqs
  import opened Text
  import opened SearchKey
  import opened Repair
  import Utf8
  import opened Load
  import opened Search
  import opened Latin1

  /** A row of ASCII fields is loaded as it is, with the given key. */
  lemma RepairAsciiRow(nome: string, ump: string, codigo: string, key: string)
    requires Utf8.IsAscii(nome) && Utf8.IsAscii(ump) && Utf8.IsAscii(codigo)
    requires IsKey(key) && FoldCharacters(LatinTables, nome) == key
    ensures RepairRow(LatinTables, Row(Some(nome), Some(ump), Some(codigo))) == Pessoa(nome, ump, codigo, key)
  {
    FixEncodingKeepsAscii(nome);
    FixEncodingKeepsAscii(ump);
    FixEncodingKeepsAscii(codigo);
    LatinTablesValid();
    if nome == [] {
      assert key == [];
    } else {
      NormalizeFoldsToKey(LatinTables, nome, key);
    }
  }

  /** A name without accents or symbols folds to its lower-case form. */
  lemma FoldPlain(s: string, k: string)
    requires LowerCase(LatinTables, s) == k && IsKey(k)
    ensures FoldCharacters(LatinTables, s) == k
  {
    LatinTablesValid();
    TableStepsFixKeyText(LatinTables, k);
    FoldThrough(LatinTables, s, k, k);
  }

  lemma LowerAnaSouza()
    ensures LowerCase(LatinTables, "Ana Souza") == "ana souza"
  {
  }

  lemma FoldAnaSouza()
    ensures FoldCharacters(LatinTables, "Ana Souza") == "ana souza"
  {
    LowerAnaSouza();
    AnaSouzaFacts();
    FoldPlain("Ana Souza", "ana souza");
  }

  lemma LowerAnaSilva()
    ensures LowerCase(LatinTables, "Ana Silva") == "ana silva"
  {
  }

  lemma FoldAnaSilva()
    ensures FoldCharacters(LatinTables, "Ana Silva") == "ana silva"
  {
    LowerAnaSilva();
    AnaSilvaFacts();
    FoldPlain("Ana Silva", "ana silva");
  }

  lemma LowerMaria()
    ensures LowerCase(LatinTables, "Maria") == "maria"
  {
  }

  lemma FoldMaria()
    ensures FoldCharacters(LatinTables, "Maria") == "maria"
  {
    LowerMaria();
    MariaFacts();
    FoldPlain("Maria", "maria");
  }

  const AnaSouza := Pessoa("Ana Souza", "UMP Centro", "10", "ana souza")
  const AnaSilva := Pessoa("Ana Silva", "UMP Norte", "20", "ana silva")
  const Maria := Pessoa("Maria", "UMP Sul", "5", "maria")

  lemma LoadAnaSouza()
    ensures RepairRow(LatinTables, Row(Some("Ana Souza"), Some("UMP Centro"), Some("10"))) == AnaSouza
  {
    FoldAnaSouza();
    AnaSouzaFacts();
    RepairAsciiRow("Ana Souza", "UMP Centro", "10", "ana souza");
  }

  lemma AnaSouzaFacts()
    ensures Utf8.IsAscii("Ana Souza") && Utf8.IsAscii("UMP Centro") && Utf8.IsAscii("10") && IsKey("ana souza")
  {
    assert NoDoubleSpace("ana souza");
  }

  lemma LoadAnaSilva()
    ensures RepairRow(LatinTables, Row(Some("Ana Silva"), Some("UMP Norte"), Some("20"))) == AnaSilva
  {
    FoldAnaSilva();
    AnaSilvaFacts();
    RepairAsciiRow("Ana Silva", "UMP Norte", "20", "ana silva");
  }

  lemma AnaSilvaFacts()
    ensures Utf8.IsAscii("Ana Silva") && Utf8.IsAscii("UMP Norte") && Utf8.IsAscii("20") && IsKey("ana silva")
  {
    assert NoDoubleSpace("ana silva");
  }

  lemma LoadMaria()
    ensures RepairRow(LatinTables, Row(Some("Maria"), Some("UMP Sul"), Some("5"))) == Maria
  {
    FoldMaria();
    MariaFacts();
    RepairAsciiRow("Maria", "UMP Sul", "5", "maria");
  }

  lemma MariaFacts()
    ensures Utf8.IsAscii("Maria") && Utf8.IsAscii("UMP Sul") && Utf8.IsAscii("5") && IsKey("maria")
  {
    assert NoDoubleSpace("maria");
  }

  /** Loading two rows, one at a time. */
  lemma LoadPair(t: Tables, a: Row, b: Row)
    ensures LoadRecords(t, [a, b])
      == (if RowKept(a) then [RepairRow(t, a)] else []) + (if RowKept(b) then [RepairRow(t, b)] else [])
  {
    assert [a, b] == [a] + [b];
    LoadRecordsAppend(t, [a], [b]);
    LoadRecordsSingle(t, a);
    LoadRecordsSingle(t, b);
  }

  /** Two rows of which only the first is kept. */
  lemma LoadKeptDropped(t: Tables, a: Row, b: Row)
    requires RowKept(a) && !RowKept(b)
    ensures LoadRecords(t, [a, b]) == [RepairRow(t, a)]
  {
    LoadPair(t, a, b);
  }

  /** Two rows that are both kept. */
  lemma LoadBothKept(t: Tables, a: Row, b: Row)
    requires RowKept(a) && RowKept(b)
    ensures LoadRecords(t, [a, b]) == [RepairRow(t, a), RepairRow(t, b)]
  {
    LoadPair(t, a, b);
  }

  /** Loading four rows of which the second is dropped. */
  lemma LoadFourDropSecond(t: Tables, r0: Row, r1: Row, r2: Row, r3: Row)
    requires RowKept(r0) && !RowKept(r1) && RowKept(r2) && RowKept(r3)
    ensures LoadRecords(t, [r0, r1, r2, r3]) == [RepairRow(t, r0), RepairRow(t, r2), RepairRow(t, r3)]
  {
    LoadFourSplit(t, r0, r1, r2, r3);
    LoadKeptDropped(t, r0, r1);
    LoadBothKept(t, r2, r3);
    ConcatThree(RepairRow(t, r0), RepairRow(t, r2), RepairRow(t, r3), LoadRecords(t, [r0, r1]), LoadRecords(t, [r2, r3]));
  }

  /** Four rows load as their first two followed by their last two. */
  lemma LoadFourSplit(t: Tables, r0: Row, r1: Row, r2: Row, r3: Row)
    ensures LoadRecords(t, [r0, r1, r2, r3]) == LoadRecords(t, [r0, r1]) + LoadRecords(t, [r2, r3])
  {
    assert [r0, r1, r2, r3] == [r0, r1] + [r2, r3];
    LoadRecordsAppend(t, [r0, r1], [r2, r3]);
  }

  lemma ConcatThree<T>(x: T, y: T, z: T, a: seq<T>, b: seq<T>)
    requires a == [x] && b == [y, z]
    ensures a + b == [x, y, z]
  {
  }

  /** The sample export: three people and one row without a name. */
  const SampleRows: seq<Row> := [
    Row(Some("Ana Souza"), Some("UMP Centro"), Some("10")),
    Row(None, Some("UMP Centro"), Some("30")),
    Row(Some("Ana Silva"), Some("UMP Norte"), Some("20")),
    Row(Some("Maria"), Some("UMP Sul"), Some("5"))]

  /** The row without a name is dropped; the others are loaded in order. */
  lemma LoadSample()
    ensures LoadRecords(LatinTables, SampleRows) == [AnaSouza, AnaSilva, Maria]
  {
    var r := SampleRows;
    LoadFourDropSecond(LatinTables, r[0], r[1], r[2], r[3]);
    LoadAnaSouza();
    LoadAnaSilva();
    LoadMaria();
  }

  /** Matching three records, one at a time. */
  lemma FindMatchesThree(a: Pessoa, b: Pessoa, c: Pessoa, term: string)
    ensures FindMatches([a, b, c], term)
      == (if Includes(a.norm, term) then [a] else []) + (if Includes(b.norm, term) then [b] else [])
         + (if Includes(c.norm, term) then [c] else [])
  {
    var f := (p: Pessoa) => Includes(p.norm, term);
    assert [a, b, c] == [a] + [b] + [c];
    FilterAppend(f, [a] + [b], [c]);
    FilterAppend(f, [a], [b]);
    FilterSingle(f, a);
    FilterSingle(f, b);
    FilterSingle(f, c);
  }

  /** A term found in the first two keys and not in the third keeps the first two records. */
  lemma FindFirstTwo(a: Pessoa, b: Pessoa, c: Pessoa, term: string)
    requires Includes(a.norm, term) && Includes(b.norm, term) && !Includes(c.norm, term)
    ensures FindMatches([a, b, c], term) == [a, b]
  {
    FindMatchesThree(a, b, c, term);
  }

  /** A term found in none of three keys keeps no record. */
  lemma FindNone(a: Pessoa, b: Pessoa, c: Pessoa, term: string)
    requires !Includes(a.norm, term) && !Includes(b.norm, term) && !Includes(c.norm, term)
    ensures FindMatches([a, b, c], term) == []
  {
    FindMatchesThree(a, b, c, term);
  }

  /** A term found only in the first key keeps the first record. */
  lemma FindOnlyFirst(a: Pessoa, b: Pessoa, c: Pessoa, term: string)
    requires Includes(a.norm, term) && !Includes(b.norm, term) && !Includes(c.norm, term)
    ensures FindMatches([a, b, c], term) == [a]
  {
    FindMatchesThree(a, b, c, term);
  }

  /** A term found only in the third key keeps the third record. */
  lemma FindOnlyThird(a: Pessoa, b: Pessoa, c: Pessoa, term: string)
    requires !Includes(a.norm, term) && !Includes(b.norm, term) && Includes(c.norm, term)
    ensures FindMatches([a, b, c], term) == [c]
  {
    FindMatchesThree(a, b, c, term);
  }

  /** A term that is already a key, typed without surrounding blanks, is searched as it is. */
  lemma KeyTerm(nome: string)
    requires IsKey(nome) && Trim(nome) == nome
    ensures SearchTerm(LatinTables, nome) == nome
  {
    LatinTablesValid();
    KeysAreFixedPoints(LatinTables, nome);
  }

  lemma AnaOccurrences()
    ensures Includes("ana souza", "ana") && Includes("ana silva", "ana") && !Includes("maria", "ana")
  {
    assert OccursAt("ana souza", "ana", 0);
    assert OccursAt("ana silva", "ana", 0);
    MissingCharNotIncluded("maria", "ana", 1);
  }

  lemma PedroOccurrences()
    ensures !Includes("ana souza", "pedro") && !Includes("ana silva", "pedro") && !Includes("maria", "pedro")
  {
    MissingCharNotIncluded("ana souza", "pedro", 0);
    MissingCharNotIncluded("ana silva", "pedro", 0);
    MissingCharNotIncluded("maria", "pedro", 0);
  }

  lemma AnaTerm()
    ensures SearchTerm(LatinTables, "ana") == "ana"
  {
    assert NoDoubleSpace("ana");
    TrimKey("ana");
    KeyTerm("ana");
  }

  /** A search for a term that is already its own key matches on that key. */
  lemma SearchForKey(data: seq<Pessoa>, nome: string)
    requires SearchTerm(LatinTables, nome) == nome != []
    ensures SearchResult(LatinTables, data, nome) == FindMatches(data, nome)
  {
  }

  /** "ana" finds both Anas, in the order they were loaded. */
  lemma SearchAna()
    ensures SearchResult(LatinTables, [AnaSouza, AnaSilva, Maria], "ana") == [AnaSouza, AnaSilva]
  {
    AnaTerm();
    SearchForKey([AnaSouza, AnaSilva, Maria], "ana");
    AnaOccurrences();
    FindFirstTwo(AnaSouza, AnaSilva, Maria, "ana");
  }

  lemma AnaSouzaOccurrences()
    ensures Includes("ana souza", "ana souza") && !Includes("ana silva", "ana souza") && !Includes("maria", "ana souza")
  {
    assert OccursAt("ana souza", "ana souza", 0);
    MissingCharNotIncluded("ana silva", "ana souza", 5);
    MissingCharNotIncluded("maria", "ana souza", 5);
  }

  lemma AnaSouzaTerm()
    ensures SearchTerm(LatinTables, "ana souza") == "ana souza"
  {
    AnaSouzaFacts();
    TrimKey("ana souza");
    KeyTerm("ana souza");
  }

  /** "ana souza" finds Ana Souza alone. */
  lemma SearchAnaSouza()
    ensures SearchResult(LatinTables, [AnaSouza, AnaSilva, Maria], "ana souza") == [AnaSouza]
  {
    AnaSouzaTerm();
    SearchForKey([AnaSouza, AnaSilva, Maria], "ana souza");
    AnaSouzaOccurrences();
    FindOnlyFirst(AnaSouza, AnaSilva, Maria, "ana souza");
  }

  lemma MariaOccurrences()
    ensures !Includes("ana souza", "maria") && !Includes("ana silva", "maria") && Includes("maria", "maria")
  {
    MissingCharNotIncluded("ana souza", "maria", 0);
    MissingCharNotIncluded("ana silva", "maria", 0);
    assert OccursAt("maria", "maria", 0);
  }

  lemma MariaTerm()
    ensures SearchTerm(LatinTables, "maria") == "maria"
  {
    MariaFacts();
    TrimKey("maria");
    KeyTerm("maria");
  }

  /** "maria" finds Maria alone. */
  lemma SearchMaria()
    ensures SearchResult(LatinTables, [AnaSouza, AnaSilva, Maria], "maria") == [Maria]
  {
    MariaTerm();
    SearchForKey([AnaSouza, AnaSilva, Maria], "maria");
    MariaOccurrences();
    FindOnlyThird(AnaSouza, AnaSilva, Maria, "maria");
  }

  lemma LowerPedro()
    ensures LowerCase(LatinTables, "Pedro") == "pedro"
  {
  }

  lemma FoldPedro()
    ensures FoldCharacters(LatinTables, "Pedro") == "pedro"
  {
    LowerPedro();
    PedroIsKey();
    FoldPlain("Pedro", "pedro");
  }

  lemma PedroIsKey()
    ensures IsKey("pedro")
  {
    assert NoDoubleSpace("pedro");
  }

  lemma PedroTerm()
    ensures SearchTerm(LatinTables, "Pedro") == "pedro"
  {
    FoldPedro();
    PedroIsKey();
    NormalizeFoldsToKey(LatinTables, "Pedro", "pedro");
    LatinTablesValid();
    SearchTermIgnoresTrim(LatinTables, "Pedro");
  }

  /** "Pedro" is folded to "pedro", which no record contains. */
  lemma SearchPedro()
    ensures SearchResult(LatinTables, [AnaSouza, AnaSilva, Maria], "Pedro") == []
  {
    PedroTerm();
    PedroOccurrences();
    FindNone(AnaSouza, AnaSilva, Maria, "pedro");
  }

  /** Searching "ana" shows the list of both Anas; choosing the second shows her link. */
  method SearchAnaAndChoose(app: App) returns (listShown: bool, link: Option<string>)
    requires app.Valid() && app.tables == LatinTables && app.data == [AnaSouza, AnaSilva, Maria]
    modifies app
    ensures app.Valid() && app.tables == LatinTables && app.data == [AnaSouza, AnaSilva, Maria]
    ensures listShown && link == Some(VotingLink("20"))
  {
    app.SetNome("ana");
    app.HandleSearch();
    SearchAna();
    listShown := app.ShowsMatchList();
    app.ChooseMatch(1);
    link := app.ShownLink();
  }

  /** Searching "maria" shows the single match; confirming it shows her link. */
  method SearchMariaAndConfirm(app: App) returns (singleShown: bool, link: Option<string>)
    requires app.Valid() && app.tables == LatinTables && app.data == [AnaSouza, AnaSilva, Maria]
    modifies app
    ensures app.Valid() && app.tables == LatinTables && app.data == [AnaSouza, AnaSilva, Maria]
    ensures singleShown && link == Some(VotingLink("5"))
  {
    app.SetNome("maria");
    app.HandleSearch();
    SearchMaria();
    singleShown := app.ShowsSingleMatch();
    app.ConfirmSingleMatch();
    link := app.ShownLink();
  }

  /** Searching "Pedro" shows "name not found" and no link. */
  method SearchPedroNotFound(app: App) returns (notFound: bool, link: Option<string>)
    requires app.Valid() && app.tables == LatinTables && app.data == [AnaSouza, AnaSilva, Maria]
    modifies app
    ensures app.Valid() && app.tables == LatinTables && app.data == [AnaSouza, AnaSilva, Maria]
    ensures notFound && link == None
  {
    app.SetNome("Pedro");
    app.HandleSearch();
    SearchPedro();
    assert !IsJsSpace("Pedro"[0]);
    notFound := app.ShowsNotFound();
    link := app.ShownLink();
  }

  /**
   * A session: load the sample, search "ana" and see the list, choose the second entry and
   * see its link; then search "maria", see the single match, confirm it and see its link; then search "Pedro" and see "name not found" and no link; then clear the input, search,
   * and see no message.
   */
  method Session() returns (listShown: bool, link: Option<string>, notFound: bool, linkAfterMiss: Option<string>,
                            singleShown: bool, singleLink: Option<string>, blankNotFound: bool)
    ensures listShown && link == Some(VotingLink("20"))
    ensures singleShown && singleLink == Some(VotingLink("5"))
    ensures notFound && linkAfterMiss == None
    ensures !blankNotFound
  {
    LatinTablesValid();
    var app := new App(LatinTables);
    app.SetData(SampleRows);
    LoadSample();
    listShown, link := SearchAnaAndChoose(app);
    singleShown, singleLink := SearchMariaAndConfirm(app);
    notFound, linkAfterMiss := SearchPedroNotFound(app);
    app.SetNome("");
    app.HandleSearch();
    blankNotFound := app.ShowsNotFound();
  }
}
