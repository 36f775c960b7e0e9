/**
 * The load effect of src/App.tsx after the CSV has been parsed: every row has its three
 * fields repaired and gets its search key, then rows without a name or a code are dropped.
 */
module Load {
  import opened Wrappers
  import opened Seqs
  import opened Text
  import opened SearchKey
  import opened Repair

  /** A parsed CSV row: a field is None when the row has no value under that header. */
  datatype Row = Row(nome: Option<string>, ump: Option<string>, codigo: Option<string>)

  /** `Pessoa`: one registered person, with `norm` the cached search key (`_norm`). */
  datatype Pessoa = Pessoa(nome: string, ump: string, codigo: string, norm: string)

  /** What every loaded record satisfies. */
  predicate WellFormed(t: Tables, p: Pessoa)
  {
    p.nome != [] && p.codigo != [] && p.norm == Normalize(t, Some(p.nome))
  }

  /** Every record of `data` is well formed. */
  ghost predicate Loaded(t: Tables, data: seq<Pessoa>)
  {
    forall i :: 0 <= i < |data| ==> WellFormed(t, data[i])
  }

  /** The `.map(...)` step: repair all three fields and cache the key of the repaired name. */
  function RepairRow(t: Tables, row: Row): (p: Pessoa)
    ensures p.nome == FixEncoding(row.nome) && p.ump == FixEncoding(row.ump) && p.codigo == FixEncoding(row.codigo)
    ensures p.norm == Normalize(t, Some(p.nome))
    ensures p.nome != [] <==> row.nome.Some? && row.nome.value != []
    ensures p.codigo != [] <==> row.codigo.Some? && row.codigo.value != []
  {
    var nome := FixEncoding(row.nome);
    Pessoa(nome, FixEncoding(row.ump), FixEncoding(row.codigo), Normalize(t, Some(nome)))
  }

  /** The `.filter(...)` step: both the name and the code are non-empty strings. */
  predicate HasNameAndCode(p: Pessoa)
  {
    p.nome != [] && p.codigo != []
  }

  /** A row is kept exactly when its raw name and code are present and non-empty. */
  predicate RowKept(row: Row)
  {
    row.nome.Some? && row.nome.value != [] && row.codigo.Some? && row.codigo.value != []
  }

  /** The records the widget searches, built from the parsed rows. */
  function LoadRecords(t: Tables, rows: seq<Row>): (data: seq<Pessoa>)
    ensures forall i :: 0 <= i < |data| ==> WellFormed(t, data[i])
  {
    var m := Map((row: Row) => RepairRow(t, row), rows);
    KeptRecordsWellFormed(t, m);
    Filter(HasNameAndCode, m)
  }

  /** The records that pass the filter, out of records carrying their keys, are well formed. */
  lemma KeptRecordsWellFormed(t: Tables, m: seq<Pessoa>)
    requires forall j :: 0 <= j < |m| ==> m[j].norm == Normalize(t, Some(m[j].nome))
    ensures forall i :: 0 <= i < |Filter(HasNameAndCode, m)| ==> WellFormed(t, Filter(HasNameAndCode, m)[i])
  {
    var r := Filter(HasNameAndCode, m);
    forall i | 0 <= i < |r| ensures WellFormed(t, r[i]) {
      FilterMembership(HasNameAndCode, m, r[i]);
    }
  }

  /** Exactly the repaired kept rows are loaded. */
  lemma LoadRecordsMembership(t: Tables, rows: seq<Row>, p: Pessoa)
    ensures p in LoadRecords(t, rows) <==> exists i :: 0 <= i < |rows| && RowKept(rows[i]) && p == RepairRow(t, rows[i])
  {
    var f := (row: Row) => RepairRow(t, row);
    MapFilterMembership(f, HasNameAndCode, rows, p);
    forall i | 0 <= i < |rows| ensures HasNameAndCode(f(rows[i])) <==> RowKept(rows[i]) {
    }
  }

  /** Loading keeps the row order: it commutes with splitting the rows. */
  lemma LoadRecordsAppend(t: Tables, a: seq<Row>, b: seq<Row>)
    ensures LoadRecords(t, a + b) == LoadRecords(t, a) + LoadRecords(t, b)
  {
    var f := (row: Row) => RepairRow(t, row);
    MapAppend(f, a, b);
    FilterAppend(HasNameAndCode, Map(f, a), Map(f, b));
  }

  /** One row loads to its repaired record when kept, to nothing otherwise. */
  lemma LoadRecordsSingle(t: Tables, row: Row)
    ensures LoadRecords(t, [row]) == if RowKept(row) then [RepairRow(t, row)] else []
  {
    var f := (row: Row) => RepairRow(t, row);
    assert Map(f, [row]) == [RepairRow(t, row)];
  }

  /**
   * `transformHeader`: the garbled `Código` is repaired at its first occurrence; the
   * `Nome` and `UMP` replacements change nothing.
   */
  function TransformHeader(h: string): (r: string)
    ensures r == ReplaceFirst(h, "CÃ³digo", "Código")
    ensures (forall j :: !OccursAt(h, "CÃ³digo", j)) ==> r == h
  {
    ReplaceFirstSame(h, "Nome");
    ReplaceFirstSame(ReplaceFirst(h, "CÃ³digo", "Código"), "Nome");
    ReplaceFirstSame(ReplaceFirst(ReplaceFirst(h, "CÃ³digo", "Código"), "Nome", "Nome"), "UMP");
    ReplaceFirst(ReplaceFirst(ReplaceFirst(h, "CÃ³digo", "Código"), "Nome", "Nome"), "UMP", "UMP")
  }

  /** The garbled header becomes `Código`. */
  lemma TransformHeaderRepairs()
    ensures TransformHeader("CÃ³digo") == "Código"
  {
    assert FirstOccurrence("CÃ³digo", "CÃ³digo", 0);
  }

  /**
   * The garbled header is the UTF-8 bytes of `Código` read one per character, which is
   * what `fixEncoding` undoes.
   */
  lemma GarbledHeaderIsLatin1Reading()
    ensures FixEncoding(Some("CÃ³digo")) == "Código"
  {
    var d := "Código";
    assert Utf8.Encode(d) == [0x43, 0xC3, 0xB3, 0x64, 0x69, 0x67, 0x6F] by {
      assert d == "C" + "ó" + "digo";
      Seqs.FlatMapAppend(Utf8.EncodeChar, "C" + "ó", "digo");
      Seqs.FlatMapAppend(Utf8.EncodeChar, "C", "ó");
      Utf8.EncodeAscii("digo");
    }
    assert Latin1Decode(Utf8.Encode(d)) == "CÃ³digo";
    FixEncodingRepairs(d);
  }
}
