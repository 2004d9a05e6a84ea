/**
 * lookup: every code the user entered, in order, is looked up in the key
 * column of the loaded table that the chosen direction names. A code that
 * matches no row gives one "NÃO ENCONTRADO" record; a code that matches
 * gives one record per matching row, in table order.
 */
module Lookup {
  import opened Wrappers
  import opened Codes
  import opened Frames

  /** The radio option that selects CIAP to CID; every other value means CID to CIAP. */
  const CIAP_TO_CID := "CIAP \U{2192} CID"

  /** The sentinel Resultado of a code without matches. */
  const NOT_FOUND := "N\U{00C3}O ENCONTRADO"

  datatype Mode = CiapToCid | CidToCiap

  /** The test `mode == "CIAP → CID"`: anything else takes the CID → CIAP branch. */
  function ParseMode(mode: string): (m: Mode)
    ensures m == CiapToCid <==> mode == CIAP_TO_CID
  {
    if mode == CIAP_TO_CID then CiapToCid else CidToCiap
  }

  /** One line of the result table, with its columns in the order lookup creates them. */
  datatype Record = Record(
    entrada: string,
    tipo: string,
    resultado: string,
    ciap: string,
    descricaoCiap: string,
    cid10: string,
    descricaoCid: string)

  /** The key column a direction searches. */
  function KeyColumn(m: Mode): string
  {
    if m == CiapToCid then CIAP_N else CID10_N
  }

  /** The Tipo a direction writes. */
  function Tipo(m: Mode): string
  {
    if m == CiapToCid then "CIAP" else "CID"
  }

  /** Every row carries the columns lookup reads. */
  predicate HasLookupColumns(rows: seq<Row>)
  {
    forall i | 0 <= i < |rows| :: LOOKUP_COLUMNS <= rows[i].Keys
  }

  /**
   * The row positions df.loc[df[column] == c] selects: exactly the rows whose
   * cell equals c, each once, in table order.
   */
  function Hits(rows: seq<Row>, column: string, c: string): (hits: seq<nat>)
    requires forall i | 0 <= i < |rows| :: column in rows[i]
    ensures forall k | 0 <= k < |hits| :: hits[k] < |rows| && rows[hits[k]][column] == c
    ensures forall k, l | 0 <= k < l < |hits| :: hits[k] < hits[l]
    ensures forall i | 0 <= i < |rows| && rows[i][column] == c :: i in hits
  {
    if rows == [] then []
    else
      var front := Hits(rows[..|rows| - 1], column, c);
      if rows[|rows| - 1][column] == c then front + [|rows| - 1] else front
  }

  /** The record for a code without matches: the code is echoed in its own slot. */
  function NotFound(m: Mode, c: string): (r: Record)
    ensures r.entrada == c && r.tipo == Tipo(m) && r.resultado == NOT_FOUND
    ensures (if m == CiapToCid then r.ciap else r.cid10) == c
    ensures (if m == CiapToCid then r.cid10 else r.ciap) == [] && r.descricaoCiap == [] && r.descricaoCid == []
  {
    Record(c, Tipo(m), NOT_FOUND,
      if m == CiapToCid then c else "", "",
      if m == CidToCiap then c else "", "")
  }

  /** The record for a matching row: its original cells, and the other code as Resultado. */
  function Found(m: Mode, c: string, row: Row): (r: Record)
    requires LOOKUP_COLUMNS <= row.Keys
    ensures r.entrada == c && r.tipo == Tipo(m)
    ensures r.ciap == row[CIAP] && r.descricaoCiap == row[DESCRICAO_CIAP]
    ensures r.cid10 == row[CID10] && r.descricaoCid == row[DESCRICAO_CID]
    ensures r.resultado == (if m == CiapToCid then r.cid10 else r.ciap)
  {
    Record(c, Tipo(m), if m == CiapToCid then row[CID10] else row[CIAP],
      row[CIAP], row[DESCRICAO_CIAP], row[CID10], row[DESCRICAO_CID])
  }

  /** The records of the matching rows at the given positions, in that order. */
  function FoundAll(rows: seq<Row>, m: Mode, c: string, hits: seq<nat>): (records: seq<Record>)
    requires HasLookupColumns(rows)
    requires forall k | 0 <= k < |hits| :: hits[k] < |rows|
    ensures |records| == |hits|
    ensures forall k | 0 <= k < |hits| :: records[k] == Found(m, c, rows[hits[k]])
  {
    if hits == [] then []
    else FoundAll(rows, m, c, hits[..|hits| - 1]) + [Found(m, c, rows[hits[|hits| - 1]])]
  }

  lemma FoundAllStep(rows: seq<Row>, m: Mode, c: string, hits: seq<nat>, k: nat)
    requires HasLookupColumns(rows) && k < |hits|
    requires forall l | 0 <= l < |hits| :: hits[l] < |rows|
    ensures FoundAll(rows, m, c, hits[..k + 1]) == FoundAll(rows, m, c, hits[..k]) + [Found(m, c, rows[hits[k]])]
  {
    assert hits[..k + 1][..k] == hits[..k];
  }

  /** The records one code contributes. */
  function RecordsFor(rows: seq<Row>, m: Mode, c: string): (records: seq<Record>)
    requires HasLookupColumns(rows)
    ensures records != []
    ensures forall k | 0 <= k < |records| :: records[k].entrada == c && records[k].tipo == Tipo(m)
  {
    var hits := Hits(rows, KeyColumn(m), c);
    if hits == [] then [NotFound(m, c)] else FoundAll(rows, m, c, hits)
  }

  /** RecordsFor on a fixed table and direction, as a function of the code. */
  function RecordsOf(rows: seq<Row>, m: Mode): string -> seq<Record>
    requires HasLookupColumns(rows)
  {
    c => RecordsFor(rows, m, c)
  }

  /** The records of every code, one code after the other. */
  function ConcatMap(f: string -> seq<Record>, codes: seq<string>): seq<Record>
  {
    if codes == [] then [] else ConcatMap(f, codes[..|codes| - 1]) + f(codes[|codes| - 1])
  }

  /** The result of lookup: the records of each code, one code after the other. */
  function LookupSpec(rows: seq<Row>, m: Mode, codes: seq<string>): (results: seq<Record>)
    requires HasLookupColumns(rows)
    ensures codes == [] ==> results == []
    ensures |results| >= |codes|
  {
    var f := RecordsOf(rows, m);
    assert forall c :: f(c) != [] by {
      forall c ensures f(c) != [] {
        assert f(c) == RecordsFor(rows, m, c);
      }
    }
    ConcatMapLength(f, codes);
    ConcatMap(f, codes)
  }

  /** Every code contributes at least one record, so there are at least as many records as codes. */
  lemma {:induction false} ConcatMapLength(f: string -> seq<Record>, codes: seq<string>)
    requires forall c :: f(c) != []
    ensures |ConcatMap(f, codes)| >= |codes|
    decreases |codes|
  {
    if codes != [] {
      ConcatMapLength(f, codes[..|codes| - 1]);
    }
  }

  lemma LoadedRowsHaveLookupColumns(df: DataFrame)
    requires df.IsLoaded()
    ensures HasLookupColumns(df.rows)
  {
  }

  /**
   * lookup. The source writes the two directions as two copies of the same
   * loop that differ only in the key column, the Tipo, the slot the code is
   * echoed in and the cell given as Resultado (CID10 or CIAP); here the
   * copies are one loop over KeyColumn(m).
   * The table is only read.
   */
  method Lookup(df: DataFrame, mode: string, codes: seq<string>) returns (results: seq<Record>)
    requires df.IsLoaded()
    ensures HasLookupColumns(df.rows)
    ensures results == LookupSpec(df.rows, ParseMode(mode), codes)
  {
    var rows := df.rows;
    LoadedRowsHaveLookupColumns(df);
    var m := ParseMode(mode);
    results := [];
    for j := 0 to |codes|
      invariant results == LookupSpec(rows, m, codes[..j])
    {
      results := AppendRecords(results, rows, m, codes[j]);
      LookupStep(rows, m, codes, j);
    }
    assert codes[..|codes|] == codes;
  }

  /**
   * One pass of the outer loop: select the rows holding c and append one
   * record per selected row, or the not-found record when there is none.
   */
  method AppendRecords(results: seq<Record>, rows: seq<Row>, m: Mode, c: string) returns (out: seq<Record>)
    requires HasLookupColumns(rows)
    ensures out == results + RecordsFor(rows, m, c)
  {
    var hit := Hits(rows, KeyColumn(m), c);
    if hit == [] {
      out := results + [NotFound(m, c)];
    } else {
      out := AppendFound(results, rows, m, c, hit);
    }
  }

  /** The inner loop: one record per selected row, in the order of the selection. */
  method AppendFound(results: seq<Record>, rows: seq<Row>, m: Mode, c: string, hits: seq<nat>)
    returns (out: seq<Record>)
    requires HasLookupColumns(rows)
    requires forall k | 0 <= k < |hits| :: hits[k] < |rows|
    ensures out == results + FoundAll(rows, m, c, hits)
  {
    var found := [];
    for k := 0 to |hits|
      invariant found == FoundAll(rows, m, c, hits[..k])
    {
      found := found + [Found(m, c, rows[hits[k]])];
      FoundAllStep(rows, m, c, hits, k);
    }
    out := results + found;
    assert hits[..|hits|] == hits;
  }

  /** The positions of the rows that hold c in the given column. */
  function MatchingRows(rows: seq<Row>, column: string, c: string): set<nat>
    requires forall i | 0 <= i < |rows| :: column in rows[i]
  {
    set i: nat | i < |rows| && rows[i][column] == c
  }

  /** The number of records a code contributes: its matches, or one when there are none. */
  function RecordCount(rows: seq<Row>, m: Mode, c: string): nat
    requires HasLookupColumns(rows)
  {
    var n := |MatchingRows(rows, KeyColumn(m), c)|;
    if n == 0 then 1 else n
  }

  /** The number of records for a list of codes: the sum of their counts. */
  function TotalCount(rows: seq<Row>, m: Mode, codes: seq<string>): nat
    requires HasLookupColumns(rows)
  {
    if codes == [] then 0 else RecordCount(rows, m, codes[0]) + TotalCount(rows, m, codes[1..])
  }

  /** The positions Hits lists are exactly the matching rows, so there are as many. */
  lemma {:induction false} HitsCount(rows: seq<Row>, column: string, c: string)
    requires forall i | 0 <= i < |rows| :: column in rows[i]
    ensures |Hits(rows, column, c)| == |MatchingRows(rows, column, c)|
  {
    var hits := Hits(rows, column, c);
    assert MatchingRows(rows, column, c) == Elements(hits);
    IncreasingElements(hits);
  }

  function Elements(s: seq<nat>): set<nat>
  {
    set k | 0 <= k < |s| :: s[k]
  }

  /** A strictly increasing sequence repeats nothing. */
  lemma {:induction false} IncreasingElements(s: seq<nat>)
    requires forall k, l | 0 <= k < l < |s| :: s[k] < s[l]
    ensures |Elements(s)| == |s|
  {
    if s != [] {
      var front := s[..|s| - 1];
      IncreasingElements(front);
      assert Elements(s) == Elements(front) + {s[|s| - 1]};
      assert s[|s| - 1] !in Elements(front);
    }
  }

  lemma {:induction false} ConcatMapAppend(f: string -> seq<Record>, a: seq<string>, b: seq<string>)
    ensures ConcatMap(f, a + b) == ConcatMap(f, a) + ConcatMap(f, b)
    decreases |b|
  {
    if b == [] {
      assert a + b == a;
    } else {
      var front := b[..|b| - 1];
      calc {
        ConcatMap(f, a + b);
        { assert (a + b)[..|a + b| - 1] == a + front; }
        ConcatMap(f, a + front) + f(b[|b| - 1]);
        { ConcatMapAppend(f, a, front); }
        ConcatMap(f, a) + ConcatMap(f, front) + f(b[|b| - 1]);
      }
    }
  }

  /** Looking up a list of codes is looking up its two halves one after the other. */
  lemma LookupAppend(rows: seq<Row>, m: Mode, a: seq<string>, b: seq<string>)
    requires HasLookupColumns(rows)
    ensures LookupSpec(rows, m, a + b) == LookupSpec(rows, m, a) + LookupSpec(rows, m, b)
  {
    ConcatMapAppend(RecordsOf(rows, m), a, b);
  }

  /** The records of codes[..j + 1] are those of codes[..j] and then those of codes[j]. */
  lemma LookupStep(rows: seq<Row>, m: Mode, codes: seq<string>, j: nat)
    requires HasLookupColumns(rows) && j < |codes|
    ensures LookupSpec(rows, m, codes[..j + 1]) == LookupSpec(rows, m, codes[..j]) + RecordsFor(rows, m, codes[j])
  {
    assert codes[..j + 1] == codes[..j] + [codes[j]];
    LookupAppend(rows, m, codes[..j], [codes[j]]);
    LookupSingle(rows, m, codes[j]);
  }

  /** A single code gives exactly its own records. */
  lemma LookupSingle(rows: seq<Row>, m: Mode, c: string)
    requires HasLookupColumns(rows)
    ensures LookupSpec(rows, m, [c]) == RecordsFor(rows, m, c)
  {
    var f := RecordsOf(rows, m);
    assert [c][..0] == [];
    assert ConcatMap(f, [c]) == ConcatMap(f, []) + f(c);
    assert f(c) == RecordsFor(rows, m, c);
  }

  /**
   * Each code contributes its own group, in input order: the records of
   * codes[j] follow those of codes[..j], and a repeated code is looked up
   * again.
   */
  lemma {:induction false} LookupGroups(rows: seq<Row>, m: Mode, codes: seq<string>, j: nat)
    requires HasLookupColumns(rows) && j < |codes|
    ensures LookupSpec(rows, m, codes) ==
      LookupSpec(rows, m, codes[..j]) + RecordsFor(rows, m, codes[j]) + LookupSpec(rows, m, codes[j + 1..])
  {
    assert codes == codes[..j] + [codes[j]] + codes[j + 1..];
    LookupAppend(rows, m, codes[..j] + [codes[j]], codes[j + 1..]);
    LookupAppend(rows, m, codes[..j], [codes[j]]);
    LookupSingle(rows, m, codes[j]);
  }

  /**
   * The result has one record per match of every code, and one for every
   * code without a match; no codes give no records.
   */
  lemma {:induction false} LookupLength(rows: seq<Row>, m: Mode, codes: seq<string>)
    requires HasLookupColumns(rows)
    ensures |LookupSpec(rows, m, codes)| == TotalCount(rows, m, codes)
    decreases |codes|
  {
    if codes != [] {
      LookupAppend(rows, m, [codes[0]], codes[1..]);
      assert [codes[0]] + codes[1..] == codes;
      LookupSingle(rows, m, codes[0]);
      HitsCount(rows, KeyColumn(m), codes[0]);
      LookupLength(rows, m, codes[1..]);
    }
  }

  /**
   * A code that no row holds in the searched key column gives exactly one
   * record: the sentinel, with the code echoed in the slot of its own kind
   * and every other code and description empty.
   */
  lemma LookupUnmatched(rows: seq<Row>, m: Mode, c: string)
    requires HasLookupColumns(rows)
    requires forall i | 0 <= i < |rows| :: rows[i][KeyColumn(m)] != c
    ensures |LookupSpec(rows, m, [c])| == 1
    ensures var r := LookupSpec(rows, m, [c])[0];
      && r.entrada == c && r.resultado == NOT_FOUND
      && r.tipo == (if m == CiapToCid then "CIAP" else "CID")
      && r.ciap == (if m == CiapToCid then c else [])
      && r.cid10 == (if m == CidToCiap then c else [])
      && r.descricaoCiap == [] && r.descricaoCid == []
  {
    LookupSingle(rows, m, c);
  }

  /**
   * A code that k >= 1 rows hold gives exactly k records, one per matching
   * row; Hits lists those rows in table order.
   */
  lemma LookupMatchCount(rows: seq<Row>, m: Mode, c: string, i: nat)
    requires HasLookupColumns(rows)
    requires i < |rows| && rows[i][KeyColumn(m)] == c
    ensures |LookupSpec(rows, m, [c])| == |Hits(rows, KeyColumn(m), c)| == |MatchingRows(rows, KeyColumn(m), c)|
  {
    calc {
      |LookupSpec(rows, m, [c])|;
      { LookupSingle(rows, m, c); }
      |RecordsFor(rows, m, c)|;
      { MatchedRecordsCount(rows, m, c, i); }
      |Hits(rows, KeyColumn(m), c)|;
    }
    HitsCount(rows, KeyColumn(m), c);
  }

  lemma MatchedRecordsCount(rows: seq<Row>, m: Mode, c: string, i: nat)
    requires HasLookupColumns(rows)
    requires i < |rows| && rows[i][KeyColumn(m)] == c
    ensures |RecordsFor(rows, m, c)| == |Hits(rows, KeyColumn(m), c)|
  {
    var hits := Hits(rows, KeyColumn(m), c);
    assert i in hits;
    assert RecordsFor(rows, m, c) == FoundAll(rows, m, c, hits);
  }

  /**
   * The k-th record of a code with matches comes from its k-th matching
   * row: it copies the row's original cells and gives the other code of the
   * pair as Resultado.
   */
  lemma LookupMatchedRecord(rows: seq<Row>, m: Mode, c: string, k: nat)
    requires HasLookupColumns(rows)
    requires k < |Hits(rows, KeyColumn(m), c)|
    ensures var records, row := LookupSpec(rows, m, [c]), rows[Hits(rows, KeyColumn(m), c)[k]];
      && k < |records|
      && row[KeyColumn(m)] == c
      && records[k].entrada == c
      && records[k].tipo == (if m == CiapToCid then "CIAP" else "CID")
      && records[k].resultado == (if m == CiapToCid then row[CID10] else row[CIAP])
      && records[k].ciap == row[CIAP] && records[k].descricaoCiap == row[DESCRICAO_CIAP]
      && records[k].cid10 == row[CID10] && records[k].descricaoCid == row[DESCRICAO_CID]
  {
    LookupSingle(rows, m, c);
  }

  /** The column holding the original code a direction starts from. */
  function CodeColumn(m: Mode): string
  {
    if m == CiapToCid then CIAP else CID10
  }

  /**
   * On a table load_base has keyed, a row matches a code exactly when the
   * row's own code normalizes to it, whatever its case and spacing.
   */
  lemma KeyedHits(rows: seq<Row>, m: Mode, c: string, i: nat)
    requires HasLookupColumns(rows) && forall j | 0 <= j < |rows| :: IsKeyed(rows[j])
    requires i < |rows|
    ensures i in Hits(rows, KeyColumn(m), c) <==> NormalizeCode(Some(rows[i][CodeColumn(m)])) == c
  {
  }
}
