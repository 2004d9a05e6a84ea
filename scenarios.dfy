/**
 * A worked lookup on a two-row table, in the CIAP to CID direction: one
 * code per row that matches, one code that matches nothing, and a code
 * entered twice; and the same codes typed as free text, split and
 * normalized first.
 */
module Scenarios {
  import opened Wrappers
  import opened Codes
  import opened SplitInput
  import opened Frames
  import opened Lookup

  /** A loaded row whose codes are already keys. */
  function KeyedRow(ciap: string, descricaoCiap: string, cid: string, descricaoCid: string): (row: Row)
    ensures LOOKUP_COLUMNS <= row.Keys
    ensures row[CIAP_N] == row[CIAP] == ciap && row[CID10_N] == row[CID10] == cid
  {
    ColumnNamesDistinct();
    map[CIAP := ciap, DESCRICAO_CIAP := descricaoCiap, CID10 := cid, DESCRICAO_CID := descricaoCid,
        CIAP_N := ciap, CID10_N := cid]
  }

  function Table(): (rows: seq<Row>)
    ensures HasLookupColumns(rows)
  {
    [KeyedRow("A01", "Diarreia", "A09", "Gastroenterite"),
     KeyedRow("K86", "Pancreas", "K86", "Doenca do pancreas")]
  }

  lemma TableHits()
    ensures Hits(Table(), CIAP_N, "A01") == [0]
    ensures Hits(Table(), CIAP_N, "K86") == [1]
    ensures Hits(Table(), CIAP_N, "Z99") == []
  {
    var rows := Table();
    assert rows[..1][..0] == [];
    assert rows[..1] == [rows[0]];
  }

  lemma TableRecords()
    ensures var a01 := RecordsFor(Table(), CiapToCid, "A01");
      |a01| == 1 && a01[0].resultado == "A09" && a01[0].descricaoCid == "Gastroenterite"
    ensures var k86 := RecordsFor(Table(), CiapToCid, "K86");
      |k86| == 1 && k86[0].resultado == "K86"
    ensures RecordsFor(Table(), CiapToCid, "Z99") == [NotFound(CiapToCid, "Z99")]
  {
    TableHits();
  }

  /** Two codes give the records of each, one after the other. */
  lemma LookupTwo(rows: seq<Row>, m: Mode, c1: string, c2: string)
    requires HasLookupColumns(rows)
    ensures LookupSpec(rows, m, [c1, c2]) == RecordsFor(rows, m, c1) + RecordsFor(rows, m, c2)
  {
    LookupAppend(rows, m, [c1], [c2]);
    LookupSingle(rows, m, c1);
    LookupSingle(rows, m, c2);
    assert [c1] + [c2] == [c1, c2];
  }

  /** Three codes give the records of each, one after the other. */
  lemma LookupThree(rows: seq<Row>, m: Mode, c1: string, c2: string, c3: string)
    requires HasLookupColumns(rows)
    ensures LookupSpec(rows, m, [c1, c2, c3]) ==
      RecordsFor(rows, m, c1) + RecordsFor(rows, m, c2) + RecordsFor(rows, m, c3)
  {
    LookupAppend(rows, m, [c1, c2], [c3]);
    LookupTwo(rows, m, c1, c2);
    LookupSingle(rows, m, c3);
    assert [c1, c2] + [c3] == [c1, c2, c3];
  }

  /** A01 resolves to A09, K86 to K86, and Z99 to the sentinel. */
  lemma LookupExample()
    ensures var r := LookupSpec(Table(), CiapToCid, ["A01", "K86", "Z99"]);
      && |r| == 3
      && r[0].entrada == "A01" && r[0].resultado == "A09"
      && r[1].entrada == "K86" && r[1].resultado == "K86"
      && r[2].entrada == "Z99" && r[2].resultado == NOT_FOUND && r[2].ciap == "Z99"
  {
    TableRecords();
    ThreeSingleRecords(Table(), CiapToCid, "A01", "K86", "Z99");
  }

  /** Three codes with one record each give those three records, in order. */
  lemma ThreeSingleRecords(rows: seq<Row>, m: Mode, c1: string, c2: string, c3: string)
    requires HasLookupColumns(rows)
    requires |RecordsFor(rows, m, c1)| == 1 && |RecordsFor(rows, m, c2)| == 1 && |RecordsFor(rows, m, c3)| == 1
    ensures LookupSpec(rows, m, [c1, c2, c3]) ==
      [RecordsFor(rows, m, c1)[0], RecordsFor(rows, m, c2)[0], RecordsFor(rows, m, c3)[0]]
  {
    LookupThree(rows, m, c1, c2, c3);
    Singletons(RecordsFor(rows, m, c1), RecordsFor(rows, m, c2), RecordsFor(rows, m, c3));
  }

  lemma Singletons(r1: seq<Record>, r2: seq<Record>, r3: seq<Record>)
    requires |r1| == 1 && |r2| == 1 && |r3| == 1
    ensures r1 + r2 + r3 == [r1[0], r2[0], r3[0]]
  {
  }

  /** A01 entered twice gives two records, both resolving to A09. */
  lemma DuplicateExample()
    ensures var r := LookupSpec(Table(), CiapToCid, ["A01", "A01"]);
      |r| == 2 && r[0].resultado == "A09" && r[1].resultado == "A09"
  {
    TableRecords();
    LookupTwo(Table(), CiapToCid, "A01", "A01");
  }

  /** A row built from codes that are their own keys is the row load_base gives the file's row. */
  lemma KeyedRowIsKeyed(ciap: string, descricaoCiap: string, cid: string, descricaoCid: string)
    requires NormalizeCode(Some(ciap)) == ciap && NormalizeCode(Some(cid)) == cid
    ensures IsKeyed(KeyedRow(ciap, descricaoCiap, cid, descricaoCid))
    ensures KeyedRow(ciap, descricaoCiap, cid, descricaoCid) ==
      LoadedRow(map[CIAP := ciap, DESCRICAO_CIAP := descricaoCiap, CID10 := cid, DESCRICAO_CID := descricaoCid])
  {
    var file := map[CIAP := ciap, DESCRICAO_CIAP := descricaoCiap, CID10 := cid, DESCRICAO_CID := descricaoCid];
    ColumnNamesDistinct();
    LoadedRowCells(file);
    var row, loaded := KeyedRow(ciap, descricaoCiap, cid, descricaoCid), LoadedRow(file);
    assert loaded.Keys == row.Keys;
    assert forall col | col in row :: loaded[col] == row[col];
  }

  /** Every row of the table holds the keys load_base would give its codes. */
  lemma TableKeyed()
    ensures forall i | 0 <= i < |Table()| :: IsKeyed(Table()[i])
  {
    CiapShapedKey('A', '0', '1');
    CiapShapedKey('A', '0', '9');
    CiapShapedKey('K', '8', '6');
    KeyedRowIsKeyed("A01", "Diarreia", "A09", "Gastroenterite");
    KeyedRowIsKeyed("K86", "Pancreas", "K86", "Doenca do pancreas");
    BothKeyed(KeyedRow("A01", "Diarreia", "A09", "Gastroenterite"),
              KeyedRow("K86", "Pancreas", "K86", "Doenca do pancreas"));
  }

  lemma BothKeyed(r0: Row, r1: Row)
    requires IsKeyed(r0) && IsKeyed(r1)
    ensures forall i | 0 <= i < |[r0, r1]| :: IsKeyed([r0, r1][i])
  {
  }

  /** Text in three parts joined by two separators splits as its three parts do, in order. */
  lemma SplitThree(x: string, y: string, z: string, s1: char, s2: char)
    requires IsSeparator(s1) && IsSeparator(s2)
    ensures SplitInputs(x + [s1] + (y + [s2] + z)) == SplitInputs(x) + SplitInputs(y) + SplitInputs(z)
  {
    SplitInputsAtSeparator(x, s1, y + [s2] + z);
    SplitInputsAtSeparator(y, s2, z);
  }

  /** A code typed after a space loses the space. */
  lemma LeadingSpaceCode(x: char, y: char, z: char)
    requires 'A' <= x <= 'Z' && '0' <= y <= '9' && '0' <= z <= '9'
    ensures NormalizeCode(Some([' ', x, y, z])) == [x, y, z]
  {
    assert [' '] + [x, y, z] == [' ', x, y, z];
    NormalizeIgnoresLeadingSpace([x, y, z]);
    CiapShapedKey(x, y, z);
  }

  /** A code typed in lower case is upper-cased. */
  lemma LowerCaseCode(x: char, y: char, z: char)
    requires 'a' <= x <= 'z' && '0' <= y <= '9' && '0' <= z <= '9'
    ensures NormalizeCode(Some([x, y, z])) == [(x as int - 32) as char, y, z]
  {
    NormalizeIgnoresCase([x, y, z]);
    UpperFirst(x, y, z);
    CiapShapedKey((x as int - 32) as char, y, z);
  }

  /** Text without separators whose key is not empty gives exactly that key. */
  lemma SingleCode(text: string, key: string)
    requires SeparatorFree(text) && NormalizeCode(Some(text)) == key && key != []
    ensures SplitInputs(text) == [key]
  {
    SplitInputsSingleFragment(text);
  }

  /**
   * Three CIAP2-shaped codes typed as "a01<newline>K86, Z99": the first in
   * lower case, the third after a space.
   */
  lemma TypedCodes(a: char, a1: char, a2: char, k: char, k1: char, k2: char, z: char, z1: char, z2: char)
    requires 'a' <= a <= 'z' && '0' <= a1 <= '9' && '0' <= a2 <= '9'
    requires 'A' <= k <= 'Z' && '0' <= k1 <= '9' && '0' <= k2 <= '9'
    requires 'A' <= z <= 'Z' && '0' <= z1 <= '9' && '0' <= z2 <= '9'
    ensures SplitInputs([a, a1, a2, '\n', k, k1, k2, ',', ' ', z, z1, z2]) ==
      [[(a as int - 32) as char, a1, a2], [k, k1, k2], [z, z1, z2]]
  {
    var x, y, w := [a, a1, a2], [k, k1, k2], [' ', z, z1, z2];
    var kx, kw := [(a as int - 32) as char, a1, a2], [z, z1, z2];
    var text := [a, a1, a2, '\n', k, k1, k2, ',', ' ', z, z1, z2];
    assert text == x + ['\n'] + (y + [','] + w);
    assert [kx] + [y] + [kw] == [kx, y, kw];
    assert SeparatorFree(x) && SeparatorFree(y) && SeparatorFree(w);
    calc {
      SplitInputs(text);
      { SplitThree(x, y, w, '\n', ','); }
      SplitInputs(x) + SplitInputs(y) + SplitInputs(w);
      { LowerCaseCode(a, a1, a2); SingleCode(x, kx);
        CiapShapedKey(k, k1, k2); SingleCode(y, y);
        LeadingSpaceCode(z, z1, z2); SingleCode(w, kw); }
      [kx] + [y] + [kw];
    }
  }

  /** Free text with a lower-case code, a newline, a comma and a space. */
  lemma SplitExample()
    ensures SplitInputs("a01\nK86, Z99") == ["A01", "K86", "Z99"]
  {
    TypedCodes('a', '0', '1', 'K', '8', '6', 'Z', '9', '9');
  }

  /** The free text, split, normalized and looked up, resolves as the clean codes do. */
  lemma EndToEndExample()
    ensures var r := LookupSpec(Table(), CiapToCid, SplitInputs("a01\nK86, Z99"));
      && |r| == 3
      && r[0].entrada == "A01" && r[0].resultado == "A09"
      && r[1].entrada == "K86" && r[1].resultado == "K86"
      && r[2].entrada == "Z99" && r[2].resultado == NOT_FOUND
  {
    SplitExample();
    LookupExample();
  }
}
