/**
 * The mapping table as load_base leaves it: a data frame whose rows are
 * maps from column name to cell, checked for the two code columns and
 * extended in place with the two key columns and, when the file lacks
 * them, the two description columns.
 */
module Frames {
  import opened Wrappers
  import opened Codes

  const CIAP := "CIAP"
  const CID10 := "CID10"
  const CIAP_N := "CIAP_N"
  const CID10_N := "CID10_N"
  const DESCRICAO_CIAP := "DescricaoCIAP"
  const DESCRICAO_CID := "DescricaoCID"

  /** The columns load_base refuses to do without. */
  const REQUIRED: set<string> := {CIAP, CID10}

  /** The columns lookup reads. */
  const LOOKUP_COLUMNS: set<string> := {CIAP, DESCRICAO_CIAP, CID10, DESCRICAO_CID, CIAP_N, CID10_N}

  /** One line of the table: column name to cell text. */
  type Row = map<string, string>

  /** The ValueError of load_base: the required columns and the columns found. */
  datatype SchemaError = SchemaError(required: set<string>, found: seq<string>)

  function ColumnSet(columns: seq<string>): set<string>
  {
    set c | c in columns
  }

  /** The header after df[name] = ...: a new name goes at the right, an old one stays where it is. */
  function WithColumn(columns: seq<string>, name: string): (r: seq<string>)
    ensures ColumnSet(r) == ColumnSet(columns) + {name}
    ensures |columns| <= |r| <= |columns| + 1 && r[..|columns|] == columns
  {
    if name in columns then columns else columns + [name]
  }

  /** A column of n empty cells (df[name] = ""). */
  function Blank(n: nat): (cells: seq<string>)
    ensures |cells| == n && forall i | 0 <= i < n :: cells[i] == []
  {
    seq(n, _ => [])
  }

  class DataFrame {
    var columns: seq<string>
    var rows: seq<Row>

    /** Every row has exactly one cell per column. */
    ghost predicate Valid()
      reads this
    {
      forall i | 0 <= i < |rows| :: rows[i].Keys == ColumnSet(columns)
    }

    /** Valid and carrying every column lookup reads. */
    ghost predicate IsLoaded()
      reads this
    {
      Valid() && LOOKUP_COLUMNS <= ColumnSet(columns)
    }

    /** Loaded, with each key column holding the key of its code column. */
    ghost predicate IsIndexed()
      reads this
    {
      IsLoaded() && forall i | 0 <= i < |rows| :: IsKeyed(rows[i])
    }

    /** The frame read_csv produces from a header and its rows. */
    constructor (header: seq<string>, cells: seq<Row>)
      requires forall i | 0 <= i < |cells| :: cells[i].Keys == ColumnSet(header)
      ensures Valid() && columns == header && rows == cells
    {
      columns := header;
      rows := cells;
    }

    /** df[name]: the column's cells, top to bottom. */
    function Column(name: string): (values: seq<string>)
      reads this
      requires Valid() && name in columns
      ensures |values| == |rows|
      ensures forall i | 0 <= i < |rows| :: values[i] == rows[i][name]
    {
      var rs := rows;
      seq(|rs|, i requires 0 <= i < |rs| => rs[i][name])
    }

    /** df[name] = values: add the column, or overwrite it when it exists. */
    method SetColumn(name: string, values: seq<string>)
      requires Valid() && |values| == |rows|
      modifies this
      ensures Valid()
      ensures columns == WithColumn(old(columns), name)
      ensures |rows| == |old(rows)|
      ensures forall i | 0 <= i < |rows| :: rows[i] == old(rows[i])[name := values[i]]
    {
      columns := WithColumn(columns, name);
      var before := rows;
      rows := seq(|before|, i requires 0 <= i < |before| => before[i][name := values[i]]);
    }

    /** df["CIAP_N"] = df["CIAP"].map(normalize_code), then the same for CID10. */
    method AddKeys()
      requires Valid() && CIAP in columns && CID10 in columns
      modifies this
      ensures Valid()
      ensures columns == WithColumn(WithColumn(old(columns), CIAP_N), CID10_N)
      ensures |rows| == |old(rows)|
      ensures forall i | 0 <= i < |rows| ::
        rows[i] == WithKeys(old(rows[i]), NormalizeCode(Some(old(rows[i])[CIAP])), NormalizeCode(Some(old(rows[i])[CID10])))
    {
      ColumnNamesDistinct();
      SetColumn(CIAP_N, NormalizeAll(Column(CIAP)));
      SetColumn(CID10_N, NormalizeAll(Column(CID10)));
    }

    /** `if name not in df.columns: df[name] = ""`. */
    method SetDefault(name: string)
      requires Valid()
      modifies this
      ensures Valid()
      ensures columns == WithColumn(old(columns), name)
      ensures |rows| == |old(rows)|
      ensures forall i | 0 <= i < |rows| :: rows[i] == Described(old(rows[i]), name)
    {
      if name !in columns {
        SetColumn(name, Blank(|rows|));
      }
    }
  }

  /** The header load_base leaves: the file's columns, then each added column that was new. */
  function LoadedColumns(header: seq<string>): (columns: seq<string>)
    ensures ColumnSet(columns) == ColumnSet(header) + {CIAP_N, CID10_N, DESCRICAO_CIAP, DESCRICAO_CID}
    ensures |header| <= |columns| <= |header| + 4 && columns[..|header|] == header
  {
    var withCiap := WithColumn(header, CIAP_N);
    var withCid := WithColumn(withCiap, CID10_N);
    var withDescricaoCiap := WithColumn(withCid, DESCRICAO_CIAP);
    var columns := WithColumn(withDescricaoCiap, DESCRICAO_CID);
    PrefixOfPrefix(header, withCiap, withCid);
    PrefixOfPrefix(header, withCid, withDescricaoCiap);
    PrefixOfPrefix(header, withDescricaoCiap, columns);
    AddedNames(ColumnSet(header), ColumnSet(withCiap), ColumnSet(withCid), ColumnSet(withDescricaoCiap), ColumnSet(columns));
    columns
  }

  lemma AddedNames(s0: set<string>, s1: set<string>, s2: set<string>, s3: set<string>, s4: set<string>)
    requires s1 == s0 + {CIAP_N} && s2 == s1 + {CID10_N} && s3 == s2 + {DESCRICAO_CIAP} && s4 == s3 + {DESCRICAO_CID}
    ensures s4 == s0 + {CIAP_N, CID10_N, DESCRICAO_CIAP, DESCRICAO_CID}
  {
  }

  lemma PrefixOfPrefix(a: seq<string>, b: seq<string>, c: seq<string>)
    requires |a| <= |b| && b[..|a|] == a
    requires |b| <= |c| && c[..|b|] == b
    ensures c[..|a|] == a
  {
    assert c[..|a|] == c[..|b|][..|a|];
  }

  /** A file without any of the four added columns gets them at the right, in the order load_base adds them. */
  lemma LoadedColumnsAppended(header: seq<string>)
    requires CIAP_N !in header && CID10_N !in header && DESCRICAO_CIAP !in header && DESCRICAO_CID !in header
    ensures LoadedColumns(header) == header + [CIAP_N, CID10_N, DESCRICAO_CIAP, DESCRICAO_CID]
  {
    ColumnNamesDistinct();
    var withCiap := header + [CIAP_N];
    var withCid := withCiap + [CID10_N];
    var withDescricaoCiap := withCid + [DESCRICAO_CIAP];
    assert WithColumn(header, CIAP_N) == withCiap;
    assert CID10_N !in withCiap;
    assert WithColumn(withCiap, CID10_N) == withCid;
    assert DESCRICAO_CIAP !in withCid;
    assert WithColumn(withCid, DESCRICAO_CIAP) == withDescricaoCiap;
    assert DESCRICAO_CID !in withDescricaoCiap;
    assert withDescricaoCiap + [DESCRICAO_CID] == header + [CIAP_N, CID10_N, DESCRICAO_CIAP, DESCRICAO_CID];
  }

  /** A row with its two key cells set. */
  function WithKeys(row: Row, ciapKey: string, cidKey: string): Row
  {
    row[CIAP_N := ciapKey][CID10_N := cidKey]
  }

  /** A row after `if name not in df.columns: df[name] = ""`. */
  function Described(row: Row, name: string): (described: Row)
    ensures described.Keys == row.Keys + {name}
    ensures described[name] == (if name in row then row[name] else [])
    ensures forall c | c in row :: described[c] == row[c]
  {
    if name in row then row else row[name := []]
  }

  /** A row with the given keys and the two description columns. */
  function Completed(row: Row, ciapKey: string, cidKey: string): Row
  {
    Described(Described(WithKeys(row, ciapKey, cidKey), DESCRICAO_CIAP), DESCRICAO_CID)
  }

  /** A row of the file after load_base. */
  function LoadedRow(row: Row): (loaded: Row)
    requires REQUIRED <= row.Keys
    ensures loaded.Keys == row.Keys + {CIAP_N, CID10_N, DESCRICAO_CIAP, DESCRICAO_CID}
    ensures LOOKUP_COLUMNS <= loaded.Keys
  {
    Completed(row, NormalizeCode(Some(row[CIAP])), NormalizeCode(Some(row[CID10])))
  }

  /** The cells of a completed row, whatever its keys. */
  lemma CompletedCells(row: Row, ciapKey: string, cidKey: string)
    ensures var done := Completed(row, ciapKey, cidKey);
      && done.Keys == row.Keys + {CIAP_N, CID10_N, DESCRICAO_CIAP, DESCRICAO_CID}
      && done[CIAP_N] == ciapKey
      && done[CID10_N] == cidKey
      && done[DESCRICAO_CIAP] == (if DESCRICAO_CIAP in row then row[DESCRICAO_CIAP] else [])
      && done[DESCRICAO_CID] == (if DESCRICAO_CID in row then row[DESCRICAO_CID] else [])
      && forall col | col in row && col != CIAP_N && col != CID10_N :: done[col] == row[col]
  {
    ColumnNamesDistinct();
  }

  /**
   * What load_base promises of every row: the key cells are the keys of the
   * code cells, a description column the file lacks is empty, and every
   * cell of the file outside the two key columns is kept as it was.
   */
  lemma LoadedRowCells(row: Row)
    requires REQUIRED <= row.Keys
    ensures var loaded := LoadedRow(row);
      && loaded.Keys == row.Keys + {CIAP_N, CID10_N, DESCRICAO_CIAP, DESCRICAO_CID}
      && loaded[CIAP_N] == NormalizeCode(Some(row[CIAP]))
      && loaded[CID10_N] == NormalizeCode(Some(row[CID10]))
      && loaded[DESCRICAO_CIAP] == (if DESCRICAO_CIAP in row then row[DESCRICAO_CIAP] else [])
      && loaded[DESCRICAO_CID] == (if DESCRICAO_CID in row then row[DESCRICAO_CID] else [])
      && forall col | col in row && col != CIAP_N && col != CID10_N :: loaded[col] == row[col]
  {
    CompletedCells(row, NormalizeCode(Some(row[CIAP])), NormalizeCode(Some(row[CID10])));
  }

  /** A row whose key cells hold the keys of its code cells. */
  predicate IsKeyed(row: Row)
  {
    && CIAP in row && CID10 in row && CIAP_N in row && CID10_N in row
    && row[CIAP_N] == NormalizeCode(Some(row[CIAP]))
    && row[CID10_N] == NormalizeCode(Some(row[CID10]))
  }

  /** Every row load_base leaves is keyed. */
  lemma LoadedRowKeyed(row: Row)
    requires REQUIRED <= row.Keys
    ensures IsKeyed(LoadedRow(row))
  {
    LoadedRowCells(row);
  }

  /** The six column names differ (their lengths already do). */
  lemma ColumnNamesDistinct()
    ensures |CIAP| == 4 && |CID10| == 5 && |CIAP_N| == 6 && |CID10_N| == 7
    ensures |DESCRICAO_CID| == 12 && |DESCRICAO_CIAP| == 13
  {
  }

  /**
   * load_base, from the parsed file on: refuse a header without CIAP or
   * CID10; otherwise add the key columns and the missing description
   * columns to the frame, in place, and return it.
   */
  method LoadBase(header: seq<string>, cells: seq<Row>) returns (r: Result<DataFrame, SchemaError>)
    requires forall i | 0 <= i < |cells| :: cells[i].Keys == ColumnSet(header)
    ensures r.Failure? <==> !(CIAP in header && CID10 in header)
    ensures r.Failure? ==> r.error == SchemaError(REQUIRED, header)
    ensures r.Success? ==> fresh(r.value) && r.value.IsIndexed()
    ensures r.Success? ==> r.value.columns == LoadedColumns(header) && |r.value.rows| == |cells|
    ensures r.Success? ==> forall i | 0 <= i < |cells| :: r.value.rows[i] == LoadedRow(cells[i])
  {
    ColumnNamesDistinct();
    var df := new DataFrame(header, cells);
    if !(REQUIRED <= ColumnSet(df.columns)) {
      return Failure(SchemaError(REQUIRED, df.columns));
    }
    df.AddKeys();
    df.SetDefault(DESCRICAO_CIAP);
    df.SetDefault(DESCRICAO_CID);
    forall i | 0 <= i < |cells| ensures IsKeyed(df.rows[i]) {
      LoadedRowKeyed(cells[i]);
    }
    return Success(df);
  }
}
