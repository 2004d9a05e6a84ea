# CIAP2 ↔ CID10 converter: a Dafny model of its lookup core

The application converts primary-care codes (CIAP2) into disease codes (CID10)
and back. It uses a mapping table read from a CSV file with the columns `CIAP`,
`DescricaoCIAP`, `CID10` and `DescricaoCID`. The user types one or more codes.
The application turns them into canonical keys, looks each key up in the chosen
direction, and shows one record per match. A code that matches nothing gets one
`NÃO ENCONTRADO` record.

This project models the four functions that do this work:

- `normalize_code` (module `Codes`): the canonical key of a code. The string is
  stripped of whitespace at both ends, upper-cased, and every U+0020 space is
  removed. `None` and `""` give `""`.
- `split_inputs` (module `SplitInput`): free text is cut on every run of `,`,
  newline, `;` or tab. Each piece is normalized, and pieces whose key is empty
  are dropped.
- `load_base` (module `Frames`): the parsed table is a `DataFrame` object whose
  columns and rows the method changes in place. Without a `CIAP` and a `CID10`
  column it fails with a `SchemaError`. Otherwise:
  - it adds the key columns `CIAP_N` and `CID10_N`;
  - it adds each missing description column, filled with `""`.
- `lookup` (module `Lookup`): a method with the source's two nested loops,
  proved equal to a specification function `LookupSpec`. Lemmas then establish
  about `LookupSpec`:
  - the records of each code, grouped in input order;
  - the matches in table order;
  - the sentinel record for a code without matches;
  - the total number of records.

The key of a code ignores its spacing: `replace(" ", "")` is shown to keep
every other character in order, and a space anywhere in a code leaves its key
unchanged ("a 01" and "A01" both give "A01").

Module `Scenarios` works through a two-row table with the codes A01, K86 and
Z99, and with A01 entered twice. It also starts from the free text
"a01\nK86, Z99", splits and normalizes it, and looks the codes up.

`lookup` compares its codes verbatim with the key columns; it does not
normalize them itself. A lowercase "a01" therefore finds the A01 row only
after `split_inputs` has turned it into "A01", which is how the application
calls it.

## Model

| member | source | states |
|---|---|---|
| Codes.UpperChar | app_streamlit.py:27 | the upper-cased character is never a lower-case ASCII letter; whitespace stays whitespace; every other character is unchanged |
| Codes.LeadingSpace | app_streamlit.py:27 | the length of the whitespace prefix `strip` removes: every character before it is whitespace, the one at it is not |
| Codes.TrailingSpace | app_streamlit.py:27 | the length of the whitespace suffix `strip` removes: every character after the cut is whitespace, the one before it is not |
| Codes.Strip | app_streamlit.py:27 | `strip()` leaves no whitespace at either end and leaves an already-stripped string unchanged |
| Codes.Upper | app_streamlit.py:27 | `upper()` keeps the length and upper-cases every character in place |
| Codes.RemoveSpaces | app_streamlit.py:27 | `replace(" ", "")` leaves no U+0020; a string without one is unchanged; upper-case text stays upper-case; a first or last character that is not a space survives in place |
| Codes.NormalizeCode | app_streamlit.py:21-27 | `None` and `""` give `""`; every key is upper-case, contains no space and has no whitespace at either end |
| Codes.NormalizeAll | app_streamlit.py:61-62 | `.map(normalize_code)` gives one key per cell, in order, each the key of its own cell |
| Codes.NormalFormIsFixedPoint | app_streamlit.py:27 | a string is its own key exactly when it is upper-case, has no space and has no whitespace at either end |
| Codes.NormalizeIdempotent | app_streamlit.py:27 | normalizing a key again returns it unchanged |
| Codes.NormalizeCharsFromInput | app_streamlit.py:27 | every character of a key is the upper-case form of some character of the raw string |
| Codes.RemoveSpacesFrom | app_streamlit.py:27 | every character `replace(" ", "")` keeps comes from some position of its input |
| Codes.NormalizeIgnoresCase | app_streamlit.py:27 | upper-casing the input first does not change its key |
| Codes.UpperCommutesWithStrip | app_streamlit.py:27 | stripping and upper-casing commute |
| Codes.UpperCommutesWithTrimStart | app_streamlit.py:27 | upper-casing does not move the left end `strip` cuts at |
| Codes.UpperCommutesWithTrimEnd | app_streamlit.py:27 | upper-casing does not move the right end `strip` cuts at |
| Codes.TrimStartCons | app_streamlit.py:27 | `strip()` drops a leading whitespace character and stops at the first other one |
| Codes.TrimEndSnoc | app_streamlit.py:27 | `strip()` drops a trailing whitespace character and stops at the last other one |
| Codes.RemoveSpacesCons | app_streamlit.py:27 | `replace(" ", "")` drops a leading U+0020 and keeps any other first character in front of the rest |
| Codes.RemoveSpacesAppend | app_streamlit.py:27 | `replace(" ", "")` distributes over concatenation, so it keeps every non-space character, in order |
| Codes.UpperCommutesWithRemoveSpaces | app_streamlit.py:27 | upper-casing and removing spaces commute |
| Codes.RemoveSpacesCommutesWithTrimStart | app_streamlit.py:27 | removing spaces and cutting leading whitespace commute |
| Codes.RemoveSpacesCommutesWithTrimEnd | app_streamlit.py:27 | removing spaces and cutting trailing whitespace commute |
| Codes.RemoveSpacesCommutesWithStrip | app_streamlit.py:27 | removing spaces and `strip()` commute |
| Codes.NormalizeIgnoresSpaces | app_streamlit.py:21-27 | the key of a string is the key of its non-space characters: spacing never changes a key |
| Codes.NormalizeIgnoresInnerSpace | app_streamlit.py:21-27 | a space typed inside a code does not change its key |
| Codes.NormalizeIgnoresLeadingSpace | app_streamlit.py:21-27 | a space typed before a code does not change its key |
| Codes.CiapShapedKey | app_streamlit.py:21-27 | an upper-case letter followed by two digits is its own key |
| Codes.UpperFirst | app_streamlit.py:27 | `upper()` of a lower-case letter and two digits upper-cases the letter and keeps the digits |
| Codes.SpacedLowerCaseCode | app_streamlit.py:21-27 | a lower-case letter, a space and two digits give the upper-case letter and the digits, which is its own key |
| Codes.NormalizeExample | app_streamlit.py:21-27 | "a 01" and "A01" both have the key "A01" |
| SplitInput.Fragments | app_streamlit.py:41 | `re.split` on separator runs gives at least one piece; no piece contains a separator; text without separators is its own single piece; a leading separator gives an empty first piece |
| SplitInput.FragmentsPrefix | app_streamlit.py:41 | a separator-free prefix joins the first piece of what follows |
| SplitInput.FragmentsAtSeparator | app_streamlit.py:41 | at a separator after a separator-free prefix, the prefix is a piece of its own and the rest is split on its own; adjacent runs merge into one |
| SplitInput.SplitInputs | app_streamlit.py:30-42 | empty text gives `[]`; every code returned is non-empty, contains none of `,` `;` newline tab, and is its own key |
| SplitInput.FragmentKeyIsCode | app_streamlit.py:41-42 | each kept key is separator-free and a fixed point of `normalize_code` |
| SplitInput.NormalizePreservesSeparatorFree | app_streamlit.py:42 | normalizing a separator-free piece cannot create a separator |
| SplitInput.KeepKeys | app_streamlit.py:42 | the comprehension `[normalize_code(p) for p in parts if normalize_code(p)]` keeps no empty key and never yields more keys than pieces |
| SplitInput.KeepKeysSource | app_streamlit.py:42 | every kept key is the key of some piece of the split |
| SplitInput.FragmentKeys | app_streamlit.py:41-42 | the keys kept from the pieces of non-empty text: at most one per piece, none empty, and one per piece when no piece has an empty key |
| SplitInput.KeepKeysAppend | app_streamlit.py:42 | the comprehension distributes over concatenation of the pieces, so keys keep the order of their pieces |
| SplitInput.KeysAfterPrefix | app_streamlit.py:41-42 | the keys of prefix, separator, rest are the prefix's key (if non-empty) followed by the keys of the rest |
| SplitInput.KeysAtSeparator | app_streamlit.py:41-42 | the keys of a text joined at a separator are the keys of the left part followed by those of the right part |
| SplitInput.KeysAtLaterSeparator | app_streamlit.py:41-42 | the same when the left part itself contains separators |
| SplitInput.SplitInputsAtSeparator | app_streamlit.py:39-42 | `split_inputs` of `a + sep + b` is `split_inputs(a) + split_inputs(b)`: codes keep left-to-right order |
| SplitInput.EmptyTextHasNoKeys | app_streamlit.py:41-42 | the single empty piece of empty text yields no code |
| SplitInput.SplitInputsSingleFragment | app_streamlit.py:39-42 | separator-free text gives its key as the only code, or nothing when the key is empty |
| Frames.WithColumn | app_streamlit.py:61-68 | assigning `df[name]` adds `name` to the column set and keeps the existing columns in their order |
| Frames.Blank | app_streamlit.py:66-68 | the column `""` broadcasts to: one empty cell per row |
| Frames.DataFrame.constructor | app_streamlit.py:51 | the parsed file as a frame: its header and its rows, one cell per column in every row |
| Frames.DataFrame.Column | app_streamlit.py:61-62 | `df[name]` has one cell per row, the row's cell in that column |
| Frames.DataFrame.SetColumn | app_streamlit.py:61-68 | `df[name] = values` keeps the frame well-formed, keeps the row count, and sets exactly the cell `name` of row i to `values[i]` |
| Frames.DataFrame.AddKeys | app_streamlit.py:60-62 | after the two assignments every row holds the key of its own `CIAP` in `CIAP_N` and of its own `CID10` in `CID10_N`, and nothing else changes |
| Frames.DataFrame.SetDefault | app_streamlit.py:64-68 | a missing column is added empty on every row; a present one is left alone |
| Frames.Described | app_streamlit.py:65-68 | `if name not in df.columns: df[name] = ""` on one row: the row gains the column, an existing cell is kept, a new one is `""`, and every other cell is unchanged |
| Frames.LoadedColumns | app_streamlit.py:61-68 | the header load_base leaves: the file's columns, in their order, followed by each of `CIAP_N`, `CID10_N`, `DescricaoCIAP`, `DescricaoCID` that was new, so at most four more columns, exactly those four names added |
| Frames.LoadedColumnsAppended | app_streamlit.py:61-68 | a file with none of the four columns gets them at the right in the order of the assignments: `CIAP_N`, `CID10_N`, `DescricaoCIAP`, `DescricaoCID` |
| Frames.CompletedCells | app_streamlit.py:60-68 | a completed row has the file's columns plus the four added ones; the key cells are the given keys; a description the file lacks is `""`; every other cell is kept |
| Frames.LoadedRow | app_streamlit.py:60-68 | a loaded row has the file's columns plus `CIAP_N`, `CID10_N` and both description columns, so every column lookup reads |
| Frames.LoadedRowCells | app_streamlit.py:60-68 | each loaded row has `CIAP_N = normalize_code(CIAP)` and `CID10_N = normalize_code(CID10)`, absent descriptions `""`, and every cell of the file outside the key columns untouched |
| Frames.LoadedRowKeyed | app_streamlit.py:61-62 | every loaded row carries the key of each of its two codes |
| Frames.LoadBase | app_streamlit.py:45-70 | fails exactly when `CIAP` or `CID10` is missing, reporting both required names and the columns found; on success returns a new frame whose header is `LoadedColumns` of the file's and which has the same number of rows, each row loaded as above and keyed |
| Lookup.ParseMode | app_streamlit.py:83-100 | the CIAP → CID branch is taken exactly for the string `"CIAP → CID"`; every other value takes the CID → CIAP branch |
| Lookup.NotFound | app_streamlit.py:86-89 | the sentinel record: the code as Entrada, Tipo of the direction, Resultado `NÃO ENCONTRADO`, the code echoed in the slot of its own kind (CIAP, or CID10 at lines 104-106), every other cell empty |
| Lookup.Found | app_streamlit.py:93-98 | a matched record: the code as Entrada, Tipo of the direction, the row's four original cells, and Resultado the row's `CID10` (CIAP → CID) or `CIAP` (CID → CIAP, lines 109-113) |
| Lookup.RecordsFor | app_streamlit.py:85-98 | one pass of the outer loop yields at least one record, each with the code as Entrada and the direction's Tipo |
| Lookup.LookupSpec | app_streamlit.py:81-116 | no codes give no records; otherwise there is at least one record per code |
| Lookup.ConcatMapLength | app_streamlit.py:84-98 | when every code yields a record, the concatenation has at least one record per code |
| Lookup.Hits | app_streamlit.py:85 | `df.loc[df[key] == c]` selects exactly the rows holding `c`, each once, in table order |
| Lookup.FoundAll | app_streamlit.py:93-98 | one record per selected row, in the order of the selection, each built from its row |
| Lookup.LoadedRowsHaveLookupColumns | app_streamlit.py:61-68 | every row of a loaded frame has all the columns lookup reads |
| Lookup.Lookup | app_streamlit.py:73-116 | the records the loops append are exactly `LookupSpec` of the table, the direction and the codes; the table is not modified |
| Lookup.AppendRecords | app_streamlit.py:84-98 | one pass of the outer loop appends exactly the records of its code, the sentinel when `hit.empty` and the found records otherwise, and keeps what was there |
| Lookup.AppendFound | app_streamlit.py:93-98 | the inner loop over `hit.iterrows()` appends one record per selected row, in selection order, after the records already there |
| Lookup.FoundAllStep | app_streamlit.py:93-98 | one more selected row adds exactly its own record at the end |
| Lookup.ConcatMapAppend | app_streamlit.py:84-98 | appending the records of each code in turn distributes over splitting the code list |
| Lookup.LookupStep | app_streamlit.py:84-98 | after the first j + 1 codes the result is the result after j codes followed by the records of code j |
| Lookup.HitsCount | app_streamlit.py:85 | the number of selected rows is the number of rows that hold the code |
| Lookup.LookupAppend | app_streamlit.py:84-98 | looking up `a + b` gives the records of `a` followed by those of `b` |
| Lookup.LookupSingle | app_streamlit.py:84-98 | one code gives exactly its own records |
| Lookup.LookupGroups | app_streamlit.py:84-114 | the records of `codes[j]` sit between those of the codes before and after it, so duplicates each get their own group |
| Lookup.LookupLength | app_streamlit.py:81-116 | the result has, summed over the codes, max(1, number of matching rows) records; no codes give none |
| Lookup.LookupUnmatched | app_streamlit.py:86-106 | a code without matches gives one record with Resultado `NÃO ENCONTRADO`, the code as Entrada and in the slot of its own kind, and every other code and description empty |
| Lookup.LookupMatchCount | app_streamlit.py:91-114 | a code with k ≥ 1 matches gives exactly k records |
| Lookup.MatchedRecordsCount | app_streamlit.py:91-98 | a code some row holds gets one record per selected row, no sentinel |
| Lookup.LookupMatchedRecord | app_streamlit.py:91-114 | record k of a matched code comes from its k-th matching row: Entrada is the code, the four cells are the row's original ones, and Resultado is the row's `CID10` (CIAP → CID) or `CIAP` (CID → CIAP) |
| Lookup.KeyedHits | app_streamlit.py:85 | on a loaded table, a row matches a code exactly when the row's own code normalizes to it |
| Scenarios.TableHits | app_streamlit.py:85 | on the two-row table A01 selects row 0, K86 row 1 and Z99 nothing |
| Scenarios.TableRecords | app_streamlit.py:84-98 | A01 gives one record resolving to A09, K86 one resolving to K86, Z99 the sentinel |
| Scenarios.LookupTwo | app_streamlit.py:84-98 | two codes give their records one after the other |
| Scenarios.LookupThree | app_streamlit.py:84-98 | three codes give their records one after the other |
| Scenarios.LookupExample | app_streamlit.py:73-116 | looking up A01, K86, Z99 gives three records: A09, K86, and `NÃO ENCONTRADO` with Z99 echoed in the CIAP slot |
| Scenarios.DuplicateExample | app_streamlit.py:84-98 | A01 entered twice gives two independent records, both resolving to A09 |
| Scenarios.KeyedRow | app_streamlit.py:60-68 | a row whose key cells equal its codes has every column lookup reads |
| Scenarios.KeyedRowIsKeyed | app_streamlit.py:61-62 | when both codes are their own keys, such a row is keyed and equals `LoadedRow` of the file row with the same four cells: exactly what load_base gives it |
| Scenarios.TableKeyed | app_streamlit.py:61-62 | every row of the two-row table holds the keys load_base gives its codes |
| Scenarios.SplitThree | app_streamlit.py:39-42 | text in three parts joined by two separators gives the codes of each part, in order |
| Scenarios.LeadingSpaceCode | app_streamlit.py:21-27 | a CIAP2-shaped code typed after a space has the code itself as key |
| Scenarios.LowerCaseCode | app_streamlit.py:21-27 | a CIAP2-shaped code typed in lower case has its upper-case form as key |
| Scenarios.SingleCode | app_streamlit.py:39-42 | separator-free text with a non-empty key gives exactly that key |
| Scenarios.TypedCodes | app_streamlit.py:30-42 | a lower-case code, a newline, a code, a comma and a spaced code give the three keys in order |
| Scenarios.SplitExample | app_streamlit.py:30-42 | "a01\nK86, Z99" gives the codes A01, K86, Z99 |
| Scenarios.ThreeSingleRecords | app_streamlit.py:84-98 | three codes with one record each give those three records, in order |
| Scenarios.EndToEndExample | app_streamlit.py:30-116 | the free text "a01\nK86, Z99", split and looked up on the two-row table, resolves A01 to A09, K86 to K86 and Z99 to `NÃO ENCONTRADO` |

## Left out

- The Streamlit page (app_streamlit.py:119-185) is not modelled: the uploader, radio, buttons, `st.stop` and the rendering of the result table. It is presentation.
- The `@st.cache_data` memoization of `load_base` is not modelled: it is a framework cache and does not change results.
- `pd.read_csv(..., encoding="utf-8-sig")` is not modelled: CSV parsing, the byte-order mark and file I/O are library code. `LoadBase` starts from the parsed header and rows.
- The `astype(str)` conversion is not modelled. The conversion of NaN or numeric cells is pandas behaviour, so every cell is already a string here.
- Codes.Upper: only the ASCII letters a–z are upper-cased. Python's full Unicode case mapping (`ß` to `SS`, accented letters, and so on) is outside the model.
- Codes.Strip: the whitespace set is fixed as the characters `str.isspace()` accepts. The Unicode database behind it is not modelled.
- SplitInput.Fragments models `re.split(r"[,\n;\t]+", text)` directly on characters rather than through a regular-expression engine.
- Frames.LoadBase: the `ValueError` is a `SchemaError` value carrying the required names and the columns found. The message text is not modelled.
- Lookup.Lookup returns the records as a sequence of `Record` values with the result table's seven columns in their order. The `pandas.DataFrame` built from them (an empty frame when there are no records) is not modelled.
- Lookup.Lookup: the two branches of the source are two copies of one loop that differ in the key column, the Tipo, the echo slot and the cell given as Resultado (`CID10` or `CIAP`). The model has one loop parameterized by the direction.
- Lookup.AppendRecords and Lookup.AppendFound: the list `results` is a value that each pass returns extended. The in-place `append` on a Python list is not modelled, but nothing else holds that list, so this changes no result.
