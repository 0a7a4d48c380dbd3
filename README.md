# Supported-catalyst calculator: verified model of its core

The program is a desktop calculator for preparing supported catalysts by impregnation.
Given the wanted loading (wt.% of active component in the finished catalyst), the support
mass, the molar mass Mx of the active component and the molar mass Mz of its precursor, it
computes the precursor mass to weigh out and four intermediate quantities. Around that
calculation sit a periodic-table database of elements with their oxides and nitrates, to
which users add nitrates by hand or by bulk import from a text file, and a history of the
last 100 calculations.

This project models, in Dafny, the parts of `calc.py` that carry behaviour:

- `Stoichiometry` (`stoichiometry.dfy`): reading the four input fields (a placeholder
  hint reads as 0, text that is not a number is an error), the five range checks in their
  order, and the five formulas with their zero guards, over exact reals.
- `History` (`history.dfy`): the class `HistoryManager` with its list of records. Adding
  a record appends it and keeps the newest 100. Reading returns a copy. Clearing empties
  the list. Every change saves the list; the file is the ghost field `persisted`.
- `Elements` (`elements.dfy`): the element table, a map from symbol to name, atomic
  mass, oxides and nitrates, and the class `ElementInfo` around it. The model covers the
  duplicate-checked `add_custom_nitrate`, the normalised lookup, the start-up merge of
  the custom-compound file and the projection that is saved. The file is the ghost field
  `saved`. The table is seeded with six of the built-in entries, among them `He`, which
  has no compound lists, and `C`, whose nitrate list is empty.
- `Import` (`import.dfy`): the bulk-import loop over the lines of a file. Each line is
  filtered, split on commas and handed to `add_custom_nitrate`, and the successful adds
  are counted.
- `Calculator` (`calculator.dfy`): the calculate button. It computes, and on success
  appends the record to the history.
- `Text` (`text.dfy`): Python's `str.strip()`, `str.title()`, `str.split(',')` and the
  `.strip().title()` normalisation of element symbols, written over `seq<char>`.
- `Wrappers` (`wrappers.dfy`): the `Option` type.

The parts that depend on nothing outside the program are functions. The parts that change
state in place are class methods, proved against those functions. The methods are
`HistoryManager.AddRecord`, `ElementInfo.AddCustomNitrate` with its duplicate-scan loop,
`ElementInfo.LoadCustomCompounds` with its two nested loops, and
`Import.ImportFromLines` with its counting loop.

Things the proofs bring out about the code as written:

- The start-up merge ignores symbols that are not in the built-in table
  (`Elements.PlaceholderNotRestored`). A user can add a nitrate under an unknown symbol.
  That creates a placeholder element, which is saved, but the next start-up drops it.
  For any table that extends the built-in one, saving and reloading gives back the table
  exactly (`Elements.ReloadRestores`). That covers every table reached from files the
  program writes itself. A hand-written file that gives an empty nitrates list to an
  element that has none is the exception: the empty list is not saved, so it comes back
  missing (the display treats both alike).
- The merge computes the set of known formulas once, before its loop. A file that lists
  the same new formula twice therefore gets both entries appended
  (`Elements.MergeKeepsFileDuplicates`).
- The bulk import does not check the sign of the mass. The manual dialog does
  (calc.py:829-832), but the import has no such test.
- A field left at its placeholder reads as 0. An unfilled support, Mx or Mz field is
  therefore always rejected, and an unfilled loading field is accepted as 0 %.
- For the worked example (7 wt.% Ni on 10 g, Mx = 58.69, Mz = 290.79), exact arithmetic
  gives f = 0.20182949… and a precursor mass of 3.7293268… g
  (`Stoichiometry.NickelExample`).

## Model

| member | source | states |
|---|---|---|
| `Stoichiometry.Validate` | calc.py:1055-1073 | the first failing check is reported, in source order: loading ≥ 100, loading < 0, support ≤ 0, Mx ≤ 0, Mz ≤ 0; no error exactly when 0 ≤ loading < 100 and support, Mx, Mz > 0 |
| `Stoichiometry.Formulas` | calc.py:1082-1094 | f · Mz = Mx when Mz ≠ 0, else f = 0; finished total · (1 − loading/100) = support when loading ≠ 100, else the finished total is 0; active mass + support = finished total; precursor mass · f = active mass when f ≠ 0, else the precursor mass is 0; total after − support = precursor mass |
| `Stoichiometry.Calculate` | calc.py:1055-1094 | a result is produced exactly for valid inputs, and it holds those inputs and `Formulas` of them; otherwise the rejection carries the validation error |
| `Stoichiometry.ReadEntry` | calc.py:1043-1049 | a field showing its placeholder reads as 0; typed text reads as its parse, or as "not a number" |
| `Stoichiometry.CalculateEntries` | calc.py:1040-1052 | the fields are read in the order loading, support, Mx, Mz; the handler fails with "not a number" naming a field exactly when every earlier field parses and that one does not; when all four parse, the outcome is `Calculate` of the four values read |
| `Stoichiometry.GuardsInactive` | calc.py:1082-1085 | on accepted inputs neither zero guard fires: f = Mx/Mz > 0 and the finished total is support/(1 − loading/100) |
| `Stoichiometry.Consistent` | calc.py:1082-1094 | on accepted inputs: total after − support = precursor mass; active mass = finished total − support = loading % of the finished total; precursor mass · f = active mass; all these masses are non-negative |
| `Stoichiometry.ZeroLoading` | calc.py:1085-1094 | loading 0 with positive masses is accepted, and the finished total equals the support, with no active component and no precursor |
| `Stoichiometry.FullLoadingRejected` | calc.py:1055-1057 | loading exactly 100 is rejected with the "at least 100" error |
| `Stoichiometry.NickelExample` | calc.py:1082-1094 | 7 %, 10 g, Mx 58.69, Mz 290.79: 0.201829 < f < 0.201830, 0.752688 < active mass < 0.752689, 10.752688 < finished < 10.752689, 3.72932 < precursor < 3.72933, 13.72932 < total after < 13.72933 (exactly: f = 0.20182949…, precursor = 3.7293268…) |
| `Stoichiometry.UnfilledMassRejected` | calc.py:1044-1046 | when the support, Mx or Mz field holds its placeholder, the handler always rejects |
| `Stoichiometry.UnfilledLoadingAccepted` | calc.py:1044-1046 | with the loading field at its placeholder and positive masses, the loading reads as 0, the result is computed, and the finished total is the support with no precursor |
| `History.Retain` | calc.py:41-42 | the kept list has min(n, 100) records and is the suffix of the input of that length |
| `History.AddKeepsNewest` | calc.py:39-42 | after an add the log holds min(n + 1, 100) records, the new one last, preceded by the newest old ones |
| `History.RetainAbsorbs` | calc.py:41-42 | trimming before appending more records keeps the same newest 100 as trimming once at the end |
| `History.AddAll` | calc.py:32-43 | no adds leave the log as it was; one or more leave between 1 and 100 records, the last record added at the end |
| `History.AddAllRetains` | calc.py:32-43 | after one or more adds the log is the newest 100 of (old log ++ added records) |
| `History.ManyAddsKeepLatest` | calc.py:32-43 | after at least 100 adds the log is exactly the last 100 records added |
| `History.HistoryManager.constructor` | calc.py:10-22 | the log starts as the decoded file, or empty when there is none; the loaded list is not trimmed |
| `History.HistoryManager.SaveHistory` | calc.py:24-30 | the file holds the current list; the list is unchanged |
| `History.HistoryManager.AddRecord` | calc.py:32-43 | the new list is the newest 100 of the old list plus the new record; it has at most 100 records, ends with the new one, and is saved |
| `History.HistoryManager.GetHistory` | calc.py:45-47 | returns a sequence equal to the stored list, which it does not change |
| `History.HistoryManager.Clear` | calc.py:1163-1164 | the list and the file are both empty |
| `Calculator.Calculate` | calc.py:1036-1115 | the outcome is that of the field-reading and validation handler; on success the history becomes the newest 100 of the old list plus the new record, and is saved; on rejection the history and its file are unchanged |
| `Elements.Seed` | calc.py:87-197 | the seeded built-in entries all have a positive atomic mass, and `He` is present with neither an oxides nor a nitrates list |
| `Elements.Placeholder` | calc.py:493-499 | the entry made for an unknown symbol: named by the symbol, mass 0, both lists present and empty |
| `Elements.Lookup` | calc.py:513-518 | finds an entry exactly when the normalised symbol is a key, and returns the entry under that key |
| `Elements.ElementInfo.GetElementInfo` | calc.py:513-518 | the same lookup on the object's table |
| `Elements.AddNitrate` | calc.py:489-511 | refused exactly when the normalised symbol is known and its nitrates already hold the formula, and then the table is unchanged; otherwise the compound is appended to that list (created empty when missing), name, mass and oxides are kept, an unknown symbol gets a placeholder entry (name = symbol, mass 0, empty oxides), and every other entry is unchanged |
| `Elements.AddThenLookup` | calc.py:489-518 | after a successful add, looking up any spelling with the same normalised symbol finds an entry holding the formula, a placeholder one for a new symbol |
| `Elements.FormulaSetMembers` | calc.py:461 | the `existing_nitrates` set (`Elements.FormulaSet`) holds a formula exactly when some compound of the list has it |
| `Elements.FormulaSetAppend` | calc.py:504-510 | appending a compound adds its formula to the set and nothing else, so the duplicate test of a later add sees it |
| `Elements.AddTwiceRefused` | calc.py:504-507 | adding the same formula under the same symbol a second time is refused and changes nothing, whatever the masses |
| `Elements.ContainsFormula` | calc.py:504-507 | the scan finds the formula exactly when some compound of the list has it |
| `Elements.ElementInfo.PrepareEntry` | calc.py:491-502 | an unknown symbol gets a placeholder entry and a missing list an empty one; the returned list is the element's nitrates; nothing else changes |
| `Elements.ElementInfo.AddCustomNitrate` | calc.py:489-511 | the new table and the returned flag are those of `AddNitrate`; the file is saved after a successful add only |
| `Elements.Unseen` | calc.py:462-466 | keeps only compounds from the incoming list whose formula is not in the seen set |
| `Elements.UnseenComplete` | calc.py:462-466 | every incoming compound whose formula was not seen is kept |
| `Elements.UnseenSound` | calc.py:462-466 | every kept compound comes from the incoming list and has an unseen formula |
| `Elements.UnseenKeepsAll` | calc.py:462-466 | nothing is dropped when no incoming formula was seen |
| `Elements.UnseenDropsAll` | calc.py:462-466 | everything is dropped when every incoming formula was seen |
| `Elements.UnseenAppend` | calc.py:462-466 | filtering a concatenation is concatenating the filtered parts |
| `Elements.Merge` | calc.py:456-466 | the keys are those of the table, so unknown symbols are ignored; entries without a file `nitrates` list are unchanged, the others get the merge of their list |
| `Elements.MergeEntry` | calc.py:459-466 | the merged element keeps name, mass and oxides; its nitrates list is present afterwards and begins with the old list |
| `Elements.MergeEntryAppends` | calc.py:459-466 | a merged element keeps name, mass, oxides and its old nitrates as a prefix; exactly the incoming compounds whose formula was not in the old list are appended |
| `Elements.MergeKeepsFileDuplicates` | calc.py:462-466 | a file listing the same new formula twice, with any masses, gets both entries appended, since the seen set is not updated in the loop |
| `Elements.AppendUnseen` | calc.py:461-466 | the inner merge loop returns the old list followed by the incoming compounds whose formula it did not hold before the loop |
| `Elements.ElementInfo.LoadCustomCompounds` | calc.py:450-466 | the table becomes its merge with the decoded file, or is unchanged when there is no file |
| `Elements.ElementInfo.constructor` | calc.py:85-448 | the table is the built-in table merged with the custom-compound file |
| `Elements.Projection` | calc.py:474-482 | the saved keys are exactly the elements whose nitrates list is present and not empty, each with that list unchanged |
| `Elements.ElementInfo.SaveCustomCompounds` | calc.py:468-487 | the file holds the projection of the table; the table is unchanged |
| `Elements.ReloadEntry` | calc.py:462-482 | for one element that only appended new formulas to its base, merging its saved list into the base element gives the element back |
| `Elements.ReloadRestores` | calc.py:456-482 | for a table that only appended new formulas to a base table's lists, merging its saved projection into the base gives the table back |
| `Elements.AddKeepsExtension` | calc.py:489-511 | adds under known symbols keep a table an extension of its base |
| `Elements.MergeExtends` | calc.py:456-466 | the start-up merge gives an extension of the built-in table, unless the file gives an empty list to an element that has none |
| `Elements.PlaceholderNotRestored` | calc.py:456-511 | a compound added under an unknown symbol is saved but the next start-up merge drops that symbol |
| `Import.ParseLine` | calc.py:860-867 | a line is skipped exactly when it is blank after stripping, starts with `#`, has fewer than three comma fields, or its third field does not parse; the formula kept is stripped |
| `Import.ParseLineValue` | calc.py:862-866 | a kept line yields the normalised first field as the symbol, the stripped second field as the formula, and the parse of the stripped third field as the mass |
| `Import.ParseStripped` | calc.py:860-866 | a line that strips to three comma-free fields, the first not starting with `#`, is parsed from those fields |
| `Import.ParseFields` | calc.py:860-866 | a line `s,f,m` of comma-free fields, `s` not starting with `#` after stripping and `m` parsing to v, yields (normalised `s`, stripped `f`, v), whatever whitespace surrounds the fields |
| `Import.ParsedSymbolNormalised` | calc.py:864-868 | the symbol of a parsed line is already normalised, so the normalisation inside `add_custom_nitrate` keeps the key |
| `Import.CountParsed` | calc.py:859-863 | the number of parsed lines is at most the number of lines |
| `Import.ImportOneCounts` | calc.py:859-871 | a skipped line leaves the table and the count as they were; a parsed line raises the count by at most one |
| `Import.ImportOneParsed` | calc.py:864-869 | a parsed line goes to `AddNitrate` with its three fields, and the count goes up exactly when that add succeeds |
| `Import.ImportOne` | calc.py:860-869 | one pass of the loop body on the running table and count: the count rises by at most one, and the table changes only when it rises |
| `Import.ImportAll` | calc.py:858-871 | the count of successful adds is at most the number of parsed lines, hence at most the number of lines |
| `Import.NothingToImport` | calc.py:859-871 | a file with no usable line leaves the table unchanged and reports 0 |
| `Import.ImportOnlyAppends` | calc.py:858-871 | the import keeps every element with its name, mass, oxides and old nitrates as a prefix; new keys come only from normalised symbols of parsed lines |
| `Import.ImportAllStep` | calc.py:859-871 | importing one more line continues the import of the lines before it with one `ImportOne` step |
| `Import.HandleLine` | calc.py:860-871 | one pass of the loop: the new table and count are `ImportOne` of the old ones; when the count goes up the file holds the new table's projection, otherwise table and file are unchanged |
| `Import.ImportFromLines` | calc.py:858-871 | the final table and count are those of `ImportAll`; after at least one add the file holds the final table's projection, otherwise it is unchanged |
| `Text.Strip` | calc.py:860 | the result is empty exactly when every character is whitespace, and otherwise starts and ends with a non-space |
| `Text.StripSlice` | calc.py:860 | the result is the slice of the input that starts right after its leading whitespace and is followed only by whitespace |
| `Text.StripUnique` | calc.py:860 | any slice with only whitespace outside it and non-space ends is what `strip()` returns |
| `Text.StripDropLeading` | calc.py:860-866 | removing some leading whitespace first does not change what `strip()` returns |
| `Text.StripDropTrailing` | calc.py:860-866 | removing some trailing whitespace first does not change what `strip()` returns |
| `Text.StripPadded` | calc.py:860-866 | whitespace, then a string with non-space ends, then whitespace, strips to that string |
| `Text.StripAroundSeps` | calc.py:860-866 | stripping `s,mid,m` leaves the separators and `mid` in place and removes whitespace only from the front of `s` and the back of `m`, whose fields strip as before |
| `Text.StripIdempotent` | calc.py:864-865 | stripping twice is stripping once |
| `Text.Normalize` | calc.py:491 | `.strip().title()` has the length of the stripped symbol, is empty exactly when the symbol is all whitespace, and otherwise starts and ends with a non-space |
| `Text.TitleFrom` | calc.py:491 | `str.title()` from a given cased/uncased state: the length is kept, and each character is whitespace exactly when the input character is |
| `Text.Title` | calc.py:491 | `str.title()`: the length is kept and the first character is upper-cased; cased characters are the ASCII letters only |
| `Text.TitleFromIdempotent` | calc.py:491 | applying `str.title()` twice equals applying it once |
| `Text.NormalizeIdempotent` | calc.py:491 | `.strip().title()` applied twice equals applying it once |
| `Text.Split` | calc.py:862 | there is always at least one piece, even for the empty string |
| `Text.SplitWhole` | calc.py:862 | a line without the separator is a single piece, the line itself |
| `Text.SplitConcat` | calc.py:862 | a separator-free piece followed by the separator splits off as the first piece |
| `Text.SplitThree` | calc.py:862 | three separator-free pieces joined by the separator split into exactly those three |
| `Text.JoinSplit` | calc.py:862 | joining the pieces of `split(',')` with commas gives back the line |
| `Text.SplitPieces` | calc.py:862 | no piece contains a comma, and there is one piece more than commas |

## Left out

- The whole tkinter layer is left out: windows, the periodic-table layout, dialogs, message
  boxes, clipboard, window titles and the rendering of the history text. It has no
  behaviour to state.
- File I/O is left out. Opening, `json.load`/`json.dump` and `os.path.exists` become
  parameters (`Option` of the decoded data) and the ghost fields `persisted` and `saved`.
  A write failure is not modelled. The source swallows it, so the in-memory state stays
  as the model says, but the file would go stale.
- A file that decodes but is malformed is left out, for both files. In the custom-compound
  file, a nitrate entry might not be a pair, say; the source catches the exception and
  keeps whatever the merge had done up to then. For the history file, `load_history`
  (calc.py:20) keeps whatever JSON value it decodes to, such as a dict or a list of
  non-records, and `add_record` and the history display then fail on it. The model takes
  the decoded data of both files as already typed.
- The CSV export (`export_to_excel`) is left out as file output.
- `datetime.now()` is left out. The timestamp is a string parameter.
- The `:.9f`/`:.3f` formatting is left out. The source stores the results in the history
  as formatted strings; the model stores the exact reals.
- IEEE floating point is left out. The model computes over exact reals, and Python's
  `float()` is the oracle `parse`, or an `Entry` that is already parsed. The source's
  `ZeroDivisionError` handler is unreachable once the guards are in place, and has no
  counterpart. Two float behaviours have no counterpart over the reals:
  `float("nan")` passes all five checks of calc.py:1055-1073, since every comparison
  with NaN is false; and a tiny Mx over a huge Mz underflows f to 0.0, so the guard at
  calc.py:1091 fires on accepted input.
- Stoichiometry.GuardsInactive: holds over the reals only; with IEEE doubles the
  underflow above makes f = 0 on some accepted inputs.
- `Text.Normalize` does ASCII-only case mapping. `str.title()` is written out with
  ASCII letters as the only cased characters, and other characters are left unchanged.
  Full Unicode case mapping is not modelled. `str.strip()` uses Python's complete
  whitespace set.
- A placeholder hint typed into another field is not modelled separately. The source
  turns any of the four hint strings into 0 in any field; the model has one `Placeholder`
  value for "the field shows a hint".
- Only six entries of the built-in element table are seeded, and the rest of
  calc.py:87-443 is left out. It is data: the operations do not depend on which entries
  exist.
- The manual "add compound" dialog (calc.py:820-845) is left out because it is GUI
  code. It is the only place that checks that the formula is non-empty and the mass
  positive.
- Three operations described for the system do not exist in `calc.py`, so they are
  not modelled: a formula-to-subscript formatter, deleting a history entry by index, and
  deleting a compound.
- The history cap is 100, as `calc.py` has it.
- The load merge only ever extends the lists of known symbols. It never replaces a list
  and never adds a symbol.
