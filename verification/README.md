# galcat core in Dafny

A model of the in-memory galaxy catalog of `galcat`: the `Database` class of
`galcat/core.py` and the `Validator` class of `galcat/validator.py`.

A catalog document is a dict. It has a `name` and one field per measured
quantity. Each such field holds a list of value entries, and each entry is a
dict with `value`, `reference`, `best` and so on.

**Loading.** Documents are read from `.json` files. Python lists in them are
converted to numpy arrays (the "fix") and the results are appended to the
database.

**Querying.** Queries use a MongoDB-like language, evaluated by
`_query_manual` and `_sub_query`:
- dotted keys such as `v_mag.value` look inside the entries of a field;
- operators `$gt`, `$gte`, `$lt`, `$lte`, `$exists` and `$or`;
- a presence filter on the field comes before the value filter.

**Tables.** `table` flattens each document into a row. A field of several
entries becomes the `value` of the entry with `best == 1`, or of the entry
whose reference the selection names.

**Validation.** The validator checks a new document's name, whether it is
already in the database, and its entries' values and references.

**Modules.**

| module | file | role |
|---|---|---|
| `Values` | `values.dfy` | Python/JSON values, `Result` and Python's comparison, truthiness, iteration and lookup |
| `Strings` | `strings.dfy` | `split('.')`, `strip()`, `replace`, prefix and suffix tests |
| `Convert` | `convert.dfy` | the fix and the reverse fix as one walk, with their round trips |
| `QueryEngine` | `query.dfy` | the query language as functions, and its properties |
| `Table` | `table.dfy` | the table cells and rows as functions |
| `Core` | `core.dfy` | the class `Database` |
| `Validator` | `validator.dfy` | the checks of `Validator` |
| `Scenarios` | `scenarios.dfy` | worked examples on two galaxies shaped like the repository's test data |

`Core.Database` holds the stored documents in a field `db`. Its methods keep
the loops of the source: the `ind_list` loop of `_sub_query`, the `$or`
loops, the table loops and the loading loop. Each method's postcondition
equates its result, or its new state, with the function in `Convert`,
`QueryEngine` or `Table` that specifies it. The properties are proved as
lemmas about those functions.

Modelling choices:
- Numbers are `real`s, and Python's `True == 1` is kept.
- Strings compare by code point.
- A dict is a sequence of (key, value) items in insertion order. `get` and
  `[]` take the first item with the key.
- A numpy array is `Array(elems)` and a Python list is `List(elems)`.
  Comparing with an array is element-wise. The truth value of the result
  follows numpy 1.x: an empty array is false, a one-element array is its
  element, and a longer array raises.
- Python exceptions become `Err(...)` values. The model keeps which kind of
  error is raised and in which order errors are raised.

The repository's tests (galcat/tests/test_core.py) were written for a later
revision of the code. Where they expect something else, the model follows
the code:
- `$exists` is evaluated by the in-memory engine (core.py:143-147). The tests
  expect it to raise `RuntimeError` (test_core.py:98-101).
- The fix walks every element of a list as a dict, so a list of numbers
  raises `AttributeError` (`Convert.FixRejectsNumberList`). The tests expect
  `[1, 2, 3]` to become an array (test_core.py:200-210).
- The reverse fix leaves arrays below the top level (core.py:58-62). The
  tests expect lists at every depth (test_core.py:213-223). See Findings.

Other behaviours of the code that the model keeps:
- When only one document has a queried field, its value filter is skipped
  (core.py:105). See Findings.
- In a table, a selection or a `best` flag that marks no entry raises
  `IndexError` (core.py:192); the field is not silently left out. A plain
  list with several entries raises `TypeError`, because a list cannot be
  indexed by a mask.
- `check_values` stops at the first bad entry and requires both `value` and
  `distribution` (validator.py:64-70). It does not collect every failure and
  does not accept either field alone.

## Model

| member | source | states |
|---|---|---|
| Strings.Split | galcat/core.py:102 | the pieces of `key.split('.')` contain no dot, joined with dots they give the key back, and there is more than one piece iff the key has a dot |
| Strings.Strip | galcat/core.py:78 | `strip()` returns a slice of its input that neither starts nor ends with whitespace, and only whitespace is cut away |
| Strings.ReplaceChar | galcat/core.py:78 | `replace(' ', '_')` keeps the length, changes exactly the spaces, and leaves no space |
| Values.Contains | galcat/core.py:122 | `key in doc` holds iff some item of the dict has that key |
| Values.Lookup | galcat/validator.py:38 | `d.get(k)` finds a value iff the key is present, and the value is the one of the first item with that key |
| Values.Get | galcat/core.py:136 | `y[k]` succeeds iff `y` is a dict with key `k` and gives that key's first value; a dict without the key raises `KeyError`, a numpy array refuses a string index with `IndexError`, and any other value raises `TypeError` |
| Values.Iterate | galcat/core.py:136-147 | iterating a list or array yields its elements, a string its one-character strings in order, a dict its keys in order; it raises iff the value is a number, boolean or `None` |
| Values.Truthy | galcat/validator.py:39 | Python truthiness: `None`, `False`, `0`, `""`, an empty list and an empty dict are false, and other values of those kinds true; a numpy array is false when empty, has its element's truth when it has one element, and raises `ValueError` when longer; only arrays raise |
| Values.ArrayTruth | galcat/core.py:136 | numpy 1.x truth of a comparison result: it raises iff the array has more than one element and is true iff it is one `True` |
| Values.Compare | galcat/core.py:136-142 | numbers and booleans compare numerically, strings by code point, and an ordering between unorderable scalars raises `TypeError` |
| Values.Keys | galcat/core.py:181 | the keys of a dict's items, in order |
| Convert.Walk | galcat/core.py:39-67 | a walk succeeds only on a dict, gives a dict with the same keys in the same order, and raises `AttributeError` on anything else |
| Convert.Fix | galcat/core.py:39-52 | the fix raises `AttributeError` on a non-dict and otherwise gives a dict with the same keys in the same order |
| Convert.FixFields | galcat/core.py:39-52 | field by field, the fix turns a list into an array of the fixed elements, fixes a nested dict and copies anything else |
| Convert.ReverseFix | galcat/core.py:54-67 | the reverse fix raises `AttributeError` on a non-dict and otherwise gives a dict with the same keys in the same order |
| Convert.ReverseFixFields | galcat/core.py:54-67 | field by field, the reverse fix as written turns an array into a list whose elements get the forward fix, gives a nested dict the forward fix, and copies anything else |
| Convert.Unfix | galcat/core.py:54-67 | the intended reverse conversion raises `AttributeError` on a non-dict and otherwise gives a dict with the same keys in the same order |
| Convert.UnfixFields | galcat/core.py:54-67 | field by field, that conversion turns an array into a list of the converted elements, converts a nested dict and copies anything else |
| Convert.WalkValue | galcat/core.py:42-51 | a nested dict keeps its keys, a replaced sequence is rebuilt in the target kind, anything else is copied |
| Convert.WalkFieldsStops | galcat/core.py:41-51 | the walk over a dict's items stops at the first item that fails |
| Convert.WalkElemsStops | galcat/core.py:46-48 | the walk over a sequence's elements stops at the first element that fails |
| Convert.WalkOkIff | galcat/core.py:39-52 | a walk fails exactly when it meets a non-dict where it needs `.items()`, at any depth |
| Convert.FixLoads | galcat/core.py:39-52 | fixing a parsed JSON document leaves no Python list in it and only dicts in its arrays |
| Convert.FixStored | galcat/core.py:39-52 | the fix changes nothing on a document that is already in stored form |
| Convert.FixRejectsNumberList | galcat/core.py:44-48 | the fix raises `AttributeError` on a list of numbers |
| Convert.ReverseFixStored | galcat/core.py:54-67 | on a stored document the reverse fix turns only the top-level arrays into lists; deeper arrays stay arrays |
| Convert.ReverseFixKeepsNestedArray | galcat/core.py:58-62 | the reverse fix does not undo the fix on a document whose entries hold a list of dicts |
| Convert.UnfixFix | galcat/core.py:54-67 | a reverse conversion at every depth undoes the fix on every parsed document the fix accepts |
| Convert.FixUnfix | galcat/core.py:54-67 | on a stored document that reverse conversion gives parsed JSON, which the fix turns back into the same document |
| QueryEngine.Gather | galcat/core.py:165 | `doc_list[ind_list]` has one element per index, the element at that index |
| QueryEngine.ComparisonOf | galcat/core.py:135-142 | exactly `$gt`, `$gte`, `$lt` and `$lte` are ordering operators |
| QueryEngine.In | galcat/core.py:145-147 | `k in y` is key membership for a dict and substring for a string, and raises for a scalar |
| QueryEngine.EntryTest | galcat/core.py:136-147 | an entry test needs the sub-field name (`IndexError` without it); a comparison compares `y[segs[1]]` with the operand; `$exists` asks whether the entry has the sub-field |
| QueryEngine.AnyOf | galcat/core.py:151-158 | tests that are all evaluated in order succeed iff each does, hold iff one holds, and otherwise give the first error |
| QueryEngine.AnyOfStops | galcat/core.py:151-158 | once a test raises, later tests do not change the outcome |
| QueryEngine.FieldTest | galcat/core.py:136 | a document without the field raises `KeyError` for it |
| QueryEngine.DocEquals | galcat/core.py:168 | a plain key compares `doc[key] == value`, raising `KeyError` when the key is missing |
| QueryEngine.Presence | galcat/core.py:122 | a document is in the result iff it is in the input and has the key, and the result is never longer than the input |
| QueryEngine.PresenceKeeps | galcat/core.py:122 | the presence filter keeps, position by position and in order, exactly the documents having the key: a repeated document is kept once per position that has it |
| QueryEngine.SelectSpec | galcat/core.py:124-168 | the value filter succeeds iff every document's test does, then keeps, position by position and in order, exactly the documents whose test holds; otherwise it raises the error of the first document whose test raises |
| QueryEngine.SelectOutcome | galcat/core.py:124-168 | the value filter succeeds iff every document's test does, and otherwise raises the error of the first document whose test raises |
| QueryEngine.SelectKeeps | galcat/core.py:125-165 | a successful value filter keeps exactly the positions whose test holds, in order, one copy per position |
| QueryEngine.SelectSnoc | galcat/core.py:126-164 | one more document is kept iff its test holds, and its test error aborts the filter |
| QueryEngine.SelectStep | galcat/core.py:126-165 | one pass of the `ind_list` loop keeps gathering exactly the filtered prefix |
| QueryEngine.SelectStops | galcat/core.py:126-164 | the value filter stops at the first document whose test raises |
| QueryEngine.SubQuerySubseq | galcat/core.py:112-170 | `_sub_query` with a value returns documents of its input in their order |
| QueryEngine.StepNarrows | galcat/core.py:102-108 | one query item returns a subsequence of its input, and a field key keeps only documents having the field |
| QueryEngine.QueryNarrows | galcat/core.py:97-110 | a query returns stored documents in stored order, each having the field of every field key of the query |
| QueryEngine.Query | galcat/core.py:97-110 | a query never returns more documents than it started from |
| QueryEngine.QueryPrefixStep | galcat/core.py:100-108 | one more item of a query is one more step on the result of the items before it |
| QueryEngine.Step | galcat/core.py:102-108 | one query item never returns more documents than it is given |
| QueryEngine.SubQuery | galcat/core.py:112-170 | with a `None` value a non-empty list raises `TypeError` (a list key is not hashable for `in`), and the result is never longer than the input |
| QueryEngine.Select | galcat/core.py:124-168 | the value filter never returns more documents than it is given |
| QueryEngine.DocTestErrors | galcat/core.py:124-168 | one document's test: a value that is neither a dict nor a list raises `KeyError` on a document without the field, and an empty operator dict under an operator or dotted key has no first item (`IndexError`) |
| QueryEngine.MatchErrors | galcat/core.py:127-162 | the loop body raises `IndexError` for an empty operator dict, `RuntimeError` for an operator it does not implement, and `KeyError` when an equality test meets a document without the field |
| QueryEngine.OrEvalNonList | galcat/core.py:148-158 | an `$or` operand that is not a list or array: a scalar raises when iterated, a non-empty string or dict yields strings without `.items()` (`AttributeError`), and an empty operand matches nothing |
| QueryEngine.KeyHitSpec | galcat/core.py:152-158 | inside `$or`, a key whose field the document lacks does not match, a `None` value raises `TypeError`, and otherwise the key matches iff the document's test holds |
| QueryEngine.QueryConcat | galcat/core.py:100-108 | the items of a query are applied one after another, each on the previous result |
| QueryEngine.SingleCandidateSkipsValue | galcat/core.py:103-106 | when at most one document has the queried field, that field's value is not tested at all |
| QueryEngine.FieldKeyFilters | galcat/core.py:103-106 | when several documents have the field, a field key keeps, position by position and in order, exactly those that have the field and whose test holds; for a dotted key the test looks at the field's entries |
| QueryEngine.FilterAfterPresence | galcat/core.py:104-106 | the presence filter followed by the value filter keeps, position by position, exactly the documents having the field and passing the test |
| QueryEngine.FilteredStepSpec | galcat/core.py:103-106 | the corrected step always keeps, position by position and in order, exactly the documents that have the field and pass the test; it agrees with the written step whenever several documents have the field |
| QueryEngine.ComparisonOperator | galcat/core.py:127-142 | a document matches `{op: c}` iff some entry of the field has a sub-field comparing to `c` as `op` says, and only the operator dict's first item counts |
| QueryEngine.UnknownOperator | galcat/core.py:159-160 | an operator that is not implemented raises `RuntimeError` for the first document and goes unnoticed when there are no documents |
| QueryEngine.OrSpec | galcat/core.py:148-158 | `$or` succeeds iff every sub-query evaluates and holds iff one of them matches |
| QueryEngine.OrItemSpec | galcat/core.py:151-158 | an `$or` sub-query must be a dict, and it matches iff one of its items does |
| QueryEngine.PlainKeyInOr | galcat/core.py:152-157 | inside `$or` a plain key matches iff the document has the field and it equals the value, even for a single document |
| QueryEngine.TopLevelOr | galcat/core.py:103-108 | a top-level `$or` keeps, position by position and in order, exactly the documents for which the `$or` test holds |
| Table.Column | galcat/core.py:189 | `[x[name] for x in val]` succeeds iff every entry has the field, and then lists those fields in order; otherwise it raises the error of the first entry that lacks it |
| Table.MaskField | galcat/core.py:187-191 | the mask reads `reference` when the selection names the field, and `best` otherwise |
| Table.MaskTarget | galcat/core.py:187-191 | the mask compares with the selection's entry for the field when there is one, and with 1 otherwise |
| Table.Mask | galcat/core.py:186-191 | the mask raises only when some entry lacks the field it reads or cannot be compared; otherwise it has one bit per entry, set iff that entry's field equals the target |
| Table.EqualBits | galcat/core.py:189-191 | the element-wise `== target` mask, one bit per entry |
| Table.FirstMarked | galcat/core.py:192 | `val[ind][0]` is the first marked entry, and there is none iff no bit is set |
| Table.Cell | galcat/core.py:182-194 | a scalar is copied, a single entry gives its `value`, and an empty field raises `IndexError` |
| Table.RowOfSpec | galcat/core.py:180-195 | a row that raises raises the error of one of its cells; otherwise every cell succeeded and the row has the document's keys in order, each with its cell |
| Table.RowsSpec | galcat/core.py:178-195 | a table that raises raises the error of one of its rows; otherwise every row succeeded and the table has one row per document, in order |
| Table.RowsPrefixStep | galcat/core.py:179-195 | one more document adds its row to the table built so far, or raises that row's error |
| Table.TableOf | galcat/core.py:172-196 | a failing query raises its error out of `table`; otherwise the table has one row per query result |
| Table.RowOfStops | galcat/core.py:181-194 | building a row stops at the first cell that raises |
| Table.RowsStops | galcat/core.py:179-195 | building the table stops at the first row that raises |
| Table.TableShape | galcat/core.py:172-196 | the table has one row per query result, each with exactly its document's keys |
| Table.SelectedReference | galcat/core.py:187-192 | with a selection for the field, the cell is the `value` of the first entry with that reference, and no such entry raises `IndexError` |
| Table.BestEntry | galcat/core.py:190-192 | without a selection, the cell is the `value` of the first entry with `best == 1`, and no such entry raises `IndexError` |
| Table.CellMissingField | galcat/core.py:186-191 | in a field of several entries, the first dict entry lacking the field the mask reads (`reference` or `best`) makes the cell raise `KeyError` for that field |
| Table.ListCellRaises | galcat/core.py:186-192 | once the mask of a plain list of several entries is computed, the list cannot be indexed by it, so its cell raises `TypeError` |
| Table.MarkedCell | galcat/core.py:187-192 | when the mask marks exactly the entries whose field equals a target, the cell is the first such entry's `value`, and none raises `IndexError` |
| Table.MarkedFirst | galcat/core.py:189-191 | on string references or numeric `best` flags, the mask marks exactly the entries equal to the target |
| Core.SaveFileName | galcat/core.py:76-78 | a given name is used as is; otherwise a document without `name` raises `KeyError`, a non-string name raises `AttributeError`, and a string name gives that name stripped, with its spaces made underscores, followed by `.json`, so it ends in `.json` and has no space |
| Core.AcceptFileName | galcat/core.py:25 | a listed file is loaded iff its name does not start with a dot and ends in `.json`, that is iff it is longer than `.json`, ends in it and does not start with a dot |
| Core.LoadAllSpec | galcat/core.py:22-28 | loading keeps the stored documents as a prefix and adds at most one document per listed file |
| Core.SavedFileIsLoadable | galcat/core.py:25 | a file saved under its default name is picked up by `load_all` iff the stripped name is neither empty nor starts with a dot |
| Core.LoadAllAppends | galcat/core.py:22-37 | loading never changes the documents already stored and, when it succeeds, appends the fixed accepted files in listing order |
| Core.LoadAllStops | galcat/core.py:22-28 | loading stops at its first failure |
| Core.LoadAllLoaded | galcat/core.py:22-37 | every document loaded from parsed JSON is in stored form |
| Core.Database.Empty | galcat/core.py:19 | a new database holds no documents |
| Core.Database.Open | galcat/core.py:9-20 | opening loads the listing into an empty database; a failing load raises out of the constructor; from JSON the database is in stored form |
| Core.Database.LoadToDb | galcat/core.py:30-37 | the fixed document is appended; a document the fix rejects raises and leaves the database unchanged |
| Core.Database.LoadAll | galcat/core.py:22-28 | the loop loads the accepted files in order and stops at the first failure, as `LoadAllSpec` says |
| Core.Database.FixDoc | galcat/core.py:39-52 | the forward fix |
| Core.Database.ReverseFixDoc | galcat/core.py:54-67 | the reverse fix as written |
| Core.Database.WalkDoc | galcat/core.py:39-67 | the loop that builds `out_doc` item by item computes the walk |
| Core.Database.WalkSeq | galcat/core.py:44-49 | the loop that rebuilds a replaced sequence element by element gives that field's walked value |
| Core.Database.SaveFromDb | galcat/core.py:69-83 | the document handed to `json.dumps` is the reverse fix, and when saving the file is named by `SaveFileName` |
| Core.Database.Query | galcat/core.py:85-110 | the loop over the query's items computes `QueryEngine.Query` on the stored documents |
| Core.Database.QueryItem | galcat/core.py:102-108 | the loop body for one query item computes `QueryEngine.Step` |
| Core.Database.SubQuery | galcat/core.py:112-170 | `_sub_query` with its `None` check, its `ind_list` loop and its plain-key filter computes `QueryEngine.SubQuery` |
| Core.Database.MatchAll | galcat/core.py:125-165 | the `ind_list` loop keeps, in order, exactly the documents whose test holds, and raises the first test error |
| Core.Database.MatchNext | galcat/core.py:126-164 | one pass of that loop appends the document's index iff it matches, keeping `ind_list` strictly increasing |
| Core.Database.MatchDoc | galcat/core.py:127-162 | the loop body decides whether one document goes into `ind_list` |
| Core.Database.OrLoop | galcat/core.py:148-158 | the `$or` loops compute the `$or` test |
| Core.Database.KeysLoop | galcat/core.py:152-158 | the inner `$or` loop over one sub-query's items finds a document iff the sub-query matches, and raises its first error |
| Core.Database.Table | galcat/core.py:172-196 | the table loops compute `TableOf` on the stored documents |
| Core.Database.RowLoop | galcat/core.py:180-195 | the inner loop over one document's items computes its row |
| Validator.CheckName | galcat/validator.py:36-42 | the name is returned iff the id field is present and truthy; a missing or falsy id raises the invalid-name error |
| Validator.CheckReferences | galcat/validator.py:74-79 | a reference check fails iff `reference` is missing, `None` or empty |
| Validator.EntryCheck | galcat/validator.py:64-70 | an entry passes iff it is a dict with `value` and `distribution` not `None` and a reference; a non-dict raises `AttributeError` |
| Validator.AllOf | galcat/validator.py:57-72 | checks run until one fails pass iff all pass, and otherwise give the first failure |
| Validator.AllOfStops | galcat/validator.py:66-70 | after a failing check the later ones do not matter |
| Validator.EntriesLoop | galcat/validator.py:63-70 | the inner loop returns at the first failing entry |
| Validator.CheckValues | galcat/validator.py:53-72 | the nested loops compute `ValuesSpec` |
| Validator.CheckExists | galcat/validator.py:44-51 | the existence check raises exactly when the query `{id_column: name}` does, and on an empty database it is false |
| Validator.ValuesSpec | galcat/validator.py:53-72 | a document that is not a dict raises `AttributeError`; a document with only the id field passes; any other verdict than a pass is the verdict of some field other than the id field |
| Validator.ValidateSpec | galcat/validator.py:31-34 | nothing runs for non-data; for data a non-dict raises `AttributeError`, a name error is raised as is, and a completed run has a truthy name and a values verdict that holds iff `check_values` passes |
| Validator.Validate | galcat/validator.py:31-34 | for data the checks run as name, then existence, then values, and the first error aborts; otherwise nothing runs |
| Validator.ValuesIff | galcat/validator.py:53-72 | `check_values` passes iff every entry of every field except the id field is a dict with `value`, `distribution` and a reference |
| Validator.FieldCheckIff | galcat/validator.py:63-70 | a field other than the id field passes iff it can be iterated and all its entries pass |
| Validator.IdFieldIgnored | galcat/validator.py:58-60 | whatever the id field holds, `check_values` gives the same answer |
| Validator.BothValueAndDistributionRequired | galcat/validator.py:64-66 | an entry lacking `value` or `distribution` fails |
| Validator.CheckExistsIff | galcat/validator.py:44-51 | when several documents have the id field, the existence check holds iff one of them has the name |
| Validator.CheckExistsSingleCandidate | galcat/validator.py:46-48 | when one document has the id field, the existence check holds for any name |
| Scenarios.LessThanQuery | galcat/tests/test_core.py:50-54 | `v_mag.value < 21` keeps both galaxies |
| Scenarios.AtMostQuery | galcat/tests/test_core.py:56-60 | `v_mag.value <= 16.2` keeps Gal 1 only |
| Scenarios.AtLeastQuery | galcat/tests/test_core.py:68-72 | `v_mag.value >= 20.2` keeps Gal 2 only |
| Scenarios.NoneQuery | galcat/tests/test_core.py:74-76 | `v_mag.value >= 999` keeps neither galaxy |
| Scenarios.FindGal2 | galcat/tests/test_core.py:29-30 | the name query for "Gal 2" finds Gal 2 |
| Scenarios.SingleGalaxyQuery | galcat/core.py:103-106 | against a database holding only Gal 1, the query for "Gal 2" returns Gal 1 |
| Scenarios.SingleGalaxyFiltered | galcat/core.py:103-106 | with the value filter always applied, that query returns nothing |
| Scenarios.RaBest | galcat/tests/test_core.py:133-134 | the `ra` cell of Gal 1 is the best measurement, 9.14542 |
| Scenarios.RaSelected | galcat/tests/test_core.py:138-139 | selecting FakeRef2019 for `ra` gives 999.14542 |
| Scenarios.RaMissingReference | galcat/core.py:189-192 | selecting a reference no `ra` entry has raises `IndexError` |
| Scenarios.DefaultFileName | galcat/tests/test_core.py:194-197 | Gal 1 is saved as `Gal_1.json` |

## Left out

- The MongoDB backend is left out: the `conn_string` branch, `use_mongodb` and `_query_mongodb` are stubs in the source.
- File and console I/O are left out: `os.listdir`, `open`, `json.load`, `json.dumps`, `print` (including `verbose` and the warning and error messages) and `os.path.join`. The directory listing is a parameter: a sequence of file names, each with the parsed contents of its file. The validated document is a parameter too. `save_from_db` returns the document it would write and the file name.
- The conversion to a pandas `DataFrame` at the end of `table` is left out. The model returns the list of rows.
- `check_dates` is left out because its body is empty.
- Floating point is left out: numbers are exact reals, with no NaN, infinity or int/float distinction.
- The model covers numpy arrays of values and the broadcasting of a one-element array. Multi-dimensional arrays, `np.append` flattening arrays into one another, and dtype coercion are not modelled.
- Duplicate keys in a dict are not modelled: `json.load` keeps the last one, and the model's lookup takes the first.
- Error messages are left out: only the kind of exception and the order in which errors are raised are modelled.
- Values.Compare: its contract states the results for numbers, booleans, strings and unorderable scalars. For lists, dicts and numpy arrays the behaviour is given only by its definition.
- Core.Database.SaveFromDb: `json.dumps` (core.py:72) is not modelled, and neither is the `TypeError` it raises on a numpy array. The reverse fix leaves such an array inside entries that hold a list of dicts (Finding 1), so for those documents the source raises before it names or writes a file, while the model returns the document.
- QueryEngine.Query, QueryEngine.Step, QueryEngine.Select: their own postconditions state only that no documents are added. What they keep is stated by the lemmas `QueryNarrows`, `QueryConcat`, `StepNarrows`, `FieldKeyFilters`, `SelectSpec` and `SelectOutcome`.
- QueryEngine.SubQuery: its own postconditions state the `None` error and the length bound. What it keeps is stated by `SubQuerySubseq` and `SelectSpec`.
- QueryEngine.DocTest, QueryEngine.Match, QueryEngine.OrEval, QueryEngine.KeyHit: these mutually recursive functions have no postconditions of their own. Their results are stated by `DocTestErrors`, `MatchErrors`, `OrEvalNonList`, `KeyHitSpec`, `ComparisonOperator`, `OrSpec`, `OrItemSpec` and `PlainKeyInOr`.
- Table.RowOf, Table.Rows: their properties are the lemmas `RowOfSpec` and `RowsSpec`.
- Core.Database.FixDoc, Core.Database.ReverseFixDoc: their postconditions only equate them with the functions `Convert.Fix` and `Convert.ReverseFix`. The properties of those functions are the `Convert` lemmas.

## Findings

| source | as written | input that shows it | evidently intended | confidence | as-written member | corrected member |
|---|---|---|---|---|---|---|
| galcat/core.py:58-62 | the reverse fix passes nested dicts and array elements to the forward fix | a value entry holding a list of dicts (`Convert.NestedListDoc`): after fix and reverse fix, the inner list is still a numpy array, so `save_from_db` (core.py:72) raises `TypeError` in `json.dumps` on that document | arrays turned back into lists at every depth, so that reverse fix undoes fix | not executed | Convert.ReverseFixKeepsNestedArray | Convert.UnfixFix |
| galcat/core.py:105 | the value filter runs only when more than one document has the queried field | the query `{"name": "Gal 2"}` on a database holding only Gal 1 returns Gal 1 | the value filter applied whatever the number of candidates | not executed | Scenarios.SingleGalaxyQuery | QueryEngine.FilteredStepSpec |
