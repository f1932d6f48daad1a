# BRAID provenance store, modelled in Dafny

BRAID records provenance: *records* (a name and a time) linked by
*dependency* rows, each record carrying URIs and typed *tags*. This project
models the core of the store and the logic around it, and proves what that
code promises.

- `wrappers.dfy` (`Wrappers`): `Option` and `Result`.
- `text.dfy` (`Text`): decimal printing and reading of integers (`str(int)`, `int(str)`), zero padding, and joining and splitting strings.
- `sql_text.dfy` (`SqlText`): the SQL text helpers `q`, `qL`, `qA` and `sql_tuple`, and the commands that `BraidSQL.select` and `insert` send. `src/db_tools_mpi.py` repeats the same helpers and builders word for word, so one definition covers both files. The command builders have partner parsers and round-trip lemmas. `q` escapes nothing, and `QuoteDoesNotEscape` shows what SQL then reads.
- `braid_models.dfy` (`BraidModels`): the four table row shapes, `BraidTagType`, the `uri` property, the row filters behind the lookups, and `TagsMap`. `TagsMap` is the last-row-wins dictionary that `get_tags` builds.
- `braid_store.dfy` (`BraidStore`): the SQLModel-based store.
  - `BraidDB` is a class whose four tables are `seq` fields, appended to by `add_model`.
  - `BraidRecord` (with `BraidFact`, `BraidData` and `BraidModel` as a `kind`) assigns its id lazily on the first `record_id` read. It writes dependency, URI and tag rows through the database.
  - `SerialCounter` is the module-level `serial` and `make_serial`.
- `legacy_store.dfy` (`LegacyStore`): the older cursor-based store in `src/braid_db.py`.
  - Its `LegacyDB` keeps the SQL text of every command it was sent, next to the rows those commands produced.
  - A `str(None)` id in a values tuple is refused by sqlite.
  - `store()` inserts a new row on every call.
- `mermaid.dfy` (`MermaidGraph`): node names, `truncate_val`, the record, action and invalidation shapes, and the `to_mermaid` worklist traversal.
  - The database is a finite `Graph` value: the records by id, and for each id what `get_derivations` and `get_predecessors` return.
  - `ToMermaid` is proved to visit the root first and each reachable record exactly once. It follows both derivatives and predecessors, and its output is the header followed by one block per visited record, in visiting order.
- `funcx.dfy` (`FuncxSteps`): the argument handling of the FuncX entry points. Python's JSON-like values are modelled by `Value`.
  - `step_result` normalisation and the status tag.
  - `uris` wrapping.
  - The nested-parameter flattening loop, proved equal to its recursive specification and a permutation of the structural leaves. As written, a nested key is prefixed only by its parent's key.
  - Recovery of record ids and action ids from an earlier step's report, and the checks of `create_invalidation_action` and `add_invalidation_action_to_record`.
  - The hash-keyed registration cache, and the input wrapping of `add_records`.
- `db_create.dfy` (`BackupNames`): `find_next_bak` of both db-create tools. It returns the first free `<file>.<i>.bak`, with `i` zero padded to at least three digits. The file system is the finite set of existing names.

Three places where the code behaves differently from what its callers and tests expect:
- The foreign keys of the new schema are declared but not enforced by sqlite, so no operation fails for a dangling record id. The model follows the code.
- `add_tag` returns nothing; no tag id is reported. The model follows the code.
- `add_record_for_action_step` calls `add_tag` and `add_uri` with a `session=` argument that `BraidRecord` does not accept (src/braid_db/funcx/funcx_main.py:161, 167, 178). Here the model does not follow the code. The step as written is `ActionStepAsWritten`: it stores the record and then stops with a TypeError. The step the flows rely on is `ActionStep`, which adds the tags and URIs and links the predecessor. Both are under "## Findings".

## Model

| member | source | states |
|---|---|---|
| SqlText.Q | src/db_tools.py:84-86 | the quoted text is the string with one single quote before and after it |
| SqlText.UnquoteQ | src/db_tools.py:84-86 | removing the surrounding quotes from `q(s)` gives back `s`, for every string |
| SqlText.QuoteFaithfulWithoutQuotes | src/db_tools.py:84-86 | SQL reads a `q`-quoted literal as exactly the original text when the text holds no single quote |
| SqlText.LiteralValueLength | src/db_tools.py:84-86 | what SQL reads from a quoted literal is never longer than its body, and is as long only when the body holds no quote |
| SqlText.QuoteDoesNotEscape | src/db_tools.py:84-86 | since nothing is escaped, SQL reads a `q`-quoted value as written if and only if the value holds no single quote |
| SqlText.LoneQuoteBreaks | src/db_tools.py:84-86 | a value with a single quote not followed by another, after a readable prefix, cannot be read: the literal ends early |
| SqlText.DoubledQuoteReadsAsOne | src/db_tools.py:84-86 | a doubled quote inside a value reaches SQL as one quote, with the text around it read as before |
| SqlText.QuoteEach | src/db_tools.py:88-94 | `qL`/`qA` keep count and order, and each element unquotes back to its input; the copies in `src/db_tools_mpi.py` (lines 126-133) are the same text |
| SqlText.SqlTuple | src/db_tools.py:96-102 | the tuple is parenthesised, and the empty list gives `()` |
| SqlText.QuotedField | src/db_tools.py:84-86 | a `q`-quoted value without quotes is read by SQL as one tuple element, whatever commas or spaces it holds |
| SqlText.SplitFieldsJoin | src/db_tools.py:96-102 | reading a comma-joined list back at the commas outside quoted literals gives the list, when each element is plain text or one quoted literal |
| SqlText.SqlTupleRoundTrip | src/db_tools.py:96-102 | reading `sql_tuple(L)` back gives `L` for any non-empty list whose elements are plain text or quoted literals, commas inside literals included; the `sql_tuple` of `src/db_tools_mpi.py` (lines 136-142) is the same text |
| SqlText.FirstWord | src/db_tools.py:33-40 | the position found holds the word and no earlier position does; no position is found exactly when the word is absent |
| SqlText.FromClauseWords | src/db_tools.py:35-39 | the part from `from` on splits into `from`, the table with `;`, or `from`, the table, `where` and the condition's words |
| SqlText.SelectWords | src/db_tools.py:33-40 | the select command's words are `select`, the words of the column list (spaces allowed), then the from clause's words |
| SqlText.SelectWordsReadBack | src/db_tools.py:33-40 | `select`, a column list without the word `from`, and a from clause read back as that table, column list and condition |
| SqlText.SelectRoundTrip | src/db_tools.py:33-40 | the select command determines its table, columns and optional condition whenever the table is one word and the column list does not contain the word `from`; `BraidSQL_MPI.select` in `src/db_tools_mpi.py` (lines 53-60) builds the same text |
| SqlText.InsertWords | src/db_tools.py:42-48 | the insert command is `insert into T (names) values (values);` word by word |
| SqlText.InsertRoundTrip | src/db_tools.py:42-48 | the insert command determines its table, names and values when the table and names are single words and each name and value is plain text or a quoted literal, which may hold commas and spaces; `BraidSQL_MPI.insert` in `src/db_tools_mpi.py` (lines 62-68) builds the same text |
| BraidModels.TagTypeOf | src/braid_db/braid_db.py:36-42 | converting an integer gives a tag kind exactly for 0..3, and that kind's value is the integer |
| BraidModels.FirstUri | src/braid_db/models/braid_models.py:37-39 | `uri` is absent exactly when there are no URI rows, and is otherwise the first one |
| BraidModels.DependencyRowsOf | src/braid_db/braid_db.py:182-187 | the selected dependency rows are exactly the rows with that `record_id`, and there are no more of them than rows |
| BraidModels.UriRowsOf | src/braid_db/models/braid_models.py:63-68 | a record's URI rows are exactly the rows carrying its id |
| BraidModels.TagRowsOf | src/braid_db/braid_db.py:225-227 | the selected tag rows are exactly the rows with that `record_id` |
| BraidModels.TagsMapOkIff | src/braid_db/braid_db.py:228-233 | building the tag dictionary succeeds if and only if every stored kind is a `BraidTagType` value |
| BraidModels.TagsMapKeys | src/braid_db/braid_db.py:228-233 | the dictionary has one entry per distinct key among the rows, and no other |
| BraidModels.TagsMapLastRowWins | src/braid_db/braid_db.py:228-233 | each key maps to the value and kind of the last row that carries it |
| BraidModels.TagsMapErrorSticks | src/braid_db/braid_db.py:229-230 | once a row with an unknown kind has been read, the rest of the rows cannot change the outcome |
| BraidModels.CollectTags | src/braid_db/braid_db.py:228-233 | reading the rows in order into a dictionary gives exactly the last-row-wins tag map, or stops with the first unknown kind; the legacy fetch loop of `src/braid_db.py` (lines 135-143) is the same loop |
| BraidStore.FindRecord | src/braid_db/braid_db.py:104-112 | the query finds a row exactly when some row has the id, and what it finds has that id |
| BraidStore.BraidDB.constructor | src/braid_db/braid_db.py:83-87 | a freshly created database has four empty tables and satisfies the store invariant |
| BraidStore.BraidDB.GetRecordModelById | src/braid_db/braid_db.py:104-112 | the result is present if and only if a record row has the id, and it is that row |
| BraidStore.BraidDB.RecordByPosition | src/braid_db/models/braid_models.py:26-30 | since the store numbers records 1, 2, 3 in insertion order, record `id` is the `id`-th row and ids outside that range find nothing |
| BraidStore.BraidDB.AddModel | src/braid_db/braid_db.py:117-130 | a new record, URI or tag row is appended with the next id; a stored record is a no-op; a dependency pair with a NULL member (both columns are primary key columns, hence NOT NULL) or already present is an integrity error and changes nothing; otherwise exactly one dependency row is appended; the invariant is kept |
| BraidStore.BraidDB.GetDependencies | src/braid_db/braid_db.py:175-201 | one entry per matching dependency row, in row order: the record it points at, or none where no record has that id |
| BraidStore.BraidDB.GetUris | src/braid_db/braid_db.py:203-214 | an unknown record id gives `[]`; otherwise the record's URIs, one per URI row, in row order |
| BraidStore.BraidDB.GetTags | src/braid_db/braid_db.py:216-233 | the loop's result is the last-row-wins dictionary of the record's tag rows, or the error for the first unknown kind |
| BraidStore.SerialCounter.MakeSerial | src/braid_db/braid_db.py:262-266 | returns the current counter and increments it by one |
| BraidStore.FirstSerials | src/braid_db/braid_db.py:259-266 | a fresh counter hands out 1, 2, 3 |
| BraidStore.BraidRecord.constructor | src/braid_db/braid_db.py:270-291 | a new record has no id, no dependencies, URIs or tags, and its model holds the given time or else the clock reading |
| BraidStore.BraidRecord.RecordId | src/braid_db/braid_db.py:293-298 | with a database, the first read stores and numbers the record and later reads change nothing; without one, the id stays as it was; no other table or field changes |
| BraidStore.RecordIdIsStable | src/braid_db/braid_db.py:293-298 | two reads give the same id, and at most one record row is added in total |
| BraidStore.BraidRecord.AddDependency | src/braid_db/braid_db.py:300-357 | appends the argument to `dependencies` and adds the row (own id after the read, the other record's current model id), or an integrity error if the other record has no id yet or that pair is stored; nothing else changes; a fact (lines 355-357) refuses every dependency and changes neither itself nor the database |
| BraidStore.DependencyIsReported | src/braid_db/braid_db.py:175-201 | a dependency added without error on a stored record is among those `get_dependencies` reports |
| BraidStore.TargetIsReported | src/braid_db/braid_db.py:175-201 | a stored dependency row of a record, whose target is a stored record, puts that target record among the results of `get_dependencies` |
| BraidStore.BraidRecord.Update | src/braid_db/braid_db.py:387-389 | `BraidModel.update` is `add_dependency` on the model |
| BraidStore.BraidRecord.AddUri | src/braid_db/braid_db.py:309-314 | appends the URI to the record's list and, with a database, exactly one URI row under the record's id |
| BraidStore.UriIsReported | src/braid_db/braid_db.py:203-214 | a URI added to a record with a database is among the URIs `get_uris` returns for it |
| BraidStore.BraidRecord.AddTag | src/braid_db/braid_db.py:316-333 | a type that is not a tag kind is refused before `tags` or any row changes; otherwise `tags[key] == value`, overwriting any earlier value, and exactly one tag row with the kind's value is appended, or none without a database |
| BraidStore.BraidRecord.Store | src/braid_db/braid_db.py:359-362 | storing a fact, data or model record adds it once and returns its id; storing again adds nothing; without a database the call fails |
| LegacyStore.IdText | src/braid_db.py:186-187 | `str` of a record id is `None` exactly for a missing id, and otherwise digits whose value is the id |
| LegacyStore.DependencyRowsFor | src/braid_db.py:105-106 | the selected rows are exactly the dependency rows of that record |
| LegacyStore.LegacyDB.constructor | src/braid_db.py:47-57 | a created database has no rows and has been sent no commands |
| LegacyStore.LegacyDB.InsertRecord | src/braid_db.py:234-235 | sends `insert into records (name,time) values ('n','t');` and appends the row, returning its row id, unless a value holds a quote |
| LegacyStore.LegacyDB.InsertDependency | src/braid_db.py:186-187 | sends the dependencies insert with both ids as `str`; a missing id is an unknown column and inserts nothing |
| LegacyStore.LegacyDB.InsertUri | src/braid_db.py:192-193 | sends the URI insert with the quoted URI and appends the row under the record's id, unless the id is missing or the URI holds a quote |
| LegacyStore.TagTypeText | src/braid_db.py:207 | `str(type_.value)` is one decimal digit whose value is the kind's stored integer |
| LegacyStore.TagTypeTextIsStr | src/braid_db.py:207 | that digit is exactly the decimal text of the kind's integer |
| LegacyStore.LegacyDB.InsertTag | src/braid_db.py:204-207 | sends the tags insert with quoted key and value and the kind's integer, and appends exactly one tag row when it can be read |
| LegacyStore.TagColumnsAreFields | src/braid_db.py:204-205 | the tags table's column names are single words that SQL reads as one element each |
| LegacyStore.TagInsertReadsBack | src/braid_db.py:204-207 | for a stored record and a key and value without quotes, the tags insert sent reads back as the tags table, its four columns and exactly the id, quoted key, quoted value and kind sent |
| LegacyStore.TagSelectColumns | src/braid_db.py:133 | the column list `key, value, type` contains no word `from` |
| LegacyStore.TagsSelectReadsBack | src/braid_db.py:133-134 | the tags query reads back as the tags table, the three columns and the record condition |
| LegacyStore.LegacyDB.GetDependencies | src/braid_db.py:100-112 | sends the select for the record's dependencies and returns their ids in row order, changing no table |
| LegacyStore.LegacyDB.GetUris | src/braid_db.py:114-126 | sends the select for the record's URIs and returns them in row order |
| LegacyStore.LegacyDB.GetTags | src/braid_db.py:128-143 | sends the select for the record's tags and returns the last-row-wins dictionary, or the error for an unknown kind |
| LegacyStore.LegacyRecord.constructor | src/braid_db.py:164-181 | each new record takes the next serial from the counter; its id is `None` and its lists and tags are empty |
| LegacyStore.SerialsIncrease | src/braid_db.py:152-165 | two records created one after the other get consecutive, increasing serials |
| LegacyStore.LegacyRecord.AddDependency | src/braid_db.py:183-231 | appends the argument and issues exactly one dependencies insert, which succeeds if and only if both records are stored; a fact (lines 229-231) refuses and sends nothing |
| LegacyStore.UnstoredDependencyFails | src/braid_db.py:183-187 | a dependency on a record that was never stored is refused |
| LegacyStore.LegacyRecord.Update | src/braid_db.py:263-265 | `BraidModel.update` appends the dependency and sends exactly one dependencies insert with both ids as `str`; it succeeds, appending that row, if and only if both ids exist, and otherwise fails as an unknown column with no row added; URIs, tags and the other tables are unchanged |
| LegacyStore.LegacyRecord.AddUri | src/braid_db.py:189-193 | appends the URI and sends exactly one URI insert; a missing id is an unknown column and a quote is refused, both adding no row; otherwise exactly one URI row with the next row id and the record's id is appended; the other tables are unchanged |
| LegacyStore.LegacyRecord.AddTag | src/braid_db.py:195-207 | a type that is not a tag kind is refused before any insert; otherwise `tags[key] == value` and exactly one tags insert is sent, which appends one tag row with the next row id, or fails for a missing id or a quote with no row added; the other tables are unchanged |
| LegacyStore.LegacyRecord.Store | src/braid_db.py:249-253 | `store()` sends one records insert and takes the new row id as the record id, the row holding the name and time; a value with a quote is refused and the id and records stay as they were; the other tables are unchanged |
| LegacyStore.StoreTwiceInsertsTwice | src/braid_db.py:233-237 | storing twice inserts two rows, and the second id is one more than the first |
| MermaidGraph.QuoteStr | src/braid_db/service/viz/mermaid_graphing.py:33-34 | the text between the two double quotes is the string itself |
| MermaidGraph.RecordNodeNamesDistinct | src/braid_db/service/viz/mermaid_graphing.py:37-38 | different record ids give different node names |
| MermaidGraph.ActionNodeNameIff | src/braid_db/service/viz/mermaid_graphing.py:41-44 | two actions share a node name if and only if their ids agree in the first five characters |
| MermaidGraph.InvalidationNodeNameIgnoresForm | src/braid_db/service/viz/mermaid_graphing.py:47-54 | an invalidation and its raw id give the same name: `invalidation` plus the first five characters |
| MermaidGraph.TruncateValShort | src/braid_db/service/viz/mermaid_graphing.py:58-61 | a value no longer than `max_len` is returned unchanged |
| MermaidGraph.TruncateValLeft | src/braid_db/service/viz/mermaid_graphing.py:64-65 | left truncation is the first `max_len` characters plus `...`, of length `max_len + 3` |
| MermaidGraph.TruncateValRight | src/braid_db/service/viz/mermaid_graphing.py:62-63 | right truncation with `max_len >= 1` is `...` plus the last `max_len` characters |
| MermaidGraph.TruncateValZeroFromRight | src/braid_db/service/viz/mermaid_graphing.py:62-63 | as written, `max_len == 0` from the right returns `...` plus the whole value, which is longer than the value |
| MermaidGraph.TruncateValIntended | src/braid_db/service/viz/mermaid_graphing.py:57-66 | short values are unchanged; a long value becomes `max_len + 3` characters: `...` then a suffix of the value, or a prefix of the value then `...` |
| MermaidGraph.TruncateValAgrees | src/braid_db/service/viz/mermaid_graphing.py:57-66 | the written and the intended truncation agree for every input except `max_len == 0` from the right |
| MermaidGraph.LabelLinesTruncateAsIntended | src/braid_db/service/viz/mermaid_graphing.py:75-84 | the labels call the written truncation with limits 90, 25 and 32, so every URI line and both halves of a tag line are the intended truncation |
| MermaidGraph.RecordLabelStartsWithName | src/braid_db/service/viz/mermaid_graphing.py:71-90 | the record's label starts with the record's name |
| MermaidGraph.RecordShapeEndsWithFill | src/braid_db/service/viz/mermaid_graphing.py:90-96 | the shape ends with the style line's fill of the record's colour |
| MermaidGraph.RecordShapeColour | src/braid_db/service/viz/mermaid_graphing.py:91-95 | the fill is LightPink exactly when the record has an invalidation, and LightGoldenRodYellow exactly when it has none |
| MermaidGraph.EdgeLinesAppend | src/braid_db/service/viz/mermaid_graphing.py:168-170 | the edge lines of a concatenated list are the lines of each part, in order |
| MermaidGraph.EmitDerivations | src/braid_db/service/viz/mermaid_graphing.py:166-175 | one `A-->B` line for every derivative, visited or not; queues exactly the derivatives neither visited nor queued, each once |
| MermaidGraph.PushPredecessors | src/braid_db/service/viz/mermaid_graphing.py:177-180 | queues exactly the predecessors neither visited nor queued, each once, and writes nothing |
| MermaidGraph.WriteVisit | src/braid_db/service/viz/mermaid_graphing.py:138-175 | visiting a record appends exactly its block (shape, action, invalidation, edges) to the output |
| MermaidGraph.TraversalStep | src/braid_db/service/viz/mermaid_graphing.py:137-180 | one pop-and-visit keeps the traversal invariant: distinct visit order, unvisited queue, closure under neighbours, each record reached from an earlier one |
| MermaidGraph.VisitNext | src/braid_db/service/viz/mermaid_graphing.py:137-180 | the loop body visits an unvisited record, keeps the invariant, and extends the output by that record's block |
| MermaidGraph.TraversalComplete | src/braid_db/service/viz/mermaid_graphing.py:137-182 | with the queue empty, the visit order starts at the root, has no repeats, is closed under derivatives and predecessors, and each later record neighbours an earlier one |
| MermaidGraph.ToMermaid | src/braid_db/service/viz/mermaid_graphing.py:130-182 | a missing root is an error; otherwise the output is `graph TD\n` followed by one block per record of a repeat-free order from the root covering every record connected to it |
| FuncxSteps.Lookup | src/braid_db/funcx/funcx_main.py:159 | `dict.get` finds a value exactly when the key is present, and the value is stored under that key |
| FuncxSteps.StrOfInt | src/braid_db/funcx/funcx_main.py:193-194 | `str` of an integer is its decimal text, which `int()` reads back |
| FuncxSteps.NormaliseStepResult | src/braid_db/funcx/funcx_main.py:156-159 | `None` becomes "Not Provided"; a dict becomes its "status" entry, or "Not Present in Step Results" without one; anything else is unchanged |
| FuncxSteps.StatusTagOfText | src/braid_db/funcx/funcx_main.py:156-161 | the status tag of a text result or a dict holding a text status is that text, and the markers otherwise |
| FuncxSteps.UrisToAdd | src/braid_db/funcx/funcx_main.py:163-167 | a lone string gives one URI, a list gives each element in order, anything else gives none |
| FuncxSteps.FlattenParameters | src/braid_db/funcx/funcx_main.py:170-178 | the stack loop emits exactly the tags of the stack specification `Run`, a permutation of the structural leaves, one per non-dict value |
| FuncxSteps.WalkLeaves | src/braid_db/funcx/funcx_main.py:172-178 | walking a dict over a stack yields the dict's leaves and the stack's leaves, as a multiset |
| FuncxSteps.FlattenIsLeaves | src/braid_db/funcx/funcx_main.py:170-178 | the flattened tags are the leaves of the parameter dict, one tag per non-dict value at any depth |
| FuncxSteps.FlattenKeepsOnlyParentKey | src/braid_db/funcx/funcx_main.py:175-176 | a value two dicts deep is tagged by its parent's key and its own key, without the outer key |
| FuncxSteps.StepTags | src/braid_db/funcx/funcx_main.py:156-178 | the step's tags are the status tag first, then the flattened parameters when they are a dict |
| FuncxSteps.ActionStepAsWritten | src/braid_db/funcx/funcx_main.py:151-161 | as written, the step stores one record and then raises TypeError at the first `add_tag`, which gets a `session` keyword it does not take: no tag, no URI, no link |
| FuncxSteps.ActionStep | src/braid_db/funcx/funcx_main.py:151-221 | as intended, the step stores one record and raises nothing; its tags are the status tag, then a permutation of the parameter leaves when the parameters are a dict; its URIs are the wrapped or listed ones; its predecessor is what `LinkPreviousStep` resolves |
| FuncxSteps.SessionKeywordLosesTags | src/braid_db/funcx/funcx_main.py:161 | on every input, the written step raises where the intended one does not, and records fewer tags |
| FuncxSteps.PriorStepRecordId | src/braid_db/funcx/funcx_main.py:187-192 | the record id a step reports (lines 217-222) reads back from the flow's report of it |
| FuncxSteps.RecordKey | src/braid_db/funcx/funcx_main.py:196-198 | an int outside sqlite's signed 64 bits raises OverflowError and a list or dict raises InterfaceError, exactly; otherwise the key of an int is the int, a bool counts as 0 or 1, and any other value has none |
| FuncxSteps.LookupPrevious | src/braid_db/funcx/funcx_main.py:196-215 | an id the driver cannot bind gives its exception with no name and no link; a stored record gives its name and a link from it; otherwise the not-found message and no link |
| FuncxSteps.LinkPreviousStep | src/braid_db/funcx/funcx_main.py:180-215 | no predecessor gives nothing; an exception leaves no name and no link; a link always names a stored record and its name |
| FuncxSteps.LinkByText | src/braid_db/funcx/funcx_main.py:193-194 | an id given as text resolves to the same predecessor as the id itself |
| FuncxSteps.LinkByPriorStep | src/braid_db/funcx/funcx_main.py:187-205 | a step fed an earlier step's report links from that step's stored record (a stored id is a sqlite integer, so within 64 bits) |
| FuncxSteps.LinkUnbindable | src/braid_db/funcx/funcx_main.py:187-215 | an unbindable id, given directly or inside an earlier step's report, is caught: the driver's exception, no name, no link |
| FuncxSteps.LinkByBadText | src/braid_db/funcx/funcx_main.py:193-194 | text that is not an integer ends the resolution with a ValueError and no link |
| FuncxSteps.InvalidationActionParams | src/braid_db/funcx/funcx_main.py:232-255 | succeeds if and only if `command` is given and `params` is `None` or a list; failures are ValueError; list parameters are stored under "args" |
| FuncxSteps.BindInvalidationAction | src/braid_db/funcx/funcx_main.py:268-309 | a record id that is not a dict, str or int, or an action id that is not a dict or str, is a ValueError; success names a stored record by an id within 64 bits, and a text action id is kept as given |
| FuncxSteps.BindFromPriorSteps | src/braid_db/funcx/funcx_main.py:290-309 | the reports of an earlier step and of `create_invalidation_action` (line 262) bind that action to that step's record (a stored id is within 64 bits) |
| FuncxSteps.BindKnownRecord | src/braid_db/funcx/funcx_main.py:290-309 | a record id, as int or as its decimal text, that names a stored record (so is within 64 bits) binds a text action id to that record |
| FuncxSteps.BindUnknownRecord | src/braid_db/funcx/funcx_main.py:299-302 | a record id within 64 bits, as int or as text, that names no stored record is a ValueError |
| FuncxSteps.BindOutOfRange | src/braid_db/funcx/funcx_main.py:296-299 | a record id outside 64 bits, as int or as text, makes the lookup raise OverflowError whatever is stored |
| FuncxSteps.FirstHashMatch | src/braid_db/funcx/funcx_main.py:452-454 | no uuid is found exactly when no entry has the hash |
| FuncxSteps.FirstHashMatchAt | src/braid_db/funcx/funcx_main.py:452-454 | the uuid found is that of the first entry with the hash |
| FuncxSteps.SetNameFinds | src/braid_db/funcx/funcx_main.py:456 | after `fn_map[name] = entry`, the name finds the new entry and every other name finds what it found before |
| FuncxSteps.SetNameThenHit | src/braid_db/funcx/funcx_main.py:452-456 | after a registration, the next lookup by the same hash finds the new uuid |
| FuncxSteps.GetFuncxIdForFunction | src/braid_db/funcx/funcx_main.py:443-459 | a cached hash returns the first matching uuid and changes nothing; otherwise the new uuid is entered under the function's name, in the map passed in, or in the file when the map was loaded from it |
| FuncxSteps.LookupTwiceRegistersOnce | src/braid_db/funcx/funcx_main.py:443-459 | asking twice for the same function registers it once: both calls give the first uuid |
| FuncxSteps.RecordInputs | src/braid_db/funcx/funcx_main.py:387-389 | a lone dict is wrapped, a list is taken whole, and the extra arguments follow; other inputs fail with AttributeError |
| FuncxSteps.OutcomesCount | src/braid_db/funcx/funcx_main.py:390-397 | there is one outcome per dict among the inputs |
| FuncxSteps.SingleDictFirst | src/braid_db/funcx/funcx_main.py:387-397 | a lone dict's outcome comes first, then one per dict among the extra arguments |
| FuncxSteps.AddRecords | src/braid_db/funcx/funcx_main.py:387-399 | the loop returns, in input order, one outcome per dict input (the added record or the exception's text), skipping other inputs |
| BackupNames.IndexText | src/braid_db/tools/db_create.py:13 | `{i:03}` is at least three digits whose decimal value is `i` |
| BackupNames.IndexTextWidth | src/braid_db/tools/db_create.py:13 | indices below 1000 print exactly three digits; indices from 100 up print unpadded, so widening never truncates |
| BackupNames.BakNameInjective | src/braid_db/tools/db_create.py:13 | different indices give different backup names |
| BackupNames.FindNextBak | src/braid_db/tools/db_create.py:10-18 | returns `<file>.<i>.bak` for some `i >= 1` that does not exist, with every smaller index's name existing; the `%03i` variant in `src/tools/db-create.py` (lines 18-26) prints the same name |
| BackupNames.FirstBakName | src/tools/db-create.py:21 | the first candidate is `<file>.001.bak` |

## Left out

- The invalidation engine (`invalidate`, `is_valid`, `by_record_id`, `for_tag_value`, `set_invalidation_action`, `BraidInvalidationModel`, `BraidInvalidationAction`, `BraidDerivationModel`) is not part of this model. Its definitions are not among the sources. `add_invalidation_action_to_record` is modelled up to the binding it would pass on, and `add_record_for_action_step` up to the id it would link from.
- `get_session`, `get_derivations` and `get_predecessors` are not part of this model. `to_mermaid` takes the database as a finite `Graph` value holding their answers.
- SQLAlchemy and SQLModel sessions, commits, engines and cursors are left out: each `add_model` call is taken to commit at once. `BraidDB.run_query`, `size`, `print` and `extract_tags`, and the `connect`/`execute`/`close` plumbing of `BraidSQL`, are left out as I/O and output formatting.
- The legacy `create()` reads `braid-db.sql` from `BRAID_HOME`; that schema file is not part of this model. The legacy tables are assumed to number their rows from 1, as sqlite does.
- MPI coordination is left out, being message passing between processes. So are the FuncX client, its polling loop, `register_function` and `sha256_function`. The implementation hash and the uuid a registration would return are parameters of `GetFuncxIdForFunction`.
- The registration cache file's JSON reading and writing is left out. `CacheFile` holds the saved map, and a missing file is the empty map.
- The pydantic input and output models of `add_records` are left out. Adding one record is a function parameter that gives the output or the exception's text.
- `add_records` extends the caller's list in place. The model builds the list of inputs as a new value.
- `Str`/`Repr` do not model Python's escaping inside `repr` of strings. `ParsePyInt` does not accept the surrounding whitespace, the `_` digit separators or the non-ASCII decimal digits (`int("١٢") == 12`) that `int()` allows. Dict keys are strings only.
- Clocks (`datetime.now`, `utcnow`, `strftime`) are left out. Times are values passed in: the clock reading as `now`, the legacy timestamp as its rendered text.
- Logging, printing and the `digits` random helper are left out.
- The argparse handling and file renaming of the db-create tools are left out. `src/tools/db-create.py:29` tests `argvars["B"] is not None`, which always holds because `store_true` gives a bool. `os.path.exists` is membership in a finite set of names.
- The workflow scripts, the API schemas and the server and client programs are example clients and declarations outside the store, and are not modelled.
- LegacyStore.LegacyDB.InsertRecord: a value containing a single quote is modelled as a refused command. sqlite instead reads a value whose quotes pair up (`''`) as a shorter value and stores that. `SqlText.DoubledQuoteReadsAsOne` and `SqlText.LoneQuoteBreaks` show both readings. The same simplification applies to `InsertUri` and `InsertTag`.
- LegacyStore.LegacyRecord.Store: the legacy record id is the `str` of the row id that `insert` returns. It is modelled as the number, since the store only ever prints it back with `str`.
- FuncxSteps.RecordKey: a float id is `VOther` and finds no record. An integral float such as `3.0` would match record 3 in sqlite, but floats are not modelled. Other objects the driver cannot bind (a set, say) are `VOther` too and find no record instead of raising.
- MermaidGraph.ToMermaid: a missing root record is reported as an error. The source fails with an AttributeError on `None` when it first names the node.
- MermaidGraph.ActionShape and MermaidGraph.InvalidationShape are the text of `invalidation_action_to_mermaid_shape` and `invalidation_to_mermaid_shape`, with no contract of their own. They are only reached through the blocks that `ToMermaid` is proved to emit.

## Findings

| source | as written | input that shows it | evidently intended | confidence | as-written member | corrected member |
|---|---|---|---|---|---|---|
| src/braid_db/service/viz/mermaid_graphing.py:62-63 | right truncation takes `str_val[-max_len:]`, and in Python `-0` slices from the start | `truncate_val("abc", 0, from_right=True)` gives `"...abc"`, longer than the input | `"..."` plus the last `max_len` characters, i.e. `"..."` alone for `max_len == 0` | not executed | MermaidGraph.TruncateValZeroFromRight | MermaidGraph.TruncateValIntended |
| src/braid_db/funcx/funcx_main.py:161 | `step_record.add_tag("status", ..., session=session)`, and likewise `add_uri` (line 167) and the parameter tags (line 178), while `BraidRecord.add_tag(self, key, value, type_)` and `add_uri(self, uri)` take no `session` | any call of `add_record_for_action_step`: the record is stored, then the first `add_tag` raises TypeError | tag the status and parameters, add the URIs and link the predecessor, as the flows that chain its report expect | not executed | FuncxSteps.ActionStepAsWritten | FuncxSteps.ActionStep |
