# Omiros in Dafny

This project models the core of Omiros, a Swift object mapper over SQLite.
An entity describes itself by filling a container. Omiros turns those
containers and the query values into SQL text, reconciles a table's schema
with the container, and keeps the connection's transaction brackets. This
project covers:

- **The three query renderers.** Each turns a condition tree, an ordering,
  a limit and an offset into a `WHERE … ORDER BY … LIMIT … OFFSET …`
  suffix:
  - `QueryOptions` models `OmirosQueryOptions`, the current one;
  - `Query` models `OmirosQuery`, whose renderer returns an optional text
    so that empty groups vanish;
  - `QueryParameters` models the flat `OmirosQueryParameters`.

  The negating renderers push a `not` inward: comparisons flip and groups
  follow De Morgan. A double negation does not cancel: `not(not c)`
  renders like `not c`, as the code does. `QueryOptions` is proved equal
  to an independent reference: the condition is lowered to a
  negation-free predicate tree, which is then printed.
- **The shared window clauses.** `Window` holds the LIMIT/OFFSET clauses
  the three renderers share. It also has a reader for them, so each
  suffix is proved to encode exactly the window it was given.
- **Scalar values** (`SQLiteType`): their DDL names, defaults, inline
  literals, and binding and decoding over an abstract native column with
  a NULL tag. Strings pass through C strings both ways, so a String comes
  back cut at its first NUL character.
- **Containers.** The save-side containers come in three iterations:
  - `Containers.Input`;
  - `OmirosContainers.Input`;
  - the `OmirableSaving` / `OmirosSaving` containers.

  The load-side containers are `Containers.Output`,
  `OmirosContainers.Output` and `OmirableFetching.Fetching`. `Columns`
  holds their shared column-name-to-position map, in which a later
  duplicate name wins.
- **Persistence** (`Omirable`), over a store. The store is given by its
  schema (each table's columns and index names) and the log of
  statements it received. Every operation is a method proved to send
  exactly the statements of a plan function. The plan functions are then
  proved to:
  - create or alter exactly the missing columns;
  - keep, create and drop `omiros_` indices by name;
  - build the upsert clause;
  - send the setup before any insert (`SaveBeginsWithSetup`);
  - send every container's insert in the list's order, each at the start
    of that container's own statements (`SaveInsertsInListOrder`);
  - send a container's insert before its enclosed lists
    (`InsertBeforeEnclosed`);
  - clear an enclosed list with delete options before saving it
    (`DeleteBeforeEnclosedSave`).
- **The connection layer** (`SQLite`, `SQLiteConnection`):
  - result-code classification and a statement's `hasMoreRows`;
  - `execute` as one prepare and one step;
  - the write bracket, which always sends END and then reports the
    body's error;
  - the file connection, which opens on every setup;
  - the in-memory connection, which opens once and is cached.

Each Swift file has its own module, because the files are successive API
iterations that do not compile together. Swift dictionaries and sets have
no fixed iteration order. Where the order shows in the output, the model
fixes it with a key sequence stored next to the map: the column order of
an INSERT and of CREATE TABLE, and the order of the DROP INDEX
statements.

## Model

| member | source | states |
|---|---|---|
| SQLiteType.SqlName | Sources/Omiros/SQLiteType.swift:41-43 | Int is INTEGER, String is TEXT, Double and Date are REAL, and every Optional is NULL, whatever it wraps |
| SQLiteType.Default | Sources/Omiros/SQLiteType.swift:45-47 | the default of an Optional is nil, of Int 0, of String ""; the default has the asked kind |
| SQLiteType.Literal | Sources/Omiros/SQLiteType.swift:66-140 | `sqLiteString()`: an Int's decimal text, a String between single quotes, `NULL` for every Optional; see `IntLiteralIsDecimal`, `StringLiteralUnescaped`, `OptionalLiteralIsNull` |
| SQLiteType.OptionalLiteralIsNull | Sources/Omiros/SQLiteType.swift:66-68 | the inline literal of any Optional is `NULL`, even when a value is present |
| SQLiteType.StringLiteralUnescaped | Sources/Omiros/SQLiteType.swift:138-140 | a String literal is the text between two single quotes, with no escaping |
| SQLiteType.IntLiteralIsDecimal | Sources/Omiros/SQLiteType.swift:90-92 | an Int literal reads back as the same integer (decimal text, minus sign for negatives) |
| Text.IntTextRoundTrip | Sources/Omiros/SQLiteType.swift:90-92 | the decimal text of any integer parses back to it |
| SQLiteType.Bind | Sources/Omiros/SQLiteType.swift:49-131 | `bind(at:statement:)`: `sqlite3_bind_int64` for an Int, `sqlite3_bind_text` of the text before the first NUL for a String (length -1), `sqlite3_bind_null` for nil, and `.some(v)` binds as `v`; see `BindDecodeTruncates` |
| SQLiteType.CString | Sources/Omiros/SQLiteType.swift:131 | the text a C string carries is the longest prefix without a NUL: a prefix of the input, NUL-free, and followed by a NUL when shorter |
| SQLiteType.Decode | Sources/Omiros/SQLiteType.swift:58-64 | an Optional decodes to nil exactly when the column's tag is NULL; a missing text pointer decodes to "", any other text to its part before the first NUL (`String(cString:)`); the value has the asked kind |
| SQLiteType.Truncated | Sources/Omiros/SQLiteType.swift:130-135 | a value with each String inside cut at its first NUL keeps its kind and holds no NUL |
| SQLiteType.NulFreeIsUntruncated | Sources/Omiros/SQLiteType.swift:130-135 | cutting at the first NUL changes no value whose Strings hold no NUL |
| SQLiteType.BindDecodeTruncates | Sources/Omiros/SQLiteType.swift:49-135 | binding any value that is not a wrapped nil and decoding the column it fills gives the value with every String cut at its first NUL |
| SQLiteType.BindDecodeRoundTrip | Sources/Omiros/SQLiteType.swift:49-135 | binding a value and decoding the column it fills gives the value back, for every value that is not a wrapped nil and whose Strings hold no NUL |
| SQLiteType.NulIsTruncated | Sources/Omiros/SQLiteType.swift:130-135 | a String with a NUL does not survive: it reads back as its part before the first NUL, so `"a\0b"` reads back as `"a"` |
| SQLiteType.BindOfNonNilIsNotNull | Sources/Omiros/SQLiteType.swift:49-56 | `.some(v)` delegates to `v`'s bind, so only nil binds SQL NULL |
| SQLiteType.WrappedNilIsLost | Sources/Omiros/SQLiteType.swift:49-64 | `.some(nil)` binds NULL and so decodes as the outer nil: the one value the round trip loses |
| Columns.Names | Sources/Omiros/Containers.swift:115 | the i-th name is the i-th column's name |
| Columns.Positions | Sources/Omiros/Containers.swift:115-119 | the column-name-to-position map built by the loop, a later duplicate overwriting; see `PositionsAreLast` |
| Columns.PositionsAreLast | Sources/Omiros/Containers.swift:117-119 | the name map has exactly the column names as keys, and each maps to its last position |
| Columns.LaterPositionWins | Sources/Omiros/OmirableFetching.swift:35-37 | for a duplicate name the later index overwrites the earlier one |
| Window.Clauses | Sources/Omiros/OmirosQueryOptions.swift:96-106 | the LIMIT/OFFSET text: ` LIMIT n` when limit > 0, ` LIMIT -1` before an OFFSET without a limit, ` OFFSET n` when offset > 0; see `ParseClauses` |
| Window.ParseClauses | Sources/Omiros/OmirosQueryOptions.swift:96-106 | the LIMIT/OFFSET text reads back as exactly the effective window: LIMIT only when limit > 0, OFFSET only when offset > 0 |
| Window.OffsetFollowsLimit | Sources/Omiros/OmirosQueryOptions.swift:100-106 | when an OFFSET is written the window text starts with ` LIMIT `, with `-1` when there is no limit |
| Window.WhereLeads | Sources/Omiros/OmirosQueryOptions.swift:71-108 | a suffix made of an optional WHERE, ORDER BY and window starts with ` WHERE ` exactly when the WHERE part is there |
| QueryOptions.Render | Sources/Omiros/OmirosQueryOptions.swift:115-146 | `sqlWhereClause(from:)` of one condition, in the source's recursive shape; see `RenderIsLowered` |
| QueryOptions.RenderNegated | Sources/Omiros/OmirosQueryOptions.swift:148-177 | `reversedSQLWhereClause(from:)`, which pushes a `not` inward; see `RenderNegatedIsLowered` and `NegationIsDual` |
| QueryOptions.RenderIsLowered | Sources/Omiros/OmirosQueryOptions.swift:115-146 | the renderer's text of every condition equals the printed negation-free predicate it denotes |
| QueryOptions.RenderNegatedIsLowered | Sources/Omiros/OmirosQueryOptions.swift:148-177 | the negated renderer's text equals the printed negated predicate |
| QueryOptions.NegationIsDual | Sources/Omiros/OmirosQueryOptions.swift:148-177 | for a condition without a `not`, its negated predicate is the dual of its predicate (complemented comparisons, swapped AND/OR) |
| QueryOptions.DualInvolutive | Sources/Omiros/OmirosQueryOptions.swift:148-177 | the dual of the dual is the predicate itself |
| QueryOptions.RenderNotIsDual | Sources/Omiros/OmirosQueryOptions.swift:143-144 | `not c` prints the dual of `c`'s predicate when `c` has no inner `not` |
| QueryOptions.NegatedComparisonsFlip | Sources/Omiros/OmirosQueryOptions.swift:156-163 | `not(>)` renders as `<=`, `not(<)` as `>=`, `not(>=)` as `<`, `not(<=)` as `>` |
| QueryOptions.DeMorgan | Sources/Omiros/OmirosQueryOptions.swift:170-173 | `not(all cs)` renders as `any(map not cs)` and `not(any cs)` as `all(map not cs)` |
| QueryOptions.NilUsesIsNull | Sources/Omiros/OmirosQueryOptions.swift:117-122 | `equal(k, nil)` renders `k IS NULL` and its negation `k IS NOT NULL` |
| QueryOptions.AndOrAreGroups | Sources/Omiros/OmirosQueryOptions.swift:133-136 | `and`/`or` render as two-element `all`/`any`, also under negation |
| QueryOptions.DoubleNegationKeepsNegation | Sources/Omiros/OmirosQueryOptions.swift:174-175 | `not(not c)` renders like `not c`, so `not(not(k > v))` differs from `k > v` |
| QueryOptions.StackedNotsRenderOnce | Sources/Omiros/OmirosQueryOptions.swift:143-144 | any positive number of stacked `not`s renders like a single one |
| QueryOptions.EmptyGroupsAreParentheses | Sources/Omiros/OmirosQueryOptions.swift:137-142 | `all([])` and `any([])` render `()` |
| QueryOptions.MapNot | Sources/Omiros/OmirosQueryOptions.swift:171-173 | `conditions.map(Condition.not)`: same length, each element negated |
| QueryOptions.WhereOnlyWithConditions | Sources/Omiros/OmirosQueryOptions.swift:74-77 | the suffix starts with ` WHERE ` exactly when the condition list is non-empty |
| QueryOptions.WhereClause | Sources/Omiros/OmirosQueryOptions.swift:111-113 | the condition list rendered as one `all` group; see `WhereIsAllGroup` |
| QueryOptions.WhereIsAllGroup | Sources/Omiros/OmirosQueryOptions.swift:111-113 | the WHERE clause is the condition list rendered as one `all` group |
| QueryOptions.OrderClause | Sources/Omiros/OmirosQueryOptions.swift:79-94 | the ORDER BY part; see `OrderByShape` |
| QueryOptions.OrderByShape | Sources/Omiros/OmirosQueryOptions.swift:79-94 | no ORDER BY without keys; otherwise the keys joined by `,` and one ASC or DESC after the list |
| QueryOptions.Suffix | Sources/Omiros/OmirosQueryOptions.swift:71-108 | `sqlWhereClause()`: the WHERE, ORDER BY and window parts in that order; see `WhereOnlyWithConditions`, `SuffixEncodesWindow`, `ClauseInitials` |
| QueryOptions.SuffixEncodesWindow | Sources/Omiros/OmirosQueryOptions.swift:96-106 | after WHERE and ORDER BY the suffix reads back as exactly the window of `limit` and `offset` |
| QueryOptions.ClauseInitials | Sources/Omiros/OmirosQueryOptions.swift:91-106 | a non-empty ORDER BY clause has `O` and a non-empty window `L` as second character, so neither can pass for WHERE |
| Query.MapNot | Sources/Omiros/OmirosQuery.swift:151-153 | `conditions.map(Condition.not)`: same length, each element negated |
| Query.Where | Sources/Omiros/OmirosQuery.swift:93-129 | `sqlWhereConditions(from:)`, nil for vacuous conditions; see `NothingIffVacuous` |
| Query.ReversedWhere | Sources/Omiros/OmirosQuery.swift:132-158 | `reversedSQLWhereConditions(from:)`; see `ReversedNothingIffVacuous`, `NegatedComparisonsFlip`, `DeMorgan` |
| Query.NothingIffVacuous | Sources/Omiros/OmirosQuery.swift:111-129 | a condition renders to nothing exactly when it is vacuous (a group all of whose members are vacuous, behind any number of `not`s) |
| Query.ReversedNothingIffVacuous | Sources/Omiros/OmirosQuery.swift:132-158 | the negated rendering is nothing under the same condition |
| Query.WhereEachEmpty | Sources/Omiros/OmirosQuery.swift:112-114 | the compact map of a list is empty exactly when every member renders to nothing |
| Query.Substantial | Sources/Omiros/OmirosQuery.swift:112 | the non-vacuous members, none of them vacuous |
| Query.VacuousMembersDropped | Sources/Omiros/OmirosQuery.swift:111-124 | a list renders like the list of its non-vacuous members, one text per such member |
| Query.EmptyGroupIsDropped | Sources/Omiros/OmirosQuery.swift:111-117 | `all([all([]), x])` renders like `all([x])` |
| Query.NegatedComparisonsFlip | Sources/Omiros/OmirosQuery.swift:140-147 | negated comparisons render as their complements |
| Query.DeMorgan | Sources/Omiros/OmirosQuery.swift:150-153 | negated groups render as the dual group of negated members |
| Query.DoubleNegationKeepsNegation | Sources/Omiros/OmirosQuery.swift:125-126 | `not(not c)` renders like `not c` |
| Query.WhereOnlyWhenRendered | Sources/Omiros/OmirosQuery.swift:61-63 | a WHERE component exists exactly when a condition is present and is not vacuous |
| Query.OrderEntriesKeepTheirDirection | Sources/Omiros/OmirosQuery.swift:65-76 | one ORDER BY component with the entries joined by `, ` in order, each with its own ASC/DESC |
| Query.Subquery | Sources/Omiros/OmirosQuery.swift:58-90 | `sqlSubquery()`: the WHERE, ORDER BY, LIMIT and OFFSET components joined by spaces; see `SubqueryHasNoLeadingSpace`, `WindowComponentsEncodeWindow` |
| Query.SubqueryHasNoLeadingSpace | Sources/Omiros/OmirosQuery.swift:58-90 | the subquery is empty exactly when there are no components, and otherwise does not start with a space |
| Query.JoinStartsWithFirst | Sources/Omiros/OmirosQuery.swift:90 | a joined list starts with its first element |
| Query.WindowComponentsAreClauses | Sources/Omiros/OmirosQuery.swift:78-88 | the LIMIT/OFFSET components, spaced out, are the window clauses the other renderers write |
| Query.WindowComponentsEncodeWindow | Sources/Omiros/OmirosQuery.swift:78-88 | those components read back as exactly the effective window |
| QueryParameters.ConditionText | Sources/Omiros/OmirosQueryParameters.swift:79-111 | the text of one condition, an `or` as its two sides in parentheses around ` OR `; see `OrRendering`, `NilUsesIsNull` |
| QueryParameters.WhereClauseComponent | Sources/Omiros/OmirosQueryParameters.swift:79-111 | the loop computes the list's texts in input order joined by single spaces, recursing on each side of an `or` |
| QueryParameters.Suffix | Sources/Omiros/OmirosQueryParameters.swift:51-77 | WHERE, ORDER BY, then the window clauses; see `WhereOnlyWithConditions`, `OrderKeysReadBack`, `SuffixEncodesWindow` |
| QueryParameters.WhereClause | Sources/Omiros/OmirosQueryParameters.swift:51-77 | the conditional concatenation computes WHERE, ORDER BY, LIMIT, OFFSET in that order |
| QueryParameters.OneComponent | Sources/Omiros/OmirosQueryParameters.swift:103-104 | a one-element list renders as its only condition |
| QueryParameters.OrRendering | Sources/Omiros/OmirosQueryParameters.swift:102-105 | `or(l, r)` renders `(` + render([l]) + ` OR ` + render([r]) + `)` |
| QueryParameters.ComponentConcat | Sources/Omiros/OmirosQueryParameters.swift:108-111 | two lists render as their renderings separated by one space, not by AND |
| QueryParameters.NilUsesIsNull | Sources/Omiros/OmirosQueryParameters.swift:86-91 | `equal(k, nil)` renders `k IS NULL`, `equal(k, v)` renders `k = ` and the literal of `v` |
| QueryParameters.OptionalOperandIsNull | Sources/Omiros/OmirosQueryParameters.swift:86-93 | an Optional operand embeds `NULL` even when it holds a value |
| QueryParameters.WhereOnlyWithConditions | Sources/Omiros/OmirosQueryParameters.swift:54-57 | the suffix starts with ` WHERE ` exactly when there is a condition |
| QueryParameters.OrderKeysReadBack | Sources/Omiros/OmirosQueryParameters.swift:59-62 | ORDER BY lists the bare keys joined by `,`, which split back into the keys |
| QueryParameters.SuffixEncodesWindow | Sources/Omiros/OmirosQueryParameters.swift:64-74 | after WHERE and ORDER BY the suffix reads back as exactly the effective window |
| QueryParameters.ClauseInitials | Sources/Omiros/OmirosQueryParameters.swift:59-74 | a non-empty ORDER BY part has `O` and a non-empty window `L` as second character |
| SQLite.Same | Sources/Omiros/SQLite.swift:38-40 | `==` on errors compares the codes only; see `SameIgnoresMessage` |
| SQLite.ProcessResult | Sources/Omiros/SQLite.swift:81-90 | `processResult`: success or the error reported after the call; see `ProcessResultClassifies` |
| SQLite.ExecuteOutcome | Sources/Omiros/SQLite.swift:68-70 | the outcome of `execute`: the prepare's error, else the step's; see `ExecuteStepsOnce` |
| SQLite.ExecuteCalls | Sources/Omiros/SQLite.swift:68-70 | `execute` is one prepare and, only when it succeeds, exactly one step |
| SQLite.ProcessResultClassifies | Sources/Omiros/SQLite.swift:81-90 | OK, ROW and DONE succeed; any other code fails with the errcode and message the connection reports after that call |
| SQLite.SameIgnoresMessage | Sources/Omiros/SQLite.swift:38-40 | error equality is an equivalence that compares only the code |
| SQLite.ExecuteStepsOnce | Sources/Omiros/SQLite.swift:68-70 | after a successful prepare exactly one step runs; execute succeeds exactly when both do, and otherwise fails with the error of the prepare or of the step, whichever failed |
| SQLite.Database.constructor | Sources/Omiros/SQLite.swift:48-58 | a fresh connection has sent nothing |
| SQLite.Database.Prepare | Sources/Omiros/SQLite.swift:108-116 | prepare logs one call and yields a statement without rows exactly when the code succeeds, else the error the connection reports after that prepare |
| SQLite.Database.Execute | Sources/Omiros/SQLite.swift:68-70 | the calls sent and the outcome are those of `ExecuteCalls` / `ExecuteOutcome` |
| SQLite.Statement.constructor | Sources/Omiros/SQLite.swift:100 | `hasMoreRows` starts false |
| SQLite.Statement.Step | Sources/Omiros/SQLite.swift:123-130 | `hasMoreRows` is set to "the code is ROW" before the check, so a failed step leaves it false |
| SQLite.Open | Sources/Omiros/SQLite.swift:48-58 | the open succeeds exactly when its code does, with a connection that has sent nothing, else fails with the error reported after the open |
| SQLiteConnection.ResolvePath | Sources/Omiros/SQLiteConnection.swift:130-140 | `.path(p)` resolves to `p` verbatim; `.name` gives the directory lookup's outcome |
| SQLiteConnection.BracketCalls | Sources/Omiros/SQLiteConnection.swift:52-58 | the calls of `write`: BEGIN, then the body and END only when BEGIN succeeded; see `FailedBeginSkipsBody`, `EndRunsAfterFailedBody` |
| SQLiteConnection.BracketOutcome | Sources/Omiros/SQLiteConnection.swift:52-58 | the outcome of `write`: BEGIN's error, else END's error, else the body's; see `FailedEndWins`, `BracketSucceeds` |
| SQLiteConnection.Bracket | Sources/Omiros/SQLiteConnection.swift:52-58 | BEGIN, the body and END are sent as `BracketCalls`, and the outcome is `BracketOutcome` |
| SQLiteConnection.Run | Sources/Omiros/SQLiteConnection.swift:47-50 | `read` sends only the body's calls and returns its outcome |
| SQLiteConnection.SetupFailure | Sources/Omiros/SQLiteConnection.swift:68-74 | setup succeeds exactly when the path resolves, the open succeeds and the pragma's prepare and step succeed; once the path resolves, every failure is an engine error |
| SQLiteConnection.OpenWithPragma | Sources/Omiros/SQLiteConnection.swift:68-74 | an open connection has sent only the pragma, and the pragma's outcome is reported |
| SQLiteConnection.EndRunsAfterFailedBody | Sources/Omiros/SQLiteConnection.swift:55-57 | END is sent after a failed body, and the body's error is reported when END succeeds |
| SQLiteConnection.FailedEndWins | Sources/Omiros/SQLiteConnection.swift:56 | a failing END is reported, with END's own prepare or step error, instead of the body's outcome |
| SQLiteConnection.FailedBeginSkipsBody | Sources/Omiros/SQLiteConnection.swift:54 | when BEGIN fails neither the body nor END runs |
| SQLiteConnection.BracketSucceeds | Sources/Omiros/SQLiteConnection.swift:52-58 | the write succeeds exactly when BEGIN, the body and END all succeed |
| SQLiteConnection.FileSystem.constructor | Sources/Omiros/SQLiteConnection.swift:60-66 | the file system holds the given files |
| SQLiteConnection.FileConnection.constructor | Sources/Omiros/SQLiteConnection.swift:42-45 | the connection keeps its file reference |
| SQLiteConnection.FileConnection.Setup | Sources/Omiros/SQLiteConnection.swift:68-74 | every setup resolves the path, opens a fresh connection and runs the pragma; an unresolved path gives the lookup's error, a failed open the open's error, a failed pragma the pragma's error |
| SQLiteConnection.FileConnection.Read | Sources/Omiros/SQLiteConnection.swift:47-50 | a failed setup is returned as that setup error and runs nothing; otherwise the body runs on a fresh connection after the pragma and its outcome is returned |
| SQLiteConnection.FileConnection.Write | Sources/Omiros/SQLiteConnection.swift:52-58 | a failed setup is returned as that setup error and runs nothing; otherwise BEGIN, the body and END run on a fresh connection after the pragma, with the bracket's outcome |
| SQLiteConnection.FileConnection.DeleteFile | Sources/Omiros/SQLiteConnection.swift:60-66 | the file is removed only when it exists; an absent file is not an error |
| SQLiteConnection.MemoryConnection.constructor | Sources/Omiros/SQLiteConnection.swift:87-90 | no connection is cached at first |
| SQLiteConnection.MemoryConnection.Setup | Sources/Omiros/SQLiteConnection.swift:109-119 | a cached connection is returned untouched; otherwise the path error or the open's error leaves nothing cached, and a successful open is cached before the pragma runs, so a failed pragma is reported but the connection stays cached |
| SQLiteConnection.MemoryConnection.DeleteFile | Sources/Omiros/SQLiteConnection.swift:105-107 | the cache is cleared |
| SQLiteConnection.MemoryConnection.Read | Sources/Omiros/SQLiteConnection.swift:92-95 | on the cached connection only the body's calls are sent; on first use a failed setup is returned as that error, and otherwise the new cached connection gets the pragma then the body |
| SQLiteConnection.MemoryConnection.Write | Sources/Omiros/SQLiteConnection.swift:97-103 | on the cached connection BEGIN, the body and END are sent; on first use a failed setup is returned as that error, and otherwise the new cached connection gets the pragma then the bracket |
| SQLiteConnection.SetupTwice | Sources/Omiros/SQLiteConnection.swift:109-119 | a second setup returns the first one's connection and sends nothing, even when the first pragma failed |
| OmirableSaving.Container.constructor | Sources/Omiros/OmirableSaving.swift:35-37 | the container is what the entity's fills make of an empty one |
| OmirableSaving.Container.Perform | Sources/Omiros/OmirableSaving.swift:39-64 | each mutator changes the contents as `Apply` says |
| OmirableSaving.Container.SetPrimaryKey | Sources/Omiros/OmirableSaving.swift:39-41 | the key is added to the set; nothing else changes |
| OmirableSaving.Container.SetIndex | Sources/Omiros/OmirableSaving.swift:43-47 | `(entity_keys, keys)` is appended; nothing else changes |
| OmirableSaving.Container.SetColumn | Sources/Omiros/OmirableSaving.swift:49-51 | only `columns[key]` changes |
| OmirableSaving.Container.SetRelatedColumn | Sources/Omiros/OmirableSaving.swift:53-56 | `columns[key]` and `relations[key]` are written under the same key |
| OmirableSaving.Container.SetEntity | Sources/Omiros/OmirableSaving.swift:58-60 | a one-element list is appended to the enclosed lists |
| OmirableSaving.Container.SetEntities | Sources/Omiros/OmirableSaving.swift:62-64 | the list is appended to the enclosed lists |
| OmirableSaving.Store.constructor | Sources/Omiros/OmirableSaving.swift:79-85 | the recorder of the enclosed lists' delete and save calls starts empty |
| OmirableSaving.SaveActions | Sources/Omiros/OmirableSaving.swift:79-85 | with a query the delete comes first and the save follows only if it succeeds; without one only the save |
| OmirableSaving.SaveEnclosed | Sources/Omiros/OmirableSaving.swift:79-85 | the actions sent are `SaveActions` and the error is the delete's, else the save's |
| OmirableSaving.PrimaryKeyIdempotent | Sources/Omiros/OmirableSaving.swift:39-41 | setting a primary key twice is setting it once |
| OmirableSaving.SetColumnOverwritesOnly | Sources/Omiros/OmirableSaving.swift:49-51 | the key gets the value, every other column and the relations are kept |
| OmirableSaving.SingleEntityIsOneElementList | Sources/Omiros/OmirableSaving.swift:58-60 | setting an entity equals setting the list of that one entity |
| OmirableSaving.ApplyKeepsRelationsWithColumns | Sources/Omiros/OmirableSaving.swift:53-56 | every mutator keeps the relation keys among the column keys |
| OmirableSaving.ReplayKeepsRelationsWithColumns | Sources/Omiros/OmirableSaving.swift:35-56 | so does any sequence of them from an empty container |
| OmirableSaving.EnclosedInCallOrder | Sources/Omiros/OmirableSaving.swift:58-64 | enclosed lists end up in call order |
| OmirableSaving.IndexNameReadsBack | Sources/Omiros/OmirableSaving.swift:43-47 | the index name splits on `_` back into entity name and keys, so it is determined by them |
| OmirosSaving.Container.constructor | Sources/Omiros/OmirosSaving.swift:27-33 | a new container is empty |
| OmirosSaving.Container.PerformAll | Sources/Omiros/OmirosSaving.swift:35-60 | a run of mutators changes the contents as `Replay` says |
| OmirosSaving.Container.Perform | Sources/Omiros/OmirosSaving.swift:35-60 | each mutator changes the contents as `Apply` says |
| OmirosSaving.Container.SetPrimaryKey | Sources/Omiros/OmirosSaving.swift:35-37 | the key is added to the set; nothing else changes |
| OmirosSaving.Container.SetIndex | Sources/Omiros/OmirosSaving.swift:39-43 | `(entity_keys, keys)` is appended; nothing else changes |
| OmirosSaving.Container.SetColumn | Sources/Omiros/OmirosSaving.swift:45-47 | only that column changes |
| OmirosSaving.Container.SetRelatedColumn | Sources/Omiros/OmirosSaving.swift:49-52 | the column and the relation are written under the same key |
| OmirosSaving.Container.SetEntity | Sources/Omiros/OmirosSaving.swift:54-56 | a one-element list is appended |
| OmirosSaving.Container.SetEntities | Sources/Omiros/OmirosSaving.swift:58-60 | the list is appended with its options |
| OmirosSaving.Store.constructor | Sources/Omiros/OmirosSaving.swift:73-79 | the recorder of the enclosed lists' delete and save calls starts empty |
| OmirosSaving.SaveActions | Sources/Omiros/OmirosSaving.swift:73-79 | with options the delete comes first and the save follows only if it succeeds |
| OmirosSaving.SaveEnclosed | Sources/Omiros/OmirosSaving.swift:73-79 | the actions sent are `SaveActions` and the error is the delete's, else the save's |
| OmirosSaving.PrimaryKeyIdempotent | Sources/Omiros/OmirosSaving.swift:35-37 | setting a primary key twice is setting it once |
| OmirosSaving.SetColumnOverwritesOnly | Sources/Omiros/OmirosSaving.swift:45-47 | the key gets the value, every other column and the relations are kept |
| OmirosSaving.SingleEntityIsOneElementList | Sources/Omiros/OmirosSaving.swift:54-56 | setting an entity equals setting the list of that one entity |
| OmirosSaving.ApplyKeepsRelationsWithColumns | Sources/Omiros/OmirosSaving.swift:49-52 | every mutator keeps the relation keys among the column keys |
| OmirosSaving.ReplayKeepsRelationsWithColumns | Sources/Omiros/OmirosSaving.swift:35-60 | so does any sequence of them from an empty container |
| OmirosSaving.EnclosedInCallOrder | Sources/Omiros/OmirosSaving.swift:54-60 | enclosed lists end up in call order |
| OmirosSaving.IndexNameReadsBack | Sources/Omiros/OmirosSaving.swift:39-43 | the index name splits on `_` back into entity name and keys |
| Containers.Input.constructor | Sources/Omiros/Containers.swift:65-70 | a new container is empty |
| Containers.Input.SetPrimaryKey | Sources/Omiros/Containers.swift:72-74 | the key is added to the set; nothing else changes |
| Containers.Cast | Sources/Omiros/Containers.swift:77 | Swift's `as? T`: a value that `as?` accepts comes back with exactly the asked type |
| Containers.CastNil | Sources/Omiros/Containers.swift:77 | a missing entry (`nil as? T`) gives a value exactly when `T` is an Optional, and that value is nil |
| Containers.CastToPlainKind | Sources/Omiros/Containers.swift:77 | a cast to a non-Optional type looks through every `.some` layer: it succeeds exactly when the innermost payload is a value of that type, and yields that payload |
| Containers.OptionalCasts | Sources/Omiros/Containers.swift:77 | `.some(v)` casts to `v`'s type as `v`; an Int or String casts to its Optional type as `.some`; nil casts to any Optional type as nil |
| Containers.Input.Get | Sources/Omiros/Containers.swift:76-77 | the subscript read is `as?` of the stored entry: an entry of the asked type comes back unchanged, any result has the asked type, and an absent key gives a value exactly for an Optional type, namely nil |
| Containers.Input.Put | Sources/Omiros/Containers.swift:76-79 | the subscript write stores the value (or removes the key on nil); afterwards reading the key with any type is that type's cast of the new value, so the value's own type reads it back; other keys are untouched |
| Containers.Input.Set | Sources/Omiros/Containers.swift:85-87 | only `content[key]` changes |
| Containers.Input.FillFrom | Sources/Omiros/Containers.swift:81-83 | the field's value is stored under its key |
| Containers.Input.SetEnclosed | Sources/Omiros/Containers.swift:89-91 | stored under the entity type's name, replacing one of the same type |
| Containers.Input.SetRelated | Sources/Omiros/Containers.swift:98-101 | the value and the relation are stored under the same key |
| Containers.Input.FillRelatedFrom | Sources/Omiros/Containers.swift:93-96 | the field's value and the relation are stored under the field's key |
| Containers.Output.constructor | Sources/Omiros/Containers.swift:110-120 | each column name maps to its last position; nothing without a statement |
| Containers.Output.Release | Sources/Omiros/Containers.swift:107 | the weakly held statement goes away; the map stays |
| Containers.Output.Get | Sources/Omiros/Containers.swift:126-132 | the type's default when the column is missing or the statement is gone, else the cell at the name's last position |
| Containers.Output.GetRelated | Sources/Omiros/Containers.swift:134-162 | every failure, and a gone statement, gives the fallback (default entity, nil or []) |
| Containers.Field.constructor | Sources/Omiros/Containers.swift:50-53 | the field holds its key and initial value |
| Containers.Field.FillFrom | Sources/Omiros/Containers.swift:55-57 | the field takes the output's value for its key and type |
| OmirosContainers.Input.constructor | Sources/Omiros/OmirosContainers.swift:44-49 | a new container is empty |
| OmirosContainers.Input.SetPrimaryKey | Sources/Omiros/OmirosContainers.swift:51-53 | the key is added to the set; nothing else changes |
| OmirosContainers.Input.Set | Sources/Omiros/OmirosContainers.swift:55-57 | only that content key changes |
| OmirosContainers.Input.SetEnclosed | Sources/Omiros/OmirosContainers.swift:59-61 | stored under the entity type's name, replacing one of the same type |
| OmirosContainers.Input.SetRelated | Sources/Omiros/OmirosContainers.swift:63-66 | the content and the relation are written under the same key |
| OmirosContainers.Output.constructor | Sources/Omiros/OmirosContainers.swift:75-85 | each column name maps to its last position among 0..columnCount-1 |
| OmirosContainers.Output.Release | Sources/Omiros/OmirosContainers.swift:72 | the weakly held statement goes away; the map stays |
| OmirosContainers.Output.Get | Sources/Omiros/OmirosContainers.swift:87-97 | `unavailableSQLiteStatement` when the statement is gone, else `missingColumnIndex` for an unknown key, else the cell at the name's last position |
| OmirosContainers.Output.GetEntity | Sources/Omiros/OmirosContainers.swift:99-105 | the statement check, then the fetch's outcome |
| OmirosContainers.Output.GetList | Sources/Omiros/OmirosContainers.swift:107-113 | the statement check, then the fetched list, `[]` when the fetch gives nil |
| OmirableFetching.Fetching.constructor | Sources/Omiros/OmirableFetching.swift:32-38 | each column name maps to its last index among 0..columnCount-1 |
| OmirableFetching.Fetching.Release | Sources/Omiros/OmirableFetching.swift:29 | the weakly held statement goes away; the map stays |
| OmirableFetching.Fetching.Get | Sources/Omiros/OmirableFetching.swift:40-46 | `noColumnForKey(key)` exactly when no column has that name, else the cell at the name's last index |
| Omirable.Store.constructor | Sources/Omiros/SQLite.swift:48-58 | a store starts with the given schema and an empty log |
| Omirable.Store.Execute | Sources/Omiros/SQLite.swift:68-70 | a statement is logged and its schema effect applied |
| Omirable.Placeholders | Sources/Omiros/Omirable.swift:164 | one `?` per column |
| Omirable.NonKeys | Sources/Omiros/Omirable.swift:169 | exactly the column keys that are not primary keys |
| Omirable.IsSetup | Sources/Omiros/Omirable.swift:58-62 | one catalogue query; true exactly when the table exists |
| Omirable.Count | Sources/Omiros/Omirable.swift:41-50 | 0 and no further statement without the table; otherwise one COUNT with the options' suffix |
| Omirable.Delete | Sources/Omiros/Omirable.swift:52-56 | nothing after the lookup without the table; otherwise one DELETE with the options' suffix |
| Omirable.FirstOnly | Sources/Omiros/Omirable.swift:92-93 | the options with the limit forced to 1 and all else kept |
| Omirable.FetchFirst | Sources/Omiros/Omirable.swift:87-103 | nil without the table; otherwise one SELECT limited to one row, and the first row if any |
| Omirable.FetchAll | Sources/Omiros/Omirable.swift:137-153 | nil without the table; otherwise one SELECT and one entity per row in step order |
| Omirable.ReadColumns | Sources/Omiros/Omirable.swift:209-217 | the set of the table's column names |
| Omirable.AddColumnTo | Sources/Omiros/Omirable.swift:219-227 | ALTER ADD for the column, then its foreign key when it has a relation |
| Omirable.AddMissingColumns | Sources/Omiros/Omirable.swift:219-227 | the loop sends exactly `Alters` for the declared columns |
| Omirable.ReadIndices | Sources/Omiros/Omirable.swift:229-238 | the `omiros_`-prefixed index names |
| Omirable.CreateMissingIndices | Sources/Omiros/Omirable.swift:240-246 | creates the declared indices not present and returns the present ones nobody declared |
| Omirable.DropIndices | Sources/Omiros/Omirable.swift:248-250 | one DROP INDEX per name |
| Omirable.ReconcileIndices | Sources/Omiros/Omirable.swift:240-250 | sends exactly the index plan: creations, then drops |
| Omirable.CreateAbsentTable | Sources/Omiros/Omirable.swift:251-270 | one CREATE TABLE, then one CREATE INDEX per declared index |
| Omirable.ReconcileTable | Sources/Omiros/Omirable.swift:208-250 | table_info, the ALTERs, index_list, then the index plan |
| Omirable.Setup | Sources/Omiros/Omirable.swift:207-272 | the lookup, then the present-table or absent-table plan |
| Omirable.SaveAll | Sources/Omiros/Omirable.swift:155-205 | nothing for an empty list; else setup from the first container, then each record's insert and enclosed saves in order |
| Omirable.SaveRecord | Sources/Omiros/Omirable.swift:182-197 | the record's insert with the i-th column bound at i + 1, then its enclosed lists |
| Omirable.SaveGroups | Sources/Omiros/Omirable.swift:189-197 | each enclosed group in turn |
| Omirable.SaveEntries | Sources/Omiros/Omirable.swift:190-196 | each entry of a group in turn |
| Omirable.SaveEntry | Sources/Omiros/Omirable.swift:191-195 | the delete by the entry's options when it has them, then its save |
| Omirable.StmtText | Sources/Omiros/Omirable.swift:41-272 | the SQL text each statement is sent as |
| Omirable.DeletePlan | Sources/Omiros/Omirable.swift:52-56 | the table lookup, then DELETE with the options' suffix only when the table exists; see `Delete`, `DeleteBeforeEnclosedSave` |
| Omirable.SetupPlan | Sources/Omiros/Omirable.swift:207-272 | the lookup, then the present-table or absent-table plan; see `SetupCoversColumns` |
| Omirable.SavePlan | Sources/Omiros/Omirable.swift:155-205 | nothing for an empty list, else the setup then each record's plan; see `SaveBeginsWithSetup`, `SaveInsertsInListOrder` |
| Omirable.SaveBeginsWithSetup | Sources/Omiros/Omirable.swift:155-186 | an empty list sends nothing; else the setup comes first and the first insert right after, with one placeholder per column and the i-th value bound at i + 1 |
| Omirable.SaveInsertsInListOrder | Sources/Omiros/Omirable.swift:180-205 | after the setup, the k-th container's insert is sent at the start of its own statements, and these starts increase with k, so the inserts go out in the list's order |
| Omirable.RecordsAreSegments | Sources/Omiros/Omirable.swift:182-204 | the records' statements are each record's own statements one after the other, and each begins with that record's insert |
| Omirable.RecordsPlanIsFlatten | Sources/Omiros/Omirable.swift:182-204 | the records' statements are the concatenation of each record's own |
| Omirable.SegmentsStartWithInserts | Sources/Omiros/Omirable.swift:182-187 | each record's own statements begin with its insert |
| Omirable.InsertBeforeEnclosed | Sources/Omiros/Omirable.swift:182-197 | a record's insert is sent first and its enclosed lists after it, on the store the insert leaves |
| Omirable.DeleteBeforeEnclosedSave | Sources/Omiros/Omirable.swift:190-195 | an enclosed list with delete options is cleared first (the table lookup, then DELETE when the table exists) and then saved on the store that leaves; without options it is only saved |
| Omirable.InsertBinds | Sources/Omiros/Omirable.swift:184-186 | an insert lists the first container's columns, one bind per column, the i-th value at i + 1 |
| Omirable.CreateTableLists | Sources/Omiros/Omirable.swift:252-266 | CREATE TABLE lists every column with its type name, then one cascading foreign key per relation, then PRIMARY KEY only when there are keys |
| Omirable.ConflictCases | Sources/Omiros/Omirable.swift:167-176 | no ON CONFLICT without primary keys; DO NOTHING exactly when every column is a key; else DO UPDATE of exactly the other columns |
| Omirable.AltersOnlyAdd | Sources/Omiros/Omirable.swift:219-227 | the ALTERs only add the missing columns with their type names, and a foreign key exactly for those with a relation |
| Omirable.ColumnAltersEffect | Sources/Omiros/Omirable.swift:219-227 | adding a column appends it to the table's columns and changes nothing else |
| Omirable.AltersAddColumns | Sources/Omiros/Omirable.swift:219-227 | after the ALTERs the table's columns are the old ones, in place, plus the declared ones; other tables and the indices are untouched |
| Omirable.AltersAddNewColumn | Sources/Omiros/Omirable.swift:219-227 | the step of the above for a missing first column |
| Omirable.PrefixedMembers | Sources/Omiros/Omirable.swift:229-238 | the prefixed names are exactly the present names that start with `omiros_` |
| Omirable.WithoutRemoves | Sources/Omiros/Omirable.swift:242 | removing a name keeps every other one |
| Omirable.LeftoverMembers | Sources/Omiros/Omirable.swift:240-250 | the leftover names are exactly the present ones that no declared index names |
| Omirable.CreatesMembers | Sources/Omiros/Omirable.swift:240-246 | CREATE INDEX is sent for exactly the declared indices not present |
| Omirable.CreatesShape | Sources/Omiros/Omirable.swift:240-246 | the creations are CREATE INDEX statements on the table |
| Omirable.DropsMembers | Sources/Omiros/Omirable.swift:248-250 | DROP INDEX is sent for exactly the given names |
| Omirable.IndexDiff | Sources/Omiros/Omirable.swift:229-250 | declared and present: kept; declared and absent: created; present, prefixed and undeclared: dropped; unprefixed ones are never dropped |
| Omirable.UnprefixedIndexIsCreatedAgain | Sources/Omiros/Omirable.swift:229-246 | a declared index whose name lacks the prefix is created again even when present |
| Omirable.IndexStmtsKeepColumns | Sources/Omiros/Omirable.swift:240-250 | index statements change no table's columns and no other table |
| Omirable.SetupCoversColumns | Sources/Omiros/Omirable.swift:207-272 | after setup the table exists with every declared column, an existing table keeps its columns as a prefix, and other tables are untouched |
| Omirable.PresentSetupCovers | Sources/Omiros/Omirable.swift:208-250 | the same for a present table |
| Omirable.AbsentSetupCovers | Sources/Omiros/Omirable.swift:251-270 | an absent table is created with exactly the declared columns |

## Left out

- Native sqlite3 calls (open, prepare, bind, column, step, finalize, errmsg) are not modelled. Their result codes and cells are parameters. Each call's parameter `Answer` carries its result code together with the `sqlite3_errcode` / `sqlite3_errmsg` the connection reports right after that call, so an error is read per failing call, as in SQLite.swift:86-87. The engine's evaluation of SQL is not modelled either: which rows a WHERE matches, what CASCADE deletes, and what a count returns.
- The store in `Omirable` takes every statement to succeed. Engine errors during save, setup, count, delete and fetch are not propagated there; error propagation is modelled in the connection layer.
- `Omirable.Count` returns the engine's count as a parameter. The source reads column 0 of the stepped statement.
- Fetching builds no entity: `FetchFirst` and `FetchAll` return the rows an entity would be built from. `init(container:)` is user code.
- Saving a single entity and saving an optional are `[self].save` and `self?.save` (Omirable.swift:105-107, 123-125). They are `SaveAll` on a one-element or empty list and have no member of their own. The optional fetch (Omirable.swift:119-121) is the same call as `FetchFirst`.
- Each entity's `fill(container:)` is user code. In `Omirable` the filled container is a value (`Input`). The saving containers take the fills as a sequence of `Fill` values.
- Saving enclosed lists in `OmirableSaving` / `OmirosSaving` goes through `T.delete` and `entities.save`, in another module. They are recorded as abstract `Delete` / `Save` actions, with their errors as parameters.
- Related fetches in `OmirableFetching` (OmirableFetching.swift:48-54) are not modelled: they delegate to an entity initializer with a force-unwrapped statement. Related fetches in the two output containers take the fetch's outcome as a parameter.
- Set and dictionary iteration order is not modelled as unspecified. A sequence stored next to each map fixes one order:
  - the INSERT and CREATE TABLE column lists follow `columnKeys`;
  - the foreign keys follow `relationKeys`;
  - the DO UPDATE list follows column order (the source iterates a `Set`);
  - the drops follow `index_list` order.
- `Omirable.ConflictCases` states the DO UPDATE list by membership, not by order, since the source's order is a set's.
- Double and Date exist only as kinds with their DDL name (REAL). The model has no Double or Date value, so their literals, binding, decoding and defaults (including `Date()`) are not modelled, and the containers carry only Int, String and Optional values.
- The query renderers embed values through `sqLiteValue` / `sqLiteQueryValue`. No definition of these appears in the sources modelled here, so the model uses the literal of `sqLiteString()` for them.
- Omirable.SaveAll: requires every later container to fill at least the first container's columns. The source force-unwraps `container.columns[key]` for the first container's keys (Omirable.swift:185), so any other input traps.
- OmirableFetching.Fetching.Get: requires the statement to be present when the key has a column. The source force-unwraps `statement!` (OmirableFetching.swift:45), so a released statement traps.
- Actor isolation, serialization and concurrent saves are not modelled.
- The weak reference to a statement in the output containers is a boolean (`statementAvailable`). `Release` models the statement going away.
- `FileReference.name` resolution through the documents directory is a parameter, and so is the outcome of removing a file. The logger is not modelled.
- `Omiros.swift` (the coordinator) is not part of this model.
- `Omirable.Store.start` is proof bookkeeping, not state of the source.
- A declared index whose name lacks the `omiros_` prefix is modelled as written: it is never seen as present, so it is created again on every setup of an existing table (`Omirable.UnprefixedIndexIsCreatedAgain`). The index names of the saving containers carry no such prefix (`entity_keys`). Those containers belong to another iteration of the API, so the model does not join the two.
