# A model of the YDB backend for Django

The backend turns Django's expression and query trees into YQL with named, typed
parameters. This project models the parts of it in which a mistake would be
silent, and proves what they are for:

- **The parameter pipeline.** Every expression records the field types of its
  parameters in a capture buffer while the tree is walked; a query collects
  texts, parameters and types in three lists; subqueries, unions, aggregates and
  rewritten DELETEs hand on values whose types are already settled; the outermost
  query names the `%s` holes. `QueryTree` says what compiling yields,
  `SqlCompiler` is the compiler object with its buffer, flag and lists and is
  proved to do that, `TreeMeaning` reads the meaning of a query off its tree,
  without holes, lists or buffers, and `StatementMeaning` proves that compiling
  preserves it at any depth of nesting. `CaptureAlignment` and `CaptureLabels` say
  when the buffer is right, `PatternLookups` that a guarded lookup keeps it right,
  `HoleBalance` when holes and parameters are equally many, `Outcomes` when a query
  compiles, `LeafValues` and `WrittenLeaves` that the values bound are those of the
  tree, in order, `Placeholders` what naming does to a text, `NameReading` what the
  database reads then, and `FinishedStatements` that it reads what was written.
- **Rewrites that must not change rows.** Dropping constant terms
  (`ConstantTerms`), ordering by aliases (`OrderAliases`; `OrderRows` takes both
  together), leaving out empty parts of a union (`UnionRows`), deleting through a
  subquery (`DeleteRows`), one CASE for many updates (`BulkUpdate`), and UPSERT
  (`Upsert`, `UpsertRows`).
- **Encodings.** LIKE patterns (`LikeEscaping`; the matcher is that of section 8.5
  of ISO/IEC 9075-2:2003) and times (`TimeEncoding`).
- **State machines.** The schema editor (`SchemaEditor`, `SchemaRuns`), the retry
  wrapper (`Retry`) and the rate limiter (`RateLimiter`).

Where the code does not do what its documentation says on every input, the
theorem is an equivalence that names the inputs on which it does:

- The database reads a name only where the hole stood outside of literals, quoted
  names and comments, and only if no identifier character follows it: `'%s'` is a
  string, and `%s0` becomes `$element_10`.
- A term is taken for constant, too, if its only names are words such as `s5`
  directly after a percent sign.
- The capture buffer is right only for expressions that use nested parameters once
  each, in the order of compilation and before their own, and swallow no exception
  after a partial capture.
- ORDER BY takes the alias of a column whose parameters are equal by Python's
  equality, so a column selected with `True` is taken for one selected with `1`. It
  takes the wrong alias, too, for a term that is the alias of one column and the whole
  text of another, although a comment in the code says that an alias never matches.
- Naming takes a hole wherever `%s` stands, also in `LIKE '%%son'`, where the percent
  sign was doubled to be kept.
- If parts of a compound query may not be sliced or ordered, each is asked for its
  ORDER BY, which goes over the select list of a compiler that was not set up. If that
  list is unset, no compound query compiles.
- A UNION of which one part is left keeps that part's duplicates.
- GROUP BY over constants alone has no group on an empty table, and one group on any
  other. Once the constants are dropped, an aggregate has a group on the empty table
  too, and a query without aggregates has a row for every row of the table. A dropped
  term that names a column merges groups.
- `COALESCE(CASE ..., col)` hides a NULL meant for a NOT NULL column, and CASE
  takes the first value for a key that a batch names twice.
- A batch row is inserted as intended only if it has plain values and expressions
  in the same fields as the first row, and values that suit its fields.
- The failure that `retry_ydb_operation` raises is not that of the last attempt if
  the last attempt raised a bare `ydb.Error` after an earlier Django error.
- Dropping the `db_index` of a field that is the whole primary key fails: the
  introspection lists the key as an index, and there is none of that name to drop.
- Adding a primary-key column sends the marker for it to the driver as a parameter. A
  driver that rejects it stops the migration; one that lets it pass leaves the table
  with its old key.
- The order of a batch matters to UPSERT if rows with the same key differ.

## Reading the project

`Options`, `Lists`, `Sorting` and `PyText` are helpers: an option type, equalities
of concatenations, sorting by a comparison, and the Python string operations the
backend uses. Each other module is named after what it models.
`dafny verify dfyconfig.toml` checks all of it.

Two conventions run through the pipeline. A *clause* is a text with holes, its
parameters and their types; it is *sound* if these are equally many and the text
cannot make a hole with what follows. Its *meaning* is a sequence of characters
and bound values, each value in the place of its hole; concatenating meanings is
what concatenating the three lists must amount to. A hole is *clear* if it stands
outside of literals, quoted names and comments and no identifier character follows
it directly.

## Model

| member | source | states |
|---|---|---|
| Placeholders.ReplacePlaceholders | ydb_backend/models/sql/compiler.py:120-129 | the rescanning loop terminates and equals a single left-to-right pass that numbers the holes from 1; the returned names are those of the holes in order |
| Placeholders.NamesDistinct | ydb_backend/models/sql/compiler.py:125-127 | two holes never share a name |
| Placeholders.BindingsAt | ydb_backend/models/sql/compiler.py:645-648 | the dictionary gives the k-th name the k-th resolved value, whatever comes later |
| Placeholders.FillConcat | ydb_backend/models/sql/compiler.py:511-568 | concatenating texts and parameter lists side by side keeps every parameter at its hole |
| NameReading.NamesReadBack | ydb_backend/models/sql/compiler.py:120-129 | for a text without `$element_`, a YQL lexer reads back the k-th name at the k-th hole and all other text as it was, if and only if every hole stands outside of literals, quoted names and comments and is not directly followed by an identifier character |
| NameReading.NamedReads | ydb_backend/models/sql/compiler.py:643-650 | the same for the values: looked up in any dictionary that binds the names, the text that is read is the text with its values in place, under the same condition and no weaker one |
| NameReading.NamedMeaning | ydb_backend/models/sql/compiler.py:643-650 | so it is for the dictionary that is built, from the start of the text |
| NameReading.HoleBeforeDigitIsLost | ydb_backend/models/sql/compiler.py:124-127 | a text whose hole runs into a digit, on which the names cannot be read back |
| NameReading.QuotedHoleIsLost | ydb_backend/models/sql/compiler.py:124-127 | a text whose hole is quoted, on which they cannot either |
| ConstantTerms.LiteralIsLexed | ydb_backend/models/sql/compiler.py:132-133 | the literal pattern matches a rendered literal as a whole, with doubled quotes and type suffix, whatever follows |
| ConstantTerms.UndoubledDoubled | ydb_backend/models/sql/compiler.py:132-133 | doubling the quotes of a string and lexing it gives the string back |
| ConstantTerms.ConstantIffMisread | ydb_backend/models/sql/compiler.py:136-154 | a rendered term is taken for constant if and only if it has no column, and no word except directly after a percent sign, spelt `s` and digits |
| ConstantTerms.ConstantIffNameless | ydb_backend/models/sql/compiler.py:136-154 | a term without such a word is taken for constant if and only if it has neither a column nor any other name |
| ConstantTerms.RemainderByColumnIsMisread | ydb_backend/models/sql/compiler.py:151-154 | the remainder of 5 by a bare column `s` is such a term |
| ConstantTerms.OrderUnchanged | ydb_backend/models/sql/compiler.py:579-592 | for every evaluation and comparison, dropping terms that name nothing leaves every table in the same order |
| ConstantTerms.OrderUnchangedIff | ydb_backend/models/sql/compiler.py:579-592 | the terms that the test drops leave every order as it was, if and only if none of them names anything |
| ConstantTerms.UnmistakableIsHarmless | ydb_backend/models/sql/compiler.py:579-592 | rendered terms without a misread word are such terms |
| ConstantTerms.GroupsUnchanged | ydb_backend/models/sql/compiler.py:545-568 | dropping terms that name nothing leaves the groups as they were, if and only if some term is kept or there was none, or else the table has a row if the query aggregates, and has at most one if it does not |
| ConstantTerms.GroupsUnchangedIff | ydb_backend/models/sql/compiler.py:545-568 | dropping leaves the groups of every table as they were, if and only if there was no term, or some term is kept and none that is dropped names anything |
| ConstantTerms.GroupsOfAggregatesIff | ydb_backend/models/sql/compiler.py:545-568 | for a query that aggregates, it leaves the groups of every table with rows, if and only if none that is dropped names anything |
| OrderAliases.SplitRendered | ydb_backend/models/sql/compiler.py:420-431 | a term splits into base and direction where the direction was appended, even if the base holds a direction itself |
| OrderAliases.RewriteKeepsKey | ydb_backend/models/sql/compiler.py:415-433 | a rewritten term keeps its direction and sorts by the column it was matched with; any other term sorts as before |
| OrderAliases.RewriteKeepsOrder | ydb_backend/models/sql/compiler.py:376-433 | every evaluation gives every row the same sort key as before, if and only if the matched column is the very expression that the term stands for, be it an alias or not |
| OrderAliases.SameKindsAreNotConfused | ydb_backend/models/sql/compiler.py:424-427 | unless numbers of different Python types are equal, columns with equal text are told apart, and the wrong one is taken if and only if the term is the alias of one column and the text of another |
| OrderAliases.TrueIsConfusedWithOne | ydb_backend/models/sql/compiler.py:424-427 | columns selected with `True` and with `1`: ordering by the second takes the alias of the first |
| OrderAliases.AliasIsConfusedWithColumn | ydb_backend/models/sql/compiler.py:415-419 | a column selected as `a` and the column `a` selected as `b`: ordering by the alias `a` takes the alias `b` |
| OrderRows.RandomIsKept | ydb_backend/models/sql/compiler.py:394-403 | an anchored random order is neither rewritten nor dropped |
| OrderRows.TermsAreShown | ydb_backend/models/sql/compiler.py:389-414 | each term is shown as Django has it, as the source of its ordinal reference, or as a random order over the key |
| OrderRows.TermsAreRewritten | ydb_backend/models/sql/compiler.py:415-443 | it goes by the alias of a column with its text and parameters under DISTINCT or as an aggregate, and stays as it is otherwise |
| OrderRows.OrderIsKept | ydb_backend/models/sql/compiler.py:415-592 | on every database and table, the terms that were rewritten to aliases and then kept sort the rows as the terms did that were written |
| LikeEscaping.PrepIsEscapeEach | ydb_backend/backend/operations.py:462-470 | the three sequential replacements equal one substitution per character |
| LikeEscaping.EscapingIsInjective | ydb_backend/backend/operations.py:462-470 | different values have different escaped forms |
| LikeEscaping.EscapingIsExact | ydb_backend/backend/operations.py:462-470 | under `ESCAPE '~'` the pattern of a value is valid and matches a string if and only if the value occurs in it, starts it or ends it |
| LikeEscaping.SidesAgree | ydb_backend/backend/base.py:159-170 | the SQL expression builds the very pattern that Python builds, with the empty string for NULL |
| LikeEscaping.GuardedLookupIsExact | ydb_backend/backend/operations.py:108-137 | the emitted condition is false if the right side is NULL, unknown if only the left is, and otherwise tells whether the right side matches literally; so are known the rows that pass it and those that pass its negation |
| LikeEscaping.GuardIsNeeded | ydb_backend/backend/operations.py:111-117 | without the IS NOT NULL guard, every row with a left side passes when the right side is NULL |
| CaptureAlignment.InOrderIsWellBehaved | ydb_backend/models/sql/compiler.py:81-91 | an expression that shows each child once and in order, emits nothing of its own and swallows nothing keeps the buffer right if its children do |
| PatternLookups.GuardedLookupMeaning | ydb_backend/backend/operations.py:117-137 | the guarded lookup, which compiles its right side for the pattern and again for the guard, is well behaved, and every value stands where its side is shown, bound by that side's types |
| PatternLookups.SharedIsAlignedIff | ydb_backend/backend/operations.py:117-119 | showing the right side twice from one compilation would keep the buffer right, if and only if all its values had the type of the lookup |
| TimeEncoding.TimeRoundTrip | ydb_backend/backend/operations.py:628-638 | a stored time is read back as it was, and lies within one day |
| TimeEncoding.MicrosRoundTrip | ydb_backend/backend/operations.py:628-638 | an integer is read back as a time if and only if it lies within one day, and as the time it encodes |
| TimeEncoding.MicrosOrder | ydb_backend/models/sql/compiler.py:211-214 | stored integers compare as the times do |
| TimeEncoding.ExtractIsExact | ydb_backend/backend/operations.py:500-520 | division and remainder over the stored integer give back hour, minute and second; other lookups are refused |
| TimeEncoding.EpochOrder | ydb_backend/models/sql/compiler.py:201-208 | the encoding of naive datetimes is injective and keeps their order, with negative days too |
| TimeEncoding.EpochRoundTrip | ydb_backend/models/sql/compiler.py:190-208 | the epoch is zero, every naive datetime is read back as it was, and every integer encodes the datetime that it is read as |
| TimeEncoding.TimeOfIsExact | ydb_backend/models/sql/compiler.py:211-214 | the time of day of a datetime is as far into the day as the datetime |
| Parameters.ResolveConcat | ydb_backend/models/sql/compiler.py:271-283 | parameters and types of equal number may be concatenated before or after resolving |
| Parameters.TypedParamsPassThrough | ydb_backend/models/sql/compiler.py:271-283 | what a subquery resolved keeps its value and type, whatever types the enclosing query has recorded |
| Parameters.BindingKeepsValue | ydb_backend/models/sql/compiler.py:231-268 | binding fails exactly for the values that a field cannot take or no type is found for; otherwise the bound value is the value itself, or for a datetime or time the integer that is read back as it |
| Parameters.BindingHasFieldType | ydb_backend/models/sql/compiler.py:231-268 | the bound value has the type of its field, a decimal its precision and scale, and where the field says nothing the type of the value itself |
| Fragments.CatMeaning | ydb_backend/models/sql/compiler.py:511-568 | appending to the three accumulators appends the meanings |
| Fragments.JoinMeaning | ydb_backend/models/sql/compiler.py:513-638 | joining texts and chaining parameters and types joins the meanings |
| CaptureAlignment.WellBehavedIsAligned | ydb_backend/models/sql/compiler.py:81-91 | in a well-behaved tree every call of `compile` grows the buffer by one type per parameter, each the type of the node that emitted it |
| CaptureAlignment.DisciplinedIsAligned | ydb_backend/models/sql/compiler.py:85-90 | one call keeps the buffer right if its children do and it uses their parameters once, in order and before its own |
| CaptureLabels.WellBehavedIffAlwaysAligned | ydb_backend/models/sql/compiler.py:81-91 | for every tree: it is well behaved if and only if the buffer is right in every call whatever types its nodes have |
| CaptureLabels.SameOutcome | ydb_backend/models/sql/compiler.py:81-91 | the types decide neither what compiling yields nor how many entries it captures |
| CaptureAlignment.SwallowedOperandMisaligns | ydb_backend/models/sql/compiler.py:81-91 | a disjunction whose first operand raises after a capture: the second operand's parameter gets the stale type |
| SqlCompiler.SQLCompiler.Compile | ydb_backend/models/sql/compiler.py:81-91 | returns the outcome of the node and appends to the caller's buffer, if there is one, what its walk captures, also when it raises |
| SqlCompiler.SQLCompiler.NodeAsSql | ydb_backend/models/sql/compiler.py:81-84 | the recursive call sees the node's own outcome and leaves the captures of its children |
| SqlCompiler.SQLCompiler.CompileChildren | ydb_backend/models/sql/compiler.py:81-91 | children are compiled in order up to the first exception that is not swallowed; the captures up to there stay |
| SqlCompiler.SQLCompiler.CompileCapturing | ydb_backend/models/sql/compiler.py:109-117 | returns the types captured for this node alone; the caller's buffer is back on every exit |
| SqlCompiler.SQLCompiler.AsSql | ydb_backend/models/sql/compiler.py:452-653 | in subquery mode the statement with its settled values, otherwise the named text with its dictionary |
| SqlCompiler.SQLCompiler.InSubqueryMode | ydb_backend/models/sql/compiler.py:700-705 | yields the statement in subquery mode; the flag is back on every exit |
| SqlCompiler.SQLCompiler.WhereSql | ydb_backend/models/sql/compiler.py:491-504 | an impossible condition raises or becomes `0 = 1`, an always true one disappears, with no parameters or types left over |
| SqlCompiler.SQLCompiler.HavingSql | ydb_backend/models/sql/compiler.py:505-512 | as for WHERE, except that an impossible condition always raises |
| SqlCompiler.SQLCompiler.CompileOrderBy | ydb_backend/models/sql/compiler.py:371-414 | Django's terms are compiled first, then the ordinal references again, as the terms they stand for, and random orders, anchored on the key, without touching the absent buffer |
| SqlCompiler.SQLCompiler.GetOrderBy | ydb_backend/models/sql/compiler.py:415-443 | the loop yields the terms rewritten one by one, each by the first column it matches |
| SqlCompiler.SQLCompiler.BodySql | ydb_backend/models/sql/compiler.py:513-603 | the three lists, appended to clause by clause, hold the clauses of the SELECT in their order |
| SqlCompiler.SQLCompiler.SelectSql | ydb_backend/models/sql/compiler.py:484-636 | the whole SELECT branch, with the wrapper that hides extra columns |
| SqlCompiler.SQLCompiler.ClausesSql | ydb_backend/models/sql/compiler.py:466-512 | what the clauses of a SELECT compile to, each by `compile`; only the conditions have a buffer, and none is left |
| SqlCompiler.SQLCompiler.RelabeledList | ydb_backend/models/sql/compiler.py:611-627 | the columns of the wrapper, by alias or rendered again, without touching the absent buffer |
| SqlCompiler.SQLCompiler.KeptParts | ydb_backend/models/sql/compiler.py:683-716 | the parts that raise nothing, in order; every part's flag is back whatever the outcome |
| SqlCompiler.SQLCompiler.GetCombinatorSql | ydb_backend/models/sql/compiler.py:655-728 | refuses sliced or ordered parts where they are unsupported, raises `EmptyResultSet` if no part is left, and otherwise joins the kept parts |
| SqlCompiler.SQLCompiler.RefuseSliced | ydb_backend/models/sql/compiler.py:673-683 | the first part that is sliced, ordered, or whose ORDER BY raises, stops the query, and so does a select list that cannot be gone over |
| UnionRows.RefusedIffSliced | ydb_backend/models/sql/compiler.py:673-683 | the check lets the parts pass, if and only if none is sliced or ordered and the select list is there, or there are no parts |
| UnionRows.UnsetSelectRefusesAll | ydb_backend/models/sql/compiler.py:673-683 | if the select list is unset, no compound query with parts compiles, be it outermost or nested |
| SqlCompiler.SQLCompiler.DeleteSql | ydb_backend/models/sql/compiler.py:913-932 | the named DELETE with its dictionary |
| SqlCompiler.SQLCompiler.DeleteThroughSubquerySql | ydb_backend/models/sql/compiler.py:942-971 | the DELETE over a materialised inner query, whose exceptions it hands on |
| SqlCompiler.SQLCompiler.UpdateSql | ydb_backend/models/sql/compiler.py:975-1072 | the named UPDATE with its dictionary, the caller's buffer unchanged |
| SqlCompiler.SQLCompiler.SetLists | ydb_backend/models/sql/compiler.py:984-1043 | values, parameters and types of SET stay side by side over the loop |
| SqlCompiler.SQLCompiler.AggregateSql | ydb_backend/models/sql/compiler.py:1097-1133 | the named aggregate with its dictionary; the inner query's flag is back on every exit |
| SqlCompiler.NameAndBind | ydb_backend/models/sql/compiler.py:645-650 | naming and the dictionary comprehension amount to numbering the holes and binding the k-th name to the k-th value, or to an IndexError |
| SqlCompiler.ColumnLists | ydb_backend/models/sql/compiler.py:523-531 | texts, parameters and types of the selected columns, side by side |
| SqlCompiler.GroupLists | ydb_backend/models/sql/compiler.py:545-553 | texts, parameters and types of the kept GROUP BY terms, side by side |
| SqlCompiler.OrderLists | ydb_backend/models/sql/compiler.py:579-590 | texts, parameters and types of the kept ORDER BY terms, side by side |
| SqlCompiler.JoinLists | ydb_backend/models/sql/compiler.py:513-638 | joined texts and chained lists are the joined clauses |
| StatementMeaning.NodeMeaning | ydb_backend/models/sql/compiler.py:81-91 | a compiled expression is sound, and means the tree with every value in its place, bound by the type of the node that emitted it |
| StatementMeaning.SelectMeaning | ydb_backend/models/sql/compiler.py:511-603 | a compiled SELECT is sound and means its clauses in order, with constants dropped and aliases substituted |
| StatementMeaning.GroupMeaning | ydb_backend/models/sql/compiler.py:545-559 | dropping GROUP BY terms drops their parameters and types with them |
| StatementMeaning.OrderMeaning | ydb_backend/models/sql/compiler.py:579-592 | dropping and rewriting ORDER BY terms keeps the others' parameters at their holes |
| StatementMeaning.ConditionMeaning | ydb_backend/models/sql/compiler.py:491-512 | a condition carries the types that were captured for its own parameters |
| StatementMeaning.RelabeledMeaning | ydb_backend/models/sql/compiler.py:611-636 | the wrapper's own columns come before the body, in text and parameters |
| StatementMeaning.PartsMeaning | ydb_backend/models/sql/compiler.py:684-716 | the kept parts of a union mean what each means by itself, nested unions wrapped |
| StatementMeaning.UnionMeaning | ydb_backend/models/sql/compiler.py:655-728 | a compiled union is sound and means its kept parts in order, then its ORDER BY and limit |
| StatementMeaning.QueryMeaning | ydb_backend/models/sql/compiler.py:452-653 | at any nesting depth holes and parameters are equally many, and the filled text is the query as its tree reads: every leaf value in its place, bound as its innermost query binds it |
| LeafValues.LeavesAreBound | ydb_backend/models/sql/compiler.py:452-653 | a compiled query binds as many values as its tree has leaves, at any depth of nesting, and the k-th value is that of the k-th leaf, typed as its innermost query types it |
| LeafValues.DictionaryHoldsLeaves | ydb_backend/models/sql/compiler.py:638-650 | the dictionary of the finished query gives the k-th name the k-th leaf |
| Outcomes.ExprStops | ydb_backend/models/sql/compiler.py:81-91 | an expression raises what its first child raises that it does not swallow |
| Outcomes.ExprOutcome | ydb_backend/models/sql/compiler.py:81-91 | without such a child it raises by itself or yields its template |
| Outcomes.SelectCompilesIff | ydb_backend/models/sql/compiler.py:452-636 | the clauses of a SELECT compile, if and only if each of them does, and the wrapper where it is needed |
| Outcomes.BoundIff | ydb_backend/models/sql/compiler.py:638-650 | a query compiles, if and only if its clauses do and every value can be bound |
| Outcomes.AlwaysTrueIsOmitted | ydb_backend/models/sql/compiler.py:491-512 | a condition that always holds compiles as if it was not there |
| Outcomes.NeverTrueWhere | ydb_backend/models/sql/compiler.py:491-504 | if WHERE can never hold and nothing before it raises, the query is empty |
| Outcomes.NeverTrueHaving | ydb_backend/models/sql/compiler.py:505-512 | so it is if HAVING can never hold |
| Outcomes.NeverTrueIsRendered | ydb_backend/models/sql/compiler.py:491-504 | where an empty query must not be elided, `0 = 1` takes the place of such a WHERE |
| Outcomes.UnionCompilesIff | ydb_backend/models/sql/compiler.py:655-728 | a compound query compiles, if and only if its ORDER BY does, its parts pass the check, each of them compiles or is empty, and not all are empty |
| Outcomes.SetsCompileIff | ydb_backend/models/sql/compiler.py:984-1043 | the SET list of an UPDATE compiles, if and only if every assigned expression does |
| Outcomes.AggregateCompilesIff | ydb_backend/models/sql/compiler.py:1097-1120 | an aggregate compiles, if and only if its annotations and its query do, and hands on that its query is empty |
| HoleBalance.NodeBalance | ydb_backend/models/sql/compiler.py:120-129 | a compiled expression has as many more holes than parameters as the texts that it shows have of their own, so they agree if and only if these come to nothing |
| HoleBalance.SelectBalance | ydb_backend/models/sql/compiler.py:513-603 | so it is for a SELECT, over the clauses that are left after dropping and rewriting |
| HoleBalance.UnionBalance | ydb_backend/models/sql/compiler.py:719-728 | and for a compound query, over its parts and its ORDER BY |
| HoleBalance.EscapedPercentIsTakenForHole | ydb_backend/models/sql/compiler.py:120-129 | a text with `%%s` in it and no other hole, such as `LIKE '%%son'`: it has a hole without a parameter, and naming raises |
| FinishedStatements.FinishedMeaning | ydb_backend/models/sql/compiler.py:286-288 | a sound statement, once named, is read by the database as it was composed, if and only if every hole is clear |
| FinishedStatements.TopLevelMeaning | ydb_backend/models/sql/compiler.py:638-650 | the database reads the finished statement with its dictionary as the tree was written, if and only if every hole is clear |
| WriteStatements.DeleteMeaning | ydb_backend/models/sql/compiler.py:913-932 | a DELETE means its condition, or none if it is always true, between its texts |
| WriteStatements.DeleteOutcome | ydb_backend/models/sql/compiler.py:921-926 | a condition that can never hold, or raises, makes no DELETE but that exception; only one that always holds leaves a DELETE without WHERE |
| WriteStatements.FinishedDeleteOutcome | ydb_backend/models/sql/compiler.py:921-932 | so it is after naming and binding, which raise nothing but what a value or a hole too many raises |
| WriteStatements.DeleteReads | ydb_backend/models/sql/compiler.py:926-932 | after naming, the database reads the DELETE as its condition is written, if and only if every hole is clear |
| WriteStatements.KeyInSubqueryMeaning | ydb_backend/models/sql/compiler.py:966-971 | the condition over the materialised inner query is well behaved, and its values keep their settled types |
| WriteStatements.DeleteThroughSubqueryMeaning | ydb_backend/models/sql/compiler.py:942-971 | a DELETE through a subquery binds every value of the inner query as that query does |
| WriteStatements.DeleteThroughSubqueryReads | ydb_backend/models/sql/compiler.py:942-971 | after naming, the database reads it so, if and only if every hole is clear |
| WriteStatements.DeleteThroughSubqueryOutcome | ydb_backend/models/sql/compiler.py:953-971 | such a DELETE always has a condition, and raises what the inner query raises |
| WriteStatements.UpdateMeaning | ydb_backend/models/sql/compiler.py:975-1072 | SET values come first, each bound by its column or expression, then the values of WHERE |
| WriteStatements.UpdateReads | ydb_backend/models/sql/compiler.py:1065-1072 | after naming, the database reads it so, if and only if every hole is clear |
| WriteStatements.UpdateOutcome | ydb_backend/models/sql/compiler.py:1049-1063 | an UPDATE raises what its assignments raise, then what its condition raises unless that always holds; only then it has no WHERE |
| WriteStatements.FinishedUpdateOutcome | ydb_backend/models/sql/compiler.py:1049-1072 | so it is after naming and binding |
| WriteStatements.AggregateMeaning | ydb_backend/models/sql/compiler.py:1097-1133 | annotations are bound by their own types, the inner query as that query binds its values |
| WriteStatements.AggregateReads | ydb_backend/models/sql/compiler.py:1125-1133 | after naming, the database reads it so, if and only if every hole is clear |
| WrittenLeaves.DeleteHoldsLeaves | ydb_backend/models/sql/compiler.py:913-932 | a DELETE binds the values of its condition, in order and each as it is |
| WrittenLeaves.DeleteThroughSubqueryHoldsLeaves | ydb_backend/models/sql/compiler.py:942-971 | a DELETE through a subquery binds the values of the inner query |
| WrittenLeaves.UpdateHoldsLeaves | ydb_backend/models/sql/compiler.py:984-1072 | an UPDATE binds the assigned values first, then those of its condition |
| WrittenLeaves.AggregateHoldsLeaves | ydb_backend/models/sql/compiler.py:1097-1133 | an aggregate binds the values of its annotations first, then those of the inner query |
| UnionRows.PartsAreKept | ydb_backend/models/sql/compiler.py:684-716 | the emitted parts are the clauses of the kept queries, in part order |
| UnionRows.EmptyIffAllPartsEmpty | ydb_backend/models/sql/compiler.py:711-718 | `EmptyResultSet` is raised if and only if every part raises it |
| UnionRows.EmittedIsUnion | ydb_backend/models/sql/compiler.py:719-728 | parts joined by the operator denote the union, as a multiset under ALL and as a set from two parts on |
| UnionRows.UnionIsExact | ydb_backend/models/sql/compiler.py:684-728 | the emitted query has the rows of the union of all parts, if and only if ALL is given, two parts are left, or the part that is left has no duplicates |
| DeleteRows.InnerKeysMember | ydb_backend/models/sql/compiler.py:952-957 | the inner query yields exactly the keys of rows with a join partner that satisfies the condition |
| DeleteRows.DeleteIsExact | ydb_backend/models/sql/compiler.py:934-971 | the rewritten DELETE removes exactly those rows if and only if rows with equal keys agree on having a partner, as unique keys do; RETURNING counts each removed row once |
| BulkUpdate.BulkEqualsEach | ydb_backend/models/sql/compiler.py:1020-1034 | the single statement leaves the table that the assignments in turn would leave, if and only if in every field of every listed row the first value for its key, or what COALESCE keeps instead of it, is the last value for it |
| BulkUpdate.BulkIsSafeIff | ydb_backend/models/sql/compiler.py:1020-1034 | it does so on every table without forbidden NULLs, if and only if the batch names a key again only with the same values and has no NULL for a NOT NULL field |
| BulkUpdate.DistinctBulkEqualsEach | ydb_backend/models/sql/compiler.py:1020-1034 | with distinct keys it does so if and only if no listed row gets NULL for a NOT NULL field |
| BulkUpdate.BulkKeepsTableSane | ydb_backend/models/sql/compiler.py:1024-1033 | no NOT NULL column becomes NULL, and other rows and columns stay |
| BulkUpdate.CountsAgree | ydb_backend/models/sql/compiler.py:1058-1093 | the single assignments count what RETURNING counts, and once more for every time a row is named again; the counts agree if and only if no row is |
| BulkUpdate.RepeatedKeyDiffers | ydb_backend/models/sql/compiler.py:1020-1034 | with a key listed twice CASE takes the first value, assignments in turn the last |
| Upsert.UpsertFieldsAreComplete | ydb_backend/models/manager.py:82-112 | the fields are the key, every NOT NULL field and the wanted ones, each once; refused if and only if a NOT NULL field is not wanted |
| Upsert.SplitFields | ydb_backend/models/sql/compiler.py:732-766 | refused if and only if some expression has parameters; otherwise the positions of value fields and of expression fields, in order |
| Upsert.PositionsPartition | ydb_backend/models/sql/compiler.py:750-766 | every field is on exactly one side, once |
| Upsert.GetRow | ydb_backend/models/sql/compiler.py:322-356 | accepts a row, if and only if there is a value for every field and it suits the field; it then stores the value itself, or for a datetime or time the integer that is read back as it; the first value that cannot be stored raises |
| Upsert.RowsStoreWhatParametersBind | ydb_backend/models/sql/compiler.py:345-354 | a row stores a datetime or time as a parameter of the same field binds it, and refuses what that refuses |
| Upsert.StoredTimeIsReadBack | ydb_backend/models/sql/compiler.py:350-351 | a time that a row stores is read back as it was |
| Upsert.InsertIsFaithful | ydb_backend/models/sql/compiler.py:732-837 | a row is accepted and every field stores its own value under its own column, if and only if the row classifies like the first row and every value suits its field |
| UpsertRows.UpsertIsIdempotent | ydb_backend/models/sql/compiler.py:905-909 | writing a batch again changes nothing, even if it names a key twice |
| UpsertRows.UpsertIgnoresOrder | ydb_backend/models/sql/compiler.py:905-909 | if rows with the same key agree, batches with the same rows leave the same table |
| UpsertRows.OrderIsIrrelevantIff | ydb_backend/models/sql/compiler.py:905-909 | every rearrangement of a batch has the same effect on every table, if and only if rows with the same key agree in the columns that both list |
| UpsertRows.DistinctIsCompatible | ydb_backend/models/manager.py:25-34 | in a batch that names no key twice, they do |
| UpsertRows.InterchangeableIff | ydb_backend/models/sql/compiler.py:905-909 | two batches have the same effect on every table, if and only if they write the same under every key |
| UpsertRows.WrittenKey | ydb_backend/models/manager.py:25-34 | a key is there afterwards if it was or is written, with its old columns overwritten by all that the batch writes under it, later rows over earlier ones |
| UpsertRows.OtherKeys | ydb_backend/models/manager.py:25-34 | keys that are not in the batch are left alone |
| UpsertRows.UpsertKeepsTableComplete | ydb_backend/models/manager.py:94-112 | no row, new or old, lacks a value in a NOT NULL column afterwards, and columns that are not listed are preserved |
| SchemaEditor.QuotedStringIsRead | ydb_backend/backend/schema.py:45-46 | a quoted string is lexed as one literal and as the string it was made from |
| SchemaEditor.DefaultIsRead | ydb_backend/backend/schema.py:82-103 | exactly booleans, numbers, strings and enumerations of them have a literal, and it is read as the default itself |
| SchemaEditor.IndexesOfMembers | ydb_backend/backend/schema.py:366-368 | the deferred indexes of a table are those of its indexed fields that are neither unique nor keys, and those of `Meta.indexes` |
| SchemaEditor.DeferredByMembers | ydb_backend/backend/schema.py:356-376 | a model that is created defers the indexes of all its tables and no others |
| SchemaEditor.DatabaseSchemaEditor.CreateOne | ydb_backend/backend/schema.py:356-368 | creates the table or fails, and defers only after it was created the indexes of its fields that are not unique and those of `Meta.indexes` |
| SchemaEditor.DatabaseSchemaEditor.CreateModel | ydb_backend/backend/schema.py:356-376 | the model's table first, then its through tables, up to the first that fails; the indexes of those created are deferred, in order |
| SchemaEditor.DatabaseSchemaEditor.DeleteModel | ydb_backend/backend/schema.py:378-398 | the through tables first, then the model's; exactly the deferred statements on dropped tables go, and none on the model's is left |
| SchemaEditor.DatabaseSchemaEditor.ForgetDeferred | ydb_backend/backend/schema.py:393-398 | removing while walking over a copy leaves exactly the statements on other tables, in order |
| SchemaEditor.DatabaseSchemaEditor.AddField | ydb_backend/backend/schema.py:292-327 | nothing for a field without column, refused for a NOT NULL field without a default that can be written, otherwise the column is added; the marker of a primary key is sent along, and then it depends on the driver |
| SchemaEditor.DatabaseSchemaEditor.RemoveField | ydb_backend/backend/schema.py:329-337 | drops the column or fails, leaving the database as it was |
| SchemaEditor.DatabaseSchemaEditor.AlterField | ydb_backend/backend/schema.py:424-492 | refuses renames, type changes and key changes; drops NOT NULL; warns of a new NOT NULL and a new uniqueness; drops the indexes on the column or defers a new one; fails at the first statement that fails |
| SchemaEditor.DatabaseSchemaEditor.DropFieldIndexes | ydb_backend/backend/schema.py:485-490 | leaves exactly the indexes that are not on this column alone, except that for the only column of the primary key it fails with nothing dropped, as `primary_key` is listed first and no such index exists |
| SchemaEditor.DatabaseSchemaEditor.AlterDbTable | ydb_backend/backend/schema.py:339-354 | nothing if the names differ in case only, otherwise the rename |
| SchemaEditor.FoldIff | ydb_backend/backend/schema.py:339-354 | two names are the same, if and only if they differ in the case of letters only |
| SchemaRuns.StepKeepsStep | ydb_backend/backend/schema.py:274-492 | an operation, whether applied, skipped, refused or failed, keeps each model's tables present with exactly its columns, types and key, nullable wherever the model is, if and only if it does not add a new primary-key column through a driver that lets the marker pass |
| SchemaRuns.StrictRunsStayInStep | docs/MIGRATIONS.md:6-15 | with a driver that rejects unused parameters, every model stays queryable over every run of migrations, from any database |
| SchemaRuns.RunsStayInStep | docs/MIGRATIONS.md:6-15 | with any driver, every model stays queryable throughout a run, if and only if no step adds a new primary-key column through a driver that lets the marker pass |
| SchemaRuns.RefusalLeavesDatabase | ydb_backend/backend/schema.py:309-463 | `NotSupportedError` leaves models and database as they were, and these are exactly the operations that raise it |
| SchemaRuns.AlterationSucceeds | ydb_backend/backend/schema.py:445-492 | in step, an alteration goes through, though an earlier NOT NULL may have been skipped, if and only if it is not refused and does not drop the `db_index` of a field that is the whole primary key |
| SchemaRuns.GoesThroughIff | ydb_backend/backend/schema.py:292-492 | in step, an operation goes through, if and only if: a model to create has new and distinct tables with distinct columns and a key; a field to add is new, can be added, and its marker passes; a field to remove is no key; a field to alter keeps column, type and key; a new name is free |
| SchemaRuns.EffectOfOperation | ydb_backend/backend/schema.py:292-492 | what goes through has just this effect: tables are created as declared, without indexes; a column is added as declared, or dropped; NOT NULL or the indexes on just the column are dropped; a table is renamed as it is; nothing else changes |
| SchemaRuns.KeyIndexCannotBeDropped | ydb_backend/backend/introspection.py:257-264 | a run that creates a model with an indexed key and then drops that `db_index`: it fails |
| SchemaRuns.DeleteKeepsStep | ydb_backend/backend/schema.py:378-398 | deleting a model in step succeeds and leaves the other models in step |
| SchemaRuns.AddedKeyDiverges | ydb_backend/backend/schema.py:292-325 | if the driver lets the marker pass, adding a new primary-key column succeeds, and its model is not queryable afterwards |
| Retry.UnwrapYdbError | ydb_backend/retry.py:43-61 | terminates on every finite graph of causes, cyclic or not |
| Retry.UnwrapIsFirst | ydb_backend/retry.py:43-61 | the result is the first YDB error that an exception along the causes is or carries, itself before its `original_error`; None if and only if there is none |
| Retry.UnwrapsCause | ydb_backend/retry.py:43-61 | unwrapping yields a YDB error, if and only if it is the first that an exception along the causes is or has as `original_error` |
| Retry.RetryOperation.Callee | ydb_backend/retry.py:98-111 | a Django error is captured, cleaned up after and notified; exactly what a YDB error caused is handed on as that error |
| Retry.RetryOperation.RetryOperationSync | ydb_backend/retry.py:113-114 | ends after the first attempt that the policy does not retry |
| Retry.RetryOperation.Run | ydb_backend/retry.py:113-120 | what the caller sees, and all calls, cleanups and notifications in order; an attempt is followed by another, if and only if it ended in a retriable YDB error, bare or as a cause, with retries left; a value that an attempt returns is returned |
| Retry.AttemptsAreBounded | ydb_backend/retry.py:73-114 | at most one attempt more than the policy's retries; only what a retriable YDB error caused is retried |
| Retry.CleanupBeforeNextAttempt | ydb_backend/retry.py:84-111 | cleanup and then notification happen once each between a failed attempt and the next |
| Retry.CleanupAfterEveryAttempt | ydb_backend/retry.py:84-111 | they happen after the last attempt, too, if it raised a Django error |
| Retry.SurfacedIsLast | ydb_backend/retry.py:113-120 | the failure that surfaces is that of the last attempt, if and only if it is not a bare YDB error after an earlier Django error; then it is the last Django error before |
| RateLimiter.SyncRateLimiter.FromRps | tests/slo/src/ratelimiter.py:19-21 | the interval is the inverse of the rate, or none, and the limiter is a start of the step system |
| RateLimiter.PassIsAttempt | tests/slo/src/ratelimiter.py:27-33 | whatever other threads do meanwhile, a pass through the lock changes the schedule, and permits or waits, as one attempt at some reading of the clock during the pass |
| RateLimiter.StepKeepsInvariant | tests/slo/src/ratelimiter.py:23-37 | any step of any thread keeps the lock exclusive, permits spaced, and the next permitted time an interval after the last permit |
| RateLimiter.RunKeepsInvariant | tests/slo/src/ratelimiter.py:23-37 | the invariant holds after every prefix of every interleaving |
| RateLimiter.WindowBound | tests/slo/src/ratelimiter.py:8-11 | n permits within a window span at least n - 1 intervals |
| RateLimiter.RateIsLimited | tests/slo/src/ratelimiter.py:8-32 | over every interleaving of any number of threads, a window of length T holds at most floor(T / interval) + 1 permits |
| RateLimiter.OnlyGrantedReturn | tests/slo/src/ratelimiter.py:23-37 | with an interval, no call returns as it enters, and only a thread that was granted a permit returns |
| RateLimiter.ReturnsAreLimited | tests/slo/src/ratelimiter.py:8-37 | over every interleaving, each return of a call is preceded by a permit of its own and followed by the next permit, so a window of length T sees at most floor(T / interval) + 2 of them: a thread may be slow to return |
| RateLimiter.NothingBlocks | tests/slo/src/ratelimiter.py:23-37 | no thread is stuck: it can move, or waits for the lock while its holder can move, or for a time that comes |
| RateLimiter.RefusedWaits | tests/slo/src/ratelimiter.py:32-37 | a thread without a permit sleeps its time out before it takes the lock again |
| RateLimiter.RpsIsRespected | tests/slo/src/ratelimiter.py:19-32 | at `rps` operations a second, a window of length T holds at most floor(T * rps) + 1 permits and floor(T * rps) + 2 returns |

## Left out

- StatementMeaning.QueryMeaning: assumes that the texts that expressions, aliases and limits contribute hold no `%s`, as `LIKE '%%son'` does (`HoleBalance` says what happens then), and do not end in `%`, that a term of ORDER BY has none in its direction, and that conditions are well behaved in the sense of `CaptureAlignment`, which says when they are.
- FinishedStatements.TopLevelMeaning: assumes that no text contains `$element_`, the spelling of generated names.
- NameReading.NamesReadBack: literals in quotes end as the backend's own pattern for them has it, at a quote that is not doubled; whether a backslash escapes in them as well is left to a parameter of the lexer.
- OrderRows.OrderIsKept: assumes that aliases are distinct and hold no direction after white space, that a base that is taken for constant names nothing, and that no column is confused; a random order is one that the database evaluates once for the statement.
- RateLimiter.PassIsAttempt: the loop of `__enter__` is the step system itself, as whether it ends depends on the scheduler; that no thread is stuck is `NothingBlocks`, and fairness is not stated.
- SchemaEditor.DatabaseSchemaEditor.AddField: whether the driver accepts a parameter that no statement uses is not in the repository, so it is a parameter of the model; collecting statements instead of executing them, and the refusal of DDL inside a transaction, are not modelled.
- Execution of deferred statements, those that refer to renamed tables or dropped columns, and many-to-many fields outside of creating and deleting models.
- Which exception surfaces first when several values of a query cannot be bound: all exceptions but `EmptyResultSet` and `FullResultSet` are one outcome.
- ConstantTerms.ConstantIffMisread: ranges over rendered terms made of literals, holes, quoted columns, words and symbols; double-quoted strings and comments are not rendered by the backend and are not modelled.
- SqlCompiler.SQLCompiler.GetCombinatorSql: the test for ordered parts goes over the select list of a compiler that was not set up. What that holds is up to Django, and a parameter here; where Django leaves it at None and `supports_slicing_ordering_in_compound` at its default, every compound query raises (`UnionRows.UnsetSelectRefusesAll`).
- HoleBalance.SelectBalance: assumes that no clause ends in `%`; for nested queries it goes by the holes and values of their own statements.
- SchemaRuns.AlterationSucceeds: assumes that the database accepts DROP NOT NULL on a column that is nullable already, as it is where an earlier NOT NULL was skipped.
- SqlCompiler.SQLCompiler.UnionSql: aliases in the ORDER BY of a compound query are not rewritten, because the select list of the compound query itself is not modelled.
- Retry.RetryOperation.RetryOperationSync: the SDK is an abstract policy with a number of retries and a predicate of retriable errors; its backoff times are not modelled, and cleanup and `on_error` are taken not to raise.
- Combinators other than UNION, `distinct(fields)`, QUALIFY, EXPLAIN, SELECT FOR UPDATE and the choice of columns for the parts of a union.
- Django's own compilation of select, order and group terms: a query holds the nodes it compiles.
- Parameters held in a tuple by one expression and in a list by another, which Python never takes for equal.
- How the field type of an expression is found (`_direct_internal_type`); every node carries the one it yields.
- Rounding of aware datetimes, time zones, truncation, case-insensitive and regular-expression lookups, which depend on functions of the database.
- The type tables; types are opaque, apart from those the code branches on.
- Inserting a row without any fields, which is refused before anything else.
- Letters beyond ASCII in the comparison of table names.
- Setting generated keys on objects after a bulk UPSERT, and the check of `conflict_target`.
- Connections, cursors, drivers, introspection, and everything else that is input and output.
