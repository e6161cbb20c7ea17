# typeorm-linq-repository: the fluent `Query` and its parts, in Dafny

This project models the core of typeorm-linq-repository's fluent query
object. The object is `Query` in `src/query/Query.js` and its record
`QueryBuilderPart` in `src/query/QueryBuilderPart.js`.

A `Query` wraps a relational query builder. Every fluent call either records a
deferred builder operation (a *part*: a builder action plus its argument list)
or edits a part already recorded. Nothing reaches the builder until the parts
are compiled in order. The model proves four kinds of property:

- how property paths become join parts under generated aliases, each alias
  joined at most once;
- how a comparison value is formatted into SQL text: LIKE wildcards, quote
  doubling, quoting, `LOWER(...)` case folding, dates;
- which recorded part a comparison or a join condition attaches to, and how
  the part list is reordered when it does;
- the mode machine (Get / Join / Compare), the where type (Normal / Joined),
  and the smaller operations: ordering, paging, selection, reset, isolated
  groups, compiling and counting.

Layout, one module per file:

- `wrappers.dfy` (`Wrappers`): `Option` and `Outcome`. `Outcome` is either
  pass or the message of the error the source throws.
- `strings.dfy` (`Strings`): ASCII lower-casing, doubling of single quotes,
  decimal rendering of integers, and `split`/`join` on one character.
- `parts.dfy` (`QueryBuilderParts`):
  - the builder actions, arguments and calls as values;
  - the `QueryBuilderPart` class, a constant action plus a parameter list
    changed in place;
  - `Values`, the calls a list of parts stands for.
- `builder.dfy` (`RecordingBuilder`): the external builder, seen only as the
  log of calls it receives.
- `operands.dfy` (`Operands`):
  - the SQL operator constants;
  - the comparison values and the formatting options of `completeWhere`;
  - which arguments each comparison method passes on.
- `aliases.dfy` (`Aliases`): path splitting and the value-level
  specification of joining (`JoinStep`, `JoinPath`).
- `conditions.dfy` (`Conditions`): value-level specifications on lists of
  calls:
  - `AttachComparison` for `completeWhere`;
  - `AttachJoinCondition` for `createJoinCondition`;
  - `AndOrParts` for `andOr`;
  - `ConditionCalls`/`OtherCalls` for the filters of `isolatedConditions`.
- `query.dfy` (`Queries`): the `Query` class.
  - Each method changes the fields the source changes.
  - Each method is proved against the value-level functions above, through
    `Snapshot()`, the calls its parts stand for at that moment, and
    `Joins()`, the parts, alias history and last alias together.

The source's builder methods are told apart by function identity. Here they
are the `Action` datatype. Property selectors (lambdas read through `nameof`)
are taken as the property names or dotted paths they produce.

In Get mode, `where` joins a compound path from the current last alias and
then records its condition on `initialAlias.leaf`, not on the alias its joins
reached (`src/query/Query.js:236-244`). The model keeps this behaviour.

## Model

| member | source | states |
|---|---|---|
| `QueryBuilderParts.QueryBuilderPart.constructor` | src/query/QueryBuilderPart.js:4-7 | The part's action and parameter list are exactly the ones given. The action is a constant field, so it never changes afterwards. |
| `QueryBuilderParts.QueryBuilderPart.PopParam` | src/query/Query.js:266 | `queryParams.pop()` in place: on a non-empty list it removes and returns the last argument. On an empty list it returns `undefined` (None) and changes nothing. |
| `QueryBuilderParts.QueryBuilderPart.PushParam` | src/query/Query.js:268 | `queryParams.push(p)` in place: the argument is appended to the stored part. |
| `QueryBuilderParts.ValuesPointwise` | src/query/Query.js:307-308 | The call replayed for position i is the current action and arguments of the part at position i. |
| `QueryBuilderParts.ValuesAppend` | src/query/Query.js:501 | The calls of two part lists, one after the other, are the calls of their concatenation. |
| `RecordingBuilder.Builder.Apply` | src/query/Query.js:308 | Applying a part appends exactly its call to the builder's log. |
| `RecordingBuilder.Builder.Clone` | src/query/Query.js:57 | The clone has the same alias and the same calls as the original, and is a separate object. |
| `Strings.LowerAscii` | src/query/Query.js:424-426 | Lower-casing keeps the length, lowers every character, and leaves no upper-case ASCII letter. |
| `Strings.DoubleQuotesRoundTrip` | src/query/Query.js:364-366 | Doubling quotes gives a literal body with no lone quote, and undoubling reads back the original text. |
| `Strings.DoubleQuotesAppend` | src/query/Query.js:365 | Quote doubling distributes over concatenation. |
| `Strings.IntToStringRoundTrip` | src/query/Query.js:431 | The decimal text of an integer value parses back to that integer. |
| `Strings.NatToStringRoundTrip` | src/query/Query.js:431 | The digits of a natural number are non-empty, have no sign, and parse back to the number. |
| `Strings.Split` | src/query/Query.js:534 | `split` on one character gives at least one segment, and no segment contains the separator. |
| `Strings.SplitJoin` | src/query/Query.js:534 | Joining the segments of a split with the separator gives the text back. |
| `Strings.JoinSplit` | src/query/Query.js:534 | Splitting segments joined by a separator they do not contain gives the segments back. |
| `Strings.RemoveChar` | src/query/Query.js:533 | Removing a character leaves no occurrence of it, and leaves a text without it unchanged. |
| `Operands.OperandShape` | src/query/Query.js:358-367 | The operand is a text exactly when the value was one or a wildcard was added. A non-text operand is the value unchanged. A quoted operand is `'...'` with no lone quote inside. |
| `Operands.BeginsWithOperand` | src/query/Query.js:41-45 | `beginsWith(s)` compares with `'s%'`, with the quotes in `s` doubled. |
| `Operands.EndsWithOperand` | src/query/Query.js:61-65 | `endsWith(s)` compares with `'%s'`, with the quotes in `s` doubled. |
| `Operands.ContainsOperand` | src/query/Query.js:50-55 | `contains(s)` compares with `'%s%'`, with the quotes in `s` doubled. |
| `Operands.ContainsExample` | src/query/Query.js:50-55 | `contains("x")` gives `'%x%'`. |
| `Operands.QuotedLiteral` | src/query/Query.js:364-367 | A text is quoted with its quotes doubled, and the literal body reads back as the text. |
| `Operands.QuoteExample` | src/query/Query.js:364-367 | `O'Brien` becomes `'O''Brien'`. |
| `Operands.LowerAsciiAppend` | src/query/Query.js:425 | Lower-casing distributes over concatenation. |
| `Operands.EqualFoldsCase` | src/query/Query.js:424-431 | `equal` on a text without `matchCase: true` gives `LOWER(ref) = '<lower-cased, quote-doubled text>'`. |
| `Operands.EqualMatchesCase` | src/query/Query.js:424-431 | `equal` on a text with `matchCase: true` gives `ref = '<quote-doubled text>'`, with no folding. |
| `Operands.NullTests` | src/query/Query.js:103-108 | `isNull`/`isNotNull` give `ref IS NULL` / `ref IS NOT NULL`, unquoted and unfolded. |
| `Operands.ListsNotFolded` | src/query/Query.js:88-92 | `in`/`notIn` give `ref IN (a, b, ...)` with the escaped values, never folded or re-quoted, whatever `matchCase` says. |
| `Operands.DateComparison` | src/query/Query.js:428-431 | A date value is compared as its quoted ISO text, whatever `matchCase` says. |
| `Operands.JoinedComparison` | src/query/Query.js:321-332 | A joined comparison compares with `lastAlias.property` unquoted. It folds case exactly when `matchCase: false` was given. |
| `Operands.ListQuotingKeepsQuotes` | src/query/Query.js:467-473 | `escapeStringArray` wraps a string in quotes without doubling the quotes inside. The result is a well-formed literal exactly when the text has no lone quote. |
| `Operands.ListQuotingExample` | src/query/Query.js:467-473 | `O'Brien` in an `in` list becomes `'O'Brien'`, which ends the SQL literal early. |
| `Operands.Rendered` | src/query/Query.js:91 | One text per list value, each its template-literal rendering. |
| `Aliases.StripAll` | src/query/Query.js:538-540 | Each segment loses a leading `map(` and nothing else, and the count of segments is kept. |
| `Aliases.PathSegments` | src/query/Query.js:531-534 | A path always has at least one segment, so a leaf is always popped. |
| `Aliases.JoinPathSnoc` | src/query/Query.js:536-542 | Joining one more segment is one more join step, from the alias the earlier segments reached. |
| `Aliases.JoinPathAlias` | src/query/Query.js:536-555 | Joining a path `s1...sn` leaves the last alias at `L_s1_..._sn`, built from the alias it started at. |
| `Aliases.JoinPathGrows` | src/query/Query.js:556-562 | Joining only appends, both to the parts and to the alias history. |
| `Aliases.JoinPathRecords` | src/query/Query.js:556-562 | After joining a path, every alias of its chain is recorded. |
| `Aliases.JoinPathAllRecorded` | src/query/Query.js:556-562 | When every alias of the chain is already recorded, joining adds no part and records nothing. |
| `Aliases.JoinPathIdempotent` | src/query/Query.js:553-562 | Joining the same path again from the same alias changes nothing and ends at the same alias. |
| `Aliases.JoinPathFresh` | src/query/Query.js:536-562 | On a chain none of whose aliases is recorded, a path of n segments appends exactly n join parts in order. The k-th joins `L_s1_..._s(k-1).sk` as `L_s1_..._sk`, and the aliases are recorded in order. |
| `Aliases.PathSegmentsOfJoined` | src/query/Query.js:529-534 | A dotted path of plain segments splits back into those segments. |
| `Aliases.PathJoins` | src/query/Query.js:522-544 | For `s1.....sn` on a fresh chain: the leaf is `sn`, and exactly n-1 join parts for `s1...s(n-1)` are appended in order. A one-segment path joins nothing. The last alias ends at `L_s1_..._s(n-1)`. |
| `Conditions.LastOwnerIsLast` | src/query/Query.js:371-395 | The part the scan finds is the last one that may own the comparison. Nothing is found exactly when no part may. |
| `Conditions.LastOwnerBeforeIsLast` | src/query/Query.js:371-395 | The same, for the first i parts. |
| `Conditions.LastIntroducerIsLast` | src/query/Query.js:442-451 | The part the scan finds is the last one whose second argument is the last alias. Nothing is found exactly when no part has it. |
| `Conditions.LastIntroducerBeforeIsLast` | src/query/Query.js:442-451 | The same, for the first i parts. |
| `Conditions.AttachComparisonShape` | src/query/Query.js:369-434 | `completeWhere` fails exactly when no part may own the comparison. Otherwise: the parts before the owner are untouched, and the parts after it close up in order. The owner moves to the end with only its trailing argument replaced by `old op value`. |
| `Conditions.RewriteLastKeepsShape` | src/query/Query.js:405-415 | Replacing the trailing argument keeps the action and the number of arguments, or gives one argument when there were none. |
| `Conditions.AttachedPartStaysOwner` | src/query/Query.js:369-434 | After a comparison attaches, its part is the last that may own a comparison, so the next comparison extends the same condition. |
| `Conditions.AttachJoinConditionShape` | src/query/Query.js:438-466 | `createJoinCondition` fails exactly when no part joined the last alias. Otherwise the other parts keep their order and the join part moves to the end. With two arguments it gains `alias.property` as its third. With three, ` AND alias.property` is appended to the third. |
| `Conditions.JoinConditionOpensComparison` | src/query/Query.js:456-465 | When the join part of the alias has two or three arguments, attaching the join condition leaves it last and owning the next joined comparison. |
| `Conditions.SplitIsPartition` | src/query/Query.js:488-500 | An isolated group splits into its where/andWhere/orWhere calls and the rest. Every call lands on exactly one side, as a multiset. |
| `Queries.AliasHistory.Record` | src/query/Query.js:559 | The alias is appended to the shared history. |
| `Queries.Query.constructor` | src/query/Query.js:15-25 | Both aliases are the builder's alias, the mode is Get, the where type Normal, the selection empty, and the part list empty. The history is the one given. |
| `Queries.Query.PushPart` | src/query/Query.js:318 | The part is appended, the calls gain its call, and the rest of the state is unchanged. |
| `Queries.Query.PushCondition` | src/query/Query.js:293 | A new part object holding one condition is appended after the old parts, and nothing else changes. |
| `Queries.Query.PushParts` | src/query/Query.js:501 | The parts are appended in order, and their calls follow the old calls. |
| `Queries.Query.SetJoinIfNotCompare` | src/query/Query.js:568-575 | The mode becomes Join unless it is Compare, and nothing else changes. |
| `Queries.Query.RecordJoin` | src/query/Query.js:559-561 | The alias is recorded and its join part appended. |
| `Queries.Query.RecordNewJoin` | src/query/Query.js:558-562 | A fresh part `[queryAlias.property, queryAlias_property]` is appended and its alias recorded. |
| `Queries.Query.JoinOrIncludePropertyUsingAlias` | src/query/Query.js:545-564 | The last alias becomes `queryAlias_property`, and the mode follows `setJoinIfNotCompare`. Parts and history follow `JoinStep`: a part and a record are added only when the alias was not recorded. |
| `Queries.Query.Join` | src/query/Query.js:125-127 | An inner join step from the initial alias. Every part added is a new object. |
| `Queries.Query.JoinAlso` | src/query/Query.js:128-130 | A left join step from the initial alias. Every part added is a new object. |
| `Queries.Query.ThenJoin` | src/query/Query.js:219-221 | An inner join step from the last alias. Every part added is a new object. |
| `Queries.Query.ThenJoinAlso` | src/query/Query.js:222-224 | A left join step from the last alias. Every part added is a new object. |
| `Queries.Query.Include` | src/query/Query.js:93-95 | A left-join-and-select step from the initial alias. Every part added is a new object. |
| `Queries.Query.ThenInclude` | src/query/Query.js:216-218 | A left-join-and-select step from the last alias. Every part added is a new object. |
| `Queries.Query.From` | src/query/Query.js:509-521 | The last alias becomes the entity name. The part `[entity, name, "true"]` is added, and the name recorded, only when the name was not recorded, as a new object. The mode follows `setJoinIfNotCompare`. |
| `Queries.Query.JoinMultipleProperties` | src/query/Query.js:522-544 | Returns the leaf. The joins are `JoinPath` over the stripped intermediate segments. The mode is Join after any join unless it was Compare. |
| `Queries.Query.JoinSegments` | src/query/Query.js:536-542 | The loop makes one join step per segment, in order, each from the alias the previous one produced. |
| `Queries.Query.JoinSegment` | src/query/Query.js:537-541 | One segment, with a leading `map(` stripped, is joined from the last alias. |
| `Queries.Query.ScanOwner` | src/query/Query.js:371-395 | The popping loop stops at the last part that may own the comparison. It returns the parts before it, that part, and the parts after it in order, or null with every part popped. |
| `Queries.Query.PopOwner` | src/query/Query.js:369-395 | The part list is cut at the owner found by the scan, and the scalar state is unchanged. |
| `Queries.Query.CompleteCondition` | src/query/Query.js:419-432 | The owner's trailing argument is popped and the completed condition pushed. Only that part's call changes. |
| `Queries.Query.PutBackCompleted` | src/query/Query.js:399-434 | Putting back the popped parts, then the completed owner, gives exactly `AttachComparison` on the old calls. |
| `Queries.Query.CompleteWhere` | src/query/Query.js:333-437 | On success: the new calls are `AttachComparison` of the old ones and the mode is Get. On failure: the error "Invalid use of conditional method.", an emptied part list, and an unchanged scalar state. Either way no part object is added: every part left was recorded before. |
| `Queries.Query.CompareWith` | src/query/Query.js:66-68 | The comparison methods that take a literal value complete the pending condition with their operator, value and options, as `completeWhere` does. |
| `Queries.Query.CompareWithJoined` | src/query/Query.js:321-332 | The `...Joined` methods complete it against `lastAlias.property`, unquoted, joining-string only when `matchCase` is a boolean. |
| `Queries.Query.EscapeStringArray` | src/query/Query.js:467-473 | In place: every string element of the caller's array is wrapped in quotes, and every other element is left as it is. |
| `Queries.Query.InList` | src/query/Query.js:88-92 | The caller's array is escaped in place, and the comparison is `IN`/`NOT IN` with the parenthesised list, unquoted. |
| `Queries.Query.PrependSelect` | src/query/Query.js:475 | The inner query gains a new select part object on its selection, at the front. Its parts stay distinct and its scalar state is unchanged. |
| `Queries.Query.InnerQueryCondition` | src/query/Query.js:474-481 | The inner query gains the select part at its front and otherwise keeps its state and its distinct parts. Its builder receives the select call then the inner calls. The comparison is made with `(<its SQL>)`, unquoted. |
| `Queries.Query.AddJoinCondition` | src/query/Query.js:264-268 | The part's trailing argument becomes `old condition lastAlias.property`. |
| `Queries.Query.AddJoinConditionToLast` | src/query/Query.js:264-272 | The last part is popped, extended that way and pushed back. The other parts and the scalar state are unchanged. |
| `Queries.Query.ScanIntroducer` | src/query/Query.js:442-451 | The popping loop stops at the last part whose second argument is the alias. It returns the parts before it, that part, and the parts after it in order, or null with every part popped. |
| `Queries.Query.PopIntroducer` | src/query/Query.js:440-451 | The part list is cut at the join part found by the scan, and the scalar state is unchanged. |
| `Queries.Query.AddToJoinPart` | src/query/Query.js:456-464 | The join part gains `lastAlias.property`, or ` AND lastAlias.property` after its condition. Only that part's call changes. |
| `Queries.Query.PutBackJoined` | src/query/Query.js:455-465 | Putting back the popped parts, then the join part, gives exactly `AttachJoinCondition` on the old calls. |
| `Queries.Query.CreateJoinCondition` | src/query/Query.js:438-466 | On success the calls are `AttachJoinCondition` of the old ones. On failure: "Invalid use of conditional join." and an emptied part list. No part object is added. |
| `Queries.Query.Where` | src/query/Query.js:232-257 | From Get mode: the path is joined, then `where initialAlias.leaf` is appended; the last alias is initial, the where type Normal and the mode Compare. Otherwise: the where type becomes Joined, and `lastAlias.leaf` is attached as a join condition to the last part whose second argument is the last alias the path's joins reached (not necessarily the last join made); that part moves to the end. On success the last alias is restored and the mode is Compare. Every part added is a new object. |
| `Queries.Query.WhereOnBase` | src/query/Query.js:238-245 | The Get-mode branch of `where`, as above. |
| `Queries.Query.WhereOnJoin` | src/query/Query.js:247-252 | The join branch of `where`, as above. |
| `Queries.Query.JoinConditionOn` | src/query/Query.js:250-255 | The where type becomes Joined, and the join condition is attached. On success the alias is restored and the mode is Compare. |
| `Queries.Query.AndOr` | src/query/Query.js:274-299 | The path is joined with inner joins for AND and left joins for OR. Then the open join condition of the last part is extended, or an andWhere/orWhere part on `lastAlias.leaf` is appended. The alias is restored and the mode is Compare. With a Joined condition and no part left, it fails with the TypeError. Every part added is a new object. |
| `Queries.Query.AndOrLeaf` | src/query/Query.js:287-298 | The end of `andOr` once the joins are made, as above. |
| `Queries.Query.ExtendOrAppend` | src/query/Query.js:287-294 | The part list update of `andOr`: exactly `AndOrParts`. |
| `Queries.Query.And` | src/query/Query.js:38-40 | `andOr` with AND and `andWhere`. |
| `Queries.Query.Or` | src/query/Query.js:157-159 | `andOr` with OR and `orWhere`. |
| `Queries.Query.IsolatedChild` | src/query/Query.js:486 | A new query on the same builder, sharing this query's alias history. |
| `Queries.Query.SplitGroup` | src/query/Query.js:488-500 | The two filters: the where/andWhere/orWhere parts and the others, each in their order. The second has no repeats and is drawn from the group. |
| `Queries.Query.IsolatedConditions` | src/query/Query.js:485-508 | The query gains the group's non-condition parts in order, then one new part with the chosen action wrapping exactly the group's condition calls. Every part it now holds was its own, came from the group, or is that new part. |
| `Queries.Query.CompileQueryParts` | src/query/Query.js:305-311 | The builder receives exactly the parts' calls, in order, after its earlier calls. |
| `Queries.Query.BuildQuery` | src/query/Query.js:300-304 | The wrapped builder receives every part's call, in order. |
| `Queries.Query.Count` | src/query/Query.js:56-60 | A fresh clone receives the calls. The query and its own builder are not modified. |
| `Queries.Query.CompleteOrderBy` | src/query/Query.js:312-320 | One part with the given arguments is appended, plus `NULLS FIRST`/`NULLS LAST` when `nullsFirst` is a boolean. The part is a new object. |
| `Queries.Query.OrderBy` | src/query/Query.js:160-164 | Appends `orderBy [lastAlias.property, "ASC"(, nulls)]`. |
| `Queries.Query.OrderByDescending` | src/query/Query.js:165-169 | Appends `orderBy [lastAlias.property, "DESC"(, nulls)]`. |
| `Queries.Query.ThenBy` | src/query/Query.js:206-210 | Appends `addOrderBy [lastAlias.property, "ASC"(, nulls)]`. |
| `Queries.Query.ThenByDescending` | src/query/Query.js:211-215 | Appends `addOrderBy [lastAlias.property, "DESC"(, nulls)]`. |
| `Queries.Query.Skip` | src/query/Query.js:190-195 | A new skip part is appended only for a positive count. |
| `Queries.Query.Take` | src/query/Query.js:196-201 | A new take part is appended only for a positive limit. |
| `Queries.Query.Select` | src/query/Query.js:176-189 | The selection is `initialAlias.property` in Get mode, otherwise `lastAlias.property`. Nothing else changes. |
| `Queries.Query.Reset` | src/query/Query.js:170-175 | The last alias is initial again and the where type Normal. Nothing else changes. |
| `Queries.Query.UsingBaseType` | src/query/Query.js:228-231 | The last alias is initial again. Nothing else changes. |
| `Queries.MovedToEnd` | src/query/Query.js:399-416 | Putting back the parts after the owner, then the owner, gives the old calls with the owner's call moved to the end. |
| `Queries.ComparisonMoved` | src/query/Query.js:399-434 | After the owner is completed and moved to the end, the part list stands for `AttachComparison` and still has no repeats. |
| `Queries.JoinConditionMoved` | src/query/Query.js:455-465 | After the join part is extended and moved to the end, the part list stands for `AttachJoinCondition` and still has no repeats. |
| `Queries.AttachComparisonAt` | src/query/Query.js:396-434 | Once the owner's position is known, `AttachComparison` is that owner completed and moved to the end. |
| `Queries.AttachJoinConditionAt` | src/query/Query.js:452-465 | Once the join part's position is known, `AttachJoinCondition` is that part extended and moved to the end. |
| `Queries.SplitSnoc` | src/query/Query.js:488-500 | One more part of the group lands on exactly one side of the split. |

## Left out

- `then`, `catch` and `toPromise` (promise plumbing around the external `getAction`) are not modelled. The query records which get action it was given.
- Reflection from a selector lambda to a property name (`nameof`) is not modelled: methods take the property name or dotted path as a string. Removing spaces and rewriting `.map(y=>y` with a regular expression are also left out. The model starts from the text those steps produce, removes `)` and splits on `.`.
- The TypeORM builder is a log of the calls it receives. `getCount`, the SQL text of `getQuery` (a parameter `sqlOf` of `Queries.Query.InnerQueryCondition`) and the database are not modelled.
- A `Brackets` argument holds the value of the group's condition calls when the group is closed, not the callback that replays them.
- A date is given with its `toISOString()` text and its plain rendering. Date formatting is not modelled.
- `toLowerCase` is modelled on ASCII letters only.
- JavaScript numbers are modelled as unbounded integers; fractions and the exponent notation of very large numbers are not modelled.
- The runtime type tests on option objects (`typeof ... === "boolean"`) are an `Option<bool>` for `matchCase`/`nullsFirst`, and fixed option records for the internal options.
- `src/repository/LinqRepository.js` is not part of this model.
- The constants of `src/constants/SqlConstants.js` and the enums of `src/enums/QueryMode.js` and `src/enums/QueryWhereType.js` are declared inside the model.
- The message text of the TypeError that `andOr` raises on a Joined condition with no part left is a constant, not the engine's exact message.
- Queries.Query.IsolatedConditions: requires that the group was written on a query other than this one, and that its parts are distinct and not among this query's parts. This always holds for a group written on the fresh query from `Queries.Query.IsolatedChild`: the child starts with no parts, and every method that records parts ensures that each part it adds is a new object, so none of them can be among this query's parts. Because the parts are distinct, the source's `indexOf` filter is the same as "not a condition part".
- Queries.Query.InnerQueryCondition: requires the inner query to be another query object.
- Queries.Query.AddJoinConditionToLast: requires a non-empty part list. Its only caller, `andOr`, has already read the last part, and fails before the call when there is none.
- Queries.Query.And: on failure states only that an error is raised. The message is stated by `Queries.Query.AndOr`.
- Queries.Query.Or: on failure states only that an error is raised. The message is stated by `Queries.Query.AndOr`.
- Queries.Query.ScanOwner: the popping loops of `completeWhere` and `createJoinCondition` scan a descending index instead of popping and unshifting one part at a time. The result is the same.
