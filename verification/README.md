# CubicWeb: models and proofs

This project models the parts of CubicWeb in which most can go wrong without being noticed, and proves what they
promise. Each module follows one source file, or one concern of it; code that works by changing things in place is
modelled by methods on classes, and proved against functions and predicates about which the properties are lemmas.

* **Multipart parser** (`Lines`, `LineIteration`, `MultipartParts`, `MultipartParsing`, `MultipartReference`,
  `MultipartRoundTrip`). Bytes are characters of latin1. The parser, run on a stream that answers reads as it likes,
  is proved to compute a function of the bytes; that function is proved sound and complete against a parser that reads
  whole lines, as section 5.1.1 of RFC 2046 describes a message; a message that is written that way is read back.
* **RQL rewriter** (`RqlTrees`, `RqlSharing`, `RqlVisitors`, `RqlIndexes`, `RqlVisits`, `RqlSnippets`, `RqlRewriters`,
  `RqlRewritings`, `RqlRows`, `RqlStages`, `RqlRuns`, `RqlSelects`, `RqlSplits`, `RqlRecovered`, `RqlLimits`,
  `RqlNotLimits`, `RqlSplitLimits`, `RqlScopes`). A restriction is a tree of And, Or, Not, Exists and relations; it is
  given a meaning over any database. A variable belongs to the innermost scope that has all of its references, a
  relation to the one that it stands in; the statement and each Exists are scopes, Not is none
  (`cubicweb/server/rqlannotation.py:281`, `cubicweb/server/sources/rql2sql.py:1009-1028`). The meaning of a query is
  the bag of its rows; a select computes terms from its solutions, then groups, aggregates, sorts and limits the bag
  of their values, by any functions. The type resolver is any function that accepts or rejects a tree.
* **Importer of external entities** (`ExtEntities`, `Importing`, `DeferredRelations`). The generator and its consumer
  are one loop. What is imported is characterised as a least fixpoint, whatever the order.
* **SPARQL type inference** (`SparqlTypes`). The result is characterised as the greatest consistent narrowing.
* **Query cache** (`QueryCaches`), **COPY buffer** (`CopyBuffers`), **result sets and the entity cache**
  (`ResultSets`), **massive import** (`MassiveStores`), **migrations** (`Migrations`) and **cubes** (`Cubes`).

`dafny verify dfyconfig.toml` checks the whole project.

## What the rewriter needs

The rewriter promises that it "should only restrict results of the original query". This holds under conditions that
the code does not check. All of them are conditions on the query, the snippets and the database before the call
(`RqlRuns.Prepared`); `RqlRuns.SettingHolds` shows that they last through all stages of the rewriting, and
`RqlLimits.OwnedRows` that they can be met.

* The constrained terms are constants, or variables in the scope of the statement (`RqlStages.Ready`). The snippets
  for a variable that only an Exists mentions go into that Exists: `RqlScopes.InsideMeans` says what the query means
  then, `RqlScopes.InsideRestricts` that this restricts it unless the Exists is negated.
* A relation of the query that may be used instead of a snippet's is a condition that every solution meets
  (`RqlStages.UsableAreConditions`); `_compatible_relation` also returns alternatives, see
  `RqlLimits.RelationUnderOr`.
* It is a relation of the variable that the snippet's relation is about (`RqlVisits.GoodShare`); with two mapped
  variables it need not be, see `RqlLimits.RelationOfAnotherVariable`. For these two the theorem goes one way only:
  there are inputs that do not meet the condition, by accident of the data, without harm.
* Each variable of a snippet is shared at most once, and its relation occurs under And and Exists only
  (`RqlSnippets.Insertable`).
* When the relation that is dropped is between two mapped variables, both terms are those of the relation that is used
  (`RqlSnippets.Matches`). `RqlSnippets.InsertedMeansSnippet` says exactly what happens otherwise: the snippet is
  weakened at the solutions for which the terms differ in value, see `RqlLimits.MappedVariableShared`.
* A snippet that `need_exists` does not wrap has no new variable outside Exists (`RqlRewritings.StaysApart`); by
  `RqlRewritings.LocalRoot` it brings a new variable into the scope of the statement exactly when it has. That is so
  when two leaves share one (`RqlLimits.LeavesThatShareAVariable`), and when a Not has one
  (`RqlLimits.NotBringsAVariable`, for the constraint of `cubicweb/test/data/schema.py:45`;
  `cubicweb/test/unittest_entity.py:451-453` expects the variable in the scope of the statement).
* What one check inserts has no relation that a later check may take for a condition of the query
  (`RqlStages.QuietQuery`); by `RqlRewritings.QuietRoot` it has one exactly when it is a Not without Exists, over more
  than one relation. `RqlNotLimits.NegatedRelationUsed` shows two checks of which the second then lets in what it
  should deny. The condition is needed of all checks but the last.
* The database keeps to the types and cardinalities of its schema, where "the cardinality applies to all" targets of a
  relation (`doc/book/devrepo/datamodel/definition.rst:175-180`), and the types found for a query are right
  (`RqlSnippets.Conforms`, `RqlRuns.TypesRight`).

A list of snippets of which some collapse, because every relation of them is stated by the query, and others are
inserted, is stricter than the alternatives of the list: `RqlRewritings.AllowsWhatIsGranted` says exactly when.

## What splitting a query needs

Queries whose type solutions need different checks become a union, in a subquery when something applies to the whole
bag. `RqlSplits.SplitAnswers` says for any groups what the result answers. It is right in two cases only:

* No solution of another group fits a group's types when each variable is looked at alone, and its checks
  (`RqlSplits.NoMisfit`). A misfit is let in without permission, or counted once more: `RqlSplits.SplitIsRight` has
  both directions, `RqlSplitLimits.LetInByAnotherGroup` a query for both failures. Which groupings are free of
  misfits, whatever the checks and the database, can be said before the call: those in which each type solution that
  fits a group variable by variable is one of it (`RqlRecovered.RecoveredIsEnough`, `RqlRecovered.RecoveredIsNeeded`).
* A distinct select that groups gives no row twice in one branch, because the branches keep the `distinct` flag
  (`RqlSplits.DistinctKeepsRows`, `RqlSplits.DistinctCount`); `RqlSplitLimits.DistinctCountIsWrong` is a COUNT of one
  instead of two.

## Where code and documentation disagree

* `MultipartParser._iterparse` raises no error when the stream ends in a piece of a longer body line that reads like
  the terminator, and loses the part of that body: `MultipartReference.ParseRunsOut` is the exact condition,
  `MultipartRoundTrip.TailThatReadsLikeTheTerminator` a family of messages. The model follows the code.
* `RQLRewriter` should "not generate new" results. A check of a variable of a negated Exists lets more in
  (`RqlScopes.CheckLetsMoreIn`, for the query of `cubicweb/test/unittest_rqlrewrite.py:502-509`);
  `RqlScopes.InsideRestricts` says when.
* `QueryCache` counts reads of keys that it does not hold; a key may become permanent without ever having a value.
* `_has_multiple_cardinality` is documented to return true when all cardinalities are single; it returns true when one
  is not, and the model follows the code.
* `ResultSet.limit` in place gives an entity whose row goes a result set of its own, so that its row is always found
  (`cubicweb/test/unittest_rset.py:166-174`). `Entity.as_rset` is cached (`cubicweb/entity.py:754`): when that result
  set was limited before, or is later, the entity is not where it says. `ResultSets.LimitOfOwnResultSet` has both
  runs, `ResultSets.ResultSet.LimitInPlace` the exact condition.
* `cmd_drop_cube` raises after `config._cubes` was reassigned.

## Model

| member | source | states |
|---|---|---|
| Lines.GluePieces | cubicweb/multipart.py:191-228 | for every buffer size of two or more, gluing each piece without a line ending to the piece after it gives exactly the lines of the whole input |
| Lines.ConcatPieces | cubicweb/multipart.py:207-218 | the pieces are the input, cut: nothing is lost, added or moved |
| Lines.CrlfNeverCut | cubicweb/multipart.py:211-218 | after a piece that ends with CR the next piece never starts with LF |
| Lines.CutStable | cubicweb/multipart.py:208-218 | where the first piece ends does not depend on what is read later, once something follows it |
| Lines.PiecesExtend | cubicweb/multipart.py:219-221 | when more input comes, only the last piece is cut again: this is why it is enough to carry the last line over to the next read |
| Lines.LastPieceIsOneLine | cubicweb/multipart.py:219-221 | the piece that is carried over is one line or the start of one, and fits in the buffer |
| LineIteration.LinesArePieces | cubicweb/multipart.py:207-218 | cutting only the first line of what was carried over and read cuts all of it into pieces, because a read is no longer than the buffer |
| LineIteration.RefillKeepsPieces | cubicweb/multipart.py:219-228 | a read, whatever its size, leaves the pieces that are still to come as they were |
| LineIteration.Stream.Read | cubicweb/multipart.py:205 | a read returns any number of bytes up to the size asked for, and none only at the end or when none are asked for |
| LineIteration.LineIter.Refill | cubicweb/multipart.py:204-228 | one turn of the reading loop keeps the pieces to come, makes progress, and finds no line to index exactly when nothing at all was read |
| LineIteration.LineIter.Next | cubicweb/multipart.py:222-228 | the iterator yields the pieces of the visible input one after the other as (text, line ending), whatever the sizes of the reads; the empty input is the IndexError of `lines[0]` |
| MultipartParts.CopyFile | cubicweb/multipart.py:89-97 | copies the bytes from the position on, up to `maxread` or the end, in blocks |
| MultipartParts.MultipartPart.WriteHeaderLine | cubicweb/multipart.py:287-299 | a header line makes of the part, its headers and its file object what the specification of `write_header` says, errors included |
| MultipartParts.MultipartPart.WriteBodyLine | cubicweb/multipart.py:301-312 | a body line does the same for the body: the last line ending is held back, the size is the length of the content, and moving the content to disk keeps it |
| MultipartParts.MultipartPart.FeedLine | cubicweb/multipart.py:282-285 | a fed line goes to the header or to the body, and changes the part as specified |
| MultipartParsing.MultipartParser.Create | cubicweb/multipart.py:144-164 | limits are clipped to each other, and a boundary that does not fit into the buffer is refused |
| MultipartParsing.PartLoop.Turn | cubicweb/multipart.py:246-264 | one turn of the parsing loop, on heap objects, is one step of the specification of the loop |
| MultipartParsing.PartLoop.FeedPart | cubicweb/multipart.py:257-264 | a line that is fed sets the tail flag and is checked against the limits |
| MultipartParsing.PartLoop.Yield | cubicweb/multipart.py:251-256 | a yielded part is rewound, kept as it is and replaced by a new one |
| MultipartParsing.MultipartParser.IterParse | cubicweb/multipart.py:230-266 | parts and error are a function of the bytes of the stream, cut at the content length when it is positive: reads of any size give the same parts |
| MultipartReference.StepKeepsBudget | cubicweb/multipart.py:246-264 | every step keeps: sizes of parts on disk and in memory within the limits, a part in memory within `memfile_limit`, content within the declared length |
| MultipartReference.ParseWithinBudget | cubicweb/multipart.py:239-264 | whatever the input, the parts that are yielded are within the memory and disk limits, also when the parse fails |
| MultipartReference.HeaderLine | cubicweb/multipart.py:287-299 | the pieces of a header line do what the line does, or fail: it is malformed or longer than the buffer |
| MultipartReference.BodyLine | cubicweb/multipart.py:301-312 | the pieces of a body line, however long, do what the whole line would do, unless a limit is reached; a piece is not taken for a boundary in the middle of a line |
| MultipartReference.OneLine | cubicweb/multipart.py:246-264 | the loop over the pieces of one line simulates the line-by-line reading of RFC 2046 |
| MultipartReference.RunIsSound | cubicweb/multipart.py:246-266 | a run of the loop that ends well has read what the line-by-line reference parser reads |
| MultipartReference.RunIsComplete | cubicweb/multipart.py:246-266 | what the reference parser reads, the loop reads, when header lines fit the buffer and sizes the limits |
| MultipartReference.RunRunsOut | cubicweb/multipart.py:246-266 | when the lines run out before a terminator, the loop yields all parts but the open one, and raises exactly when the last piece does not read like the terminator |
| MultipartReference.ParseIsSound | cubicweb/multipart.py:230-266 | a parse without error gives the parts of the reference parser; the one exception is a stream that ends in the body of a part, in a piece that reads like the terminator: then that part is missing, and only that one |
| MultipartReference.ParseIsComplete | cubicweb/multipart.py:230-266 | an input that the reference parser accepts is parsed without error and to the same parts, when header lines and sizes fit |
| MultipartReference.ParseRunsOut | cubicweb/multipart.py:230-266 | the same for a whole stream: with the two rows before, an input whose header lines and sizes fit is parsed without error exactly when it has a terminator line or ends, in the body of a part, in a piece that reads like one |
| MultipartRoundTrip.ReadHeader | cubicweb/multipart.py:295-299 | a serialised header is read back as name and value |
| MultipartRoundTrip.BodyKeepsBytes | cubicweb/multipart.py:301-312 | content plus pending line ending are all the bytes that were fed, over any lines |
| MultipartRoundTrip.BodyMade | cubicweb/multipart.py:301-312 | the lines of a body before its delimiter give back the body without the delimiter's line break |
| MultipartRoundTrip.MessageReads | cubicweb/multipart.py:230-266 | the reference parser reads a serialised message as the parts that were serialised, and ignores the epilogue |
| MultipartRoundTrip.RoundTrip | cubicweb/multipart.py:191-313 | parsing the serialisation of section 5.1.1 of RFC 2046 of any non-empty list of parts returns the same headers and bodies in order, for every epilogue, when sizes are within the limits and no body line reads like a boundary |
| MultipartRoundTrip.TailThatReadsLikeTheTerminator | cubicweb/multipart.py:257-266 | a family of messages, of any number of parts before, that are accepted although the terminator only ends a longer body line: the last part is lost without an error |
| RqlTrees.EvalAgrees | cubicweb/server/sources/rql2sql.py:1009-1034 | what a restriction says depends only on the values of the variables in its scope; `Exists` opens a scope, `Not` does not |
| RqlTrees.SatWhenBound | cubicweb/rqlrewrite.py:207-217 | an `Exists` around a restriction whose scope has no variable of its own changes nothing |
| RqlSharing.PinHolds | cubicweb/rqlrewrite.py:739-781 | a dropped relation with at most one target forces its variable to the value that the query gives to the shared one |
| RqlSharing.SameMeaning | cubicweb/rqlrewrite.py:739-781 | dropping relations that the query states, and using the query's variable instead, keeps what the snippet says, under any nesting in which they are dropped under And and Exists only |
| RqlSharing.SameSat | cubicweb/rqlrewrite.py:739-781 | the same for a scope: some values for the snippet's variables exist exactly when some exist for what is left of it |
| RqlVisitors.CompatibleRelation | cubicweb/rqlrewrite.py:178-199 | the relation found is the first of the given ones that is in the scope of the statement and not negated; none is found only if there is none |
| RqlIndexes.InitFromVarmap | cubicweb/rqlrewrite.py:410-437 | the index has, for each mapped variable, the query's relations that the variable is subject of only, and those that it is object of, by type and in any order; one under a `Not` is still in the scope of the statement, one under an `Exists` is not; of two mappings of a name the later one counts |
| RqlIndexes.SameRelationFound | cubicweb/rqlrewrite.py:739-772 | relations that may not be used make no difference to the one that is found, in whatever order they are indexed |
| RqlVisits.FailsOnConstants | cubicweb/rqlrewrite.py:774-781 | the visitor raises AttributeError exactly when a term to share is a constant |
| RqlVisits.UserIsMet | cubicweb/rqlrewrite.py:783-796 | a visit that does not fail comes to U wherever the snippet mentions it; one that fails may have come to it before |
| RqlVisits.VisitTracks | cubicweb/rqlrewrite.py:783-883 | in any visiting order: new names are new and pairwise different, shared variables keep the query's name, replaced names are never given out again |
| RqlVisits.VisitBuilds | cubicweb/rqlrewrite.py:774-918 | after all replacements in place, the tree built is the declarative rewriting of the snippet, also when a variable was used before it was shared |
| RqlSnippets.UsedRelation | cubicweb/rqlrewrite.py:739-772 | the query's relation that is used instead has the same type, is about the entry's term, is a condition of the statement, and has single cardinality on the side that matters |
| RqlSnippets.OneMappedVariable | cubicweb/rqlrewrite.py:351-354 | with one mapped variable, as in `insert_local_checks`, the relation used is always one of that variable |
| RqlSnippets.ShareIsStated | cubicweb/rqlrewrite.py:166-199 | in a database that keeps to the cardinalities of its schema, the query's relation holds for its solution and has no other target |
| RqlSnippets.SharedTerms | cubicweb/rqlrewrite.py:774-781 | a shared variable ends up with the query's term, whatever is visited before or after its relation |
| RqlSnippets.WellAgrees | cubicweb/rqlrewrite.py:853-883 | each shared variable is pinned by a relation that is dropped |
| RqlSnippets.VisitIsRewriting | cubicweb/rqlrewrite.py:808-918 | what is inserted for a whole snippet is its rewriting by one fixed sharing |
| RqlSnippets.InsertedMeansSnippet | cubicweb/rqlrewrite.py:739-918 | for every solution of the query, the snippet holds of the mapped terms exactly when what is inserted does and, where a relation between mapped variables was dropped, the mapped terms have the values of the terms used; where nothing is left to insert, exactly the latter |
| RqlRewriters.ReplaceBack | cubicweb/rqlrewrite.py:516-518 | replacing a node and putting the old one back leaves the tree as it was |
| RqlRewriters.ChainGrows | cubicweb/rqlrewrite.py:504-507 | an alternative goes right beside the first one, wherever that has moved to |
| RqlRewriters.ShapeGrows | cubicweb/rqlrewrite.py:504-507 | inserting in place, at the recorded place of the first alternative, extends the alternatives and touches nothing else, also after the user's condition came in on top |
| RqlRewriters.Rewriter.Insert | cubicweb/rqlrewrite.py:492-537 | a snippet is added as a condition, or as an alternative to the previous one; one that the type resolver rejects leaves the tree as it was |
| RqlRewriters.Rewriter.NeedUser | cubicweb/rqlrewrite.py:783-796 | the first use of U adds its condition, once, and moves the place of the first alternative |
| RqlRewriters.Rewriter.FailSnippet | cubicweb/rqlrewrite.py:774-796 | a snippet whose visit fails leaves the condition on U behind exactly when the visit came to U before |
| RqlRewriters.Rewriter.InsertSnippet | cubicweb/rqlrewrite.py:457-467 | one turn of the loop over the expressions: accepted, collapsed or rejected, with the tree that each leaves |
| RqlRewriters.Rewriter.InsertVarmapSnippets | cubicweb/rqlrewrite.py:442-476 | the tree has exactly the accepted snippets as alternatives, and the condition on U if a visit came to U, also one that failed; Unauthorized exactly when all are rejected, AttributeError exactly when one shares a constant |
| RqlRewriters.Rewriter.Rewrite | cubicweb/rqlrewrite.py:363-383 | one list of alternatives after the other; the user's condition goes again exactly when nothing was inserted; it stops only at a check whose snippets are all rejected, or share a constant |
| RqlRewritings.KnownStay | cubicweb/rqlrewrite.py:207-217 | what is left of a snippet has no new variable outside `Exists` when the snippet has none, under any nesting of And, Or and Not |
| RqlRewritings.NewLocalsStay | cubicweb/rqlrewrite.py:853-883 | a new variable that the snippet has outside `Exists` is outside `Exists` in what is inserted, whatever relations are dropped |
| RqlRewritings.LocalRoot | cubicweb/rqlrewrite.py:207-217 | what is inserted brings a new variable into the scope of the statement exactly when it is not wrapped in an `Exists` and the snippet has a new variable outside `Exists`: one that two leaves share, or one of a `Not` |
| RqlRewritings.QuietRoot | cubicweb/rqlrewrite.py:178-217 | relations that were inserted may be found as ones to use for later snippets exactly when no `Exists` is put around them and a `Not` has one that is not right under it |
| RqlRewritings.RootNames | cubicweb/rqlrewrite.py:487-490 | what is inserted uses the query's variables and its own new names, and none of the new ones in the scope of the statement |
| RqlRewritings.EntryMeans | cubicweb/rqlrewrite.py:487-507 | the inserted root holds exactly when the snippet does |
| RqlRewritings.ChainMeans | cubicweb/rqlrewrite.py:504-507 | a chain of alternatives holds when one of them does |
| RqlRewritings.ShapeAllows | cubicweb/rqlrewrite.py:442-476 | the tree after insertion holds for a solution exactly when the query did and an accepted snippet does |
| RqlRewritings.AllowsWhatIsGranted | cubicweb/rqlrewrite.py:457-467 | nothing is let through that no snippet grants; what a snippet grants is let through, or owes it to a snippet of which nothing was left to insert |
| RqlRewritings.ShapeNames | cubicweb/rqlrewrite.py:492-537 | the rewritten query has no other variables in its scope and uses new names only |
| RqlRows.OneMoreBound | cubicweb/rqlrewrite.py:783-796 | a variable that a restriction does not mention makes no difference to it |
| RqlRows.StagesMean | cubicweb/rqlrewrite.py:399-408 | after all variables were checked, the query holds where it held before and every list of alternatives lets the solution through |
| RqlStages.StagesKeep | cubicweb/rqlrewrite.py:399-408 | where the stages before inserted nothing that may be used, the query still has its relations and conditions, and nothing new that may be used but the condition on U |
| RqlStages.StageSuits | cubicweb/rqlrewrite.py:739-772 | a snippet that suits the query before the call, and is quiet in it, does and is so at every stage, because the same relations are used |
| RqlRuns.StagesUnused | cubicweb/rqlrewrite.py:399-408 | no stage of a run inserts a relation that later checks may use, because their snippets were quiet in the query before the call |
| RqlRuns.SettingHolds | cubicweb/rqlrewrite.py:363-408 | what holds of the query before the call is enough for all stages that `rewrite` goes through |
| RqlRuns.RewrittenRows | cubicweb/rqlrewrite.py:234-241 | under conditions on the query before the call only, the bag of rows of the rewritten query is the bag of rows of the solutions that every check lets through: no row is new, duplicated or lost |
| RqlRuns.KeptIsGranted | cubicweb/rqlrewrite.py:442-476 | a solution is kept only if one of the not rejected snippets of each variable holds, and always if no list mixes collapsed and inserted snippets |
| RqlLimits.OwnedRows | cubicweb/rqlrewrite.py:363-408 | the conditions can be met: a query, a snippet that shares a variable and needs U, and the run that accepts it; one of two solutions is kept |
| RqlLimits.RelationUnderOr | cubicweb/rqlrewrite.py:178-199 | the relation found may be an alternative of the query: then nothing is inserted and unauthorised solutions stay; that the relation is a condition of the query is shown sufficient, not necessary |
| RqlLimits.RelationOfAnotherVariable | cubicweb/rqlrewrite.py:747-771 | with two mapped variables the relation found may be one of the other variable, with the same effect; that it is one of the same variable is shown sufficient, not necessary |
| RqlLimits.MappedVariableShared | cubicweb/rqlrewrite.py:867-879 | a relation between the mapped variable and itself is dropped, although the query's relation is to another term: the values differ, and the snippet does not hold |
| RqlLimits.LeavesThatShareAVariable | cubicweb/rqlrewrite.py:207-217 | two leaves that share a new variable are not wrapped: a row comes up twice |
| RqlLimits.NotBringsAVariable | cubicweb/test/data/schema.py:45 | a `Not` over two relations of a new variable is not wrapped, and the variable is the statement's: a row comes up once for each of its values |
| RqlNotLimits.NegatedRelationUsed | cubicweb/rqlrewrite.py:178-217 | two checks of a query: the second one uses a relation that the first has inserted under a `Not`, and a solution that it denies is let in; no other condition fails |
| RqlScopes.NothingShared | cubicweb/rqlrewrite.py:187-189 | a variable that only an `Exists` mentions has no relation in the scope of the statement, so nothing is shared for it |
| RqlScopes.SpotMeans | cubicweb/rqlrewrite.py:499-507 | changing what an `Exists` of the query is about, at any depth, changes the query as if that `Exists` looked at allowed values only; no other scope gets or loses a variable |
| RqlScopes.InsideMeans | cubicweb/rqlrewrite.py:499-537 | snippets for a variable of an `Exists` go into it: the query then holds exactly where it does when the `Exists` looks only at the values that an accepted snippet lets through |
| RqlScopes.InsideRestricts | cubicweb/rqlrewrite.py:234-241 | such a check only restricts the query when the `Exists` is not negated, and only lets more in when it is |
| RqlScopes.CheckLetsMoreIn | cubicweb/test/unittest_rqlrewrite.py:502-509 | a query with a negated `Exists`, a check of the variable of it and a database for which the check lets in what the query did not have |
| RqlSelects.TermOverColumns | cubicweb/rqlrewrite.py:156-163 | the columns that are selected for a term give it the value that it has over the variables |
| RqlSelects.OuterTuples | cubicweb/rqlrewrite.py:286-344 | the terms of the outer select have, over the rows of the subquery, the bag of values that they have over the solutions |
| RqlSelects.DistinctTuples | cubicweb/rqlrewrite.py:336 | a distinct select that does not group answers the same over rows that come up more or less often |
| RqlSplits.InsertLocalChecks | cubicweb/rqlrewrite.py:259-361 | one branch for each group, rewritten with the group's checks and restricted to the group's types; wrapped exactly when there is more than one and the select groups, aggregates, sorts, limits or is distinct |
| RqlSplits.SolutionsOfGroup | cubicweb/rqlrewrite.py:42-114 | restricting variable by variable selects the solutions of the group and those that fit it only when each variable is looked at alone |
| RqlSplits.KeptIsAuthorized | cubicweb/rqlrewrite.py:346-357 | what the branches keep, counted: each solution that the checks of its own group let through once, and each misfit, a solution that another group's restriction and checks let through, once for each such group; a solution whose types nobody may read is in no group |
| RqlSplits.NoExtra | cubicweb/rqlrewrite.py:42-114 | nothing beside the authorized solutions is kept exactly when there is no misfit |
| RqlSplits.SplitAnswers | cubicweb/rqlrewrite.py:276-357 | the union, in its subquery if there is one, answers what the original select answers over the authorized solutions and the misfits, with grouping, aggregates, sorting and limits applied to the whole bag, unless a distinct select groups |
| RqlSplits.SplitIsRight | cubicweb/rqlrewrite.py:276-357 | without misfits that is the right answer; a select that neither groups nor limits gets the right answer only without misfits |
| RqlRecovered.RecoveredIsEnough | cubicweb/rqlrewrite.py:351-357 | when each type solution that fits a group variable by variable is one of the group, the split answers what the select answers over the authorized solutions |
| RqlRecovered.RecoveredIsNeeded | cubicweb/rqlrewrite.py:351-357 | for any grouping for which that is not so there are a query, checks and a database, with that grouping and solutions of those types only, whose split answers wrong |
| RqlSplits.DistinctKeepsRows | cubicweb/rqlrewrite.py:336 | the subquery of a distinct select has every row as often as the branches keep it exactly when no branch gives a row twice |
| RqlSplits.DistinctAggregates | cubicweb/rqlrewrite.py:336-344 | a distinct select that groups is answered right when no branch gives a row twice |
| RqlSplits.DistinctCount | cubicweb/rqlrewrite.py:336-344 | with COUNT, only then |
| RqlSplitLimits.LetInByAnotherGroup | cubicweb/rqlrewrite.py:42-114 | a query, two groups and a database in which a solution that its own checks deny is let in by the other group's branch, and one that they grant is counted twice |
| RqlSplitLimits.DistinctCountIsWrong | cubicweb/rqlrewrite.py:336 | a distinct COUNT that gives one instead of two, without any misfit |
| ExtEntities.ExtEntity.Prepare | cubicweb/dataimport/importer.py:191-234 | every fact about attributes and inlined relations stays in `values`, and the relations returned are exactly the others, subject first |
| ExtEntities.ExtEntity.IsReady | cubicweb/dataimport/importer.py:236-257 | ready exactly when all external ids of inlined relations are known; then they are replaced by eids, otherwise nothing changes |
| ExtEntities.ExtEntity.Defer | cubicweb/dataimport/importer.py:229-233 | each target of a relation that is not inlined becomes one triple |
| Importing.JustifiedIsLeast | cubicweb/dataimport/importer.py:347-386 | an order in which each entity comes after all it needs has no entity that some closed set leaves out |
| Importing.OrderDoesNotMatter | cubicweb/dataimport/importer.py:347-386 | two imports of the same entities, in any order and with any order hint, import the same ones |
| Importing.BlockedIsClosed | cubicweb/dataimport/importer.py:364-386 | when all that is queued is blocked, the imported entities are closed under 'all needs are known' |
| Importing.InsertIsSafe | cubicweb/dataimport/importer.py:388-393 | an insertion refers to known eids only, and makes its own eid known |
| Importing.UpdateIsSafe | cubicweb/dataimport/importer.py:395-398 | an update refers to known eids only |
| Importing.Importer.HandOver | cubicweb/dataimport/importer.py:337-344 | an entity is inserted when its external id is unknown, updated when it is known and has values |
| Importing.LoggedMore | cubicweb/dataimport/importer.py:337-344 | one more entity adds the one call that is due for it, or none, whatever came before |
| Importing.Importer.TryHandOver | cubicweb/dataimport/importer.py:376-382 | a queued entity is handed over exactly when all that it needs is known, and is untouched otherwise |
| Importing.Importer.DrainType | cubicweb/dataimport/importer.py:374-386 | one pass over the queue of a type keeps the queue and hands over at least one entity or finds all of them blocked |
| Importing.Importer.UnlockQueued | cubicweb/dataimport/importer.py:370-386 | the inner loop ends, and leaves only blocked entities in the queue |
| Importing.Importer.TakeNext | cubicweb/dataimport/importer.py:354-386 | one entity of the stream is queued or handed over, and its other relations are deferred |
| Importing.Importer.ImportEntities | cubicweb/dataimport/importer.py:333-386 | each entity of the stream is handed over once or still queued; those handed over are the least closed set; the queued ones each lack something; the store got exactly one call for each entity handed over, in order and with its values and eid, none for a known one without values, and saw known eids only |
| DeferredRelations.CompletedSet | cubicweb/dataimport/importer.py:420-424 | at the end the existing pairs are the initial ones, the resolvable ones and, for symmetric types, their mirror images |
| DeferredRelations.RelationInserter.InsertOne | cubicweb/dataimport/importer.py:420-424 | a pair goes to the store exactly when it, or its mirror image for a symmetric type, does not exist yet |
| DeferredRelations.RelationInserter.InsertRelations | cubicweb/dataimport/importer.py:409-424 | for any iteration order: no pair twice, never both directions of a symmetric pair, and the missing ones are those that cannot be resolved |
| DeferredRelations.RelationInserter.PrepareInsertDeferredRelations | cubicweb/dataimport/importer.py:400-425 | the same for all relation types together; nothing happens to types that are not deferred |
| SparqlTypes.SolutionSurvives | cubicweb/spa2rql.py:84-119 | what loses no consistent narrowing loses no solution of the initial problem |
| SparqlTypes.RestrictLosesNothing | cubicweb/spa2rql.py:94-97 | restricting a variable to the types of the candidates loses no consistent narrowing, unless the wildcard is among them |
| SparqlTypes.FilterLosesNothing | cubicweb/spa2rql.py:99-101 | filtering candidates by the types of the variable loses no consistent narrowing |
| SparqlTypes.MeasureDecreases | cubicweb/spa2rql.py:88-119 | every round that modifies something decreases: variables without types, then types, then candidates |
| SparqlTypes.QueryInfo.SetPossibleTypes | cubicweb/spa2rql.py:66-82 | types are set or intersected; True exactly when something changed, an exception exactly when none is left |
| SparqlTypes.QueryInfo.NarrowEnd | cubicweb/spa2rql.py:94-101 | one end of a link is narrowed without loss, and unchanged only if it agrees already |
| SparqlTypes.QueryInfo.NarrowLink | cubicweb/spa2rql.py:90-119 | one link is narrowed without loss, and unchanged only if both ends agree |
| SparqlTypes.QueryInfo.NarrowAll | cubicweb/spa2rql.py:89-119 | one round over all links |
| SparqlTypes.QueryInfo.InferTypes | cubicweb/spa2rql.py:84-119 | the loop ends; the result is consistent and no consistent narrowing of the start is lost, so it is the greatest one; it raises only when something became empty |
| SparqlTypes.EmptyStateMeansEmptyNarrowing | cubicweb/spa2rql.py:77-78 | when something became empty, so is every consistent narrowing somewhere |
| SparqlTypes.NonEmptyStateIsNonEmptyNarrowing | cubicweb/spa2rql.py:84-119 | when nothing became empty, the narrowing found is empty nowhere |
| SparqlTypes.NoSolutionWhenEmpty | cubicweb/spa2rql.py:115-117 | when something became empty, there was no solution |
| SparqlTypes.LinkOrderDoesNotMatter | cubicweb/spa2rql.py:90-119 | for any order of the triples the narrowing found is the same |
| QueryCaches.ReadsAddUp | cubicweb/utils.py:635-648 | reads of a key add up over whatever happens in between that does not forget it |
| QueryCaches.CountedRead | cubicweb/utils.py:637-648 | after a read, the key is still counted up to its sixteenth read and permanent from its seventeenth on, exactly |
| QueryCaches.CountedForget | cubicweb/utils.py:662-666 | forgetting a key resets its count, whichever structure it was in |
| QueryCaches.TakeOne | cubicweb/utils.py:679-690 | taking the least counted key away keeps the order of eviction and the stopping rule |
| QueryCaches.TakenIsFewer | cubicweb/utils.py:677-690 | eviction takes no permanent key and no key that was read more often than one it leaves |
| QueryCaches.QueryCache.GetItem | cubicweb/utils.py:635-648 | a read gives the last value stored, counts also for a missing key, and makes the key permanent from the seventeenth read on |
| QueryCaches.QueryCache.Pop | cubicweb/utils.py:656-666 | a popped key loses value and count |
| QueryCaches.QueryCache.Get | cubicweb/utils.py:618-628 | `get` gives the last value stored, or the default, and counts nothing |
| QueryCaches.QueryCache.Len | cubicweb/utils.py:608-610 | the number of values that the cache holds |
| QueryCaches.QueryCache.EvictSome | cubicweb/utils.py:678-690 | keys go by increasing count until, at the first key of a new count, more than a tenth or everything is gone, and not before |
| QueryCaches.QueryCache.DropOthers | cubicweb/utils.py:699-705 | all values but those of permanent keys go, and there is room then |
| QueryCaches.QueryCache.TryToMakeRoom | cubicweb/utils.py:677-705 | there is room afterwards; permanent keys only go when the whole cache is cleared because they fill it |
| QueryCaches.QueryCache.SetItem | cubicweb/utils.py:650-654 | the new value is stored beside what making room left; only evictions happen in between; the number of values never exceeds the ceiling |
| CopyBuffers.ReplaceAllIsEscape | cubicweb/dataimport/pgstore.py:109-116 | the four replaces, one after the other, are one pass that escapes each character |
| CopyBuffers.EscapedIsPlain | cubicweb/dataimport/pgstore.py:109-116 | an escaped string has no tab, CR or LF of its own |
| CopyBuffers.UnescapeEscape | cubicweb/dataimport/pgstore.py:109-116 | reading an escaped string back gives the string |
| CopyBuffers.ConvertString | cubicweb/dataimport/pgstore.py:109-116 | the loop of replaces escapes the string |
| CopyBuffers.SplitJoin | cubicweb/dataimport/pgstore.py:191-192 | splitting at the separator undoes joining, when no part has the separator and there is one |
| CopyBuffers.Convert | cubicweb/dataimport/pgstore.py:137-144 | the converter of each kind of value gives the field of its cell, or a ValueError |
| CopyBuffers.FormatRow | cubicweb/dataimport/pgstore.py:165-191 | the line of a row has the fields of its columns, None for those that it lacks |
| CopyBuffers.CreateBuffer | cubicweb/dataimport/pgstore.py:146-192 | the buffer encodes the table of the selected columns; a ValueError exactly when a value of these is of another type |
| CopyBuffers.RoundTrip | cubicweb/dataimport/pgstore.py:146-192 | a table is read back as it was exactly when it has a row and a column and no string in it reads NULL |
| CopyBuffers.NoEndMarker | cubicweb/dataimport/pgstore.py:109-116 | no line reads as the end-of-data marker of COPY |
| ResultSets.SliceHolds | cubicweb/rset.py:334-349 | a cell of a row that a slice keeps is found again, as many rows earlier as the slice starts |
| ResultSets.ResultSet.MakeEntity | cubicweb/rset.py:473-482 | a new entity knows its cell and is cached under its eid |
| ResultSets.ResultSet.CachedEntity | cubicweb/rset.py:497-514 | the cached entity of the eid, or a new one; an entity without a result set learns its cell |
| ResultSets.Request.AsRset | cubicweb/entity.py:754-760 | an entity's own result set is made once; later calls return the same one, whatever was done to its rows |
| ResultSets.ResultSet.BuildEntity | cubicweb/rset.py:484-540 | building entities of related columns too, each column once, keeps every cached entity at its cell if it was there, and its own result set |
| ResultSets.ResultSet.GetEntity | cubicweb/rset.py:400-424 | the entity of the cell, remembered, or the error that fits, not remembered; what was remembered comes back without any change |
| ResultSets.ResultSet.Limit | cubicweb/rset.py:353-359 | another result set with the slice, which inherits what was remembered only when the slice starts at the first row |
| ResultSets.ResultSet.Relocate | cubicweb/rset.py:346-352 | a cached entity moves with its row, or to the first row of its own result set, which may exist already and is then taken as it is |
| ResultSets.ResultSet.RelocateAll | cubicweb/rset.py:344-352 | the loop over the cached entities, in any order: each one is at its cell afterwards exactly when its row stays, or its own result set is new or has its eid in the first row |
| ResultSets.ResultSet.LimitInPlace | cubicweb/rset.py:317-359 | the rows and the remembered entities in range stay what they were; every cached entity is at its recorded cell afterwards exactly when each one that moves away has no own result set yet, or one that has its eid in the first row after the slice; entities of other result sets are untouched |
| ResultSets.ResultSet.StayUnlessLost | cubicweb/rset.py:344-352 | when all cached entities were at their cells, the only ones that are not afterwards are those whose own result set has lost its row |
| ResultSets.LimitOfOwnResultSet | cubicweb/rset.py:346-352 | a result set of three rows, limited to two: the entity of the third one says that it is in a row of its own result set, which has none, when that was limited to no row before or after |
| MassiveStores.EidSequence.CreateEid | cubicweb/dataimport/massive_store.py:93 | reserving a range keeps ranges apart and eids unused |
| MassiveStores.EidGenerator.Reserve | cubicweb/dataimport/massive_store.py:92-95 | a new range when the old one is used up |
| MassiveStores.EidGenerator.GetNextEid | cubicweb/dataimport/massive_store.py:88-95 | for any interleaving of generators on one sequence, no eid is handed out twice or was in use before |
| MassiveStores.Store.PrepareInsertEntity | cubicweb/dataimport/massive_store.py:137-159 | the entity is staged once, with the given eid or one that nobody else got |
| MassiveStores.Store.FlushEntities | cubicweb/dataimport/massive_store.py:298-325 | flushing moves everything that was prepared to the table of its type, in order, and nothing twice |
| MassiveStores.Database.FillMetaRelation | cubicweb/dataimport/massive_store.py:270-273 | each staged eid that is not in the entities table gets one more row |
| MassiveStores.Database.FillRelation | cubicweb/dataimport/massive_store.py:262-268 | each staged pair that is not in the table comes in once |
| MassiveStores.Database.FillEntities | cubicweb/dataimport/massive_store.py:255-260 | each new eid gets its row; an eid that is staged twice violates the primary key |
| MassiveStores.Database.InsertMetadata | cubicweb/dataimport/massive_store.py:241-253 | each new eid gets each metadata relation of its type, because the entities table is filled last |
| MassiveStores.Database.FinishEntities | cubicweb/dataimport/massive_store.py:214-228 | over all tables of all stores: one entities row and one row of each metadata relation for each new eid; it fails exactly when a new eid is staged twice in the first table that has it |
| MassiveStores.Database.Finish | cubicweb/dataimport/massive_store.py:184-237 | the same followed by the relations, each staged pair once; a failure leaves the tables as they were |
| MassiveStores.EachMetadataOnce | cubicweb/dataimport/massive_store.py:241-253 | that means one `is` row, one `cw_source` row, and one `is_instance_of` row for each class of the ancestry |
| MassiveStores.FirstStays | cubicweb/dataimport/massive_store.py:255-273 | tables that come later do not change which table an eid gets its metadata from |
| MassiveStores.Import.Prepare | cubicweb/dataimport/massive_store.py:137-159 | over all stores on one sequence: every eid that was handed out is prepared once, for one type, in one store |
| MassiveStores.Import.Tables | cubicweb/dataimport/massive_store.py:192-214 | the staged tables of all stores, in any order, have no eid in common and none twice, and hold every eid that was given out |
| MassiveStores.Import.Finish | cubicweb/dataimport/massive_store.py:184-253 | when all stores were flushed, finishing never fails: every entity of every store has one row in the table of its type and in no other, one entities row with its type, one `is` and one `cw_source` row and one `is_instance_of` row for each class, and nothing else enters the entities table |
| Migrations.FilterScripts | cubicweb/migration.py:39-77 | the loop collects what the declarative selection does, sorted |
| Migrations.SortSorts | cubicweb/migration.py:77 | sorting orders the scripts by version, then name, and loses none |
| Migrations.ScriptsAre | cubicweb/migration.py:56-77 | exactly the accepted scripts above the one version and up to the other, in order |
| Migrations.ScriptsFrom | cubicweb/migration.py:71-77 | the scripts from a later version on are the tail of the scripts above that version |
| Migrations.Migration.MigrateCube | cubicweb/migration.py:164-181 | what happens is the plan of the upgrade, or a proper prefix of it exactly when something fails |
| Migrations.Migration.Migrate | cubicweb/migration.py:141-181 | the same for the bootstrap script and all cubes, one after the other |
| Migrations.RecordsIncrease | cubicweb/migration.py:170-181 | recorded versions increase strictly and end at the version of the upgrade |
| Migrations.RecordedAfterScripts | cubicweb/migration.py:172-179 | a version is recorded after all its scripts ran and before any script above it |
| Migrations.UpgradeRecords | cubicweb/migration.py:164-181 | both, for the scripts that the directory has |
| Migrations.Resume | cubicweb/migration.py:172-181 | what is left of a plan after the last recorded version is the plan of the scripts above it |
| Migrations.CrashRestart | cubicweb/migration.py:164-181 | restarting a cube from the version recorded last, after a crash at any point, runs exactly the scripts above it and completes the upgrade |
| Migrations.Restart | cubicweb/migration.py:164-181 | a run over several cubes that stops at any point and is started again with every cube's recorded version records the finished cubes again and then does what the first run left after its last record |
| Migrations.MigrateRestart | cubicweb/cwctl.py:525-549 | the same for a whole run with its log, when finished cubes are left out as `upgrade_instance` does; the bootstrap script runs again if cubicweb is still to be upgraded |
| Cubes.ClosedHasPath | cubicweb/cwconfig.py:546-566 | what is closed under dependencies has everything that is reachable |
| Cubes.AddAll | cubicweb/cwconfig.py:557-565 | what a cube brings in and is not there yet is appended once, to the cubes and to the worklist |
| Cubes.OneExpanded | cubicweb/cwconfig.py:555-565 | one turn of the worklist keeps: everything in the list is reachable, and what is not in the worklist is expanded |
| Cubes.ExpandCubes | cubicweb/cwconfig.py:546-566 | terminates on cyclic dependencies, and returns exactly the reachable cubes, without duplicates when there were none, the given ones first |
| Cubes.Configuration.DropCube | cubicweb/migration.py:416-430 | the cubes that are kept are the old ones reachable from those that stay; it fails exactly when the cube is one of these, after the cubes were changed |
| Cubes.KeptNeedsKept | cubicweb/migration.py:422-426 | no cube that is kept depends on one that was removed |
| Cubes.DroppedIsNotNeeded | cubicweb/migration.py:426-429 | when the cube was dropped, no cube that is kept depends on it |

## Left out

- ExtEntities.ExtEntity.Prepare: assumes that no relation type is given both alone and with the role subject; the code then keeps one of the values or fails on a string. Default formats and `Binary` wrapping of attributes are not modelled.
- Importing.Importer.ImportEntities: takes the stream as a list of distinct entities; filters that are plugged into the stream are not modelled.
- DeferredRelations.CompletedSet: starts from pairs that are closed under symmetry for symmetric types, as the store keeps them.
- MultipartParsing.MultipartParser.IterParse: returns all parts at once; what a consumer does to a part between two yields is not modelled.
- MultipartParts.MultipartPart.FeedLine: takes `int()` as an unknown function on strings and ignores charsets, names and file names.
- LineIteration.LineIter.Next: needs a buffer of two bytes or more; the constructor of the parser demands six more than the boundary.
- RqlRewriters.Rewriter.Insert: adds to the restriction of the statement, in place; the insertion in an Exists of the query, for a variable that only it mentions, is modelled on values (`RqlScopes.Inside`), for mapped variables of one Exists. The user's condition is taken to be in the statement already.
- RqlRewriters.Rewriter.InsertVarmapSnippets: works on trees as values with the path of the first alternative; parent pointers and reference lists of nodes are not modelled. Names that are freed are not used again.
- RqlVisits.VisitTracks: a variable that is shared twice is left out, because its second sharing renames a variable of the query itself.
- The rql library's check of a parsed query, which puts an Exists under a Not: trees are taken as the rewriter finds them, those of snippets without it.
- RqlVisitors.CompatibleRelation: outer joins are left out, and with them the test on optional relations.
- RqlSplits.SplitAnswers: sorting, limit and offset are a function of the bag of rows; ties that a sort leaves open, and terms that sort without being selected, are part of that function.
- RqlLimits.RelationUnderOr: that the relation used is a condition of the query is not shown necessary, only sufficient; whether harm is done depends on the data.
- RqlLimits.RelationOfAnotherVariable: the same.
- QueryCaches.QueryCache.SetItem: locking is not modelled.
- ResultSets.ResultSet.LimitInPlace: rows, limits and offsets are not negative; other memoised properties of a result set are not modelled.
- ResultSets.ResultSet.BuildEntity: the entity's eid and the attributes that the row has for it, which the code copies to the entity's attribute cache, are not modelled.
- ResultSets.ResultSet.GetEntity: which columns are related to a column is given, not read off the syntax tree.
- CopyBuffers.CreateBuffer: columns are given; numbers and dates are printed texts without special characters.
- MassiveStores.Import.Prepare: stores draw their eids from the sequence; eids of the caller's choice are those of `MassiveStores.Store.PrepareInsertEntity`.
- MassiveStores.Database.Finish: tables of eids and pairs; other columns, indexes and constraints beside the primary key of the entities table are not modelled. The order in which tables are processed is arbitrary.
- Migrations.Migration.Migrate: versions are numbers in their order, names of files are parsed already; a script that fails with an ExecutionError counts as run, as the server's helper does.
- `existingvars` and `keep_var` (`cubicweb/rqlrewrite.py:829-852`), which `cw_unrelated_rql` passes: they leave out relations of the snippet before the visit, by paths in its graph of variables.
- Outer joins in the rewriter (`snippet_subquery`), expansion of `has_*_permission` relations, removal of ambiguities, FTIRANK, optional relations, comparison operators and functions in relations, and `RQLRelationRewriter`: they depend on annotations of the rql library, which is not part of this model.
- `spa2rql.finalize` and the SPARQL parser: they are about generated text.
- `parse_options_header`, header quoting and the WSGI entry point of the multipart parser: regular expressions and I/O.
- `pgstore.flush`, threads and database errors; interactive migration commands and `reorder_cubes`: I/O, user interface and library code.
