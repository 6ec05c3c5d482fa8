# WUDup verification

WUDup turns the pending-update list of WUD (What's Up Docker) into edits of Compose files and
keeps its own state in SQLite. This project models the parts of it that edit, order, persist and
migrate state, and proves what they promise for every input, every interleaving and every crash
point.

- **Compose editing.** `FlowScanner` is the hand-written scanner for YAML flow collections, against
  a recursive grammar (section 7.4 of YAML 1.2.2, with the quoted scalars of 7.3.1 and 7.3.2 and the
  comments of 6.6). As in the source, a quote opens at any unquoted quote character, also inside a
  plain scalar, so the grammar says the same. `FlowEntries` and `FlowInsert` are the inserter for one
  more entry, `YamlScalar` and `PlainScalars` the rendering of the inserted value, `LabelInsertion` what inserting that
  rendering does, `ImageSpans`, `ImageLines` and `SourceLines` the
  location of image scalars, and `Splice` the application of edits from the back.
- **Start order.** `ServiceOrder` is Kahn's algorithm over dependency sets with a name tie-break.
- **Compose replacement.** `ComposePersistence` is the protocol (temporary file, sync, directory
  lock, compare, rename, recorded hash, directory sync, rollback) as a state machine of any number of
  writers over a disk that may lose power; `ComposeDirectory` is one call of it as imperative code
  with failing operations, tied to the machine step by step.
- **Schema migration.** `Schema` lists the columns, `Migrations` the version chain, `MigrationRuns`
  any number of processes that may die at any step, `MigrationPremise` exactly the databases on which
  a run succeeds, `MigrationCells` the cells and rows that a run adds, `SchemaConnection` one process's
  loop.
- **Tag patterns.** `Regex` gives the patterns a parser and a meaning; `TagTokens`, `TagScanning`,
  `TagStreams`, `TagTransforms` and `TagOrder` are the include patterns and the managed transform;
  `RetagPatterns` says which tags a pattern accepts; `ExactTags` and `TagExclusions` are the exact
  patterns, their recogniser and the exclusion label. The order of semantic versions is that of
  section 11 of SemVer 2.0.0 (`TagOrder.SectionElevenOrder`, `PrecedenceTurned`).
- **Small mutable classes.** `TextTail` is the bounded tail of streamed output; `RegistryChecks` and
  `RequestScope` are the check cache and the per-request scopes under concurrent threads, and
  `RequestReuse` says that what may be reused is.
- **Planning, directory walk, upstream map.** `PlanMatching` and `DigestUnpin` account for every
  target line, with `ImageReferences` for the parts of their images; `DirectoryWalk` is the walk to the
  database directory, `DirectoryModes` the owner and mode of each directory afterwards; `UpstreamMap`
  reads and writes the upstream file, `MapReading` says what it says line by line, `UpstreamSources`
  builds the scans it is written from, and `SourceGrammar` says which lines they are read from.

Where the code updates variables in loops or fields of an object, the model has a method or a class
proved against a specification function; the lemmas are about that function. Sorting is by code
unit of `char`, and text is a sequence of characters.

Several promises turned out to be false as stated. For these the project has a concrete case that
breaks them and the exact condition under which they hold:

- a guarded writer can replace text that it was not rendered from when old text recurs between its
  two reads (`ComposePersistence.RecurrenceDefeatsTheGuard`, `GuardedReplacesItsSourceIff`);
- plain four-part tags do not keep their exact shape, only those with an `-ls` part do, contrary to
  the comment at src/wudup/tag_streams.py:134-138 (`TagTransforms.PlainTagNotShared`,
  `SharedTransformIff`);
- the output tail is not the end of the line list when a chunk that ends in the kept lines separates
  CR and LF or leaves a long unfinished line (`TextTail.SeparatedCrLfLosesALine`, `KeptLinesIff`,
  `KeptTextIff`);
- a plain value with an open quote inside is rendered unquoted, is no entry for the scanner, and
  its insertion leaves a collection without an end (`YamlScalar.LoneQuoteDoesNotFit`,
  `LabelInsertion.LoneQuoteOpensTheCollection`, `MappingLabelAddedIff`, `SequenceLabelAddedIff`);
- a `pending_updates` table that came early passes validation and is never upgraded
  (`MigrationPremise.EarlyPendingNeverUpgrades`, `InitRunUpgradesIff`);
- transformed tags are semantic versions only without leading zeros, although WUD reads and orders
  all of them (`TagOrder.LeadingZeroIsNoSemVer`, `TransformedIsSemVerIff`);
- digests with a second `@` are not stable under normalisation and lose it when their updates are
  merged (`DigestUnpin.SecondAtIsLost`, `NormalizeStableIff`, `MergedKeyDiffersIff`);
- a value that ends in a colon is written without quotes and is no plain scalar of YAML
  (`PlainScalars.ColonAtTheEnd`, `PlainIff`);
- a written map is not readable when Jenkins settings gave a value that is not of the entry syntax
  (`UpstreamSources.SpaceMakesMapUnreadable`, `WrittenMapIsCurrentIff`).

## Model

| member | source | states |
|---|---|---|
| `FlowScanner.FlowCollectionBounds` | src/wudup/compose_source.py:457-537 | The loop over the mutable quote, escape, comment and bracket state ends exactly as the recursive scan does, so everything proved about the scan holds of it. |
| `FlowScanner.ScanPiece` | src/wudup/compose_source.py:492-537 | Whatever piece of the flow grammar stands at a position (plain character, comment, quoted scalar, nested collection), the scanner passes it whole and notes its last significant position. |
| `FlowScanner.ScanItems` | src/wudup/compose_source.py:457-537 | The same for a sequence of pieces, by mutual induction with nested collections. |
| `FlowScanner.CollectionIsFound` | src/wudup/compose_source.py:457-489 | Every well-formed collection written at the start is found: the end is just past its closing bracket and the second result is the last position before it that is neither space nor comment. |
| `FlowScanner.FoundIsCollection` | src/wudup/compose_source.py:457-489 | Conversely, whenever the scanner returns, the text up to the end is a well-formed collection with those bounds. |
| `FlowScanner.ScannerOutcome` | src/wudup/compose_source.py:457-537 | The three outcomes exactly: bounds if and only if a collection stands there; "unterminated" if and only if some continuation completes it; "malformed" if and only if none does. |
| `FlowScanner.LastSignificantSplits` | src/wudup/compose_source.py:457-537 | The last significant position splits the items into entries and trailing spaces and comments. |
| `FlowScanner.MalformedStays` | src/wudup/compose_source.py:457-537 | A bracket mismatch stays a mismatch whatever text is appended. |
| `FlowInsert.FlowLabelAdditionRewrites` | src/wudup/compose_source.py:414-454 | Unless the inserter refuses, applying its edits gives a collection with the old top-level entries followed by the new one and leaves all text outside it alone, for every layout. The edits themselves are stated for any text: on one line the comma, the space and the entry; on several lines a new line before that of the bracket, indented as the first label on a line of its own, or as the bracket and two spaces more if there is none. It refuses exactly when the last line of a multi-line collection holds more than the bracket, and fails exactly as the scanner does. |
| `LabelInsertion.AddsTextIff` | src/wudup/compose_source.py:414-454 | Whatever the layout, the collection after the edits has all its entries and the inserted text as one more if and only if that text is entry text. |
| `LabelInsertion.MappingLabelAddedIff` | src/wudup/compose_source.py:282-290 | Inserting a rendered `key: value` adds that label if and only if the value is written in quotes or, written plain, is not empty, does not end in white space, closes its quotes and starts no comment. |
| `LabelInsertion.SequenceLabelAddedIff` | src/wudup/compose_source.py:334-342 | The same for a rendered `key=value` in a flow sequence. |
| `LabelInsertion.OpenQuoteIsUnterminated` | src/wudup/compose_source.py:457-537 | A collection of text without brackets, quotes and `#` in which one single quote opens is "unterminated", whatever text without another single quote follows. |
| `LabelInsertion.LoneQuoteOpensTheCollection` | src/wudup/compose_source.py:414-454 | A failing input: inserting `k: a'b` into `{a: b}` gives `{a: b, k: a'b,}`, on which the scanner raises "unterminated". |
| `FlowInsert.MultilineFlowLabelIndent` | src/wudup/compose_source.py:540-565 | The indentation of the first label that starts a line of its own below the opening line, or that of the closing line and two more spaces; blank in both cases. |
| `FlowInsert.AdjacentInsertion` | src/wudup/compose_source.py:425-433 | Single line, bracket right behind the last entry: comma, space and entry in one edit add exactly the entry. |
| `FlowInsert.PaddedInsertion` | src/wudup/compose_source.py:425-433 | Single line, empty, padded or with a trailing comma: the edits add exactly the entry. |
| `FlowInsert.MultilineInsertion` | src/wudup/compose_source.py:435-454 | Several lines, with comments behind the last entry: the comma goes behind the entry, the new line before the closing line, and exactly one entry is added. |
| `FlowInsert.LastSignificantCharacter` | src/wudup/compose_source.py:421-436 | The character at the second scanner result decides correctly whether a comma is missing. |
| `FlowEntries.EntriesWithComma` | src/wudup/compose_source.py:421-433 | Adding a comma and an entry behind the last entry appends exactly that entry to the list of entries. |
| `FlowEntries.EntriesWithoutComma` | src/wudup/compose_source.py:421-433 | The same behind a trailing comma or in an empty collection. |
| `YamlScalar.RenderingReadsBack` | src/wudup/compose_source.py:676-689 | A value is refused if and only if it has a line break; in either quoted style, which is kept, also when quotes are added for safety, the rendering is read back as the same value; otherwise it is the value itself. |
| `PlainScalars.PlainIff` | src/wudup/compose_source.py:684-689 | A value written without quotes is a plain scalar of YAML (section 7.3.3) if and only if it is not empty, has no white space at its ends and does not end in a colon. |
| `PlainScalars.PlainNeedsNoQuotes` | src/wudup/compose_source.py:684-689 | Conversely, a plain scalar is written without quotes unless it starts with `-`, `?` or a colon. |
| `PlainScalars.ColonAtTheEnd` | src/wudup/compose_source.py:684-689 | A failing input: `a:` is written without quotes and is no plain scalar. |
| `YamlScalar.ScannerPassesQuoted` | src/wudup/compose_source.py:492-507 | The flow scanner that enters a quoted rendering at its opening quote is outside quotes again just past the closing one when no quote follows. |
| `YamlScalar.EntryTextIff` | src/wudup/compose_source.py:492-537 | Text without brackets, commas and line feeds is one entry in the sense the inserter needs if and only if it has no white space at its ends, every quote that opens in it is closed in it, and no `#` stands after white space outside quotes. |
| `YamlScalar.MappingEntryIff` | src/wudup/compose_source.py:282-290 | A rendered `key: value` is one entry of a flow mapping if and only if the value is written in quotes or, written plain, is not empty, does not end in white space, closes its quotes and starts no comment. |
| `YamlScalar.SequenceEntryIff` | src/wudup/compose_source.py:334-342 | The same for a rendered `key=value` in a flow sequence, which must not start with white space either. |
| `YamlScalar.LoneQuoteDoesNotFit` | src/wudup/compose_source.py:521 | A failing input: `a'b` is rendered plain in a flow collection, but its quote opens a scalar for the scanner, so neither form is an entry; `LabelInsertion.LoneQuoteOpensTheCollection` says what its insertion does. |
| `SourceLines.LinesInOrder` | src/wudup/compose_source.py:758-763 | Line starts increase, and each line's text without its line break ends before the next line starts. |
| `SourceLines.LineStartsIff` | src/wudup/compose_source.py:758-763 | Lines start at the beginning of the text and behind each line feed, and nowhere else. |
| `SourceLines.LineOfOffset` | src/wudup/compose_source.py:557-563 | The number of line feeds before an offset is the number of the line it stands on. |
| `ImageSpans.SpanHoldsImage` | src/wudup/compose_source.py:782-909 | A span located on one line is exactly the old image; one over two lines starts at the end of the key's line, ends with the old image, and its text starts with a space exactly when the key's line ends in its colon. |
| `ImageSpans.SpansApart` | src/wudup/compose_source.py:782-909 | Spans of values on different lines never overlap, for every mix of the two forms. |
| `ImageSpans.LocatedSpansSplice` | src/wudup/compose_source.py:148-158 | Rejecting duplicate spans suffices for non-empty old images whose values stand on different lines, duplicates aside: the edits that pass are pairwise disjoint with distinct starts. |
| `ImageSpans.RewriteImages` | src/wudup/compose_rewrite.py:197-235 | An error for an image that is not found or is selected twice; otherwise the text has exactly the located edits made, all at once; an empty old image and two different values on one line are left out. |
| `ImageLines.LocatedIff` | src/wudup/compose_source.py:782-909 | An image is located if and only if its line is indentation, the key `image` with or without quotes, its colon, the image in one pair of quotes or none, and perhaps a comment; or the key stands alone on the line before, the image alone and indented further on its own, and no line continues it. |
| `ImageLines.OnOneLineIff` | src/wudup/compose_source.py:820-850 | On one line it is found at the rightmost place that has that pattern. |
| `ImageLines.TwoLinesIff` | src/wudup/compose_source.py:855-909 | The pattern over two lines, both directions. |
| `Splice.SpliceRewrites` | src/wudup/compose_rewrite.py:229-235 | For disjoint spans the descending loop makes all edits at once: the text between spans is kept, and edits at one offset follow each other in the order of the tuples. |
| `Splice.SortedDescending` | src/wudup/compose_rewrite.py:411 | The sort is a permutation in descending order of the whole tuple, text included; with the start offset as key it is descending in it and keeps the order of edits at one offset. |
| `Splice.ApplyStep` | src/wudup/compose_rewrite.py:408-413 | Applying the next edit from the back extends the substitution by exactly that edit. |
| `Splice.ChainedUnique` | src/wudup/compose_rewrite.py:229-235 | With distinct starts there is only one way to chain the same edits, whatever order the services were selected in. |
| `Splice.AscendingUnique` | src/wudup/compose_rewrite.py:408-413 | Without that, too, the order by the whole tuple is unique. |
| `Splice.AllAtOnceUnique` | src/wudup/compose_rewrite.py:229-235 | So there is only one such text for a set of edits, insertions at one offset included. |
| `Splice.UndoRestores` | src/wudup/compose_rewrite.py:408-413 | Putting the replaced texts back at the moved spans restores the source. |
| `ServiceOrder.DependencyOrderedServices` | src/wudup/compose.py:995-1021 | An order is returned only if there is no cycle among the selected services, and it is the lexicographically least permutation of the distinct services in which each follows its dependencies; the error is raised only if there is a cycle. An edge runs from a service to another exactly when its configuration depends on it. Input order, duplicates and set order are arbitrary. |
| `ServiceOrder.ServiceDependenciesIff` | src/wudup/compose.py:1024-1049 | A service depends on a name if and only if it is a key of an object `depends_on` or a text in a list of that name, what stands before the first colon of a text in `links`, or of one in `volumes_from` that does not start with `container:`, or what follows `service:` in `network_mode`, `ipc` or `pid`. |
| `ServiceOrder.BeforeColonIff` | src/wudup/compose.py:1035-1044 | The part before the first colon: without a colon itself, and either the whole text or followed by one. |
| `Ordering.LessIff` | src/wudup/compose.py:1007-1016 | The order of names: the first difference decides, and a proper prefix comes first. |
| `ServiceOrder.GreedyIsLeast` | src/wudup/compose.py:1008-1016 | Taking the least ready service each time gives the least order of all. |
| `ServiceOrder.LeastStartOrderUnique` | src/wudup/compose.py:995-1021 | There is only one such order, so nothing about the input but its set of services matters. |
| `ServiceOrder.OrderedImpliesAcyclic` | src/wudup/compose.py:1017-1020 | A dependency-respecting order rules out every cycle. |
| `ServiceOrder.StuckImpliesCyclic` | src/wudup/compose.py:1017-1020 | If services are left of which each waits for another of them, there is a cycle. |
| `ServiceOrder.Release` | src/wudup/compose.py:1011-1016 | Removing a placed service from the dependency sets makes ready exactly the services that waited for nothing else. |
| `ComposePersistence.StepInv` | src/wudup/compose_persistence.py:100-138 | Every step of every writer, failures and kills included, keeps the protocol's invariant. |
| `ComposePersistence.GuardedReplacement` | src/wudup/compose_persistence.py:115-132 | Every version was made by a writer whose guard, if it had one, equalled the version replaced; so a rollback never overwrites other content committed later. |
| `ComposePersistence.TrackingReplacesItsSource` | src/wudup/compose_rewrite.py:1230-1232 | A tracking-label writer that was given a hash always replaces exactly the text it rendered from. |
| `ComposePersistence.GuardedReplacesItsSourceIff` | src/wudup/compose_rewrite.py:183-197 | The other guarded writers, which hash and load in two reads, replace the text they rendered from if and only if the text they loaded is the one they compare with. |
| `ComposePersistence.GuardedReplacesItsSource` | src/wudup/compose_rewrite.py:183-197 | They always do when no text recurs between their hash and their swap. |
| `ComposePersistence.RecurrenceDefeatsTheGuard` | src/wudup/compose_rewrite.py:183-197 | A complete run of three writers in which a rollback lets the old text recur and a guarded writer replaces text it was not rendered from. |
| `ComposePersistence.PowerLossLeavesACompleteVersion` | src/wudup/compose_persistence.py:115-138 | At every point of every run a power loss leaves the name on a complete version that was current since the last directory sync. |
| `ComposePersistence.PowerLossLeavesOldOrNew` | src/wudup/compose_persistence.py:119-128 | One step adds at most the writer's new content to what a power loss may leave. |
| `ComposePersistence.TrueResultIsDurable` | src/wudup/compose_persistence.py:83-97 | After a True result no power loss brings back what the writer replaced, on file systems that can sync directories. |
| `ComposePersistence.ExitIsAccountedFor` | src/wudup/compose_persistence.py:100-138 | On every normal or exceptional exit the tracked hash list grew if and only if the file was replaced, no temporary file is left unless its removal failed, the lock is free of the writer, and a return means the file was replaced. |
| `ComposePersistence.ReplacedCountsAsApplied` | src/wudup/updater_lifecycle_state.py:82-91 | The rewrite counts as applied whenever the tracked call replaced the file, also if it then raised; with nothing recorded before, only then. |
| `ComposePersistence.StepAuthored` | src/wudup/compose_persistence.py:115-132 | Every version but the first keeps exactly one author. |
| `ComposeDirectory.Directory.AtomicReplaceCompose` | src/wudup/compose_persistence.py:100-138 | The imperative call, with any set of operations raising: the file changes if and only if nothing raised before the rename and the guard held; result, hash list, temporary file and lock follow from that. |
| `ComposeDirectory.Directory.WithLock` | src/wudup/compose_persistence.py:115-132 | The part under the directory lock: sync, compare, swap, record, sync the directory. |
| `Migrations.DeclaredIsExpected` | src/wudup/db_schema.py:480-750 | The `CREATE TABLE` statements for a new database declare exactly the columns that validation expects. |
| `Migrations.ChangeTablesLeads` | src/wudup/db_schema.py:980-1418 | Each migration, from a database with the tables of the version before (and perhaps fitting early ones), ends at those of its own version, and every old row keeps its old columns. |
| `Migrations.MigrateOk` | src/wudup/db_schema.py:980-1418 | One whole migration never fails from such a database, sets the version and records its row. |
| `Migrations.BackfillOk` | src/wudup/db_schema.py:953-966 | Backfilling the migration table on any version adds the rows of all versions so far and changes nothing else. |
| `Migrations.ValidateSchemaIff` | src/wudup/db_schema.py:820-853 | Validation accepts exactly the databases that have every expected table with the expected columns. |
| `Migrations.CreateSchemaOk` | src/wudup/db_schema.py:480-750 | Creating the schema on a new or partly created database succeeds and ends at the newest schema with all rows recorded. |
| `Migrations.EarlyPendingUpdatesBlock` | src/wudup/db_schema.py:987 | A `pending_updates` table with the newest columns passes the migration to version 2 and makes the one to version 7 fail. |
| `MigrationPremise.InitRunSucceedsIff` | src/wudup/db_schema.py:456-477 | A whole run of one process succeeds if and only if the database is new, partly created in the newest form, or of a version 1 to 15 whose tables it has, with every later table absent or in the form its migration accepts. |
| `MigrationPremise.InitRunUpgradesIff` | src/wudup/db_schema.py:456-477 | For an existing database that is: validation of its version accepts it, every table its version does not expect is absent or has exactly the columns its introducing migration validates, and at version 1 there is no `pending_updates`. |
| `MigrationPremise.RunJobKeeps` | src/wudup/db_schema.py:980-1418 | No transaction that commits drops a table, a column or a row, whatever database it meets, also outside the premise. |
| `MigrationPremise.ChangeTablesFramed` | src/wudup/db_schema.py:980-1418 | Each migration leaves every table it does not name exactly as it was. |
| `MigrationPremise.EarlyPendingNeverUpgrades` | src/wudup/db_schema.py:987 | A failing input: the version-1 tables beside an empty `pending_updates` of the newest columns pass validation and the migration to version 2, and every whole run raises. |
| `MigrationRuns.CommittedStatesConform` | src/wudup/db_schema.py:456-477 | With any number of processes and deaths at any step, every committed database has the tables of its version and keeps the columns and rows of the initial one. |
| `MigrationRuns.MigrationsRunInOrder` | src/wudup/db_schema.py:467-475 | The committed migrations are exactly n+1, n+2, ... up to the committed version, for a database that started at version n. |
| `MigrationRuns.MigrationRunsAtVersionBefore` | src/wudup/db_schema.py:468-473 | Whenever a migration changes tables, the database is at the version just before it. |
| `MigrationRuns.CompletedRun` | src/wudup/db_schema.py:456-477 | A process that finishes leaves version 15 with migration rows 1 to 15. |
| `MigrationRuns.NoProcessFails` | src/wudup/db_schema.py:456-477 | On every database on which one process alone succeeds, no interleaving and no death elsewhere makes a process raise. |
| `MigrationCells.ChangeTablesExtends` | src/wudup/db_schema.py:1149-1418 | Each migration, on any database on which it succeeds, appends literal cells to every old row: NULL and an empty list to `service_policy` at version 6, seven empty texts to the three tables of version 7, an empty list to the scan cache at 10, an empty text to the release notes at 12 and at 13, and nothing elsewhere; tables it creates are empty. |
| `MigrationCells.MigrationCarries` | src/wudup/db_schema.py:969-978 | One whole migration: those cells, and in `schema_migrations` one new row at most, with the literal name of its version and the time of the call. |
| `MigrationCells.RowsStayComplete` | src/wudup/db_schema.py:1149-1418 | A row with one cell for each column still has one for each column afterwards. |
| `MigrationCells.CommittedRowsCarried` | src/wudup/db_schema.py:456-477 | With any number of processes and deaths, the initial rows of every committed database end with exactly the cells of the migrations committed so far. |
| `SchemaConnection.Connection.Transaction` | src/wudup/db_schema.py:758-784 | A transaction has all of its body's effect, or none and the body's error. |
| `SchemaConnection.Connection.InitSchema` | src/wudup/db_schema.py:456-477 | The imperative call on any database: it succeeds if and only if the premise holds, then ends at the newest schema with all rows recorded under their names and times. It loses no table, column or row even when it raises half-way: every old row ends with exactly the cells of the migrations that were made. |
| `Regex.AlternativesExtend` | src/wudup/compose_rewrite.py:1415 | A pattern that parses on its own parses to the same tree inside a group. |
| `Regex.CatSplits` | src/wudup/compose_rewrite.py:1380-1386 | Concatenation matches exactly when some position splits the text. |
| `TagTokens.AnchoredAccepts` | src/wudup/tag_streams.py:112-148 | An anchored pattern made of literal characters, digit runs, dot groups and captures is parsed as such and accepts exactly the texts those pieces derive. |
| `TagScanning.FullMatch` | src/wudup/tag_streams.py:126-131 | A greedy left-to-right scan decides the same question as the pattern when no piece can give up characters to the next. |
| `TagScanning.SameShape` | src/wudup/tag_streams.py:143-148 | A text matches the digit-run generalisation of a tag if and only if it has the same generalisation. |
| `TagStreams.ParseTagStreamIff` | src/wudup/tag_streams.py:81-88 | The parse is the one and only way to read the tag as a strict version and a suffix, and exists whenever there is one. |
| `TagForms.StreamIff` | src/wudup/tag_streams.py:29-32 | A tag is read as a version and a suffix if and only if it is three numbers between dots, perhaps with a `v` in front, and a suffix that is empty or a separator and a line of text. |
| `TagStreams.StreamPatternAccepts` | src/wudup/tag_streams.py:112-118 | The pattern of a stream accepts exactly the tags with the same parsed suffix and the same `v` prefix, escaped characters included. |
| `RetagPatterns.RetagTagIncludeRegex` | src/wudup/tag_streams.py:121-148 | An error exactly for an invalid tag; for any other the pattern accepts exactly the tags that should follow it: an Alpine release of the same major number; a dotted version with the same prefix; for a release with a suffix a dotted version with the same prefix before a rest of the same shape; and otherwise, also for four parts with `-ls`, a tag of the same shape. |
| `RetagPatterns.RetagLanguage` | src/wudup/tag_streams.py:121-148 | That language for every tag, in terms of numbers, dots and shapes instead of scans. |
| `RetagPatterns.ShapeIff` | src/wudup/tag_streams.py:143-148 | Two tags are generalised alike if and only if they agree outside their runs of digits and have such runs in the same places. |
| `RetagPatterns.LeadingIff` | src/wudup/tag_streams.py:139-142 | The scan finds the longest dotted version at the start of a tag. |
| `TagStreams.GeneralFragments` | src/wudup/tag_streams.py:143-148 | The loop over digit runs renders the generalised tag, with the text between runs escaped. |
| `TagStreams.RetagAcceptsItself` | src/wudup/tag_streams.py:121-148 | Every valid tag is accepted by its own pattern, in all four branches. |
| `TagStreams.AlpinePatternAccepts` | src/wudup/tag_streams.py:126-128 | The Alpine pattern accepts exactly the same major number, dot groups and `-alpine`. |
| `TagStreams.DottedPatternAccepts` | src/wudup/tag_streams.py:129-131 | A plain dotted version accepts exactly the dotted versions with the same `v` prefix, whatever their number of parts. |
| `TagStreams.SuffixedPatternAccepts` | src/wudup/tag_streams.py:134-148 | A suffixed release accepts exactly a dotted version with the same prefix followed by a rest of the same shape. |
| `RetagPatterns.ShapePatternAccepts` | src/wudup/tag_streams.py:143-148 | A tag without a leading dotted version, or of four parts with `-ls`, accepts exactly the tags of its own shape. |
| `TagForms.FourPartIff` | src/wudup/compose_rewrite.py:81 | A tag is a four-part version if and only if it is four numbers between dots, perhaps with a `v` in front and with `-ls` and a number behind. |
| `TagStreams.IsFourPartIff` | src/wudup/compose_rewrite.py:81 | The scan for four-part versions decides that grammar. |
| `TagTransforms.LsTransformIsShared` | src/wudup/compose_rewrite.py:1304-1313 | Every tag accepted by the pattern of a `v?a.b.c.d-lsN` tag gets the same managed transform. |
| `TagTransforms.SharedTransformIff` | src/wudup/tag_streams.py:134-140 | For a tag with a managed transform, all accepted tags share it if and only if the tag has an `-ls` part; plain four-part tags take the dotted branch and do not. |
| `TagTransforms.PlainTagNotShared` | src/wudup/tag_streams.py:129-138 | A failing input: the pattern made for `1.2.3.4` accepts `0.0`, which has no transform. |
| `TagTransforms.ManagedTransformRewrites` | src/wudup/compose_rewrite.py:1304-1313 | The pattern of the label accepts the tag, its groups are the numbers of the tag and can be no others, and its template puts them into the version core and the identifiers. |
| `TagOrder.TransformKeepsNumericOrder` | src/wudup/compose_rewrite.py:1304-1313 | Two transformed tags, read loosely as WUD does (src/wudup/compose_rewrite.py:79-80), are versions whose precedence (section 11 of SemVer 2.0.0) is the numeric order of the four or five numbers; they are versions of the standard itself if and only if no number has a leading zero. |
| `TagOrder.TransformedIsSemVerIff` | src/wudup/compose_rewrite.py:1304-1313 | The strict grammar (sections 2, 9 and 10 of SemVer 2.0.0) accepts a transformed tag if and only if none of its numbers has a leading zero, and then reads the same version. |
| `TagOrder.LeadingZeroIsNoSemVer` | src/wudup/compose_rewrite.py:1304-1313 | A failing input: `1.02.3.4` is a valid four-part tag, its managed transform makes it `1.02.3-4`, and the loose reader takes that while the standard refuses it. |
| `ExactTags.ExactPatternAccepts` | src/wudup/compose_rewrite.py:1380-1386 | The pattern of a set of tags accepts exactly those tags. |
| `ExactTags.ExactPatternOfSet` | src/wudup/compose_rewrite.py:1381 | It depends only on the set, not on order or duplicates. |
| `ExactTags.IsSimpleExactTagInclude` | src/wudup/compose_rewrite.py:976-998 | The index loop answers yes if and only if the value is the exact pattern of some valid tag. |
| `ExactTags.EscapeCancel` | src/wudup/compose_rewrite.py:1376-1377 | Escaping can be undone from the left, so it is injective. |
| `TagExclusions.MergeExcludes` | src/wudup/compose_rewrite.py:1403-1415 | Merging in the pattern of a larger managed set excludes exactly what was excluded and that set, for any current pattern in the modelled syntax. |
| `TagExclusions.ExclusionsAccumulate` | src/wudup/compose_rewrite.py:881-955 | Over any sequence of renders the label excludes exactly what it did at first and every tag ever managed or added; only a Compose variable in the first label makes a render fail. |
| `TagExclusions.EitherAccepts` | src/wudup/compose_rewrite.py:1415 | The merged alternation is a pattern again and accepts what either side accepts. |
| `TagExclusions.DollarsRoundTrip` | src/wudup/compose_rewrite.py:1389-1400 | Escaped dollars are unescaped to the same text and never look like a Compose variable. |
| `TagExclusions.UnpairedIff` | src/wudup/compose_rewrite.py:1393-1400 | A label holds a Compose variable if and only if the last of an odd number of dollars in a row stands before a brace, an underscore or a letter; a dollar is left without the pairs if and only if some such number is odd. |
| `TagExclusions.DollarsKeptIff` | src/wudup/compose_rewrite.py:1389-1394 | Unescaping and escaping a label gives it back if and only if all its dollars are paired. |
| `TextTail.NothingIsLost` | src/wudup/command.py:594-627 | For any input in any chunks, the appended lines and the unfinished rest concatenate to all text fed, and the rest is at most 8192 characters after each feed. |
| `TextTail.LinesOfWholeTextIff` | src/wudup/command.py:594-627 | After the close all lines ever appended are the lines of the whole text if and only if no chunk separates a CR from its LF and none leaves an unfinished line over 8192 characters. |
| `TextTail.KeptLinesIff` | src/wudup/command.py:594-627 | The lines the buffer keeps are the last `max_lines` lines of the whole text if and only if no chunk that ends after the start of those lines separates a CR from its LF or leaves an unfinished line over 8192 characters. |
| `TextTail.KeptTextIff` | src/wudup/command.py:612-618 | The text it gives is that of those lines if and only if that condition holds or the lines of the whole text, one more for each CR that a chunk parts from its LF and one more for each cut of a long unfinished line, are no more than `max_lines`. |
| `TextTail.LinesAppended` | src/wudup/command.py:594-627 | For any chunks, that is the number of lines appended: those of the whole text, one more for each CR parted from its LF, and one more for each cut of an unfinished line. |
| `TextTail.SeparatedCrLfLosesALine` | src/wudup/command.py:594-627 | A failing input: the chunks `a`, CR and LF, `b` with a limit of two lines keep only the second line. |
| `TextTail.LinesOfWholeText` | src/wudup/command.py:594-627 | In particular for lines up to 8192 characters in chunks that keep CR and LF together. |
| `TextTail.Buffer.Feed` | src/wudup/command.py:594-605 | The mutable buffer does to its lines, count and rest what the whole-history specification does. |
| `TextTail.Buffer.Close` | src/wudup/command.py:607-610 | Closing appends the rest once. |
| `TextTail.Buffer.FlushLongPartial` | src/wudup/command.py:624-627 | The loop cuts the rest into pieces of 8192 characters as specified. |
| `TextTail.Buffer.Truncated` | src/wudup/command.py:616-618 | The count exceeds the limit if and only if a line was dropped. |
| `TextTail.Buffer.Text` | src/wudup/command.py:612-614 | The kept text is that of the last `max_lines` lines ever appended. |
| `RegistryChecks.Table.LookUp` | src/wudup/request_scope.py:140-146 | A check may be skipped if and only if the table has a success of the key younger than 300 seconds at the clock reading; otherwise its entry is gone. |
| `RegistryChecks.Table.Store` | src/wudup/request_scope.py:148-152 | The new success is last, and the eviction loop leaves at most 256 entries, oldest first, with distinct keys. |
| `RegistryChecks.EvictsOldest` | src/wudup/request_scope.py:151-152 | What is evicted is no younger than anything kept, and only happens at the limit. |
| `RegistryChecks.StoredOk` | src/wudup/request_scope.py:148-152 | Storing keeps the table bounded and in nondecreasing order of success time. |
| `RequestReuse.CheckSkippedIff` | src/wudup/request_scope.py:140-146 | The call skips its check if and only if the table has a success of the key younger than 300 seconds, and then changes nothing but the count. |
| `RequestReuse.EntryStays` | src/wudup/request_scope.py:140-157 | Only clearing, storing the same key, looking it up too late, or storing into a full table can take an entry away. |
| `RequestReuse.StoredSuccessIsReused` | src/wudup/request_scope.py:126-152 | So after a success is stored, whatever else other threads do, a look-up of the key within 300 seconds skips its check. |
| `RequestReuse.SharedReadIsReused` | src/wudup/request_scope.py:109-123 | Once a read is shared, every later look for it in the scope is served the same value until the scope ends. |
| `RequestReuse.ReusesAreCounted` | src/wudup/request_scope.py:115-118 | What a scope counts is the number of skipped checks and reused reads of that scope. |
| `RequestReuse.CheckAsksIff` | src/wudup/request_scope.py:135-139 | The table is asked exactly in a scope that has opted in and has not ended. |
| `RequestScope.StepKeeps` | src/wudup/request_scope.py:66-157 | Every step of every thread keeps the invariant of the table, the scopes and the history. |
| `RequestScope.SkippedOnlyAfterSuccess` | src/wudup/request_scope.py:126-152 | In every interleaving a check is skipped only if the same key was recorded less than 300 seconds before the clock reading used, after a check of that key had returned, and only for a call made in a scope that had opted in and had not ended. |
| `RequestScope.TableAlwaysOk` | src/wudup/request_scope.py:140-152 | Whenever the lock is free the table is bounded and oldest first, and every entry was recorded after a check of its key had succeeded, so failures never add one. |
| `RequestScope.ReusedOnlyInScope` | src/wudup/request_scope.py:109-123 | A reused read was computed earlier in the same scope, and that scope had not ended. |
| `RequestScope.EndedScopeHoldsNothing` | src/wudup/request_scope.py:79-89 | An ended scope shares nothing, whatever threads still hold it. |
| `PlanMatching.MatchTargets` | src/wudup/plan_matching.py:86-128 | Every target line is in exactly one of matched and skipped, the match keys are distinct and are exactly the wanted ones, the reason given for a skipped line is the true one, and both lists are in the order of the source. |
| `PlanMatching.MatchesForTarget` | src/wudup/plan_matching.py:289-325 | The nested loops add exactly the wanted keys that were not seen, each once. |
| `PlanMatching.DedupedMatchesForServices` | src/wudup/plan_matching.py:328-343 | One match for each service whose key is new. |
| `PlanMatching.MatchedIffWanted` | src/wudup/plan_matching.py:86-128 | A line is matched if and only if its update is allowed and some image of some stack matches it. |
| `DigestUnpin.RecoverDigestUnpinMatches` | src/wudup/plan_digest_unpin.py:31-102 | For any digests, recovery keeps the partition and the distinct keys, keeps every old match, takes exactly the recoverable lines out of the skipped ones, and covers each new match by an update of its stack that lists its service for a digest with the same last segment; every service of an update has its match; both lists are sorted, and the updates of each stack are in the order of image and tag. If all digests have at most one `@`, the keys of the updates of a stack strictly ascend, and exactly one update covers each new match, with the digest of its line. |
| `DigestUnpin.UpdatesForTarget` | src/wudup/plan_digest_unpin.py:134-184 | The updates of a target list exactly its recovered services, and are merged into those of the stack without losing or inventing one. |
| `DigestUnpin.UniqueDigestUnpinUpdates` | src/wudup/plan_digest_unpin.py:390-407 | The result is the merged dictionary in ascending order of its keys (image, tag, digest), which keeps who is listed for what; if no digest would change under another normalisation, the keys of the result strictly ascend too. |
| `DigestUnpin.MergeEntries` | src/wudup/plan_digest_unpin.py:390-407 | One dictionary entry for each image, tag and digest, listing exactly the services of all updates with that key. |
| `DigestUnpin.SortEntriesOk` | src/wudup/plan_digest_unpin.py:407 | Sorting keeps exactly the dictionary's items and puts their keys in strictly ascending order. |
| `DigestUnpin.MergedKeyDiffersIff` | src/wudup/plan_digest_unpin.py:390-407 | A merged update differs from its dictionary key if and only if a second update of that key came and the digest of the key is not stable, that is neither empty nor `sha256:` and text without `@`; the last segment never differs. |
| `DigestUnpin.AppendUpdateMatches` | src/wudup/plan_digest_unpin.py:105-131 | A match for each service of the update whose key is new. |
| `DigestUnpin.NormalizeStableIff` | src/wudup/images.py:23-31 | Normalising a digest twice is normalising it once if and only if there is no `@` behind its first one. |
| `DigestUnpin.CoreOfNormalized` | src/wudup/images.py:23-31 | Normalising never changes the last segment of a digest, which is where repeated normalising ends. |
| `DigestUnpin.SecondAtIsLost` | src/wudup/plan_digest_unpin.py:390-407 | A failing input: lines with the token `sha256=@sha256:a@b@c` carry the digest `sha256:a@b@c`; the update of one has the digest `sha256:b@c`, and merged with the same update of another it has `sha256:c`. |
| `DigestUnpin.LineDigestIff` | src/wudup/wud_file.py:270-282 | Lines of the pending file carry exactly the digests in `sha256:` form, with any number of further `@` in them, and none. |
| `ImageReferences.TagImageIs` | src/wudup/images.py:80-95 | The image of an update is its repository, a colon and the tag, where the repository is the reference without what follows its first `@sha256:` and without the tag behind its last slash. |
| `ImageReferences.NormalizedIs` | src/wudup/images.py:23-31 | An empty digest stays empty; any other becomes what follows its first `@`, with `sha256:` in front. |
| `DigestUnpin.ImageWithTagInjective` | src/wudup/images.py:92-95 | Two tags on one repository give two references. |
| `DirectoryWalk.Disk.PrivateDatabaseDirectory` | src/wudup/db_storage.py:75-113 | The loop over the pending queue terminates by the measure (links left up to 40, pending length) and does what the recursive walk does, to the result and to the tree. |
| `DirectoryModes.NodesAfterCall` | src/wudup/db_storage.py:30-72 | After the call, whatever its result: every node that was there is as before, but for the directory the walk ends at, which gets mode 0700 and, from root, the configured owner exactly when others may write to it or root has to hand it over; every other node is a directory created on the way, with mode 0755 if components were still to go and 0700 if not. |
| `DirectoryModes.NewDatabaseDirectory` | src/wudup/db_storage.py:30-72 | For a path and links without `..`: a database directory that is created has mode 0700, the directories created above it have 0755, and all belong to the running account, the last one to the configured owner if root creates it. |
| `DirectoryModes.ResultIsPrivate` | src/wudup/db_storage.py:11-24 | The directory returned belongs to a trusted account and has neither write bit for others; those above it too, unless sticky. |
| `DirectoryWalk.WalkChecksEverything` | src/wudup/db_storage.py:85-113 | The returned directory and every directory above it is a real directory that passed its check, and no other existing node has changed. |
| `DirectoryWalk.WalkFollowsTrusted` | src/wudup/db_storage.py:89-113 | The path still resolves to the result when every link of an untrusted owner and every directory that fails its check is taken away: the walk followed no other link and entered no other directory. |
| `DirectoryWalk.WalkResolves` | src/wudup/db_storage.py:85-113 | The result is where recursive path resolution leads, a link being resolved to a directory before the rest goes on from there. |
| `DirectoryWalk.ResolveJoined` | src/wudup/db_storage.py:100-106 | Resolving a link's target and then the rest is resolving them joined, which is why one queue suffices. |
| `DirectoryWalk.PrivateDirectoryIsSafe` | src/wudup/db_storage.py:75-113 | The whole call: result, checks, resolution, also over trusted links and checked directories alone, and unchanged nodes together; a call that raises has changed no existing node. |
| `DirectoryWalk.PrivateDirectorySucceedsIff` | src/wudup/db_storage.py:75-113 | Among trusted nodes the call succeeds if and only if the path resolves within forty links. |
| `UpstreamMap.ReadMapFile` | scripts/update-lsio-upstreams.py:66-90 | The loop over lines computes the specified reading, comments waiting for the next entry included. |
| `UpstreamMap.RenderMapFile` | scripts/update-lsio-upstreams.py:326-332 | The loop over sorted keys computes the specified text. |
| `UpstreamMap.RoundTripIff` | scripts/update-lsio-upstreams.py:66-90 | Reading a rendered map gives back the same entries and comments if and only if the entries are well formed. |
| `UpstreamMap.BuildOutputEntries` | scripts/update-lsio-upstreams.py:307-323 | The keys afterwards are the scanned ones and those of the old overrides and seen entries; an override or an entry that was not scanned keeps its old value and comments, every other has the scanned value and no comments. |
| `UpstreamMap.WriteIsFixedPoint` | scripts/update-lsio-upstreams.py:307-332 | Writing again with the same scan gives the same text, character for character. |
| `UpstreamMap.CheckAfterWriteIff` | scripts/update-lsio-upstreams.py:279-304 | Of the functions alone, for any scan: straight after a write nothing is missing, changed or removed if and only if every scanned key that is not overridden is among the seen keys. |
| `UpstreamSources.SourceEntriesFromDir` | scripts/update-lsio-upstreams.py:147-165 | The loop over local checkouts builds the specified scan, in which every scanned key is a seen one and every value is one line of text. |
| `UpstreamSources.SourceEntriesFromGithub` | scripts/update-lsio-upstreams.py:267-276 | The same for the repositories that GitHub lists. |
| `UpstreamSources.ScansAreFromScript` | scripts/update-lsio-upstreams.py:147-165 | So it is for the scan of any repositories, and the seen keys are exactly theirs. |
| `UpstreamSources.ExtractJenkinsExtRepo` | scripts/update-lsio-upstreams.py:116-124 | The loop over the settings computes the specified pair, a later setting replacing an earlier one. |
| `UpstreamSources.UpstreamFits` | scripts/update-lsio-upstreams.py:127-144 | A project URL gives a value of the entry syntax; the Jenkins settings may give any text on one line. |
| `UpstreamSources.WrittenMapIsCurrentIff` | scripts/update-lsio-upstreams.py:279-332 | For every scan the script builds: straight after a write the map can be read and nothing is missing, changed or removed if and only if the key and the value of every entry taken from the scan have the entry syntax. |
| `UpstreamSources.SpaceMakesMapUnreadable` | scripts/update-lsio-upstreams.py:116-124 | A failing input: a repository whose Jenkins settings name the user `a b` is written into a map that cannot be read again. |
| `SourceGrammar.ProjectUrlIff` | scripts/update-lsio-upstreams.py:93-104 | The project URL is that of the first line that is not indented and gives one, in one pair of quotes or none. |
| `SourceGrammar.GithubProjectIff` | scripts/update-lsio-upstreams.py:107-113 | A URL gives a project if and only if it is the GitHub address of an owner and a repository, with or without a slash at its end. |
| `SourceGrammar.JenkinsSettingIff` | scripts/update-lsio-upstreams.py:32-34 | Which lines are Jenkins settings, of which name and value. |
| `SourceGrammar.JenkinsSettingsIff` | scripts/update-lsio-upstreams.py:116-124 | The setting that counts is the last one of its name. |
| `SourceGrammar.UpstreamIff` | scripts/update-lsio-upstreams.py:127-144 | The upstream of a repository is the project of its readme variables; without one that of its Jenkins variables; without that the user and the repository of the Jenkins settings. |
| `SourceGrammar.DockerReposAre` | scripts/update-lsio-upstreams.py:148-156 | The repositories scanned in a directory are those whose names start with `docker-`. |
| `SourceGrammar.ScanEntriesAre` | scripts/update-lsio-upstreams.py:147-165 | With different names, the scan has exactly the repositories that have an upstream, each under its own key. |
| `MapReading.ReadMapOkIff` | scripts/update-lsio-upstreams.py:66-90 | A map file is read if and only if each line is white space, a comment or an entry with white space behind it. |
| `MapReading.ReadMapSays` | scripts/update-lsio-upstreams.py:66-90 | Each key has the value of its last entry, and as comments the unbroken comment lines directly above that entry. |
| `UpstreamMap.OverridesAreKept` | scripts/update-lsio-upstreams.py:307-323 | An override survives a write and a read with its comments, whatever the scan says. |

## Left out

Contracts that say less than the code does:

- ImageSpans.LocatedSpansSplice: leaves out an empty old image, because two spans of empty images could start at the same offset, and two different values on one line; an image reference is never empty in a plan.
- ImageSpans.RewriteImages: leaves out the same two cases.
- TagExclusions.MergeExcludes: both patterns must be in the syntax named below.
- TagExclusions.EitherAccepts: both patterns must be in the syntax named below.
- TagExclusions.ExclusionsAccumulate: the first pattern of the label must be in the modelled regular-expression syntax (literals, escapes, `.`, character classes, anchors, word boundaries, groups, look-around, alternation, and `*`, `+`, `?` and counted repeats, lazy or not); named groups, back references, and escapes by character code are not modelled.
- TagTransforms.ManagedTransformRewrites: that the foreign reader of the label substitutes `$k` by the k-th captured group is taken as the meaning of the label.
- YamlScalar.MappingEntryIff: the key is taken to be plain characters without white space and quotes, as all label keys in the source are.
- PlanMatching.MatchTargets: which images match is a function parameter, because the matcher itself is not part of this model.
- DigestUnpin.RecoverDigestUnpinMatches: which updates of a whole run keep the digest of their line is stated for digests with at most one `@`, because for others it depends on how often and in which order a key was merged; `DigestUnpin.MergedKeyDiffersIff` is exact for each merge. The issues collected on the way and the update fields computed from image and tag (marker, label) are not modelled; provenance is a function parameter.
- DirectoryWalk.PrivateDirectoryIsSafe: the tree changes only by the walk itself; competing creators, operating-system errors other than a refused repair, and the re-checks of a newly created directory are not modelled.
- UpstreamMap.CheckAfterWriteIff: the reported lists are modelled as sets of keys.
- RequestScope.SkippedOnlyAfterSuccess: each section under a lock is one step, and the flags and the clock are read in one step at the start of a call; values are compared as exact numbers.
- MigrationRuns.CommittedStatesConform: starts from a database on which a run alone succeeds; on any other, `MigrationPremise.InitRunSucceedsIff` says that every run alone fails, and `SchemaConnection.Connection.InitSchema` that it loses nothing.
- SchemaConnection.Connection.InitSchema: the clock is read once for each transaction, so all rows that one transaction records carry the same time.
- ComposePersistence.ExitIsAccountedFor: owner and mode are set in the same step as the sync of the temporary file, and an interrupt between the rename and the recording of the hash counts as a kill.

Parts of the repository that are not modelled:

- The ruamel.yaml tree, comment containers and anchor guards: line and column positions reported by the parser are inputs.
- Labels in block style and empty label lists: their insertion point comes from the tree.
- `_backup_compose`: a copy to a fresh name, with nothing to order.
- SQL text, its splitting into statements, indexes and constraints: tables are maps of columns and rows, transactions are atomic.
- SHA-256: taken as injective, so a hash stands for its text.
- JSON decoding of the Compose configuration: the decoded value is the input of the start order.
- Lone CR as a line break of Compose files: the source splits lines at LF only.
- Digest verification, plan issues and actions, the doctor, image references beyond tag and digest, release skips and version ranges: lists of cases that one reading settles.
- Docker, Compose, registry, GitHub and Trivy calls, subprocesses, terminals, signals, banners, command-line parsing and timing headers: foreign behaviour or output only.
