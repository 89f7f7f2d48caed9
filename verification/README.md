# Verification of the regression suite's helpers

A Dafny model of the logic behind the ClickHouse regression suite: the type algebra and test-data
generator, the shell cache and start-up machinery of the cluster object, the XML configuration builder, the
version gate, and the key folding that the AES requirements prescribe. `dafny verify dfyconfig.toml` checks
everything.

| file | what it holds |
|---|---|
| `Text.dfy` | optional results, number printing and reading, comma joining, substring search |
| `DataTypes.dfy` | the grammar of types: names, capability flags, limits, fixed and random literals |
| `ColumnNames.dfy` | flattening a type name into a column name, and a decoder that undoes it |
| `Literals.dfy` | every literal is self-contained, so the VALUES text can be cut back into its cells |
| `Uuids.dfy`, `DecimalLimits.dfy`, `Limits.dfy` | what UUID texts and the limits of every scalar denote |
| `Requests.dfy` | what each type asks its random source for, and how the literal follows from the answers |
| `TestData.dfy` | lazy column generators over shared random sources, and the INSERT built from them |
| `Cardinality.dfy` | how many distinct values a generated column has |
| `Generators.dfy` | the generated type lists: legality and distinct column names |
| `VersionGate.dfy` | version requirements, the image tag scan, the start-up version check |
| `Xml.dfy`, `XmlElements.dfy` | configuration trees as values, and the mutable elements that realise them |
| `ShellCache.dfy`, `ShellCalls.dfy`, `ShellLeaks.dfy`, `ShellRuns.dfy`, `Cluster.dfy` | shells as numbered handles: one locked call, what it does to each shell, the shells it loses, whole runs, and the cluster object's methods |
| `StartUp.dfy`, `QueryRetry.dfy` | the attempt loop of `up`, and the retry logic of `query` |
| `FoldKey.dfy` | XOR folding of long keys |

Conventions. A random source is deterministic: its answers depend on the requests made so far, and that
history is its state. Docker, the shells and the server are scripts of answers, arbitrary in every theorem.
A dictionary is the sequence of its items in insertion order. Python exceptions are result values.

## Main results

* **Column names lose nothing.** Parentheses and commas become underscores and case is dropped, yet a
  decoder recovers every type of the grammar, empty tuples included. So columns, which compare by name,
  compare by type, and a generated column list has distinct names exactly when its scalars are distinct.
  The list holds exactly the described types, and each of them is legal at every depth.
* **The INSERT text can be read back.** A reader that knows only brackets and quotes recovers the exact
  matrix of cells, for every column list, row count and source. The row-by-row run of lazy generators gives
  the matrix and the final source histories of eager column-by-column generation, whatever sources columns
  share; with a cardinality below one it raises an index error in the first cell. What each source is asked
  follows from the types alone.
* **Shells.** Over every run, raising calls included, two keys never share a shell. The open shells stay
  exactly the held ones unless a call caches a closed shell or loses a control shell, and both conditions
  are read off the cache and the answers alone; after the first the next call returns the closed shell.
  From construction through any run to `__exit__`, nothing stays open exactly when no call loses a control
  shell and leaving closes the last one; give-ups never leak. A call of `bash` closes, once each, exactly the
  shells of dead threads, and touches no other thread's shell.
* **Configuration trees.** Building and indenting a tree keeps every item, in order, at every depth, with
  lists of dictionaries concatenated; indenting twice is indenting once, and for any step it is known
  exactly when content is kept.
* **Retries and start-up.** `query` executes once plus once per reply of the initial retriable run, up to
  the retry count, and returns only a reply that meets what was asked; `up` reaches the health phase exactly when some attempt succeeds; the container lookup
  ends for every script of answers, within a bound on its attempts.
* **Versions.** Requirements compare in lexicographic order, cut to the server's length; `>=p.k` with
  `<p.(k+1)` holds exactly for servers whose components start with p.k.

## Where the code differs from its description

* `cardinality` is described as the number of distinct values, but no cell depends on it
  (helpers/tables.py:332, 48-50). A column has one value exactly when it has one row, or its type holds no
  scalar and it has two rows or no Null (`Cardinality.OneValueExactly`). `exclude` is accepted and never
  read (helpers/tables.py:247).
* A retried query forgets `ignore_exception`, `query_id`, `secure`, `use_file`, the output options, the
  delay and the pipe command (helpers/cluster.py:743-756). `QueryRetry.OptionsHonoured`,
  `QueryRetry.DelaysHonoured` and `QueryRetry.IgnoreExceptionHonoured` say exactly when that matters;
  `QueryRetry.OptionsForgotten`, `DelayForgotten` and `IgnoreExceptionForgotten` are concrete calls.
* `bash` can leave a closed shell in the cache (helpers/cluster.py:1113-1118, `ShellCache.GaveUpWitness`), the
  control shell is lost when an echo is refused (helpers/cluster.py:991-992, `ShellCache.LostControlWitness`),
  and `__exit__` keeps an open control shell when `down` does not finish (helpers/cluster.py:1176-1180,
  1214-1225, `ShellRuns.OpenAfterExitWitness`).
* `<x` does not negate `>=x`, nor `>x` `<=x`, when the server version is unknown, because every requirement
  then answers no (helpers/common.py:24-25), or when `x` starts with an equals sign and holds by itself
  (helpers/common.py:42-53). `VersionGate.NegationExactly` says that these are the only cases.
* Folding a key given as a tuple raises when it is longer than the cipher key, and a zero size divides by
  zero (aes_encryption/requirements/requirements.py:1319-1325).
* A decimal whose digits are all fractional has a limit one digit short (helpers/datatypes.py:213-214), so
  it is not the largest number of that precision.

## Model

| member | source | states |
|---|---|---|
| ColumnNames.ColumnNameDecodes | helpers/tables.py:13-20 | the flattened, lower-cased name of any type decodes to that type |
| ColumnNames.EqualNamesEqualTypes | helpers/tables.py:24-28 | two types have equal column names, or equal type names, exactly when they are the same type |
| ColumnNames.ParseColumnName | helpers/datatypes.py:448-608 | a name read inside a longer name yields its type and leaves the rest, so one character of lookahead separates items from closings |
| ColumnNames.ParseItemNames | helpers/datatypes.py:503-515 | the items of a tuple are told apart although separator and closing both become underscores |
| ColumnNames.ScalarWordDecodes | helpers/datatypes.py:57-436 | every scalar's word stays a single word and announces only that scalar |
| Literals.LiteralIsSealed | helpers/datatypes.py:448-628 | every maximum, minimum and zero literal is non-empty, balanced, quote-closed and free of top-level commas |
| Literals.RandValueIsSealed | helpers/datatypes.py:448-628 | the same for every random literal, whatever the source answers |
| Literals.LiteralReadsBack | helpers/datatypes.py:517-628 | a composite maximum, minimum or zero literal holds exactly the same literal of each component, in order |
| Literals.RandValueReadsBack | helpers/datatypes.py:535-623 | a composite random literal holds its components' random literals, drawn left to right |
| Literals.SplitJoin | helpers/tables.py:348-351 | cutting at top-level commas undoes joining, for sealed non-empty parts |
| Literals.ReadsBack | helpers/tables.py:345-356 | the text of a matrix of sealed cells reads back as the matrix, rows and cells in order |
| Uuids.HexGroup | helpers/datatypes.py:442 | a zero-filled hexadecimal group has its width and reads back as its number |
| Uuids.UuidTextForm | helpers/datatypes.py:439-442 | a random UUID has the 8-4-4-4-12 form of RFC 4122, section 3, and its groups are the five numbers drawn |
| DecimalLimits.LimitsFit | helpers/datatypes.py:211-252 | for any precision and scale both limits read back, are opposite and fit; the maximum is the largest such number exactly when scale is below precision |
| DecimalLimits.ClickHouseDecimalLimits | helpers/datatypes.py:211-252 | precisions 9, 18, 38 and 76: both limits read back, are opposite and fit, and the maximum is the largest number exactly when scale is below precision |
| Limits.IntegerLimits | helpers/datatypes.py:57-146 | the limits of an integer are those of its width in two's complement |
| Limits.DecimalPrecisionFits | helpers/datatypes.py:211-252 | a decimal's precision is the largest that fits the signed integer of the width in its name |
| Limits.UuidLimits | helpers/datatypes.py:428-447 | the UUID limits print the smallest and the largest number in every group |
| Limits.DateLimits | helpers/datatypes.py:256-336 | read in the Gregorian calendar, a Date ends after 16 bits of days, a DateTime after 32 bits of seconds, a DateTime64(9) after 63 bits of nanoseconds; a Date32 spans 1900 to 2299 |
| Limits.AlphabetExactly | helpers/datatypes.py:352-366 | the longest string holds every letter once, except the capital S |
| Limits.FixedStringLimit | helpers/datatypes.py:379-398 | the longest FixedString has exactly its length and agrees with that string |
| Limits.LimitsReadBack | helpers/datatypes.py:28-32 | the maximum and the minimum literal convert exactly the limit of the scalar, with its scale, precision or length |
| Limits.ZeroReadsBack | helpers/datatypes.py:53-475 | the zero literal is a converted 0, the text of the minimum, or Null for everything nullable |
| Requests.LiteralAsks | helpers/datatypes.py:48-623 | drawing a literal advances the source by exactly the requests of its type, whatever it answers |
| Requests.OneAnswerLiteral | helpers/datatypes.py:48-51 | integers, dates and times print the number drawn; a Boolean is false exactly for zero |
| Requests.FloatLiteral | helpers/datatypes.py:162-209 | floats and decimals print the number drawn, a Float64 with the exponent of its second draw |
| Requests.LettersLiteral | helpers/datatypes.py:367-404 | a random string is one letter of the maximum, picked and repeated by two draws |
| Requests.UuidLiteral | helpers/datatypes.py:439-442 | the groups of a random UUID are its five draws, in order |
| TestData.ValuesGenerator.DrawValues | helpers/tables.py:39-46 | maximum, minimum, zero and then the draws; the source advances by exactly those draws |
| TestData.ValuesGenerator.Next | helpers/tables.py:34-50 | the first cell draws the whole list, later cells draw nothing; which cell, end or index error comes out, and that nothing follows an end or an error |
| TestData.DrawsInOrder | helpers/tables.py:45-46 | each draw is the random literal at the history its predecessors left |
| TestData.DrawsAsk | helpers/tables.py:45-46 | n draws leave the source n times the requests of the type further |
| TestData.EagerAsks | helpers/tables.py:39-50 | every source ends with the requests of the columns that share it, in column order, once for each row after the third |
| TestData.CycledExactly | helpers/tables.py:48-50 | the repeated list goes through its values again and again |
| TestData.CellsOfColumn | helpers/tables.py:39-50 | what each cell of an eager column is, independent of cardinality and of the columns to its right |
| TestData.MatrixCells | helpers/tables.py:347-352 | row r of the matrix holds cell r of every column, in column order |
| TestData.NextRow | helpers/tables.py:347-352 | asking every generator for one cell gives one row of the eager matrix, or an index error exactly for a cardinality below one |
| TestData.AllRows | helpers/tables.py:345-352 | the row loop yields all rows of the eager matrix and the eager final histories |
| TestData.ValuesTextReadsBack | helpers/tables.py:345-356 | the VALUES text of generated columns reads back as the generated matrix |
| TestData.Table.InsertTestData | helpers/tables.py:317-361 | the whole insert: rows, statement, read-back, what every source was asked, and the error case |
| Cardinality.LimitsDiffer | helpers/datatypes.py:57-628 | the maximum and minimum literal of a type differ exactly when it holds a scalar at some depth |
| Cardinality.ZeroDiffers | helpers/datatypes.py:57-628 | for a type without a scalar the zero literal differs from the maximum exactly when something in it is nullable |
| Cardinality.NothingToDraw | helpers/datatypes.py:57-628 | for a type without a scalar a random literal is the maximum and draws nothing |
| Cardinality.OneValueExactly | helpers/tables.py:39-50 | when a generated column has exactly one distinct value, whatever cardinality was asked for |
| Cardinality.OneValueWitness | helpers/tables.py:39-50 | two rows of a Boolean column hold two values |
| Generators.LowCardinalityMembers | helpers/tables.py:175-186 | exactly the supporting types of the list are wrapped, the nullable ones only from 22.4 on |
| Generators.MapMembers | helpers/tables.py:204-212 | exactly the combinations of a valid key with any value of the list are built |
| Generators.QualifyingScalars | helpers/datatypes.py:35-436 | which scalars may be wrapped in LowCardinality, bare or nullable, which may be map keys, and that nothing composite is one |
| Generators.DefaultScalars | helpers/datatypes.py:640-662 | exactly which scalars the default list holds |
| Generators.IncludeAndExclude | helpers/tables.py:247-250 | an empty include counts as absent and exclude does not matter |
| Generators.KindsInOrder | helpers/tables.py:280-287 | scalars come first, then maps, nullables, arrays, low-cardinality types and the tuple |
| Generators.GeneratedNamesDistinct | helpers/tables.py:247-289 | over scalars the generated column names are distinct exactly when the scalars are; the default list always gives distinct names |
| Generators.GeneratedTypesComplete | helpers/tables.py:250-287 | over scalars exactly the described types are generated, none missing and none extra |
| Generators.GeneratedTypesLegal | helpers/tables.py:175-289 | every generated type is legal at every depth |
| Generators.ValidKeyIsNeverNull | helpers/datatypes.py:449-596 | no literal of a valid map key is Null |
| VersionGate.CheckVersion | helpers/common.py:20-57 | the loop and comparison compute the specified outcome, including the value error; int() skips blanks and reads signs and grouped digits |
| VersionGate.CheckNumeric | helpers/common.py:39-55 | a requirement whose parts int() reads never raises and is compared after being cut to the server's length |
| VersionGate.LessTrichotomy | helpers/common.py:44-53 | list comparison is asymmetric and total |
| VersionGate.LessTransitive | helpers/common.py:44-53 | it is transitive |
| VersionGate.LessExactly | helpers/common.py:44-53 | it is lexicographic order: at the first difference the smaller number, or the end, comes first |
| VersionGate.FirstDifferenceDecides | helpers/common.py:44-53 | after a common beginning only the first differing component counts, whatever follows |
| VersionGate.PrintedWeak | helpers/common.py:44-47 | `>=` and `<=` for any printed versions: lexicographic comparison with the requirement cut to the server's length |
| VersionGate.PrintedStrict | helpers/common.py:50-53 | the same for `>` and `<` |
| VersionGate.PrintedEqual | helpers/common.py:42-55 | one equals sign, two of them and none mean equality with the cut requirement |
| VersionGate.MajorThenMinor | helpers/common.py:44-45 | for two components the major number decides `>=`, and on a tie the minor one |
| VersionGate.RaisesExactly | helpers/common.py:36-40 | a known server raises exactly without a numeric component or when int() refuses a compared part |
| VersionGate.SplitDotsExactly | helpers/common.py:27-28 | splitting gives parts without dots that join to the text |
| VersionGate.StripOperatorsExactly | helpers/common.py:27 | exactly the operator characters are removed, wherever they stand |
| VersionGate.SignedInt | helpers/common.py:39 | int() reads a sign before digits |
| VersionGate.GroupedInts | helpers/common.py:39 | int() skips one underscore between digits |
| VersionGate.BlanksSkipped | helpers/common.py:39 | int() skips blanks on both sides |
| VersionGate.RefusedInts | helpers/common.py:39 | int() refuses texts without a digit and every other character |
| VersionGate.RefusedUnderscores | helpers/common.py:39 | int() refuses two underscores in a row |
| VersionGate.NegationExactly | helpers/common.py:24-55 | `<x` negates `>=x`, and `>x` negates `<=x`, or both raise, exactly when the server version is known and not (`x` starts with an equals sign and holds by itself) |
| VersionGate.LeadingEqualsSignWitness | helpers/common.py:42-53 | both negations fail for `=22` and a server of version 22 |
| VersionGate.VersionWindow | rbac/regression.py:223-226 | `>=p.k` and `<p.(k+1)` hold together exactly for servers whose components start with p.k |
| VersionGate.PrintedWindow | rbac/regression.py:223-226 | the same for all printed versions |
| VersionGate.ScannedVersionIsUsable | helpers/cluster.py:870-883 | a scanned tag makes every later numeric requirement total |
| VersionGate.ScanExactly | helpers/cluster.py:870-883 | the scanned version is the longest run of digits and dots after the last colon, unless it is empty or starts or ends with a dot |
| VersionGate.StartupCheck | helpers/cluster.py:316-322 | the check passes exactly when the known version has components and those int() reads from the node's answer start with them, and raises exactly when it has none or int() refuses a compared part |
| VersionGate.NumericComponentsFirst | helpers/common.py:31-40 | what isnumeric() accepts int() reads, so the components that are compared never raise on the server's side |
| Xml.KeepsContentExactly | helpers/common.py:140-153 | for any step and level: everything but blank branch texts and blank tails is kept exactly when the step is blank or is never written |
| Xml.IndentIsIdempotent | helpers/common.py:140-153 | a second run changes nothing, at any level and for any step |
| Xml.IndentLaysOut | helpers/common.py:143-150 | branch texts and tails of a fresh tree: each last child returns to its parent's line, every other to its own |
| Xml.DefaultLine | helpers/common.py:141-142 | a line of the layout is a line break and two blanks for each level |
| Xml.IndentReadsTheSame | helpers/common.py:140-153 | indenting never changes what a tree reads back as |
| Xml.BuildReadsBack | helpers/common.py:198-222 | the built elements read back as the given items, none merged, dropped or reordered at any depth |
| Xml.BuiltNameAndAttributes | helpers/common.py:199-205 | an element carries its key's name and exactly the attributes it was given |
| Xml.ListIsConcatenation | helpers/common.py:206-220 | a list of dictionaries builds the same element as their concatenation |
| Xml.ConfigTreeReadsBack | helpers/common.py:194-225 | the finished tree has the root's name, the uid comment and exactly the items with their attributes, is laid out, and is stable |
| XmlElements.Element.FillOwn | helpers/common.py:143-146 | fills the element's own blank text and tail and nothing else |
| XmlElements.Element.IndentChildren | helpers/common.py:147-148 | indents each child in place and nothing else |
| XmlElements.Element.CloseLast | helpers/common.py:149-150 | after the loop the rebound name is the last child, whose blank tail is refilled |
| XmlElements.Element.XmlIndent | helpers/common.py:140-153 | the in-place run turns the element's tree into its indented value |
| XmlElements.Element.Append | helpers/common.py:156-160 | appending adds one subtree at the end and keeps the tree a tree |
| XmlElements.CreateXmlTree | helpers/common.py:198-222 | appends exactly the elements of the items, after what was there |
| XmlElements.NewElement | helpers/common.py:199-222 | one item becomes one fresh element |
| XmlElements.CreateFromList | helpers/common.py:206-219 | the items of all dictionaries of a list end up below the same element, in order |
| XmlElements.CreateXmlConfigContent | helpers/common.py:183-225 | the whole pipeline up to serialisation, with everything ConfigTreeReadsBack says |
| ShellCache.TryOpenEffect | helpers/cluster.py:1092-1118 | an opening loop closes every shell it creates except a usable one it leaves referenced |
| ShellCache.TryOpenOutcome | helpers/cluster.py:1092-1118 | from the attempts alone: when the loop succeeds, when its last shell stays open, when it leaves a closed shell in hand |
| ShellCalls.TryOpenLast | helpers/cluster.py:1092-1118 | which error the loop ends with, from the last attempt made and whether a shell was in hand |
| ShellCalls.TryOpenCounts | helpers/cluster.py:1092-1118 | how many shells an opening creates and how often it closes one |
| ShellCache.CloseKeysGood | helpers/cluster.py:1126-1133 | closing any set of cached keys keeps open and held the same |
| ShellCache.CloseBashExactly | helpers/cluster.py:1137-1145 | close_bash closes the caller's shell for one node once and spares every other |
| ShellCache.CloseBashesExactly | helpers/cluster.py:78-84 | close_bashes closes each shell whose node is any text followed by the name once and spares every other |
| ShellCache.ControlShellGood | helpers/cluster.py:976-999 | opening the control shell loses a shell exactly when its attempts end with an echo's IOError |
| ShellCache.LookupAttemptsBounded | helpers/cluster.py:1009-1034 | attempt n starts only if (n-1)(n-2)/2 is below the time limit, and every retry is decided before the limit |
| ShellCache.LookupTerminatesInTime | helpers/cluster.py:1009-1034 | the same bound in closed form for a whole lookup |
| ShellCache.LookupOutcome | helpers/cluster.py:1009-1034 | from the script alone: when a lookup succeeds and when it loses a control shell |
| ShellCache.LookupLastAttempt | helpers/cluster.py:1016-1033 | every attempt before the last finds nothing or times out, and the last one decides the result |
| ShellCache.LookupGood | helpers/cluster.py:1009-1034 | a lookup keeps open and held the same exactly when its script loses no control shell |
| ShellCache.BashKeepsSafe | helpers/cluster.py:1075-1135 | however a call ends, two keys never share a shell |
| ShellCache.BashKeepsGood | helpers/cluster.py:1075-1135 | open and held stay the same exactly when the key is cached, or the scripts neither lose a control shell nor leave a closed shell in the cache |
| ShellCache.BashReturnsExactly | helpers/cluster.py:1075-1135 | when a call returns a shell, from the cache, the control shell and the scripts |
| ShellCalls.BashFailures | helpers/cluster.py:1085-1123 | which of lookup, opening and exports makes a call raise |
| ShellCalls.SameKey | helpers/cluster.py:1081-1083 | calls share a shell exactly when they come from one thread for one node; the host and a node called None are the same |
| ShellCalls.BashSweepsExactly | helpers/cluster.py:1126-1133 | of the shells cached before, exactly those of dead threads are removed and closed once, and only by a call that opens a shell and returns; all others are untouched |
| ShellCalls.BashCachesNewShell | helpers/cluster.py:1092-1118 | a new shell is cached exactly when the attempts create one, however the call ends; it is the last one created |
| ShellCache.BashReturnsOwnShell | helpers/cluster.py:1126-1135 | a returning call gives the open shell cached under the caller's key; the sweep spares it and leaves no dead thread's shell |
| ShellCache.ClosedShellIsReturned | helpers/cluster.py:1085-1118 | after a call that caches a closed shell the next call for the same key returns it |
| ShellCache.GaveUpWitness | helpers/cluster.py:1113-1118 | a first call that gives up and leaves a closed shell cached |
| ShellCache.LostControlWitness | helpers/cluster.py:984-992 | a first call whose lookup loses its control shell |
| ShellLeaks.BashNoLeak | helpers/cluster.py:1075-1135 | a call that loses no control shell leaves every open shell referenced, even if it gives up |
| ShellLeaks.BashLoses | helpers/cluster.py:976-999 | a call that loses a control shell leaves an open shell that nothing refers to |
| ShellRuns.DownFinishesExactly | helpers/cluster.py:1194-1225 | down finishes exactly when the host shell is cached or opens with working exports, and its command completes |
| ShellRuns.DownResults | helpers/cluster.py:1194-1225 | down fails on an unassigned name exactly when bash raises, and raises the command's exception otherwise |
| ShellRuns.DownSweepsExactly | helpers/cluster.py:1204-1219 | down closes every other cached shell once, and the host shell only after a timeout, whichever way its command ends |
| ShellRuns.DownLeavesHostShell | helpers/cluster.py:1194-1225 | a finished down leaves one cached shell, the open host shell, and closed each other held shell exactly once |
| ShellRuns.DownKeepsGood | helpers/cluster.py:1194-1225 | down keeps open and held the same exactly when opening the host shell does not spoil it |
| ShellRuns.DownNoLeak | helpers/cluster.py:1194-1225 | however down ends every open shell stays referenced, and the control shell is closed exactly when it finishes |
| ShellRuns.CollectLogsExactly | helpers/cluster.py:1155-1175 | collecting logs creates at most one shell and leaves nothing more open |
| ShellRuns.ExitClosesCached | helpers/cluster.py:1177-1180 | leaving closes every cached shell exactly once more and keeps its entry |
| ShellRuns.ExitClosesAll | helpers/cluster.py:1152-1180 | if no shell is lost, nothing is open after leaving exactly when there was no control shell, or collecting logs did not raise and down finishes |
| ShellRuns.RunsAreSafe | helpers/cluster.py:1036-1145 | over every run of cached and uncached openings, closings and downs, raising calls included, no two keys share a shell |
| ShellRuns.UnspoiltRunsAreGood | helpers/cluster.py:1075-1145 | over every interleaving in which no call spoils it, raising calls included, the open shells are exactly the held ones |
| ShellRuns.NormalRunsAreGood | helpers/cluster.py:1075-1145 | the same over every interleaving that returns |
| ShellRuns.AnyRunThenExit | helpers/cluster.py:1147-1180 | from construction through any run to leaving: nothing stays open exactly when no call loses a control shell and leaving closes the last one |
| ShellRuns.NormalRunThenExit | helpers/cluster.py:1147-1180 | after a run that returns, only the control shell can stay open |
| ShellRuns.OpenAfterExitWitness | helpers/cluster.py:1147-1225 | a run of one returning call after which leaving keeps the control shell open |
| Cluster.Cluster.constructor | helpers/cluster.py:800-801 | starts with no cached and no control shell |
| Cluster.Cluster.GetControlShell | helpers/cluster.py:976-999 | the opening loop of the control shell computes its step |
| Cluster.Cluster.CloseControlShell | helpers/cluster.py:1001-1007 | closes and forgets the control shell |
| Cluster.Cluster.NodeContainerId | helpers/cluster.py:1009-1034 | the unbounded loop ends for every script, computes its step and respects the bound on attempts |
| Cluster.Cluster.OpenBash | helpers/cluster.py:1090-1118 | the opening loop caches each shell before trying it and computes its step |
| Cluster.Cluster.CloseWhere | helpers/cluster.py:1129-1133 | walking over a snapshot of the keys closes and removes exactly the qualifying ones |
| Cluster.Cluster.Bash | helpers/cluster.py:1075-1135 | the whole locked call computes its step and result |
| Cluster.Cluster.CloseBash | helpers/cluster.py:1137-1145 | closes the caller's shell for one node |
| Cluster.Cluster.CloseBashes | helpers/cluster.py:78-84 | closes every cached shell whose node name ends with the given name |
| Cluster.Cluster.Down | helpers/cluster.py:1194-1225 | computes the down step, whichever way its command ends |
| Cluster.Cluster.Leave | helpers/cluster.py:1152-1180 | log collection, which may raise before down is called; down; then every cached shell is closed |
| StartUp.ComposeUp | helpers/cluster.py:1297-1306 | the inner loop computes the result that is kept, for any number of up attempts |
| StartUp.UpResultIsFirstHealthy | helpers/cluster.py:1298-1306 | which up command's result is kept |
| StartUp.SucceedsExactly | helpers/cluster.py:1270-1321 | an attempt succeeds exactly when pull, clean-up and the first up command that reports nothing unhealthy exit with zero, and no container exited |
| Text.ContainsExactly | helpers/cluster.py:1301-1319 | a text contains a part exactly when the part stands somewhere in it |
| StartUp.TryOnce | helpers/cluster.py:1270-1321 | one attempt breaks exactly when it succeeds, and otherwise leaves values the final test rejects |
| StartUp.Up | helpers/cluster.py:1265-1328 | the health phase is reached exactly when some attempt succeeds; no unassigned read for one or more attempts |
| QueryRetry.ClickHouseNode.Query | helpers/cluster.py:611-779 | the recursive method executes, sleeps and concludes as specified |
| QueryRetry.QueryExecutions | helpers/cluster.py:658-779 | number of executions, what each runs with, the delays, and that only the last reply is concluded from |
| QueryRetry.OutcomeExactly | helpers/cluster.py:735-779 | each outcome of a call comes exactly from its cause in the last reply: timeout, skipped step, or the first check that fails |
| QueryRetry.ReturnedMeetsRequest | helpers/cluster.py:758-779 | a call that returns with checks gives the asked exit code and message, and no exception unless asked for or ignored |
| QueryRetry.RetriableExactly | helpers/cluster.py:741-742 | a reply is retriable exactly when a message stands somewhere in its output |
| QueryRetry.CountsAndDelays | helpers/cluster.py:659-660 | negative counts and delays count as none; there is one wait between two executions |
| QueryRetry.SettingsDoNotAccumulate | helpers/cluster.py:661-674 | every execution uses the caller's settings and then the defaults; the query id only the first |
| QueryRetry.ClickHouseNode.Prepare | helpers/cluster.py:658-727 | the branches build the execution: settings, file or pipe, and where the output goes |
| QueryRetry.ExecutionExactly | helpers/cluster.py:677-727 | when an execution goes through a file, and when its output is cut, hashed or written to a file |
| QueryRetry.OptionsHonoured | helpers/cluster.py:658-756 | all executions are the one the caller asked for exactly when there is no retry or the forgotten options that affect the command have their defaults |
| QueryRetry.OptionsForgotten | helpers/cluster.py:743-756 | a concrete call whose second execution has neither its query id nor its secure connection |
| QueryRetry.DelaysHonoured | helpers/cluster.py:743-756 | all waits are as long as asked exactly when there is at most one or the default was asked for |
| QueryRetry.DelayForgotten | helpers/cluster.py:743-756 | a concrete call that asks for waits of one second and sleeps for one and five |
| QueryRetry.IgnoreExceptionHonoured | helpers/cluster.py:743-777 | exactly when the request to ignore exceptions decides the last reply as asked |
| QueryRetry.IgnoreExceptionForgotten | helpers/cluster.py:743-777 | a concrete call that asks to ignore exceptions and fails on one |
| FoldKey.FoldKey | aes_encryption/requirements/requirements.py:1319-1325 | byte j is the XOR of all key bytes with index j modulo n, for short and long keys; the key is unchanged; division by zero, and the error of a longer tuple |
| FoldKey.FoldConcat | aes_encryption/requirements/requirements.py:1681-1687 | folding whole blocks followed by any key is the XOR of the folds |
| FoldKey.SelfFoldIsZero | aes_encryption/requirements/requirements.py:1681-1687 | whole blocks followed by themselves fold to zeros |
| FoldKey.FoldOfPermutedBlocks | aes_encryption/requirements/requirements.py:1681-1687 | reordering whole blocks does not change the fold |

## Left out

- VersionGate.CheckVersion: text is ASCII; the digits, numeric characters and blanks of other scripts, which isnumeric() and int() also know, are not modelled.
- Literals.RandValueIsSealed: a float draw is any text of digits, sign, dot and exponent characters; float arithmetic is not modelled.
- TestData.Table.InsertTestData: FixedString(0), for which drawing a value raises, is not in the grammar; lengths are positive.
- ShellCache.BashKeepsGood: a call that never returns is not a step; opening loops end with a success or an exception.
- ShellCache.CloseKeysGood: closing a shell always succeeds; the source lets an exception of a shell's own `__exit__` end the sweep.
- ShellRuns.UnspoiltRunsAreGood: down is taken as one step, without callers of other threads between its two locked parts; in debug mode it first writes to the servers' logs, which are ordinary calls of bash.
- Cluster.Cluster.Down: the return inside the finally part also swallows an exception of the sweep (helpers/cluster.py:1214-1225), which only a shell whose closing raises could cause.
- StartUp.Up: each command answers; an expect timeout that escapes from a command ends the call before the final test.
- QueryRetry.ClickHouseNode.Query: extra positional arguments, which the recursive call would bind twice, are not modelled.
- The server's version gate on date ranges (helpers/datatypes.py:325, 331) and on low cardinality (helpers/tables.py:183) enters as a Boolean parameter.
- Column seeds from SHA-1: any oracle may stand behind a column's source.
- Serialisation of the finished tree, configuration deployment and log polling.
- Command texts of `query`: which options an execution uses is modelled, the quoting of the command line is not.
- The shells that `Cluster.shell` hands out belong to its callers and are not counted; its container lookup is a step of the runs.
- Environment variables and the local-mode set-up of `up`.
- Type predicates such as `is_numeric`, which only read flags.
