# Verified models of GENIE.AI and BMad components

A Dafny 4.11 project that models parts of this repository whose behaviour is easy to get
wrong and proves what they promise: for every input, every run and every interleaving.
`dafny verify dfyconfig.toml` checks all of it.

## What is modelled

**The streaming answer filter** (`StreamFilter`, `AnswerStream`; proofs in `Layout`, `Substitutions`,
`RoleMarkers`, `Cleaning`, `Reading`, `StreamAgreement`, `StreamExactness`, `StreamCuts`, `Pieces`,
`StreamSeal`, `StreamLeak`, `Grades`, `GradedStream`, `GradedExactness`). Answer text arrives in
arbitrary chunks; a buffer is rewritten, a settled head is emitted and a tail that could still
become a marker is held back. The reference is an independent left-to-right reading of the whole
answer (`View`): separators, role markers and whitespace vanish, a sentinel ends the text. The
invariant that emitted text and the reading of what is still to come make up the reading of the
whole answer holds after every chunk, so the stream agrees with the batch clean-up however the
text was cut. That takes an answer whose role markers can be removed (`Removable`): the batch
clean-up leaves none, and neither does cleaning each stretch between separators by itself. The
condition is exact: of any other answer, some cut shows something else than the batch text
(`AgreementExactly`). With ordinary whitespace its first half is enough (`OrdinaryRemovable`), with
a stray carriage return it is not (`OddWhitespace`).

That agreement is one of visible characters. An answer without any marker comes out to the character,
however it is cut: it stays as it is but for newline runs of three or more, which become two
(`UnmarkedStream`).

No separator is to reach the client, not even in pieces. Role markers break that too: one that
arrives by itself goes, and what stood on its two sides meets in the text the client puts together
(`SeparatorPutTogether`). It happens to an answer, for some cut, exactly when the characters of a
separator stand in it in order with such gaps between them (`Pieced`, `SealedExactly`).

With self-grading on, agreement also holds if the answer has no sentinel or ends in one that is
complete and in range (`Proper`). For answers without role markers the exact condition is another
left-to-right pass (`Read`, `Tidy`, `GradedExactly`). There are three ways to fail it. A last
sentinel that stays incomplete or out of range, or one still in progress before it, shows in the
batch text and is dropped by the flush. A complete sentinel with visible text behind it goes when a
chunk ends with it. And when the text before a complete sentinel ends in a separator that lacks its
last character, a separator behind the sentinel comes to stand next to that text and gives it that
character.

**The setup and doctor engine** (`Toml`, `TomlLayout`, `TomlLoader`, `TomlRoundTrip`, `Config`,
`Questions`, `Trees`, `Staging`, `Installation`, `Project`). The printer is a method over one shared
list of lines; the loader reads lines and characters after TOML v1.0.0; `RenderRoundTrip` says that
loading undoes printing. With the keep-existing merge and the fact that question paths never meet,
this puts every answer at the path of its question (`InsertSucceeds`), makes doctor a fixpoint
(`DoctorTwice`) and setup leave a configured file to the byte (`SetupTwice`); either refuses answers
that are given again. The TOML library is a parameter of the two commands, together with the scalars
it reads back as they are printed: all strings, and of numbers and dates whichever it leaves
unchanged. It must agree with the loader on printed documents of such scalars, yield only such
scalars and ignore one more newline at the end (`Faithful`); what it makes of other documents is
open. `LoaderIsFaithful` shows that the loader of this model is such a library for every choice of
scalars, rejecting all others. A first doctor run on a fresh setup finds everything current, as the
engine's own comment says (`SetupThenDoctor`): scripts that were all read from one directory can all
be written (`ReadableWritable`).

**Versions and installed copies** (`SemVer`, `Selection`). The comparison is the order of Semantic
Versioning, stated apart from it (`CompareMeans`), and a total preorder on orderable versions. The
copy selection does not depend on the order of the copies as long as it does not fail; whether it
fails does, exactly when two contending copies differ and one, perhaps one of the two, cannot be
read (`OrderMattersExactly`, `TwoCopiesAreEnough`).

**Round trips.** `SuiteCells`: benchmark suites as spreadsheet rows, with the exact condition
under which a row comes back. `Memlog`: the frontmatter and body of the memory log over runs of
commands; a label over several lines (`AppendHolds`) and a field key with a fence among its
lines (`AssignHolds`) are exactly what breaks it.

**Protocols.** `Publish`: racing publishers of a rendered snapshot, one file-system operation at a
time. `Jwks`: coroutines around the signing-key cache, one await at a time, the closing of the HTTP
client included; a successful reply without keys does replace cached keys, which no failed one does
(`KeysSurvive`). `ModelCache`: calls at times on a monotone clock. `Jobs`: the registry and its
coroutines; a job cancelled before the first step of its coroutine stays queued forever and keeps
its slot (`EndsUnlessDoomed`, `SlotsLost`).

**Algorithms.** `Regions`: splitting a text and redacting it region by region. `Merge`: layered
configuration. `Confidence`, `SourceAssembly`: the rank-weighted confidence over real numbers and
the loop that collects sources.

Where the source updates state in place, a class or a method with loops does too, proved against
functions; the properties are lemmas about those functions.

## Model

| member | source | states |
|---|---|---|
| `StreamAgreement.StreamAgreesWithBatch` | genie-ai-overlay/chatqna/genieai_chatqna.py:3745-3813 | for every way of cutting a proper answer into chunks, the emitted heads plus the flush show exactly the characters the batch clean-up shows, and capture the same grade |
| `StreamExactness.AgreementExactly` | genie-ai-overlay/chatqna/genieai_chatqna.py:1545-1557 | the exact condition, without grading: an answer shows the same however it is cut, as the batch text does, if and only if the batch clean-up leaves no role marker in it and neither does cleaning each stretch between separators alone |
| `StreamAgreement.RemovableStream` | genie-ai-overlay/chatqna/genieai_chatqna.py:3367-3380 | under that condition stream and batch both show the answer minus separators, role markers and whitespace, whatever the chunks |
| `RoleMarkers.RoleFreeRemovable` | genie-ai-overlay/chatqna/genieai_chatqna.py:1559-1564 | an answer without role markers meets the condition |
| `StreamExactness.SinglesStreamed` | genie-ai-overlay/chatqna/genieai_chatqna.py:3745-3813 | cut into single characters, every answer at all shows the answer minus separators, role markers and whitespace |
| `StreamExactness.BatchReads` | genie-ai-overlay/chatqna/genieai_chatqna.py:3367-3380 | the batch text shows exactly that if and only if it holds no role marker |
| `StreamExactness.CutShowsMore` | genie-ai-overlay/chatqna/genieai_chatqna.py:3761-3798 | cut right before the first stretch that keeps a role marker, an answer shows more than that |
| `StreamCuts.OrdinaryRemovable` | genie-ai-overlay/chatqna/genieai_chatqna.py:1560-1564 | when all whitespace is blanks, tabs and line breaks, no role marker in the batch text is condition enough |
| `StreamCuts.OddWhitespace` | genie-ai-overlay/chatqna/genieai_chatqna.py:1560-1564 | with other whitespace it is not: a carriage return between separator and role marker goes in the batch text and keeps the marker in the stream |
| `StreamCuts.RoleMarkersDependOnTheCut` | genie-ai-overlay/chatqna/genieai_chatqna.py:1560-1564 | a role marker within a line stays when it arrives in one chunk and goes when a chunk starts with it |
| `RoleMarkers.Kept` | genie-ai-overlay/chatqna/genieai_chatqna.py:1564 | a stretch keeps no role marker exactly when each of them stands at a line start or in the whitespace a removed one takes along |
| `RoleMarkers.SeparableClean` | genie-ai-overlay/chatqna/genieai_chatqna.py:1559-1564 | the stretch-by-stretch condition is the same as one left-to-right check of the whole answer |
| `Cleaning.RolelessKeeps` | genie-ai-overlay/chatqna/genieai_chatqna.py:3762-3763 | removing separators and role markers from what has arrived leaves every later role marker as removable as it was |
| `Reading.ViewRoleSub` | genie-ai-overlay/chatqna/genieai_chatqna.py:3763 | removing role markers from a partial buffer changes nothing in the reading of the whole |
| `StreamSeal.NoSeparatorStreamed` | genie-ai-overlay/chatqna/genieai_chatqna.py:1545-1557 | of an answer whose role markers go wherever it is cut, and whose sentinel, with grading, is complete and ends it, no separator is ever put together by the client from pieces emitted at different times |
| `StreamLeak.SealedExactly` | genie-ai-overlay/chatqna/genieai_chatqna.py:1545-1557 | the exact condition, without grading: however an answer is cut the client reads no separator, if and only if no characters of a separator stand in the answer in order with gaps between them, a gap being blanks, a role marker and any run of whitespace, separators and further markers |
| `StreamSeal.UnpiecedStream` | genie-ai-overlay/chatqna/genieai_chatqna.py:3754-3813 | without such pieces no way of cutting the answer puts a separator together, inside one frame or across several |
| `StreamLeak.PiecesLeak` | genie-ai-overlay/chatqna/genieai_chatqna.py:3761-3798 | with them some way does: one chunk up to each gap, one for the gap, which the clean-up removes whole |
| `Pieces.SubstituteReflects` | genie-ai-overlay/chatqna/genieai_chatqna.py:3762-3769 | the three substitutions on a partial buffer bring no pieces of a separator together that were not already in line |
| `Pieces.CleanUnpieced` | genie-ai-overlay/chatqna/genieai_chatqna.py:1559-1564 | an answer whose role markers all go in one left-to-right pass holds no such pieces |
| `StreamCuts.SeparatorPutTogether` | genie-ai-overlay/chatqna/genieai_chatqna.py:1545-1557 | a concrete case: with a role marker between two of its characters, a separator that the answer does not hold is what the client reads |
| `StreamAgreement.SentinelStream` | genie-ai-overlay/chatqna/genieai_chatqna.py:1786-1798 | an answer ending in a well-formed sentinel shows its body only, and every chunking captures the value 0 to 100 |
| `GradedExactness.GradedExactly` | genie-ai-overlay/chatqna/genieai_chatqna.py:3745-3813 | the exact condition with self-grading, for answers without role markers: text and grade come out the same however the answer is cut if and only if its notes, one left-to-right pass, are tidy: nothing visible follows a complete sentinel in range, a sentinel after which no bracket comes is complete and in range with none in progress before it, and no separator follows a complete one whose text before ends in a separator lacking its last character |
| `GradedStream.TidyAgrees` | genie-ai-overlay/chatqna/genieai_chatqna.py:3754-3813 | of a tidy answer every cut shows the batch characters and captures the batch grade, misplaced and malformed sentinels included |
| `GradedExactness.UntidyCut` | genie-ai-overlay/chatqna/genieai_chatqna.py:3777-3810 | of an untidy one some cut, given by the proof, shows other characters than the batch text |
| `GradedStream.ExtractTidy` | genie-ai-overlay/chatqna/genieai_chatqna.py:1885-1906 | taking a complete sentinel out of a partial buffer changes neither what the rest of a tidy answer shows nor the grade it ends with |
| `GradedStream.EmitTidy` | genie-ai-overlay/chatqna/genieai_chatqna.py:3777-3798 | the emitted head is visible as it stands: no sentinel and no separator reaches from it into what is withheld or still to come |
| `Grades.ReadSubstitute` | genie-ai-overlay/chatqna/genieai_chatqna.py:3762-3769 | the substitutions on a partial buffer without role markers leave the notes of the answer as they are, or easier |
| `Grades.Interpret` | genie-ai-overlay/chatqna/genieai_chatqna.py:1885-1906 | the notes of a text without separators say what extraction finds in it, what it leaves, and whether a sentinel is still in progress |
| `StreamAgreement.SettleWhole` | genie-ai-overlay/chatqna/genieai_chatqna.py:3366-3382 | one clean-up pass over a whole proper answer leaves exactly its meaning and leaves no partial sentinel |
| `StreamAgreement.SubstituteKeeps` | genie-ai-overlay/chatqna/genieai_chatqna.py:3761-3769 | the three substitutions on a partial buffer change neither what the finished answer shows nor which of its role markers can be removed |
| `StreamAgreement.ExtractKeeps` | genie-ai-overlay/chatqna/genieai_chatqna.py:1885-1906 | a grade found in a partial buffer is the grade of the finished answer, and what is left reads as its text; without one the buffer is unchanged |
| `StreamAgreement.EmitKeeps` | genie-ai-overlay/chatqna/genieai_chatqna.py:3785-3798 | every marker that the rest of the stream could complete starts inside the withheld tail, so the emitted head reads as itself |
| `StreamAgreement.MarkersWithheld` | genie-ai-overlay/chatqna/genieai_chatqna.py:1656-1692 | no suffix of the buffer longer than the withheld tail begins a separator, a role marker or, with grading, a sentinel |
| `StreamAgreement.AbsorbKeeps` | genie-ai-overlay/chatqna/genieai_chatqna.py:3754-3798 | one loop iteration keeps the invariant: emitted text plus the meaning of buffer and remaining input is the meaning of the answer |
| `StreamAgreement.FlushKeeps` | genie-ai-overlay/chatqna/genieai_chatqna.py:3800-3813 | the final flush turns that invariant into the whole answer |
| `AnswerStream.StreamingMarkerTailLen` | genie-ai-overlay/chatqna/genieai_chatqna.py:1656-1692 | the search over markers and lengths, trailing whitespace first, finds the longest suffix to hold back |
| `AnswerStream.AnswerFilter.Push` | genie-ai-overlay/chatqna/genieai_chatqna.py:3761-3798 | one chunk: what is emitted, what stays buffered and the captured grade; without grading the buffer never exceeds 32 characters |
| `AnswerStream.AnswerFilter.Finish` | genie-ai-overlay/chatqna/genieai_chatqna.py:3800-3813 | the flush of what remains, without a trailing partial sentinel |
| `AnswerStream.StreamAnswer` | genie-ai-overlay/chatqna/genieai_chatqna.py:3745-3813 | the whole token loop: the frames are those of a specification in order, unparseable chunks passed through; the text a client reads agrees with the batch clean-up of a proper answer and of a tidy graded one without role markers, is an unmarked answer with its runs of three and more newlines shortened to two, to the character, and carries no separator of a sound answer or, without grading, of one without its pieces |
| `Layout.UnmarkedStream` | genie-ai-overlay/chatqna/genieai_chatqna.py:3745-3813 | of an answer without separators, role markers and sentinels, stream and batch are, whatever the chunks, that answer to the character with every run of three or more newlines as two and nothing else changed |
| `Layout.CollapseRun` | genie-ai-overlay/chatqna/genieai_chatqna.py:1575-1581 | a run of newlines after other text stays when it is shorter than three and becomes two otherwise, and the rest goes on the same way |
| `Layout.NoLongRun` | genie-ai-overlay/chatqna/genieai_chatqna.py:1575-1581 | afterwards no three newlines stand in a row |
| `Layout.SeparatorReplaced` | genie-ai-overlay/chatqna/genieai_chatqna.py:1558-1560 | a separator with the whitespace around it becomes one line break |
| `Layout.MarkerRemoved` | genie-ai-overlay/chatqna/genieai_chatqna.py:1561-1564 | a role marker at a line start goes with the blanks before it and the whitespace behind it |
| `Layout.LineKept` | genie-ai-overlay/chatqna/genieai_chatqna.py:1561-1564 | a line that does not start with a role marker stays |
| `Layout.SentinelTakenOut` | genie-ai-overlay/chatqna/genieai_chatqna.py:1885-1906 | a complete sentinel in range is taken out, its number read, and what is left stripped at the end |
| `Layout.SentinelFound` | genie-ai-overlay/chatqna/genieai_chatqna.py:1791 | and only that form is one: the literal prefix, one to three digits with whitespace around them, two brackets and whitespace up to the end, with a number up to 100 |
| `Layout.SpaceWithheld` | genie-ai-overlay/chatqna/genieai_chatqna.py:1570-1574 | of trailing whitespace up to 32 characters are held back |
| `TomlRoundTrip.RenderRoundTrip` | _bmad/scripts/setup.py:1524-1548 | loading what the printer prints gives back the same nested table, for all keys and strings: implicit parents rebuilt, empty tables kept, no key under the wrong header |
| `TomlRoundTrip.EscapeAllRoundTrip` | _bmad/scripts/setup.py:1458-1478 | string escaping is inverted exactly, control characters included (TOML v1.0.0, section String) |
| `TomlRoundTrip.KeyRoundTrip` | _bmad/scripts/setup.py:1481-1489 | a printed key, bare or quoted, reads back as that key and nothing after it is consumed |
| `TomlRoundTrip.ValueRoundTrip` | _bmad/scripts/setup.py:1492-1512 | a printed value, lists and inline tables included, reads back as its meaning |
| `TomlRoundTrip.PathRoundTrip` | _bmad/scripts/setup.py:1535-1545 | a printed table header reads back as the path of the table |
| `TomlRoundTrip.TablesLoad` | _bmad/scripts/setup.py:1532-1546 | the sections of all sub-tables load as those tables, each under its own header, and disturb nothing loaded before |
| `Toml.Printer.EmitTables` | _bmad/scripts/setup.py:1532-1546 | the recursive walk appends exactly the section lines of the table to the one shared list |
| `Toml.RenderToml` | _bmad/scripts/setup.py:1524-1548 | the method with its shared line list prints the rendering that the round trip is about |
| `TomlLayout.DocumentIs` | _bmad/scripts/setup.py:1524-1548 | a document is its values, one a line, then one block for each table with a header, a blank line before each header that is not the first line |
| `TomlLayout.SectionsAre` | _bmad/scripts/setup.py:1532-1544 | a header is printed for exactly the tables that hold a value or nothing at all, under their own paths |
| `Installation.LoaderIsFaithful` | _bmad/scripts/setup.py:412-416 | for any set of scalars that holds all strings, the loader modelled here is a library as doctor and setup need it, even one that rejects every document with another scalar |
| `Config.FillKeepFixpoint` | _bmad/scripts/setup.py:1515-1521 | the keep-existing merge changes nothing exactly when the existing table has every key of the template at every level |
| `Config.FillKeepResult` | _bmad/scripts/setup.py:1515-1521 | the merge misses nothing of the template and loses nothing that was configured |
| `Config.FillKeepIdempotent` | _bmad/scripts/setup.py:1515-1521 | merging the same template again changes nothing |
| `Config.FillKeepNewer` | _bmad/scripts/setup.py:1551-1562 | filling an older file from a table that already keeps it gives that table |
| `Config.LookUp` | _bmad/scripts/setup.py:1123-1133 | the walk reports a path as present, missing, or blocked by a value that is no table |
| `Config.SetMissingFills` | _bmad/scripts/setup.py:1225-1246 | an answer can be inserted exactly where the path is missing, and the value looked up there is then that answer |
| `Config.SetMissingElsewhere` | _bmad/scripts/setup.py:1225-1246 | inserting an answer changes neither the value looked up at a path apart nor whether a question there is answered |
| `Config.FillKeepAt` | _bmad/scripts/setup.py:1515-1521 | path by path: a configured value that is no table stays, where nothing is configured the template decides, and behind a configured value that is no table there is nothing |
| `Config.PresenceMeans` | _bmad/scripts/setup.py:1123-1133 | a path is present where it has a value, and blocked where a part of it has one that is no table |
| `Config.SetMissingKeeps` | _bmad/scripts/setup.py:1225-1246 | inserting an answer loses nothing configured and nothing a template asks for |
| `Questions.ClashIsPathClash` | _bmad/scripts/setup.py:619-627 | the textual test on dotted keys says exactly that one path leads to or through the other |
| `Questions.ConflictingKey` | _bmad/scripts/setup.py:619-627 | the loop finds a clashing key exactly when one exists |
| `Questions.AcceptKeys` | _bmad/scripts/setup.py:607-616 | a manifest is accepted exactly when no two of its question paths meet |
| `Questions.ValidateAnswers` | _bmad/scripts/setup.py:1182-1222 | answers are accepted exactly when they answer all pending questions and no other; an answer to none of them is reported whenever there is one, else the first question left out |
| `Questions.PendingMembers` | _bmad/scripts/setup.py:1102-1120 | the pending questions are exactly those whose path is missing |
| `Questions.InsertSucceeds` | _bmad/scripts/setup.py:316-323 | independent pending questions can all be answered in sequence, none in the way of another; each ends with the answer given for it as the value at its path, and every other value stays |
| `Questions.PathOfDotted` | _bmad/scripts/setup.py:316-323 | the path of a question is `modules`, its module and the parts that its key is when joined by dots |
| `Questions.NothingPendingAfterInsert` | _bmad/scripts/setup.py:1102-1120 | after the answers are inserted no question is pending |
| `Installation.AllIndependent` | _bmad/scripts/setup.py:565-617 | the questions of all accepted manifests together have pairwise separate paths |
| `Installation.FillToml` | _bmad/scripts/setup.py:1551-1562 | the filled text means the merged table, and is the existing text to the byte when nothing is missing |
| `Installation.EnsureFile` | _bmad/scripts/setup.py:1439-1450 | a configuration file is created, filled or left as it is; it always means the merge of content under existing |
| `Trees.ReadClosed` | _bmad/scripts/setup.py:1066-1089 | a tree read from disk lists every folder its entries need |
| `Trees.DeclaredClosed` | _bmad/scripts/setup.py:1051-1063 | a declared tree has exactly the parents of its files as folders |
| `Trees.BuiltReads` | _bmad/scripts/setup.py:1390-1403 | a tree written afresh reads back as the tree it was written from |
| `Trees.WriteTree` | _bmad/scripts/setup.py:1396-1403 | creating folders, then files, succeeds exactly when no file stands where a folder is needed, and builds that tree |
| `Trees.ReadRebuilds` | _bmad/scripts/setup.py:1066-1089 | a tree that can be read is exactly what writing the result of the reading builds |
| `Trees.EnsurePlainTree` | _bmad/scripts/setup.py:1390-1403 | a matching tree is left alone; any other is replaced by one that matches |
| `Staging.StageScripts` | _bmad/scripts/setup.py:1362-1369 | setup writes script after script over what is there |
| `Staging.StagedFile` | _bmad/scripts/setup.py:1362-1369 | every declared script is there afterwards with the content declared last for its path |
| `Staging.StagedElsewhere` | _bmad/scripts/setup.py:1414-1436 | what is neither above nor below a declared path stays as it was |
| `Trees.ReadableWritable` | _bmad/scripts/setup.py:657-678 | declared scripts that could all be read as files of one directory never stand where another one needs a folder |
| `Staging.FreshScriptsMatch` | _bmad/scripts/setup.py:1358-1369 | after setup into an empty directory doctor finds the declared tree |
| `Installation.ChangedModules` | _bmad/scripts/setup.py:332-338 | the modules reported as changed are exactly those whose scripts differ from the declaration |
| `Installation.RepairModules` | _bmad/scripts/setup.py:1281-1285 | all modules match afterwards, whatever stood there before, and other directories are untouched |
| `Project.Runtime.Doctor` | _bmad/scripts/setup.py:299-347 | exactly when payload, configuration, answers and module directories are in order it reports: everything is current then, every answer given is the value at the path of its question and every value there before stays, `changed` says whether anything was stale, and exactly the repaired parts are named; otherwise the project is untouched |
| `Project.Runtime.Materialize` | _bmad/scripts/setup.py:1262-1289 | the replacement runtime matches payload and declarations, carries the new configuration or the old file, and keeps every other directory |
| `Project.Runtime.Setup` | _bmad/scripts/setup.py:184-227 | template under existing configuration plus answers, each found at the path of its question; scripts staged; a configured project keeps its file to the byte |
| `Project.DoctorTwice` | _bmad/scripts/setup.py:299-347 | after a doctor run, which put every answer at its question, a second one over the same skills reports no change, finds nothing to repair and leaves configuration, scripts and modules as they were between the runs; it fails, and changes nothing either, exactly when it is given answers, the first ones included |
| `Project.SetupTwice` | _bmad/scripts/setup.py:184-227 | after a setup a second one succeeds exactly without answers, and either way config.toml stays byte-identical; that file has all of the template, all that was configured and, at the path of every question, the answer given |
| `Project.SetupThenDoctor` | _bmad/scripts/setup.py:1349-1370 | after a fresh setup doctor has nothing to do |
| `SemVer.SemverOrder` | _bmad/scripts/setup.py:850-898 | on orderable versions the comparison is negative exactly when the left precedes the right in the order of Semantic Versioning 2.0.0, section 11, stated apart from it; it is a total preorder and ties exactly when core and pre-release agree |
| `SemVer.CompareMeans` | _bmad/scripts/setup.py:830-898 | the same on parsed versions: smaller at the first differing core number, a pre-release before its release, then at the first differing identifier numbers by value, before alphanumerics by ASCII order, a proper prefix before the longer list |
| `SemVer.ParseWritten` | _bmad/scripts/setup.py:45-56 | every version with well-formed identifiers parses back from its text, whatever build metadata follow |
| `SemVer.ParsedIsWritten` | _bmad/scripts/setup.py:45-56 | whatever parses is the text of the version it parses to, with build metadata or without |
| `SemVer.DevUnordered` | _bmad/scripts/setup.py:865-867 | a version with -dev anywhere, in any case, has no place in the order |
| `SemVer.CompareAntisymmetric` | _bmad/scripts/setup.py:850-859 | swapping the versions negates the verdict, for all versions of the grammar |
| `SemVer.CompareTransitive` | _bmad/scripts/setup.py:850-859 | precedence is transitive |
| `SemVer.ComparePrereleaseWalk` | _bmad/scripts/setup.py:879-898 | the pairwise walk over identifiers is negative exactly when the left pre-release precedes the right |
| `SemVer.LeadingZerosBreakTheOrder` | _bmad/scripts/setup.py:45-54 | the order needs the grammar: with leading zeros (excluded by section 9) two spellings of one number would each exceed the other |
| `Selection.Scan` | _bmad/scripts/setup.py:974-984 | the scan ends with exactly the copies that precede no copy, in order, headed by the highest |
| `Selection.TopsHighest` | _bmad/scripts/setup.py:974-984 | the copies of maximal precedence are those that precede no copy |
| `Selection.SelectModule` | _bmad/scripts/setup.py:908-1024 | the decision for one module, branch by branch, failures included |
| `Selection.SelectedExactly` | _bmad/scripts/setup.py:939-1024 | a copy is selected exactly when all contending copies carry the same manifest bytes and scripts |
| `Selection.OrderIrrelevant` | _bmad/scripts/setup.py:908-1024 | listing the copies in another order never turns one selection or refusal into a different one |
| `Selection.OrderMattersExactly` | _bmad/scripts/setup.py:915-1024 | the outcome is the same for every order, failures included, exactly unless a contender is unreadable and two contenders differ, of which it may be one |
| `Selection.TwoCopiesAreEnough` | _bmad/scripts/setup.py:939-957 | two copies show it: of unordered versions and with different manifests, the readable one first blocks the module, the unreadable one first stops the run |
| `Selection.DoctorAndSetupAgree` | _bmad/scripts/setup.py:419-439 | without a version spread what doctor selects setup installs; what setup installs doctor selects exactly when every copy carries those scripts |
| `SuiteCells.SuiteRows` | components/ragas-service/xlsx_io.py:143-157 | one row per entry, numbered from 1 |
| `SuiteCells.ReadRows` | components/ragas-service/xlsx_io.py:231-258 | the reading loop: blank rows silently dropped, rows without a query counted |
| `SuiteCells.OosMeans` | components/ragas-service/xlsx_io.py:106 | a cell is out of scope exactly when it opens, in any case and as whole words, with n/a, na, out of scope with blanks, dashes or underscores, or not applicable with any whitespace between |
| `SuiteCells.RowIdMeans` | components/ragas-service/xlsx_io.py:245-249 | numbers and digits become numbered ids, an empty cell the next number, any other text is the id itself |
| `SuiteCells.CollapseNoBlank` | components/ragas-service/xlsx_io.py:135-139 | after collapsing, no passage holds a blank line |
| `SuiteCells.CollapseTightens` | components/ragas-service/xlsx_io.py:109 | of every blank stretch the collapse leaves the first line break and what follows the last, as a pass character by character does |
| `SuiteCells.SplitJoined` | components/ragas-service/xlsx_io.py:130-140 | splitting joined passages at blank lines gives them back |
| `SuiteCells.SplitGlued` | components/ragas-service/xlsx_io.py:212-216 | parts joined by the sentinel split back exactly when none holds it and none but the last ends in `@` |
| `SuiteCells.SentinelCell` | components/ragas-service/xlsx_io.py:212-218 | the passages of such a cell are its parts, stripped, without the empty ones |
| `SuiteCells.PassagesRoundTrip` | components/ragas-service/xlsx_io.py:210-216 | the written cell splits into exactly the normalized passages if and only if no passage holds the sentinel |
| `SuiteCells.RowRoundTrip` | components/ragas-service/xlsx_io.py:231-258 | a row reads back as its entry, stripped and renumbered, exactly when the entry is plain: sentinel-free and not out-of-scope-looking unless it is |
| `SuiteCells.SuiteRoundTrip` | components/ragas-service/xlsx_io.py:219-259 | entries come back under their row numbers, those without a query are counted as skipped |
| `SuiteCells.ReadAfterWriteSettles` | components/ragas-service/xlsx_io.py:219-259 | a second write and read changes nothing, and ids are new-1 to new-N in order |
| `Memlog.Log.Init` | _bmad/scripts/memlog.py:152-171 | creates the file from the fields, or refuses and leaves it alone |
| `Memlog.Log.Do` | _bmad/scripts/memlog.py:174-203 | append and set rewrite the file and report the count; unreadable files stay untouched |
| `Memlog.RunHolds` | _bmad/scripts/memlog.py:152-203 | after any run of commands the file re-parses to exactly the appended entries, in order, the count is their number, and the i-th entry has the words of the i-th appended label and text |
| `Memlog.InitHolds` | _bmad/scripts/memlog.py:152-171 | a new log reads as one without entries exactly when no line of its keys is a fence |
| `Memlog.AppendHolds` | _bmad/scripts/memlog.py:174-193 | an append adds one entry at the end, whatever line breaks its text has, exactly when its label is on one line; the words of the new entry are the dash, the label and the text |
| `Memlog.AssignHolds` | _bmad/scripts/memlog.py:196-203 | a set keeps the entries exactly when no line of its key is a fence; the value never matters |
| `Memlog.AssignThenRead` | _bmad/scripts/memlog.py:196-203 | after a set the key reads back as the value on one line, `updated` as the stamp, and every other field as before |
| `Memlog.RenderReads` | _bmad/scripts/memlog.py:93-116 | what is rendered splits into the same body and the fields of its lines |
| `Memlog.EntryIsOneLine` | _bmad/scripts/memlog.py:177-186 | an entry is one line with a dash exactly when its label is, and its words are the dash, the words of the label in brackets and all words of the text |
| `Memlog.GrownMeans` | _bmad/scripts/memlog.py:187-189 | the entry comes on a line of its own behind the body, whose line breaks at the end go; a blank body gives way to it |
| `Memlog.LabelMeans` | _bmad/scripts/memlog.py:180-184 | the label is the type, `by` and the author, or both |
| `Memlog.FlatWords` | _bmad/scripts/memlog.py:113-116 | a field value written on one line keeps its words |
| `Memlog.PutKeys` | _bmad/scripts/memlog.py:196-203 | a field that is there keeps its place when set, a new one comes last |
| `Memlog.InitField` | _bmad/scripts/memlog.py:162-168 | an initial field is what stands before the first equals sign with what stands behind it, both stripped; without one it is refused |
| `Memlog.CountIsExact` | _bmad/scripts/memlog.py:135-136 | the count is the number of entries |
| `Memlog.UpdatedStaysLast` | _bmad/scripts/memlog.py:119-122 | after any run of commands the last line of the written file before the closing fence is `updated` with the stamp of the last command |
| `Publish.Place.VerifyExisting` | _bmad/scripts/render_skill.py:279-307 | the comparison output by output accepts exactly the directory that holds this manifest and these outputs |
| `Publish.Place.Publish` | _bmad/scripts/render_skill.py:310-338 | alone: publishes into an absent destination, never touches a present one |
| `Publish.StepKeeps` | _bmad/scripts/render_skill.py:310-338 | every step of any publisher keeps the invariant and leaves a present destination unchanged; one that changes the destination puts its own snapshot there and has returned |
| `Publish.EndsAlone` | _bmad/scripts/render_skill.py:310-338 | the steps of a publisher that nobody disturbs end after so many, and do what the one-publisher method promises: an absent destination becomes its snapshot, a present one stays, and it returned exactly when its files are there |
| `Publish.PresentForever` | _bmad/scripts/render_skill.py:329-335 | under every interleaving, once something is at the destination it stays there unchanged |
| `Publish.AbsentOrComplete` | _bmad/scripts/render_skill.py:317-330 | the destination is as it was at first or one complete snapshot, never a part |
| `Publish.ReturnedPublished` | _bmad/scripts/render_skill.py:310-338 | a publisher that returned leaves its own outputs and manifest there from then on |
| `Publish.StagingLeft` | _bmad/scripts/render_skill.py:317-338 | whatever stays in a staging directory is a part of its own publisher's snapshot, and an ended publisher leaves none unless its clean-up failed |
| `Publish.ReturnedAgree` | _bmad/scripts/render_skill.py:310-338 | any two publishers that returned wanted the same files |
| `Publish.SameFilesAccepted` | _bmad/scripts/render_skill.py:279-307 | the verification never turns away a publisher whose files are the ones there |
| `Jwks.Cache.Begin` | genie-ai-overlay/chatqna/keycloak_token_validator.py:89-94 | the fast path without the lock |
| `Jwks.Cache.Resume` | genie-ai-overlay/chatqna/keycloak_token_validator.py:94-103 | the second look under the lock, then the request |
| `Jwks.Cache.Receive` | genie-ai-overlay/chatqna/keycloak_token_validator.py:103-110 | the reply: the globals are set or left, and the client starts to close with the lock still held |
| `Jwks.Cache.Finish` | genie-ai-overlay/chatqna/keycloak_token_validator.py:94-119 | the client has closed or failed to: keys are returned, or cached ones on any error, and the lock is released on every path |
| `Jwks.OneFlightAndSpaced` | genie-ai-overlay/chatqna/keycloak_token_validator.py:85-119 | under every interleaving one request at most is in flight, and none starts within 300 seconds of the start of one that brought keys |
| `Jwks.KeysSurvive` | genie-ai-overlay/chatqna/keycloak_token_validator.py:101-112 | cached keys are lost exactly when a reply carries none; a failed refresh serves the old ones, however its client closes |
| `Jwks.ServedWhileFresh` | genie-ai-overlay/chatqna/keycloak_token_validator.py:90-101 | over every interleaving, keys are served without a request exactly while less than 300 seconds have passed since the start of the last request that set them, and that one brought some |
| `Jwks.NoKeysReply` | genie-ai-overlay/chatqna/keycloak_token_validator.py:103-119 | a reply with an empty list serves it, one that says null fails its caller, and both leave no keys cached |
| `Jwks.WaitersShare` | genie-ai-overlay/chatqna/keycloak_token_validator.py:94-98 | callers that waited for a request are served its keys without another one, even if its client fails to close |
| `Jwks.LockFollowsFlight` | genie-ai-overlay/chatqna/keycloak_token_validator.py:94-119 | the lock is held exactly while a request is in flight or its client closes |
| `Jwks.CancelledAfterFetch` | genie-ai-overlay/chatqna/keycloak_token_validator.py:103-110 | a caller cancelled while its client closes leaves the fetched keys to all others and no lock behind |
| `ModelCache.Cache.CachedField` | genie-ai-overlay/core/model_cache.py:137-203 | one call, with its hits, negative hits, probes and stubs |
| `ModelCache.AnswersFromLatest` | genie-ai-overlay/core/model_cache.py:137-203 | in every reachable state a call answers with its field of the latest probe that carried an id, so id and window come from one payload |
| `ModelCache.IdNeverLost` | genie-ai-overlay/core/model_cache.py:186-203 | once an id was found it is never reported missing again |
| `ModelCache.ProbesSpaced` | genie-ai-overlay/core/model_cache.py:152-203 | window probes of one endpoint are at least min(ttl, 60) seconds apart, whatever else happens between them |
| `ModelCache.ProbesBounded` | genie-ai-overlay/core/model_cache.py:152-203 | so in every run n window probes of one endpoint span at least n - 1 of the shortest such gaps |
| `ModelCache.ProbesExactly` | genie-ai-overlay/core/model_cache.py:137-203 | in every reachable state a call probes exactly when the endpoint last answered with an id at least its time to live ago or never, and, asked for the window, no window probe failed since within a minute |
| `ModelCache.SpellingsAgree` | genie-ai-overlay/core/model_cache.py:97-118 | a whole number is the same number as JSON integer, float or digit string |
| `ModelCache.ParseReads` | genie-ai-overlay/core/model_cache.py:97-118 | a sign counts as such, whitespace around a number and underscores between its digits do not |
| `ModelCache.CoerceMaxModelLen` | genie-ai-overlay/core/model_cache.py:121-134 | a window is positive, at most ten million, and the number that was sent; it is dropped exactly when that number is none or out of this range |
| `Jobs.Registry.StartJob` | components/ragas-service/app.py:166-199 | reap, count, admit or refuse |
| `Jobs.Registry.SpawnJob` | components/ragas-service/app.py:279-280 | the coroutine is created only after the entry, which it looks up to record its task |
| `Jobs.Registry.BeginJob` | components/ragas-service/app.py:241-245 | the first step of the coroutine, which looks its entry up |
| `Jobs.Registry.EndJob` | components/ragas-service/app.py:246-276 | how a coroutine ends is recorded with its time |
| `Jobs.Registry.CancelJob` | components/ragas-service/app.py:298-321 | a cancellation marks the job and its coroutine, when there is one that is not over |
| `Jobs.RunKeeps` | components/ragas-service/app.py:166-280 | under every interleaving at most MAX jobs are queued or running, a finishing time marks exactly the terminal ones, and no lookup misses |
| `Jobs.TerminalStable` | components/ragas-service/app.py:166-172 | a terminal entry never changes, and an entry goes exactly when a submission finds that it finished, other than at time zero, longer ago than its time to live |
| `Jobs.RunExplains` | components/ragas-service/app.py:246-276 | over every interleaving a job is done with the result its coroutine returned, cancelled because that was stopped and failed because it broke, and finished when that happened |
| `Jobs.CancelMeans` | components/ragas-service/app.py:300-321 | a cancellation stops exactly a queued or running job whose coroutine exists and is not over, and changes nothing else |
| `Jobs.DoomedByEarlyCancel` | components/ragas-service/app.py:304-307 | a job can only get stuck by a cancellation between its creation and its first step |
| `Jobs.EndsUnlessDoomed` | components/ragas-service/app.py:241-276 | a job can still reach a terminal status exactly when that did not happen to it |
| `Jobs.SlotsLost` | components/ragas-service/app.py:173-178 | as many stuck jobs as there are slots refuse every later submission |
| `Regions.SplitRegions` | components/pii-service/app.py:248-280 | the splitting loop with its two searches |
| `Regions.SplitTiles` | components/pii-service/app.py:248-280 | the regions tile the text exactly, are non-empty and at most max_chars long; each but the last is cut at the last line break of its window, without one at the last space, without either at the end of the window |
| `Regions.PartsAreWhole` | components/pii-service/app.py:398-415 | redacting region by region and joining equals redacting the whole text at the translated replacements |
| `Regions.RedactReplaces` | components/pii-service/app.py:399-406 | redaction on the text itself: what stands around a hit stays, the hit becomes `[PII:` with its kind and `]`, and the rest is redacted at the remaining hits |
| `Regions.HitsInPlace` | components/pii-service/app.py:407-411 | the hits reported are exactly those of the regions, each moved by the offset of its region |
| `Regions.SameCharacters` | components/pii-service/app.py:407-411 | moved, a hit covers the same characters of the text |
| `Regions.Scan` | components/pii-service/app.py:394-434 | the scan of one text: the analyzer's hits at their place in the text, their counts by kind, and the text redacted at exactly the hits the anonymizer chose, all of them if it leaves out none |
| `Merge.MergeArrays` | _bmad/scripts/config_utils.py:59-78 | the two loops with their index by key |
| `Merge.OverlayIds` | _bmad/scripts/config_utils.py:64-78 | a keyed merge has the base identifiers in base order, then the new ones in first-appearance order |
| `Merge.OverlayDistinct` | _bmad/scripts/config_utils.py:64-78 | its identifiers are distinct exactly when the base identifiers are |
| `Merge.OverlayBinds` | _bmad/scripts/config_utils.py:70-78 | each identifier is bound to its last override, else to its last base item |
| `Merge.UnkeyedAppends` | _bmad/scripts/config_utils.py:59-62 | arrays that share no identifier are appended, the overriding one behind |
| `Merge.KeyedMerges` | _bmad/scripts/config_utils.py:40-56 | arrays of tables that all have a code, or else all an id, merge by it when each is a non-empty string and are an error otherwise |
| `Merge.OverlayAt` | _bmad/scripts/config_utils.py:64-78 | in the place of a base item stands the last override with its identifier, if it is the last base item with that one and there is such an override, else the item itself |
| `Merge.MergeOther` | _bmad/scripts/config_utils.py:81-92 | two arrays merge as arrays, and anything but two tables or two arrays is replaced |
| `Merge.MergeFails` | _bmad/scripts/config_utils.py:81-92 | a merge fails exactly when somewhere two arrays with an invalid identifier meet |
| `Merge.MergeLayers` | _bmad/scripts/config_utils.py:95-99 | the fold over the layers, or the error of the first bad one |
| `Merge.MergeAtPath` | _bmad/scripts/config_utils.py:81-92 | merging and looking up a path is looking it up on both sides and merging |
| `Merge.LastLayerWins` | _bmad/scripts/config_utils.py:95-99 | a scalar path resolves to the last layer that defines it, when its parents are tables in every layer that has them |
| `Confidence.ConfidenceBetween` | genie-ai-overlay/chatqna/genieai_chatqna.py:1754-1768 | the confidence lies between the least and the greatest score |
| `Confidence.Chebyshev` | genie-ai-overlay/chatqna/genieai_chatqna.py:1766-1768 | the weighted sum of falling scores is at least its share of the plain sum |
| `Confidence.NeverBelowMean` | genie-ai-overlay/chatqna/genieai_chatqna.py:1754-1768 | for scores in descending order the confidence is never below their flat mean |
| `Confidence.NoDecayIsMean` | genie-ai-overlay/chatqna/genieai_chatqna.py:1765-1768 | without decay it is the flat mean |
| `Confidence.CalibratedRange` | genie-ai-overlay/chatqna/genieai_chatqna.py:1726-1751 | sigmoid scores lie between 0 and 1, overflow included |
| `Confidence.CalibrateMonotone` | genie-ai-overlay/chatqna/genieai_chatqna.py:1726-1751 | calibration keeps the order of numeric scores |
| `Confidence.CalibrateMeans` | genie-ai-overlay/chatqna/genieai_chatqna.py:1726-1751 | each score by its equation: itself without the sigmoid, 0 when it is no number, else the value that times 1 + exp(-score / temperature) is 1, a temperature of 0 read as 1, and the limit where the exponential overflows |
| `Confidence.WeightDecays` | genie-ai-overlay/chatqna/genieai_chatqna.py:1767 | for the factor exp(-decay) the weight of rank n is exp(-decay * n) |
| `Confidence.WeightPowers` | genie-ai-overlay/chatqna/genieai_chatqna.py:1767 | weights are powers: that of two ranks added is the product of theirs |
| `Confidence.RankedFromFront` | genie-ai-overlay/chatqna/genieai_chatqna.py:1766-1768 | with a best document added at the front the old confidence counts q times its weight beside the new score; of one score it is that score; the weights sum to the geometric series |
| `SourceAssembly.MergeText` | genie-ai-overlay/chatqna/genieai_chatqna.py:3561-3572 | the text of a duplicate goes to the source of its file |
| `SourceAssembly.AssembleSources` | genie-ai-overlay/chatqna/genieai_chatqna.py:3534-3699 | the assembly loop: sources, confidence over the collected scores, and grounded exactly when there are sources |
| `SourceAssembly.AssembledIs` | genie-ai-overlay/chatqna/genieai_chatqna.py:3541-3679 | sources, scores and files are those of the items that count: one source per file at first appearance, with every served text of the file in order |
| `SourceAssembly.AssembledPresents` | genie-ai-overlay/chatqna/genieai_chatqna.py:3541-3679 | every source shows the first item of its file that counts: its score, name and labels, its own address only for a crawled page, and for a concept its id with blanks for underscores |
| `SourceAssembly.ServedJoined` | genie-ai-overlay/chatqna/genieai_chatqna.py:3556-3572 | the text of a source is every served text of its file, in order, with line breaks between |
| `SourceAssembly.ResolvableMeans` | genie-ai-overlay/chatqna/genieai_chatqna.py:3628-3643 | a file without metadata can still be surfaced exactly when the name of its graph starts with OKF_ |
| `SourceAssembly.SourcesAndScores` | genie-ai-overlay/chatqna/genieai_chatqna.py:3541-3679 | sources and scores are empty together, and document ids are distinct |
| `SourceAssembly.GroundedExactly` | genie-ai-overlay/chatqna/genieai_chatqna.py:3515-3699 | an answer is grounded exactly when some displayed document has a file that could be resolved |
| `SourceAssembly.ConfidenceOfSources` | genie-ai-overlay/chatqna/genieai_chatqna.py:3681-3699 | with documents in the reranker order the confidence is 0 without sources, else within the range of the scores that count and not below their mean |
| `SourceAssembly.CalibrationIsMonotone` | genie-ai-overlay/chatqna/genieai_chatqna.py:1726-1751 | the calibration of the service keeps the order of the reranker |
| `SourceAssembly.ServiceConfidence` | genie-ai-overlay/chatqna/genieai_chatqna.py:3681-3699 | with sigmoid scores at a temperature that is not negative the confidence lies between 0 and 1 and, with sources, is never below the mean of the scores |

## Left out

- Streaming: equality with the batch text down to whitespace is stated for answers without markers; with markers the code does not promise it.
- GradedExactness.GradedExactly: speaks of answers without role markers; with role markers and self-grading `Proper` is sufficient, and not necessary, because text behind a sentinel's prefix stays in the buffer, role markers and all, until a bracket comes.
- StreamLeak.SealedExactly: speaks of the stream without self-grading; with it `NoSeparatorStreamed` gives a sufficient condition.
- Streaming: decoding of chunks and recognition of usage-only frames; chunks arrive already classified, and the batch side's check for a text that is one usage frame is not modelled.
- Streaming: the captured grade is the number from 0 to 100; the original divides it by 100.
- Digits in sentinels, versions, ids and numbers are ASCII; `\d`, `isdigit` and `int` accept more of Unicode.
- TOML: the loader reads what the printer writes (comments, multi-line strings, literal strings, dotted keys and arrays of tables are not part of it); other documents enter through the library parameter of the commands. Floats and date-times are kept as the text they are written with. A nesting depth at which the library gives up is not modelled.
- Setup: the output folder, the `custom` directory, project names in templates and defaults, the `bmad_copy` part of the report, and the plain list of version spreads.
- Project.Runtime.Setup: a module directory that is a link is an error here; the original writes through it.
- Project.Runtime.Doctor: the report that setup is required, when the project has no `_bmad` directory, and the blocked and spread statuses of single modules, which `Selection` decides.
- Project.Runtime.Materialize: errors of the file system, after which the original removes the replacement and keeps the old runtime.
- Questions.ValidateAnswers: of several answers to no pending question the original reports the first in order; here it is any of them.
- SetMissing: works on values and returns the new table; the nested dictionaries of the original are updated in place.
- FillKeep: JSON-like nulls inside configuration tables do not exist in TOML and are not modelled.
- File systems: permissions, partial writes, fsync, link targets and directories without files; renames and replacements are atomic.
- Selection: discovery and grouping of copies by directory, and the name of the copy that is reported as selected, which does depend on their order.
- Spreadsheets: styles, sheet choice, floats, dates and booleans in cells, and the results workbook.
- SuiteCells.OosLike: letter case beyond ASCII and word characters beyond ASCII.
- Memlog: reading through universal newlines; the files the tool writes hold no carriage return.
- Publish: sources, tokens and hashing; digests are assumed collision-free and a written manifest to parse back (`Sound`).
- Jwks: token validation, key lookup, and event loops other than one; a lock may be granted at any later time here.
- ModelCache: concurrent callers of one endpoint; calls follow one another.
- Jobs: error texts, progress counters and the waiting loop of a cancellation; ids are never reused.
- Regions: the analyzer and the anonymizer; hits are whatever the analyzer reports, and of a region's hits the anonymizer replaces an ordered choice without overlap, each by the mark of its kind.
- Regions.PartsAreWhole: speaks of such choices; hits that are out of order or overlap are resolved before it.
- Merge: which of several invalid identifiers is reported.
- SourceAssembly: provenance fields of concept sources beyond the mark itself, and label shapes; a metadata lookup is whatever the repository answers at that item.
- Confidence: floating-point rounding; `exp(-decay)` is a factor between 0 and 1, and the exponential is any positive rising function that overflows only above its values.
