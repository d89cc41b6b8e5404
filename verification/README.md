# Verified models of the build pipeline's algorithms and protocols

This project models the parts of the build pipeline where a mistake would be hard to see: byte formats, fast
algorithms that must agree with slow ones, protocols between processes, and procedures that change a checkout, a
remote or a consumer's folder step by step. Each module follows one source file. Code that works by changing things
is a method or a class here, proved equal to a specification function, and the properties are proved of that
function; code made of expressions is functions.

`dafny verify dfyconfig.toml` checks the whole project.

| part | modules |
|---|---|
| PNG codec, checksum and strip cutter | `Crc32`, `Png`, `PngMeaning`, `PngCodec`, `PngTiler` |
| rolling-hash token scanner | `TokenScan` |
| unpacking of the shipped Git by concurrent processes, and its shell quoting | `ShippedGit`, `ShellQuote` |
| lifetime and minting of delegated credentials | `Delegation` |
| ELF reader and interpreter rewrite | `Elf`, `ElfLayout`, `ElfMeaning`, `ElfObject` |
| layered topological sort and its two uses | `LayeredOrder`, `PublishOrder`, `TrackerOrder` |
| packed import closure | `PackedResolver`, `ClosureWalk`, `ClosureReports` |
| release procedure | `ReleaseProcedure` |
| packed-path patterns and listing | `PackedPattern`, `PackedContents` |
| staged assets and their ledger | `Staging` |
| pending changelog, fragments and release cut | `Headings`, `Changelog`, `ChangelogFragment`, `ChangelogRelease` |
| one tick of the hosted dispatcher | `DispatcherTick` |
| memoised walk of the reducers' types | `ReducerShapes` |
| shared notions | `Wrappers`, `Bytes`, `Text`, `Decimal` |

## Where the code and its promises part

The model keeps the code as it is. Each of these is a lemma with a concrete input, beside the exact condition under
which the promise holds.

- **Shipped Git** (shipped-git.ts:106-108 says the loser of the rename keeps the winner's tree). From a free or complete
  root a process comes to remove the root exactly when some loser of the rename fails to read the marker on its second
  look (`RemovalIffUnreadable`, `UnreadableMarkerLosesTree`). Without any failure two processes can end with the tree
  gone exactly over a stale root, which holds something but not this hash (`LosesIffStale`, `StaleRootLosesTree`). A
  temporary directory stays behind exactly when its own clean-up fails (`LeftIffCleanupFails`).
- **Delegation.** For a harvest claim without an execution the fact index is asked for an execution named `undefined`.
  The two evaluators agree over every log and time exactly for the claims that name their execution, have an anchor
  below one, or are a runner's with a session or without a lease holder (`HarvestAgreement`, `HarvestDisagreement`).
  The facts do not record whether the folded order was dense; density is a requirement, as the log's own contract says.
- **Layered sort.** With a name that occurs twice the sort can report a cycle where there is none
  (`RepeatedNameThrows`). It returns exactly when the candidates have a layering (`ReturnsIffLayering`), and for
  distinct names that is exactly when there is no cycle (`ThrowsIffCycle`).
- **Fresh ticket ids** never meet each other but can meet a build's own id (`FreshIdsDistinct`, `FreshIdMeetsBuild`).
  All ids are distinct exactly when the builds' are and none of the fresh numbers, one for each ticket without a build,
  spells one of them (`IdsDistinctIff`); then, with each real ticket seeded once, seeding throws exactly over a cycle
  (`NamesDistinctIff`, `SeedingThrows`).
- **Closure findings** are dropped as duplicates by a text joined with `|`, so one key's only finding can be lost behind
  another's (`LostFinding`). All findings survive exactly when no two differ only behind that text
  (`AllSurviveIffUnambiguous`), which is so when no exports key and no packed path contains a `|` (`NoBarsNoLoss`).
  Whether there is any finding at all is never affected (`NoFindingsIffComplete`).
- **Release.** A run that does not push leaves the checkout as it found it exactly when the gates left alone what its
  ending does not put back (`SameIffLeftAlone`). HEAD is put back only when a gate is seen to have changed the worktree,
  so a gate that commits escapes (`CommittingGate`); tags are never put back, except that the release's own is deleted;
  and when a gate's effect cannot be inspected (Git fails, or the gate deleted a version file) only the version files
  are put back (`UninspectedSameIff`, `UninspectedGate`).
- **Staging** checks every collision before it changes anything (deploy-build.ts:102-103), but a consumer's file that
  stands where an asset, or a stale path, needs a directory is not a collision: staging then stops half way
  (`StopsMidwayIff`, `JammedIffInRun`, `StopsMidway`, `RemovalStops`), and what it left is taken for the consumer's from
  then on (`LeftoverRefused`). A consumer's edit of one of the two files Next amends, made while a build runs, is taken
  for the build's (`AmendClaims`).
- **Changelog.** The cut releases the merged entries whole exactly when none of their lines reads as a heading
  (`ReleasesWholeIff`). A fragment's title may hold a line separator, which hides such a line (`FragmentWithHeading`),
  and trimming the pending body can turn an indented `##` line into one (`TrimmedHeading`); these are the only ways
  (`BodyFree`, `EntriesFree`).
- **Dispatcher.** A step that throws an error with an empty message is reported as ticked (`TickedIff`,
  `EmptyMessageTicks`).

## Model

| member | source | states |
|---|---|---|
| Crc32.ShiftsLinear | tools/website-capture-png.ts:113-117 | any number of table-construction shifts is linear over exclusive or |
| Crc32.ShiftsFeedBits | tools/website-capture-png.ts:113-119 | mixing up to 32 message bits into the register and then shifting is feeding them one at a time |
| Crc32.TableStep | tools/website-capture-png.ts:119 | one table look-up takes in exactly the eight bits of one byte |
| Crc32.MakeTable | tools/website-capture-png.ts:113-117 | the table built by the loop holds at every index that index's eight shifts |
| Crc32.Step | tools/website-capture-png.ts:119 | the loop body equals feeding the byte bit by bit, least significant bit first |
| Crc32.Compute | tools/website-capture-png.ts:110-121 | for every byte sequence the table-driven checksum equals the bit-at-a-time CRC-32 of RFC 2083 section 3.4 |
| Crc32.WordBound | tools/website-capture-png.ts:120 | the checksum fits an unsigned 32-bit field |
| Crc32.GeneratorTerms | tools/website-capture-png.ts:113-119 | the constants of the table and the register are the generator polynomial of the CRC-32 standard, term by term and reflected, and all ones |
| Bytes.U32RoundTrip | tools/website-capture-png.ts:46-53 | a big-endian 32-bit field reads back as the number written |
| Png.UnfilterFilter | tools/website-capture-png.ts:82-94 | each of the five filters, on every row and row above, is undone byte for byte |
| Png.ReadScanlines | tools/website-capture-png.ts:77-97 | filtered rows, whatever filter each uses, are rebuilt exactly |
| Png.ReadRowsStrided | tools/website-capture-png.ts:74-97 | a successful read gives as many rows as the header says, each as long as the stride |
| Png.ReadAncillary | tools/website-capture-png.ts:64-66 | every chunk before the image data that is not the palette is carried along verbatim, in order |
| Png.ReadFile | tools/website-capture-png.ts:44-70 | the chunk loop finds header, ancillary chunks and image data of any well-framed file |
| Png.GatheredChunks | tools/website-capture-png.ts:44-70 | whatever file is read, what the chunk loop gathered is well formed |
| Png.RoundTrip | tools/website-capture-png.ts:34-99 | decoding an encoded file gives the same width, colour type, rows and ancillary chunks, whatever filter is chosen per row |
| Png.DecodedWellFormed | tools/website-capture-png.ts:34-99 | any image the decoder returns, from any bytes, has a known colour type and strided rows |
| Png.ChunkChecksum | tools/website-capture-png.ts:123-131 | every framed chunk ends in the reference CRC-32 of its type and data |
| PngMeaning.NamesSpelled | tools/website-capture-png.ts:9-64 | the signature and the chunk types are the standard's, spelt in ASCII |
| PngMeaning.ChannelsMean | tools/website-capture-png.ts:10 | a colour type is supported exactly when it has no palette bit, and then has one channel, or three with the colour bit, and one more with the alpha bit |
| PngMeaning.PaethNearest | tools/website-capture-png.ts:101-107 | the predictor is the nearest of left, above and upper left to left + above - upper left, ties going to left and then above |
| PngMeaning.PredictorMeans | tools/website-capture-png.ts:82-93 | the five filters predict exactly nothing, left, above, the mean rounded down, and that nearest one |
| PngMeaning.ReadIff | tools/website-capture-png.ts:44-71 | the chunk loop gives a result exactly when the file is chunks up to an IEND that hold it: the last supported header, the data of every IDAT in order, and every chunk before the first IDAT that is no header or palette |
| PngMeaning.HeaderRefused | tools/website-capture-png.ts:51-58 | a header is refused exactly for sizes past the file, then its depth, its interlacing and its colour type, missing bytes included |
| PngMeaning.DecodedIff | tools/website-capture-png.ts:34-99 | decoding gives an image exactly when the file is signature and chunks that hold its header and carried chunks, and every byte of every row is the coded byte plus its filter's prediction modulo 256, unknown filters and short data excluded |
| PngMeaning.EncodedHeader | tools/website-capture-png.ts:179-186 | the header chunk written holds both sizes big-endian, eight bits a sample, the colour type, and zero for compression, filter method and interlacing |
| PngCodec.BestOf | tools/website-capture-png.ts:146-173 | the chosen filter is the first with the least sum of absolute signed residuals |
| PngCodec.TryFilter | tools/website-capture-png.ts:149-168 | a candidate buffer is overwritten with the filtered row, and its score is the row's |
| PngCodec.ChooseFilter | tools/website-capture-png.ts:146-173 | the winner of the five is the specified one, and its buffer holds the row filtered by it |
| PngCodec.FilterRows | tools/website-capture-png.ts:141-178 | the output buffer is filled with every row under its best filter, or the first row of a wrong length is named |
| PngCodec.EncodePng | tools/website-capture-png.ts:133-191 | the encoder throws exactly for an unknown colour type or a row that is not the stride long, and otherwise returns the specified file |
| PngCodec.RebuildRow | tools/website-capture-png.ts:81-94 | rebuilding in place, each byte from those just written, undoes the filter |
| PngCodec.RebuildRows | tools/website-capture-png.ts:75-97 | the row loop equals the specified read, unknown filters included |
| PngCodec.GatherChunks | tools/website-capture-png.ts:39-70 | the chunk loop over offsets equals the specified one over the remaining bytes, errors included |
| PngCodec.DecodePng | tools/website-capture-png.ts:34-99 | the imperative decoder equals the specified one on every input |
| PngTiler.TopClosedForm | tools/website-capture-png.ts:202-214 | where every strip starts, without running the loop |
| PngTiler.StripsPartition | tools/website-capture-png.ts:202-215 | strips are contiguous, not empty, differ in height by at most one row and cover the image |
| PngTiler.StartCount | tools/website-capture-png.ts:198 | the first count tried is the least, from two on, whose share of the file fits the limit |
| PngTiler.TryCount | tools/website-capture-png.ts:202-216 | a try succeeds exactly when every strip of that count fits, and then holds all of them in order |
| PngTiler.TilePng | tools/website-capture-png.ts:195-218 | nothing within the limit; else the least count that fits, from the starting count on, with its strips; else the exception, and then no count fits |
| PngTiler.StripDecodes | tools/website-capture-png.ts:206-213 | each strip decodes to its own rows with the whole image's width, colour and ancillary chunks |
| PngTiler.StripsRebuild | tools/website-capture-png.ts:205-214 | the rows of all strips, one after another, are the rows of the original |
| TokenScan.RollPolynomial | tools/chatgpt-live-proof.ts:77-81 | the 32-bit wrapping hash is the polynomial's value modulo 2^32 |
| TokenScan.SignedMeans | tools/chatgpt-live-proof.ts:79 | the signed product is the one 32-bit number congruent to it |
| TokenScan.RollDrop | tools/chatgpt-live-proof.ts:98-100 | subtracting the weighted first byte leaves the hash of the rest of the window |
| TokenScan.Slide | tools/chatgpt-live-proof.ts:99-101 | after every byte the running hash is the hash of the current window |
| TokenScan.ComputeRoll | tools/chatgpt-live-proof.ts:77-81 | the loop computes the specified hash |
| TokenScan.LeadingWeight | tools/chatgpt-live-proof.ts:98 | the loop computes the weight of the byte that leaves the window |
| TokenScan.HitsAreOccurrences | tools/chatgpt-live-proof.ts:95-105 | every occurrence is a hit; without digest collisions every hit is an occurrence |
| TokenScan.ScanWithTail | tools/chatgpt-live-proof.ts:111-115 | scanning the carried tail and the next read finds exactly what the longer stream has and the shorter had not |
| TokenScan.KeepReached | tools/chatgpt-live-proof.ts:90-115 | the carried tail is one byte shorter than the longest token, and nothing without tokens |
| TokenScan.TailOfTail | tools/chatgpt-live-proof.ts:113-115 | carrying the tail of a tail is carrying the tail of the whole stream |
| TokenScan.Scanner.ScanOne | tools/chatgpt-live-proof.ts:96-104 | `found` is set exactly when some window passes both tests |
| TokenScan.Scanner.Scan | tools/chatgpt-live-proof.ts:95-105 | `found` is set exactly when some needle hits anywhere in the buffer |
| TokenScan.Scanner.File | tools/chatgpt-live-proof.ts:106-117 | in every outcome `found` says whether a needle hits in the reads before the one that stopped it, across read boundaries; it throws exactly at a failed read, a passed deadline or the size limit |
| TokenScan.Scanner.Run | tools/chatgpt-live-proof.ts:95-127 | the verdict is a pass exactly when nothing threw, nothing was found and the expected process was seen |
| TokenScan.ProveExclusion | tools/chatgpt-live-proof.ts:84-127 | a pass means no token occurs in the environment or in any readable file; without digest collisions a completed run passes exactly then |
| ShippedGit.StepKeeps | packages/hosted-dispatcher/src/shipped-git.ts:109-151 | every operation of every process, failed or not, keeps the invariant unless it is a failed second look at the marker after a collision; a complete root stays as it is |
| ShippedGit.RunSafe | packages/hosted-dispatcher/src/shipped-git.ts:109-151 | along every interleaving of any number of processes a complete root stays exactly as it is, and a free one stays as it is or becomes the whole tree with its marker |
| ShippedGit.FinishedWell | packages/hosted-dispatcher/src/shipped-git.ts:109-151 | no process reaches the removal of the root; one that returned leaves the complete root it found, or the whole tree; one that met no failure returns; complete means that the marker holds this shipment's hash (`CompleteIsHash`) |
| ShippedGit.RemovalIffUnreadable | packages/hosted-dispatcher/src/shipped-git.ts:119-147 | from a free or complete root, a run reaches the removal of the root exactly when a loser of the rename fails to read the marker |
| ShippedGit.LeftIffCleanupFails | packages/hosted-dispatcher/src/shipped-git.ts:126-150 | over any root, a finished process has left its temporary directory exactly when its clean-up failed while it was there |
| ShippedGit.RunsAreBounded | packages/hosted-dispatcher/src/shipped-git.ts:126-150 | no run is longer than the work there was at its start |
| ShippedGit.NeverStuck | packages/hosted-dispatcher/src/shipped-git.ts:126-150 | a process that has not finished can always take its next step |
| ShippedGit.StaleRootLosesTree | packages/hosted-dispatcher/src/shipped-git.ts:137-147 | over a stale root two processes without a failure can end with one returned and the tree gone |
| ShippedGit.LosesIffStale | packages/hosted-dispatcher/src/shipped-git.ts:109-151 | two processes without a failure can end with one returned and the tree gone exactly when the root holds something and its `.complete` file is missing or holds another hash |
| ShippedGit.AloneLeavesHash | packages/hosted-dispatcher/src/shipped-git.ts:109-151 | a process alone and without a failure, over any root, returns with `.complete` holding its hash: over the root it found if that held it, and otherwise over the whole tree in its place |
| ShippedGit.WholeMeans | packages/hosted-dispatcher/src/shipped-git.ts:131-136 | the whole tree is the source with the executable bit also on what the manifest lists, the shim as an executable at `shim/git`, and the hash at `.complete` |
| ShippedGit.UnreadableMarkerLosesTree | packages/hosted-dispatcher/src/shipped-git.ts:119-147 | from an absent root a single failed marker read removes the winner's tree |
| ShellQuote.QuoteReadsBack | packages/hosted-dispatcher/src/shipped-git.ts:254-256 | the shell reads a quoted value back as one word, exactly that value, whatever it contains |
| Delegation.BuildFactsMean | packages/hosted-store-service/src/delegated-authority.ts:40-53 | over the folded facts of any dense build log the indexed answer is the declarative lifetime of the claim |
| Delegation.HarvestFactsMean | packages/hosted-store-service/src/delegated-authority.ts:54-79 | the same for harvest claims over a repository log |
| Delegation.FoldBuildFacts | packages/core/src/kernel/service-facts.ts:31-143 | the folded terminals are exactly the terminal events of the log, with their positions and times |
| Delegation.FoldBuildSession | packages/core/src/kernel/service-facts.ts:31-143 | a session's folded starts and endings are exactly those of the log |
| Delegation.FoldHarvestAuthorization | packages/core/src/kernel/service-facts.ts:31-143 | the folded authorization is the first one in the log, if there is any |
| Delegation.FoldHarvestReleases | packages/core/src/kernel/service-facts.ts:31-143 | the folded release times of an execution are exactly those of the log |
| Delegation.FoldHarvestEndings | packages/core/src/kernel/service-facts.ts:31-143 | the folded endings of a run are exactly those of the log |
| Delegation.BuildStatus | packages/core/src/kernel/reducer.ts:822-930 | a build is done or aborted exactly when its log holds a terminal event |
| Delegation.EvaluateBuildLifecycle | packages/hosted-store-service/src/delegated-authority.ts:92-118 | replaying a build log answers the declarative lifetime of the claim |
| Delegation.EvaluateHarvestLifecycle | packages/hosted-store-service/src/delegated-authority.ts:119-187 | replaying a repository log answers the declarative lifetime of the claim |
| Delegation.CheckBuildAgreement | packages/hosted-store-service/src/delegated-authority.ts:18-118 | for every build claim, log and time the two evaluators agree |
| Delegation.HarvestAgreement | packages/hosted-store-service/src/delegated-authority.ts:54-182 | for a harvest claim they agree over every log and time exactly when the claim names its execution, has an anchor below one, or is a runner's with a session or without a lease holder |
| Delegation.HarvestDisagreement | packages/hosted-store-service/src/delegated-authority.ts:56-72 | the log in which they differ |
| Delegation.BuildEndingDurable | packages/hosted-store-service/src/delegated-authority.ts:16-17 | a build delegation once active and later inactive stays inactive at every later extension and time |
| Delegation.HarvestEndingDurable | packages/hosted-store-service/src/delegated-authority.ts:16-17 | the same for harvest delegations |
| Delegation.ActiveEndingDurable | packages/hosted-store-service/src/delegated-authority.ts:16-80 | over stores whose logs extend one another, with the build kept by its repository, a delegation that was active and then was not is never active again, as `delegationActive` answers |
| Delegation.ChainNeverWidens | packages/hosted-store-service/src/delegated-authority.ts:212-274 | a chain of grants has at most two, the second a phase of the first's build or run at an anchor no earlier, and every grant was active when made |
| Delegation.AnchorMeans | packages/hosted-store-service/src/delegated-authority.ts:239-249 | the anchor is a build's latest event, the first start of the phase's session, or the first authorization of the run's execution, said of the log |
| Delegation.MintedIff | packages/hosted-store-service/src/delegated-authority.ts:196-274 | a credential is minted exactly for who may have it (project, parent runner and its anchor, lease holder), with exactly the claims the target asks for, over logs by which those claims are live |
| Delegation.RefusedIff | packages/hosted-store-service/src/delegated-authority.ts:212-256 | each refusal but an ended lifecycle occurs exactly for its reason, the first in the handler's order |
| ElfMeaning.CStringMeans | packages/hosted-dispatcher/src/elf.ts:84-88 | a string is the bytes up to the first NUL, the end of its range or of the buffer |
| ElfMeaning.FileOffsetMeans | packages/hosted-dispatcher/src/elf.ts:91-98 | an address is in the file exactly when a load segment maps it, and then at its place in the first such segment |
| ElfMeaning.SearchPathPieces | packages/hosted-dispatcher/src/elf.ts:100-102 | a search path is its colon-free pieces without the empty ones |
| ElfMeaning.DynamicMeans | packages/hosted-dispatcher/src/elf.ts:128-133 | a dynamic section adds one library per DT_NEEDED entry and the pieces of every DT_RPATH and DT_RUNPATH, in order |
| ElfMeaning.ProgramMeans | packages/hosted-dispatcher/src/elf.ts:66-82 | each program header is read from its own slot of the announced table; `ElfLayout.HeaderReads` says what is read there |
| ElfMeaning.InterpreterMeans | packages/hosted-dispatcher/src/elf.ts:109-117 | the interpreter is the string of the last PT_INTERP segment, and there is none without one |
| ElfMeaning.StrtabMeans | packages/hosted-dispatcher/src/elf.ts:125 | the string table is the first DT_STRTAB entry's, if there is one |
| ElfMeaning.ReadMeans | packages/hosted-dispatcher/src/elf.ts:104-157 | reading fails exactly when some segment does, with the reason of the first; otherwise libraries, search paths and ABI tag are what the dynamic and note segments hold, in order |
| ElfLayout.CodesAreStandard | packages/hosted-dispatcher/src/elf.ts:8-18 | the segment types and dynamic tags looked for are those the gABI numbers so |
| ElfLayout.HeaderReads | packages/hosted-dispatcher/src/elf.ts:70-80 | a program header printed by the gABI's field order and widths is read as its type, offset, address, file size and alignment |
| ElfLayout.TableReads | packages/hosted-dispatcher/src/elf.ts:58-68 | an ELF header printed so announces its table; another machine and a table past the end are the errors |
| ElfLayout.ProgramReads | packages/hosted-dispatcher/src/elf.ts:58-82 | an object whose headers are laid out by the standard is read as exactly those program headers |
| ElfLayout.IdentChecked | packages/hosted-dispatcher/src/elf.ts:59-62 | each refusal of the identification occurs exactly for its bytes, in order |
| ElfLayout.NotesRead | packages/hosted-dispatcher/src/elf.ts:135-154 | a printed list of notes is read as the last ABI tag among them, or what was known before |
| ElfLayout.PadMeans | packages/hosted-dispatcher/src/elf.ts:137 | names and descriptors are padded to the least multiple of the alignment |
| ElfLayout.AbiTagReads | packages/hosted-dispatcher/src/elf.ts:146-151 | a printed ABI tag is read as its system and its three version numbers |
| ElfLayout.EntriesRead | packages/hosted-dispatcher/src/elf.ts:119-124 | printed dynamic entries are read up to the first DT_NULL or the end |
| Elf.SameRead | packages/hosted-dispatcher/src/elf.ts:104-157 | bytes changed only in a range apart from headers, dynamic data, strings and notes change at most the interpreter's path in what is read |
| Elf.RewriteReadsBack | packages/hosted-dispatcher/src/elf.ts:163-175 | a rewrite keeps the length and every byte outside the segment, and reading gives the same information with the new path, exactly when that path holds no NUL |
| ElfObject.ReadElf | packages/hosted-dispatcher/src/elf.ts:104-157 | the reader over the caller's buffer equals the specified one, errors included |
| ElfObject.RewriteInterpreter | packages/hosted-dispatcher/src/elf.ts:163-175 | in place; nothing is written without an interpreter or when the path does not fit, and the answer says which |
| LayeredOrder.LayeredSort | tools/release.ts:634-655 | the loop over `ordered` and `placed` equals the specified sort |
| LayeredOrder.SortSound | tools/release.ts:634-655 | a returned order is a permutation of the candidates with every dependency first |
| LayeredOrder.CycleThrows | tools/release.ts:645-647 | a cycle is never sorted, names repeated or not |
| LayeredOrder.ThrowsIffCycle | tools/release.ts:634-655 | with distinct names the sort throws exactly when the in-set dependencies have a cycle |
| LayeredOrder.RepeatedNameThrows | tools/release.ts:637-647 | a repeated name makes it throw without a cycle |
| LayeredOrder.ReturnsIffLayering | tools/release.ts:634-655 | on every input it returns exactly when the candidates have a layering |
| PublishOrder.CandidatesMean | tools/release.ts:608-632 | the candidates are exactly the non-private manifests; the first manifest without a name is the error |
| PublishOrder.DirectoryOfManifest | tools/release.ts:621 | a manifest's directory is where it lies, the root's is `.`, and any other path is left alone |
| PublishOrder.PublishablePackages | tools/release.ts:605-655 | the method equals the specified result, both errors included |
| PublishOrder.PublishesInDependencyOrder | tools/release.ts:603-655 | every non-private manifest is published once, after all the publishable packages it depends on |
| PublishOrder.PrefixHasDependencies | tools/release.ts:603-655 | wherever publishing stops, no published package waits for an unpublished one |
| PublishOrder.PublishThrows | tools/release.ts:645-647 | the cycle error occurs exactly without a layering; for distinct names exactly with a cycle |
| PublishOrder.PublishesEvery | tools/release.ts:608-655 | what is published is the package of a non-private manifest, with its name and directory, and every such package is |
| PublishOrder.PublishesNeededFirst | tools/release.ts:608-655 | every package comes after those that its manifest's dependencies, peers included, name among the published |
| Decimal.ParseRender | tools/web-dashboard-dev-tracker.ts:128 | a printed number reads back |
| TrackerOrder.Renumber | tools/web-dashboard-dev-tracker.ts:122-128 | the two loops over `ids` and `next` equal the specified numbering |
| TrackerOrder.EverySeededNumbered | tools/web-dashboard-dev-tracker.ts:122-131 | every seeded ticket has a fixture id |
| TrackerOrder.FreshIdsDistinct | tools/web-dashboard-dev-tracker.ts:123-128 | two tickets without a build never share an id, and a build's ticket keeps the build's |
| TrackerOrder.FreshIdMeetsBuild | tools/web-dashboard-dev-tracker.ts:123-128 | an input where a fresh id is a build's |
| TrackerOrder.IdsDistinctIff | tools/web-dashboard-dev-tracker.ts:122-127 | the fixture ids are distinct exactly when the builds' are and none of the fresh numbers spells one of them |
| TrackerOrder.NamesDistinctIff | tools/web-dashboard-dev-tracker.ts:122-148 | the seeded tickets have distinct ids exactly when that holds and no real ticket is seeded twice |
| TrackerOrder.BlockersAreSeeded | tools/web-dashboard-dev-tracker.ts:136-137 | every blocker kept by the renumbering is itself seeded |
| TrackerOrder.TrackerFixture | tools/web-dashboard-dev-tracker.ts:122-164 | renumbering and ordering together equal the specified order or the cycle error |
| TrackerOrder.BlockersComeFirst | tools/web-dashboard-dev-tracker.ts:149-164 | every seeded ticket is created once, after every ticket carrying the id of one of its seeded blockers |
| TrackerOrder.SeedingThrows | tools/web-dashboard-dev-tracker.ts:156-158 | seeding throws exactly when the renumbered tickets have no layering, and, with distinct ids as above, exactly over a cycle of blockers |
| PackedResolver.CandidatesAreNamed | tools/publish-imports-check.ts:303-324 | the probed paths are exactly those the kind rule allows, said without an order |
| PackedResolver.RelativeResolves | tools/publish-imports-check.ts:301-327 | a `./` or `../` specifier resolves exactly when something it may name is packed, and then to the joined path or the first probe that is; otherwise the joined path is missing |
| PackedResolver.NamedResolves | tools/publish-imports-check.ts:290-300 | an import of the provider asks its exports for `.` or `./` and the rest, a `#` import asks its imports for itself, and the answer is that key's entry or its absence |
| PackedResolver.OthersAreExternal | tools/publish-imports-check.ts:301 | every other specifier is external |
| PackedResolver.ProbesOrdered | tools/publish-imports-check.ts:313-325 | probes are the stem with every script extension, TypeScript's first, then the index likewise, then both with `.json` when no script extension is named |
| PackedResolver.ScriptMeans | tools/publish-imports-check.ts:148-158 | a packed file is a script exactly when it ends in a TypeScript or JavaScript extension, plain, of a module system, or with JSX |
| PackedResolver.PackedPathMeans | tools/publish-imports-check.ts:179-181 | a target's packed path is the target without one leading `./` |
| ClosureWalk.Scan.ReportClosureMissing | tools/publish-imports-check.ts:639-654 | a missing file is pushed unless one of the same text was |
| ClosureWalk.Scan.FollowSpecifier | tools/publish-imports-check.ts:701-762 | one import reports and enqueues exactly what it points at |
| ClosureWalk.Scan.WalkKey | tools/publish-imports-check.ts:667-766 | one key's queue and visited set run the specified breadth-first walk, which terminates |
| ClosureWalk.Scan.Run | tools/publish-imports-check.ts:664-766 | over all keys the findings are a function of the packed files alone, which no cache enters, and each reached script is parsed exactly once |
| ClosureReports.VisitedIsReachable | tools/publish-imports-check.ts:680-766 | a key's walk visits exactly the files reachable from its packed script targets, each once, all packed |
| ClosureReports.KeyQuietIffComplete | tools/publish-imports-check.ts:667-766 | a key's walk reports nothing exactly when every reachable script parses and all its imports inside the package are packed |
| ClosureReports.NoFindingsIffComplete | tools/publish-imports-check.ts:664-766 | the closure check passes exactly when that holds for every key |
| ClosureReports.SurvivesIffKept | tools/publish-imports-check.ts:639-654 | a finding survives exactly when one of its occurrences has no earlier one of the same text |
| ClosureReports.AllSurviveIffUnambiguous | tools/publish-imports-check.ts:635-654 | every key's findings survive exactly when no two different ones read alike |
| ClosureReports.NoBarsNoLoss | tools/publish-imports-check.ts:645 | without a `\|` in keys and packed paths no finding is lost |
| ClosureReports.NoFindingTwice | tools/publish-imports-check.ts:635-654 | the same key, importer and missing file are never reported twice |
| ClosureReports.LostFinding | tools/publish-imports-check.ts:645-647 | two keys where one loses its only finding |
| ReleaseProcedure.Release.RunGates | tools/release.ts:949-1014 | the gates pass exactly when, after each, Git could be asked, every version file still held its content, the rest was HEAD's and the gate had exited well (`GatesMean`); the version files are put back, and a gate that changed anything else has it undone |
| ReleaseProcedure.Release.RestoreBeforePush | tools/release.ts:444-460 | HEAD and the tracked and unignored files are the original commit's again and the tag is gone |
| ReleaseProcedure.Release.PrepareAndPush | tools/release.ts:1060-1139 | either one commit with exactly the release's changes is pushed with its tag, or nothing public changed and the checkout is restored |
| ReleaseProcedure.Release.PublishPackages | tools/release.ts:761-787 | packages are published in order up to the first refusal, and the error names exactly the rest |
| ReleaseProcedure.Release.AfterPush | tools/release.ts:1141-1185 | no step after the push changes the checkout or the refs; release, archive and packages follow one another, and each outcome names the step that failed |
| ReleaseProcedure.Release.Run | tools/release.ts:789-1185 | over every run: it pushes exactly when the release is ready, every gate passes, the changelog's date holds, it is no dry run, HEAD can be read and the commit, tag and push go through; nothing public before the push, refs fixed after it, packages always a prefix of the order and only after refs, release and archive; and for every way to end without a push, what HEAD, tags and files are then |
| ReleaseProcedure.GatesMean | tools/release.ts:970-1005 | the gates end without a failure exactly when each passes in turn, and otherwise with the first that does not and why: not inspectable, worktree changed, or exited badly |
| ReleaseProcedure.AncestorIff | tools/release.ts:896-909 | HEAD is not behind the remote branch exactly when some number of steps back from HEAD reaches it |
| ReleaseProcedure.SameIffLeftAlone | tools/release.ts:949-1140 | for every way to end without a push, the checkout is as it was found exactly when the gates left alone what that ending does not put back |
| ReleaseProcedure.PublishedAfterDependencies | tools/release.ts:605-655 | with the packages in `publishablePackages` order, whatever is published at any moment, all in-set dependencies of a published package were published before it |
| ReleaseProcedure.ReleaseTree | tools/release.ts:1092-1112 | the release commit differs from its parent in exactly the version files, the changelog and the fragments unless it is a prerelease, and the lockfile if it changed; they hold their new contents and the fragments are gone |
| ReleaseProcedure.CleanHolds | tools/release.ts:433-442 | a clean status means the worktree is HEAD's tree as far as Git looks |
| ReleaseProcedure.UninspectedSameIff | tools/release.ts:977-999 | after a gate that could not be inspected the checkout is as found exactly when the gates left HEAD, tags and, outside the version files, everything Git looks at alone |
| ReleaseProcedure.UninspectedGate | tools/release.ts:985-991 | a gate that deletes a version file and leaves output is such a gate |
| ReleaseProcedure.CommittingGate | tools/release.ts:951-1014 | a gate that commits passes, and HEAD is then not where the run found it |
| ReleaseProcedure.GatesKeepRefs | tools/release.ts:970-1005 | gates that move neither HEAD nor tags hand them on unmoved |
| Text.JoinSplit | tools/publish-contents-check.ts:280 | splitting a path and joining it again is the identity, and no piece holds the separator |
| Text.SplitJoin | tools/publish-contents-check.ts:280 | a list without the separator is the split of its join |
| PackedPattern.SegmentMatches | tools/publish-contents-check.ts:297-305 | a segment matches exactly when some text without line terminators for each `*` spells it |
| PackedPattern.MatchesIffSpelled | tools/publish-contents-check.ts:279-301 | the backtracking matcher accepts exactly the paths spelled by some segments for each `**` and some text for each `*` |
| PackedContents.AllowedMeans | tools/publish-contents-check.ts:373-381 | a path is allowed exactly when mandated, or under a surface and spelled by no denied pattern |
| PackedContents.UnderMeans | tools/publish-contents-check.ts:378-380 | a path is under an entry exactly when it is the entry or continues it after a slash |
| PackedContents.EvaluatePackedPaths | tools/publish-contents-check.ts:400-425 | the four loops report the specified violations, and none exactly when the listing is what the ruling asks for |
| PackedContents.EmptyIffExact | tools/publish-contents-check.ts:400-425 | no violation exactly for a non-empty listing with every required file, surface and target and nothing that may not be packed |
| Staging.Deployment.RemoveStale | packages/hosted-store-service/src/deploy-build.ts:131-132 | stale paths are removed in the ledger's order up to the first that lies below a file |
| Staging.Deployment.Check | packages/hosted-store-service/src/deploy-build.ts:122-130 | the check passes exactly when no owned or wanted path is invalid, a directory or a file the ledger does not vouch for |
| Staging.CollisionMeans | packages/hosted-store-service/src/deploy-build.ts:122-130 | a path is refused exactly when it is a directory, or a file without an entry or with another digest than its entry's; outside the root or the ledger itself it is invalid |
| Staging.Deployment.WriteAssets | packages/hosted-store-service/src/deploy-build.ts:133-138 | the assets are written in order up to the first that needs a directory where a file stands, with their digests |
| Staging.Deployment.Stage | packages/hosted-store-service/src/deploy-build.ts:104-140 | the whole effect of a staging on files, directories and ledger, in every outcome, a removal that fails included; it passes its check exactly over paths that are free by the ledger's digests |
| Staging.Deployment.Amend | packages/hosted-store-service/src/deploy-build.ts:170-180 | after a build the ledger vouches for what the build made of its two files |
| Staging.ThrowsUnchanged | packages/hosted-store-service/src/deploy-build.ts:120-130 | a staging that throws before writing has changed nothing |
| Staging.StopsMidwayIff | packages/hosted-store-service/src/deploy-build.ts:122-138 | exactly when it throws after its check, in the removal or in the writing, and exactly when it succeeds |
| Staging.JammedIff | packages/hosted-store-service/src/deploy-build.ts:131-132 | with a ledger none of whose paths lies below another the removal stops exactly when some stale path lies below a file, which the ledger does not list |
| Staging.LedgerStaysFlat | packages/hosted-store-service/src/deploy-build.ts:133-175 | over any run of stagings, builds after them and edits, from such a ledger or none, the ledger is such a one, whether a build has amended it or not |
| Staging.JammedIffInRun | packages/hosted-store-service/src/deploy-build.ts:131-175 | so in every staging of such a run the removal stops exactly when some stale path lies below a file |
| Staging.OnlyOwnedTouched | packages/hosted-store-service/src/deploy-build.ts:122-138 | in every outcome only paths that were absent, or held a file with exactly the digest the ledger has for it, are touched |
| Staging.LedgerIsExact | packages/hosted-store-service/src/deploy-build.ts:131-139 | after success the assets are there, stale ones gone, everything else as before, and the ledger lists exactly the assets with their digests |
| Staging.StagedIsTree | packages/hosted-store-service/src/deploy-build.ts:131-139 | a successful staging leaves a well-formed folder |
| Staging.RestageIsNoOp | packages/hosted-store-service/src/deploy-build.ts:102-140 | staging the same assets again succeeds and changes nothing |
| Staging.ConsumerFileSurvives | packages/hosted-store-service/src/deploy-build.ts:102-180 | over any run of stagings, builds and edits a consumer's file keeps its bytes until the consumer edits it, the two files that a build amends included when builds follow their stagings |
| Staging.AmendClaims | packages/hosted-store-service/src/deploy-build.ts:170-175 | what a build amends counts as staged afterwards, whoever wrote it |
| Staging.LeftoverRefused | packages/hosted-store-service/src/deploy-build.ts:126-128 | what a stopped staging left is refused by every later one that wants the path |
| Staging.StopsMidway | packages/hosted-store-service/src/deploy-build.ts:133-138 | a consumer's file where a directory is needed stops a staging half way |
| Staging.RemovalStops | packages/hosted-store-service/src/deploy-build.ts:131-132 | a consumer's file above a stale path stops the removal half way |
| Changelog.CollectPending | tools/changelog-fragments.ts:93-127 | the loops over `prs` and `legacy` equal the specified collection, every error included |
| Changelog.EntriesOnceDescending | tools/changelog-fragments.ts:103-117 | the pending entries hold every pull request of body and fragments exactly once by descending number, then the other lines in order |
| Changelog.MarkerMeans | tools/changelog-fragments.ts:112 | a line is a pull request's exactly when it starts with `- [#`, the number as it is printed, and `](` |
| Changelog.CollectMeans | tools/changelog-fragments.ts:93-121 | given the one heading, collecting fails for the first pull request, body before fragments, whose number is not safe or is there already, and otherwise exactly when nothing is pending |
| Changelog.DropLeadingMeans | tools/release.ts:248-249 | what is dropped before the entries is blank lines, and all of them |
| Changelog.DropTrailingMeans | tools/release.ts:248-249 | what is dropped after them is line ends with blanks, and all of them |
| Headings.OneMeansOnly | tools/changelog-fragments.ts:94-98 | the heading found is the only line that matches |
| Headings.UnreleasedMeans | tools/changelog-fragments.ts:94 | the heading is where a line starts that is its text and blanks |
| ChangelogRelease.MergedSection | tools/changelog-fragments.ts:122-126 | without a heading among the entries the merged body is exactly the entries |
| ChangelogRelease.CollectMerges | tools/changelog-fragments.ts:118-126 | the collected changelog is the old one, verbatim up to and after the pending body, with trimmed entries in its place |
| ChangelogRelease.ReleasesWhole | tools/release.ts:252-296 | prefix and released suffix stay verbatim, one `Unreleased` heading stays in place over an empty line, and the cut section holds exactly the pending entries |
| ChangelogRelease.ReleasesWholeIff | tools/release.ts:252-296 | the cut releases the merged entries whole exactly when none of them reads as a heading |
| ChangelogFragment.RenderedParses | tools/changelog-fragments.ts:19-36 | what is rendered from a usable URL and title is accepted back as the same line |
| ChangelogFragment.ParsedIsRendered | tools/changelog-fragments.ts:19-30 | an accepted fragment is what some URL and title render to |
| ChangelogFragment.BodyFree | tools/changelog-fragments.ts:99-113 | the trimmed pending body can hold a heading only at its start |
| ChangelogFragment.EntriesFree | tools/changelog-fragments.ts:93-127 | no heading in a fragment or at the start of the trimmed body means none among the entries |
| ChangelogFragment.FragmentWithHeading | tools/changelog-fragments.ts:24-29 | an accepted fragment can hold a heading |
| ChangelogFragment.TrimmedHeading | tools/changelog-fragments.ts:111 | an indented line is no heading in the body and starts the collected entries as one |
| DispatcherTick.ParsedDistinct | packages/hosted-store-service/src/dispatcher-selection.ts:9-22 | the configured repositories are those named, each once |
| DispatcherTick.Tick.SyncPlacements | packages/hosted-dispatcher/src/dispatcher.ts:375-398 | every registered repository is placed as selected or not, and exactly the failures are recorded |
| DispatcherTick.PlacedAsConfigured | packages/hosted-dispatcher/src/dispatcher.ts:378-386 | a repository is placed as hosted exactly when no selection is configured or it is among the names |
| DispatcherTick.Tick.UseCredential | packages/hosted-dispatcher/src/dispatcher.ts:460-543 | whatever throws, an issued credential is deleted once under its own id, an opened store closed once, and the recorded failure is the first step's with cleanup failures after it |
| DispatcherTick.Tick.RunRepository | packages/hosted-dispatcher/src/dispatcher.ts:406-556 | a started repository adds exactly one entry and exactly the store actions that its steps call for |
| DispatcherTick.Tick.Run | packages/hosted-dispatcher/src/dispatcher.ts:333-562 | placement failures first, then one entry per placed selected repository in order, skipped exactly when its clock reading leaves too little; the actions are the placements and then exactly those of the started repositories' steps; each deletion follows its own issue, each close its open, no expiry beyond the deadline and grace |
| DispatcherTick.NoneStartedAfterSkip | packages/hosted-dispatcher/src/dispatcher.ts:399-405 | with a clock that never goes back nothing is started after a skip |
| DispatcherTick.OneOutcomeEach | packages/hosted-dispatcher/src/dispatcher.ts:375-556 | every selected repository has exactly one outcome, any other exactly when its placement failed |
| DispatcherTick.FailureIsListed | packages/hosted-dispatcher/src/dispatcher.ts:406-556 | what is recorded is the messages of what failed, in order, with `; ` between them: the secrets', the step's, the clean-up's and the close's |
| DispatcherTick.TickedIff | packages/hosted-dispatcher/src/dispatcher.ts:514-556 | what a ticked outcome says about the steps |
| DispatcherTick.EmptyMessageTicks | packages/hosted-dispatcher/src/dispatcher.ts:514-551 | a dispatch that throws an empty message counts as ticked |
| ReducerShapes.FirstTestDecides | tools/reducer-value-shapes.ts:28-59 | the first test that holds, in the source's order, decides the shape and its value; a collection is one of the four names before `<` |
| ReducerShapes.ShapeMentions | tools/reducer-value-shapes.ts:28-59 | a shape mentions exactly the ids of the types visited for it, in order |
| ReducerShapes.Shapes.Schema | tools/reducer-value-shapes.ts:21-62 | terminates on every finite graph; known types keep their ids, nothing new stays pending, and every new type is reached from the argument |
| ReducerShapes.Shapes.Roots | tools/reducer-value-shapes.ts:63-92 | every registered reducer's two types get their ids |
| ReducerShapes.IdsInjective | tools/reducer-value-shapes.ts:24-25 | no two types share an id |
| ReducerShapes.FinishedMemo | tools/reducer-value-shapes.ts:21-62 | with nothing pending every known type has the shape its facts give, every mentioned id is defined, and reachable types are known |
| ReducerShapes.OutermostSchema | tools/reducer-value-shapes.ts:21-62 | an outermost call knows exactly the types reachable from its argument, one id each, no pending entry |

## Left out

- Compression, SHA-256 and Node's path functions are function parameters; an inverse or the absence of collisions is a
  requirement only of the lemmas that need it.
- The zlib-native checksum (website-capture-png.ts:111-112): only the table-driven one is modelled.
- Chunks after the first image data, and the palette, are read past by the decoder as in the code, and not restored by
  the encoder, as in the code.
- Decoding bytes as UTF-8 in the ELF reader: a path is its bytes. Numbers above 2^53, where JavaScript rounds, are exact
  here.
- ShippedGit.RunSafe: recursive copy and removal are one file, or one directory, per step; a process that dies between
  steps leaves its temporary directory, as in the code, and recursive removal of a stale root is a single step.
- shippedGitEnv, shippedGitExec, kernelAtLeast and manifest parsing: one-branch computations.
- Delegation.ChainNeverWidens: tokens, signing and HTTP answers are not modelled; a grant is the claims it carries.
- JSON and TOML parsing: manifests, ledgers and exports maps are given as parsed values. A ledger key is its path below
  the root, so two spellings of one path are one key; a ledger that lists itself is an invalid path here, since it could
  not match its own digest.
- Staging.Deployment.RemoveStale: a removal with `force` forgives a missing path and nothing else, so it fails below a
  file; a runtime that forgives that too would go on there.
- The TypeScript scanner that collects specifiers and the type checker: a map from files to specifiers and the
  checker's answers about each type are inputs. Staged-layout resolution probes and the dependents' own scan are not
  part of this model.
- ReleaseProcedure.Release.Run: commands that only ask (manifest checks, login, lookups, fetch) are one input, `checks`;
  restore commands and the writes themselves are taken to succeed, and the push to be atomic. What a gate does to
  ignored files is not restored by the code and not claimed here. A gate is a shell command, and here it changes the
  checkout only: that nothing public changes before the push is said of what the release itself does.
- Peer floors, version resolution, the README install block and the text of recovery messages.
- ChangelogRelease.ReleasesWhole: the summary is one line that is no heading, which is what its normalisation leaves.
- DispatcherTick.Tick.Run: log lines, redaction and the kernel's environment are left out; a recorded message is the
  text after redaction. Randomness enters only as run ids that are never used twice.
- DispatcherTick: a tick whose configuration or registry cannot be read throws before anything here begins.
- The dashboards, capture drivers, fixtures and report texts.
