# Verified model of the Aruba certificate renewer

The repository renews the web certificates of Aruba AOS-S switches over SSH, signs them with
an OPNsense CA, checks its own container images, and verifies release candidates. This project
models the parts that carry state machines, budgets, parsers and protocols, and proves what
they promise for every input, every run and every interleaving.

| module | models | main results |
|---|---|---|
| `Options`, `Numeral`, `Bytes`, `Unicode` | missing values, decimal, octal and base-256 numbers, octet strings, UTF-8 | comparing canonical digit strings decides numeric order; exactly the encodings of scalar values are UTF-8 |
| `Pax`, `TarHeader`, `TarGrammar`, `Preflight`, `ArchiveWriter`, `ArchiveFacts` | the tar/PAX preflight of a release candidate, and a tar writer | the streaming one-pass parser accepts exactly the archives of a declarative grammar within the cap; the grammar is unambiguous; what the writer writes is accepted exactly within the limits; own size records go before global ones; PAX and number round trips |
| `BannerReader` | the SSH identification reader | its answer never depends on how the stream is cut into chunks, and the stream is neither lost nor reordered; what a peer sends is what is read |
| `PacketGuard` | the SSH binary packet guard | a completed packet is 4 + field + mac octets in every cipher mode; a reviewed caller is served or stopped before the body |
| `AnsiText`, `ReadBudget`, `BoundedNetmiko` | the CLI read budget and the ANSI expansion guard | the expansion runs exactly when its result fits; budgets hold over every run; poison is permanent |
| `LifecycleProtocol`, `LifecycleLock` | the per-device lock | mutual exclusion over all interleavings, exactly which changes of its surroundings break it, and the context manager as a process of that protocol |
| `Sorting`, `Findings`, `Comparison` | the container vulnerability comparison | order independence, conservation, an injective upgrade matching, the exact verdict |
| `RunResult` | result records and their aggregate | for exactly which lists of outcomes exit code and aggregate agree |
| `Prompts`, `RenewalWorld`, `InstallDialogue`, `Renewal`, `RenewalProgress` | renewal against a world in which every step may raise any exception and everything sent, read and reported is logged | what is sent, in answer to what, in which order, and what each error class then means; how far a renewal gets decides what it has sent and what a listener has heard |
| `JsonReport`, `JsonExplicit`, `JsonRun` | the structured report and both `--renew-due` loops | every record of a run is true of the world; human and JSON runs agree |
| `LiveHttps` | the live-HTTPS wait | deadlines, clipped timeouts and sleeps, and exactly when the wait succeeds |

## Findings

* An explicit installation can be reported as `failure_pre_attempt` although the install
  command was sent (`src/aruba_cert_renewer.py:2371`, `2427-2458`). The handlers of
  `install_pending_certificate` ask whether the installation completed, not whether it was
  attempted, so an exception raised while the SSH connection closes replaces the attempt error
  and leaves as an ordinary `ValueError`. `JsonExplicit.Operate` proves that this happens if and
  only if a failed attempt is followed by a failing close (`Renewal.AttemptHidden`), and
  `JsonExplicit.HiddenRun` is one such run. In a full renewal the same situation is reported as
  `failure_partial` instead of the `failure_ambiguous` that `docs/run-result.md:79-84` promises
  for an unresolved dispatch; manual recovery is requested in both cases.
* A successful explicit installation confirms four milestones, not five: `issuance` stays
  `not_attempted` (`src/aruba_cert_renewer.py:3378-3402`). `JsonExplicit.Operate` proves it for
  every successful installation (`ExplicitReported`) and `JsonRun.RunSwitch` for every record of a
  run (`MilestonesTrue`); `JsonExplicit.InstalledRun` is such a run, in an environment in which by
  `JsonExplicit.NothingFails` a whole renewal succeeds as well. A successful renewal confirms all
  five (`src/aruba_cert_renewer.py:1856-1964`, `JsonReport.RenewalSuccessReported`).
* Mutual exclusion of the lifecycle lock depends on the lock file's name staying bound to the
  locked inode while a process is in its body (`src/lifecycle_lock.py:86-94`): the recheck runs
  once, before the body. `LifecycleProtocol.ExposureExact` proves the exact condition. Exclusion
  is lost if and only if the name of a body leads to nothing, or to another inode on which somebody
  could enter: one that the file validation (`src/lifecycle_lock.py:41-49`) accepts, or one that a
  process has already validated a second time. `LifecycleProtocol.RebindingExact` is the same
  condition on the target of a rebinding, and `LifecycleProtocol.HarmfulHappens` a run that meets it.

Exit code and aggregate agree for every run (`JsonRun.JsonMain`). On the level of lists alone,
`RunResult.ExitCodeAgreesExactly` gives the exact condition; the empty list, which would exit
with 0 beside a failure aggregate, never reaches the loop because an empty switch list is a
refused configuration (`src/aruba_cert_renewer.py:542-545`).

## Model

| member | source | states |
|---|---|---|
| Numeral.ExceedsDecides | src/bounded_netmiko.py:216-236 | comparing a canonical digit string with a printed number by length, then lexicographically, decides numeric order |
| Numeral.PaddedExceedsDecides | src/bounded_netmiko.py:223-236 | the same for arbitrary digit strings once leading zeros are stripped |
| Numeral.PrintUnique | src/bounded_netmiko.py:216-217 | the printed form is the only canonical digit string of a number |
| Pax.PaxValues | scripts/release_candidate.py:341-372 | the offset loop computes the recursive parse of the whole body, and terminates because the offset only grows |
| Pax.ParseDecidesRecords | scripts/release_candidate.py:341-372 | the parser returns a map and a count if and only if the body is a concatenation of well-formed records with distinct allowed keys, and then exactly theirs |
| Pax.RecordReadBack | scripts/release_candidate.py:345-371 | a well-formed record is read back whole, with its key and value, whatever precedes or follows it |
| Pax.TextSpelled | scripts/release_candidate.py:345-360 | a record is length, blank, key, equals sign, value and newline |
| Pax.PaxRoundTrip | scripts/release_candidate.py:341-372 | parsing the concatenation of records for distinct keys gives back exactly those pairs and their number |
| Pax.PrintRecord | tests/test_release_candidate.py:204-211 | the self-length fixed point terminates and yields a record whose length text is the size of the whole record; it is well formed exactly for allowed text up to 99999 octets |
| Unicode.Utf8Exactly | scripts/release_candidate.py:361-365 | octets decode as UTF-8 if and only if they are the encoding of some Unicode scalar values |
| TarHeader.OctalRoundTrip | scripts/release_candidate.py:307-317 | a zero-padded octal field with a trailer of NULs and blanks reads back as its number |
| TarHeader.NumberExactly | scripts/release_candidate.py:307-317 | a field has a number if and only if it is blanks, octal digits and a trailer of blanks and NULs, or a base-256 number without a sign, and then that number |
| TarHeader.Base256RoundTrip | scripts/release_candidate.py:307-317 | a base-256 field reads back as its number |
| TarHeader.WrittenHeaderAccepted | scripts/release_candidate.py:425-429 | a written header block passes the checksum test and yields the kind and size that were written |
| TarHeader.ChangeDetected | scripts/release_candidate.py:425-428 | a single changed octet outside the checksum field makes the checksum test fail |
| TarGrammar.ScanDecidesArchive | scripts/release_candidate.py:375-512 | scanning entry by entry succeeds if and only if the octets are some list of valid entries within every limit, two zero blocks, and at most 1 MiB of zeros |
| TarGrammar.ReadsUnambiguous | scripts/release_candidate.py:375-512 | whatever the limits, octets read as one list of valid entries with an end marker only |
| TarGrammar.ArchiveUnambiguous | scripts/release_candidate.py:375-512 | an archive is readable as one list of entries only |
| TarGrammar.Aligned | scripts/release_candidate.py:401-424 | every entry starts on a 512-octet boundary |
| TarGrammar.NextIs | scripts/release_candidate.py:425-512 | the entry found behind the first i entries is entry i, with local PAX over global PAX over header size |
| Preflight.BoundedReader.Read | scripts/release_candidate.py:232-245 | a read returns exactly the next octets or fails, and never takes more than one octet past the maximum |
| Preflight.ReadExact | scripts/release_candidate.py:320-329 | returns the requested stretch if and only if it lies within stream and cap |
| Preflight.SkipExact | scripts/release_candidate.py:332-338 | succeeds if and only if the stretch lies within stream and cap, and skips exactly it |
| Preflight.OnlyPaddingLeft | scripts/release_candidate.py:409-421 | accepts exactly a zero rest of at most 1 MiB within the cap, read to its end |
| Preflight.RunCounter | scripts/release_candidate.py:430-441 | the consecutive-extension counter stays within four if and only if every window of five entries holds a member |
| Preflight.Tally.Apply | scripts/release_candidate.py:453-486 | an extension body is applied if and only if it is valid and within the record limits, and then sets exactly its values |
| Preflight.Tally.Extension | scripts/release_candidate.py:430-487 | an extension is accepted if and only if its body is available, valid and within all extension limits, and all counters then move by exactly it |
| Preflight.Tally.Member | scripts/release_candidate.py:488-512 | a member is accepted if and only if its effective size is valid, capped and available, and local values are dropped after it |
| Preflight.ExtensionStep | scripts/release_candidate.py:430-487 | the parser's conditions on an extension are exactly those of the grammar for the next entry |
| Preflight.MemberStep | scripts/release_candidate.py:488-512 | the parser's conditions on a member are exactly those of the grammar for the next entry |
| Preflight.ScanEntries | scripts/release_candidate.py:401-512 | the whole loop accepts exactly what the scan accepts within the cap, and then has read everything |
| Preflight.PreflightArchive | scripts/release_candidate.py:375-512 | the preflight returns if and only if the octets are within the cap and form an archive of the grammar |
| ArchiveWriter.PaxEntryInForce | scripts/release_candidate.py:430-487 | a written x, X or g header over printed records is a valid entry anywhere and puts exactly those records in force, local ones for the next member and global ones for the rest |
| ArchiveWriter.LongNameInForce | scripts/release_candidate.py:455-469 | a written GNU long name is a valid entry anywhere and names the next member |
| ArchiveWriter.MemberInForce | scripts/release_candidate.py:488-512 | a written member is a valid entry when its size is told by its field, octal or base-256, or by the PAX record in force, local or global, and it ends the local values |
| ArchiveWriter.EntriesWritten | scripts/release_candidate.py:375-512 | whatever is written, g headers anywhere, global and local sizes, long names and members in any order, is a valid list of entries that leaves exactly the written globals in force |
| ArchiveWriter.WrittenCounts | scripts/release_candidate.py:430-441 | the limits on runs of extensions, members and global records hold of what is written if and only if they hold of what was asked for |
| ArchiveWriter.WrittenArchiveAccepted | scripts/release_candidate.py:375-512 | a written archive is an archive of the grammar if and only if its entries respect the limits |
| ArchiveWriter.WriteThenPreflight | scripts/release_candidate.py:375-512 | writing and then preflighting succeeds if and only if the cap and the limits on members, extensions, runs of them, their octets, records and global records hold |
| ArchiveFacts.NamesSpelled | scripts/release_candidate.py:429-512 | the header kinds, the size and path keys and the limits, spelled out |
| ArchiveFacts.KeysExactly | scripts/release_candidate.py:366-367 | a PAX key is allowed if and only if it is not empty and does not start with GNU.sparse |
| ArchiveFacts.PaddingExactly | scripts/release_candidate.py:454 | padding is less than a block and fills the block |
| ArchiveFacts.SizeTextExactly | scripts/release_candidate.py:500-507 | a PAX size counts if and only if it is the decimal form of a number below 10 ** 10, and then as that number |
| ArchiveFacts.SizePrecedence | scripts/release_candidate.py:498-512 | the payload of a valid member is as long as its own size record says, else as the last global one says, else as its header says |
| ArchiveFacts.AcceptedWithinBounds | scripts/release_candidate.py:375-512 | an accepted archive has at most 1024 members, 2048 extensions, four in a row, 256 KiB of them, 4096 records, 64 global ones, no long link and no sparse member, long names in UTF-8, and ends in zeros |
| BannerReader.BoundedPacketizer.ReadRawLine | src/bounded_paramiko.py:212-257 | the receiving loop finds the line up to the first newline of the whole stream, or the limit, or the end, for every chunking; it ends as closed or expired exactly because of the last answer of the socket |
| BannerReader.BoundedPacketizer.Readline | src/bounded_paramiko.py:212-267 | the answer is that of the reference splitter, unless the last answer of the socket says that the connection is closed or the time is up; a returned line takes exactly itself off the stream |
| BannerReader.TextGuardRedundant | src/bounded_paramiko.py:221-238 | before identification the cumulative text guard never decides anything the line limits do not |
| BannerReader.LinesBounded | src/bounded_paramiko.py:259-267 | at most 99 lines precede the identification, each shorter than 255 octets |
| BannerReader.LeftIsSuffix | src/bounded_paramiko.py:228-230 | what follows the identification is left unread, whole and in order |
| BannerReader.ReadIdentification | src/bounded_paramiko.py:208-267 | repeated calls give the reference conversation on the whole stream, for every chunking |
| BannerReader.SentIsRead | src/bounded_paramiko.py:208-267 | up to 99 lines of up to 255 octets, ended by CR LF or LF, and an identification are read exactly as they were sent, and what follows is left |
| BannerReader.TooManyLines | src/bounded_paramiko.py:263-266 | a hundredth line before the identification exceeds the limit |
| BannerReader.LineTooLong | src/bounded_paramiko.py:219-239 | 255 octets without an end of line exceed the limit |
| BannerReader.AllowanceExactly | src/bounded_paramiko.py:16-18 | a line may have 255 octets, and all text together 25500 |
| PacketGuard.BoundedPacketizer.ReadAll | src/bounded_paramiko.py:135-206 | a request reaches the socket if and only if the phase machine allows it, and a refusal sets the flag for good and closes the socket |
| PacketGuard.BoundedPacketizer.ReadMessage | src/bounded_paramiko.py:122-206 | whatever a message parser requests, exactly what the guard alone lets through reaches the socket, cut short only by a socket error; a completed packet is 4 + field + mac octets; the machine is idle again afterwards |
| PacketGuard.RunConserves | src/bounded_paramiko.py:135-206 | a completed packet has read 4 + field + mac octets for an accepted field, equal to the clear length where there is one |
| PacketGuard.ClearLengthBigEndian | src/bounded_paramiko.py:165-167 | the length in clear is the first four header octets, most significant first |
| PacketGuard.ServedWithinBounds | src/bounded_paramiko.py:147-203 | whatever is requested: an unsupported cipher reads nothing, the header is one block, the body stands for a length from 5 to 256 KiB, the announced one where it is in clear, and only ETM reads a MAC |
| PacketGuard.ReviewedCallerServed | src/bounded_paramiko.py:172-203 | a caller using the three length formulas is never refused for a field from 5 to 256 KiB |
| PacketGuard.OversizedStopped | src/bounded_paramiko.py:162-194 | with any other field it is stopped after the header, before any body octet is requested |
| PacketGuard.CoarseGuardRedundant | src/bounded_paramiko.py:139-142 | the coarse size guard refuses nothing the phase checks would accept |
| PacketGuard.BoundedPacketizer.ReadMessages | src/bounded_paramiko.py:115-138 | over any sequence of messages, once the limit has been exceeded every later message fails and nothing more reaches the socket |
| AnsiText.VendorStripLength | src/bounded_netmiko.py:60-64 | the length of the vendor's expansion: base plus number of codes times the first count |
| AnsiText.MatchExactly | src/bounded_netmiko.py:60-64 | a code is found exactly where the text has ESC [, digits and L |
| AnsiText.SentinelExposes | src/bounded_netmiko.py:178-196 | renaming L to a fresh character and back shows the text in which the vendor will look for codes |
| AnsiText.FitsDecided | src/bounded_netmiko.py:207-235 | division and digit comparison decide the multiplicative fit |
| BoundedNetmiko.BoundedArubaConnection.FindCodes | src/bounded_netmiko.py:198-205 | the loop counts the codes, their total length, and the first count |
| BoundedNetmiko.BoundedArubaConnection.StripAnsi | src/bounded_netmiko.py:175-239 | the expansion is built if and only if its exact length fits the remaining budget and the count is short enough for int(); the later charge then never overflows |
| BoundedNetmiko.BoundedArubaConnection.ChargeProcessed | src/bounded_netmiko.py:168-173 | a charge is taken whole or poisons |
| BoundedNetmiko.BoundedArubaConnection.ReadBuffer | src/bounded_netmiko.py:89-105 | one poll, and if it says ready one request of at least one and at most remaining + 1 octets, and nothing once poisoned; the octets are passed on unless the packet layer overflowed, the channel ended or the limit is exceeded |
| BoundedNetmiko.BoundedArubaConnection.WriteChannel | src/bounded_netmiko.py:119-129 | nothing is sent once poisoned; an overflow during the send is reported as such, else what the channel answered |
| BoundedNetmiko.BoundedArubaConnection.RequireHealthy | src/bounded_netmiko.py:161-166 | raises if and only if poisoned or overflown, and an overflow poisons |
| BoundedNetmiko.BoundedArubaConnection.OpenBudget | src/bounded_netmiko.py:257-280 | opening a scope saves the outer counters and starts from the retained text, or says why not |
| BoundedNetmiko.BoundedArubaConnection.CloseBudget | src/bounded_netmiko.py:281-294 | closing restores the outer counters plus the retained text; if the channel itself is not poisoned, overflow poisons it and is raised only without a body exception |
| ReadBudget.RunHealthy | src/bounded_netmiko.py:70-129 | over every run both counters are within their limits while not poisoned, and the next request is positive and at most one over |
| ReadBudget.PoisonStays | src/bounded_netmiko.py:80-129 | nothing is put to the peer by any continuation of a poisoned run |
| ReadBudget.CountersExactly | src/bounded_netmiko.py:99-105 | octets are counted first and poison exactly beyond the limit; characters are taken whole within theirs and poison otherwise |
| ReadBudget.OpeningExactly | src/bounded_netmiko.py:257-280 | a refused scope changes nothing, except that retained text beyond the budget poisons |
| BoundedNetmiko.BoundedArubaConnection.PerformAll | src/bounded_netmiko.py:70-294 | every sequence of calls on the object is a possible run of the machine, each call with its effect on it: counters stay within their limits until the poison, and no recv or send follows it |
| ReadBudget.ScopeReceives | src/bounded_netmiko.py:257-285 | inside a scope the counters are exactly retained plus received text, at most one octet over the limit |
| ReadBudget.ScopeClosed | src/bounded_netmiko.py:281-294 | closing adds exactly the retained text to the outer counters, whatever happened inside |
| LifecycleProtocol.MutualExclusion | src/lifecycle_lock.py:55-105 | over all interleavings at most one process per lock file name, so per host, is in its body, as long as no rebinding and no change of metadata exposes a body |
| LifecycleProtocol.ExposureBreaksExclusion | src/lifecycle_lock.py:41-94 | from every state with an exposed body a second process gets into its body next to the first by quiet steps alone |
| LifecycleProtocol.ExposureExact | src/lifecycle_lock.py:41-105 | in every state the protocol can be in, all quiet continuations of a rebinding or a change of metadata stay exclusive if and only if it exposes no body |
| LifecycleProtocol.RebindingExact | src/lifecycle_lock.py:41-105 | rebinding the name of a body is harmless if and only if it leads to the locked inode, or to one that validation refuses and nobody has already validated a second time |
| LifecycleProtocol.HarmfulHappens | src/lifecycle_lock.py:55-102 | an exposing rebinding is possible seven steps after the start |
| LifecycleProtocol.BusyMeansSameDevice | src/lifecycle_lock.py:77-84 | a process is turned away only by a holder for the same host |
| LifecycleLock.System.Check | src/lifecycle_lock.py:41-49 | validation, before and after flock, is a step of the protocol in the state that others have left, and refuses exactly what is refused there |
| LifecycleLock.System.Flock | src/lifecycle_lock.py:76-84 | flock is granted if and only if nobody else holds the inode then |
| LifecycleLock.System.Compare | src/lifecycle_lock.py:86-94 | the last check passes if and only if the name still leads to the locked inode then |
| LifecycleLock.Invocation.Acquire | src/lifecycle_lock.py:60-98 | success means that every call worked and that this process took the seven steps of the protocol into its body, in order; busy is exactly a refused flock; any other error has a failing call or a refused file as its cause |
| LifecycleLock.Invocation.CloseAll | src/lifecycle_lock.py:106-118 | every open descriptor is closed once, lock file first, whatever fails, and the process is out of the protocol once the lock file is closed |
| LifecycleLock.Invocation.Use | src/lifecycle_lock.py:54-118 | the body runs only where the protocol let the process in; a failing close never replaces an acquisition error or a body exception, and is reported after a completed body |
| LifecycleLock.SystemExclusive | src/lifecycle_lock.py:52-118 | over everything that invocations and surroundings do on one system, no two bodies run for one device as long as no body is exposed |
| Sorting.ListingUnique | scripts/compare_container_vulnerabilities.py:501-520 | a set has one sorted listing only |
| Sorting.StringOrder | scripts/compare_container_vulnerabilities.py:396-408 | strings are ordered by their first difference |
| Sorting.Sort | scripts/compare_container_vulnerabilities.py:501-520 | sorting by a distinguishing key lists exactly the set in increasing order |
| Findings.Normalize | scripts/compare_container_vulnerabilities.py:305-393 | succeeds if and only if every result is valid and duplicates agree, and then indexes exactly the findings by identity |
| Findings.AcceptableExactly | scripts/compare_container_vulnerabilities.py:305-393 | what a report must say to be accepted, field by field |
| Findings.EntriesTold | scripts/compare_container_vulnerabilities.py:305-393 | a normalized report holds exactly what the report says, field by field: OS packages under the OS of the metadata, all others under their target |
| Findings.IdentityExact | scripts/compare_container_vulnerabilities.py:334-384 | two vulnerabilities share their identity if and only if they are of one component, whatever OS packages were scanned as, and their findings are equal if and only if severity and fix agree as well |
| Findings.AddResult | scripts/compare_container_vulnerabilities.py:335-391 | one result adds exactly its findings, and is refused if and only if it is invalid or conflicts |
| Findings.OrderIndependent | scripts/compare_container_vulnerabilities.py:305-393 | permuting results or vulnerabilities, or scanning the OS packages under another name, changes neither acceptance nor the findings |
| Findings.IndexUnique | scripts/compare_container_vulnerabilities.py:385-393 | the normalized map is determined by the findings |
| Findings.FindingOrderTotal | scripts/compare_container_vulnerabilities.py:396-408 | the sort key orders any two findings of different identity strictly one way |
| Findings.FindingOrder | scripts/compare_container_vulnerabilities.py:396-408 | critical findings come first, then the order is by vulnerability, package, version, class, type, target, package id and path |
| Comparison.UpgradeCandidates | scripts/compare_container_vulnerabilities.py:450-458 | groups exactly the scoped identities by scope, each group sorted |
| Comparison.Examine | scripts/compare_container_vulnerabilities.py:478-491 | a scope yields a pair if and only if both sides have one sole identity, exclusive to it, alike in severity and fix, with an increased version |
| Comparison.MoveUpgrades | scripts/compare_container_vulnerabilities.py:472-496 | the loop moves exactly the upgrades of the common scopes, every removal finds its key, and both conservation sums hold |
| Comparison.Compare | scripts/compare_container_vulnerabilities.py:461-520 | fails exactly on disagreeing shared findings or incomparable candidate versions; the result is the correct partition, with introduced + inherited = derivative and removed + inherited = upstream |
| Comparison.CompareReports | scripts/compare_container_vulnerabilities.py:461-520 | the answer to two reports: refused exactly if one cannot be normalized, shared findings disagree, or versions cannot be compared |
| Comparison.UpgradesMatch | scripts/compare_container_vulnerabilities.py:411-422 | upgrades are an injective matching of identities that differ in version and package id only |
| Comparison.UpgradesExactly | scripts/compare_container_vulnerabilities.py:411-496 | when a finding stands for another: the same Debian package in a greater version, no other version of it on either side, neither finding on the other side, the same severity and fix |
| Comparison.PartitionExactly | scripts/compare_container_vulnerabilities.py:461-520 | which findings are introduced, inherited and removed, and which pairs are upgrades |
| Comparison.CorrectUnique | scripts/compare_container_vulnerabilities.py:461-520 | the comparison is determined by the two normalized reports |
| Comparison.ComparisonOrderIndependent | scripts/compare_container_vulnerabilities.py:461-520 | reordering either report, or scanning its OS packages under another name, changes neither whether the comparison is refused nor what it returns |
| Comparison.BlockedExactly | scripts/compare_container_vulnerabilities.py:67-78 | an image is blocked if and only if it introduces a finding or inherits a fixable one without an exception for this image, platform and finding |
| Comparison.AcceptedMembers | scripts/compare_container_vulnerabilities.py:221-240 | accepted exceptions are exactly those for this image and platform whose fixable finding is inherited |
| RunResult.MostSerious | src/run_result.py:131 | chooses the first item of the highest severity |
| RunResult.Run.Finish | src/run_result.py:129-143 | outcome and reason come from the first most serious item, the stage only for attention or failure, and recovery is the OR |
| RunResult.AggregatedIsWorst | src/run_result.py:131-132 | the aggregate is one of the outcomes and none is more severe |
| RunResult.AggregatedExactly | src/run_result.py:68-76 | any ambiguous failure makes the run ambiguous, else any partial one partial, and so on down to success without change |
| RunResult.ExitCodeExactly | src/aruba_cert_renewer.py:3577-3591 | exit code 2 for any failure, else 1 for an inspection in which attention is due, else 0 |
| RunResult.ExitCodeAgreesExactly | src/aruba_cert_renewer.py:3577-3591 | exit code and aggregate agree if and only if the list is nonempty and either it is an inspection, no attention is due, or some result is a failure |
| RunResult.EmptyRunDisagrees | src/aruba_cert_renewer.py:3577-3591 | the empty list would pair exit code 0 with a failure aggregate |
| RenewalWorld.ConfirmedByEvents | src/aruba_cert_renewer.py:3168-3208 | over any run of progress events a milestone is confirmed if and only if it was before or a confirming event was reported; only a dispatch takes a confirmation back, and only of issuance |
| RenewalWorld.CommandsSheltered | src/aruba_cert_renewer.py:3506-3575 | in a log that is in order every command comes after the lock was taken and before it is returned, and every command of a renewal after the renewal was put on record |
| RenewalWorld.WholeDialogue | src/aruba_cert_renewer.py:2236-2279 | in the log of every run a confirmation ends the sequence install command, error-free paste prompt, PEM, error-free replacement prompt |
| RenewalWorld.PrefixOnce | src/aruba_cert_renewer.py:1856-1964 | a run that has sent a prefix of the renewal has logged no command twice |
| InstallDialogue.Dialogue | src/aruba_cert_renewer.py:2213-2286 | what is sent and the first exception, for every environment; the log stays guarded: the PEM directly answers an error-free paste prompt read after the install command, the confirmation an error-free replacement prompt read after the PEM; what answers it is read last |
| InstallDialogue.InstallSigned | src/aruba_cert_renewer.py:2206-2347 | config mode is left exactly once iff entered and not poisoned; after the install command every exception is an attempt error; a failing exit never replaces an earlier one |
| Prompts.Stripped | src/aruba_cert_renewer.py:2176-2179 | rstrip removes exactly the trailing white space |
| Prompts.AsksExactly | src/aruba_cert_renewer.py:2176-2179 | a prompt is asked for if and only if the output has no CLI error and ends with the prompt, up to white space |
| Prompts.SpacesSpelled | src/aruba_cert_renewer.py:2176-2179 | the white space that rstrip removes, by code point |
| Renewal.PreflightRenewal | src/aruba_cert_renewer.py:1813-1853 | succeeds exactly without failure and pending CSR, and names its failures |
| Renewal.GenerateCsr | src/aruba_cert_renewer.py:1981-2090 | once creation was attempted every exception is an attempt error, and the command is sent at most once |
| Renewal.RetrieveCsr | src/aruba_cert_renewer.py:2093-2146 | succeeds exactly when every step does, with the CSR validated; authentication and timeout failures of SSH leave as ValueError |
| Renewal.IssueCertificate | src/aruba_cert_renewer.py:1618-1651 | in the guarded log the dispatch is reported directly before the POST; it is sent at most once, and a saved answer confirms it |
| Renewal.SignPendingCsr | src/aruba_cert_renewer.py:1587-1651 | what signing sends, reads back and reports for every placement of failures |
| Renewal.InstallPending | src/aruba_cert_renewer.py:2350-2458 | the error is an attempt error exactly if the attempt was made and not hidden by a failing close |
| Renewal.RenewCertificate | src/aruba_cert_renewer.py:1856-1964 | succeeds exactly when every step does; otherwise the error class names the failed stage, and an exception stays unnamed only if it is no ValueError or OSError; milestones, stage and evidence match what was sent and reported, and no evidence is taken where its checks have not passed |
| Renewal.RenewalSendsPrefix | src/aruba_cert_renewer.py:1856-1964 | every run sends a prefix of create CSR, signing POST, install command, PEM, confirmation |
| RenewalProgress.RenewalThresholds | src/aruba_cert_renewer.py:1856-1964 | the twelve stages of a renewal, requirement by requirement: each predicate of the staged operations holds if and only if that many stages hold |
| RenewalProgress.SentBy | src/aruba_cert_renewer.py:1856-1964 | how many stages hold decides which commands are sent |
| RenewalProgress.HeardBy | src/aruba_cert_renewer.py:1603-1960 | whatever fails, a listener has heard the beginning of one list of twelve reports; how many stages hold decides how much of it, and all of it means success |
| JsonReport.JsonFailure | src/aruba_cert_renewer.py:3225-3288 | how an error and the progress so far become outcome, reason, stage, recovery flag, milestones and change |
| JsonReport.FailureOutcomeExactly | src/aruba_cert_renewer.py:3211-3222 | ambiguous as soon as the change or CSR, issuance or installation is uncertain, else partial as soon as something is known to have changed |
| JsonReport.RenewalFailureReported | src/aruba_cert_renewer.py:3211-3288 | a failed renewal says pre-attempt exactly if nothing was sent, ambiguous exactly if a command is unresolved and not hidden, and asks for recovery after any command |
| JsonReport.RenewalSuccessReported | src/aruba_cert_renewer.py:3291-3313 | a reported success has five confirmed milestones, all five commands sent, and all evidence read back |
| JsonReport.FailureRecorded | src/aruba_cert_renewer.py:3225-3313 | the whole record of a failed renewal, outcome, milestones, change, recovery and commands, is decided by the stage that failed and by a failing close |
| JsonReport.ReasonRecorded | src/aruba_cert_renewer.py:3225-3288 | reason and stage of a failed renewal are those of the stage that failed; for an exception no stage names the reason is unexpected and the stage where the last report left it |
| JsonReport.JsonRenew | src/aruba_cert_renewer.py:3291-3313 | the report of every renewal run is true of the world, how far it got decides its whole record and what was reported on the way, its log is guarded, no command is logged twice, and exactly the milestones are confirmed for which a confirming event was reported |
| JsonExplicit.Handle | src/aruba_cert_renewer.py:3404-3436 | the handlers of the staged operations with their reasons, and what they let through untouched |
| JsonExplicit.Perform | src/aruba_cert_renewer.py:3316-3403 | what a staged operation sends and reports, when it works, where it stands when it fails, and that only an unwritten certificate file is settled on the spot |
| JsonExplicit.ReportsInOrder | src/aruba_cert_renewer.py:3316-3403 | whatever fails, a listener has heard the beginning of the operation's list of reports, and all of it if and only if everything but the writing of a file has succeeded |
| JsonExplicit.InstallationHeardBy | src/aruba_cert_renewer.py:2382-2416 | how far the judgement of a certificate gets decides how much of it is reported |
| JsonExplicit.HandledAs | src/aruba_cert_renewer.py:3404-3436 | no handler moves the stage of a failed operation, and the reason it gives depends on the environment alone |
| JsonExplicit.ExplicitFailureReported | src/aruba_cert_renewer.py:3404-3436 | a failed staged operation is reported truthfully if and only if no attempt was hidden |
| JsonExplicit.ExplicitDecided | src/aruba_cert_renewer.py:3316-3436 | outcome and commands of a staged operation are decided by how many of its stages hold and by a failing close |
| JsonExplicit.Operate | src/aruba_cert_renewer.py:3316-3436 | the report of every staged run is true of the world except for exactly the hidden attempt, stage and reason depend on the environment alone, confirmed milestones rest on evidence and on reported events, and no command is logged twice |
| JsonExplicit.HiddenAttempt | src/aruba_cert_renewer.py:2418-2458 | an environment in which the attempt is hidden after the install command was sent |
| JsonExplicit.NothingFails | src/aruba_cert_renewer.py:3378-3402 | an environment in which an explicit installation and a whole renewal succeed |
| JsonExplicit.InstalledRun | src/aruba_cert_renewer.py:3378-3402 | the installation in that environment: three commands sent, success_changed, everything but issuance confirmed |
| JsonExplicit.HiddenRun | src/aruba_cert_renewer.py:3380-3436 | the run in that environment: install command sent, reported pre-attempt, manual recovery asked for |
| JsonRun.ProcessTarget | src/aruba_cert_renewer.py:3439-3472 | the body of one switch is reported truthfully, milestones and evidence included, whether it returns or raises; a renewal, and only a renewal, is put on record, and no command precedes that; renewal_due, and the stage of an inspection, are what the check tells |
| JsonRun.LocksExactly | src/aruba_cert_renewer.py:3518-3536 | an operation takes the lock if and only if there is a switch to which it would send something |
| JsonRun.ReleaseFailed | src/aruba_cert_renewer.py:3542-3562 | a failing release keeps an explained failure, otherwise reclassifies it as a failure of the lock, and always asks for recovery |
| JsonRun.RunSwitch | src/aruba_cert_renewer.py:3506-3575 | one record per switch that is true of the world: outcome, recovery, sent commands, milestones and evidence, success_changed meaning all of them; every command is sent while the lock is held, that of a renewal after it was put on record |
| JsonRun.ReleaseFailureSurfaces | src/aruba_cert_renewer.py:3542-3562 | in a run with true records, a lock not released after a command makes the aggregate partial or ambiguous and asks for recovery |
| JsonRun.RunSwitches | src/aruba_cert_renewer.py:3506-3591 | one true record per switch in order, with what was sent to it and read back, and the exit code |
| JsonRun.JsonMain | src/aruba_cert_renewer.py:3475-3609 | for every run, whether startup succeeds or raises: true records in order, exit code and aggregate agree, recovery is the OR, and a lock left unreleased after a command shows in run outcome and recovery; a failed startup has no records, sends nothing and gives its reason |
| JsonRun.FaultsAt | src/aruba_cert_renewer.py:3506-3591 | the list of faults is that of the switches, position by position |
| JsonRun.HumanSwitch | src/aruba_cert_renewer.py:2843-2963 | a switch is an error exactly if something about it fails, and renewed exactly if due and renewed; what is sent is sent while the lock is held |
| JsonRun.RenewDueCertificates | src/aruba_cert_renewer.py:2830-2963 | one result per switch in order, and the exit code |
| JsonRun.BothModes | src/aruba_cert_renewer.py:3439-3591 | human and JSON runs of --renew-due agree on failures, locks, renewals, their order, and the exit code |
| JsonRun.RenewedExactlyDue | src/aruba_cert_renewer.py:2866-2912 | exactly the due or expired switches are renewed, each between taking and releasing its own lock |
| LiveHttps.GrantTimeout | src/aruba_cert_renewer.py:2658-2662 | a timeout is positive and at most socket timeout and time left, or the deadline has passed |
| LiveHttps.TryAddress | src/aruba_cert_renewer.py:2620-2633 | one address: granted timeouts, one final entry at most, and a leaf only before the deadline |
| LiveHttps.ReadLeaf | src/aruba_cert_renewer.py:2618-2643 | addresses in their order, none skipped, as long as errors are retryable and time is left |
| LiveHttps.VerifyLive | src/aruba_cert_renewer.py:2461-2535 | the deadline is the first clock reading plus the window; until then every address is tried in turn, round after round, each followed by the clipped delay; succeeds if and only if the last leaf is the expected one and the clock is before the deadline after comparing; hard errors end the wait at once |

## Left out

- Archive decoding, magic numbers and compression: the preflight works on decoded octets, and all refusals are one.
- Netmiko's other ANSI patterns: their removal is an abstract function that commutes with renaming L and invents nothing but newlines.
- SSH channel and connection: one object with both poison flags; decoding of received octets is not modelled, and RETURN is fixed to "\n" as the login handler enforces.
- BannerReader.BoundedPacketizer.Readline: whether a timeout has run out or the connection is closed locally is what the answers of the socket say; the clock behind them is not modelled.
- PacketGuard.BoundedPacketizer.ReadMessage: the vendor's parser is any sequence of requests; what it makes of the octets is not modelled.
- Real sockets, TLS, flock, file and process calls: environment steps with stated replies; DNS resolution is the list of addresses it delivers.
- X.509, CSR and CA trust checks: a step that passes or raises.
- The version comparison of dpkg: an arbitrary function that may fail; validating the image and platform of an exception is not modelled.
- JSON shape checks of scan reports: a report is already a list of typed results; TOML, arguments, secrets, timestamps, messages and printing are not modelled, and printing is taken not to fail.
- Renewal.RenewCertificate: KeyboardInterrupt and other non-Exception exits are not modelled; they are in the precedence rules of LifecycleLock.Invocation.Use.
- Certificate metadata: the fingerprint and expiry date in a record are left out.
- LiveHttps.VerifyLive: time is counted in whole ticks and every sleep takes at least one; argument type checks and non-finite numbers are left out.
- JsonRun.BothModes: both runs are given the same credential replies, although the human one may prompt.
- Dependency source contracts, CI policy, release signatures and tag validation: each is a single conjunction of checks without state of its own.
