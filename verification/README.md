# Verification of the Omarchy installer's trust decisions

This project models the parts of the installer that decide whether a disk, a firmware table, a journal or a
cache may be trusted, and proves what those decisions promise. `dafny verify dfyconfig.toml` checks it with
Dafny 4.11.

The operations keep the form of the code. Loops over buffers, arrays and maps are methods with invariants, and
objects with changing fields are classes. Each method is proved against a specification on values. The theorems
are about these specifications, and quantify over every input, every run or every reachable state.

- **GPT layouts** (`GptTable`, `StagingPlan`, `StagingLayout`, `StagingDeletion`, `StagingTheorems`,
  `StagingBytes`, `StagingInverse`, `DiskDiff`, `DiskShrink`): planning two staging partitions inside a raw layout
  buffer, planning their deletion, and comparing a layout read back with the saved one. Planning keeps the layout
  invariant and changes no other byte; deletion is its inverse; both comparisons are exact.
- **Measured boot logs** (`BootLog`, `DevicePath`, `LoaderPath`, `BootEvidence`, `OrdinaryLog`): the acceptor of
  legacy and crypto-agile TCG logs (section 10 of the TCG PC Client Platform Firmware Profile 1.05) against a grammar
  with an encoder, and what it says of the logs and device paths of an ordinary start.
- **Load options and the staged boot entry** (`LoadOption`, `Firmware`, `StagedBoot`): encoder, reader and target
  comparison of UEFI load options (section 3.1.3 of the UEFI Specification 2.10, with the device path nodes of
  sections 10.3.5.1 and 10.3.5.4), and the calls that register, restore, arm and remove the entry while the
  firmware may rewrite variables between them and alter or refuse what they write.
- **The boot menu** (`MenuText`, `MenuLines`, `BootMenu`, `MenuRoundTrip`, `MenuArrange`, `MenuConfluence`,
  `MenuTheorems`, `MenuExamples`, `MenuRebind`, `MenuIdentity`, `MenuRebound`, `MenuMachine`, `MenuGrammar`,
  `MenuSettings`, `MenuAccepts`, `MenuContents`, `RebindExact`): reading, rearranging and writing `limine.conf`, which
  menus are accepted and what becomes of their lines, exactly when rewriting is confluent in its settings and a fixed
  point, and how menus are rebound to another machine.
- **The journal** (`JournalReplay`, `JournalTheorems`, `JournalStore`, `JournalLog`, `JournalRuns`): replay of a
  hash-chained log under an anchor, commits into two rotating anchors that may stop anywhere, the journal in memory,
  and what it tells after any sequence of calls.
- **The Apple operation marker** (`AppleMarker`, `AppleProgress`): interface, worker, reader threads and companion
  step by step, with crashes and restarts between any two steps; that nothing is sent twice, and that what is answered
  blocks nothing.
- **The download cache** (`DownloadCache`, `TransferHistory`): transfers, appends that fail halfway, promotion by
  hard link, crashes that leave arbitrary unsynced bytes, and resumption.
- **The media writer** (`FakeDevice`, `MediaWriter`): writing and reading back over a device that injects faults.
- **The physical writer** (`PhysicalWrite`): padded sector writes and the readback.
- **Plan binding** (`PlanHash`, `PlanBytes`, `OperationTracker`, `OperationFate`): the hash input of a plan byte by
  byte, the operation tracker, the replay guard.
- **The cache verifier** (`CacheTree`) and **the mount check** (`Mounts`): an exact-tree check by worklist and
  counting, and pathname lookup over a mount table.

`Bytes`, `Keyed` and `Framing` hold shared definitions: little-endian fields, indexed maps, and encodings that
stand at a place in a buffer.

Points where the theorems are sharper than one might expect:

- Stale identifiers in free GPT entries do no harm to planning and deleting, although the lookup scans free
  entries too: the planner reuses the lowest free ones. What matters is that the existing identifiers are
  distinct and non-empty (`StagingInverse.PlanThenDelete`).
- A rewritten boot menu is a fixed point only if its first entry was at the top level, the result is within the
  size bound and the body of the chosen kernel does not begin with an empty line: that line is stripped from
  the kept copy but not from the primary one (`MenuTheorems.FixedPoint`). `MenuExamples` has a menu for each
  failure.
- Appending to the journal does not check the 64 MiB limit that opening enforces: a journal opens after an append
  exactly if log and record are within it (`JournalLog.AppendPastLimit`). A failed commit must end the run: a
  retry opens exactly if no byte of the failed record was written (`JournalStore.RetryExact`).
- A download session whose append failed after bytes had reached the file must not be finalized: its file is what
  its hasher vouches for exactly if there was no such append (`TransferHistory.FileIsVouchedFor`);
  `TransferHistory.ReusedSession` has a session that verifies and makes a broken artifact.

Digests are uninterpreted functions throughout. Where injectivity would be needed, a theorem says "equal, or a
collision is exhibited" instead of assuming it.

## Model

| member | source | states |
|---|---|---|
| `GptTable.PutEntry` | providers/direct-x86/NativeDisk.cs:200 | A copy into an entry patches exactly the bytes given and leaves the header and every other entry alone. |
| `GptTable.EntryFields` | providers/direct-x86/NativeDisk.cs:158-163 | The fields of an entry do not depend on its RewritePartition byte, which the comparisons normalise. |
| `GptTable.FindId` | providers/staged-iso/NativeStaged.cs:104-107 | Finds the first entry that carries the identifier, free or occupied, and fails exactly when there is none. |
| `GptTable.FindPartition` | providers/direct-x86/NativeDisk.cs:206-217 | Succeeds exactly when the first entry with the identifier, free ones included, has the given extent and type; answers its number. |
| `StagingPlan.FreeSlotsExact` | providers/staged-iso/NativeStaged.cs:44-47 | The free slots are all the free entries, in increasing order, and nothing else. |
| `StagingPlan.ScanEntries` | providers/staged-iso/NativeStaged.cs:45-52 | The scan accepts exactly when no occupied entry overlaps the new extents, has a negative length or carries a new identifier; it collects exactly the free entries and the numbers in use. |
| `StagingPlan.NextNumber` | providers/staged-iso/NativeStaged.cs:58 | The loop stops at the least positive number that is not in use. |
| `StagingPlan.FillEntry` | providers/staged-iso/NativeStaged.cs:59-65 | The entry then holds style, extent, number, rewrite instruction, type, identifier, attribute and name as UTF-16, with zeros elsewhere; no other byte changes. |
| `StagingPlan.NewEntryFields` | providers/staged-iso/NativeStaged.cs:59-65 | An entry filled in so reads back as the requested extent. |
| `StagingLayout.ChooseSlots` | providers/staged-iso/NativeStaged.cs:53 | Widening yields the two lowest free entries exactly when the maximum leaves room for two. |
| `StagingLayout.Widen` | providers/staged-iso/NativeStaged.cs:54-56 | The new buffer holds the old entries with their rewrite bytes cleared, the new count, and otherwise the same header. |
| `StagingLayout.FillSlots` | providers/staged-iso/NativeStaged.cs:57-66 | Both entries receive their extents under the two lowest unused numbers, the first number unused for the second. |
| `StagingLayout.PlanStagingLayout` | providers/staged-iso/NativeStaged.cs:32-68 | Plans exactly the requests that are aligned, within the usable range, large enough, not overlapping, not clashing in identifier and with room for two entries; the result is the planned table. |
| `StagingTheorems.PlanKeepsInvariant` | providers/staged-iso/NativeStaged.cs:32-68 | If occupied entries lie in bounds, pairwise apart in extent, identifier and number, then so do those of the plan. |
| `StagingTheorems.PlanAddsTwo` | providers/staged-iso/NativeStaged.cs:53-66 | The occupied entries are the old ones and exactly two adjacent extents more, under the lowest unused numbers. |
| `StagingTheorems.PlanFrame` | providers/staged-iso/NativeStaged.cs:54-67 | Outside the entry count, the rewrite bytes and the two free entries taken, no byte changes. |
| `StagingTheorems.IdentifiedMeansApart` | providers/direct-x86/NativeDisk.cs:171 | The dictionary test (no empty identifier, none twice) says exactly that the other occupied entries have distinct non-empty identifiers. |
| `StagingTheorems.PlannedIds` | providers/staged-iso/NativeStaged.cs:49-51 | The identifiers of the new partitions are theirs alone among the occupied entries of a plan. |
| `StagingBytes.PlannedBytes` | providers/staged-iso/NativeStaged.cs:57-66 | Every byte of the two new entries at 48 + 144 times their slot: extents, types, identifiers, the no-drive-letter attribute and the names "Omarchy installer EFI" and "Omarchy installer source". |
| `StagingDeletion.ClearEntry` | providers/staged-iso/NativeStaged.cs:111-113 | The cleared table differs from the saved one only in the rewrite bytes and in the one entry, which is empty. |
| `StagingDeletion.OnlyFirstCanBeDeleted` | providers/staged-iso/NativeStaged.cs:110-113 | Only the first entry with the identifier can be deleted. |
| `StagingDeletion.DeletionVerdict` | providers/staged-iso/NativeStaged.cs:114 | The final self-check accepts the cleared table exactly when the target was the only such partition and the others can be told apart. |
| `StagingDeletion.PlanStagingDeletion` | providers/staged-iso/NativeStaged.cs:108-116 | Succeeds exactly when a staging partition with this number, identifier, extent and type can be deleted; the result clears just that entry. |
| `StagingInverse.DataIsDeletable` | providers/staged-iso/NativeStaged.cs:108-116 | After a plan, the data partition can be deleted exactly when the old occupied entries have distinct non-empty identifiers. |
| `StagingInverse.EspIsDeletable` | providers/staged-iso/NativeStaged.cs:108-116 | Once the data partition is gone the EFI partition can be deleted as well. |
| `StagingInverse.UndoneEntries` | providers/staged-iso/NativeStaged.cs:108-116 | After both deletions the occupied entries, rewrite bytes aside, are the original ones in their order. |
| `StagingInverse.PlanThenDelete` | providers/staged-iso/NativeStaged.cs:32-116 | Plan, delete data, delete EFI is an inverse: it never fails exactly when the old identifiers are distinct and non-empty, and restores the entries; stale identifiers in free entries do no harm. |
| `DiskDiff.RecordOriginals` | providers/direct-x86/NativeDisk.cs:158-172 | The pass over the saved table indexes the other entries by identifier and notices the target; it fails only when the identifiers are ambiguous or there is no sole target. |
| `DiskDiff.MatchRemaining` | providers/direct-x86/NativeDisk.cs:173-178 | The pass over the re-read table empties the dictionary exactly when its occupied entries are a permutation of those indexed. |
| `DiskDiff.VerifyOnlyDelete` | providers/direct-x86/NativeDisk.cs:155-180 | Accepts exactly when the headers agree outside the count and the occupied entries after, rewrite bytes aside, are a permutation of those before without the one target; answers the layout whose digest is reported. |
| `DiskDiff.DeletionRemovesOneEntry` | providers/direct-x86/NativeDisk.cs:155-180 | An accepted deletion takes one occupied entry, the target, from the multiset of entries and adds none. |
| `DiskShrink.ExpectEntry` | providers/direct-x86/NativeDisk.cs:187-194 | One round copies the rewrite byte and shortens the entry with the identifier in the expected table; it fails only when there is no sole such entry. |
| `DiskShrink.VerifyOnlyShrink` | providers/direct-x86/NativeDisk.cs:181-198 | Accepts exactly when the tables differ only in rewrite bytes and in the length of the single entry with the identifier, which has the old extent before and the new length after. |
| `DiskShrink.ShrunkFields` | providers/direct-x86/NativeDisk.cs:181-198 | After an accepted resize the partition has the new length; every other field and byte of every entry stands, attributes and name included, rewrite bytes aside. |
| `BootLog.ReadU32` | providers/direct-x86/NativeBootEvidence.cs:30-33 | Reads a little-endian word and advances exactly when four bytes remain. |
| `BootLog.Skip` | providers/direct-x86/NativeBootEvidence.cs:34-37 | Advances exactly when the bytes are there. |
| `BootLog.ReadItems` | providers/direct-x86/NativeBootEvidence.cs:55-61 | Reads the tagged digests of a record; refuses only when no list of known, distinct algorithms of that length stands there. |
| `BootLog.ReadDigests` | providers/direct-x86/NativeBootEvidence.cs:52-62 | Reads the digests of either format; what it reads is the only well-formed digest list at the cursor. |
| `BootLog.ReadEvent` | providers/direct-x86/NativeBootEvidence.cs:49-64 | Reads one record within the buffer; what it reads is the only well-formed event at the cursor, and it refuses only when there is none. |
| `BootLog.EventFields` | providers/direct-x86/NativeBootEvidence.cs:50-64 | An encoded event stands at a place exactly when its fields can be read off there. |
| `DevicePath.ValidatePath` | providers/direct-x86/NativeBootEvidence.cs:97-125 | Accepts exactly the encodings of node lists with one GPT partition (the given one), the loader path and one closing end node. |
| `BootEvidence.ReadTable` | providers/direct-x86/NativeBootEvidence.cs:71-77 | Reads the digest-size table exactly when every entry is new and of 1 to 128 bytes. |
| `BootEvidence.ReadSpecification` | providers/direct-x86/NativeBootEvidence.cs:65-80 | Accepts exactly the well-formed Spec ID events and answers the digest sizes they announce. |
| `BootEvidence.CheckEvent` | providers/direct-x86/NativeBootEvidence.cs:65-91 | Accepts an event exactly when the grammar admits it after the events before it, and tells the format of the records that follow. |
| `BootEvidence.Validate` | providers/direct-x86/NativeBootEvidence.cs:41-95 | Accepts a buffer exactly when it is the encoding of a log of the grammar with one PCR 4 boot application whose path is accepted; answers exactly the PCR 4 records in order. |
| `BootEvidence.EventUnique` | providers/direct-x86/NativeBootEvidence.cs:49-64 | At most one well-formed event stands at a place. |
| `BootEvidence.LogsNest` | providers/direct-x86/NativeBootEvidence.cs:47-91 | If the encoding of one well-formed log is a prefix of another, so are its events: logs are parsed in one way only. |
| `BootEvidence.AcceptedPrefix` | providers/direct-x86/NativeBootEvidence.cs:41-95 | A prefix of an accepted log that is accepted too ends on an event boundary. |
| `LoaderPath.PathExact` | providers/direct-x86/NativeBootEvidence.cs:97-125 | A path of any nodes, then a hard drive node, file nodes and an end node is accepted exactly if the hard drive node holds the target's number, sectors and identifier and the texts, however they are cut, spell \EFI\Microsoft\Boot\bootmgfw.efi letter by letter, case aside. |
| `LoaderPath.OnePiece` | providers/direct-x86/NativeBootEvidence.cs:97-125 | The usual path of partition node, one file node and end node is accepted exactly if its text is of the loader path's length and agrees with it letter by letter, case aside. |
| `LoaderPath.TwoPieces` | providers/direct-x86/NativeBootEvidence.cs:112-124 | The same with the text cut over two file nodes. |
| `LoaderPath.AcceptedExact` | providers/direct-x86/NativeBootEvidence.cs:97-125 | Every accepted path is of that form. |
| `OrdinaryLog.AcceptedExact` | providers/direct-x86/NativeBootEvidence.cs:41-95 | The accepted logs have 32 bytes to 16 MiB and at most 65536 well-formed events, exactly one of them a PCR 4 event of kind 0x80000003, and its path is accepted. |
| `OrdinaryLog.LegacyLog` | providers/direct-x86/NativeBootEvidence.cs:41-95 | A log of one SHA-1 record is accepted exactly if this is such an event, and answered whole. |
| `OrdinaryLog.AgileLog` | providers/direct-x86/NativeBootEvidence.cs:65-95 | A log of a Spec ID event and one record with the announced digest is accepted exactly if that record is such an event; the answer is that record. |
| `LoadOption.BuildPath` | providers/staged-iso/NativeStaged.cs:143-148 | The buffer patched in place is the hard drive node, the file path node and the end node of UEFI Specification 2.10, sections 10.3.5.1 and 10.3.5.4. |
| `LoadOption.StagingBootOption` | providers/staged-iso/NativeStaged.cs:139-152 | Succeeds exactly for a positive partition number, a non-empty identifier and 512 MiB that begin on a MiB; the 156 bytes of the result are told one by one: the load option of UEFI Specification 2.10, section 3.1.3, with the title "Omarchy temporary installer" and the loader \EFI\BOOT\BOOTX64.EFI. |
| `LoadOption.LoadOptionPath` | providers/staged-iso/NativeStaged.cs:174-180 | The scan finds the device path behind the description, or nothing. |
| `LoadOption.PathOfEncoded` | providers/staged-iso/NativeStaged.cs:174-180 | Whatever the attributes, the description and the trailing data of an option, the reader finds its device path. |
| `LoadOption.PathOfExact` | providers/staged-iso/NativeStaged.cs:174-180 | The reader finds a path exactly in the options that encode it. |
| `LoadOption.DriveInjective` | providers/staged-iso/NativeStaged.cs:144-146 | A hard drive node determines partition, start sector and identifier. |
| `LoadOption.SameTargetOfBuilt` | providers/staged-iso/NativeStaged.cs:166-173 | Two built options name the same target exactly when partition, start and identifier agree. |
| `LoadOption.SurvivesRewriting` | providers/staged-iso/NativeStaged.cs:166-173 | An entry still names the target of a built option exactly when it is some option around that device path, with any attributes, description and trailing data. |
| `LoadOption.DriveAccepted` | providers/direct-x86/NativeBootEvidence.cs:103-111 | The boot log acceptor takes the hard drive node of a built option for the very partition it was built for. |
| `Firmware.NameIffIndex` | providers/staged-iso/NativeStaged.cs:158-161 | Formatting and parsing an entry name are inverse, and no other text is an entry name. |
| `Firmware.Variables.SetVariable` | providers/staged-iso/NativeStaged.cs:166 | A write stores the value it answers, the given one where the firmware does not interfere, or fails and changes nothing. |
| `StagedBoot.ReserveStagingBootName` | providers/staged-iso/NativeStaged.cs:153-157 | Answers the first name without a variable, or fails when all 65536 are taken. |
| `StagedBoot.FreeIsFree` | providers/staged-iso/NativeStaged.cs:155 | The name found has no variable; none is found only when all have one. |
| `StagedBoot.RegisterStagingBoot` | providers/staged-iso/NativeStaged.cs:162-167 | Success means that the name was free and the order as expected, and that exactly this variable was added; other outcomes write at most this free name. With a firmware that takes writes it succeeds exactly if the name is an entry name, free, and BootOrder is readable and has the expected digest. |
| `StagedBoot.RestoreStagingBoot` | providers/staged-iso/NativeStaged.cs:185-193 | Writes the recorded name while it is free or ours, else a free one; no entry with another target is ever overwritten. |
| `StagedBoot.ArmStagingBoot` | providers/staged-iso/NativeStaged.cs:199-205 | Sets BootNext only for our unchanged entry, with no foreign one-time boot pending, and changes nothing else: where BootNext holds the bytes of no number or of another entry's, the call fails and changes nothing; otherwise, with a firmware that takes writes, it succeeds exactly if the entry is unchanged. |
| `StagedBoot.KeepOthers` | providers/staged-iso/NativeStaged.cs:217-218 | The loop keeps the order without our index. |
| `StagedBoot.RemoveStagingBoot` | providers/staged-iso/NativeStaged.cs:206-226 | Success means that BootCurrent was the number of another entry; where it is missing, of another size or our own number, the call fails and changes no variable. With a firmware that takes writes it succeeds exactly if, moreover, the entry is foreign or BootOrder is readable and keeps another entry; then exactly our entry, its order slot and its own one-time boot are gone. Every outcome leaves foreign entries alone. |
| `StagedBoot.BootedExact` | providers/staged-iso/NativeStaged.cs:209 | The guard on the running entry passes exactly if BootCurrent is the two bytes of another entry's number. |
| `StagedBoot.PendingExact` | providers/staged-iso/NativeStaged.cs:201-202 | A pending one-time boot is allowed exactly if there is none or it is the two bytes of the entry's own number. |
| `StagedBoot.RemoveExact` | providers/staged-iso/NativeStaged.cs:206-226 | When a removal may go on, told from BootCurrent, the entry and BootOrder. |
| `StagedBoot.RemovedExact` | providers/staged-iso/NativeStaged.cs:206-226 | What a removal leaves: no entry, its slot out of the order, its own one-time boot cleared and another one kept, every other variable as it was; a foreign entry changes nothing. |
| `StagedBoot.SlotsWithout` | providers/staged-iso/NativeStaged.cs:217-218 | The slots of the rewritten order are the old ones without ours, in their order. |
| `StagedBoot.RegisterArmRemove` | providers/staged-iso/NativeStaged.cs:162-226 | Registering a free name, arming and removing it leave all variables as they were. |
| `StagedBoot.EachCallSparesForeign` | providers/staged-iso/NativeStaged.cs:162-226 | Step by step over every run among arbitrary firmware rewrites: a call leaves every entry alone that has another target at that moment, and takes from the order at most the slot it was made for, which then is not such an entry's, unless the firmware alters the order it is given. |
| `StagedBoot.ForeignEntrySurvives` | providers/staged-iso/NativeStaged.cs:162-226 | Over a whole run, an entry with another target that the firmware itself leaves alone is never overwritten or deleted. |
| `StagedBoot.OrderOnlyLosesOurs` | providers/staged-iso/NativeStaged.cs:206-226 | Over a whole run in which the firmware itself leaves the order alone and stores the orders it is given, BootOrder loses only slots of our entries, the rest staying in order. |
| `MenuText.SplitJoin` | providers/image-builder-x86/boot_menu.py:66 | Splitting joined lines gives the lines back. |
| `MenuText.StripJoin` | providers/image-builder-x86/boot_menu.py:58 | Stripping the newlines of a joined text trims its empty lines at both ends. |
| `MenuLines.OptionOfLine` | providers/image-builder-x86/boot_menu.py:39-41 | An option line is read back as its key and value. |
| `MenuLines.HeadingOfLine` | providers/image-builder-x86/boot_menu.py:67-69 | A heading line is read back as it was written. |
| `MenuLines.HeadingIsProper` | providers/image-builder-x86/boot_menu.py:67-69 | Headings read from lines are proper: written out, they are read back as the same heading. |
| `MenuGrammar.OptionExact` | providers/image-builder-x86/boot_menu.py:39-41 | The option pattern: a line is read as this key and value exactly if it is white space, the key in either case, white space, a colon, white space, the value without white space at its ends, and white space. |
| `MenuGrammar.HeadingExact` | providers/image-builder-x86/boot_menu.py:67 | The title pattern: a line is read as this heading exactly if it is white space, as many slashes as its level, a plus sign if it is expanded, the title and white space. |
| `MenuGrammar.NamesMachineExact` | providers/image-builder-x86/boot_menu.py:54-55 | A value names a machine exactly if machine-id= and 32 hexadecimal digits stand in it with no word character at either side. |
| `MenuGrammar.Utf8Exact` | providers/image-builder-x86/boot_menu.py:63 | The encoded size: one byte per character and one more from each of 128, 2048 and 65536 on. |
| `BootMenu.ReadMenu` | providers/image-builder-x86/boot_menu.py:65-71 | The loop over the lines builds the header and the entries, without the global settings. |
| `BootMenu.FindGroups` | providers/image-builder-x86/boot_menu.py:72 | The groups are the top-level entries that name a machine. |
| `BootMenu.FindKernels` | providers/image-builder-x86/boot_menu.py:78-86 | The kernels are the childless entries of level 2 with a boot protocol and no rescue title. |
| `BootMenu.KeepOthers` | providers/image-builder-x86/boot_menu.py:92-105 | The loop accepts exactly when no managed entry was changed, and keeps everything but the managed entries, with the group retitled. |
| `BootMenu.RenderMenu` | providers/image-builder-x86/boot_menu.py:61-110 | The rewriter computes the rendering that the theorems are about, and fails exactly where it does. |
| `MenuContents.ReadKeeps` | providers/image-builder-x86/boot_menu.py:65-71 | Reading keeps every line in its order, in the header or below its title, but those that set one of the four settings. |
| `MenuContents.ContentsKept` | providers/image-builder-x86/boot_menu.py:61-110 | The rewritten menu keeps the header and, behind its own two entries, all others in their order, the kernel group under the title "Advanced Omarchy options"; only empty lines come and go. |
| `MenuSettings.SettingsWritten` | providers/image-builder-x86/boot_menu.py:108-110 | Exactly one line of a rewritten menu sets default_entry, to Omarchy or Windows as chosen, one sets timeout to the number chosen, and one each sets remember_last_entry and quiet to no. |
| `MenuSettings.SystemsWritten` | providers/image-builder-x86/boot_menu.py:106-107 | The first entry is Omarchy with the lines of the chosen kernel entry, comments replaced; the second hands over to the Windows Boot Manager. |
| `MenuAccepts.RenderExact` | providers/image-builder-x86/boot_menu.py:61-105 | A menu is rewritten exactly if the countdown is one of four, the text is supported, one top-level entry names a machine, a normal kernel entry with an image stands below it, and no other entry poses as the installer's without being as written; the first such kernel is the one chosen. |
| `MenuRoundTrip.ReadWritten` | providers/image-builder-x86/boot_menu.py:61-110 | What is written is read back as the same header and entries, up to empty lines at the ends of bodies. |
| `MenuArrange.TheGroup` | providers/image-builder-x86/boot_menu.py:72-76 | The group found is the one entry of its kind. |
| `MenuArrange.KeptBeginsAtTop` | providers/image-builder-x86/boot_menu.py:92-104 | What follows a group still begins at the top level when the managed entries are gone. |
| `MenuArrange.CheckBack` | providers/image-builder-x86/boot_menu.py:96-101 | The managed entries pass the check of the next rewrite exactly when no child follows the second of them. |
| `MenuArrange.ArrangeAgain` | providers/image-builder-x86/boot_menu.py:72-107 | Arranging a menu that was written and read back finds the same group and kernel; it is accepted exactly when the third entry is at the top level. |
| `MenuConfluence.ArrangedShape` | providers/image-builder-x86/boot_menu.py:72-107 | An arranged menu has one group, the two managed entries first and only there, and the group with the same children. |
| `MenuConfluence.ThirdEntry` | providers/image-builder-x86/boot_menu.py:92-107 | The entry behind the managed ones is at the top level exactly when the menu began at the top level. |
| `MenuTheorems.PrimaryAgain` | providers/image-builder-x86/boot_menu.py:106 | The kept kernel gives the same primary entry again exactly when its body does not begin with an empty line. |
| `MenuTheorems.Confluent` | providers/image-builder-x86/boot_menu.py:61-110 | A rewritten menu can be rewritten exactly when the menu began at the top level and the size fits, and the earlier settings leave no trace exactly when the chosen kernel body does not begin with an empty line. |
| `MenuTheorems.FixedPoint` | providers/image-builder-x86/boot_menu.py:200-203 | A rewritten menu passes --check exactly under these same conditions. |
| `MenuExamples.DeepMenuIsRefused` | providers/image-builder-x86/boot_menu.py:61-110 | A concrete menu whose first entry is below the top level: it is rewritten for any settings and word characters, and no further rewriting accepts the result. |
| `MenuExamples.BlankMenuIsNoFixedPoint` | providers/image-builder-x86/boot_menu.py:200-203 | A concrete menu whose kernel body begins with an empty line: it is rewritten, and the result is no fixed point. |
| `MenuRebind.ConcatKeepLines` | providers/image-builder-x86/boot_menu.py:138 | Splitting with line ends loses nothing. |
| `MenuRebind.RebindMachine` | providers/image-builder-x86/boot_menu.py:135-156 | The loops compute the rebinding that the theorems are about, with its refusals and the exact-template exception. |
| `MenuGrammar.RootExact` | providers/image-builder-x86/boot_menu.py:139 | The heading of the managed group is white space, a slash, perhaps a plus sign, "Advanced Omarchy options" and white space. |
| `MenuGrammar.EndsExact` | providers/image-builder-x86/boot_menu.py:148 | The group ends at the first line that begins, white space aside, with a slash. |
| `RebindExact.RebindsExactly` | providers/image-builder-x86/boot_menu.py:135-156 | A menu can be rebound exactly to 32 lower-case hexadecimal digits, and if one managed group names one machine in one comment, or there is none and it is the reset template. |
| `RebindExact.Rebound` | providers/image-builder-x86/boot_menu.py:149-156 | What rebinding answers: the text with the 32 digits of that one identity replaced, or the template as it is. |
| `MenuIdentity.OneIdentity` | providers/image-builder-x86/boot_menu.py:152 | Where a line has one identity, replacing it changes its 32 digits only, and replacing again changes nothing. |
| `MenuIdentity.SameMachines` | providers/image-builder-x86/boot_menu.py:152 | The replacement neither makes nor breaks an identity anywhere in the line. |
| `MenuIdentity.CommentRebound` | providers/image-builder-x86/boot_menu.py:151-153 | A comment line with one identity stays a comment that names a machine. |
| `MenuRebound.FixedRenders` | providers/image-builder-x86/boot_menu.py:61-110 | Menus of the form that rewriting produces are fixed points. |
| `MenuRebound.FixedIsWritten` | providers/image-builder-x86/boot_menu.py:61-110 | Every fixed point has that form. |
| `MenuRebound.FixedWithBody` | providers/image-builder-x86/boot_menu.py:54-55 | Changing the body of the group to another that names a machine keeps that form. |
| `MenuRebound.OneInRange` | providers/image-builder-x86/boot_menu.py:149-155 | A count of one means one line with one identity, the other lines untouched. |
| `MenuMachine.RebindKeepsFixed` | providers/image-builder-x86/boot_menu.py:135-156 | Rebinding a fixed point changes nothing but 32 digits of one comment; the result is again a fixed point for the same settings, and rebinding it again changes nothing. |
| `JournalReplay.ReplayInner` | crates/journal/src/lib.rs:486-568 | The replay loop computes the replay that the theorems are about, for every buffer and anchor. |
| `JournalReplay.FoldNext` | crates/journal/src/lib.rs:508-548 | Replaying one line more is resuming the replay of the lines before. |
| `JournalTheorems.CheckExact` | crates/journal/src/lib.rs:516-545 | The guards of the replay on its running state are exactly the guards told from the entries alone. |
| `JournalTheorems.ReplayExact` | crates/journal/src/lib.rs:486-568 | The replay accepts a log exactly when its lines decode to a hash chain of one operation whose length and last hash a version 1 anchor under its own digest names. |
| `JournalTheorems.LifecyclePrefix` | crates/journal/src/lib.rs:577-586 | In every accepted log each step has run through a prefix of Prepared, Applied, Verified. |
| `JournalTheorems.NothingAfterTerminal` | crates/journal/src/lib.rs:537-539 | In every accepted log an entry with another one anywhere behind it is not terminal, and the reported state is the one that the last entry tells. |
| `JournalTheorems.HeadDetermines` | crates/journal/src/lib.rs:209-223 | Chains of one length with one head hash are the same, or a digest collision is exhibited. |
| `JournalTheorems.AnchorDetermines` | crates/journal/src/lib.rs:550-559 | Whatever two logs are accepted under one anchor tell the same history, or a digest collision is exhibited: no edit, reorder, removal or extension passes. |
| `JournalStore.FileStorage.Load` | crates/journal/src/lib.rs:390-406 | Loads the log and the anchor of the later generation among the readable ones. |
| `JournalStore.NewestExact` | crates/journal/src/lib.rs:390-406 | The anchor found is the readable one of the later generation, the second file's when they are equal. |
| `JournalStore.FileStorage.Commit` | crates/journal/src/lib.rs:408-434 | Commits the record and then the anchor into the slot of its generation, stopping wherever the fault says; a whole commit leaves log and record, the new anchor in the first file for even and in the second for odd generations, and the other file. |
| `JournalStore.RecordExtends` | crates/journal/src/lib.rs:729-736 | A log with the record of an admissible entry behind it replays to the report with that entry. |
| `JournalStore.CommitAgrees` | crates/journal/src/lib.rs:408-434 | After a whole commit the disk agrees with the grown report. |
| `JournalStore.ReopensAlike` | crates/journal/src/lib.rs:494-496 | Where memory and disk agree, reopening yields the report in memory unless the log is over 64 MiB. |
| `JournalStore.TornLog` | crates/journal/src/lib.rs:550-559 | No bytes behind a log fit the anchor of that log. |
| `JournalStore.CrashIsSafe` | crates/journal/src/lib.rs:408-434 | After a crash at any point inside a commit, whatever bytes it leaves in the log tail or the anchor file, the journal opens with the old report, with the new one, or not at all. |
| `JournalStore.CrashExact` | crates/journal/src/lib.rs:408-434 | After a commit that stopped anywhere the journal opens exactly if no byte reached a non-empty log, and then with the old report, or if the new anchor reads back, and then with the new one, within the size limit; between log and anchor it never opens. |
| `JournalStore.RetryExact` | crates/journal/src/lib.rs:663-699 | Why a failed commit ends the run: another entry appended in place of the failed one makes a journal that opens exactly if no byte of the failed record reached the log and the log stays within its limit; it then holds the other entry. |
| `JournalLog.AppendPastLimit` | crates/journal/src/lib.rs:494-496 | Whatever the length of the log, an admissible entry is appended and memory and disk agree, but the journal opens again exactly if log and record together are within 64 MiB. |
| `JournalLog.Journal.Create` | crates/journal/src/lib.rs:602-626 | Creates exactly on a blank disk; the report then has the one entry 0 of the given operation, plan and time, with no predecessor, and is what the disk replays to, at generation 0. |
| `JournalLog.Journal.Open` | crates/journal/src/lib.rs:628-641 | Opens exactly what replays under its anchor, and reports it; the generation is one below the entry count again where the anchors on disk count so. |
| `JournalLog.Journal.Append` | crates/journal/src/lib.rs:663-699 | Appends exactly admissible entries when the commit succeeds: the new entry has the first one's operation and plan, the given event and time, the entry count for its number and the last hash for its predecessor, and the log grows by its encoding and a newline. Memory and disk then agree, the generation stays one below the entry count, and the journal opens again exactly if log and record are within the limit. A failed append leaves the report alone and the disk safe, and for a journal in step it is exact when that disk opens. |
| `JournalLog.AppendedReplays` | crates/journal/src/lib.rs:663-699 | Whatever may be appended passes every guard of the replay. |
| `JournalLog.CommittedCounted` | crates/journal/src/lib.rs:687-691 | Every anchor on disk counts one entry more than its generation, whatever fault a commit meets, as long as a torn anchor file reads as no other anchor. |
| `JournalLog.AppendSurvives` | crates/journal/src/lib.rs:663-699 | For a journal in step, the exact condition under which it opens again after an append that stopped anywhere, and whether it then has the old report or the grown one. |
| `JournalRuns.MayAppend` | crates/journal/src/lib.rs:663-699 | What may be appended to a journal in step, told from its entries: nothing behind a terminal entry, identifiers of 1 to 96 plain characters, the next state of the step's lifecycle, within 16 KiB and below 2^64 entries. |
| `JournalRuns.CreateAppendOpen` | crates/journal/src/lib.rs:602-699 | Over every run of a creation and appends while the storage works, accepted or refused: the journal then opens exactly within 64 MiB, and reports exactly the history of these calls, with the operation and plan of the creation and the start followed by the recorded events in order. |
| `AppleMarker.StepKeeps` | apps/desktop/src-tauri/src/apple_setup.rs:283-443 | Every step of interface, worker, reader and companion keeps the invariant. |
| `AppleMarker.RunKeeps` | apps/desktop/src-tauri/src/apple_setup.rs:283-443 | So does every run, crashes and restarts between any two steps included. |
| `AppleMarker.UnsettledIsMarked` | apps/desktop/src-tauri/src/apple_setup.rs:914-968 | Over every run, while a written execute or retry request has no reply processed, the marker file exists. |
| `AppleMarker.NeverTwo` | apps/desktop/src-tauri/src/apple_setup.rs:872-968 | Over every run, no such request is written while another one is unsettled. |
| `AppleMarker.RestartRefuses` | apps/desktop/src-tauri/src/apple_setup.rs:182-205 | While a request of an earlier run is unsettled, a process started since starts nothing and writes nothing, however long it runs. |
| `AppleProgress.NoneLeftBehind` | apps/desktop/src-tauri/src/apple_setup.rs:953-962 | Over every run in which the marker file can be recorded and removed, a process that has looked, knows of no unknown outcome and whose worker holds no marker finds none on the disk. |
| `AppleProgress.RequestSettles` | apps/desktop/src-tauri/src/apple_setup.rs:914-968 | From every reachable state in which a process may start a request, an undisturbed one writes exactly one new identifier and, whatever the answer, leaves the process ready again with no marker. |
| `AppleProgress.LossIsKnown` | apps/desktop/src-tauri/src/apple_setup.rs:1117-1124 | When the reader of the current connection ends over a mutating request, the process knows of an unknown outcome from then on: it starts nothing again, and writes nothing if its worker was at rest. |
| `AppleProgress.RefusalSettles` | apps/desktop/src-tauri/src/apple_setup.rs:945-962 | A request on a closed connection, or one that is too large, is never written; the process ends as it was, without the marker. |
| `AppleProgress.LossSettles` | apps/desktop/src-tauri/src/apple_setup.rs:963-968 | A connection that is closed under a written request ends the wait: the worker is at rest, the outcome unknown, the marker kept. |
| `AppleProgress.BrokenSettles` | apps/desktop/src-tauri/src/apple_setup.rs:963-968 | So does a write that fails: the request counts as written. |
| `AppleProgress.FreshIsReady` | apps/desktop/src-tauri/src/apple_setup.rs:182-205 | A fresh process gets ready on its own. |
| `DownloadCache.VerifiedCache.TryBegin` | crates/downloader/src/lib.rs:174-210 | One try creates the partial and its state, asks for another token exactly when a file of either name exists, whether or not the partial can be removed again, and never touches an artifact. |
| `DownloadCache.VerifiedCache.Begin` | crates/downloader/src/lib.rs:172-216 | A started session is empty, recorded and on a token of its own; errors open none. |
| `DownloadCache.VerifiedCache.Resume` | crates/downloader/src/lib.rs:220-273 | The file is authoritative: the session resumes with the length and the hash of what the file holds. |
| `DownloadCache.VerifiedCache.Append` | crates/downloader/src/lib.rs:347-370 | Accepts exactly what fits the declared length; a refused append writes nothing; a failed one leaves the session open with the bytes that arrived in the file and neither hasher nor count advanced. |
| `DownloadCache.AppendKeeps` | crates/downloader/src/lib.rs:347-370 | Every append, failed ones included, keeps the cache sound. |
| `DownloadCache.VerifiedCache.Drop` | crates/downloader/src/lib.rs:347-370 | Dropping a session ends it and touches no file. |
| `DownloadCache.VerifiedCache.Finalize` | crates/downloader/src/lib.rs:415-452 | Succeeds exactly when count and digest are right and no step fails; then the artifact is accepted under its digest and partial and state are gone. The cache stays sound exactly if no torn file was linked. |
| `DownloadCache.LinkExact` | crates/downloader/src/lib.rs:432-446 | Linking the file of a verified session keeps the cache sound exactly if the file is not torn. |
| `DownloadCache.VerifiedCache.Discard` | crates/downloader/src/lib.rs:455-467 | Removes partial and state and no artifact. |
| `DownloadCache.VerifiedCache.Lookup` | crates/downloader/src/lib.rs:276-294 | Answers only artifacts of the right length and digest; fails exactly when the stored length differs. |
| `DownloadCache.VerifiedCache.Crash` | crates/downloader/src/lib.rs:408-452 | A crash ends every session and may leave arbitrary bytes in files not synced; the artifacts stand. |
| `DownloadCache.VerifiedCache.FinishPromoted` | crates/downloader/src/lib.rs:423-452 | A transfer that a crash left linked but not cleaned up can be resumed and finalized and finds its artifact in place. |
| `DownloadCache.CrashKeeps` | crates/downloader/src/lib.rs:408-452 | What a crash leaves satisfies the invariant of the cache. |
| `DownloadCache.Run` | crates/downloader/src/lib.rs:155-468 | Over every run of calls, errors and crashes, failed appends to sessions that stay open included, each artifact hashes to its own name and has the length declared by the transfer that promoted it, and once there it never changes. |
| `TransferHistory.TornExact` | crates/downloader/src/lib.rs:347-370 | A session gets torn exactly by an append that failed after bytes of it had reached the file. |
| `TransferHistory.FileIsVouchedFor` | crates/downloader/src/lib.rs:347-370 | Over every history of failed and successful appends to one session, the file is what its hasher absorbed exactly if no append failed after bytes had reached the file; equivalently, if the file is as long as the session counts. |
| `TransferHistory.PromotionExact` | crates/downloader/src/lib.rs:415-452 | Linking the file of a verified session keeps every artifact equal to its name exactly if file and hasher have one digest, whatever the state. |
| `TransferHistory.SafeToPromote` | crates/downloader/src/lib.rs:347-452 | So after any history a verified session is safe to promote exactly if no append tore the file, or by a digest collision that is exhibited. |
| `TransferHistory.ReusedSession` | crates/downloader/src/lib.rs:347-370 | A concrete session that goes on after a failed write: one byte of [1, 2] arrives, the append is repeated and succeeds, the session verifies, and the artifact it makes is [1, 1, 2]. |
| `FakeDevice.MemoryBlockDevice.ReadAt` | testkit/fake-block-device/src/lib.rs:48-53 | Reads as much as the device has from the offset on, or fails beyond its end. |
| `FakeDevice.MemoryBlockDevice.WriteAt` | testkit/fake-block-device/src/lib.rs:55-60 | Overwrites as much as the device has from the offset on and nothing else. |
| `FakeDevice.FaultInjectingDevice.TakeAction` | testkit/fake-block-device/src/lib.rs:219-231 | Consumes the first pending fault for the call, if any, and only that. |
| `FakeDevice.FaultInjectingDevice.ReadAt` | testkit/fake-block-device/src/lib.rs:239-256 | Delivers what the device holds exactly when the corruption count stays; failing or making no progress consumes a fault. |
| `FakeDevice.FaultInjectingDevice.WriteAt` | testkit/fake-block-device/src/lib.rs:258-272 | Writes a prefix of the buffer or nothing; failing or making no progress consumes a fault. |
| `FakeDevice.FaultInjectingDevice.Flush` | testkit/fake-block-device/src/lib.rs:274-286 | Counts a flush exactly when it succeeds. |
| `FakeDevice.ConsumeOne` | testkit/fake-block-device/src/lib.rs:219-231 | Consuming a fault lowers the number of unconsumed ones by one: the measure of the retry loops. |
| `MediaWriter.NewPlan` | crates/media-writer/src/lib.rs:42-65 | Makes a plan exactly when it is one that writing relies on: not empty, with a chunk of 1 byte to 16 MiB and an end below 2^64. |
| `MediaWriter.ReadSourceExact` | crates/media-writer/src/lib.rs:367-382 | Success means exactly the requested bytes of the source; over short reads and interruptions it ends. |
| `MediaWriter.WriteDeviceExact` | crates/media-writer/src/lib.rs:384-413 | Whatever happens a prefix of the buffer is on the device and nothing else changed; success means all of it. |
| `MediaWriter.ReadDeviceExact` | crates/media-writer/src/lib.rs:415-447 | Success delivers the range of the device exactly when no corruption took effect. |
| `MediaWriter.WriteImage` | crates/media-writer/src/lib.rs:285-296 | The write loop leaves a prefix of the source in the range, all of it on success. |
| `MediaWriter.FirstDifference` | crates/media-writer/src/lib.rs:322-325 | The comparison accepts exactly equal chunks and otherwise tells the first difference. |
| `MediaWriter.VerifyImage` | crates/media-writer/src/lib.rs:316-340 | The readback loop over a device that holds the image accepts only when no corruption took effect. |
| `MediaWriter.WriteAndVerify` | crates/media-writer/src/lib.rs:248-346 | Ends for every finite list of faults; success means that the range equals the source, one flush came between the writes and the reads, and no corruption took effect; every outcome leaves the bytes outside the range alone; with harmless faults only it succeeds exactly when sizes fit. |
| `PlanHash.FeedHasher` | crates/ipc/src/lib.rs:304-328 | The hasher is fed the hash input that the theorem is about. |
| `PlanBytes.StreamBytes` | crates/ipc/src/lib.rs:304-358 | Every byte of the stream under the hash, for every plan: the 22 bytes of the domain, then field behind field with its number of kind or its eight big-endian bytes, and the steps by their numbers. |
| `PlanHash.CutStep` | crates/ipc/src/lib.rs:314-326 | A step is told apart from what follows it, provider steps of varying length included. |
| `PlanHash.StepsInjective` | crates/ipc/src/lib.rs:313-327 | Equal encodings of equally many steps come from equal steps. |
| `PlanHash.HashInputInjective` | crates/ipc/src/lib.rs:304-358 | Equal hash inputs force equal operation, action, artifact, target and steps. |
| `OperationTracker.Tracker.PreparePlan` | crates/ipc/src/lib.rs:703-720 | Accepts exactly new operations with 1 to 64 steps, the hash of the plan's stream, non-zero sizes and, for USB, a removable or simulated target that is large enough; records the binding. |
| `OperationTracker.Tracker.ExecutePlan` | crates/ipc/src/lib.rs:722-740 | Accepts exactly the binding of a prepared operation. |
| `OperationTracker.Tracker.Report` | crates/ipc/src/lib.rs:742-775 | Accepts exactly the next event of an executing operation, in number, with units that go neither back nor past the total, and all of them done if it says completed. |
| `OperationTracker.Tracker.CancelOperation` | crates/ipc/src/lib.rs:777-796 | Accepts exactly the plan hash of an operation that has not ended. |
| `OperationTracker.Tracker.Handle` | crates/ipc/src/lib.rs:698-796 | Any request is accepted exactly as the protocol says, and a refused one changes nothing. |
| `OperationTracker.LogTells` | crates/ipc/src/lib.rs:698-796 | Over every run an operation is prepared at most once, executed at most once and then with exactly that binding; its events are numbered 0, 1, 2, with units never going back. |
| `OperationFate.LogDecides` | crates/ipc/src/lib.rs:742-796 | Over every run each state of an operation is told from its requests: it completed or failed exactly if its last event says so, was cancelled exactly if that says so or a cancellation naming its plan was accepted, and executes exactly from its execution until then. |
| `OperationTracker.SameHashSamePlan` | crates/ipc/src/lib.rs:304-358 | Two valid plans of one hash are one plan, or their two hash inputs are different byte streams with one digest. |
| `OperationTracker.ExecutesThePlan` | crates/ipc/src/lib.rs:722-740 | An accepted execution of a valid plan names the one plan that was prepared, or two different byte streams with one digest are exhibited: the hash inputs of the two plans. |
| `OperationTracker.TerminalIsFinal` | crates/ipc/src/lib.rs:677-681 | Whatever is accepted later, an operation that has ended stays as it is. |
| `OperationTracker.ReplayGuard.Accept` | crates/ipc/src/lib.rs:644-660 | Accepts exactly the next envelope of this session and version, so that none is accepted twice. |
| `PhysicalWrite.SpanIsLeast` | providers/media-etcher/src/physical-engine.ts:29-34 | The span is the least multiple of the sector at or above the length. |
| `PhysicalWrite.SpanExact` | providers/media-etcher/src/physical-engine.ts:29-34 | A span is answered exactly if it is that least multiple and a safe integer. |
| `PhysicalWrite.WholeEnd` | providers/media-etcher/src/physical-engine.ts:114-117 | A chunk that ends the image is padded up to exactly the span. |
| `PhysicalWrite.HeldDevice.Write` | providers/media-etcher/src/physical-engine.ts:110-136 | Accepts exactly whole sectors, or the last chunk of the image, at a sector, within image and buffer, once writing is enabled; success stores the chunk and, at the end, zeros up to the span, and changes no other byte; a refused write changes nothing. |
| `PhysicalWrite.HeldDevice.Release` | providers/media-etcher/src/physical-engine.ts:138-141 | After a release no write is accepted. |
| `PhysicalWrite.WriteAll` | providers/media-etcher/src/physical-engine.ts:110-136 | Over every sequence of writes, short ones included, nothing at or beyond the span changes and the padding holds only old bytes or zeros; if all are accepted and together are all of an image, in any order and overlapping or not, the device holds that image and zeros up to the span. |
| `PhysicalWrite.WriteAndRead` | providers/media-etcher/src/physical-engine.ts:236-259 | An image that was written whole is accepted by the readback under its digest exactly if the device reaches the span; whatever is accepted has the digest and clean padding. |
| `PhysicalWrite.Readback` | providers/media-etcher/src/physical-engine.ts:247-259 | Accepts exactly when the prefix has the expected digest, the padding is zero and the device does not end before the span: a short read is refused. |
| `PhysicalWrite.AcceptedIsImage` | providers/media-etcher/src/physical-engine.ts:247-259 | With the digest of the image expected, exactly the image and zeros are accepted, or a collision is exhibited. |
| `CacheTree.Expect` | scripts/portable-cache-helper/src/main.rs:138-147 | The loops collect the listed files by key and the keys of their ancestors. |
| `CacheTree.DirsMean` | scripts/portable-cache-helper/src/main.rs:142-146 | The expected directories are the proper ancestors of listed files. |
| `CacheTree.FilesMean` | scripts/portable-cache-helper/src/main.rs:140-141 | Where no two entries share a key, every entry is expected at its key. |
| `CacheTree.KeysMean` | scripts/portable-cache-helper/src/main.rs:138-147 | Two paths have one key exactly if name by name they compare alike. |
| `CacheTree.WalkMeetsAll` | scripts/portable-cache-helper/src/main.rs:148-200 | The worklist meets every entry of the tree, each exactly as often as the tree holds it. |
| `CacheTree.ReadDirectory` | scripts/portable-cache-helper/src/main.rs:151-199 | Reading one directory checks its entries and queues its directories; it refuses only when the tree is not exact. |
| `CacheTree.RightNumber` | scripts/portable-cache-helper/src/main.rs:201-203 | Distinct entries that fit are the whole manifest exactly when their number is right. |
| `CacheTree.ExactInAnyOrder` | scripts/portable-cache-helper/src/main.rs:148-200 | Whether a tree is exact does not depend on the order in which it is met. |
| `CacheTree.Verify` | scripts/portable-cache-helper/src/main.rs:136-205 | Accepts a directory tree exactly when it is the manifest; ends on every tree. |
| `CacheTree.ExactMeans` | scripts/portable-cache-helper/src/main.rs:136-205 | To be the manifest is to hold every listed file with its size and digest and every directory above one, nothing else, and nothing twice. |
| `Mounts.CoversIsPrefix` | providers/media-etcher/src/physical-linux.ts:37-38 | The comparison of mountpoint texts is the prefix order on lists of names. |
| `Mounts.HasDuplicates` | providers/media-etcher/src/physical-linux.ts:25-26 | The map is smaller than the table exactly when two mounts share an identifier. |
| `Mounts.ClimbToRoot` | providers/media-etcher/src/physical-linux.ts:27-34 | The walk up the ancestry ends on every table, cyclic ones included, with the ancestry or a repeated identifier. |
| `Mounts.AssertVisibleMount` | providers/media-etcher/src/physical-linux.ts:24-41 | Accepts exactly when identifiers are unique, the ancestry reaches its end and only ancestors cover the mountpoint. |
| `Mounts.VisibleExact` | providers/media-etcher/src/physical-linux.ts:24-41 | What is accepted, without lookup map and text comparison: unique identifiers, a line of parents to a mount that has none, never twice at one identifier, in which every mount at or above the mountpoint is. |
| `Mounts.LookupFinds` | providers/media-etcher/src/physical-linux.ts:24-41 | Every component-by-component lookup of an accepted mountpoint ends on that very mount, from whichever listed mount at the root directory it begins: one that is its own parent, one whose parent the table does not list, or one that stands on another. |
| `Mounts.LookupExists` | providers/media-etcher/src/physical-linux.ts:24-41 | From each listed mount at the root directory there is such a lookup. |

## Left out

Weaker than the code, or under an assumption:

- DiskShrink.VerifyOnlyShrink: array lengths are below 2^31, as in .NET.
- BootEvidence.Validate: a null buffer is not modelled; the loader path is compared without regard to case on ASCII letters, other characters being taken to fold to none of them.
- LoaderPath.PathExact: for targets with a non-negative extent and texts of seven-bit characters; `DevicePath.ValidatePath` is exact for all.
- OrdinaryLog.LegacyLog: for paths shorter than 1 MiB; `BootEvidence.Validate` is exact for all logs.
- StagedBoot.OrderOnlyLosesOurs: speaks of runs in which the firmware itself leaves BootOrder alone and no removal fails because the firmware stored another order than it was given; call by call, `StagedBoot.EachCallSparesForeign` holds in every run.
- StagedBoot.RemoveStagingBoot: where the firmware stores another BootOrder than it was given, the call fails and is only proved to leave foreign entries alone.
- StagedBoot.ForeignEntrySurvives: speaks of an entry that the firmware itself leaves alone during the run; variable reads are atomic and fail only by the variable being absent, and each call runs without the firmware writing in between, as the calls themselves cannot see such a write.
- MenuMachine.RebindKeepsFixed: Python's word characters are a parameter of which only two facts are used: hexadecimal digits are word characters and a newline is not.
- RebindExact.RebindsExactly: uses the same two facts of word characters.
- BootMenu.RenderMenu: the settings arrive as a value, so that only the countdown is validated here; character classes of the regular expressions are modelled on the characters they name.
- JournalStore.CommitAgrees: assumes that record and anchor serialization are inverted by parsing and that a record contains no newline.
- JournalStore.CrashExact: assumes that a torn anchor file reads as no anchor or as the new one, and that no anchor on disk counts more entries than the log has (which `JournalLog.Journal.Append` keeps); `JournalStore.CrashIsSafe` needs neither.
- JournalStore.RetryExact: assumes moreover that the beginning of one record and another record do not parse as one, and that a failed write of the log leaves a prefix of the record.
- JournalLog.Journal.Append: memory and disk agree while commits succeed; after a failed one only the safety of the disk is claimed.
- JournalRuns.CreateAppendOpen: speaks of runs whose commits succeed; what a failed one leaves is told by `JournalStore.CrashExact` and `JournalStore.RetryExact`.
- DownloadCache.VerifiedCache.Resume: no other session of the token is open; two live sessions on one file are not modelled.
- DownloadCache.VerifiedCache.Finalize: the invariant is promised only where the file linked is not torn; the code does not check this, and the application drops a session whose append failed.
- DownloadCache.Run: finalizes no torn session, on that ground; everything else may be called on it.
- DownloadCache.VerifiedCache.Crash: links and removals in the directory are taken as durable, though the source syncs no directory; a crash that undoes one is not modelled.
- AppleMarker.NeverTwo: the companion answers only identifiers it was sent, and nothing but the worker removes the marker.
- AppleProgress.NoneLeftBehind: speaks of runs in which the marker file can be recorded and removed.
- AppleProgress.RequestSettles: speaks of one request without other steps in between; `AppleMarker.NeverTwo` and `AppleMarker.RestartRefuses` hold over every run.
- MediaWriter.WriteAndVerify: seek failures and progress callbacks are not modelled.
- PhysicalWrite.HeldDevice.Write: the SDK's aligned write stores a prefix of the buffer it is given; acquiring and re-identifying the device are not modelled.
- CacheTree.Verify: case folding is a function on path components, and directory listings do not change during the walk.
- Mounts.AssertVisibleMount: the table is given; parsing its text is not modelled.
- Mounts.LookupFinds: the table is as the kernel keeps it, with every mount at or below the mountpoint of its listed parent, and lists a mount at the root directory.

Not modelled:

- Win32 calls, handles, volume locks, privileges, retries, process spawning and timeouts.
- `AllocateStaging` and `Allocate` beyond the pure planning: their disk writes, and their loops of the same shape as the staging planner and the comparisons.
- Selecting the Windows boot entry (`InspectWindowsBoot`, `OneTimeBootAllowed` with a negative index).
- `after_update` and `apply` of the boot menu, which choose between the modelled rewriting, rebinding and the reset template; reading and replacing files.
- JSON encodings, protocol frames, diagnostics export and queries of the operation tracker.
- Exceptions are told apart only where the code branches on them; their messages are shortened.
- Cryptography itself: every digest is an uninterpreted function, and hashing in blocks is hashing the whole.
- `FileBlockDevice`, which serves the same interface as the memory device from a file.
- Handle leasing and the directory chain of the cache helper; loading its manifest beyond the uniqueness of keys.
- The content of Apple plans, credentials and dialogs, and requests that do not mutate.
- Counters that would have to pass 2^64 before they matter, other than where the code checks them.
