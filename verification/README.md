# A model of the shared-disk boot system

Raspberry Pis with SD cards are booted over serial lines by a coordinator (the mac side), which gives
each card an id inside a named filesystem. This project models the four parts of that system in which
state, arithmetic and ordering matter, and proves what they are for.

**The FAT32 driver** (`pi-src/fat32.c`, `pi-src/string.c`). `Fat32Driver.Fat32` holds the in-memory
FAT as an array and writes to a card, a map from sector addresses to 512-byte sectors that also
remembers every image it has held after a write (`Card.SdCard`). `Effects` describes what file
creation does to the card write by write; the methods of the class are proved to have exactly these
effects. What creation means is then proved of the effects: the directory list gains one record, the
cluster chains form a forest that only grows, clusters are handed out first-fit, and every image on
the way is one a crash may leave behind. `PowerFailure` says what such an image is: a healthy card
from which the next session goes on. `FileRuns` lifts these results to runs of any number of
operations and power failures. `Layout` and `DirectoryBytes` describe the card as bytes at fixed offsets,
without the driver's own readings, and prove that mounting, the FAT, the directory and a lookup are
about exactly those bytes. `AsWritten` models the three places where the driver as written does
not do what the rest relies on, each with the exact condition under which it does.

**The id table on each card** (`pi-src/main.c`, `pi-src/fat32-dfs.c`). `ConfigTable` models the table
in the configuration file's first sector; `IdTable` is its meaning as a list of rows; `DiskIdentity`
joins mounting, finding or creating the configuration file, and looking a name up.

**The boot protocol** (`mac-src/bootpi.c`, `mac-src/pi-install.c`, `pi-src/main.c`; plan in
`PLAN.txt`). `Handshake` is a two-process machine over single bytes, with the pi's sliding opcode
window and the mac's 32-bit words. `HandshakeWords` is the same conversation word by word, and
`NameFraming` decides for which names the two sides count the same words. `Registry` is the protocol
over sessions, disks and reboots; `Coordinator` is the program that runs the sessions, and says which
registry event each handshake amounts to. `Fleet` puts everything together: real cards, worked on by
boots, file creations, rewrites and power failures, whose tables are at every moment the registry's
disks.

**Two streams.** `Crc32` proves the table-driven checksum of `mac-src/boot-crc32.h` equal to
bit-at-a-time division (RFC 1952, section 8), `CrcTheorems` what it detects, and `CrcResidue` the laws
that fix its value; `DoneScanner` proves
the end-marker scanner of `mac-src/get-pi-output.c` right on every stream and every split into reads.

## How the pieces read

- An image is a card's contents; `Creation` records one call of `fat32_alloc_local_file`: the
  clusters it took and the image after each sector write. `Creates(g, d, e)` says that `e` is such a
  call on image `d`; `Images(e)` are its images in order and `Final(e)` the last.
- `Sane(g)` says that no 32-bit address wraps, that the root directory starts at cluster 2, and that
  headers, FAT and data do not overlap. `Valid()` of the driver adds that the FAT in memory is the FAT
  on the card and that mounting the card finds this volume; every method keeps it.
- `Sound(g, d, root)` says that the root directory is a chain, that every listed file heads a complete
  chain of clusters in use, and that no two of these chains meet. Records that are deleted (first byte
  0xe5), belong to long names or have first cluster 0 own no chain.
- The terminal of a directory is read as the code reads it: a slot with attribute 0x0f is never a
  terminal, although marking a slot as terminal clears only its first byte. Directory refinement is
  therefore an if-and-only-if with the condition `Appendable`, and `TidyDirectory` gives a condition
  that creation preserves.
- In a run of `Fleet`, power lost while a boot creates the configuration file is a cut creation followed
  by the event `Panic`; power lost after the id was written is `PanicAt`.
- `Show` is a predicate that is always true. Definitions guarded by it are unfolded only where a proof
  names an index.

## What turned out not to hold as written, and what holds instead

- The chain scans compare with `-1`, which the 28-bit mask never produces
  (`Chains.MinusOneNeverReached`). As written they leave the directory, for cluster 0x0fffffff, exactly
  when it has no terminal (`AsWritten.ScanRootAsWritten`; a lookup exactly when it has neither terminal
  nor match, `AsWritten.GetClusterNoAsWritten`); the code after the insertion scan, which would extend
  the directory, is then not reached. `Fat32Driver.Fat32.ScanRoot` and `GetClusterNo` stop at
  0x0fffffff, the value the code compares with after the loop, so every result about an `Extended`
  creation is about the scan with that end test.
- The loader steps through memory in units of 512 words per FAT sector; everything else uses 128. As
  written it loads the card's FAT if and only if the FAT has at most one sector
  (`AsWritten.LoaderIsExact`); with two, a cluster in use can look free (`AsWritten.LoaderLosesCluster`).
  `Fat32Driver.Fat32.Load` uses 128.
- Allocation does not check the -1 of a failed search: the index it stores to is inside the FAT if and
  only if a cluster is free (`AsWritten.StoreIndex`).
- Between the two directory writes at a sector boundary, a crash is harmless exactly when the slot
  after the new record was already a terminal (`CrashSafety.MidwayExact`); a stale record there can
  make two listed files share a chain (`CrashSafety.MidwayUnsound`).
- The handshake can complete only for names whose length is a multiple of four up to 24, or 23 to 26
  (`HandshakeTheorems.SucceedsExactlyWhenFramed`).
- Ids stay unique as long as they fit a byte and no session that gave out a row ends in a panic
  (`Registry.RegistrySafety`). Both conditions are needed: `Registry.ByteReusesId`,
  `Registry.PanicReusesId`, and exactly `Registry.GuardIsExact` and `Registry.BootUnique`. A full
  table does not endanger uniqueness; it hands out a fresh id at every boot (`IdTable.AssignedOnce`).
- The scanner's index is static and never reset. It makes a difference to the next stream exactly when
  that begins with the rest of the marker (`DoneScanner.LeftoverMatters`).

## Model

| member | source | states |
|---|---|---|
| CString.Strncpy | pi-src/string.c:3-22 | copies the text before the first 0 or 0xff, at most n - 1 bytes of it, terminates it, and leaves every other byte of the destination alone |
| CString.Strncmp | pi-src/string.c:24-32 | reports equal exactly when, within n bytes, one text is a prefix of the other |
| CString.SameNameBytes | pi-src/string.c:24-32 | in bytes: any two strings are reported equal exactly when no byte that both reach within n differs |
| Crc32.TableIsEightSteps | mac-src/boot-crc32.h:11-55 | each of the 256 constants is its index after eight steps of reflected division by 0xEDB88320 |
| Crc32.CrcInc | mac-src/boot-crc32.h:57-64 | for every buffer and start value the table loop computes the bit-serial checksum |
| Crc32.CrcLoop | mac-src/boot-crc32.h:61-62 | the byte loop alone: the register is the start value fed with every bit of the buffer |
| Crc32.Crc | mac-src/boot-crc32.h:66-68 | the checksum of a program download is the bit-serial checksum from 0 |
| CrcTheorems.Concatenation | mac-src/boot-crc32.h:57-64 | feeding the first part's result into the second call checksums the concatenation |
| CrcTheorems.BurstDetected | mac-src/boot-crc32.h:57-68 | equal-length messages that differ only inside 32 consecutive bits, aligned or not, have different checksums |
| CrcTheorems.FourByteDamageDetected | mac-src/boot-crc32.h:57-68 | damage confined to four consecutive bytes is always detected |
| CrcTheorems.Affinity | mac-src/boot-crc32.h:11-64 | the checksum of the xor of three messages is the xor of their checksums |
| CrcResidue.Residue | mac-src/boot-crc32.h:57-68 | any message followed by its own checksum, low byte first, has the checksum 0x2144df1c |
| CrcResidue.LeadingZeros | mac-src/boot-crc32.h:57-68 | one to four zero bytes in front of any message change its checksum |
| CrcResidue.CheckValue | mac-src/boot-crc32.h:11-68 | the checksum of "123456789" is the published 0xcbf43926 |
| DoneScanner.NoBorder | mac-src/get-pi-output.c:21-31 | no proper prefix of the marker ends another one, so falling back to 0 or 1 suffices |
| DoneScanner.ScanInvariant | mac-src/get-pi-output.c:19-34 | the index is the longest prefix of the marker that ends the stream, and stays inside the array exactly while no NUL follows a complete marker |
| DoneScanner.DoneExactlyAtMarker | mac-src/get-pi-output.c:33 | the scan reports done exactly when the stream so far ends with the marker |
| DoneScanner.LeftoverIndex | mac-src/get-pi-output.c:23-33 | from any index 0 to 8 left over, the scan reports as if that many bytes of the marker had come before |
| DoneScanner.LeftoverMatters | mac-src/get-pi-output.c:23-33 | a leftover index changes a report about the next stream if and only if that begins with the rest of the marker |
| DoneScanner.Scanner.PiDoneScan | mac-src/get-pi-output.c:19-34 | one byte: done exactly when the stream with it ends with the marker |
| DoneScanner.Scanner.ScanRead | mac-src/get-pi-output.c:128-135 | one read: stops at the first byte that completes a marker |
| DoneScanner.Scanner.ScanReads | mac-src/get-pi-output.c:113-153 | any split into reads: the outcome depends only on the bytes |
| Volume.AddressRange | pi-src/fat32.c:728-733 | no cluster address wraps, and every data sector lies past every FAT sector |
| Volume.AddressInjective | pi-src/fat32.c:728-733 | distinct (cluster, sector) pairs have distinct addresses |
| Volume.FlushSector | pi-src/fat32.c:68-77 | writing the one sector in which card and memory differ makes the card's FAT the FAT in memory |
| Volume.MirrorBytes | pi-src/fat32.c:73-77 | each sector of the card's FAT is byte for byte its 128-word slice |
| Volume.FatUntouched | pi-src/fat32.c:84-85 | a write outside the FAT region changes no entry |
| Volume.MountsUnique | pi-src/fat32.c:931-969 | a card has one mounting outcome: a geometry, two partitions, or a wrong sector size |
| Volume.MountKept | pi-src/fat32.c:929-967 | mounting depends only on the partition table and the volume header |
| Layout.FormatIsRead | pi-src/fat32.c:931-969 | a card whose partition entry and header hold given parameters at their byte offsets mounts as the volume they describe, clusters behind all the FATs, and in no other way |
| Layout.MountedIsFormatted | pi-src/fat32.c:931-969 | conversely a card mounts as a volume only if it has no partition in use or holds such parameters |
| Layout.FormatThenMount | pi-src/fat32.h:19-48 | formatting a card with any parameters that fit, in any partition, and mounting it gives the parameters back |
| Layout.DataBehindEveryFat | pi-src/fat32.c:956-961 | on a mounted card no data or directory sector lies in any of its FAT copies, if the FATs end below 2^32 |
| Layout.FatInBytes | pi-src/fat32.c:68-77 | entry k is the little-endian number in the four bytes at offset 4k of the first FAT |
| Layout.SlotInBytes | pi-src/fat32.c:223-235 | the directory's slots are its clusters' bytes in order, 32 at a time |
| Chains.MinusOneNeverReached | pi-src/fat32.c:37-46 | the masked next cluster is never the -1 the scans compare with |
| Chains.TopBitsIgnored | pi-src/fat32.c:43-45 | the top four bits of an entry play no part in traversal, though a free entry must have none set |
| Chains.ChainUnique | pi-src/fat32.c:37-46 | a FAT determines the chain from a cluster |
| Chains.ChainAcyclic | pi-src/fat32.c:37-46 | a chain that reaches the end mark visits no cluster twice |
| Chains.FirstFitExtends | pi-src/fat32.c:50-60 | the least free cluster now is the next in first-fit order of the starting FAT |
| Chains.LinkedIsChain | pi-src/fat32.c:147-171 | what was handed out is a chain, ended by 0x0fffffff |
| Chains.FreeAccounting | pi-src/fat32.c:147-171 | the free clusters lose exactly those handed out |
| Chains.AllocationKeepsForest | pi-src/fat32.c:139-177 | every existing chain stays and shares nothing with the new one |
| Directory.FileRecordFields | pi-src/fat32.c:143-155 | a filled-in record reads back its name, attribute 0 and first cluster through the two halves |
| Directory.FileRecordBytes | pi-src/fat32.c:143-155 | the record byte by byte: name at 0, attribute at 11, cluster halves at 26 and 20, all other bytes kept |
| Directory.HitAt | pi-src/fat32.c:648-664 | the first match before a terminal decides a lookup |
| DirectoryBytes.LookupFinds | pi-src/fat32.c:639-668 | in bytes: a lookup returns the first cluster of the first listed record whose eleven name bytes agree with the name up to where either ends, or -1 |
| DirectoryBytes.FindsByName | pi-src/fat32.c:651 | where all those names are eleven plain bytes, it is the first record with exactly the name asked for |
| Directory.InsertionAppends | pi-src/fat32.c:257-340 | in the three layouts with a terminal, the list gains exactly the new record if and only if the next slot was usable; it always grows |
| Directory.InsertedBySlot | pi-src/fat32.c:266-340 | slot by slot, what an insertion changes: at a sector's end the next sector becomes a copy of this one with its first slot cleared |
| Directory.ExtensionAppends | pi-src/fat32.c:356-391 | the same for the chain-extension layout |
| Fat32Driver.Fat32.Load | pi-src/fat32.c:971-989 | with the stride of 128 words that the rest of the driver uses, loading reads exactly the FAT on the card |
| Fat32Driver.Fat32.Init | pi-src/fat32.c:922-994 | mounting succeeds or panics as the card's partition table and header say, and, loading with that stride, yields a coherent driver |
| Fat32Driver.Fat32.FindPartition | pi-src/fat32.c:931-969 | the partition loop decides the card's one mounting outcome |
| Fat32Driver.Fat32.Remount | pi-src/fat32.c:971-992 | mounting again, with that stride, after any run of operations rebuilds the same volume and the same FAT |
| Fat32Driver.Fat32.NextCluster | pi-src/fat32.c:37-46 | the successor in the 28-bit chain |
| Fat32Driver.Fat32.FindFreeLocalCluster | pi-src/fat32.c:50-60 | the least free cluster from 2 on, or -1 if and only if none is free |
| Fat32Driver.Fat32.StoreAndFlush | pi-src/fat32.c:66-77 | one entry changes in memory and on the card, nothing outside the FAT |
| Fat32Driver.Fat32.AllocFreeLocalCluster | pi-src/fat32.c:64-88 | if a cluster is free, ends and blanks the least one in two writes that disturb nothing in use |
| Fat32Driver.Fat32.PointFat | pi-src/fat32.c:125-137 | one link changes, in memory and on the card |
| Fat32Driver.Fat32.AllocLocalFileAt | pi-src/fat32.c:139-177 | n least free clusters, one if n is 0, become one blanked chain, write by write, and the record names its head |
| Fat32Driver.Fat32.LinkOneMore | pi-src/fat32.c:161-171 | one round: end and blank a cluster first, link it afterwards |
| Fat32Driver.Fat32.ScanSector | pi-src/fat32.c:235-245 | finds the directory's terminal if it is in this sector |
| Fat32Driver.Fat32.ScanCluster | pi-src/fat32.c:223-344 | the same for one cluster |
| Fat32Driver.Fat32.ScanRoot | pi-src/fat32.c:202-348 | with the end test 0x0fffffff the scan ends, stays inside the FAT, and finds the terminal's place or that there is none |
| Fat32Driver.Fat32.AllocLocalFile | pi-src/fat32.c:181-395 | the card passes through exactly the images of a creation, in order, and the driver stays coherent |
| Fat32Driver.Fat32.InsertRecord | pi-src/fat32.c:257-340 | the same where a terminal was found |
| Fat32Driver.Fat32.WriteRecord | pi-src/fat32.c:266-339 | the one or two directory writes of the three layouts, in order |
| Fat32Driver.Fat32.ExtendRoot | pi-src/fat32.c:350-392 | the same where the chain ended without a terminal |
| Fat32Driver.Fat32.GrowRoot | pi-src/fat32.c:361-362 | the directory gains one cluster, ended before it is linked |
| Fat32Driver.Fat32.FillFresh | pi-src/fat32.c:373-391 | the record goes first in the fresh cluster, a terminal after it |
| Fat32Driver.Fat32.SearchSector | pi-src/fat32.c:648-665 | one sector decides a lookup or contains neither terminal nor match |
| Fat32Driver.Fat32.SearchCluster | pi-src/fat32.c:641-666 | the same for one cluster |
| Fat32Driver.Fat32.GetClusterNo | pi-src/fat32.c:629-671 | with the end test 0x0fffffff returns the first cluster of the first listed match, or -1, and writes nothing; a match is also stated in the bytes of the records, for plain names as equality |
| AsWritten.LoadStrided | pi-src/fat32.c:975-987 | the loading loop as written: sector i of the FAT lands at word 512 * i, and the words between keep what memory held |
| AsWritten.LoaderIsExact | pi-src/fat32.c:975-987 | that is the FAT on the card, whatever memory held, if and only if the FAT has at most one sector |
| AsWritten.LoaderLosesCluster | pi-src/fat32.c:975-987 | a two-sector FAT on which a cluster in use is taken for a free one |
| AsWritten.ScanRootAsWritten | pi-src/fat32.c:202-348 | the insertion scan as written finds a terminal, or goes on to cluster 0x0fffffff, past the FAT, if and only if there is none |
| AsWritten.GetClusterNoAsWritten | pi-src/fat32.c:629-671 | the lookup as written returns the right answer, or goes on there if and only if the directory has neither a terminal nor a match |
| AsWritten.StoreIndex | pi-src/fat32.c:64-66 | the index allocation stores to is inside the FAT if and only if a cluster is free, and 0x0fffffff otherwise |
| FileCreation.InPlaceSlots | pi-src/fat32.c:266-340 | the directory's slots after an in-place creation and, at a sector boundary, in between |
| FileCreation.ExtendedSlots | pi-src/fat32.c:350-391 | the slots after a creation that extended the directory |
| FileSystem.CreationRefines | pi-src/fat32.c:209-391 | the list after a creation is the list before plus the record if and only if the directory was appendable, in all four layouts |
| FileSystem.CreationAccounting | pi-src/fat32.c:50-88 | a creation takes exactly the least free clusters, n of them or one for n = 0, in increasing order, and the free count drops by their number |
| FileSystem.CreationCount | pi-src/fat32.c:147-171 | the free count drops by n, or by one for n = 0, and by one more exactly when the directory had no terminal |
| FileSystem.UnchangedEntries | pi-src/fat32.c:64-137 | no FAT entry changes but those of clusters taken and of the directory |
| FileSystem.CreationForest | pi-src/fat32.c:139-177 | one new chain of exactly n clusters, or one for n = 0, one more directory cluster exactly when there was no terminal, sharing nothing |
| FileSystem.OtherChains | pi-src/fat32.c:139-177 | every other chain is there afterwards if and only if it was there before |
| CrashSafety.CreationIsCrashSafe | pi-src/fat32.c:257-391 | after every prefix of the writes the card mounts, lists the old files or those and the new one, and is sound, save between the two writes of the sector-boundary layout |
| CrashSafety.MidwayExact | pi-src/fat32.c:307-312 | there it is recoverable if and only if the slot after the record was a terminal before |
| CrashSafety.MidwayUnsound | pi-src/fat32.c:294-312 | a stale record of a listed file in that slot makes two listed files share a chain |
| FileContents.CreationKeepsClusters | pi-src/fat32.c:64-137 | no image of a creation touches a sector or the entry of a cluster in use outside the directory |
| FileContents.FreshFileIsBlank | pi-src/fat32.c:79-85 | every cluster of a new file starts with a blank sector |
| FileLookup.CreateThenFind | pi-src/fat32.c:629-671 | after creating an absent name a lookup returns its cluster if and only if the name does not start with 0 |
| FileLookup.FoundStaysFound | pi-src/fat32.c:629-671 | a name that was found stays found at the same cluster after any creation |
| FileLookup.AbsentMeansAbsent | pi-src/fat32.c:629-671 | on a sound card -1 means that no listed file matches |
| TidyDirectory.CreationKeepsTidy | pi-src/fat32.c:245-340 | no 0x0f slot up to the terminal's sector and a terminal only in the last cluster: such a directory is appendable and stays so |
| PowerFailure.CutIsHealthy | pi-src/fat32.c:64-391 | power lost before the last write, other than midway, leaves a mountable card that is again sound, tidy and lists the old files, from which further operations may go on |
| PowerFailure.CreationLeaks | pi-src/fat32.c:64-171 | at worst clusters leak: those missing in any image are the first few of those the creation takes |
| FileRuns.CutAllowed | pi-src/fat32.c:64-391 | power may fail after any such write, so the runs below include those failures |
| FileRuns.RunAccounting | pi-src/fat32.c:50-88 | over a run with power failures the clusters handed out are, together, the least free ones of the start, strictly increasing |
| FileRuns.RunKeepsCluster | pi-src/fat32.c:64-137 | over such a run a file's cluster that is not rewritten keeps all its sectors |
| FileRuns.RunHealthy | pi-src/fat32.c:181-395 | over such a run the list gains one record per completed creation, in order, with its name and cluster; the card stays sound, tidy and mountable |
| FileRuns.RunIsCrashSafe | pi-src/fat32.c:257-391 | wherever power fails next, other than midway, the card is sound, tidy and mountable and lists exactly what the run created, and the new file if that was its last write |
| FileRuns.RunKeepsFound | pi-src/fat32.c:629-671 | a file found before such a run is found at the same cluster after it |
| IdTable.Find | pi-src/main.c:89-106 | the first row whose name strncmp takes for the one asked for |
| IdTable.RecordedStays | pi-src/main.c:100-105 | a recorded id is answered again, whatever call follows and whatever id is offered |
| IdTable.AssignedOnce | pi-src/main.c:89-126 | after -1 the next call returns the id, cut to 16 bits, if and only if there was room |
| ConfigTable.IdForDfs | pi-src/main.c:65-136 | the answer is that of the table's rows; the sector is written exactly when -1 is returned, with one entry filled or, when full, unchanged; both are also stated in bytes |
| ConfigTable.AnswerBytes | pi-src/main.c:89-106 | in bytes: of sixteen 32-byte entries the first in use whose 30 name bytes agree decides, with its id at offset 30 |
| ConfigTable.AnsweredBytes | pi-src/main.c:89-97 | in bytes: at most 29 bytes of name, a 0 and the id go to the first entry that starts with 0, and no other byte changes |
| ConfigTable.ScanTable | pi-src/main.c:89-106 | the entry loop on the sector in memory |
| ConfigTable.CompareEntry | pi-src/main.c:101-103 | compares one entry's name and reads its id |
| ConfigTable.StoreEntry | pi-src/main.c:95-96 | fills one entry, name cut to 29 bytes and terminated, and no other byte |
| ConfigTable.FilledAppends | pi-src/main.c:89-97 | filling the first vacant entry of a packed table appends one row |
| ConfigTable.AnsweredRows | pi-src/main.c:108-126 | the sector written back holds the rows the call comes to, and stays packed |
| ConfigTable.BlankIsEmpty | pi-src/fat32-dfs.h:12-17 | a blank sector is an empty, packed table |
| DiskIdentity.InitConfig | pi-src/fat32-dfs.c:4-13 | given room to create it if it is missing, afterwards the configuration file is found at the returned cluster; if it was there before, nothing is written; if not, it has two clusters and the free count fell by exactly those and one for a directory without a terminal |
| DiskIdentity.FreshConfig | pi-src/fat32-dfs.c:8-10 | a configuration file just created is found and reads as an empty table |
| DiskIdentity.ConfigInUse | pi-src/fat32-dfs.c:5-6 | the configuration file's cluster is in use and not one of the directory's |
| DiskIdentity.TableCall | pi-src/main.c:108-109 | writing the table back keeps the card ready and the file where it is |
| DiskIdentity.Identify | pi-src/main.c:161-185 | mounting, configuring and looking up answer and update the table as its rows say; a recorded id costs no write |
| DiskIdentity.IdNeverChanges | pi-src/main.c:89-106 | once recorded, an id is answered after any run of creations, power failures, boots under any names and rewrites of other files |
| Fleet.OpKeepsTable | pi-src/fat32.c:64-391 | creations, completed or cut short, and rewrites of other files leave a card's id table as it is, also when the configuration file itself is created |
| Fleet.RunSimulates | pi-src/main.c:161-201 | over any run of the whole system each card's table is the registry's disk after the run's events |
| Fleet.CardsHaveOwnIds | mac-src/pi-install.c:187-201 | over any guarded run of the whole system, power failures included, no two cards hold the same id under one name, and ids stay below the name's counter |
| Fleet.CardRowsAreDistinct | mac-src/pi-install.c:187-201 | the same of the rows on the cards: rows of one name, on two cards or on one, have different ids |
| NameFraming.OnesWord | mac-src/pi-install.c:93-107 | a word of the padded name is 0xffffffff exactly behind a name of that many bytes |
| NameFraming.Framing | mac-src/bootpi.c:43-51 | both sides count the same words exactly for lengths that are multiples of four up to 24, and 23 to 26 |
| NameFraming.NameArrives | pi-src/main.c:48-63 | then the pi's buffer reads as exactly the name, whatever it held before |
| HandshakeWords.InStep | pi-src/main.c:140-182 | the pi reads the last word as its id exactly for names of a framed length |
| HandshakeWords.NeverSilent | pi-src/main.c:140-182 | in step, every word finds the pi at a place from which it answers |
| HandshakeWords.IdOnlyLast | pi-src/main.c:155-183 | no word of a name is ever taken for an opcode that leads to the id |
| HandshakeWords.NameInBuffer | pi-src/main.c:152-153 | in step, the buffer that is looked up holds the name |
| HandshakeSafety.SomeStepIs | mac-src/bootpi.c:53-127 | one of the guards holds if and only if some step is possible, so a run that no guard lets go on has stopped |
| Handshake.Aligned | pi-src/main.c:145-147 | the sliding window matches an opcode only when aligned with a word, and exactly that word |
| HandshakeSafety.HearStep | pi-src/main.c:48-63 | each byte of a word takes the pi one step further wherever it waits |
| HandshakeSafety.MacKeepsInv | mac-src/bootpi.c:53-127 | every step of the mac keeps the two sides in lock-step or stranded |
| HandshakeSafety.PiKeepsInv | pi-src/main.c:140-201 | so does every step of the pi |
| HandshakeSafety.InvHolds | mac-src/bootpi.c:53-127 | the lock-step invariant holds in every reachable state of every interleaving |
| HandshakeSafety.NoDeadlock | mac-src/bootpi.c:62-124 | in step, until the mac returns one of the two can move |
| HandshakeSafety.RunsAreBounded | mac-src/bootpi.c:62-124 | no schedule keeps the two sides busy for ever |
| HandshakeTheorems.Agreement | mac-src/bootpi.c:112-124 | on success the mac's claimed id is the pi's, table and counter are settled, and only the end marker is left to read |
| HandshakeTheorems.TableAgrees | pi-src/main.c:185-201 | the agreed id is the one in the table, given room or a row, and the offered one when the table is full; the counter moves exactly when a row was written or the table was full |
| HandshakeTheorems.SucceedsExactlyWhenFramed | mac-src/bootpi.c:53-127 | some run succeeds if and only if the name has a framed length |
| HandshakeTheorems.StopsOnlyAtTheEnd | mac-src/bootpi.c:85-126 | for a framed name a run that cannot go on has succeeded or timed out in select |
| HandshakeTheorems.NothingLost | mac-src/bootpi.c:85-88 | a handshake that timed out or is out of step changed neither table nor counter |
| HandshakeTheorems.ChannelsAligned | mac-src/bootpi.c:25-33 | what is on its way to the pi is the rest of one word |
| HandshakeTheorems.TableFollowsLookUp | pi-src/main.c:185 | in every state the table is updated if the pi is past its look-up, which it reaches only under a name of a framed length, and as before if it is not |
| HandshakeTheorems.LookedUpOnce | pi-src/main.c:185 | being past it means exactly that one of the steps so far was the look-up |
| HandshakeTheorems.WaitsForMount | mac-src/bootpi.c:71-88 | the word the mac waits on in select is the one before the request for an id |
| Registry.CallHolds | pi-src/main.c:89-106 | a call gives a table at most the offered id, under the name asked for |
| Registry.BootUnique | mac-src/pi-install.c:102-116 | a boot keeps ids unique if and only if the id it writes is not in use under that name |
| Registry.BootKeepsSafe | mac-src/bootpi.c:105-121 | short of 256 ids a boot keeps every registry invariant, full tables included |
| Registry.CloseKeepsSafe | mac-src/pi-install.c:187-201 | a session that returns keeps them |
| Registry.PanicExact | mac-src/bootpi.c:17-23 | a panic breaks them if and only if the session had given out a row |
| Registry.GuardIsExact | mac-src/pi-install.c:115-116 | while ids fit a byte, an event keeps them if and only if it loses no counter that moved past a row |
| Registry.RegistrySafety | mac-src/pi-install.c:187-201 | over any guarded run no two disks hold the same id under one name and every id is below the name's counter |
| Registry.RowsAreDistinct | pi-src/main.c:89-97 | the same in rows: rows of one name on any disks have different ids, below the counter, and no disk has two rows of a name |
| Registry.HoldsRow | pi-src/main.c:100-105 | with names told apart, to answer an id under a name is to have the row of exactly that name and id |
| Registry.IdIsStable | pi-src/main.c:100-105 | a disk keeps its id over any events, panics included |
| Registry.KnownTakesNone | mac-src/bootpi.c:118-121 | booting a disk that has an id leaves tables and counter alone |
| Registry.PanicReusesId | mac-src/pi-install.c:196-201 | one lost write-back gives the next new disk the same id |
| Registry.ByteReusesId | mac-src/bootpi.c:105 | the 257th disk of a session gets the id of the first |
| Coordinator.Installation.InitDfs | mac-src/pi-install.c:134-153 | a session starts with the counter of the filesystem's file, 0 for a new one |
| Coordinator.Installation.DfsBoot | mac-src/bootpi.c:85-126 | one boot is the registry's event, nothing after a time-out, or one of the two panic events |
| Coordinator.Installation.BootConnectedPies | mac-src/pi-install.c:58-119 | the loop boots the disks in order up to the first that times out or panics and knows whether the counter moved |
| Coordinator.Installation.Install | mac-src/pi-install.c:160-206 | a session is opening, those boots, and closing with write-back or a panic that loses it; names that cannot be framed boot nothing; what it leaves is also stated outright, as in the next row |
| Coordinator.SessionLeaves | mac-src/pi-install.c:187-206 | after a return the file holds the counter reached; after a panic it holds the old one, and the disk whose handshake broke has one more row, with the id offered, exactly when its pi had looked the name up and had none and room |
| Coordinator.HandshakeIsBoot | mac-src/bootpi.c:53-127 | a handshake that completes has the effect of the registry's boot on disk and counter |
| Coordinator.CardIsBoot | pi-src/main.c:161-201 | so does the pi's work on the card itself, on the table the card holds |
| Coordinator.BrokenHandshake | mac-src/bootpi.c:17-23 | one cut off by a panic leaves the disk as the event after the look-up does if the pi was past it, and as the event before it does otherwise |
| Coordinator.TimeOutIsNothing | mac-src/bootpi.c:85-88 | one that times out changes nothing |

## Left out

- Fat32Driver.Fat32.Load: loads with a stride of 128 words, not the 512 of the code; `AsWritten.LoaderIsExact` says exactly when the two agree.
- Fat32Driver.Fat32.Init: mounts with that loader, so its coherent driver is what the code yields only for FATs of at most one sector.
- Fat32Driver.Fat32.Remount: durability with that loader, under the same condition for the code as written.
- Fat32Driver.Fat32.ScanRoot: ends at 0x0fffffff, not at -1; `AsWritten.ScanRootAsWritten` is the loop as written.
- Fat32Driver.Fat32.GetClusterNo: ends at 0x0fffffff, not at -1; `AsWritten.GetClusterNoAsWritten` is the loop as written.
- Fat32Driver.Fat32.AllocFreeLocalCluster: needs a free cluster. Without one the code stores outside the FAT (`AsWritten.StoreIndex`), and what that overwrites is not modelled.
- Fat32Driver.Fat32.AllocLocalFileAt: needs as many free clusters as it takes, for the same reason.
- Fat32Driver.Fat32.AllocLocalFile: needs as many free clusters as it takes, for the same reason; so do `DiskIdentity.InitConfig` and `DiskIdentity.Identify` when the configuration file has to be created.
- AsWritten.ScanRootAsWritten: stops where the code would read past the FAT; what it reads there is not modelled. So does `AsWritten.GetClusterNoAsWritten`.
- Request sizes of 2^31 clusters and more, which the code converts to a negative number.
- Wrapping volumes: results about addresses are for volumes on which no 32-bit address wraps; `Volume.ClusterLba` itself wraps as the code does.
- The second FAT copy, long names, file sizes, timestamps, subdirectories and deletion, which the driver never maintains.
- Record buffers are sequences of 32-byte slots that the methods reassign, not arrays updated in place; the FAT, the id-table sector and the destination of `strncpy` are arrays.
- The nested scan loops are split into one method per loop, and the four layouts of insertion into methods of their own.
- The checksum table is a function given by its rows, not an array; `Crc32.CrcLoop` takes it as an argument.
- Coordinator.Installation.DfsBoot: takes what comes of its handshake as an argument, restricted to what the handshake allows for the name; `Coordinator.HandshakeIsBoot`, `TimeOutIsNothing` and `BrokenHandshake` justify the effects.
- Coordinator.Installation.Install: is for names that are non-empty and hold no 0 or 0xff byte; which pies answer is an argument.
- Registry.RegistrySafety: is for runs in which ids fit a byte and a session that gave out a row returns; the lemmas after it show that both are needed.
- Registry names are non-empty, shorter than 30 bytes and told apart by strncmp; the filesystem file holds only its counter, since the entries beside it are never written.
- `boot()` of mac-src/bootpi.c: its peer, the pi's bootloader, is not part of this model; only the checksum it sends is.
- Device discovery, terminal setup, printing, the drain loop over several pies and process exit: input and output. A disconnected line appears as the registry's panic events.
- The SD card driver, GPIO, timers, start-up code and the print routines: hardware and output helpers. Reading and writing one sector is total, and one write is atomic.
- Dump and inspection routines and code under `#if 0`.
