# Partition 1008 device-list repair, modelled in Dafny

`fix_partition_1008` is a command-line tool for the Porsche PCM5 (MH2P)
head unit. It repairs the Android Auto device list that the unit keeps in
its persistence database. The list is one blob: the row with key 1 of
partition 1008 in the `persistence-data` table. The blob starts with a
16-byte header:

- an 8-byte big-endian CRC-32 of everything after byte 8;
- a 4-byte version;
- a 4-byte device count.

Device records follow the header. Each record holds:

- length-prefixed strings deviceUniqueId and smartphoneType;
- an optional name;
- the userAcceptState string;
- two flags, a 4-byte lastMode and a lastConnectionType string.

A phone whose userAcceptState is stuck at `NATIVE_SELECTED` cannot connect.
The tool finds the first 32 occurrences of the 17-byte length-prefixed
string `NATIVE_SELECTED` and replaces each with the 21-byte string
`DISCLAIMER_ACCEPTED`. Any later occurrence is copied unchanged. It then recomputes the CRC in the header and writes
the blob back, after taking a backup.

The model has five modules, one per part of the C file:

- `Bytes` (`bytes.dfy`): the big-endian readers and writer, and CRC-32 as
  its bitwise definition.
- `DeviceList` (`device_list.dfy`): `parse_device_names`. Its exact walk
  is written as a mutually recursive specification. The code is kept as
  written, and a corrected copy sits beside it.
- `Scanner` (`scanner.dfy`): the two patterns and `find_issues`. The
  specification of `find_issues` is the sequence of all match positions.
- `Rebuild` (`rebuild.dfy`): the rebuild loop over a byte array, and the
  header rewrite. The specification is `Spliced`, the blob with every
  reported window replaced, and `Repaired`, that blob with a fresh
  checksum. Both take the 21-byte replacement as a parameter, and the
  tool passes `DISCLAIMER_ACCEPTED`.
- `Tool` (`tool.dfy`): main's argument loop, with `Tokens` as its
  reference definition, and the mode and ordering skeleton of
  `fix_database`. The database and the backup command are modelled as the
  answers they give (`Storage`). What the tool does to the outside world is
  the trace of `Effect`s it produces.

## Model

Every source cell is a path to `fix_partition_1008/fix_partition_1008.c`.

Some functions define the source's operations and carry no contract that
says what they compute. The readers and `Tool.Tokens` have only a bound.
The lemma rows state what these functions compute:

- `DeviceList.DeviceWalk` by `DeviceList.DeviceWalkWithin`;
- `Scanner.MatchesFrom` and `Scanner.Matches` by `Scanner.MatchesFromSound`,
  `Scanner.MatchesFromComplete`, `Scanner.MatchesFromSpaced` and
  `Scanner.MatchesExact`;
- `Rebuild.Spliced` by `Rebuild.SplicedLength`, `Rebuild.SplicedWindow` and
  `Rebuild.SplicedCopy`;
- `Tool.Tokens` by `Tool.RejectedEndsReading` and the `Tool.ParseArguments`
  loop that follows it token by token.

| member | source | states |
|---|---|---|
| Bytes.ReadBe16 | fix_partition_1008/fix_partition_1008.c:97-99 | a 16-bit field read from two bytes is below 2^16 |
| Bytes.ReadBe32 | fix_partition_1008/fix_partition_1008.c:102-105 | a 32-bit field read from four bytes is below 2^32 |
| Bytes.ReadBe64 | fix_partition_1008/fix_partition_1008.c:77-82 | a 64-bit field read from eight bytes is below 2^64 |
| Bytes.ReadBe16Value | fix_partition_1008/fix_partition_1008.c:97-99 | read_be16 is the big-endian value of the two bytes at the offset, below 2^16 |
| Bytes.ReadBe32Value | fix_partition_1008/fix_partition_1008.c:102-105 | read_be32 is the big-endian value of the four bytes at the offset, below 2^32 |
| Bytes.ReadBe64Value | fix_partition_1008/fix_partition_1008.c:77-82 | read_be64 is the big-endian value of the eight bytes at the offset, below 2^64 |
| Bytes.BeValueBound | fix_partition_1008/fix_partition_1008.c:77-105 | the big-endian value of n bytes is below 256^n |
| Bytes.BeValueInjective | fix_partition_1008/fix_partition_1008.c:77-82 | two byte strings of equal length with the same big-endian value are equal |
| Bytes.Be64Bytes | fix_partition_1008/fix_partition_1008.c:85-94 | write_be64 produces exactly eight bytes |
| Bytes.WriteBe64 | fix_partition_1008/fix_partition_1008.c:85-94 | the first eight cells of the buffer become the big-endian bytes of the value; the rest of the buffer is unchanged |
| Bytes.LowBytesValue | fix_partition_1008/fix_partition_1008.c:85-94 | the low n bytes cut from a value below 256^n by shift-and-mask read back as that value |
| Bytes.ReadAfterWrite64 | fix_partition_1008/fix_partition_1008.c:77-94 | read_be64 after write_be64 gives back the written value |
| Bytes.WriteAfterRead64 | fix_partition_1008/fix_partition_1008.c:77-94 | write_be64 of what read_be64 read reproduces the eight bytes |
| Bytes.Be64BytesOf32 | fix_partition_1008/fix_partition_1008.c:389-390 | a 32-bit CRC written by write_be64 has four zero high bytes, and read_be32 at offset 4 gives it back |
| Bytes.Crc32 | fix_partition_1008/fix_partition_1008.c:72-74 | the checksum is a 32-bit value |
| Bytes.Crc32CheckValue | fix_partition_1008/fix_partition_1008.c:72-74 | the CRC-32 of "123456789" is 0xCBF43926, the standard check value of zlib's crc32 |
| DeviceList.WalkFromWithin | fix_partition_1008/fix_partition_1008.c:148-198 | devices found from an offset are at most the remaining budget; positions lie in [offset, end of blob], strictly increasing; names are at most 255 bytes |
| DeviceList.AfterIdWithin | fix_partition_1008/fix_partition_1008.c:157-162 | the same bounds once deviceUniqueId has been skipped |
| DeviceList.AfterTypeWithin | fix_partition_1008/fix_partition_1008.c:162-181 | the same bounds once smartphoneType has been skipped |
| DeviceList.NameFieldWithin | fix_partition_1008/fix_partition_1008.c:168-178 | the same bounds from the name field of a named device |
| DeviceList.AfterNameWithin | fix_partition_1008/fix_partition_1008.c:184-197 | the same bounds from userAcceptState; the recorded position is that offset |
| DeviceList.DeviceWalkWithin | fix_partition_1008/fix_partition_1008.c:138-201 | a blob under 16 bytes gives no device and no over-read; at most max_devices and at most the header's count; positions in [16, blob length], increasing; names at most 255 bytes |
| DeviceList.PassAsWritten | fix_partition_1008/fix_partition_1008.c:152-162 | one pass as written (smartphoneType length read unchecked) continues the walk exactly, over-read included |
| DeviceList.Pass | fix_partition_1008/fix_partition_1008.c:152-162 | one pass with the missing bound check records the same device and moves on as the walk does |
| DeviceList.FinishPass | fix_partition_1008/fix_partition_1008.c:165-181 | the has-name flag selects a copied name or "unknown", as the walk does |
| DeviceList.ReadName | fix_partition_1008/fix_partition_1008.c:169-178 | a name that fits is cut to at most 255 bytes and the offset skips its full length; one that does not fit ends the walk |
| DeviceList.RecordDevice | fix_partition_1008/fix_partition_1008.c:184-197 | the device is recorded at the userAcceptState offset only if every later length read fits |
| DeviceList.Advance | fix_partition_1008/fix_partition_1008.c:148-198 | a recorded device appends to the list and the walk continues from the next record |
| DeviceList.ParseDeviceNamesAsWritten | fix_partition_1008/fix_partition_1008.c:138-201 | the devices parse_device_names records, and whether it read past the blob, are those of the walk, whatever the stray bytes are |
| DeviceList.ParseDeviceNames | fix_partition_1008/fix_partition_1008.c:138-201 | the corrected parser records the same devices as the walk, reading only inside the blob |
| DeviceList.OverReadWitness | fix_partition_1008/fix_partition_1008.c:157-162 | an 18-byte blob announcing one device makes the walk read the smartphoneType length past the end |
| Scanner.PatternsAreStrings | fix_partition_1008/fix_partition_1008.c:53-56 | both patterns are big-endian length-prefixed strings of 17 and 21 bytes, 4 bytes apart in length |
| Scanner.PatternZeroOnlyFirst | fix_partition_1008/fix_partition_1008.c:53 | no byte of NATIVE_SELECTED after the first is zero |
| Scanner.NoSelfOverlap | fix_partition_1008/fix_partition_1008.c:214-215 | two occurrences of NATIVE_SELECTED never overlap |
| Scanner.SpacedBounds | fix_partition_1008/fix_partition_1008.c:214 | spaced positions leave room for the pattern and are at least 17 apart |
| Scanner.SpacedPrefix | fix_partition_1008/fix_partition_1008.c:214 | a prefix of spaced positions is spaced |
| Scanner.MatchesFromSound | fix_partition_1008/fix_partition_1008.c:214-215 | every position the scan yields holds the pattern |
| Scanner.MatchesFromComplete | fix_partition_1008/fix_partition_1008.c:214-215 | every occurrence at or after the start is yielded |
| Scanner.MatchesFromSpaced | fix_partition_1008/fix_partition_1008.c:214-215 | the positions yielded are increasing and non-overlapping |
| Scanner.MatchesExact | fix_partition_1008/fix_partition_1008.c:214-215 | the scan from 0 yields exactly the occurrences of the pattern, in order, without overlap |
| Scanner.CStringPrefix | fix_partition_1008/fix_partition_1008.c:222 | strcpy copies the bytes before the first zero, and that prefix holds no zero |
| Scanner.NameOfDevice | fix_partition_1008/fix_partition_1008.c:219-225 | the name is that of the first parsed device recorded at the position |
| Scanner.NameUnknown | fix_partition_1008/fix_partition_1008.c:219 | no parsed device at the position gives "unknown" |
| Scanner.UnknownIsCString | fix_partition_1008/fix_partition_1008.c:180 | "unknown" survives strcpy unchanged |
| Scanner.NameAt | fix_partition_1008/fix_partition_1008.c:219-225 | the lookup loop returns the name of the first parsed device at the position, or "unknown" |
| Scanner.FindIssues | fix_partition_1008/fix_partition_1008.c:204-232 | the issue positions are the first max_issues occurrences of NATIVE_SELECTED, and each name is the one the device list gives that position |
| Scanner.ReportedIssues | fix_partition_1008/fix_partition_1008.c:204-232 | the reported positions number at most max_issues, hold the pattern, are 17 apart, and are all of them when there are no more than max_issues |
| Scanner.IssueNames | fix_partition_1008/fix_partition_1008.c:211-225 | an issue's name is a parsed device's name up to its first zero, or "unknown" when none is at the position |
| Rebuild.SplicedLength | fix_partition_1008/fix_partition_1008.c:361 | the rebuilt blob is 4 bytes longer per replaced window |
| Rebuild.SplicedWindow | fix_partition_1008/fix_partition_1008.c:378-382 | the k-th window, shifted by 4k, holds the 21 replacement bytes |
| Rebuild.SplicedCopy | fix_partition_1008/fix_partition_1008.c:383-384 | every byte outside a window is copied, shifted by 4 per earlier window |
| Rebuild.SplicedNothing | fix_partition_1008/fix_partition_1008.c:368-386 | with no issue the loop copies the blob unchanged |
| Rebuild.CopyBeforeWindow | fix_partition_1008/fix_partition_1008.c:383-384 | a byte before the first window is copied in place |
| Rebuild.RepairedHeader | fix_partition_1008/fix_partition_1008.c:360-390 | the new blob is 4 bytes longer per issue and keeps the spliced payload after byte 8; it starts with four zero bytes and then the CRC-32 of its payload, so the next CRC check passes |
| Rebuild.RepairedUnchanged | fix_partition_1008/fix_partition_1008.c:360-390 | a blob with a valid checksum and no issue is rebuilt to itself |
| Rebuild.AtIssue | fix_partition_1008/fix_partition_1008.c:370-376 | at_issue is set exactly when the read position is an issue position |
| Rebuild.IssueHere | fix_partition_1008/fix_partition_1008.c:370-376 | with the windows before the read position consumed, the position is an issue exactly when it is the next window's; otherwise it lies in no window and after exactly the windows consumed |
| Rebuild.PutReplacement | fix_partition_1008/fix_partition_1008.c:380 | the 21 replacement bytes are written at the offset and nothing else changes |
| Rebuild.PutByte | fix_partition_1008/fix_partition_1008.c:384 | one byte is written at the offset and nothing else changes |
| Rebuild.CopyProgress | fix_partition_1008/fix_partition_1008.c:383-384 | the copy branch keeps the written prefix equal to the start of the splice, with the write cursor 4 bytes ahead per window read |
| Rebuild.WindowProgress | fix_partition_1008/fix_partition_1008.c:378-382 | the replace branch does the same, writing 21 bytes and reading 17 |
| Rebuild.SpliceStep | fix_partition_1008/fix_partition_1008.c:368-386 | one pass of the loop moves the read cursor forward and keeps the loop state |
| Rebuild.AllRead | fix_partition_1008/fix_partition_1008.c:368 | when the read cursor reaches the end of the blob, every window has been read and the buffer holds the whole splice |
| Rebuild.WriteChecksum | fix_partition_1008/fix_partition_1008.c:389-390 | the header becomes the big-endian CRC-32 of the payload, and the payload is unchanged |
| Rebuild.SpliceInto | fix_partition_1008/fix_partition_1008.c:361-386 | the rebuild loop fills a fresh buffer of length blob + 4 per issue with the spliced blob |
| Rebuild.RebuildBlob | fix_partition_1008/fix_partition_1008.c:360-390 | with DISCLAIMER_ACCEPTED as the replacement, the new blob is the repaired blob: spliced, then given the checksum of its payload |
| Tool.Tokens | fix_partition_1008/fix_partition_1008.c:488-512 | reading from argument i yields at most one token per remaining argument |
| Tool.RejectedEndsReading | fix_partition_1008/fix_partition_1008.c:500-511 | a missing --db-path value or an unknown option is the last option read: main returns at the first one |
| Tool.ParseArguments | fix_partition_1008/fix_partition_1008.c:482-523 | the arguments are accepted exactly when no option is unknown, --db-path always has a value, and exactly one action is named; a refusal exits with 1; accepted flags and path are those of the token reading |
| Tool.Extend | fix_partition_1008/fix_partition_1008.c:488-512 | one more argument adds one to the action count only if it is an action; a later --db-path replaces the path |
| Tool.OneAction | fix_partition_1008/fix_partition_1008.c:514-523 | one action token means exactly one of list, dry-run and fix is set |
| Tool.NoAction | fix_partition_1008/fix_partition_1008.c:514-518 | no action token means none of the three modes is set |
| Tool.AcceptedHasOneMode | fix_partition_1008/fix_partition_1008.c:488-523 | accepted arguments select exactly one mode |
| Tool.OptionsWithoutAction | fix_partition_1008/fix_partition_1008.c:498-506 | --no-backup and --db-path with its value add no action |
| Tool.FrontActions | fix_partition_1008/fix_partition_1008.c:488-497 | counting actions from the front agrees with counting from the back |
| Tool.RepeatedActionRejected | fix_partition_1008/fix_partition_1008.c:520-523 | a repeated action, `--list --list`, is refused |
| Tool.PathValueIsNoAction | fix_partition_1008/fix_partition_1008.c:500-502 | `--db-path --fix` takes --fix as the path, so no action is named and the command is refused |
| Tool.BadOptionRejected | fix_partition_1008/fix_partition_1008.c:500-511 | a trailing --db-path and an unknown option are refused |
| Tool.OptionsAccepted | fix_partition_1008/fix_partition_1008.c:488-523 | `--no-backup --dry-run --db-path x.sqlite` is accepted with those flags and that path |
| Tool.FixDatabase | fix_partition_1008/fix_partition_1008.c:255-469 | open, partition-lookup or SELECT-prepare failures return 1 and do nothing; a missing row returns 0 and does nothing; a loaded blob has exactly the blob outcome |
| Tool.FixBlob | fix_partition_1008/fix_partition_1008.c:302-469 | under 8 bytes: 1 and nothing; otherwise the checksum warning exactly on a CRC mismatch; no issue: 0, list mode: the issue count, dry run: 0, no --fix: 1, each with the warning as the only effect; in fix mode a failed backup returns 1 after the backup attempt, a failed UPDATE prepare or step returns 1 after the backup, and success returns 0 with the backup (unless --no-backup) then the UPDATE of the repaired blob |
| Tool.FinishFix | fix_partition_1008/fix_partition_1008.c:392-469 | dry run: 0 and nothing; no --fix: 1 and nothing; in fix mode the backup comes first unless --no-backup; a failed backup returns 1 with only the backup attempt; a failed UPDATE prepare or step returns 1 with no update; success returns 0 and the UPDATE of the new blob is the last effect, right after the backup |
| Tool.FinishedBlob | fix_partition_1008/fix_partition_1008.c:315-469 | the optional warning followed by the end of a fix run is the blob outcome for a blob with issues outside list mode |
| Tool.UpdateOnlyWhenFixing | fix_partition_1008/fix_partition_1008.c:392-454 | the device list is written only by a fix run that found issues, after a successful backup unless --no-backup; the UPDATE is the last effect, returns 0 and writes the repaired blob |
| Tool.BackupOnlyWhenFixing | fix_partition_1008/fix_partition_1008.c:337-425 | a backup is made only in a fix run that found issues, without --no-backup, of the database given by the arguments |
| Tool.AfterWarning | fix_partition_1008/fix_partition_1008.c:315-326 | prefixing the optional checksum warning keeps the writes and the last two effects of the rest |
| Tool.ReadOnlyModes | fix_partition_1008/fix_partition_1008.c:350-406 | accepted --list or --dry-run arguments never back up or write: the only possible effect is the checksum warning |
| Tool.ListExitCode | fix_partition_1008/fix_partition_1008.c:350-358 | in list mode, main's exit code is the number of devices to fix, between 1 and 32 |
| Tool.RunTool | fix_partition_1008/fix_partition_1008.c:482-566 | refused arguments return 1 and do nothing; accepted arguments give exactly the outcome of fix_database for the options they set; a write needs --fix and, unless --no-backup, follows a backup of the last --db-path given |

## Left out

- SQLite is modelled as the answers it gives (`Storage`): opening, the
  partition lookup, preparing the SELECT, the row's value, preparing and
  stepping the UPDATE. `lookup_partition_id` (lines 108-135) is not modelled
  beyond the id it yields or its failure. Bound parameters and SQL text are
  not modelled.
- `create_backup` (lines 235-253) is a success or failure answer. The
  clock, the timestamp format and the `cp` command run through `system`
  are not modelled.
- Printing is left out except for one message. The checksum-mismatch
  warning of lines 321-323 is kept as the `ChecksumWarning` effect. The
  banner, the usage text, the per-device report and the summary are not
  modelled. Otherwise only the return code and the effects are kept.
- `malloc`, `free` and the statement and connection lifetimes are not
  modelled. The new blob is a fresh array. The caller's `issues` and
  `devices` arrays are returned sequences.
- Bytes are integers in [0, 256). The shift-and-or of the readers is the
  big-endian radix sum, and the shift-and-mask of `write_be64` is division
  and remainder. This is exact for the unsigned types involved.
- `Bytes.Crc32` is the bitwise reflected CRC-32 (polynomial 0xEDB88320, initial
  and final xor 0xFFFFFFFF). The zlib library code is not modelled. The
  check value lemma ties the definition to the standard.
- The `int` issue position (line 67) and `size_t` overflow of
  `blob_len + 4 * issue_count` are not modelled. Blobs in a SQLite value
  stay far below either limit.
- The walk specification of `parse_device_names` carries a ghost budget
  (device count and `max_devices`) to justify termination of the mutual
  recursion. The budget is exactly the loop bound of line 148, so nothing
  is cut off.
- The scan of `find_issues` starts at offset 0, over the header too. A
  description of the blob that starts the search after the 16-byte header
  is not what the code does; the model follows the code.
- Rebuild.RebuildBlob: requires the issue positions to be spaced and
  within the blob. The C loop never checks this; it always receives
  positions from `find_issues`, which `Scanner.ReportedIssues` proves
  spaced.
- DeviceList.PassAsWritten: the bytes read past the end of the blob at line 160
  are a parameter (`stray`). The pass breaks at line 162 whatever they
  are, so the result does not depend on them; the undefined behaviour of
  the read itself is reported as the over-read flag.

## Findings

| source | as written | input that shows it | evidently intended | confidence | as-written member | corrected member |
|---|---|---|---|---|---|---|
| fix_partition_1008/fix_partition_1008.c:157-160 | after skipping deviceUniqueId only `offset > blob_len` is checked, then read_be16 reads two bytes at `offset` | the 18-byte blob of eleven 0s, 3, three 0s, 1, 0, 0 (count 1, empty deviceUniqueId ending at byte 18): bytes 18 and 19 are read past the end | check `offset + 2 > blob_len` before the smartphoneType length read, as every other length read does | not executed | DeviceList.ParseDeviceNamesAsWritten, DeviceList.OverReadWitness | DeviceList.ParseDeviceNames |
