# Augment Unlimited: a verified model of the reset engine

Augment Unlimited resets the telemetry identity that VSCode-family editors (Code, Code -
Insiders, VSCodium, Cursor, code-server) and JetBrains IDEs keep on disk, and removes the
Augment extension's records from their SQLite databases. This project models its engine in
Dafny: the platform table, the discovery of installations, the choice and validation of
identifiers, the file-mode lock, the backup store, the database cleaner and the two handlers
that rewrite `storage.json`, `state.vscdb`, the workspace databases and the JetBrains
`PermanentDeviceId`/`PermanentUserId` files.

The model works over an abstract machine:

- **Filesystem.** `Fs.Disk` holds `tree: map<Path, Node>`. A node is a file (text, bytes, a
  JSON object, an SQLite database, a zip archive or a failure log) or a directory. It also
  carries a 16-bit `st_mode`, a modification time, and two flags: whether this process may
  read it and whether it owns it (may `chmod` it). The read flag does not follow the mode
  bits, and a JSON object maps its keys to strings; "## Left out" says what that omits. `open(p, 'w')`, `chmod`, `shutil.copy2`,
  `unlink`, `shutil.rmtree` and `mkdir(parents=True)` are pure functions on the tree
  (`Fs.Write`, `Fs.Chmod`, `Fs.Copy2`, `Rmtree`, `Mkdirs`). Each states when it succeeds, and
  the `Disk` methods apply them or leave the tree alone when they fail.
- **SQLite.** `Sqlite.Database` maps table names to declared column types and rows.
  `LIKE '%x%'` is ASCII case-insensitive containment, SQLite's default. A database file is valid
  when its 16-byte header is `SQLite format 3\0` and it opens.
- **Randomness.** `IdGenerator.Entropy` is an unbounded tape of random bytes with a read
  position. A UUID is the uuid4 rendering of 16 tape bytes. A machine id is the hex of 32
  bytes. A SHA-256 digest is 32 more bytes after the 16 the hashed UUID consumed; the hash
  function itself is not modelled.
- **Clock.** `time.time()` and the local time `time.strftime` renders are constants of the
  `Disk` (`now`, `clock`).

A state-changing operation states its effect in one of two ways. Some give the whole new tree
(the `Disk` primitives, the lock, `OpenBackupManager`). The others give what happens to the
files they work on, plus a `Confined` frame: nothing changed outside those files and the backup
directory, and no directory appeared. The two database sweeps state each cleaning turn against
the tree that turn sees. Where an effect is stated less than fully, "## Left out" names the
member.

## Model

| member | source | states |
|---|---|---|
| Common.Lower | utils/id_generator.py:126 | `str.lower()` on ASCII: same length, each letter lowered, every other character kept |
| Common.Upper | utils/id_generator.py:178 | `str.upper()` on ASCII, used to state that validation accepts upper-case hex |
| Common.StripLeft | core/jetbrains_handler.py:168 | the leading whitespace `str.strip()` removes: the result is a suffix, all removed characters are Python whitespace, and the first kept one is not |
| Common.StripRight | core/jetbrains_handler.py:168 | the same for trailing whitespace |
| Common.StripChars | utils/id_generator.py:174 | `str.strip('{}')` inside `uuid.UUID` never lengthens its input |
| Common.StrLtIrreflexive | utils/paths.py:165 | the `str` order the listing is sorted by is irreflexive |
| Common.StrLtTransitive | utils/paths.py:165 | that order is transitive |
| Common.StrLtTotal | utils/paths.py:165 | that order is total |
| Common.StrLtAsymmetric | utils/paths.py:165 | that order is asymmetric |
| Common.ReplaceAll | utils/backup.py:276 | a replacement no longer than the pattern never lengthens the string |
| Common.ReplaceAllAbsent | utils/backup.py:276 | a string without the pattern's first character comes back unchanged |
| Codec.Encode | config/settings.py:26-32 | base64 encoding (section 4 of RFC 4648) always has a length that is a multiple of 4 |
| Codec.DecodeEncode | utils/id_generator.py:30 | the lenient `b64decode` inverts `Encode` from any decoder start state |
| Codec.B64DecodeEncode | utils/id_generator.py:30 | `b64decode(encode(bs)) == bs` for every byte string |
| Codec.EncodeAscii | utils/id_generator.py:30 | an encoding is ASCII, so `b64decode` never rejects it as non-ASCII |
| Codec.Utf8DecodeAscii | utils/id_generator.py:31 | strict UTF-8 decoding of an ASCII string's bytes gives the string back |
| Codec.Hex | utils/id_generator.py:61 | `bytes.hex()`: two lowercase hex digits per byte, high nibble first |
| Settings.Getenv | config/settings.py:138-139 | `os.getenv(name, "")` is set exactly when the variable is in the environment, and then holds its value |
| Settings.GetPlatformPaths | config/settings.py:134-153 | home is the user home on every platform; Windows takes APPDATA and LOCALAPPDATA; macOS uses one directory, home/Library/Application Support, for both; elsewhere home/.config and home/.local/share; outside Windows both bases lie under home |
| Settings.Timestamp | config/settings.py:156-160 | `%Y%m%d_%H%M%S` renders as 8 digits, `_`, 6 digits, each field zero-padded from the clock |
| Settings.IdFilesEncodedMatch | config/settings.py:25-33 | both lists have two entries, and each encoded entry is the base64 encoding of the plain name at the same index and decodes back to it |
| Settings.DeviceIdNameEncoded | config/settings.py:26 | `UGVybWFuZW50RGV2aWNlSWQ=` is the base64 of `PermanentDeviceId` and decodes back to it |
| Settings.UserIdNameEncoded | config/settings.py:27 | `UGVybWFuZW50VXNlcklk` is the base64 of `PermanentUserId` and decodes back to it |
| IdGenerator.Entropy.Draw | utils/id_generator.py:60 | `secrets.token_bytes(n)` returns the next n bytes of the random source and advances it by n |
| IdGenerator.Stream | utils/id_generator.py:60 | n consecutive bytes of the random source |
| IdGenerator.FormatUuid4 | utils/id_generator.py:46 | `str(uuid4())` is 8-4-4-4-12 lowercase hex with version nibble 4 and variant 10, and without dashes it is the hex of the random bytes with those bits set |
| IdGenerator.RemoveDashes | utils/id_generator.py:174 | removing the dashes leaves no dash and is the identity on dash-free text |
| IdGenerator.RemoveDashesGroups | utils/id_generator.py:46 | removing the dashes of the 8-4-4-4-12 grouping gives the 32 hex digits back |
| IdGenerator.GenerateUuid | utils/id_generator.py:39-48 | a version-4 UUID made from the next 16 random bytes |
| IdGenerator.GenerateMachineId | utils/id_generator.py:51-63 | exactly 64 lowercase hex digits, the hex of the next 32 random bytes |
| IdGenerator.GenerateSha256Hash | utils/id_generator.py:78-90 | 64 lowercase hex digits; 48 random bytes are consumed (the hashed UUID and the digest) |
| IdGenerator.MachineRuleImpliesMac | utils/id_generator.py:135-136 | every key that enters the machine-id branch has "mac" in its lowercased form, because "machine" starts with it |
| IdGenerator.MachineHexUnreachable | utils/id_generator.py:135-141 | `get_id_for_key` as written never produces a 64-hex machine id |
| IdGenerator.MachineIdKeyIsHashed | utils/id_generator.py:135-141 | `telemetry.machineId` gets a SHA-256 digest as written, where the branch's comments intend a machine id |
| IdGenerator.NotContainsMacMachine | utils/id_generator.py:136-140 | `telemetry.machineId` is no Mac machine id |
| IdGenerator.IntendedKindAgrees | utils/id_generator.py:115-154 | the intended dispatch differs from the written one exactly on machine-id keys that are not Mac machine ids, and those are exactly the keys that get a 64-hex machine id |
| IdGenerator.NoMachineIdInMacKey | utils/id_generator.py:132-135 | the exact key `telemetry.macMachineId` does not contain `machineId` case-sensitively |
| IdGenerator.NoMachineUnderscoreInMacKey | utils/id_generator.py:132-135 | nor `machine_id` once lowercased |
| IdGenerator.ExactKeysFirst | utils/id_generator.py:129-134 | `telemetry.devDeviceId` gets a UUID and `telemetry.macMachineId` a SHA-256 digest, before any substring rule |
| IdGenerator.IdOfKind | utils/id_generator.py:115-154 | the generator a kind selects yields a UUID for `Uuid` and 64 hex digits otherwise |
| IdGenerator.GetIdForKey | utils/id_generator.py:115-154 | the id is the one the if/elif chain selects for the key, a pure function of the key and the random source, which advances by that generator's consumption |
| IdGenerator.GenerateTelemetryIds | utils/id_generator.py:93-112 | exactly the five keys; the machine id and the Mac machine id are 64 hex digits; the other three are UUIDs |
| IdGenerator.HexDigitValue | utils/id_generator.py:174 | a hex digit's value is below 16 |
| IdGenerator.DigitRunChars | utils/id_generator.py:174 | a digit run `int(s, 16)` accepts holds only hex digits and underscores |
| IdGenerator.StripIntSpace | utils/id_generator.py:174 | the whitespace `int()` strips never lengthens its input |
| IdGenerator.ValidateIdFormat | utils/id_generator.py:157-187 | empty values and unknown types are rejected; `machine_id` and `sha256` hold iff the length is 64 and every lowercased character is a hex digit; `uuid` holds iff `uuid.UUID` parses the value |
| IdGenerator.HexValueBound | utils/id_generator.py:174 | n hex digits denote a value below 16^n |
| IdGenerator.Pow16 | utils/id_generator.py:174 | powers of 16 are positive |
| IdGenerator.DigitRunOfHex | utils/id_generator.py:174 | a non-empty run of hex digits is a digit run `int(s, 16)` accepts |
| IdGenerator.StripIntSpaceHex | utils/id_generator.py:174 | hex digits are not stripped as whitespace |
| IdGenerator.IntBase16OfHex | utils/id_generator.py:174 | `int(h, 16)` of hex digits is their value |
| IdGenerator.UuidTextNoops | utils/id_generator.py:174 | the `urn:`/`uuid:` removal and brace stripping `uuid.UUID` applies leave a canonical UUID unchanged |
| IdGenerator.UuidValidates | utils/id_generator.py:172-175 | every UUID `generate_uuid` draws (lines 39-48) passes `validate_id_format(_, "uuid")` |
| IdGenerator.Hex64Validates | utils/id_generator.py:176-181 | every 64-hex id (as drawn at lines 59-63) passes both the `machine_id` and the `sha256` check |
| IdGenerator.IdOfKindValidates | utils/id_generator.py:115-187 | whatever `get_id_for_key` generates passes the check of its own kind |
| IdGenerator.Hex64ValidatesUpper | utils/id_generator.py:178-181 | validation lowercases first, so an upper-cased digest passes too |
| IdGenerator.DecodeBase64String | utils/id_generator.py:19-36 | the input comes back unchanged when base64 or UTF-8 decoding fails |
| IdGenerator.DecodeBase64StringEncode | utils/id_generator.py:19-36 | decoding the encoding of an ASCII string gives the string back |
| IdGenerator.DecodeBase64StringNonAscii | utils/id_generator.py:29-36 | a non-ASCII input is a decoding error and comes back unchanged |
| IdGenerator.BackupOldIds | utils/id_generator.py:190-209 | the record copies the old ids and carries the current time and format version "1.0" |
| IdGenerator.KindForKey | utils/id_generator.py:115-154 | as written: 64 hex digits only for a machine-id key; a SHA-256 digest only for `telemetry.macMachineId`, a machine-id key or an `sqmId` key |
| IdGenerator.IntendedKindForKey | utils/id_generator.py:135-141 | agrees with the as-written dispatch on every key that is not a machine-id key; a machine-id key is hashed only when it is a Mac machine id (`macmachine` or `mac_machine` in the lowercased key) |
| IdGenerator.MacMachineSpellingsHashed | utils/id_generator.py:132-138 | under the corrected dispatch both Mac spellings, `telemetry.macMachineId` and `mac_machine_id`, are hashed |
| Paths.FirstJetBrainsBase | utils/paths.py:42-55 | the first base, in order, that is set and holds a `JetBrains` directory; none before it holds one; none is found iff no base holds one |
| Paths.JetBrainsLookupFirst | utils/paths.py:36-55 | the found directory exists and is a directory; config wins over data and data over home; nothing is found iff none of the three holds one |
| Paths.IdFilePaths | utils/paths.py:68-74 | one path per configured ID file name, in configured order, whether or not the file exists |
| Paths.DatabaseNameSuffix | utils/paths.py:88-89 | the patterns `*.db`, `*.sqlite`, `*.sqlite3` select exactly the names ending in `.db`, `.sqlite` or `.sqlite3` |
| Paths.AppendListing | utils/paths.py:89 | `list.extend` with a directory listing: the old list is kept as a prefix and each new entry comes from the listing, which is added whole |
| Paths.ExistingDirs | utils/paths.py:186-193 | the global patterns contribute exactly the existing directories they name |
| Paths.MachineIdFiles | utils/paths.py:209-217 | the machine-id patterns contribute only existing entries named `machineId` |
| Paths.InsertSorted | utils/paths.py:165 | inserting by `str` keeps a sorted list sorted |
| Paths.InsertByStr | utils/paths.py:165 | insertion adds exactly one element |
| Paths.SortByStr | utils/paths.py:165 | `sorted(_, key=str)` is sorted by string form and a permutation of its input |
| Paths.StrLeTransitive | utils/paths.py:165 | the `str` order with equality is transitive |
| Paths.DistinctOnce | utils/paths.py:156-165 | a list whose entries print differently holds each path at most once |
| Paths.DistinctAt | utils/paths.py:156-165 | two positions of such a list print differently |
| Paths.SortedDistinct | utils/paths.py:156-165 | sorting a deduplicated list makes it strictly increasing by string form |
| Paths.DedupeByStr | utils/paths.py:156-163 | the kept paths print distinctly, all come from the input, and every input path's string is kept |
| Paths.PathManager.constructor | utils/paths.py:19-24 | the bases are the platform table's, and all three caches start empty |
| Paths.PathManager.GetJetBrainsConfigDir | utils/paths.py:26-55 | the cached directory when there is one, otherwise the lookup; a found directory is cached, and a miss is not |
| Paths.PathManager.GetJetBrainsIdFiles | utils/paths.py:57-74 | empty without a JetBrains directory, otherwise one path per configured ID file name in order |
| Paths.PathManager.GetJetBrainsDatabaseFiles | utils/paths.py:76-97 | exactly the regular files below the JetBrains directory, reachable by a recursive glob, whose names match a database pattern |
| Paths.PathManager.FindVscodeStorageDirs | utils/paths.py:174-219 | exactly the existing global directories, the readable workspace bases' child directories and the `machineId` files; the global ones come first and the machine-id files last |
| Paths.PathManager.CollectGlobalDirs | utils/paths.py:186-193 | the loop over the global patterns collects exactly the existing directories |
| Paths.PathManager.CollectWorkspaceDirs | utils/paths.py:195-207 | appends exactly the child directories of each workspace base that exists and can be listed; an unlistable base contributes nothing and raises nothing |
| Paths.PathManager.CollectMachineIdFiles | utils/paths.py:209-217 | appends exactly the existing `machineId` entries |
| Paths.PathManager.GetVscodeDirectories | utils/paths.py:122-172 | a cached listing is returned, and the cache and the variant map are left as they were; a missing config base gives [] and caches it; otherwise the listing holds only found storage paths, every found path's string is in it, it is strictly increasing by string form (so duplicate-free), each entry's recorded variant is the last configured variant directory that holds it, and it is cached |
| Paths.PathManager.RecordVariant | utils/paths.py:152-153 | each storage path of a variant is recorded under its string, and every other key keeps its value |
| Paths.PathManager.CollectVariant | utils/paths.py:144-155 | one variant of the loop: when its directory exists, its storage paths join the listing and are recorded under its name, so every listed path keeps the variant of the last installation holding it |
| Paths.PathManager.CollectVariantStorage | utils/paths.py:143-154 | exactly the storage paths of the configured variant directories that exist, each recorded under the last variant directory that holds it, as `variant_map[str(path)] = variant` overwrites in order |
| Paths.PathManager.GetVscodeVariantName | utils/paths.py:221-231 | the recorded variant, a configured one, or "Unknown" exactly when the path was never recorded |
| Paths.GetVscodeStorageFile | utils/paths.py:233-251 | a file is its own storage file; otherwise storage.json when it exists; nothing exactly when neither holds |
| Paths.FirstExisting | utils/paths.py:267-272 | the first configured name that exists, with none before it; nothing iff none exists |
| Paths.DatabaseFilePreference | utils/paths.py:253-272 | none for a file; otherwise `state.vscdb` when it exists, else `state.vscdb.backup`, else none |
| Paths.EnsureLongPathSupport | utils/paths.py:297-312 | outside Windows the path's own string; on Windows the resolved string, prefixed with `\\?\` only when it is longer than 260 characters and not yet prefixed |
| Paths.LongPathIdempotent | utils/paths.py:307-311 | on Windows the result is short or prefixed, and applying the function again changes nothing |
| Paths.ValidatePath | utils/paths.py:314-352 | a path is safe iff it exists and lies under the config, data or home base |
| Paths.IsUnderTransitive | utils/paths.py:342 | a descendant of a descendant of a base is a descendant of the base |
| Paths.ValidatePathHome | utils/paths.py:314-352 | outside Windows both other bases lie under home, so a path is safe iff it exists and lies under home |
| Paths.JetBrainsConfigDir | utils/paths.py:26-55 | a cached directory is returned as it is; a fresh lookup gives an existing directory named `JetBrains` |
| Paths.GetVscodeDatabaseFile | utils/paths.py:253-272 | a found database is an existing entry directly in the directory, named `state.vscdb` or its backup; when none is found for a directory, neither exists |
| Paths.VariantOf | utils/paths.py:143-154 | the variant recorded for a path is a configured variant whose directory exists and holds it |
| Paths.VariantOfSnoc | utils/paths.py:152-153 | a later variant that holds the path overrides every earlier one |
| Paths.DatabasePatternsApart | utils/paths.py:88-89 | a name matches at most one of the database patterns, so the three `rglob` listings never share a file |
| Paths.ReachableFilesApart | utils/paths.py:76-97 | distinct regular files found by a recursive glob never lie one below the other |
| Paths.KeepFiles | utils/paths.py:92 | keeps exactly the listed entries that are regular files, and adds no repeats |
| FileLocker.LockedMode | utils/file_locker.py:49-50 | clears exactly the owner, group and other write bits and keeps every other bit; the result is not writable |
| FileLocker.UnlockedMode | utils/file_locker.py:185-186 | sets the owner-write bit and keeps every other bit |
| FileLocker.ChmodModes | utils/file_locker.py:50 | `chmod` with the locking mode, or the unlocking one of line 186, keeps the file-type bits, so the file gets exactly that mode |
| FileLocker.LockIdempotent | utils/file_locker.py:49-50 | locking twice gives the same mode as once; with no group or other write bits, unlocking after a lock gives the same mode as unlocking alone |
| FileLocker.LockFile | utils/file_locker.py:20-64 | false and nothing changed for a missing path; otherwise true, and the write bits are cleared when the process may change the mode (the answer is true even when that fails) |
| FileLocker.UnlockFile | utils/file_locker.py:156-200 | false and nothing changed for a missing path; otherwise true, and the owner-write bit is set when the process may change the mode |
| FileLocker.LockThenCheck | utils/file_locker.py:292-315 | after a lock the file reads as locked, and after an unlock as unlocked |
| FileLocker.LockedTree | utils/file_locker.py:330-331 | locking a set of files adds and removes no entry |
| FileLocker.LockedTreeStep | utils/file_locker.py:330-331 | locking one more file extends the locked set by that file |
| FileLocker.LockMultipleFiles | utils/file_locker.py:318-336 | one entry per input path, equal to whether the path exists, and every listed file is locked as `lock_file` would |
| FileLocker.IsFileLocked | utils/file_locker.py:292-315 | a missing file is not locked; a locked file has its owner write bit clear and cannot be written |
| Backup.Prefix | utils/backup.py:69-72 | the label when it is non-empty, otherwise the file's own name |
| Backup.StemOfExtension | utils/backup.py:263 | `Path.stem` of a name with a one-dot extension removes exactly that extension |
| Backup.StripTimestamp | utils/backup.py:266-268 | `re.sub(r'_\d{8}_\d{6}$', '', s)`: the result is a prefix of `s`, and either `s` itself or `s` minus a trailing `_` and timestamp |
| Backup.BackupNameRoundTrip | utils/backup.py:263-268 | parsing a backup name built from a prefix (as at lines 68-74) and a rendered timestamp gives the prefix back |
| Backup.OriginalPath | utils/backup.py:250-297 | an original is found iff the name, without extension and timestamp, starts with `jetbrains_`; it then lies directly in the config base's `JetBrains` directory or is that directory |
| Backup.StripJetBrainsLabel | utils/backup.py:276 | `replace('jetbrains_', '')` removes just the label from a name with no further `j` |
| Backup.JetBrainsLabelOriginal | utils/backup.py:262-278 | a `jetbrains_<f>` backup restores to config/JetBrains/`<f>` |
| Backup.IdFileBackupOriginal | utils/backup.py:262-278 | the backup of each JetBrains ID file restores to that ID file |
| Backup.DatabaseBackupOriginal | utils/backup.py:262-278 | a `jetbrains_db_<f>` database backup restores to config/JetBrains/`db_<f>`, not to the database it was taken from |
| Backup.InsertByMtime | utils/backup.py:317 | insertion adds exactly one element |
| Backup.NewestFirstTail | utils/backup.py:317 | the tail of a newest-first list is newest first |
| Backup.NewestFirstCons | utils/backup.py:317 | an element at least as new as all others can go in front |
| Backup.InsertNewestFirst | utils/backup.py:317 | inserting by modification time keeps a list newest first |
| Backup.SortNewestFirst | utils/backup.py:317 | `sort(key=st_mtime, reverse=True)` gives a newest-first permutation |
| Backup.BackupFiles | utils/backup.py:309-316 | only regular files directly in the backup directory |
| Backup.FnMatchStar | utils/backup.py:313 | `*` matches every name |
| Backup.FnMatchPrefix | utils/backup.py:311 | `x*`, where `x` has no `*`, `?` or `[`, matches exactly the names starting with `x` |
| Backup.ListGlobContains | utils/backup.py:310-311 | `*pattern*`, where the pattern has no `*`, `?` or `[`, matches exactly the names containing the pattern |
| Backup.ListSet | utils/backup.py:311-313 | a listing of a set holds each member exactly once |
| Backup.ListingDistinct | utils/backup.py:311-313 | a listing of a set has no repeated entry |
| Backup.Unlinkable | utils/backup.py:347-353 | the listed files an unlink loop can remove are files among them |
| Backup.UnlinkOthers | utils/backup.py:347-353 | removing other files does not change whether a file can be unlinked |
| Backup.Listed | utils/backup.py:344 | the members of a list as a set |
| Backup.UnlinkStep | utils/backup.py:347-353 | one more iteration removes the file iff it can be unlinked, and then counts it |
| Backup.UnlinkEach | utils/backup.py:345-358 | the loop removes exactly the removable listed files, skips the others, and counts the removed ones |
| Backup.SliceStart | utils/backup.py:344 | where `backups[k:]` starts, Python slicing included (a negative k counts from the end) |
| Backup.Limit | utils/backup.py:335-336 | the limit defaults to 10 |
| Backup.ArchivableFiles | utils/backup.py:114-115 | the recursive walk archives only regular files below the directory |
| Backup.ArchivedAccounts | utils/backup.py:114-125 | every walked file is a member or a failure entry: readable files are archived, unreadable ones recorded |
| Backup.ArchiveComplete | utils/backup.py:112-125 | nothing is lost: members and failures together account for every archivable file |
| Backup.ArchiveFiles | utils/backup.py:113-125 | the archive loop produces an archive of the directory in some walk order |
| Backup.FailureLogName | utils/backup.py:129 | `with_suffix('.failed.json')` on the zip name gives `<prefix>_<timestamp>.failed.json` |
| Backup.Restore | utils/backup.py:167-194 | false and nothing changed for a missing backup; on success the target holds the backup's content; every other entry stays as it was |
| Backup.BackupThenRestore | utils/backup.py:187 | restoring a fresh backup (the copy of line 77) over its source gives the source its content back |
| Backup.BackupManager.constructor | utils/backup.py:22-49 | the manager uses the directory it is given |
| Backup.BackupManager.CreateFileBackup | utils/backup.py:51-84 | none for a missing source; otherwise `<label or name>_<timestamp>.bak` in the backup directory, a copy of the source, exactly when the copy can succeed, and nothing changed when it cannot; only the backup directory gains an entry |
| Backup.BackupManager.CreateDirectoryBackup | utils/backup.py:86-139 | none and nothing changed for a non-directory or an unwritable zip; otherwise the zip holds the archive of the directory; failed files go to `<prefix>_<timestamp>.failed.json`, and failing to write that log makes the result none |
| Backup.BackupManager.RestoreFileBackup | utils/backup.py:167-194 | the result and the new tree are those of `Restore` |
| Backup.BackupManager.ListBackups | utils/backup.py:299-323 | each regular file of the backup directory whose name matches the pattern (`*` and `?` as wildcards, every other character literal) exactly once, newest first |
| Backup.BackupManager.CleanupOldBackups | utils/backup.py:325-358 | nothing is doomed at or below the limit; above it the newest `limit` backups are kept and only older ones are doomed; exactly the removable doomed files are deleted and counted |
| Backup.BackupManager.AutoRestoreBackup | utils/backup.py:196-248 | only the newest matching backup is tried; no match, or no derivable original, fails with the source's message and changes nothing; otherwise the restore's outcome decides success and the restored or failed entry |
| Backup.KeptAndDoomed | utils/backup.py:344 | `backups[k:]` of a newest-first listing leaves exactly k backups, each at least as new as every removed one |
| Backup.DistinctListed | utils/backup.py:344 | a prefix of a set's listing has as many members as entries |
| Backup.ProbeDirectory | utils/backup.py:34-39 | the probe succeeds iff the directory can be made and the test file written into it and unlinked again (`ProbeSucceeds`); the new tree is `ProbeTree`: each step applied only when the one before it succeeded; nothing but the probe file changes, and new entries are the directory's prefixes or the probe file |
| Backup.OpenBackupManager | utils/backup.py:22-49 | a given directory is used; otherwise home/.augment_cleaner_backups when it can be made and a test file written and removed there, else the project's `backups` directory; the manager exists iff that directory can be made, and the new tree is the probed tree with it made (or the probed tree alone); only the probe file changes, and new entries are only the chosen directory's prefixes, the home backup directory's prefixes and the probe |
| Backup.BackupName | utils/backup.py:68-71 | the name is the prefix, `_`, the timestamp and the extension, each recoverable at its position |
| Backup.BackupNameSlot | utils/backup.py:68-71 | every backup name holds a `_`, so every backup lands in a backup slot |
| Fs.SuffixDot | utils/backup.py:129 | the dot that starts `Path.suffix`: neither first nor last in the name, with no dot after it |
| Fs.StemSuffix | utils/backup.py:263 | `stem + suffix` is the name |
| Fs.FnMatchSuffix | utils/paths.py:88-89 | `*x` matches exactly the names ending in `x` |
| Fs.FnMatchLiteral | utils/backup.py:311 | a pattern without `*`, `?` or `[` matches only itself |
| Fs.Write | core/jetbrains_handler.py:196 | a successful write makes the path a file with the new content, adds at most that path and changes nothing else |
| Fs.Chmod | utils/file_locker.py:50 | `chmod` changes only the mode of that one path, keeping its file-type bits |
| Fs.Copy2 | utils/backup.py:77 | `shutil.copy2` gives the destination the source's content, mode and modification time and changes nothing else |
| Fs.CopyKeepsSource | utils/backup.py:77 | copying leaves the source as it was |
| Fs.Rmtree | core/vscode_handler.py:440 | `shutil.rmtree` removes exactly the subtree and keeps everything else |
| Fs.Mkdirs | utils/backup.py:184 | `mkdir(parents=True, exist_ok=True)` makes the directory, keeps every existing entry, adds only its missing ancestors, and is a no-op on an existing directory |
| Fs.Disk.constructor | utils/backup.py:22 | the disk starts with the given tree, clock and working directory |
| Fs.Disk.WriteFile | core/jetbrains_handler.py:196 | succeeds exactly when the write is allowed, and then applies it; otherwise nothing changes |
| Fs.Disk.ChangeMode | utils/file_locker.py:48-53 | succeeds exactly when the entry exists and is owned, and then applies the `chmod` |
| Fs.Disk.CopyFile | utils/backup.py:77 | succeeds exactly when the copy is allowed, and then applies it |
| Fs.Disk.Remove | utils/backup.py:349 | succeeds exactly when the file can be unlinked, and then removes it |
| Fs.Disk.RemoveTree | core/vscode_handler.py:440 | succeeds exactly when the whole subtree can be removed, and then removes it |
| Fs.Disk.MakeDirs | utils/backup.py:184 | succeeds exactly when the directories can be made, and then makes them |
| Fs.FnMatch | utils/paths.py:89 | a pattern without `*` only matches names of its own length |
| Fs.WithSuffix | core/db_cleaner.py:260 | the new name keeps the stem and ends with the new suffix; the name's own suffix gives the name back |
| Fs.ReadText | core/jetbrains_handler.py:168 | a text is read iff the file is readable and holds text, and it is the file's content |
| Sqlite.PercentMatchesAll | core/db_cleaner.py:305 | the LIKE pattern `%` matches every text |
| Sqlite.LikePrefix | core/db_cleaner.py:305 | `x%` matches exactly the texts that start with `x`, ignoring ASCII case |
| Sqlite.LikeContains | core/db_cleaner.py:305 | `%x%` matches exactly the texts that contain `x`, ignoring ASCII case |
| Sqlite.LikeContainsPattern | core/db_cleaner.py:305 | a value matches a `%x%` pattern iff it has text and that text contains `x` regardless of case; NULL never matches |
| Sqlite.ContainsImpliesIgnoreCase | core/vscode_handler.py:522-525 | case-sensitive containment implies case-insensitive containment |
| Sqlite.TextColumns | core/db_cleaner.py:299 | exactly the columns whose upper-cased declared type is one of the given types |
| Sqlite.Survivors | core/db_cleaner.py:301-313 | deleting rows never adds any |
| Sqlite.CountPlusSurvivors | core/db_cleaner.py:305-311 | every row is either counted as deleted or survives, never both |
| Sqlite.SurvivorsMembership | core/db_cleaner.py:301-313 | a row survives iff it was in the table and matches no clause |
| Sqlite.SurvivorsAll | core/db_cleaner.py:308 | when no row matches, all rows survive and none is counted |
| Sqlite.HitsAppend | core/db_cleaner.py:301-302 | a row matches one more clause iff it matched before or matches the new one |
| Sqlite.SurvivorsStep | core/db_cleaner.py:301-313 | deleting by one more clause after the others is deleting by all of them |
| Sqlite.SurvivorsConcat | core/db_cleaner.py:310 | deletion works row by row |
| Sqlite.SurvivorsIdempotent | core/db_cleaner.py:301-313 | deleting again by the same clauses removes nothing |
| Sqlite.Clauses | core/db_cleaner.py:301-302 | one clause per (column, pattern) pair |
| Sqlite.ColumnClauses | core/db_cleaner.py:302 | one clause per pattern for a column, in pattern order |
| Sqlite.HitsClauses | core/db_cleaner.py:301-310 | a row matches the clauses iff some text column matches some pattern |
| Sqlite.ClausesSnoc | core/db_cleaner.py:301 | one more column adds that column's clauses at the end |
| Sqlite.ColumnClausesSnoc | core/db_cleaner.py:302 | one more pattern adds that clause at the end |
| Sqlite.CleanedTableSpec | core/db_cleaner.py:295-313 | a row is kept iff it was in the table and none of its text-typed columns matches any pattern; cleaning again keeps everything |
| Sqlite.FindTable | core/vscode_handler.py:509-512 | the index of a table with that name; none iff no table has it |
| Sqlite.FindTableFrom | core/vscode_handler.py:509-512 | the same search from a given index |
| Sqlite.LikeMatch | core/db_cleaner.py:305-310 | a pattern without `%` only matches strings of its own length |
| DbCleaner.CleaningPatterns | core/db_cleaner.py:247-249 | the JetBrains `augment_patterns` when asked for, otherwise the six defaults augment/Augment/AUGMENT/device/machine/telemetry |
| DbCleaner.PatternsAreContains | core/db_cleaner.py:247-249 | every cleaning pattern has the `%x%` shape |
| DbCleaner.NoHitsKeepsAll | core/db_cleaner.py:308 | a zero count means nothing is deleted |
| DbCleaner.SurvivorsCompose | core/db_cleaner.py:301-310 | deleting by one set of clauses after another is deleting by both |
| DbCleaner.CleanColumn | core/db_cleaner.py:302-316 | the pattern loop for one column deletes exactly the rows matching one of its clauses, and the counts add up to the rows removed |
| DbCleaner.CleanTableRecords | core/db_cleaner.py:279-321 | a modifiable table loses exactly the rows whose TEXT, VARCHAR, CHAR or BLOB columns match a pattern, and the count equals the rows removed; an unmodifiable one keeps every row and counts 0 |
| DbCleaner.CleanedTables | core/db_cleaner.py:252-254 | every table is cleaned, in order |
| DbCleaner.TotalRowsSnoc | core/db_cleaner.py:252-254 | the row total of one more table adds its rows |
| DbCleaner.CleanedDatabaseSpec | core/db_cleaner.py:301-313 | in every table (cleaned in turn at lines 252-257) a row is kept iff none of its considered columns matches any pattern, so a second run deletes nothing |
| DbCleaner.CleanTables | core/db_cleaner.py:241-257 | the table loop leaves the cleaned database and returns the number of rows it removed |
| DbCleaner.CleanedTablesShrink | core/db_cleaner.py:252-254 | cleaning never adds rows |
| DbCleaner.SurvivorsFull | core/db_cleaner.py:308 | when nothing was removed the rows are unchanged |
| DbCleaner.NoneRemovedTables | core/db_cleaner.py:252-257 | when no row was removed the tables are unchanged |
| DbCleaner.Stored | core/db_cleaner.py:238-244 | an empty file opens as a database with no tables |
| DbCleaner.BackupSibling | core/db_cleaner.py:260 | `with_suffix(suffix + ".backup")` is the sibling named `<name>.backup` |
| DbCleaner.BelowSibling | core/db_cleaner.py:259-264 | the sibling's own sibling lies in the same directory with a longer name, so the recursion ends |
| DbCleaner.ExecuteDatabaseCleaning | core/db_cleaner.py:223-277 | a file that does not open raises and changes nothing; it returns a count iff every member of its `.backup` chain opens and has a name; a count is the rows removed from the file itself; every chain member reached stays a file, unchanged when SQLite may not modify it and holding its cleaned database when it may; entries outside the chain are unchanged and none appear |
| DbCleaner.CleanAndCommit | core/db_cleaner.py:243-257 | the count is the rows the patterns remove from the file's TEXT columns; a file that cannot be modified is left as it was, otherwise it holds the cleaned database; no other entry changes |
| DbCleaner.ChainShrinks | core/db_cleaner.py:259-264 | the `.backup` sibling has strictly fewer chain members present, so the cleaning of sibling after sibling stops |
| DbCleaner.BackupIsNotSibling | core/db_cleaner.py:174-182 | a database's backup never lands on its `.backup` sibling (line 260) |
| DbCleaner.CopyKeepsDatabase | core/db_cleaner.py:174-182 | taking the backup leaves the database, its writability and the rows to remove as they were |
| DbCleaner.NothingFound | core/db_cleaner.py:58-60 | a sweep with nothing to look at fails with exactly its one message (also lines 116-118) |
| DbCleaner.Record | core/db_cleaner.py:66-77 | in either sweep (also lines 125-133), one more database is counted as cleaned, adding its deletions, or as failed, adding `<name>: <error>` |
| DbCleaner.RecordTallies | core/db_cleaner.py:62-82 | in either sweep (also lines 120-138), found equals cleaned plus failed, one error per failure, and at most one backup per cleaned database, is kept by every step; success is set once, after the loop, from the cleaned count |
| DbCleaner.CountAccessible | core/db_cleaner.py:355-357 | the accessible count never exceeds the number of databases |
| DbCleaner.Describe | core/db_cleaner.py:344-359 | a database is reported present iff it exists and accessible iff it passes the header and open check |
| DbCleaner.DescribeVscode | core/db_cleaner.py:340-362 | the entries are exactly the databases found in the storage directories, in order, at most one per directory, each describing the disk as it is; the accessible count counts the accessible ones |
| DbCleaner.DescribeJetbrains | core/db_cleaner.py:365-384 | one entry per database file, in order, each describing the disk as it is |
| DbCleaner.DatabaseCleaner.constructor | core/db_cleaner.py:22-31 | the cleaner keeps its path and backup managers |
| DbCleaner.DatabaseCleaner.CleanDatabaseFile | core/db_cleaner.py:147-193 | an invalid file is a skip: success, 0 records, no backup, nothing changed; for a valid file, success iff the whole `.backup` chain opens, and every chain member reached holds its cleaned database (or is unchanged when SQLite may not modify it); a backup is taken only when asked, and always for a valid file when asked and the copy is possible; and it is `<name>_<timestamp>.bak` in the backup directory holding the file's old entry; a successful count is the rows removed from the file; only the file, its backups and the backup directory change, and only the backup is new; the records count is exactly `Deleted`: the rows removed from the file when it is valid and its chain opens, 0 otherwise |
| DbCleaner.DatabaseCleaner.CleanVscodeDatabases | core/db_cleaner.py:33-89 | the storage directories are the cached listing when there is one, and otherwise the discovered listing (`Discovered`: [] without a config base, else only found storage paths, every found one, sorted by string form, variants recorded), which is then cached; none gives the "No VSCode installations found" failure; otherwise each directory gets one turn: its database is the one `get_vscode_database_file` finds in the tree that turn sees, a missing one leaves the tree alone, and a found one is a cleaning turn (an invalid file unchanged; a valid one cleaned along its `.backup` chain); found counts the databases found, each cleaned or failed, and success iff one was cleaned; only the databases, their backups and the backup directory change; the records total is the sum over the turns of the rows each found database loses; the cleaned count is the number of turns whose database was cleaned, that is, was no valid SQLite file (skipped as a success) or had its whole chain open (`TurnsCleaned`) |
| DbCleaner.DatabaseCleaner.CleanJetbrainsDatabases | core/db_cleaner.py:91-145 | the databases are exactly the regular files below the JetBrains directory whose names match a database pattern; none gives the "No JetBrains database files found" failure; otherwise each gets one cleaning turn against the tree that turn sees (an invalid file unchanged; a valid one cleaned along its `.backup` chain); found is their number, each cleaned or failed, success iff one was cleaned; only the databases, their backups and the backup directory change; the records total is the sum over the turns of the rows each database loses; the cleaned count is the number of turns whose database was cleaned (`TurnsCleaned`) |
| DbCleaner.DatabaseCleaner.GetDatabaseInfo | core/db_cleaner.py:323-389 | the VSCode entries are the databases found in the storage directories (the cached listing when there is one, and otherwise the discovered listing, `Discovered`, which is then cached); the JetBrains entries are exactly the database files below the JetBrains directory, one each; every entry describes the disk as it is; the total counts them and the accessible count counts the accessible ones (so it never exceeds the total) |
| DbCleaner.HeaderCheck | core/vscode_handler.py:553-569 | only a readable file passes, and one holding raw bytes has at least the 16 header bytes; every readable SQLite database passes |
| DbCleaner.IsValidSqliteDatabase | core/db_cleaner.py:195-220 | valid iff the file is readable and holds an SQLite database (the header matches and SQLite opens it) |
| DbCleaner.CountFound | core/db_cleaner.py:64-66 | the VSCode `databases_found` count: at most one per directory, and 0 iff no directory held a database |
| DbCleaner.VscodeTurnAt | core/db_cleaner.py:63-75 | every turn `k` of the VSCode sweep looks up the database of `dirs[k]` in the tree the earlier turns left, leaves that tree alone when there is none, and is a cleaning turn of it otherwise |
| DbCleaner.JetbrainsTurnAt | core/db_cleaner.py:123-133 | every turn `k` of the JetBrains sweep is a cleaning turn of `dbs[k]` in the tree the earlier turns left |
| DbCleaner.DatabaseCleaner.SweepVscode | core/db_cleaner.py:62-82 | the loop over the storage directories: one turn per directory, each against the tree the turn before left; found counts the databases found, each cleaned or failed, and success iff one was cleaned; the records total is the sum over the turns of the rows each found database loses (`TurnsDeleted`), 0 for a missing, invalid or failed one; the cleaned count is the number of turns whose found database was cleaned (`TurnsCleaned`) |
| DbCleaner.DatabaseCleaner.VscodeDirTurn | core/db_cleaner.py:63-75 | one directory of the VSCode loop: a turn with one more database found exactly when the directory holds one, the counts kept consistent, and this turn's own contribution recorded: the rows its database loses (0 when none was found) and 1 exactly when that database was cleaned, with the records total and cleaned count staying the sums of the turns' contributions |
| DbCleaner.DatabaseCleaner.VscodeTurnsLoop | core/db_cleaner.py:62-75 | the rest of the VSCode loop from any turn on: every remaining directory gets its turn on the tree the one before left, and found, the records total and the cleaned count stay the sums over all turns of what each turn contributed |
| DbCleaner.DatabaseCleaner.CleanTurn | core/db_cleaner.py:63-77 | one turn of either sweep: the tally stays consistent with found one higher, and the database gets one cleaning turn (invalid: unchanged; valid: cleaned along its `.backup` chain; nothing else changes but its backups); the records total grows by exactly the rows the database loses (0 when it is invalid or its chain fails), and the cleaned count by one exactly when the file is no valid SQLite database or its whole chain opens (`TurnCleaned`), by none otherwise |
| DbCleaner.DatabaseCleaner.JetbrainsTurn | core/db_cleaner.py:123-133 | one file of the JetBrains loop: one more turn against the tree the turn before left, found one higher, the records total grown by the rows the file loses and the cleaned count by one exactly when it was cleaned |
| DbCleaner.VscodeDirStep | core/db_cleaner.py:63-75 | recording one more VSCode turn in the summary keeps found, the records total and the cleaned count equal to their sums over the turns |
| DbCleaner.CountedTotals | core/db_cleaner.py:62-82 | the per-turn contributions a sweep records add up to the rows lost by, and the number of cleaned, databases over its turns (`TurnsDeleted`, `TurnsCleaned`) |
| DbCleaner.TurnsDeletedPrefix | core/db_cleaner.py:71 | the records total of the first `n` turns depends only on those turns, so later turns never change it (also line 127) |
| DbCleaner.TurnsCleanedPrefix | core/db_cleaner.py:70 | the cleaned count of the first `n` turns depends only on those turns, so later turns never change it (also line 126) |
| DbCleaner.ReachedBackups | core/db_cleaner.py:258-266 | every member the `.backup` recursion reaches is the file or one of its `.backup` files, and opens |
| DbCleaner.BackupMissesChain | core/db_cleaner.py:172-176 | a backup written into the backup directory is never the file or one of its `.backup` files |
| DbCleaner.BackupKeepsChain | core/db_cleaner.py:172-176 | taking the backup leaves the file's `.backup` chain as it was: the same members, which all still open and may be modified as before |
| DbCleaner.CleanedAfterBackup | core/db_cleaner.py:172-190 | the chain cleaned after the backup is the chain the file had before it, each member holding its cleaned database |
| DbCleaner.VscodeInfosCount | core/db_cleaner.py:340-362 | the number of VSCode entries is the number of directories holding a database |
| DbCleaner.VscodeInfosComplete | core/db_cleaner.py:340-362 | every directory holding a database contributes its entry |
| DbCleaner.VscodeInfosSound | core/db_cleaner.py:340-362 | every entry comes from a directory holding that database |
| VsCode.ContainsPrefix | core/vscode_handler.py:811-814 | a text containing `Code - Insiders` contains `Code` |
| VsCode.VariantNameFromPath | core/vscode_handler.py:807-818 | one of the five labels; "Cursor" iff the path contains `Cursor`; the fallback label iff the path contains none of `Cursor`, `Code` and `VSCodium` |
| VsCode.LabelOfCode | core/vscode_handler.py:813-814 | `Code` is labelled "VSCode" |
| VsCode.LabelOfInsiders | core/vscode_handler.py:811-812 | `Code - Insiders` is labelled "VSCode Insiders", because that test comes before the `Code` one |
| VsCode.LabelOfCodium | core/vscode_handler.py:815-816 | `VSCodium` is labelled "VSCodium", since it does not contain `Code` |
| VsCode.LabelOfCodeServer | core/vscode_handler.py:817-818 | `code-server` is lower-case, matches no case-sensitive test and gets the fallback label |
| VsCode.VariantLabelsOfConfiguredNames | core/vscode_handler.py:807-818 | the label of each configured variant directory name |
| VsCode.TelemetryKeysDistinct | config/settings.py:68-73 | the four telemetry keys are distinct |
| VsCode.RewriteKeys | core/vscode_handler.py:236-245 | exactly the telemetry keys present are replaced, each by a fresh UUID whatever the key; their old and new values are recorded; other keys keep their values |
| VsCode.ModesAfterChmod | core/vscode_handler.py:251 | `chmod(S_IWRITE \| S_IREAD)` leaves the file writable and `chmod(S_IREAD)` (line 258) locks it |
| VsCode.TelemetryKeyShape | core/vscode_handler.py:329 | a telemetry key holds no LIKE wildcard, so `%key%` is a plain containment pattern |
| VsCode.SelectedText | core/vscode_handler.py:329-333 | a cell passes both the `LIKE '%key%'` and the `key in str(value)` tests iff it is text containing the key case-sensitively |
| VsCode.UuidHoldsNoKey | core/vscode_handler.py:333-336 | a fresh UUID contains no telemetry key, so a replaced cell is not selected again |
| VsCode.ReplaceWhole | core/vscode_handler.py:336 | `str(value).replace(str(value), new_id)` is `new_id`: the whole value is replaced |
| VsCode.StepRowIdle | core/vscode_handler.py:332-333 | a pass that selects nothing leaves the row as it was |
| VsCode.RewriteRow | core/vscode_handler.py:332-343 | a selected cell becomes a fresh UUID and is reported; any other cell, and the rowid, are unchanged |
| VsCode.RewriteColumn | core/vscode_handler.py:329-343 | one key's pass over a column rewrites exactly the selected cells; it reports a replacement iff some row was selected |
| VsCode.CellStep | core/vscode_handler.py:327-343 | after one more key, a cell is a fresh UUID iff it held one of the keys seen so far, and unchanged otherwise |
| VsCode.CellStable | core/vscode_handler.py:327-343 | once every key was looked for, a further pass keeps that property |
| VsCode.RowStep | core/vscode_handler.py:326-343 | one (column, key) pass keeps the partial rewrite property of a row |
| VsCode.RowNextColumn | core/vscode_handler.py:326 | finishing a column's keys moves on to the next column |
| VsCode.RowPartialDone | core/vscode_handler.py:326-343 | after all columns, each text cell that held a telemetry key is a UUID and every other cell is unchanged |
| VsCode.RewriteColumnKeys | core/vscode_handler.py:327-343 | the key loop over one column keeps every row's partial rewrite; without a replacement no row changed |
| VsCode.RewriteTable | core/vscode_handler.py:317-349 | each cell of a TEXT, VARCHAR or CHAR column that held a telemetry key becomes a UUID, everything else is unchanged, old and new values pair up under `table.column`, and without a replacement the table is unchanged |
| VsCode.RewriteDatabase | core/vscode_handler.py:313-353 | every table is rewritten that way, and without a replacement the database is unchanged |
| VsCode.RewrittenHoldsNoKey | core/vscode_handler.py:326-343 | after the pass no text cell holds a telemetry key |
| VsCode.RewriteIdempotent | core/vscode_handler.py:313-353 | a second pass changes nothing |
| VsCode.ProjectPatternShape | core/vscode_handler.py:514-525 | each of the ten patterns is `%word%` for a word without wildcards |
| VsCode.ProjectRowKept | core/vscode_handler.py:528-534 | an `ItemTable` row survives iff its key mentions none of the ten words, in any letter case |
| VsCode.AugmentCaseAlike | core/vscode_handler.py:515-517 | `%Augment%` and `%AUGMENT%` match exactly what `%augment%` matches |
| VsCode.CaseVariantsDeleteNothing | core/vscode_handler.py:528-534 | after the `%augment%` deletion, the other two spellings count 0 rows |
| VsCode.ItemTableOf | core/vscode_handler.py:498-511 | cleaning reaches the rows only when the header check passes, the file holds a database and it has an `ItemTable` |
| VsCode.WorkspaceZonesAdd | core/vscode_handler.py:403-468 | one more project adds its own entries to what may change |
| VsCode.WorkspaceZonesBelow | core/vscode_handler.py:403-468 | a project folder itself is never among the entries other projects may change |
| VsCode.NamedClear | core/vscode_handler.py:432-453 | entries named from one list of names lie apart from every entry named in a disjoint list, so removing one never touches another |
| VsCode.SweptStep | core/vscode_handler.py:432-444 | each existing directory of the list is removed or recorded as failed, never both |
| VsCode.AugmentNamesDistinct | core/vscode_handler.py:426-430 | the three Augment directory names are distinct |
| VsCode.InProjectZones | core/vscode_handler.py:412-451 | the database and each Augment entry of a project are among its changeable entries |
| VsCode.ProjectZonesCover | core/vscode_handler.py:411-465 | everything a project's cleaning changes is one of its listed entries |
| VsCode.CacheNamesDistinct | core/vscode_handler.py:589 | the five cache names are distinct |
| VsCode.BackupIsNoStorageFile | core/vscode_handler.py:164-178 | a `.bak` backup never lands on `storage.json` or `state.vscdb` |
| VsCode.IdsPairedMerge | core/vscode_handler.py:169-184 | merging id maps (also lines 104-105) with `dict.update` keeps old and new ids under the same keys, all new ones UUIDs |
| VsCode.WorkspaceZonesOfInstallation | core/vscode_handler.py:394-468 | every entry a workspace cleaning may change belongs to that installation |
| VsCode.TallyKeeps | core/vscode_handler.py:88-125 | folding in a directory counts it once, as processed iff its storage succeeded; the variant is listed once; ids stay paired |
| VsCode.VSCodeHandler.constructor | core/vscode_handler.py:29-40 | the handler keeps its managers and random source |
| VsCode.VSCodeHandler.BackUp | core/vscode_handler.py:225-228 | a backup (also lines 297-300) is only taken when asked, under `<name>_<timestamp>.bak`; only the backup directory gains an entry |
| VsCode.VSCodeHandler.CommitJson | core/vscode_handler.py:248-258 | the write succeeds iff the file is owned and its directory exists; then the file holds the new object and is locked iff asked; nothing else changes |
| VsCode.VSCodeHandler.ProcessStorageJson | core/vscode_handler.py:202-272 | an unreadable file fails with the storage.json error and keeps its content; a JSON array, string or scalar succeeds with nothing changed unless the key loop raises (a scalar, or a telemetry key found `in` an array or string), and then it fails with the storage.json error; an owned object in a directory succeeds; on success exactly the present telemetry keys get fresh UUIDs, old and new values are recorded, other keys are kept, and the file is locked iff asked; with no key present nothing is written; only the file and its backup change |
| VsCode.VSCodeHandler.CommitDatabase | core/vscode_handler.py:351-364 | the database is written only when something changed, and then holds the rewritten tables; the file is locked iff asked |
| VsCode.VSCodeHandler.ProcessStateDatabase | core/vscode_handler.py:274-372 | a file that does not open or is not owned fails with the state-database error and keeps its content; otherwise it succeeds; the rewrite touches only cells of TEXT, VARCHAR and CHAR columns that held a telemetry key; it is committed once, only when something changed; the file is locked iff asked |
| VsCode.VSCodeHandler.MakeWritable | core/vscode_handler.py:295-304 | the backup is named after the file under the backup directory; only the file's mode changes, made writable, and only when the file is owned |
| VsCode.VSCodeHandler.RewriteStateDatabase | core/vscode_handler.py:306-366 | every telemetry cell gets a UUID paired with its old value; the file is written only when an id changed and then holds the rewritten tables; it is locked iff asked; nothing else changes |
| VsCode.VSCodeHandler.CleanProjectDatabase | core/vscode_handler.py:485-551 | 0 and nothing changed when the header check fails or `ItemTable` is absent or read-only; otherwise the count is the number of rows whose key matches one of the ten patterns, and the file is rewritten without them only when the count is positive (`ItemRowsRemoved`) |
| VsCode.VSCodeHandler.RemoveDirectory | core/vscode_handler.py:432-444 | the directory is removed iff `rmtree` can remove it, and then nothing at or below it remains; it fails iff it is an existing directory that cannot be removed; only it and the backup directory change |
| VsCode.VSCodeHandler.RemoveDirectories | core/vscode_handler.py:426-444 | each named directory is gone afterwards iff it existed and `rmtree` could remove it; the count is the number of them `rmtree` could remove (`RemovableCount`), the failures name the others that existed; only removed directories and the backup directory change |
| VsCode.VSCodeHandler.RemoveFiles | core/vscode_handler.py:446-465 | each named file is gone afterwards iff it existed and `unlink` could remove it; a removal is reported iff some file could be unlinked; only removed files and the backup directory change |
| VsCode.VSCodeHandler.CleanProject | core/vscode_handler.py:407-468 | the project's `state.vscdb` holds `ItemTable` without the rows whose key matches a pattern (when the header check passes, the table exists and SQLite may modify it; otherwise it is unchanged); each Augment directory and file is gone iff it could be removed; the records count is the matching rows (`ItemRowsRemoved`), and the project counts as cleaned iff rows were deleted or an Augment entry could be removed (`Touched`); only its entries and the backup directory change |
| VsCode.VSCodeHandler.CleanProjectDbStep | core/vscode_handler.py:412-423 | the project database holds `ItemTable` without the matching rows when it can be cleaned, and is unchanged otherwise; it changes only when records were deleted; the count is the matching rows of `ItemTable` (`ItemRowsRemoved`), 0 when the file is missing or cannot be cleaned |
| VsCode.VSCodeHandler.CleanWorkspaceStorage | core/vscode_handler.py:374-483 | no workspace directory: success with all counts 0 and nothing changed; an unlistable one fails with the workspace error and nothing changed; otherwise the projects are exactly the child directories, each cleaned as `CleanProject` states; the cleaned count is the number of projects it touches (`WorkspaceCount`), the records count the sum of their matching rows (`ProjectRows`), and only project entries change |
| VsCode.VSCodeHandler.CleanProjects | core/vscode_handler.py:403-468 | the processed projects are exactly the child directories, each cleaned as `CleanProject` states; processed is their number, cleaned the number of them touched, and records the sum of their matching rows, all on the tree before the loop |
| VsCode.VSCodeHandler.ProjectTurn | core/vscode_handler.py:403-468 | one entry of the loop: visited, and when it is a project the processed, cleaned and records counters stay the totals over the projects so far |
| VsCode.VSCodeHandler.VisitProject | core/vscode_handler.py:403-408 | a child counts as a project iff it is a directory, and then it is cleaned as `CleanProject` states; the projects so far stay cleaned; a project's records and cleaned flag are those of `CleanProject` on the tree before the loop |
| VsCode.VSCodeHandler.CleanCacheDirectories | core/vscode_handler.py:571-617 | always succeeds; each cache directory is gone afterwards iff `rmtree` could remove it, and the count is the number removed; the errors are exactly `Cache <name>: ...` for each existing one that could not be removed; only those change; that count is `RemovableCount` over the five cache names |
| VsCode.VSCodeHandler.ProcessStorageFiles | core/vscode_handler.py:139-200 | the report is `StorageReported`: success iff some file was processed; each existing one of storage.json and state.vscdb is processed or failed, never both, a missing one neither, and no other file is listed; errors are exactly the failed files' messages, in order; storage.json is processed iff `ProcessStorageJson` succeeds on it; state.vscdb is processed only if it opens and is ours, and then always when the directory is one; ids pair up; storage.json ends as `ProcessStorageJson` leaves it and state.vscdb as `ProcessStateDatabase` leaves it; only the two files change |
| VsCode.VSCodeHandler.StorageJsonStep | core/vscode_handler.py:163-175 | the storage.json part of that: processed iff `ProcessStorageJson` succeeds, the file left as it leaves it, and state.vscdb as it was |
| VsCode.VSCodeHandler.StateDbStep | core/vscode_handler.py:177-189 | the state.vscdb part of that, added to what storage.json gave: the database left as `ProcessStateDatabase` leaves it |
| VsCode.VSCodeHandler.ProcessDirectory | core/vscode_handler.py:88-119 | one directory's work, step by step: storage.json and state.vscdb as their handlers leave them, then every project of its workspace cleaned when asked, then each cache directory beside it gone iff it could be removed when asked; the workspace count is the projects touched on the tree after the storage files, the cache count the cache directories removable on the tree after the workspace step, each 0 when not asked; only that installation's entries change; its storage result is the one its run records, reported as `StorageReported` states for the tree it started from |
| VsCode.VSCodeHandler.CleanBeside | core/vscode_handler.py:103-111 | the workspace step then the cache step of one directory, with their counts as `WorkspaceStep` and `CacheStep` state, and the storage files cleaned before them kept unless the directory is itself a removed cache |
| VsCode.VSCodeHandler.ProcessVscodeInstallations | core/vscode_handler.py:42-137 | the directories are the cached listing when there is one, and otherwise the discovered listing (`Discovered`), which is then cached; no directories: the "No VSCode installations found" failure and nothing changed; otherwise the directories are processed in order, each as `ProcessDirectory` states, on the tree the one before left; each is counted once as processed or failed, success iff one was processed, the variants have no duplicates and are exactly those of the directories, ids pair up, and only the installations' entries change; `workspace_cleaned` and `cache_cleaned` are the sums of the directories' own counts (`WorkspaceTotal`, `CacheTotal`); `directories_processed` is the number of directories whose storage result succeeded (`ProcessedCount`), and the processed and failed counts, files, backups, ids and errors are those storage results folded in order, a succeeding one adding its files, backups and ids and a failing one its failed files and errors (`StoredTotal`) |
| VsCode.VSCodeHandler.ProcessDirectories | core/vscode_handler.py:84-130 | the loop over the listing, with the same per-directory runs and report; the two cleaning totals are the sums of the per-directory counts, `directories_processed` is the number of directories whose storage result succeeded, and the storage part of the report is the fold of the storage results (`StoredTotal`) |
| VsCode.VSCodeHandler.FoldDirectories | core/vscode_handler.py:84-126 | the loop itself: every directory processed on the tree the one before left, and the report before its overall success is set is `Tallied` for all of them |
| VsCode.ScanDocument | core/vscode_handler.py:236-237 | the telemetry-key loop over a JSON array, string or scalar raises iff the document is a scalar or holds a telemetry key |
| VsCode.CacheErrors | core/vscode_handler.py:571-617 | one `Cache <name>: ...` error per failed cache directory, in order |
| VsCode.CacheErrorsListed | core/vscode_handler.py:571-617 | the cache errors name exactly the existing cache directories that could not be removed |
| VsCode.VSCodeHandler.SweepDirectory | core/vscode_handler.py:432-444 | one directory of the removal list: removed or failed, the tally kept, and only removed directories changed; the count grows by one exactly when the directory could be removed |
| VsCode.VSCodeHandler.UnlinkFile | core/vscode_handler.py:446-465 | a file is removed iff `unlink` can remove it; only it and the backup directory change |
| VsCode.VSCodeHandler.SweepFile | core/vscode_handler.py:446-465 | one file of the removal list: removed iff it can be unlinked, and only removed files changed |
| VsCode.VSCodeHandler.BackUpProjectDatabase | core/vscode_handler.py:413-417 | the `workspace_<folder>` backup: only the backup directory can change, and nothing does when not asked |
| VsCode.VSCodeHandler.RunStorageJson | core/vscode_handler.py:163-175 | `storage.json` processed as `ProcessStorageJson` states, with the `state.vscdb` beside it and the directory left alone |
| VsCode.VSCodeHandler.WorkspaceStep | core/vscode_handler.py:103-106 | the workspace part of one directory when asked, nothing when not; the count is the projects touched (`WorkspaceCount`), 0 when not asked; only project entries outside the storage files change |
| VsCode.VSCodeHandler.CacheStep | core/vscode_handler.py:108-111 | the cache part of one directory when asked, nothing when not; the count is the cache directories `rmtree` can remove, 0 when not asked; only cache directories change, never the storage files |
| VsCode.VSCodeHandler.TallyStep | core/vscode_handler.py:88-125 | folding in one directory keeps the report true (`Tallied`): counts add up, variants stay duplicate-free and are those seen, ids pair up, the two cleaning totals stay the sums of the runs' counts, and the storage part stays the fold of the runs' storage results |
| VsCode.VSCodeHandler.VisitInstallation | core/vscode_handler.py:88-125 | one directory of the loop: its run and changed entries added to those before, with the report kept `Tallied`: the cleaning totals and the fold of the storage results included |
| VsCode.TotalsExtend | core/vscode_handler.py:100-119 | one more directory adds its own workspace and cache counts to the totals and folds its storage result into the storage part, and leaves what earlier directories gave as it was |
| VsCode.StoredCounts | core/vscode_handler.py:100-108 | in the fold of the storage results, `directories_processed` counts the succeeding directories and `directories_failed` the others |
| VsCode.StorageOutcome | core/vscode_handler.py:192-193 | a directory's storage result succeeds only when its storage.json is processed or its state.vscdb opens and is ours (`StorageOk`), and then always when it is a directory; a processed storage.json always makes it succeed |
| VsCode.StorageHalvesJoin | core/vscode_handler.py:160-193 | the storage.json step followed by the state.vscdb step gives the report `StorageReported` states, read against the tree before both |
| VsCode.SettledStored | core/vscode_handler.py:128-129 | setting the overall success leaves the storage part of the report alone, whose processed count is the number of succeeding directories |
| VsCode.UnlinkedCount | core/vscode_handler.py:446-465 | the files a removal pass unlinked are exactly as many as `unlink` could remove |
| VsCode.ProjectTally | core/vscode_handler.py:403-468 | counting one more project keeps processed, cleaned and records equal to their totals over the projects so far |
| VsCode.ProjectCountsAdd | core/vscode_handler.py:408-468 | adding a project adds its rows to the records total and, when it is touched, one to the cleaned count |
| VsCode.ProjectCountsKept | core/vscode_handler.py:403-468 | cleaning other projects leaves a project's matching rows and whether it is touched as they were |
| VsCode.ProjectStepsCounts | core/vscode_handler.py:412-465 | the database step leaves the removable Augment directories as they were, and both earlier steps leave the unlinkable Augment files as they were |
| VsCode.ItemRowsKept | core/vscode_handler.py:412-423 | a change confined elsewhere (such as the backup) leaves the rows a project database will lose as they were |
| VsCode.RemovableAmongKept | core/vscode_handler.py:426-444 | a change confined elsewhere leaves the number of removable directories as it was |
| VsCode.UnlinkableAmongKept | core/vscode_handler.py:446-465 | a change confined elsewhere leaves the number of unlinkable files as it was |
| JetBrains.SuffixAt | core/jetbrains_handler.py:259 | a dot `k` places from the end, with no later dot and not at the start, begins `Path.suffix` |
| JetBrains.SqliteSuffixesLower | core/jetbrains_handler.py:259 | the three accepted suffixes are already lower-case |
| JetBrains.EndingCleaned | core/jetbrains_handler.py:259 | a name longer than `.db`, `.sqlite` or `.sqlite3` that ends with it passes the suffix test |
| JetBrains.WholeNameNoSuffix | core/jetbrains_handler.py:259 | a file named exactly `.db`, `.sqlite` or `.sqlite3` has no suffix and is not cleaned |
| JetBrains.DatabaseNameCleaned | core/jetbrains_handler.py:259-264 | a found database file is cleaned iff its name is not one of the bare suffixes |
| JetBrains.JetBrainsCleanedSpec | core/jetbrains_handler.py:302-325 | after a pass no row keeps a TEXT, VARCHAR or CHAR cell matching an Augment pattern, every kept row was there, and a second pass removes nothing |
| JetBrains.CleanSqliteDatabase | core/jetbrains_handler.py:275-334 | 0 and nothing changed for a file that fails the header check; otherwise the count of rows the pass removes; the file is rewritten with the cleaned tables when SQLite may modify it, and left alone when nothing was removed |
| JetBrains.UnlockedWritable | core/jetbrains_handler.py:191-196 | after the unlock step the write succeeds exactly when the directory exists and the file is writable or owned, or is new in a writable directory |
| JetBrains.AbsorbDbFileStep | core/jetbrains_handler.py:105-119 | folding in a database counts it once, adds an error exactly for a failure, a backup only for a success, and adds exactly the records of a success to the total; the id part is untouched |
| JetBrains.IdFileNamesDistinct | config/settings.py:25-28 | the two identifier files have distinct names, so their ids never share a key |
| JetBrains.ExistingMissingPartition | core/jetbrains_handler.py:380-384 | every identifier file is listed as existing or missing, according to whether it exists |
| JetBrains.ExistingMissingSnoc | core/jetbrains_handler.py:380-384 | the loop adds each file to exactly one of the two lists, in order |
| JetBrains.CopyKeepsCleaning | core/jetbrains_handler.py:250-261 | taking the backup leaves the database file and whether it will be cleaned as they were |
| JetBrains.JetBrainsHandler.constructor | core/jetbrains_handler.py:22-33 | the handler keeps its managers and random source |
| JetBrains.JetBrainsHandler.RewriteIdFile | core/jetbrains_handler.py:188-204 | the unlock, write and lock steps succeed iff the file is writable after unlocking; then it holds the new id and is locked iff asked and owned; only the file changes |
| JetBrains.JetBrainsHandler.WriteAndLock | core/jetbrains_handler.py:196-204 | `write_text` then `lock_file`: succeeds iff the file can be written, otherwise nothing changes |
| JetBrains.JetBrainsHandler.BackUpIdFile | core/jetbrains_handler.py:174-181 | a backup only when asked and the file exists, named `jetbrains_<name>_<timestamp>.bak` in the backup directory; the file itself is untouched |
| JetBrains.JetBrainsHandler.ProcessIdFile | core/jetbrains_handler.py:136-217 | an unsafe parent directory fails with the unsafe-path error and changes nothing; otherwise the old id is the stripped text, the new id is a UUID 4, success iff the file is writable after unlocking, failure carries the file-operation error; on success the file holds the new id and is locked iff asked and owned |
| JetBrains.JetBrainsHandler.ProcessDatabaseFile | core/jetbrains_handler.py:219-273 | an unsafe path fails with the unsafe-database error and changes nothing; otherwise success; the records count is the rows cleaned from a valid SQLite file with an accepted suffix and 0 otherwise; a file with nothing removed is left as it was |
| JetBrains.JetBrainsHandler.BackUpDatabase | core/jetbrains_handler.py:249-256 | a backup is made only when asked for, named `jetbrains_db_<name>` under the backup directory; the database itself is untouched |
| JetBrains.JetBrainsHandler.CleanDatabaseFile | core/jetbrains_handler.py:258-264 | only a valid SQLite file with a `.db`, `.sqlite` or `.sqlite3` suffix (any case) is cleaned, and the count is its rows removed; otherwise the count is 0 and nothing changes |
| JetBrains.JetBrainsHandler.ProcessIdFiles | core/jetbrains_handler.py:79-98 | each of the two identifier files is processed or failed, once; a file is processed iff its directory is safe and the file is writable after unlocking, and then holds a fresh UUID 4, keyed by its name; its old id is recorded iff the stripped old text is non-empty, and equals it; one error per failure; only the two files and the backup directory change |
| JetBrains.JetBrainsHandler.ProcessDatabaseFiles | core/jetbrains_handler.py:101-119 | each database is processed or failed, once; a file is processed iff its path is safe; a safe file with an SQLite suffix that is a valid database holds its cleaned tables when SQLite may modify it, and any other file keeps its entry; one error per failure; the id part of the report is untouched; only the files and the backup directory change; when no file lies below another and none is in a backup slot, the records total is the accumulator plus each safe, valid SQLite-suffixed file's rows removed (`ListedRows`) |
| JetBrains.JetBrainsHandler.ProcessJetbrainsIdes | core/jetbrains_handler.py:35-134 | no configuration directory: the not-found report and nothing changed; otherwise the identifier files are processed as above; when asked, the database files are exactly the regular files below the directory, after the id step, whose names match a database pattern, and each is cleaned as above; errors match failures, success iff something was processed, new ids are UUIDs keyed by file name, and only those files and the backup directory change; when asked and no listed file is in a backup slot, the records total is the listed files' rows removed, on the tree the identifier pass left |
| JetBrains.JetBrainsHandler.VerifyJetbrainsInstallation | core/jetbrains_handler.py:354-389 | installed iff a configuration directory is found; then the two identifier files, split into existing and missing |
| JetBrains.OldIdOf | core/jetbrains_handler.py:168 | defined iff the file reads as text; no longer than that text, with no leading or trailing whitespace |
| JetBrains.JetBrainsHandler.TallyIdFile | core/jetbrains_handler.py:79-98 | one more identifier file: the tally and each file's outcome stay true of the files so far, and only those files and the backup directory changed |
| JetBrains.JetBrainsHandler.TallyDatabaseFile | core/jetbrains_handler.py:101-119 | one more database: the tally and each file's cleaning stay true of the files so far, and only those files and the backup directory changed; under the same conditions the records total grows by this file's rows removed |
| JetBrains.JetBrainsHandler.DbFileRowsKept | core/jetbrains_handler.py:105-115 | the earlier files' cleaning leaves the rows a later database file will lose as they were, so the total adds up file by file |
| JetBrains.JetBrainsHandler.CleanListedDatabases | core/jetbrains_handler.py:100-119 | the databases are exactly the regular files below the directory with a database name, none below another, and each is processed or failed once and cleaned as `ProcessDatabaseFiles` states; when no listed file is in a backup slot, the records total is the accumulator plus the listed files' rows removed |
| JetBrains.JetBrainsHandler.RunPasses | core/jetbrains_handler.py:79-134 | the identifier pass, then (when asked) the database pass over the tree the first leaves; the same report as `ProcessJetbrainsIdes` once the directory is found; when asked and no listed file is in a backup slot, the records total is the listed files' rows removed, on the tree the identifier pass left |
| JetBrains.JetBrainsHandler.DatabasePass | core/jetbrains_handler.py:100-134 | the database pass keeps the identifier report, cleans exactly the listed databases when asked and changes nothing otherwise; success iff something was processed; when asked and no listed file is in a backup slot, the records total is the listed files' rows removed |

Where the documented behaviour and the code differ, the model follows the code:

- `_process_storage_json` gives every telemetry key a fresh UUID, whatever the key's kind under `get_id_for_key` (`VsCode.RewriteKeys`).
- `lock_file` reports success for an existing file even when `chmod` fails (`FileLocker.LockFile`).
- Rows deleted from the `.backup` sibling database are not added to the total the cleaner returns (`DbCleaner.ExecuteDatabaseCleaning`).
- The handler's `_is_valid_sqlite_database` checks the 16-byte header only. It does not open the file (`DbCleaner.HeaderCheck`).
- A directory whose storage succeeded counts as processed, and the errors of the part that failed are dropped (`VsCode.TallyKeeps`).
- A file named exactly `.db` is found as a JetBrains database but is not cleaned, because `Path.suffix` is empty (`JetBrains.DatabaseNameCleaned`).

## Left out

- Exception texts are abstracted to fixed messages: `CleaningFailed`, `StorageJsonFailed`, `StateDbFailed`, `WorkspaceFailed`, `CacheError`, `FileOperationFailed`, `UnsafeFilePath` and `UnsafeDatabasePath`. The Python exception's own text is not part of any message.
- Unexpected exceptions are not modelled: the per-project and per-directory `except Exception` handlers (core/vscode_handler.py:121-125, 470-472) and the outer catch-alls of every operation. Each failure the model knows of (a missing file, a failed write, a database that will not open, a failed removal) is modelled as its own error path.
- The order of `iterdir`, `rglob` and `glob` is not modelled. Listings are given as sets, or as any order of a set, and `sorted()` is modelled on the string form.
- `shutil.rmtree` is all or nothing. A removal that fails halfway is not modelled.
- FileLocker.LockFile and FileLocker.UnlockFile model only the Python mode-bit step (`LockedMode(m)` / `UnlockedMode(m)`). The platform commands (`attrib`, `chflags`, `chmod 444` / `chmod 644`, utils/file_locker.py:90-153 and 203-289) are not modelled. On Linux and macOS those commands leave the mode at exactly 0o444 or 0o644, whatever the mode was before.
- SQLite journalling, locking and transactions are not modelled. Row identities are taken to be distinct.
- CleanTableRecords (DbCleaner.CleanTableRecords) takes every table and column name as a plain SQL identifier and cleans every table. The source pastes the names into the SQL unquoted (core/db_cleaner.py:295, 305, 310). With a name holding a space, a quote or a keyword, a failing `PRAGMA` makes it skip the table, and a failing `COUNT`/`DELETE` makes it skip that column and pattern (core/db_cleaner.py:314-319). Those skips are not modelled.
- CleanTableRecords also treats a BLOB column as a text column (core/db_cleaner.py:299). Sqlite.Value holds only NULL, INTEGER and TEXT, so only text stored in such a column is modelled; `LIKE` on BLOB bytes is not.
- RewriteTable (VsCode.RewriteTable) takes every table and column name as a plain SQL identifier and rewrites every table. The source pastes the names unquoted (core/vscode_handler.py:320, 329, 339) and addresses rows by `rowid` (core/vscode_handler.py:329). On a name that needs quoting, or on a `WITHOUT ROWID` table, the statement fails and the source skips the rest of that table (core/vscode_handler.py:347-349), keeping the updates already made. Neither case is modelled; every table has a rowid in the model.
- CleanSqliteDatabase (JetBrains.CleanSqliteDatabase) takes every table and column name as a plain SQL identifier and cleans every table. The source pastes the names unquoted (core/jetbrains_handler.py:306, 315, 320). On a name that needs quoting, the failing statement ends that table's cleaning partway, keeping the deletions already made (core/jetbrains_handler.py:324-326). That is not modelled.
- VsCode.RewriteKeys and VsCode.VSCodeHandler.ProcessStorageJson see a `storage.json` object as a map from keys to strings (`Fs.Content.Json`). Real values can be any JSON value: a nested object, a number, `null`. The source records `data[key]` as the old id whatever its type (core/vscode_handler.py:239-242); the model records only string values. A top-level list, string or scalar is modelled (`JsonList`, `JsonString`, `JsonScalar`).
- VsCode.VSCodeHandler.ProcessStateDatabase: whether a file is readable is a flag of its node, separate from its mode bits. The `chmod(S_IWRITE | S_IREAD)` the source runs before connecting (core/vscode_handler.py:295-304) changes the mode but cannot make an unreadable file readable in the model. In Python an owned file with mode 0o000 opens after the `chmod`; in the model the flag stays as it was, so a node marked unreadable still fails to open.
- Sqlite.Value holds NULL, INTEGER and TEXT only. BLOB and REAL values are not modelled, and neither are SQLite's comparisons of them.
- CleanVscodeDatabases (DbCleaner.DatabaseCleaner.CleanVscodeDatabases) states each database's cleaning against the tree its turn sees, not the tree before the sweep, because an earlier turn may have written a backup. Its `found` count is the number of databases found turn by turn, because `get_vscode_database_file` runs inside the loop (core/db_cleaner.py:63).
- CleanJetbrainsDatabases (DbCleaner.DatabaseCleaner.CleanJetbrainsDatabases) likewise states each database's cleaning against the tree its turn sees, not the tree before the sweep.
- JetBrains.JetBrainsHandler.DbFilesCleaned states the per-file outcome only for files that are not backup slots (entries directly in the backup directory with a `_` in the name), and JetBrains.JetBrainsHandler.ProcessDatabaseFiles states it only when no listed file lies below another. A database in a backup slot can be overwritten by another file's backup during the loop. The listing `ProcessJetbrainsIdes` cleans always has no file below another (Paths.ReachableFilesApart).
- ProcessDatabaseFiles (JetBrains.JetBrainsHandler.ProcessDatabaseFiles) states the `database_records_cleaned` total only when no listed file lies below another and none is in a backup slot (`OutsideSlots`). A database in a backup slot can be overwritten by an earlier file's backup during the loop, and then the rows it loses are not those of the tree before the loop.
- TallyDatabaseFile (JetBrains.JetBrainsHandler.TallyDatabaseFile) states its share of the total under the same two conditions.
- CleanListedDatabases (JetBrains.JetBrainsHandler.CleanListedDatabases) states the total only when no listed database is in a backup slot; the listing never has one file below another.
- DatabasePass (JetBrains.JetBrainsHandler.DatabasePass) states the total under the same condition.
- RunPasses (JetBrains.JetBrainsHandler.RunPasses) states the total under the same condition.
- ProcessJetbrainsIdes (JetBrains.JetBrainsHandler.ProcessJetbrainsIdes) states the total under the same condition.
- Backup.StripTimestamp models the pattern `_\d{8}_\d{6}$` (utils/backup.py:267) with ASCII digits and an exact end of string. Python's `\d` also matches other Unicode decimal digits, and `$` also matches before a final newline; such names are not stripped by the model.
- IdGenerator.GetIdForKey lower-cases the key with Common.Lower, which maps ASCII letters only. `str.lower()` also lower-cases other letters, so a non-ASCII key can dispatch differently in Python.
- `verify_vscode_installation`, `get_current_device_ids`, `get_current_vscode_ids`, `get_current_jetbrains_ids`, `get_jetbrains_cache_dirs`, `get_workspace_storage_path`, `create_json_backup`, `get_backup_info` and `verify_backup_integrity` are not modelled. They are read-only reports or helpers that no modelled operation calls.
- `time.strftime` is modelled for the one format the backup names use. The local-time source is a parameter.
- The SHA-256 function is not modelled. A digest is 32 bytes from the random source, which is its shape and its consumption.
- IdGenerator.ValidateIdFormat: in the `uuid` case the model reads only ASCII hex digits. The `int(hex, 16)` inside `uuid.UUID` also accepts the other Unicode decimal digits, so the model rejects a few exotic values that Python accepts.
- Symlinks are not modelled. Every path is taken as already resolved by `Path.resolve`.
- Backup.BackupManager.ListBackups and Backup.BackupManager.AutoRestoreBackup match names with Fs.FnMatch, which knows `*` and `?` only. A `[...]` character class in the pattern is compared as literal text, so a pattern holding `[` can list different backups than `glob` would.
- Fs.FnMatch: `[...]` character classes, and the `[!...]` negated form, are not modelled; `[` is an ordinary character.
- Backup.FnMatchPrefix, Backup.ListGlobContains and Fs.FnMatchLiteral are stated only for texts without `*`, `?` and `[`, the characters `fnmatch` treats specially.
- VsCode.VSCodeHandler.ProcessStorageFiles, VsCode.StorageOutcome and VsCode.VSCodeHandler.ProcessDirectory leave one case open: an openable, owned `state.vscdb` entry whose directory is not a directory in the tree. That tree has a file below a non-directory, which no file system produces. In every other case the directory succeeds exactly when `StorageOk` holds.
- VsCode.VSCodeHandler.ProcessDirectories, VsCode.VSCodeHandler.ProcessVscodeInstallations and VsCode.VSCodeHandler.VisitInstallation tie `directories_processed` to each directory's storage result, so they inherit that open case.
- The presentation layers (the GUIs, the CLI and the Streamlit page), process termination and logging are not modelled.
- The "No JetBrains ID files found" branch (core/jetbrains_handler.py:75-77) is not modelled. The handler reaches it only after a configuration directory was found, and then `get_jetbrains_id_files` always lists the two configured files.
- The "Database file does not exist" branch (core/jetbrains_handler.py:245-247) is not modelled. `validate_path` has already rejected a missing path at line 241.
- `_get_original_path_from_backup` maps a `jetbrains_db_<f>` database backup to config/JetBrains/`db_<f>`, which is not where it was taken from. This is modelled as written (`Backup.DatabaseBackupOriginal`). No modelled caller restores a database backup, so the model only records it.
- No modelled caller uses `get_id_for_key`. `IdGenerator.GetIdForKey` models it as written. The corrected dispatch, `IdGenerator.IntendedKindForKey`, is stated and proved on its own.

## Findings

| source | as written | input that shows it | evidently intended | confidence | as-written member | corrected member |
|---|---|---|---|---|---|---|
| utils/id_generator.py:135-141 | a key matching `machineId` or `machine_id` is hashed with SHA-256 whenever its lower-cased form contains `mac`, and every such key does, since `machine` starts with `mac`; the 64-hex machine-id branch is dead | `telemetry.machineId` gets a SHA-256 digest | only Mac machine ids (`macMachineId`, `mac_machine_id`) are hashed; other machine-id keys get a 64-hex machine id | not executed | IdGenerator.KindForKey (IdGenerator.MachineHexUnreachable, IdGenerator.MachineIdKeyIsHashed) | IdGenerator.IntendedKindForKey (IdGenerator.IntendedKindAgrees, IdGenerator.MacMachineSpellingsHashed) |
