# Indaleko ingest core in Dafny

Indaleko is a unified personal index. Indexers capture file-system and cloud-storage metadata. Ingesters then normalise each captured entry into an *object record*, and link directories to their contents with *Contains* / *ContainedBy* relationship pairs. This project models that pipeline and the small pure pieces around it, as pure functions over immutable data:

- the normalisers and graph builders of the Dropbox, iCloud and macOS local ingesters (`Normalize`, `Ingest`);
- the Windows local ingester's normaliser (`Normalize`);
- the Windows and Unix file-attribute decoders (`FileAttributes`);
- the reserved-character path codec (`PathCodec`);
- drive-letter and volume-GUID URIs, the Windows indexer's drive cache, and the drive map of the local ingest script (`Volumes`);
- machine-configuration file names: the guid/timestamp extraction, the timestamp conversions and the "most recent" choice (`ConfigNames`, `MachineConfig`);
- the machine-configuration setters and the volume tables of the macOS and Windows configurations (`MachineConfig`);
- record shaping: `IndalekoRecord`, `IndalekoObject`, `IndalekoRelationship` (`Records`, `Objects`, `Relationships`);
- the service-record builder (`Services`), and the ingester and indexer naming and counters (`Ingester`, `Indexer`);
- the Linux `ip addr` parser, over a given output text (`IpAddr`);
- the fileaudit operators and the open/close log compactor (`AuditOps`, `Compactor`).

Python values are a `Value` datatype (`Values`). Dictionaries are ordered association lists that keep insertion order (`Dicts`). Exceptions are `Result` errors named after the Python exception class (`Errors`). String methods are in `PyStr`, and `uuid.UUID` parsing is in `Uuid`. Fresh UUIDs, the clock, msgpack/base64/json encoders, `os.path.join`/`splitdrive`, `os.listdir`, `os.stat`, `fromtimestamp`/`fromisoformat`/`strptime` and subprocess output are parameters of the functions that use them.

The edges the graph builders emit are plain `(relationship, object1, object2)` triples. The relationship constructor itself is modelled separately in `Relationships`, because as written it can never build a relationship (see Findings).

## Model

| member | source | states |
|---|---|---|
| FileAttributes.Names | IndalekoWindows.py:34-41 | the names listed are the table entries whose whole mask is set in the low 32 bits of the input, in table order |
| FileAttributes.WindowsNames | IndalekoWindows.py:34-41 | zero lists `FILE_ATTRIBUTE_NORMAL` first; any other name is listed exactly when its mask bits are all set in the low 32 bits |
| FileAttributes.MapWindows | IndalekoWindows.py:34-41 | every listed Windows name appears in the joined text |
| FileAttributes.MapUnix | IndalekoUnix.py:15-22 | every listed Unix name appears in the joined text, and no names give the empty string |
| FileAttributes.NamesMember | IndalekoWindows.py:38-40 | a name is listed exactly when some entry with that name has all of its mask bits set in the input |
| FileAttributes.NamesInTableOrder | IndalekoWindows.py:4-31 | with distinct names the listed names follow the table order strictly |
| FileAttributes.WindowsNamesDistinct | IndalekoWindows.py:4-31 | the Windows table's names are pairwise distinct |
| FileAttributes.UnixNamesDistinct | IndalekoUnix.py:4-12 | the Unix table's names are pairwise distinct |
| FileAttributes.NamesMonotone | IndalekoWindows.py:38-40 | setting more bits in the input never removes a name from the rendering |
| FileAttributes.EqualMasks | IndalekoWindows.py:38-40 | two entries with equal masks are listed together or not at all |
| FileAttributes.SharedWindowsMasks | IndalekoWindows.py:18-30 | the aliased pairs EA/RECALL_ON_OPEN, PINNED/FIRST_PIPE_INSTANCE and UNPINNED/OPEN_NO_RECALL always appear together |
| FileAttributes.NamesConcat | IndalekoWindows.py:38-41 | rendering a table split in two renders each part in turn |
| FileAttributes.LowByteRuns | IndalekoWindows.py:4-31 | an input confined to the low byte holds no mask beyond the first run of low-byte entries |
| FileAttributes.HighRunEmpty | IndalekoWindows.py:38-40 | a run of masks clear of the low byte renders nothing for an input confined to it |
| FileAttributes.WindowsDirectory | IndalekoWindows.py:8 | 0x10 renders exactly as FILE_ATTRIBUTE_DIRECTORY |
| FileAttributes.WindowsNormal | IndalekoWindows.py:11 | 0x80 renders exactly as FILE_ATTRIBUTE_NORMAL |
| FileAttributes.WindowsZero | IndalekoWindows.py:36-37 | 0 holds no mask, and the special case yields exactly FILE_ATTRIBUTE_NORMAL |
| FileAttributes.UnixTypeField | IndalekoUnix.py:15-22 | two modes that agree on the file-type field render the same names and the same string |
| FileAttributes.UnixZero | IndalekoUnix.py:15-22 | a mode with no file-type bits renders no name, the empty string |
| FileAttributes.UnixDirectory | IndalekoUnix.py:9 | a directory mode renders as S_IFDIR alone |
| FileAttributes.UnixRegular | IndalekoUnix.py:10 | a regular-file mode renders as S_IFREG alone |
| FileAttributes.UnixOverlappingCodes | IndalekoUnix.py:5-11 | a socket renders as S_IFSOCK, S_IFREG and S_IFDIR, and a block device as S_IFBLK, S_IFDIR and S_IFCHR, because the type codes overlap as masks |
| FileAttributes.UnixDirectoryTest | IndalekoUnix.py:18-22 | the ingesters' `'S_IFDIR' in` test accepts directories, sockets and block devices, and rejects regular files |
| FileAttributes.RenderUnixDirectory | IndalekoDropboxIngester.py:120 | the S_IFDIR code the cloud normalisers look up renders back as "S_IFDIR" |
| FileAttributes.RenderUnixRegular | IndalekoDropboxIngester.py:123 | the S_IFREG code renders back as "S_IFREG" |
| FileAttributes.RenderWindowsDirectory | IndalekoDropboxIngester.py:121 | the FILE_ATTRIBUTE_DIRECTORY code renders back as its own name |
| FileAttributes.RenderWindowsNormal | IndalekoDropboxIngester.py:124 | the FILE_ATTRIBUTE_NORMAL code renders back as its own name |
| PathCodec.WindowsToPosix | IndalekoWindowsLocalIndexer.py:38-49 | a path without a reserved character is unchanged |
| PathCodec.PosixToWindows | IndalekoWindowsLocalIndexer.py:52-63 | a path without an underscore is unchanged |
| PathCodec.EncodeChars | IndalekoWindowsLocalIndexer.py:43-48 | an input character survives encoding only if no entry replaces it; every other output character comes from a token |
| PathCodec.EncodedHasNoReserved | IndalekoWindowsLocalIndexer.py:43-48 | `windows_to_posix` output holds none of the nine reserved characters |
| PathCodec.TokenChars | IndalekoWindowsLocalIndexer.py:57-60 | the tokens consist of `_` and lower-case letters |
| PathCodec.EncodeIdentity | IndalekoWindowsLocalIndexer.py:43-48 | encoding is the identity on strings without reserved characters |
| PathCodec.EncodeConcat | IndalekoWindowsLocalIndexer.py:47-48 | encoding works character by character, so it distributes over concatenation |
| PathCodec.EncodeOne | IndalekoWindowsLocalIndexer.py:43-48 | a lone reserved character encodes as its token |
| PathCodec.DecodeIdentity | IndalekoWindowsLocalIndexer.py:57-62 | decoding is the identity on strings without `_` |
| PathCodec.ReplaceOnlyToken | IndalekoWindowsLocalIndexer.py:61-62 | in `x + tok + y` with no `_` in x or y, replacing the token changes only that token |
| PathCodec.DecodeOne | IndalekoWindowsLocalIndexer.py:57-62 | decoding `x + tok_i + y` restores entry i's character |
| PathCodec.RoundTripOneReserved | IndalekoWindowsLocalIndexer.py:43-62 | decoding the encoding of a name with no `_` and one reserved character gives the name back |
| PathCodec.CleanNamesUnchanged | IndalekoWindowsLocalIndexer.py:43-62 | names without reserved characters or `_` pass through both directions unchanged |
| PathCodec.RoundTripFails | IndalekoWindowsLocalIndexer.py:47-48 | the round trip is not an identity: ":lt>" encodes to "_cln_lt_gt_", which decodes to "_cln<gt_" |
| PathCodec.DecodeAbsent | IndalekoWindowsLocalIndexer.py:61-62 | decoding changes nothing when no token occurs |
| Volumes.DriveOf | IndalekoWindowsLocalIndexer.py:79 | the drive is the upper-cased first character of the drive part, an IndexError when there is no drive part |
| Volumes.VolumeUri | IndalekoWindowsLocalIndexer.py:83 | a mapped GUID's URI starts with the volume prefix `\\?\Volume{` |
| Volumes.LetterNotVolume | IndalekoWindowsLocalIndexer.py:80 | a lettered URI `\\?\D:` never starts with the volume prefix |
| Volumes.ConvertUri | IndalekoWindowsLocalIndexer.py:77-86 | the URI is a volume URI exactly when the configuration maps the path's drive letter |
| Volumes.ConvertUriGuid | IndalekoWindowsLocalIndexer.py:83 | the volume-GUID reader of the Windows configuration takes back the GUID the conversion wrote |
| Volumes.ConvertUriUnmapped | IndalekoMacMachineConfig.py:251-254 | with the macOS configuration every path gets the lettered URI |
| Volumes.StatStep | IndalekoWindowsLocalIndexer.py:89-111 | a failed stat gives None; a root without a drive is an IndexError; a new drive that the configuration does not map is an AssertionError, a mapped one caches its volume URI; an unchanged drive succeeds and, as written, caches the entry's own file path |
| Volumes.StatStepDict | IndalekoWindowsLocalIndexer.py:102-111 | the dictionary holds the name as `file`, the root as `path`, and the cached URI joined with the path below the drive and the name as `URI` |
| Volumes.StatStepNewVolume | IndalekoWindowsLocalIndexer.py:105-110 | on a new drive mapped to a GUID, the entry's URI is built on that volume URI and the GUID reader takes the GUID back from the cache |
| Volumes.FixedStatStep | IndalekoWindowsLocalIndexer.py:89-111 | the corrected step: the same outcomes for a failed stat, a missing drive and a new drive, and an unchanged drive keeps the cached volume URI |
| Volumes.FixedIndex | IndalekoWindowsLocalIndexer.py:114-125 | the walk with the corrected step keeps at most one stat dictionary per entry |
| Volumes.FixedStepKeepsCache | IndalekoWindowsLocalIndexer.py:105-110 | the corrected step keeps a good cache good, and every URI it writes is the cached volume URI joined with the path below the drive |
| Volumes.FixedIndexUris | IndalekoWindowsLocalIndexer.py:114-125 | every entry of the corrected walk has a URI built on a volume URI |
| Volumes.StatStepSecondEntry | IndalekoWindowsLocalIndexer.py:95-111 | as written, the second entry on the same drive gets a URI joined onto its own file path, not onto the volume URI |
| Volumes.LastUniqueId | windows_local_index.py:124-127 | without a listing entry for the drive the default URI stays; otherwise the last entry listing the drive wins |
| Volumes.ScriptConvertUri | windows_local_index.py:122-128 | the lettered URI unless the configuration lists the drive, then the unique id of the last entry listing it |
| Volumes.DriveGuid | windows_local_index.py:105-114 | the first entry listing the drive decides, and its unique id must contain "Volume"; with no entry the drive letter is used |
| Volumes.DriveGuidOfVolume | windows_local_index.py:111 | for a unique id `\\?\Volume{g}\` the `[-38:-2]` slice is the 36-character GUID g |
| Volumes.ScriptOutputFileName | windows_local_index.py:102-116 | an output name exists only for a path with a drive part |
| Volumes.ScriptOutputFileNamePlain | windows_local_index.py:116 | without `_` in its parts the name is the plain layout, because the codec only rewrites `_`-delimited tokens |
| Volumes.DriveMap | local-ingest.py:35-42 | building the drive map keeps the keys distinct |
| Volumes.DriveMapGet | local-ingest.py:38-42 | the map's keys are exactly the listed letters, and each reads the unique id of the last entry listing it |
| Volumes.LastListing | local-ingest.py:39-42 | the position of the last entry listing a letter: it lists the letter and no later entry does |
| ConfigNames.DirMatchSound | IndalekoMacMachineConfig.py:136-139 | what the pattern search finds is a match at one of the candidate starts |
| ConfigNames.StampAtStamp | IndalekoMacMachineConfig.py:136 | the timestamp group recognises every timestamp of the naming scheme, with its full length |
| ConfigNames.MatchAtName | IndalekoMacMachineConfig.py:136-141 | a name of the scheme matched at its start gives back its guid and timestamp groups |
| ConfigNames.DirMatchAt | IndalekoMacMachineConfig.py:136-137 | a start just after a separator, or the start of the text, where the rest matches is what the search returns |
| ConfigNames.DirLast | IndalekoMacMachineConfig.py:136-137 | a start after the last separator is where the search matches |
| ConfigNames.ParseName | IndalekoMacMachineConfig.py:136-141 | a configuration file of the scheme, under any directory path, matches with the guid and timestamp it was named with |
| ConfigNames.GuidRunOfName | IndalekoMacMachineConfig.py:136 | in a name of the scheme the run of guid-class characters covers the guid, its `-` and the date, and stops at the `T` |
| ConfigNames.FmtStampAt | IndalekoMachineConfig.py:246 | the generic timestamp group matches only at a `\d4-\d2-\d2` date, `T` and `\d2-\d2-\d2` time, with at least 20 characters |
| ConfigNames.FmtStampStart | IndalekoMachineConfig.py:246 | the generic timestamp group, when it has a start, begins after a `-` and has its `T` eight characters later |
| ConfigNames.FmtDirMatchNoSep | IndalekoMachineConfig.py:246-247 | when no separator occurs before a candidate start, the generic search gives what the expression gives at the start of the text |
| ConfigNames.FmtRejectsName | IndalekoMachineConfig.py:246-248 | no name of the scheme, with its four-digit year, matches the expression the f-string builds |
| ConfigNames.FmtStampPieces | IndalekoMachineConfig.py:246 | where the date, `T`, time, `.`, fraction and `Z` of a generic-shape timestamp sit |
| ConfigNames.FmtStampAtStamp | IndalekoMachineConfig.py:246 | the generic timestamp group recognises every timestamp of the generic shape, with its full length |
| ConfigNames.FmtGuidGroup | IndalekoMachineConfig.py:246 | in a name of the generic shape the guid group ends just before the timestamp |
| ConfigNames.FmtMatchAtName | IndalekoMachineConfig.py:246-249 | a name of the generic shape found at a position gives back its guid and timestamp groups |
| ConfigNames.FmtMatchAtBounds | IndalekoMachineConfig.py:246-249 | where each group of a name of the generic shape begins and ends |
| ConfigNames.FmtMatchAtHead | IndalekoMachineConfig.py:246-247 | with the literal prefix and `-` found, the generic match is decided by the groups after them |
| ConfigNames.FmtTailAt | IndalekoMachineConfig.py:246-249 | with each group boundary known, the generic groups are the guid and the timestamp |
| ConfigNames.FmtMatchesName | IndalekoMachineConfig.py:246-249 | a name of the generic shape without `/` matches, with its guid and timestamp as groups |
| ConfigNames.IsoStamp | IndalekoMacMachineConfig.py:148-149 | the text handed to `fromisoformat` ends in "+00:00"; a head that does not split at `T` in two is a ValueError |
| ConfigNames.ConfigStamp | IndalekoMacMachineConfig.py:143-149 | the conversion as written ends in "+00:00" or fails with IndexError, AssertionError or ValueError |
| ConfigNames.FixedConfigStamp | IndalekoMacMachineConfig.py:143-149 | the corrected conversion, with the `Z` removed before the fraction is cut, has the same outcomes |
| ConfigNames.IndexStamp | windows_local_index.py:53-59 | the indexer's conversion never grows the text by more than one character, and fails exactly when there is no `.` |
| ConfigNames.ColonsBack | IndalekoMacMachineConfig.py:143-149 | replacing `-` by `:` and back restores the digits-and-dashes date |
| ConfigNames.ConfigStampOf | IndalekoMacMachineConfig.py:143-149 | as written, the date keeps its dashes, the time gets colons, and the fraction is the first six characters of the digits followed by `Z` |
| ConfigNames.FixedConfigStampOf | IndalekoMacMachineConfig.py:143-149 | corrected, the fraction is the first six digits and only "+00:00" follows it |
| ConfigNames.ConfigStampKeepsZ | IndalekoMacMachineConfig.py:146-149 | with fewer than six fractional digits the text as written holds "Z+00:00" |
| ConfigNames.ConfigStampLongFraction | IndalekoMacMachineConfig.py:147 | with six or more fractional digits both conversions agree |
| ConfigNames.IndexStampOf | windows_local_index.py:53-59 | the indexer's conversion keeps the timestamp with colons and at most six fractional digits, `Z` still last |
| ConfigNames.InsertByTime | IndalekoMacMachineConfig.py:164 | insertion adds exactly the one element |
| ConfigNames.SortByTime | IndalekoMacMachineConfig.py:164 | the sort is a permutation of the candidates |
| ConfigNames.Earliest | IndalekoMacMachineConfig.py:164-165 | the earliest candidate is one of them and no candidate is older |
| ConfigNames.Latest | IndalekoMacMachineConfig.py:155 | the latest candidate is one of them and no candidate is newer |
| ConfigNames.InsertSorted | IndalekoMacMachineConfig.py:164 | inserting into a sorted list keeps it sorted |
| ConfigNames.SortByTimeSorted | IndalekoMacMachineConfig.py:164 | the sort orders the candidates by timestamp |
| ConfigNames.SortFirstIsEarliest | IndalekoMacMachineConfig.py:164-165 | the first candidate after sorting is the earliest one |
| ConfigNames.EarliestNotLatest | IndalekoMacMachineConfig.py:164-165 | when the candidates do not share one timestamp, the first after sorting is strictly older than the latest |
| MachineConfig.KeepNames | IndalekoMachineConfig.py:266-267 | a name is kept exactly when it is listed and has the prefix and the suffix |
| MachineConfig.FindConfigFiles | IndalekoMachineConfig.py:221-229 | both arguments must be strings (AssertionError); the kept names are exactly the listed ones with the prefix and ".json" |
| MachineConfig.WindowsFindConfigFiles | IndalekoWindowsMachineConfig.py:40-43 | the kept names are exactly the listed ones with the `windows-hardware-info` prefix and ".json" |
| MachineConfig.ReadNameWith | IndalekoMacMachineConfig.py:136-152 | the readers whose expression is a raw string: whatever the timestamp conversion, a name that reads matches the `\d{4}` pattern and carries a 32-digit hexadecimal GUID |
| MachineConfig.ReadName | IndalekoMacMachineConfig.py:136-152 | the reader as written, with the conversion that cuts the fraction from the digits and the `Z`: a name that reads matches the pattern and carries a 32-digit hexadecimal GUID |
| MachineConfig.FixedReadName | IndalekoMacMachineConfig.py:136-152 | the reader with the corrected conversion: a name that reads matches the pattern and carries a 32-digit hexadecimal GUID |
| MachineConfig.GetGuidTimestamp | IndalekoMachineConfig.py:239-260 | a non-string file name or prefix is an AssertionError, an empty suffix an IndexError; a name that reads is handed back with a 32-digit hexadecimal GUID and matches the expression the f-string builds, whose timestamp group reads `\d4-\d2-\d2T\d2-\d2-\d2` |
| MachineConfig.ReadGroups | IndalekoMacMachineConfig.py:139-150 | no match of the expression is an AssertionError; a name that reads carries the GUID `uuid.UUID` makes of the guid group |
| MachineConfig.GenericRejectsSchemeName | IndalekoMachineConfig.py:246-248 | every name the capture script writes (four-digit year) is an AssertionError of the generic reader |
| MachineConfig.GenericReadsLiteralDigits | IndalekoMachineConfig.py:246-249 | the generic reader does match the names whose year is a digit and a `4` and whose other fields are a digit and a `2`, with the guid and that timestamp as groups |
| MachineConfig.MacGuidTimestamp | IndalekoMacMachineConfig.py:131-152 | a name that reads, as written, matches the macOS pattern, with `/` or `\` before the name |
| MachineConfig.WindowsGuidTimestamp | IndalekoWindowsMachineConfig.py:82-105 | a name that reads, as written, matches the Windows pattern |
| MachineConfig.LocalGuidTimestamp | windows_local_index.py:41-61 | a name that reads matches the bare Windows pattern and carries a hexadecimal GUID |
| MachineConfig.ReadNameOf | IndalekoMacMachineConfig.py:136-152 | as written, a name of the scheme under any directory reads back as its GUID and what `fromisoformat` makes of the date, the time with colons, the first six characters of the digits followed by `Z`, and "+00:00" |
| MachineConfig.FixedReadNameOf | IndalekoMacMachineConfig.py:136-152 | corrected, the library sees the first six fractional digits only, followed by "+00:00" |
| MachineConfig.ReadersAgreeLongFraction | IndalekoMacMachineConfig.py:147-150 | with six or more fractional digits the reader as written and the corrected reader give the same result |
| MachineConfig.LocalGuidTimestampOf | windows_local_index.py:49-61 | a name of the scheme reads back with the indexer's conversion of its timestamp handed to `strptime` |
| MachineConfig.ParseAll | IndalekoMacMachineConfig.py:160-163 | all candidates read exactly when each does, giving one (timestamp, name) pair per candidate in order |
| MachineConfig.MostRecentConfigFile | IndalekoMacMachineConfig.py:155-168 | as written: no candidate is an AssertionError, and the file returned is the EARLIEST candidate placed in the directory |
| MachineConfig.LatestConfigFile | IndalekoMacMachineConfig.py:155-168 | the selection the name promises: no candidate is an AssertionError, and the file returned has no newer candidate |
| MachineConfig.GenericMostRecent | IndalekoMachineConfig.py:264-277 | the generic selection, with the generic reader, returns the earliest candidate joined to the directory when every candidate reads (which no name of the scheme does, see GenericMostRecentFails) |
| MachineConfig.GenericMostRecentFails | IndalekoMachineConfig.py:264-277 | a candidate named by the capture script makes the generic selection fail; when the reader rejects candidates only by assertion, the failure is an AssertionError |
| MachineConfig.MacMostRecent | IndalekoMacMachineConfig.py:155-168 | the macOS selection, reading names as written, returns the earliest candidate |
| MachineConfig.WindowsMostRecent | IndalekoWindowsMachineConfig.py:108-117 | the Windows selection, reading names as written, returns the earliest candidate |
| MachineConfig.LocalMostRecent | windows_local_index.py:64-69 | the indexer script's selection returns the bare name of the earliest candidate |
| MachineConfig.MostRecentIsNotLatest | IndalekoMacMachineConfig.py:164-165 | when two candidates carry different instants, the file chosen as most recent is not the latest one |
| MachineConfig.FieldCheck | IndalekoMachineConfig.py:291-293 | a missing key is a KeyError, a value of another type an AssertionError |
| MachineConfig.SetPlatform | IndalekoMachineConfig.py:280-314 | the platform is stored exactly when it has the software (OS, Version, Architecture: str) and hardware (CPU, Version: str, Cores: int) shape |
| MachineConfig.SetPlatformMissingOS | IndalekoMachineConfig.py:291-293 | a software dictionary without OS raises KeyError, not AssertionError |
| MachineConfig.SetMachineId | IndalekoMachineConfig.py:323-334 | only a string that is not a valid UUID fails (AssertionError); the other fields stay |
| MachineConfig.GetMachineId | IndalekoMachineConfig.py:336-342 | None while no machine id is set |
| MachineConfig.MachineIdRoundTrip | IndalekoMachineConfig.py:323-342 | what is set is read back; a UUID object reads back as its string, a valid UUID string |
| MachineConfig.SetAttributes | IndalekoMachineConfig.py:356-363 | only a dictionary replaces the attributes, the cached record is always dropped, other fields stay |
| MachineConfig.MacVolumeGuid | IndalekoMacMachineConfig.py:202-206 | a string under "/dev/" gives the rest of it, and "/dev/" plus the result is the name; anything else is an AssertionError |
| MachineConfig.WindowsVolumeGuid | IndalekoWindowsMachineConfig.py:148-152 | a string with the volume prefix gives what lies between the prefix and the last two characters |
| MachineConfig.WindowsVolumeGuidOf | IndalekoWindowsMachineConfig.py:152 | the GUID of `\\?\Volume{g}\` is g |
| MachineConfig.UniqueIdWith | IndalekoMacMachineConfig.py:178-180 | a drive can be made only without a GUID and with a UniqueId, which is handed back |
| MachineConfig.MacDriveInfo | IndalekoMacMachineConfig.py:177-199 | the drive's GUID is its UniqueId after "/dev/", every other attribute is the drive data's, and the machine id is kept |
| MachineConfig.WindowsDriveInfo | IndalekoWindowsMachineConfig.py:134-144 | the drive's GUID is `UniqueId[11:-2]`, and every other attribute is the drive data's |
| MachineConfig.VolGuid | IndalekoMacMachineConfig.py:208-210 | the GUID is read exactly when the drive has one |
| MachineConfig.MacSerialize | IndalekoMacMachineConfig.py:224-237 | `_key` is the volume GUID, `MachineId` the machine id, and every other key reads as in the data model's dictionary |
| MachineConfig.MacMapDriveLetter | IndalekoMacMachineConfig.py:251-254 | no drive letter maps to a volume |
| MachineConfig.ExtractVolumes | IndalekoMacMachineConfig.py:239-245 | a built table holds one drive per volume and its keys stay distinct |
| MachineConfig.Guids | IndalekoMacMachineConfig.py:242-243 | the GUIDs, when every drive can be made, are one per volume |
| MachineConfig.ExtractVolumesOk | IndalekoMacMachineConfig.py:239-245 | the table is built exactly when every drive can be made and the GUIDs are pairwise distinct, and its keys are those GUIDs in order |
| MachineConfig.MacExtractVolumes | IndalekoMacMachineConfig.py:239-245 | the macOS table has distinct keys, one per volume |
| MachineConfig.WindowsExtractVolumes | IndalekoWindowsMachineConfig.py:157-162 | the Windows table has distinct keys, one per volume |
| Uuid.Parse | IndalekoRecord.py:55-60 | a string parses exactly when, after `urn:` and `uuid:`, outer braces and hyphens are removed, 32 characters remain that `int(…, 16)` reads; the result is 32 lower-case hexadecimal digits, and every failure is ValueError |
| Uuid.IntDigits | IndalekoRecord.py:55-60 | the digits `int(…, 16)` reads are non-empty hexadecimal digits, no more than the characters given |
| Uuid.ParsePlain | IndalekoRecord.py:55-60 | thirty-two hexadecimal digits parse to their lower-case form |
| Uuid.ParseSigned | IndalekoRecord.py:55-60 | a leading `+` and 31 digits parse, with a leading zero digit |
| Uuid.ParsePrefixed | IndalekoRecord.py:55-60 | a `0x` prefix and 30 digits parse, with two leading zero digits |
| Uuid.ParseSpaced | IndalekoRecord.py:55-60 | 30 digits with a space on each side parse, with two leading zero digits |
| Uuid.ParseUnderscored | IndalekoRecord.py:55-60 | one `_` between digit groups is accepted and dropped |
| Uuid.Hyphenate | IndalekoMachineConfig.py:331-332 | the string form of a UUID has 36 characters |
| Uuid.HyphenateChars | IndalekoMachineConfig.py:331-332 | the pieces of the string form are hexadecimal |
| Uuid.DehyphenateHyphenated | IndalekoMachineConfig.py:331-332 | removing the four hyphens from the string form gives the 32 digits back |
| Uuid.ParseHyphenated | IndalekoMachineConfig.py:327-332 | the string form of a UUID parses back to the same UUID |
| Uuid.ParseHex | IndalekoIngester.py:104 | the `hex` form parses to itself |
| Records.ProjectSource | IndalekoRecord.py:72-75 | the stored source holds exactly Identifier and Version, copied |
| Records.NewRecord | IndalekoRecord.py:63-77 | a record is built exactly for bytes, a dict and a dict source with Identifier and Version; otherwise AssertionError |
| Records.PackError | IndalekoObject.py:127 | `msgpack.packb` raises only OverflowError or TypeError |
| Records.PackErrorExactly | IndalekoObject.py:127 | an exception is found exactly on the values msgpack refuses: a `uuid.UUID` or an integer outside 64 bits, at any depth |
| Records.Pack | IndalekoObject.py:127 | packing succeeds exactly on the values msgpack accepts, with the encoder's bytes; a failure is OverflowError or TypeError |
| Records.SetItem | IndalekoRecord.py:79-80 | assignment touches only the attribute map |
| Records.GetItem | IndalekoRecord.py:82-83 | reading a present attribute gives its value; an absent one is a KeyError |
| Records.DelItem | IndalekoRecord.py:94-95 | deleting an absent attribute is a KeyError; otherwise only the attribute map changes |
| Records.SetItemOthers | IndalekoRecord.py:79-80 | assigning an attribute leaves every other attribute as it was |
| Records.SetItemLen | IndalekoRecord.py:79-89 | assigning adds one to the length exactly when the name is new |
| Records.DelItemReads | IndalekoRecord.py:82-95 | after deletion the attribute is gone and the others read as before |
| Records.Iter | IndalekoRecord.py:85-86 | iteration yields exactly the keys that `record[k]` finds |
| Records.Has | IndalekoRecord.py:85-86 | `k in record` holds exactly when iteration yields `k` |
| Records.Len | IndalekoRecord.py:88-89 | the length is the number of keys iteration yields |
| Records.HasIffGet | IndalekoRecord.py:82-86 | `k in record` agrees with `record[k]` succeeding |
| Records.ToDict | IndalekoRecord.py:97-102 | the present slots appear under their `keyword_map` keys in that order; a constructed record shows all five |
| Records.ToDictFromDict | IndalekoRecord.py:97-102 | the record can be read back from its dictionary |
| Records.ToDictWellFormed | IndalekoRecord.py:16-22 | the output keys are distinct, so the dictionary is well formed |
| Records.ValidateSource | IndalekoRecord.py:136-154 | true exactly for a dict whose Identifier is a valid UUID string and whose Version is a str |
| Records.SetSource | IndalekoRecord.py:113-118 | a valid source is stored as the same projection the constructor stores; an invalid one is an AssertionError |
| Records.SetBase64Data | IndalekoRecord.py:126-128 | a str is stored verbatim as the data; anything else is an AssertionError |
| Records.SetAttributes | IndalekoRecord.py:107-108 | the whole attribute map is replaced, nothing else changes |
| Records.SetData | IndalekoRecord.py:123-124 | the data slot holds the base64 encoding of the bytes |
| Records.SetDataAgrees | IndalekoRecord.py:123-128 | `set_data(b)` and `set_base64_data(b64encode(b))` leave the same record |
| Records.Base64DataStored | IndalekoRecord.py:126-131 | `get_data` returns what `set_base64_data` stored, and `to_dict` reports it under Data |
| Objects.NewObject | IndalekoObject.py:107-132 | an object is built exactly when the source has Identifier and Version, URI, ObjectIdentifier, Timestamps and Size are given, no reserved name is used, msgpack accepts the raw data and Attributes is a dict; the constructor's assertions fail first, then `packb` with its own error, then the record's dict check; the data slot holds the encoding of the raw data |
| Objects.Overlay | IndalekoObject.py:137-138 | after the overlay every argument reads its value |
| Objects.OverlayGet | IndalekoObject.py:137-138 | an argument's key reads the argument, and other keys read as before |
| Objects.ObjToDict | IndalekoObject.py:134-139 | the dictionary exists exactly when ObjectIdentifier is an argument (KeyError otherwise) |
| Objects.ObjToDictGet | IndalekoObject.py:134-139 | each key reads the argument if there is one, else `_key`, else the record's own field |
| Objects.NewObjectArgs | IndalekoObject.py:117-122 | the arguments kept are the keyword arguments without Attributes, which becomes the attribute map (default empty) |
| Objects.NewObjectToDict | IndalekoObject.py:123-139 | a constructed object's `_key` equals its ObjectIdentifier and its Data is the record's encoded data |
| Relationships.ValidateVertex | IndalekoRelationship.py:59-69 | true exactly for a dict with an `object` that is a valid UUID string and a string `collection`; otherwise AssertionError |
| Relationships.CheckArgs | IndalekoRelationship.py:77-90 | the checks pass exactly when the three keys are given, Record is not, both vertices and the relationship UUID are valid and metadata (default {}) is a dict |
| Relationships.RecordFromKeywords | IndalekoRecord.py:63 | keywords that are not exactly the record constructor's parameters are a TypeError |
| Relationships.NewRelationshipAsWritten | IndalekoRelationship.py:91-93 | as written, after the checks all keywords go to the record constructor |
| Relationships.AsWrittenNeverBuilds | IndalekoRelationship.py:91-93 | as written no relationship is ever built: every call that passes the checks is a TypeError |
| Relationships.NewRelationship | IndalekoRelationship.py:71-93 | corrected: built exactly when the checks pass, with the metadata as attributes and empty bytes as the default raw data |
| Relationships.RelToDict | IndalekoRelationship.py:96-105 | `_from` and `_to` are the `collection/object` handles, and Object1, Object2 and Relationship are copied |
| Relationships.RelToDictGet | IndalekoRelationship.py:100-104 | the handles and the label read back from the dictionary |
| Relationships.EdgeChecks | IndalekoDropboxIngester.py:226-238 | an edge between valid objects with a valid label and a source passes the checks |
| Relationships.EdgeRelFields | IndalekoDropboxIngester.py:229-236 | the corrected edge's endpoints are the two objects in the Objects collection |
| Relationships.EdgeBuilds | IndalekoRelationship.py:96-103 | the corrected edge's dictionary links the two `Objects/` handles |
| Relationships.EdgeFailsAsWritten | IndalekoRelationship.py:91-93 | the same edge through the constructor as written is a TypeError |
| Services.KeysDistinct | IndalekoServices.py:313-368 | the six service-data keys, Record and `_key` are eight different strings |
| Services.PresentGet | IndalekoServices.py:339-361 | with distinct keys each present entry reads its value |
| Services.CreateServiceData | IndalekoServices.py:323-361 | a missing name or version is a ValueError; the record is well formed |
| Services.CreateServiceDataGet | IndalekoServices.py:339-361 | each key holds its argument; Identifier is the given or a fresh one, Created the given date or now, Description and Type only when given |
| Services.ServiceOf | IndalekoServices.py:195-214 | name, description, version, identifier and type are each the keyword argument of the same name when given and None when absent; the creation date is the given one, or now |
| Services.GetServiceData | IndalekoServices.py:311-320 | exactly the six fields, in order |
| Services.CreateAgreesWithService | IndalekoServices.py:203-214 | the record `create_service_data` builds and the service built from the same arguments agree on every key the record carries, the identifier excepted |
| Services.ServiceToDict | IndalekoServices.py:364-369 | the service data, then Record and `_key`, which copies the identifier |
| Services.RegisterService | IndalekoServices.py:286-309 | an identifier and creation date are supplied when missing, and the type must be one of the eight service types (AssertionError) |
| Services.RegisteredData | IndalekoServices.py:294-299 | what registration hands back never has a missing identifier, and its type is one of the eight |
| Services.NewServiceDocument | IndalekoServices.py:142-163 | the type must be one of the eight (AssertionError); the document carries the given or a fresh identifier, also as `_key` |
| Ingester.Underscored | IndalekoIngester.py:97 | the result holds no `-` |
| Values.AsReplaceable | IndalekoIngester.py:97 | `replace` with str arguments succeeds exactly on a str; bytes is a TypeError, any other value an AttributeError |
| Ingester.UnderscoredValue | IndalekoIngester.py:95-101 | only a str succeeds, and its result holds no `-`; bytes is a TypeError, any other value an AttributeError |
| Ingester.HexOf | IndalekoIngester.py:104 | a str that parses as a UUID gives its 32-digit hex, any other str is a ValueError; None and bytes are TypeErrors, any other value an AttributeError |
| Ingester.NilHexIsHex | IndalekoIngester.py:102 | the default machine id, the all-zero UUID's hex, is a 32-digit hex string |
| Ingester.GetEither | IndalekoIngester.py:126-138 | the first spelling's value when present, else the alternative's, else None |
| Ingester.StorageOf | IndalekoIngester.py:114-120 | none when absent, None or 'unknown'; otherwise the UUID's hex |
| Ingester.NewIngester | IndalekoIngester.py:88-148 | prefix and suffix hold no `-`; the machine id defaults to the nil UUID's hex; a service name and identifier are required (AssertionError); the six counters start at zero |
| Ingester.CounterNamesDistinct | IndalekoIngester.py:77-84 | the six counter names are distinct |
| Ingester.GetCounts | IndalekoIngester.py:150-154 | exactly the six counters, under their names |
| Ingester.NewIngesterCounts | IndalekoIngester.py:147-154 | a freshly built ingester reports zero for every counter |
| Ingester.WriteDataToFile | IndalekoIngester.py:206-226 | missing data or file name is a ValueError; JSON Lines output counts one per entry written; plain JSON output is an AttributeError |
| Ingester.WriteAdds | IndalekoIngester.py:213-217 | two successful writes count the same as one write of both lists |
| Indexer.NewIndexer | IndalekoIndexer.py:24-65 | prefix and suffix are the given ones or the defaults with `-` replaced by `_`, and a non-`str` one fails; the data directory is the given one or the default and must exist (AssertionError); the config and log directories, timestamp and path are the given ones or the defaults; the optional attributes are kept only when given |
| Indexer.FindIndexerFiles | IndalekoIndexer.py:68-83 | the directory, prefix and suffix must be given (AssertionError); the names kept are exactly those with the prefix and suffix |
| Indexer.NormalizedAttr | IndalekoIndexer.py:87-106 | an absent attribute is its default; a present one must be a str and gets `-` replaced, bytes being a TypeError and any other value an AttributeError; the result holds no `-` |
| Indexer.Parts | IndalekoIndexer.py:87-111 | the parts hold no `-`, the timestamp no `:`, and absent attributes read `unknown_…` |
| Indexer.IndexName | IndalekoIndexer.py:114-123 | the file-name part holds no space |
| Indexer.GenerateIndexFileName | IndalekoIndexer.py:85-123 | the target directory defaults to the data directory |
| Indexer.IndexNamePlain | IndalekoIndexer.py:116-122 | with parts free of spaces the name is the `prefix-platform=…-timestamp=…suffix` layout itself |
| Indexer.GeneratedNameIsFound | IndalekoIndexer.py:68-123 | a generated name in the listing is found by `find_indexer_files` with the indexer's own prefix and suffix |
| Normalize.IngesterSource | IndalekoDropboxIngester.py:213-216 | the source carries Identifier and Version, with the ingester's identifier |
| Normalize.JsonDumps | IndalekoDropboxIngester.py:140 | serialisation succeeds exactly for JSON-serialisable values; otherwise TypeError |
| Normalize.FillUserId | IndalekoDropboxIngester.py:115-116 | afterwards `user_id` is present, and a dict that had one is unchanged |
| Normalize.FillUserIdGet | IndalekoDropboxIngester.py:115-116 | `user_id` is filled only when missing and no other key changes |
| Normalize.CloudTiming | IndalekoDropboxIngester.py:117-137 | without FileMetadata no timestamps and size 0; with it the client then server modification times and the size (KeyError when missing) |
| Normalize.CloudCodes | IndalekoDropboxIngester.py:119-124 | FileMetadata gives the regular-file codes, overriding FolderMetadata's directory codes; with neither an UnboundLocalError |
| Normalize.CloudEntry | IndalekoDropboxIngester.py:109-116 | a ValueError unless the entry is a dict with ObjectIdentifier; then `user_id` is present |
| Normalize.DropboxKwargs | IndalekoDropboxIngester.py:138-149 | the keyword arguments exist only for an entry with ObjectIdentifier and are well formed |
| Normalize.DropboxKeysAccepted | IndalekoObject.py:113-125 | the Dropbox keys hold the four required names and no reserved one |
| Normalize.DropboxArgs | IndalekoDropboxIngester.py:138-149 | URI is the Dropbox home URL plus the path, Path and ObjectIdentifier are copied, and the timing, attributes and attribute strings are as read |
| Normalize.DropboxNormalize | IndalekoDropboxIngester.py:104-150 | an entry without ObjectIdentifier is a ValueError |
| Normalize.DropboxKwargsValues | IndalekoDropboxIngester.py:138-149 | what the Dropbox keyword arguments hold, key by key, from the entry |
| Normalize.DropboxBuilds | IndalekoDropboxIngester.py:150 | once the Dropbox reads succeed the object is built exactly when msgpack accepts the encoded raw data |
| Normalize.DropboxStep | IndalekoDropboxIngester.py:138-150 | a built Dropbox object came from its keyword arguments |
| Normalize.KeptArg | IndalekoObject.py:117-126 | the object's arguments are its keyword arguments, bar Attributes |
| Normalize.DropboxEntry | IndalekoDropboxIngester.py:109-116 | a built object came from a dict entry, with `user_id` filled |
| Normalize.DropboxRead | IndalekoDropboxIngester.py:117-143 | a built object came from an entry whose fields read |
| Normalize.DropboxArgOf | IndalekoDropboxIngester.py:138-149 | each argument of a built Dropbox object is the one read from the entry |
| Normalize.DropboxFolder | IndalekoDropboxIngester.py:117-121 | a folder entry is a directory of size 0 with no timestamps |
| Normalize.DropboxFile | IndalekoDropboxIngester.py:122-124 | a file entry is a regular file, whatever FolderMetadata says |
| Normalize.DropboxFileTiming | IndalekoDropboxIngester.py:125-137 | a file entry keeps its size and exactly two timestamps, MODIFICATION = client_modified then CHANGE = server_modified |
| Normalize.DropboxCopies | IndalekoDropboxIngester.py:141-143 | ObjectIdentifier and Path are copied and URI is the Dropbox home URL plus the path |
| Normalize.DropboxUserId | IndalekoDropboxIngester.py:115-116 | the attributes are the entry with `user_id` filled in only when it had none |
| Normalize.ICloudKwargs | IndalekoICloudIngestor.py:87-127 | an entry without ObjectIdentifier is a ValueError; the arguments have the iCloud keys, without URI |
| Normalize.ICloudNormalize | IndalekoICloudIngestor.py:82-128 | an entry without ObjectIdentifier is a ValueError |
| Normalize.ICloudNeverBuilds | IndalekoICloudIngestor.py:116-128 | the iCloud normaliser never builds an object: the arguments lack URI, which the object constructor requires |
| Normalize.IsoAt | IndalekoMacLocalIngester.py:120-121 | a missing time is a KeyError, a present one goes through `fromtimestamp` |
| Normalize.StatTimes | IndalekoMacLocalIngester.py:117-142 | four timestamps in Created, Modified, Accessed, Changed order from `st_birthtime`, `st_mtime`, `st_atime`, `st_ctime`; the first failure raises |
| Normalize.LocalArgs | IndalekoMacLocalIngester.py:112-146 | URI, fresh ObjectIdentifier, Timestamps, Size, Attributes and Machine hold their values |
| Normalize.LocalKwargs | IndalekoMacLocalIngester.py:112-146 | the arguments exist exactly when URI is present and the times convert; a missing URI is a KeyError |
| Normalize.CodeArg | IndalekoMacLocalIngester.py:148-149 | absent when the entry lacks the code, else its rendering; a non-integer code is a TypeError |
| Normalize.SetOpt | IndalekoWindowsLocalIngester.py:150-158 | the key is present afterwards exactly when it was or a value is assigned, and keys stay distinct |
| Normalize.SetOptGet | IndalekoWindowsLocalIngester.py:150-158 | the key reads the assigned value, if any, and every other key reads as before |
| Normalize.MacKwargs | IndalekoMacLocalIngester.py:107-149 | a non-dict entry is a ValueError, a non-serialisable one a TypeError |
| Normalize.MacNormalize | IndalekoMacLocalIngester.py:102-151 | a non-dict entry is a ValueError, a non-serialisable one a TypeError |
| Normalize.LocalArgsAccepted | IndalekoObject.py:113-125 | the local ingesters' arguments satisfy the object constructor whenever the entry is a dict |
| Normalize.SetOptAccepted | IndalekoObject.py:123-125 | assigning an optional argument under a non-reserved name keeps the arguments acceptable |
| Normalize.MacBuilds | IndalekoMacLocalIngester.py:102-151 | a Mac entry becomes an object exactly when its own reads succeed |
| Normalize.MacArgOf | IndalekoMacLocalIngester.py:112-149 | each argument of a built Mac object other than Attributes is the one read from the entry |
| Normalize.MacFields | IndalekoMacLocalIngester.py:111-145 | a Mac object carries the entry's URI and size, the fresh identifier, the machine and the four converted times in order |
| Normalize.MacMode | IndalekoMacLocalIngester.py:148-149 | a Mac object has UnixFileAttributes exactly when the entry has `st_mode`, rendered from it |
| Normalize.MacAttributes | IndalekoMacLocalIngester.py:144 | the attributes of a Mac object are the entry itself |
| Normalize.MacMissingUri | IndalekoMacLocalIngester.py:115 | a serialisable entry without URI is a KeyError |
| Normalize.WindowsVolume | IndalekoWindowsLocalIngester.py:150-153 | Volume GUID when present; otherwise a str URI gives a volume exactly when it has the volume prefix; a non-str URI raises |
| Normalize.VolumeFromUri | IndalekoWindowsLocalIngester.py:152-153 | a volume URI of at least 47 characters gives exactly the 36 characters after the 11-character prefix |
| Normalize.WindowsArgs | IndalekoWindowsLocalIngester.py:150-158 | the optional arguments keep the keys distinct |
| Normalize.WindowsKwargs | IndalekoWindowsLocalIngester.py:110-158 | a non-dict entry is a ValueError; an entry msgpack refuses fails with msgpack's error before any key is read; the raw data is the packed entry |
| Normalize.WindowsNormalize | IndalekoWindowsLocalIngester.py:105-159 | a non-dict entry is a ValueError |
| Normalize.WindowsBuilds | IndalekoWindowsLocalIngester.py:105-159 | a Windows entry becomes an object exactly when msgpack accepts it and its own reads succeed; it is never serialised to JSON |
| Normalize.WindowsOptional | IndalekoWindowsLocalIngester.py:150-158 | Volume, UnixFileAttributes and WindowsFileAttributes are present exactly when computed |
| Normalize.WindowsArgOf | IndalekoWindowsLocalIngester.py:115-149 | each of the first arguments of a built Windows object reads as in the local arguments |
| Normalize.WindowsFields | IndalekoWindowsLocalIngester.py:114-148 | a Windows object carries the entry's URI and size, the fresh identifier, the machine and the four converted times |
| Ingest.StrIn | IndalekoDropboxIngester.py:198-199 | `x in v` is a substring test on a str, membership on a list or dict, and a TypeError otherwise |
| Ingest.CloudIsDirectory | IndalekoDropboxIngester.py:198-199 | S_IFDIR in the Unix attributes, or else FILE_ATTRIBUTE_DIRECTORY in the Windows ones; a missing key is a KeyError |
| Ingest.ParentKey | IndalekoDropboxIngester.py:222 | a str is looked up, other hashable values are not found, and an unhashable one is a TypeError |
| Ingest.SortConsistent | IndalekoDropboxIngester.py:195-208 | the directory and file counters equal the numbers of directories and files kept |
| Ingest.SortNoEdges | IndalekoDropboxIngester.py:195-208 | the first loop counts no edges |
| Ingest.DirMap | IndalekoDropboxIngester.py:209-211 | the directory map has distinct keys |
| Ingest.DirMapEntries | IndalekoDropboxIngester.py:209-211 | a built map read every directory's entry without error |
| Ingest.DirMapKeys | IndalekoDropboxIngester.py:209-211 | the map has a key exactly for the directories' keys |
| Ingest.DirMapLast | IndalekoDropboxIngester.py:209-211 | each key holds the identifier of the last directory with that key |
| Ingest.Pair | IndalekoDropboxIngester.py:226-254 | two edges: Contains from the child to the parent, then ContainedBy with the endpoints swapped |
| Ingest.LinkCounts | IndalekoDropboxIngester.py:239-255 | the edge counter is the number of edges, two per linked item |
| Ingest.LinkPairs | IndalekoDropboxIngester.py:226-254 | the edges come in Contains / ContainedBy pairs with swapped endpoints |
| Ingest.LinkedPrefix | IndalekoDropboxIngester.py:217-224 | when the first n items are linked, at least n are |
| Ingest.LinkHasPair | IndalekoDropboxIngester.py:217-254 | every item whose lookup key is in the map yields exactly the pair from it to the identifier under the key |
| Ingest.Build | IndalekoDropboxIngester.py:186-257 | the objects written are the directories then the files, with the first loop's counters |
| Ingest.BuildParts | IndalekoDropboxIngester.py:209-257 | the map and the edges a successful build used |
| Ingest.DropboxStep | IndalekoDropboxIngester.py:195-208 | one entry keeps the counters consistent and counts no error or edge |
| Ingest.CloudEntryKey | IndalekoICloudIngestor.py:188-189 | the map key is the object's own Path |
| Ingest.CloudLookup | IndalekoDropboxIngester.py:218-221 | an object without Path is a ValueError; its own Path is the key looked up |
| Ingest.SortErrorsZero | IndalekoDropboxIngester.py:195-208 | the cloud loops count no error |
| Ingest.DropboxIngest | IndalekoDropboxIngester.py:186-279 | a Dropbox ingest that does not raise is tagged with the Dropbox ingester's source, writes one directory or file per object and counts no errors |
| Ingest.ICloudIngest | IndalekoICloudIngestor.py:164-256 | an iCloud ingest that does not raise is tagged with the iCloud ingester's source, writes one directory or file per object and counts no errors |
| Ingest.MacIngest | IndalekoMacLocalIngester.py:153-241 | a Mac ingest that does not raise is tagged with the Mac ingester's source, writes one directory or file per object and counts one error per OSError |
| Ingest.DropboxCounts | IndalekoDropboxIngester.py:205-257 | one directory or file count per object written, one edge count per edge, no errors |
| Ingest.CloudDirectoryLinked | IndalekoDropboxIngester.py:209-224 | every directory of a cloud build is linked through its own Path |
| Ingest.DropboxDirectoriesLinked | IndalekoDropboxIngester.py:209-255 | every directory gets an edge pair, so there are at least two edges per directory |
| Ingest.ICloudStep | IndalekoICloudIngestor.py:173-186 | one iCloud entry keeps the counters consistent and counts no error or edge |
| Ingest.ICloudIngestEmpty | IndalekoICloudIngestor.py:164-186 | the iCloud ingest succeeds exactly on an empty indexer file, and then writes nothing |
| Ingest.MacStep | IndalekoMacLocalIngester.py:163-180 | one Mac entry counts one error exactly when normalisation raises OSError, and keeps the counters consistent; a kept directory's `Path` is hashable, since it becomes a dict key |
| Ingest.MacUnhashablePath | IndalekoMacLocalIngester.py:171-177 | a directory whose `Path` is a list or dict raises TypeError when it is used as a key of the path map |
| Ingest.MacEntryKey | IndalekoMacLocalIngester.py:183-186 | the key comes from the attribute map's Path (KeyError when absent) |
| Ingest.MacLookup | IndalekoMacLocalIngester.py:193-196 | the lookup reads Path from the attribute map (KeyError when absent) |
| Ingest.MacSkipsOSError | IndalekoMacLocalIngester.py:164-170 | an OSError only bumps the error counter |
| Ingest.MacDropsPathless | IndalekoMacLocalIngester.py:171-174 | a directory whose attribute map lacks Path leaves the state as it was |
| Ingest.MacSortCounts | IndalekoMacLocalIngester.py:163-180 | the first loop counts one error per OSError entry |
| Ingest.MacCounts | IndalekoMacLocalIngester.py:163-227 | one directory or file count per object written, one edge count per edge, one error per OSError |
| Ingest.MacLinked | IndalekoMacLocalIngester.py:182-197 | an object is linked exactly when its Path is a str equal to `join(Path, Name)` of some directory |
| Ingest.CloudLinked | IndalekoDropboxIngester.py:209-224 | an object is linked exactly when its Path is a str equal to some directory's Path |
| Ingester.Writable | IndalekoIngester.py:213-221 | the leading entries `json` can serialise |
| IpAddr.ExecuteCommand | IndalekoLinuxMachineConfig.py:57-67 | a non-list command or a failing one raises a bare Exception; otherwise the output stripped of whitespace |
| IpAddr.Tokens | IndalekoLinuxMachineConfig.py:90 | the tokens are the line's space-separated pieces, stripped, with empty pieces dropped |
| IpAddr.Clean | IndalekoLinuxMachineConfig.py:90 | the tokens kept are the stripped, non-empty pieces |
| IpAddr.TokensOfWords | IndalekoLinuxMachineConfig.py:90 | words joined by spaces tokenise back to the words |
| IpAddr.TokensOfIndented | IndalekoLinuxMachineConfig.py:100 | the same with a leading space, as indented lines have |
| IpAddr.Pairs | IndalekoLinuxMachineConfig.py:95-98 | the tokens pair up exactly when there is an even number of them; otherwise IndexError |
| IpAddr.PairsGet | IndalekoLinuxMachineConfig.py:95-98 | each key reads the value of its last pair, or what it read before |
| IpAddr.LoosePairsDropsLast | IndalekoLinuxMachineConfig.py:147-153 | the `brd` loop is the strict loop on all but an odd last token |
| IpAddr.AddrScan | IndalekoLinuxMachineConfig.py:100-107 | the token after each `inet6`/`inet` is the address (IndexError when there is none); every other token is a flag |
| IpAddr.AddrScanLine | IndalekoLinuxMachineConfig.py:100-107 | a line `kind addr flags…` gives its address and flags |
| IpAddr.Store | IndalekoLinuxMachineConfig.py:84-85 | an empty interface changes nothing; an interface without a name is a KeyError; interfaces stored before are kept |
| IpAddr.Parse | IndalekoLinuxMachineConfig.py:78-156 | parsing the remaining lines keeps every interface already stored |
| IpAddr.ParseIpAddrOutput | IndalekoLinuxMachineConfig.py:76-157 | empty output lists no interface |
| IpAddr.Inner | IndalekoLinuxMachineConfig.py:93 | what is inside the brackets |
| IpAddr.HeaderData | IndalekoLinuxMachineConfig.py:90-98 | the first token must be `<…>` (IndexError when there is none, Exception otherwise); the flags are one string |
| IpAddr.Header | IndalekoLinuxMachineConfig.py:83-98 | the line must split on `:` into exactly three parts (ValueError) |
| IpAddr.Inet | IndalekoLinuxMachineConfig.py:99-146 | a continuation line is required (IndexError) and must hold `valid_lft` (Exception); the address entry is appended after the earlier ones |
| IpAddr.Step | IndalekoLinuxMachineConfig.py:81-153 | `mtu` lines open an interface, `inet6` is tested before `inet`, and both before `brd` |
| IpAddr.HeaderRoundTrip | IndalekoLinuxMachineConfig.py:88-98 | an interface line with key/value tokens opens the named interface with its one flag string and those pairs |
| IpAddr.BracketedWord | IndalekoLinuxMachineConfig.py:91-93 | `<flags>` is a token and its inside is the flags |
| IpAddr.HeaderDataOfWords | IndalekoLinuxMachineConfig.py:90-98 | the tokens `<flags> k1 v1 …` give the interface with the flags and the pairs |
| IpAddr.AddrRoundTrip | IndalekoLinuxMachineConfig.py:99-146 | an address line and its continuation append that address, its flags and data, and consume both lines |
| IpAddr.InetOfLines | IndalekoLinuxMachineConfig.py:123-146 | the address branch on a rendered address line and continuation |
| IpAddr.SingleInterface | IndalekoLinuxMachineConfig.py:76-156 | an output of one interface line gives that one interface, stored under its name |
| AuditOps.NonEmpty | fileaudit/operators.py:127-128 | the pieces kept are the non-empty ones, in order |
| AuditOps.ToList | fileaudit/operators.py:107-130 | an empty separator is an AssertionError; a bad status gives (1, []); a good line's fields joined by the separator give the line back |
| AuditOps.ToListDropsEmpty | fileaudit/operators.py:127-128 | removing empty fields is the plain split with its empty pieces left out |
| AuditOps.ToListEmptyLine | fileaudit/operators.py:127-129 | an empty line is one empty field, or none when empty fields go |
| AuditOps.ToListOfJoin | fileaudit/operators.py:126-129 | fields free of a one-character separator, joined by it, split back into themselves |
| AuditOps.FilterField | fileaudit/operators.py:186-192 | (0, fields) exactly when the status is 0, the position is in range and the value occurs in that field; the fields are returned unchanged |
| AuditOps.AnyMatch | fileaudit/operators.py:238-240 | some query matches exactly when one of them does |
| AuditOps.FilterFields | fileaudit/operators.py:235-243 | (0, fields) exactly when some query matches the field at the position; exact mode compares stripped strings |
| AuditOps.FilterFieldsOne | fileaudit/operators.py:186-192 | one query in substring mode is FilterField, except on an empty list with a negative position |
| AuditOps.FilterFieldsEmptyList | fileaudit/operators.py:185-240 | on an empty list with a negative position FilterField gives (1, []) and FilterFields raises IndexError |
| AuditOps.EmptyQueryMatches | fileaudit/operators.py:239 | in substring mode an empty query matches any field in range |
| AuditOps.CleanWord | fileaudit/operators.py:250-251 | the cleaned word is a piece of the word with no `]` at either end |
| AuditOps.CleanWordBracketed | fileaudit/operators.py:250-251 | a word without brackets at its ends is its own clean form, with or without one pair of brackets around it |
| AuditOps.ExtractFid | fileaudit/operators.py:253-254 | the text between the first `=` and the next `[`; IndexError without `=` |
| AuditOps.ExtractFidOf | fileaudit/operators.py:253-254 | `key=fid[rest` gives fid |
| AuditOps.LastDecimal | fileaudit/operators.py:262-267 | the last position holding a `\d+\.\d+` decimal |
| AuditOps.ExtractPathPidProcname | fileaudit/operators.py:256-273 | None without a decimal; otherwise the earlier elements joined (None if there are none), and the tail split at its last `.` into process name and pid |
| AuditOps.ExtractOf | fileaudit/operators.py:256-273 | path words, the elapsed time, then `proc.pid` give the path, the process name and the pid |
| AuditOps.Canonize | fileaudit/operators.py:275-299 | a bad status gives (1, []); fewer than two fields is a ValueError; open lines have 6 or 3 fields, close lines 5 or 3, other actions 2 |
| AuditOps.CanonizeFound | fileaudit/operators.py:282-296 | an open or close line whose fid and process are found |
| AuditOps.CanonizeOpen | fileaudit/operators.py:283-287 | an open line canonises to [time, open, fid, path, procname, pid] |
| AuditOps.CanonizeClose | fileaudit/operators.py:290-294 | a close line canonises to [time, close, fid, procname, pid] |
| Compactor.EventTextParts | fileaudit/logcompator.py:44-45 | an event splits back into its name, date and time when they hold no separator |
| Compactor.AddEvent | fileaudit/logcompator.py:36-47 | a non-str argument is an AssertionError; the event `name\|date_ts` is appended after the earlier ones |
| Compactor.AddPid | fileaudit/logcompator.py:24-28 | a non-str pid is an AssertionError; the pid is stored |
| Compactor.AddProcname | fileaudit/logcompator.py:17-22 | a non-str process name is an AssertionError; the name is stored |
| Compactor.AddPath | fileaudit/logcompator.py:30-34 | a non-str path is an AssertionError; the path is stored |
| Compactor.ToList | fileaudit/logcompator.py:49-50 | [pid, procname, path, events] |
| Compactor.NewCompactor | fileaudit/logcompator.py:54-63 | a new compactor has no state and has written nothing |
| Compactor.JoinStrs | fileaudit/logcompator.py:66 | joining str values; a non-str is a TypeError |
| Compactor.StateKey | fileaudit/logcompator.py:65-66 | the key is the last two fields joined by `-`, with the third field |
| Compactor.Opened | fileaudit/logcompator.py:84-91 | the record an open starts: the open event, then pid, process name and path from the last three fields |
| Compactor.Add | fileaudit/logcompator.py:68-110 | status 1 changes nothing; open stores a record under its key; close writes the stored record, with `close|date_ts` appended to its events, after what was written and removes the key (KeyError without an open); an unhashable descriptor in the key is a TypeError; other actions raise |
| Compactor.Run | fileaudit/logcompator.py:68-110 | a run of `add` calls that does not raise keeps the date and extends what was written, never rewriting it |
| Compactor.InvalidIgnored | fileaudit/logcompator.py:77-80 | status-1 records change nothing |
| Compactor.OneWritePerClose | fileaudit/logcompator.py:96-108 | a run that does not raise writes one record per close, after what was written before |
| Compactor.OpenThenClose | fileaudit/logcompator.py:83-108 | open then close of one process and descriptor writes [pid, procname, path, [open event, close event]] and leaves nothing under the key |
| Compactor.DefaultDateFails | fileaudit/logcompator.py:41-62 | without a date function an open fails `add_event`'s str check |

## Left out

- The bytes msgpack and base64 produce, and the JSON text, are parameters. Which values msgpack refuses is modelled: a `uuid.UUID`, and an integer outside 64 bits. msgpack's length limit of 2^32 - 1 bytes per string or bytes value is not modelled, because a Dafny string counts characters, not encoded bytes.
- `uuid.UUID`'s integer, byte and field forms are not modelled; only strings are parsed.
- Uuid.Parse: non-ASCII decimal digits (Unicode category Nd), which `int()` reads as digits, are rejected, because the Unicode digit table is not modelled.
- `uuid4`, the clock, `fromtimestamp`, `fromisoformat` and `strptime` are parameters, because they are nondeterministic or calendar arithmetic.
- `os.listdir`, `os.stat`, `os.path.isdir`, `os.path.join`, `os.path.splitdrive` and `os.walk` are parameters or given lists, because they are file-system I/O.
- The regular expressions are modelled by hand matchers. `\d` is taken as ASCII digits, and `upper()` is ASCII only.
- The prefix and suffix the generic reader puts into its expression are matched literally; a prefix or suffix holding regular-expression syntax is not modelled.
- The matching and conversion lines of `IndalekoMachineConfig.get_guid_timestamp_from_file_name` after the failing `assert match`, and the sort of its `get_most_recent_config_file`, are cited from their macOS copies, which run the same code on names that do match.
- Database registration and lookup are left out: `IndalekoServiceManager`, the service collections, and every insert and `write_config_to_db`. They are external I/O.
- The ingesters' loading of indexer files, `build_load_string`, `generate_output_file_name`, `generate_file_name` and `extract_metadata_from_ingester_file_name` are left out. They are file I/O or depend on `Indaleko.generate_file_name`, which is not part of this model.
- Writing is a list of values handed to the writer; JSON Lines output is not formatted.
- `IndalekoWindowsLocalIngester.ingest` is left out. It appends the builtin `object` instead of the object (IndalekoWindowsLocalIngester.py:181), and the source logs that ingesting is not yet implemented (line 167).
- The indexers' `index` walks are modelled only over a given list of `(root, name)` entries. The platform test in `windows_local_index.build_stat_dict` is left out.
- `IndalekoLinuxMachineConfig.gather_system_information` is left out; it reads `/etc/machine-id`. The subprocess call of `execute_command` is a parameter.
- The machine-configuration constructors, `load_config_from_file`, `build_config`, `serialize`/`deserialize` of the whole configuration and the data-model classes are left out. They are pydantic data-model plumbing.
- `local-ingest.py`'s `get_output_file_name` is the constant `Volumes.LocalOutputFileName`. Its reading of the configuration file, and `get_volume_guid_for_path` (ctypes), are left out.
- The `print` warnings of `Canonize` and the subprocess `InputReader` of fileaudit are left out.
- ToList's `isinstance(input_tuple, tuple)` check is enforced by the type of its argument.
- Compactor: the date function is one fixed value per compactor, and the writer is the list of records written.
- Ingest.Build: the edges are plain triples. As written, the relationship constructor raises TypeError for every edge (see Findings), so the as-written ingesters would fail at the first linked item.

## Findings

| source | as written | input that shows it | evidently intended | confidence | as-written member | corrected member |
|---|---|---|---|---|---|---|
| IndalekoMachineConfig.py:246-248 | the expression is an f-string, so `{4}` and `{2}` put the digits 4 and 2 into it and the timestamp group reads `\d4-\d2-\d2T\d2-\d2-\d2\.\d+Z` | any name the capture script writes, e.g. `p-0a-2024-01-02T03-04-05.5Z.json` with prefix `p` | a four-digit year and two-digit fields, `\d{4}-\d{2}-\d{2}T\d{2}-\d{2}-\d{2}\.\d+Z`, as the macOS and Windows readers write it | high (not executed) | MachineConfig.GenericRejectsSchemeName | MachineConfig.ReadNameOf |
| IndalekoRelationship.py:91-93 | all keyword arguments, including `relationship`, `object1` and `object2`, are forwarded to `IndalekoRecord.__init__(raw_data, attributes, source)`, which rejects them | any edge that passes the checks, e.g. the Contains edge the ingesters build | build the record from `raw_data`, the metadata as attributes, and `source` | high (not executed) | Relationships.AsWrittenNeverBuilds | Relationships.EdgeBuilds |
| IndalekoMacMachineConfig.py:164-165 | `get_most_recent_config_file` sorts ascending and takes index 0 | two configuration files with different timestamps | the candidate with the greatest timestamp | high (not executed) | MachineConfig.MostRecentIsNotLatest | MachineConfig.LatestConfigFile |
| IndalekoMacMachineConfig.py:146-149 | the fraction is cut from `digits + 'Z'`, so fewer than six digits keep the `Z` in front of `+00:00` | a name with timestamp `2024-01-02T03-04-05.123Z` | the fractional digits only, then `+00:00` | medium (not executed) | ConfigNames.ConfigStampKeepsZ | MachineConfig.FixedReadNameOf |
| IndalekoWindowsLocalIndexer.py:95-111 | `last_uri` is first set to the entry's file path and is only replaced when the drive changes | two entries under the same drive in one walk | keep the cached volume URI while the drive is unchanged | high (not executed) | Volumes.StatStepSecondEntry | Volumes.FixedIndexUris |
