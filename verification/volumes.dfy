/** Windows drive letters, volume GUIDs and the `\\?\` URIs built from
    them: the conversion of the local indexer (through the machine
    configuration's drive map), the cache the indexer threads through its
    walk, and the older indexer script and local ingest script, which read
    the `VolumeInfo` list of a configuration directly.
 */
module Volumes {

  import opened Errors
  import opened Dicts
  import opened Values
  import opened PyStr
  import PathCodec
  import MachineConfig
  import Normalize

  /** The path functions the indexer calls: `os.path.splitdrive` and the
      two-argument `os.path.join`.  Three-argument joins are two joins in a
      row, as `ntpath.join` folds its arguments left to right. */
  datatype PathOps = PathOps(splitdrive: string -> (string, string), join: (string, string) -> string)

  function Join3(ops: PathOps, a: string, b: string, c: string): string {
    ops.join(ops.join(a, b), c)
  }

  /** `os.path.splitdrive(path)[0][0].upper()`: the IndexError of `[0]`
      when the path has no drive. */
  function DriveOf(ops: PathOps, path: string): (r: Result<string>)
    ensures r.Ok? <==> |ops.splitdrive(path).0| > 0
    ensures r.Ok? ==> |r.value| == 1
    ensures r.Ok? ==> r.value == [UpperChar(ops.splitdrive(path).0[0])]
    ensures r.Err? ==> r.error == IndexError
  {
    var d := ops.splitdrive(path).0;
    if |d| == 0 then Err(IndexError) else Ok([UpperChar(d[0])])
  }

  /** `\\?\` followed by the drive letter and `:`. */
  function LetterUri(drive: string): string {
    "\\\\?\\" + drive + ":"
  }

  /** The volume-GUID path `\\?\Volume{g}\`. */
  function VolumeUri(g: string): (r: string)
    ensures StartsWith(r, Normalize.VolumePrefix)
  {
    var r := Normalize.VolumePrefix + g + "}\\";
    assert r[..11] == Normalize.VolumePrefix;
    r
  }

  /** A lettered URI is never a volume URI: its fourth character is the
      letter, where a volume URI has `V`, unless the letter is `V`, and
      then the fifth is `:`, where a volume URI has `o`. */
  lemma LetterNotVolume(drive: string)
    requires |drive| == 1
    ensures !StartsWith(LetterUri(drive), Normalize.VolumePrefix)
  {
    assert |LetterUri(drive)| == 6;
  }

  // ---------------------------------------------------------------------
  // The local indexer
  // ---------------------------------------------------------------------

  /** `IndalekoWindowsLocalIndexer.convert_windows_path_to_guid_uri`: the
      volume-GUID path of the drive when the machine configuration maps
      its letter (`mapDrive`), else the lettered form. */
  function ConvertUri(ops: PathOps, mapDrive: string -> Option<string>, path: string): (r: Result<string>)
    ensures r.Ok? <==> |ops.splitdrive(path).0| > 0
    ensures r.Err? ==> r.error == IndexError
    ensures r.Ok? ==> (StartsWith(r.value, Normalize.VolumePrefix) <==> mapDrive(DriveOf(ops, path).value).Some?)
  {
    var drive :- DriveOf(ops, path);
    match mapDrive(drive)
    case Some(g) => Ok(VolumeUri(g))
    case None =>
      LetterNotVolume(drive);
      Ok(LetterUri(drive))
  }

  /** The GUID a mapped drive's URI carries is the GUID it was mapped to:
      the drive-information reader takes back what the conversion wrote. */
  lemma ConvertUriGuid(ops: PathOps, mapDrive: string -> Option<string>, path: string, g: string)
    requires |ops.splitdrive(path).0| > 0
    requires mapDrive(DriveOf(ops, path).value) == Some(g)
    ensures MachineConfig.WindowsVolumeGuid(VStr(ConvertUri(ops, mapDrive, path).value)) == Ok(g)
  {
    MachineConfig.WindowsVolumeGuidOf(g);
  }

  /** With the macOS configuration, whose map never has a volume, every
      path gets the lettered form. */
  lemma ConvertUriUnmapped(ops: PathOps, path: string)
    requires |ops.splitdrive(path).0| > 0
    ensures ConvertUri(ops, MachineConfig.MacMapDriveLetter, path) == Ok(LetterUri(DriveOf(ops, path).value))
  {
  }

  /** The cache the walk threads from entry to entry. */
  datatype Cache = Cache(lastUri: Option<string>, lastDrive: Option<string>)

  /** What a step whose `stat` succeeded does before any cache is used: a
      root without a drive is the IndexError of `[0]`; a drive other than
      the cached one is resolved again, and must map to a volume GUID `g`
      (AssertionError otherwise), which then becomes the cached URI
      `\\?\Volume{g}\`. */
  predicate NewDriveOutcome(ops: PathOps, mapDrive: string -> Option<string>, root: string, cache: Cache,
                            r: Result<Option<(Dict<Value>, Cache)>>) {
    if |ops.splitdrive(root).0| == 0 then r == Err(IndexError)
    else
      var drive := DriveOf(ops, root).value;
      cache.lastDrive != Some(drive) ==>
        match mapDrive(drive)
        case None => r == Err(AssertionError)
        case Some(g) => r.Ok? && r.value.Some? && r.value.value.1 == Cache(Some(VolumeUri(g)), Some(drive))
  }

  /** One step of `build_stat_dict`: None when `stat` fails; otherwise the
      stat dictionary with `file`, `path` and `URI`, and the new cache.
      When the drive of `root` differs from the cached one, the URI is
      resolved again and must be a volume URI (AssertionError).  As
      written, an unchanged drive leaves `last_uri` as the entry's own
      file path, since the parameter was overwritten on entry. */
  function StatStep(ops: PathOps, mapDrive: string -> Option<string>, stat: string -> Option<Dict<Value>>,
                    name: string, root: string, cache: Cache): (r: Result<Option<(Dict<Value>, Cache)>>)
    ensures r.Ok? && r.value.Some? ==> |ops.splitdrive(root).0| > 0
    ensures r.Ok? && r.value.Some? ==> r.value.value.1.lastDrive == Some(DriveOf(ops, root).value)
    ensures r.Ok? && r.value.Some? && cache.lastDrive == r.value.value.1.lastDrive
            ==> r.value.value.1.lastUri == Some(ops.join(root, name))
    ensures stat(ops.join(root, name)).None? ==> r == Ok(None)
    ensures stat(ops.join(root, name)).Some? ==> NewDriveOutcome(ops, mapDrive, root, cache, r)
    ensures stat(ops.join(root, name)).Some? && |ops.splitdrive(root).0| > 0
            && cache.lastDrive == Some(DriveOf(ops, root).value)
            ==> r.Ok? && r.value.Some?
  {
    var filePath := ops.join(root, name);
    match stat(filePath)
    case None => Ok(None)
    case Some(st) =>
      var d1 := Set(st, "file", VStr(name));
      var d2 := Set(d1, "path", VStr(root));
      var drive :- DriveOf(ops, root);
      var uri :- if cache.lastDrive != Some(drive) then
                   (var u := ConvertUri(ops, mapDrive, root).value;
                    var _ :- Need(StartsWith(u, Normalize.VolumePrefix));
                    Ok(u))
                 else Ok(filePath);
      var d3 := Set(d2, "URI", VStr(Join3(ops, uri, ops.splitdrive(root).1, name)));
      Ok(Some((d3, Cache(Some(uri), Some(drive)))))
  }

  /** The dictionary of a step that produced one: `file` is the name,
      `path` the root, and `URI` the new cached URI joined with the path
      below the drive and the name. */
  lemma StatStepDict(ops: PathOps, mapDrive: string -> Option<string>, stat: string -> Option<Dict<Value>>,
                     name: string, root: string, cache: Cache)
    ensures var r := StatStep(ops, mapDrive, stat, name, root, cache);
      r.Ok? && r.value.Some? ==>
        Get(r.value.value.0, "file") == Some(VStr(name))
        && Get(r.value.value.0, "path") == Some(VStr(root))
        && Get(r.value.value.0, "URI")
           == Some(VStr(Join3(ops, r.value.value.1.lastUri.value, ops.splitdrive(root).1, name)))
  {
    var r := StatStep(ops, mapDrive, stat, name, root, cache);
    if r.Ok? && r.value.Some? {
      var st := stat(ops.join(root, name)).value;
      var d1 := Set(st, "file", VStr(name));
      var d2 := Set(d1, "path", VStr(root));
      var u := VStr(Join3(ops, r.value.value.1.lastUri.value, ops.splitdrive(root).1, name));
      SetGet(st, "file", VStr(name), "file");
      SetGet(d1, "path", VStr(root), "file");
      SetGet(d1, "path", VStr(root), "path");
      SetGet(d2, "URI", u, "file");
      SetGet(d2, "URI", u, "path");
      SetGet(d2, "URI", u, "URI");
    }
  }

  /** The first entry on a drive the configuration maps to `g`: the step
      caches the volume URI, the entry's URI is built on it, and the
      configuration's volume-GUID reader takes `g` back from the cache. */
  lemma StatStepNewVolume(ops: PathOps, mapDrive: string -> Option<string>, stat: string -> Option<Dict<Value>>,
                          name: string, root: string, cache: Cache, g: string)
    requires stat(ops.join(root, name)).Some?
    requires |ops.splitdrive(root).0| > 0
    requires cache.lastDrive != Some(DriveOf(ops, root).value)
    requires mapDrive(DriveOf(ops, root).value) == Some(g)
    ensures var r := StatStep(ops, mapDrive, stat, name, root, cache);
      r.Ok? && r.value.Some?
      && Get(r.value.value.0, "URI") == Some(VStr(Join3(ops, VolumeUri(g), ops.splitdrive(root).1, name)))
      && MachineConfig.WindowsVolumeGuid(VStr(r.value.value.1.lastUri.value)) == Ok(g)
  {
    StatStepDict(ops, mapDrive, stat, name, root, cache);
    ConvertUriGuid(ops, mapDrive, root, g);
  }

  /** `build_stat_dict` keeping the cached URI when the drive is
      unchanged, as the cache was meant to. */
  function FixedStatStep(ops: PathOps, mapDrive: string -> Option<string>, stat: string -> Option<Dict<Value>>,
                         name: string, root: string, cache: Cache): (r: Result<Option<(Dict<Value>, Cache)>>)
    requires cache.lastDrive.Some? ==> cache.lastUri.Some?
    ensures r.Ok? && r.value.Some? ==> |ops.splitdrive(root).0| > 0
    ensures r.Ok? && r.value.Some? ==> r.value.value.1.lastDrive == Some(DriveOf(ops, root).value)
    ensures r.Ok? && r.value.Some? && cache.lastDrive == r.value.value.1.lastDrive
            ==> r.value.value.1.lastUri == cache.lastUri
    ensures stat(ops.join(root, name)).None? ==> r == Ok(None)
    ensures stat(ops.join(root, name)).Some? ==> NewDriveOutcome(ops, mapDrive, root, cache, r)
    ensures stat(ops.join(root, name)).Some? && |ops.splitdrive(root).0| > 0
            && cache.lastDrive == Some(DriveOf(ops, root).value)
            ==> r.Ok? && r.value.Some?
  {
    var filePath := ops.join(root, name);
    match stat(filePath)
    case None => Ok(None)
    case Some(st) =>
      var d1 := Set(st, "file", VStr(name));
      var d2 := Set(d1, "path", VStr(root));
      var drive :- DriveOf(ops, root);
      var uri :- if cache.lastDrive != Some(drive) then
                   (var u := ConvertUri(ops, mapDrive, root).value;
                    var _ :- Need(StartsWith(u, Normalize.VolumePrefix));
                    Ok(u))
                 else Ok(cache.lastUri.value);
      var d3 := Set(d2, "URI", VStr(Join3(ops, uri, ops.splitdrive(root).1, name)));
      Ok(Some((d3, Cache(Some(uri), Some(drive)))))
  }

  /** The cache holds a volume URI for its drive, or nothing yet. */
  predicate GoodCache(c: Cache) {
    (c.lastDrive.None? && c.lastUri.None?)
    || (c.lastDrive.Some? && c.lastUri.Some? && StartsWith(c.lastUri.value, Normalize.VolumePrefix))
  }

  /** `index()` over the entries of the walk, `(root, name)` pairs in
      `os.walk` order, with the corrected step: the stat dictionaries of
      the entries that `stat` accepts. */
  function FixedIndex(ops: PathOps, mapDrive: string -> Option<string>, stat: string -> Option<Dict<Value>>,
                      entries: seq<(string, string)>, cache: Cache): (r: Result<seq<Dict<Value>>>)
    requires GoodCache(cache)
    ensures r.Ok? ==> |r.value| <= |entries|
    decreases |entries|
  {
    if |entries| == 0 then Ok([])
    else
      var step :- FixedStatStep(ops, mapDrive, stat, entries[0].1, entries[0].0, cache);
      match step
      case None => FixedIndex(ops, mapDrive, stat, entries[1..], cache)
      case Some(p) =>
        FixedStepKeepsCache(ops, mapDrive, stat, entries[0].1, entries[0].0, cache);
        var rest :- FixedIndex(ops, mapDrive, stat, entries[1..], p.1);
        Ok([p.0] + rest)
  }

  /** The corrected step keeps a good cache good, and every URI it writes
      is the cached volume URI joined with the path below the drive. */
  lemma FixedStepKeepsCache(ops: PathOps, mapDrive: string -> Option<string>, stat: string -> Option<Dict<Value>>,
                            name: string, root: string, cache: Cache)
    requires GoodCache(cache)
    ensures var r := FixedStatStep(ops, mapDrive, stat, name, root, cache);
      r.Ok? && r.value.Some? ==>
        GoodCache(r.value.value.1)
        && Get(r.value.value.0, "URI")
           == Some(VStr(Join3(ops, r.value.value.1.lastUri.value, ops.splitdrive(root).1, name)))
  {
    var r := FixedStatStep(ops, mapDrive, stat, name, root, cache);
    if r.Ok? && r.value.Some? {
      var st := stat(ops.join(root, name)).value;
      var d2 := Set(Set(st, "file", VStr(name)), "path", VStr(root));
      var uri := r.value.value.1.lastUri.value;
      SetGet(d2, "URI", VStr(Join3(ops, uri, ops.splitdrive(root).1, name)), "URI");
    }
  }

  /** Every entry the corrected walk produces has a URI that is a volume
      URI joined with the entry's path below the drive. */
  lemma {:induction false} FixedIndexUris(ops: PathOps, mapDrive: string -> Option<string>,
                                          stat: string -> Option<Dict<Value>>,
                                          entries: seq<(string, string)>, cache: Cache)
    requires GoodCache(cache)
    ensures var r := FixedIndex(ops, mapDrive, stat, entries, cache);
      r.Ok? ==> AllJoined(ops, r.value)
    decreases |entries|
  {
    if |entries| > 0 {
      var step := FixedStatStep(ops, mapDrive, stat, entries[0].1, entries[0].0, cache);
      if step.Ok? {
        match step.value
        case None =>
          FixedIndexUris(ops, mapDrive, stat, entries[1..], cache);
        case Some(p) =>
          FixedStepKeepsCache(ops, mapDrive, stat, entries[0].1, entries[0].0, cache);
          FixedIndexUris(ops, mapDrive, stat, entries[1..], p.1);
          var rest := FixedIndex(ops, mapDrive, stat, entries[1..], p.1);
          if rest.Ok? {
            assert UriBase(ops, p.0, p.1.lastUri.value, entries[0].0, entries[0].1);
            AllJoinedCons(ops, p.0, rest.value);
          }
      }
    }
  }

  /** Every dictionary of `ds` has a URI built on a volume URI. */
  ghost predicate AllJoined(ops: PathOps, ds: seq<Dict<Value>>) {
    forall i :: 0 <= i < |ds| ==> VolumeJoined(ops, ds[i])
  }

  lemma AllJoinedCons(ops: PathOps, d: Dict<Value>, ds: seq<Dict<Value>>)
    requires VolumeJoined(ops, d) && AllJoined(ops, ds)
    ensures AllJoined(ops, [d] + ds)
  {
    forall i | 0 <= i < |[d] + ds|
      ensures VolumeJoined(ops, ([d] + ds)[i])
    {
      if i > 0 {
        assert ([d] + ds)[i] == ds[i - 1];
      }
    }
  }

  /** `d["URI"]` is `join(join(base, tail), name)` for the given base. */
  predicate UriBase(ops: PathOps, d: Dict<Value>, base: string, root: string, name: string) {
    StartsWith(base, Normalize.VolumePrefix)
    && Get(d, "URI") == Some(VStr(Join3(ops, base, ops.splitdrive(root).1, name)))
  }

  /** Some volume URI, drive tail and name give `d["URI"]`. */
  ghost predicate VolumeJoined(ops: PathOps, d: Dict<Value>) {
    exists base: string, root: string, name: string :: UriBase(ops, d, base, root, name)
  }

  /** As written, the second entry of a walk on the same drive is joined
      onto its own file path: its URI is not built on the volume URI. */
  lemma StatStepSecondEntry(ops: PathOps, mapDrive: string -> Option<string>, stat: string -> Option<Dict<Value>>,
                            name: string, root: string, volumeUri: string)
    requires |ops.splitdrive(root).0| > 0
    requires stat(ops.join(root, name)).Some?
    ensures var cache := Cache(Some(volumeUri), Some(DriveOf(ops, root).value));
      var r := StatStep(ops, mapDrive, stat, name, root, cache);
      r.Ok? && r.value.Some?
      && r.value.value.1.lastUri == Some(ops.join(root, name))
      && Get(r.value.value.0, "URI")
         == Some(VStr(Join3(ops, ops.join(root, name), ops.splitdrive(root).1, name)))
  {
    var filePath := ops.join(root, name);
    var st := stat(filePath).value;
    var d2 := Set(Set(st, "file", VStr(name)), "path", VStr(root));
    SetGet(d2, "URI", VStr(Join3(ops, filePath, ops.splitdrive(root).1, name)), "URI");
  }

  // ---------------------------------------------------------------------
  // The older indexer script and the local ingest script
  // ---------------------------------------------------------------------

  /** One entry of a configuration's `VolumeInfo` list: its drive letter
      (None for JSON null) and its unique id. */
  datatype VolumeInfo = VolumeInfo(driveLetter: Option<string>, uniqueId: string)

  /** The entry lists the given drive letter. */
  predicate Lists(v: VolumeInfo, drive: string) {
    v.driveLetter == Some(drive)
  }

  /** The loop of `convert_windows_path_to_guid_uri` in the indexer
      script: every entry for the drive replaces the URI, so the last one
      wins; `uri` is the value before the loop. */
  function LastUniqueId(vols: seq<VolumeInfo>, drive: string, uri: string): (r: string)
    ensures (forall i :: 0 <= i < |vols| ==> !Lists(vols[i], drive)) ==> r == uri
    ensures forall i :: (0 <= i < |vols| && Lists(vols[i], drive)
              && (forall j :: i < j < |vols| ==> !Lists(vols[j], drive))) ==> r == vols[i].uniqueId
    decreases |vols|
  {
    if |vols| == 0 then uri
    else
      assert forall j :: 1 <= j < |vols| ==> vols[j] == vols[1..][j - 1];
      LastUniqueId(vols[1..], drive, if Lists(vols[0], drive) then vols[0].uniqueId else uri)
  }

  /** The indexer script's `convert_windows_path_to_guid_uri`: the lettered
      form unless the configuration lists the drive, then the unique id of
      the last entry listing it. */
  function ScriptConvertUri(ops: PathOps, vols: seq<VolumeInfo>, path: string): (r: Result<string>)
    ensures r.Ok? <==> |ops.splitdrive(path).0| > 0
    ensures r.Ok? && (forall i :: 0 <= i < |vols| ==> !Lists(vols[i], DriveOf(ops, path).value))
            ==> r.value == LetterUri(DriveOf(ops, path).value)
  {
    var drive :- DriveOf(ops, path);
    Ok(LastUniqueId(vols, drive, LetterUri(drive)))
  }

  /** The drive part of the output file name in the indexer script: the
      first entry listing the drive decides, and its unique id must name a
      volume (AssertionError) and gives `unique_id[-38:-2]`; with no such
      entry the drive letter itself. */
  function DriveGuid(vols: seq<VolumeInfo>, drive: string): (r: Result<string>)
    ensures (forall i :: 0 <= i < |vols| ==> !Lists(vols[i], drive)) ==> r == Ok(drive)
    ensures forall i :: (0 <= i < |vols| && Lists(vols[i], drive)
              && (forall j :: 0 <= j < i ==> !Lists(vols[j], drive)))
              ==> r == (if Contains(vols[i].uniqueId, "Volume") then Ok(Slice(vols[i].uniqueId, -38, -2))
                        else Err(AssertionError))
    decreases |vols|
  {
    if |vols| == 0 then Ok(drive)
    else if Lists(vols[0], drive) then
      if Contains(vols[0].uniqueId, "Volume") then Ok(Slice(vols[0].uniqueId, -38, -2))
      else Err(AssertionError)
    else
      assert forall j :: 1 <= j < |vols| ==> vols[j] == vols[1..][j - 1];
      DriveGuid(vols[1..], drive)
  }

  /** The 36-character GUID of a unique id `\\?\Volume{g}\` is what
      `[-38:-2]` takes. */
  lemma DriveGuidOfVolume(vols: seq<VolumeInfo>, drive: string, g: string)
    requires |vols| > 0 && Lists(vols[0], drive) && vols[0].uniqueId == VolumeUri(g)
    requires |g| == 36
    ensures DriveGuid(vols, drive) == Ok(g)
  {
    var u := VolumeUri(g);
    assert u == Normalize.VolumePrefix + g + "}\\";
    assert u[4..10] == "Volume";
    assert Contains(u, "Volume") by {
      assert OccursAt(u, "Volume", 4);
      ContainsIff(u, "Volume");
    }
    assert |u| == 49;
    assert Slice(u, -38, -2) == u[11..47];
    assert u[11..47] == g;
  }

  /** The indexer script's `construct_windows_output_file_name`: the name
      with the machine GUID, the drive part and the capture time (given
      here as `timestamp`), passed through the POSIX-to-Windows codec. */
  function ScriptOutputFileName(ops: PathOps, vols: seq<VolumeInfo>, machineGuid: string, path: string,
                                timestamp: string): (r: Result<string>)
    ensures r.Ok? ==> |ops.splitdrive(path).0| > 0
  {
    var drive :- DriveOf(ops, path);
    var driveGuid :- DriveGuid(vols, drive);
    Ok(PathCodec.PosixToWindows(ScriptName(machineGuid, driveGuid, timestamp)))
  }

  /** The layout of the indexer script's output names, before encoding. */
  function ScriptName(machineGuid: string, driveGuid: string, timestamp: string): string {
    ScriptMachineTag + machineGuid + ScriptDriveTag + driveGuid + ScriptDateTag + timestamp + ScriptSuffix
  }

  const ScriptMachineTag: string := "windows-local-fs-data-machine="
  const ScriptDriveTag: string := "-drive="
  const ScriptDateTag: string := "-date="
  const ScriptSuffix: string := ".json"

  lemma ScriptNameNoUnderscore(machineGuid: string, driveGuid: string, timestamp: string)
    requires '_' !in machineGuid && '_' !in driveGuid && '_' !in timestamp
    ensures PathCodec.NoUnderscore(ScriptName(machineGuid, driveGuid, timestamp))
  {
    assert '_' !in ScriptMachineTag;
    assert '_' !in ScriptDriveTag;
    assert '_' !in ScriptDateTag;
    assert '_' !in ScriptSuffix;
  }

  /** Without `_` in its parts the output name is the plain layout: the
      codec only rewrites `_`-delimited tokens. */
  lemma ScriptOutputFileNamePlain(ops: PathOps, vols: seq<VolumeInfo>, machineGuid: string, path: string,
                                  timestamp: string)
    requires |ops.splitdrive(path).0| > 0
    requires DriveGuid(vols, DriveOf(ops, path).value).Ok?
    requires '_' !in machineGuid && '_' !in timestamp && '_' !in DriveGuid(vols, DriveOf(ops, path).value).value
    ensures ScriptOutputFileName(ops, vols, machineGuid, path, timestamp)
            == Ok(ScriptName(machineGuid, DriveGuid(vols, DriveOf(ops, path).value).value, timestamp))
  {
    var name := ScriptName(machineGuid, DriveGuid(vols, DriveOf(ops, path).value).value, timestamp);
    ScriptNameNoUnderscore(machineGuid, DriveGuid(vols, DriveOf(ops, path).value).value, timestamp);
    PathCodec.TableIsGood();
    PathCodec.TableTokens();
    PathCodec.DecodeIdentity(name, PathCodec.Table);
  }

  /** `WindowsHardwareInfo.__build_drive_map__` of the local ingest
      script: entries without a letter are skipped, and a later entry for
      a letter overwrites an earlier one.  `m` is the map so far. */
  function DriveMap(vols: seq<VolumeInfo>, m: Dict<string>): (r: Dict<string>)
    ensures WellFormed(m) ==> WellFormed(r)
    decreases |vols|
  {
    if |vols| == 0 then m
    else if vols[0].driveLetter.None? then DriveMap(vols[1..], m)
    else
      assert WellFormed(m) ==> WellFormed(Set(m, vols[0].driveLetter.value, vols[0].uniqueId)) by {
        if WellFormed(m) {
          SetWellFormed(m, vols[0].driveLetter.value, vols[0].uniqueId);
        }
      }
      DriveMap(vols[1..], Set(m, vols[0].driveLetter.value, vols[0].uniqueId))
  }

  /** The map's keys are exactly the letters listed, and each reads the
      unique id of the last entry listing it. */
  lemma {:induction false} DriveMapGet(vols: seq<VolumeInfo>, m: Dict<string>, letter: string)
    ensures Get(DriveMap(vols, m), letter)
            == if exists i :: 0 <= i < |vols| && Lists(vols[i], letter)
               then Some(vols[LastListing(vols, letter)].uniqueId)
               else Get(m, letter)
    decreases |vols|
  {
    if |vols| > 0 {
      assert forall j :: 1 <= j < |vols| ==> vols[j] == vols[1..][j - 1];
      var m1 := if vols[0].driveLetter.None? then m else Set(m, vols[0].driveLetter.value, vols[0].uniqueId);
      DriveMapGet(vols[1..], m1, letter);
      if vols[0].driveLetter.Some? {
        SetGet(m, vols[0].driveLetter.value, vols[0].uniqueId, letter);
      }
      if exists i :: 1 <= i < |vols| && Lists(vols[i], letter) {
        var i :| 1 <= i < |vols| && Lists(vols[i], letter);
        assert Lists(vols[1..][i - 1], letter);
      }
      if exists i :: 0 <= i < |vols[1..]| && Lists(vols[1..][i], letter) {
        var i :| 0 <= i < |vols[1..]| && Lists(vols[1..][i], letter);
        assert Lists(vols[i + 1], letter);
      }
    }
  }

  /** The position of the last entry listing `letter`. */
  function LastListing(vols: seq<VolumeInfo>, letter: string): (r: nat)
    requires exists i :: 0 <= i < |vols| && Lists(vols[i], letter)
    ensures r < |vols| && Lists(vols[r], letter)
    ensures forall j :: r < j < |vols| ==> !Lists(vols[j], letter)
    decreases |vols|
  {
    if Lists(vols[|vols| - 1], letter) then |vols| - 1
    else
      var init := vols[..|vols| - 1];
      assert forall j :: 0 <= j < |init| ==> init[j] == vols[j];
      var i :| 0 <= i < |vols| && Lists(vols[i], letter);
      assert i < |init| && Lists(init[i], letter);
      LastListing(init, letter)
  }

  /** `get_output_file_name` of the local ingest script: one fixed name. */
  const LocalOutputFileName: string := "data/windows-local-file-system-data.json"
}
