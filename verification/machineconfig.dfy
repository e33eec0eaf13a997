/** `IndalekoMachineConfig` and its macOS and Windows subclasses: finding
    the configuration files a capture script wrote, reading the machine
    GUID and capture time from their names, choosing one of them, the
    setters of the configuration object, and the table of volumes built
    from the `VolumeInfo` list of a configuration.
 */
module MachineConfig {

  import opened Errors
  import opened Dicts
  import opened Values
  import opened PyStr
  import Records
  import opened ConfigNames
  import Uuid
  import Normalize

  const MacPrefix: string := "macos-hardware-info"
  const WindowsPrefix: string := "windows-hardware-info"

  // ---------------------------------------------------------------------
  // Finding and reading configuration files
  // ---------------------------------------------------------------------

  /** The names of a directory listing that start with `prefix` and end
      with `suffix`, in listing order. */
  function KeepNames(listing: seq<string>, prefix: string, suffix: string): (r: seq<string>)
    ensures forall x :: x in r <==> x in listing && StartsWith(x, prefix) && EndsWith(x, suffix)
    ensures |r| <= |listing|
    decreases |listing|
  {
    if |listing| == 0 then []
    else
      var rest := KeepNames(listing[1..], prefix, suffix);
      assert listing == [listing[0]] + listing[1..];
      if StartsWith(listing[0], prefix) && EndsWith(listing[0], suffix) then [listing[0]] + rest else rest
  }

  /** `find_config_files(directory, prefix)` over the names `os.listdir`
      returns: both arguments must be strings (the prefix is checked
      first), and the `.json` files with the prefix are kept. */
  function FindConfigFiles(directory: Value, prefix: Value, listing: seq<string>): (r: Result<seq<string>>)
    ensures r.Ok? <==> prefix.VStr? && directory.VStr?
    ensures r.Err? ==> r.error == AssertionError
    ensures r.Ok? ==> forall x :: x in r.value <==> x in listing && StartsWith(x, prefix.s) && EndsWith(x, ".json")
  {
    if !prefix.VStr? then Err(AssertionError)
    else if !directory.VStr? then Err(AssertionError)
    else Ok(KeepNames(listing, prefix.s, ".json"))
  }

  /** The Windows subclass's `find_config_files`, with its fixed prefix. */
  function WindowsFindConfigFiles(listing: seq<string>): (r: seq<string>)
    ensures forall x :: x in r <==> x in listing && StartsWith(x, WindowsPrefix) && EndsWith(x, ".json")
  {
    KeepNames(listing, WindowsPrefix, ".json")
  }

  /** What reading a configuration file name yields: the name, the
      machine GUID as `uuid.UUID(...).hex`, and the capture instant. */
  datatype Parsed = Parsed(fileName: string, guid: string, instant: int)

  /** What the readers do with the groups of the regular expression:
      no match is an AssertionError, then `uuid.UUID` on the guid group
      (ValueError), the timestamp conversion `convert`, and the library
      parser the result is handed to, given here as `fromIso`. */
  function ReadGroups(convert: string -> Result<string>, fileName: string, groups: Option<(string, string)>,
                      fromIso: string -> Result<int>): (r: Result<Parsed>)
    ensures groups.None? ==> r == Err(AssertionError)
    ensures r.Ok? ==> r.value.fileName == fileName && Uuid.IsHex32(r.value.guid)
    ensures r.Ok? ==> Uuid.Parse(groups.value.0) == Ok(r.value.guid)
  {
    match groups
    case None => Err(AssertionError)
    case Some(gs) =>
      var guid :- Uuid.Parse(gs.0);
      var iso :- convert(gs.1);
      var t :- fromIso(iso);
      Ok(Parsed(fileName, guid, t))
  }

  /** The common body of the readers whose expression is written as a
      raw string, so that `\d{4}` counts four digits. */
  function ReadNameWith(convert: string -> Result<string>, fileName: string, prefix: string, suffix: string,
                        seps: set<char>, fromIso: string -> Result<int>): (r: Result<Parsed>)
    ensures r.Ok? ==> r.value.fileName == fileName && Uuid.IsHex32(r.value.guid)
    ensures r.Ok? ==> ReMatch(fileName, prefix, suffix, seps).Some?
  {
    ReadGroups(convert, fileName, ReMatch(fileName, prefix, suffix, seps), fromIso)
  }

  /** The reader as written: the timestamp goes through the conversion
      that keeps the `Z` of a short fraction. */
  function ReadName(fileName: string, prefix: string, suffix: string, seps: set<char>,
                    fromIso: string -> Result<int>): (r: Result<Parsed>)
    ensures r.Ok? ==> r.value.fileName == fileName && Uuid.IsHex32(r.value.guid)
    ensures r.Ok? ==> ReMatch(fileName, prefix, suffix, seps).Some?
  {
    ReadNameWith(ConfigStamp, fileName, prefix, suffix, seps, fromIso)
  }

  /** The reader with the corrected conversion, which drops the `Z`
      before the fraction is cut. */
  function FixedReadName(fileName: string, prefix: string, suffix: string, seps: set<char>,
                         fromIso: string -> Result<int>): (r: Result<Parsed>)
    ensures r.Ok? ==> r.value.fileName == fileName && Uuid.IsHex32(r.value.guid)
    ensures r.Ok? ==> ReMatch(fileName, prefix, suffix, seps).Some?
  {
    ReadNameWith(FixedConfigStamp, fileName, prefix, suffix, seps, fromIso)
  }

  /** The suffix with a leading `.` dropped. */
  function Dotless(suffix: string): string
    requires |suffix| > 0
  {
    if suffix[0] == '.' then suffix[1..] else suffix
  }

  /** `IndalekoMachineConfig.get_guid_timestamp_from_file_name`: the file
      name and prefix must be strings, a leading `.` of the suffix is
      dropped (an empty suffix is the IndexError of `suffix[0]`), and the
      name is matched against the expression the f-string builds, whose
      timestamp group wants a digit and a literal `4` for the year (see
      `FmtReMatch`); the directory part of the name ends at a `/`. */
  function GetGuidTimestamp(fileName: Value, prefix: Value, suffix: string,
                            fromIso: string -> Result<int>): (r: Result<Parsed>)
    ensures !fileName.VStr? || !prefix.VStr? ==> r == Err(AssertionError)
    ensures fileName.VStr? && prefix.VStr? && |suffix| == 0 ==> r == Err(IndexError)
    ensures r.Ok? ==> fileName == VStr(r.value.fileName) && Uuid.IsHex32(r.value.guid)
    ensures r.Ok? ==> |suffix| > 0 && FmtReMatch(fileName.s, prefix.s, Dotless(suffix), {'/'}).Some?
  {
    if !fileName.VStr? then Err(AssertionError)
    else if !prefix.VStr? then Err(AssertionError)
    else if |suffix| == 0 then Err(IndexError)
    else ReadGroups(ConfigStamp, fileName.s, FmtReMatch(fileName.s, prefix.s, Dotless(suffix), {'/'}), fromIso)
  }

  /** No name the capture script writes is read by the generic reader:
      every one of them is an AssertionError. */
  lemma GenericRejectsSchemeName(prefix: string, guid: string, date: string, time: string, frac: string,
                                 suffix: string, fromIso: string -> Result<int>)
    requires StampParts(date, time, frac)
    requires |guid| > 0 && forall k :: 0 <= k < |guid| ==> GuidChar(guid[k])
    requires |suffix| > 0
    requires forall c :: c in FileName(prefix, guid, Stamp(date, time, frac), Dotless(suffix)) ==> c != '/'
    ensures GetGuidTimestamp(VStr(FileName(prefix, guid, Stamp(date, time, frac), Dotless(suffix))),
                             VStr(prefix), suffix, fromIso) == Err(AssertionError)
  {
    FmtRejectsName(prefix, guid, date, time, frac, Dotless(suffix), {'/'});
  }

  /** What the generic reader does read: a name laid out as the scheme's
      whose date has the shape `\d4-\d2-\d2` and whose time has the shape
      `\d2-\d2-\d2` gets its guid and that timestamp as the groups. */
  lemma GenericReadsLiteralDigits(prefix: string, guid: string, date: string, time: string, frac: string,
                                  suffix: string, fromIso: string -> Result<int>)
    requires FmtDateShape(date) && FmtTimeShape(time) && |frac| > 0 && AllDigits(frac)
    requires |guid| > 0 && forall k :: 0 <= k < |guid| ==> GuidChar(guid[k])
    requires |suffix| > 0
    requires forall c :: c in FileName(prefix, guid, Stamp(date, time, frac), Dotless(suffix)) ==> c != '/'
    ensures GetGuidTimestamp(VStr(FileName(prefix, guid, Stamp(date, time, frac), Dotless(suffix))),
                             VStr(prefix), suffix, fromIso)
            == ReadGroups(ConfigStamp, FileName(prefix, guid, Stamp(date, time, frac), Dotless(suffix)),
                          Some((guid, Stamp(date, time, frac))), fromIso)
  {
    FmtMatchesName(prefix, guid, date, time, frac, Dotless(suffix), {'/'});
  }

  /** The macOS reader: fixed prefix and suffix, `/` or `\` before the
      name. */
  function MacGuidTimestamp(fileName: string, fromIso: string -> Result<int>): (r: Result<Parsed>)
    ensures r.Ok? ==> r.value.fileName == fileName
    ensures r.Ok? ==> ReMatch(fileName, MacPrefix, "json", {'/', '\\'}).Some?
  {
    ReadName(fileName, MacPrefix, "json", {'/', '\\'}, fromIso)
  }

  /** The Windows reader: as the macOS one with the Windows prefix. */
  function WindowsGuidTimestamp(fileName: string, fromIso: string -> Result<int>): (r: Result<Parsed>)
    ensures r.Ok? ==> r.value.fileName == fileName
    ensures r.Ok? ==> ReMatch(fileName, WindowsPrefix, "json", {'/', '\\'}).Some?
  {
    ReadName(fileName, WindowsPrefix, "json", {'/', '\\'}, fromIso)
  }

  /** The reader of the Windows indexer script and the local ingest
      script: no directory part, the indexer's timestamp conversion, and
      `strptime` (given here as `parse`) on the result. */
  function LocalGuidTimestamp(fileName: string, parse: string -> Result<int>): (r: Result<Parsed>)
    ensures r.Ok? ==> r.value.fileName == fileName && Uuid.IsHex32(r.value.guid)
    ensures r.Ok? ==> ReMatch(fileName, WindowsPrefix, "json", {}).Some?
  {
    match ReMatch(fileName, WindowsPrefix, "json", {})
    case None => Err(AssertionError)
    case Some(groups) =>
      var guid :- Uuid.Parse(groups.0);
      var stamp :- IndexStamp(groups.1);
      var t :- parse(stamp);
      Ok(Parsed(fileName, guid, t))
  }

  /** The text the reader as written hands to `fromisoformat` for a
      timestamp of the scheme: the fraction is cut from the digits and
      the `Z` together. */
  function IsoOf(date: string, time: string, frac: string): string {
    date + "T" + Colons(time) + "." + Slice(frac + "Z", 0, 6) + "+00:00"
  }

  /** The text the corrected reader hands to `fromisoformat`: the first
      six fractional digits only. */
  function FixedIsoOf(date: string, time: string, frac: string): string {
    date + "T" + Colons(time) + "." + Slice(frac, 0, 6) + "+00:00"
  }

  /** What the reader makes of a library result for a given name. */
  function Reading(name: string, guid: string, t: Result<int>): Result<Parsed> {
    match t
    case Ok(v) => Ok(Parsed(name, guid, v))
    case Err(e) => Err(e)
  }

  /** A name written by the capture script, under any directory, reads
      back as its GUID and whatever the library makes of the text the
      conversion as written produces. */
  lemma ReadNameOf(dir: string, prefix: string, guid: string, date: string, time: string, frac: string,
                   suffix: string, seps: set<char>, fromIso: string -> Result<int>)
    requires StampParts(date, time, frac)
    requires |guid| > 0 && forall k :: 0 <= k < |guid| ==> GuidChar(guid[k])
    requires Uuid.Parse(guid).Ok?
    requires dir == [] || (dir[|dir| - 1] in seps && '\n' !in dir[..|dir| - 1])
    requires forall c :: c in FileName(prefix, guid, Stamp(date, time, frac), suffix) ==> c !in seps
    ensures ReadName(dir + FileName(prefix, guid, Stamp(date, time, frac), suffix), prefix, suffix, seps, fromIso)
            == Reading(dir + FileName(prefix, guid, Stamp(date, time, frac), suffix), Uuid.Parse(guid).value,
                       fromIso(IsoOf(date, time, frac)))
  {
    ParseName(dir, prefix, guid, date, time, frac, suffix, seps);
    ConfigStampOf(date, time, frac);
  }

  /** The corrected reader on the same names: the library sees the date,
      the time with colons, six fractional digits at most and the UTC
      offset, so a valid instant of the scheme reads back. */
  lemma FixedReadNameOf(dir: string, prefix: string, guid: string, date: string, time: string, frac: string,
                        suffix: string, seps: set<char>, fromIso: string -> Result<int>)
    requires StampParts(date, time, frac)
    requires |guid| > 0 && forall k :: 0 <= k < |guid| ==> GuidChar(guid[k])
    requires Uuid.Parse(guid).Ok?
    requires dir == [] || (dir[|dir| - 1] in seps && '\n' !in dir[..|dir| - 1])
    requires forall c :: c in FileName(prefix, guid, Stamp(date, time, frac), suffix) ==> c !in seps
    ensures FixedReadName(dir + FileName(prefix, guid, Stamp(date, time, frac), suffix), prefix, suffix, seps, fromIso)
            == Reading(dir + FileName(prefix, guid, Stamp(date, time, frac), suffix), Uuid.Parse(guid).value,
                       fromIso(FixedIsoOf(date, time, frac)))
  {
    ParseName(dir, prefix, guid, date, time, frac, suffix, seps);
    FixedConfigStampOf(date, time, frac);
  }

  /** With six or more fractional digits the `Z` falls outside the cut,
      and the reader as written and the corrected one agree. */
  lemma ReadersAgreeLongFraction(dir: string, prefix: string, guid: string, date: string, time: string,
                                 frac: string, suffix: string, seps: set<char>, fromIso: string -> Result<int>)
    requires StampParts(date, time, frac) && |frac| >= 6
    requires |guid| > 0 && forall k :: 0 <= k < |guid| ==> GuidChar(guid[k])
    requires Uuid.Parse(guid).Ok?
    requires dir == [] || (dir[|dir| - 1] in seps && '\n' !in dir[..|dir| - 1])
    requires forall c :: c in FileName(prefix, guid, Stamp(date, time, frac), suffix) ==> c !in seps
    ensures ReadName(dir + FileName(prefix, guid, Stamp(date, time, frac), suffix), prefix, suffix, seps, fromIso)
            == FixedReadName(dir + FileName(prefix, guid, Stamp(date, time, frac), suffix), prefix, suffix, seps, fromIso)
  {
    ReadNameOf(dir, prefix, guid, date, time, frac, suffix, seps, fromIso);
    FixedReadNameOf(dir, prefix, guid, date, time, frac, suffix, seps, fromIso);
    assert (frac + "Z")[..6] == frac[..6];
    assert IsoOf(date, time, frac) == FixedIsoOf(date, time, frac);
  }

  /** The local reader on a name written by the capture script: the text
      handed to `strptime` is the indexer's conversion of the timestamp. */
  lemma LocalGuidTimestampOf(guid: string, date: string, time: string, frac: string, parse: string -> Result<int>)
    requires StampParts(date, time, frac)
    requires |guid| > 0 && forall k :: 0 <= k < |guid| ==> GuidChar(guid[k])
    requires Uuid.Parse(guid).Ok?
    ensures LocalGuidTimestamp(FileName(WindowsPrefix, guid, Stamp(date, time, frac), "json"), parse)
            == Reading(FileName(WindowsPrefix, guid, Stamp(date, time, frac), "json"), Uuid.Parse(guid).value,
                       parse(Colons(date) + "T" + Colons(time) + "." + Slice(frac, 0, 6) + "Z"))
  {
    var name := FileName(WindowsPrefix, guid, Stamp(date, time, frac), "json");
    ParseName([], WindowsPrefix, guid, date, time, frac, "json", {});
    assert [] + name == name;
    IndexStampOf(date, time, frac);
  }

  // ---------------------------------------------------------------------
  // Choosing a configuration file
  // ---------------------------------------------------------------------

  /** The `(timestamp, filename)` pairs of the candidates, in order; the
      first name that does not read raises its error. */
  function ParseAll(names: seq<string>, parse: string -> Result<Parsed>): (r: Result<seq<Candidate>>)
    ensures r.Ok? <==> forall i :: 0 <= i < |names| ==> parse(names[i]).Ok?
    ensures |names| > 0 && parse(names[0]).Err? ==> r == Err(parse(names[0]).error)
    ensures r.Err? ==> exists i :: 0 <= i < |names| && parse(names[i]) == Err(r.error)
    ensures r.Ok? ==> |r.value| == |names|
    ensures r.Ok? ==> forall i :: 0 <= i < |names| ==>
              r.value[i] == (parse(names[i]).value.instant, parse(names[i]).value.fileName)
    decreases |names|
  {
    if |names| == 0 then Ok([])
    else
      match parse(names[0])
      case Err(e) => Err(e)
      case Ok(p) =>
        var rest := ParseAll(names[1..], parse);
        assert forall i :: 1 <= i < |names| ==> names[i] == names[1..][i - 1];
        match rest
        case Err(e) => Err(e)
        case Ok(cs) => Ok([(p.instant, p.fileName)] + cs)
  }

  /** `os.path.join(config_dir, name)` when a directory is given. */
  function Place(configDir: Option<string>, join: (string, string) -> string, name: string): string {
    if configDir.Some? then join(configDir.value, name) else name
  }

  /** `get_most_recent_config_file`, as written: the candidates of the
      listing (AssertionError when there are none) are read, sorted by
      timestamp, and the FIRST one is taken, which is the earliest. */
  function MostRecentConfigFile(configDir: Option<string>, listing: seq<string>, prefix: string, suffix: string,
                                parse: string -> Result<Parsed>, join: (string, string) -> string): (r: Result<string>)
    ensures |KeepNames(listing, prefix, suffix)| == 0 ==> r == Err(AssertionError)
    ensures r.Ok? ==> ParseAll(KeepNames(listing, prefix, suffix), parse).Ok?
    ensures r.Ok? ==> r.value == Place(configDir, join, Earliest(ParseAll(KeepNames(listing, prefix, suffix), parse).value).1)
  {
    var candidates := KeepNames(listing, prefix, suffix);
    if |candidates| == 0 then Err(AssertionError)
    else
      var files :- ParseAll(candidates, parse);
      SortFirstIsEarliest(files);
      Ok(Place(configDir, join, SortByTime(files)[0].1))
  }

  /** The selection the name promises: the candidate with the greatest
      timestamp. */
  function LatestConfigFile(configDir: Option<string>, listing: seq<string>, prefix: string, suffix: string,
                            parse: string -> Result<Parsed>, join: (string, string) -> string): (r: Result<string>)
    ensures |KeepNames(listing, prefix, suffix)| == 0 ==> r == Err(AssertionError)
    ensures r.Ok? ==> ParseAll(KeepNames(listing, prefix, suffix), parse).Ok?
    ensures r.Ok? ==> var files := ParseAll(KeepNames(listing, prefix, suffix), parse).value;
      (exists i :: 0 <= i < |files| && r.value == Place(configDir, join, files[i].1)
                   && forall j :: 0 <= j < |files| ==> files[j].0 <= files[i].0)
  {
    var candidates := KeepNames(listing, prefix, suffix);
    if |candidates| == 0 then Err(AssertionError)
    else
      var files :- ParseAll(candidates, parse);
      var pick := Latest(files);
      var i :| 0 <= i < |files| && files[i] == pick;
      Ok(Place(configDir, join, pick.1))
  }

  /** The generic reader as `get_most_recent_config_file` calls it. */
  function GenericReader(prefix: string, suffix: string, fromIso: string -> Result<int>): string -> Result<Parsed> {
    x => GetGuidTimestamp(VStr(x), VStr(prefix), suffix, fromIso)
  }

  function MacReader(fromIso: string -> Result<int>): string -> Result<Parsed> {
    x => MacGuidTimestamp(x, fromIso)
  }

  function WindowsReader(fromIso: string -> Result<int>): string -> Result<Parsed> {
    x => WindowsGuidTimestamp(x, fromIso)
  }

  function LocalReader(parse: string -> Result<int>): string -> Result<Parsed> {
    x => LocalGuidTimestamp(x, parse)
  }

  /** `IndalekoMachineConfig.get_most_recent_config_file(config_dir, prefix,
      suffix)`: the configuration directory is always given. */
  function GenericMostRecent(configDir: string, listing: seq<string>, prefix: string, suffix: string,
                             fromIso: string -> Result<int>, join: (string, string) -> string): (r: Result<string>)
    ensures r.Ok? ==> |KeepNames(listing, prefix, suffix)| > 0 && ParseAll(KeepNames(listing, prefix, suffix), GenericReader(prefix, suffix, fromIso)).Ok?
    ensures r.Ok? ==> var files := ParseAll(KeepNames(listing, prefix, suffix), GenericReader(prefix, suffix, fromIso)).value;
      r.value == join(configDir, Earliest(files).1)
  {
    MostRecentConfigFile(Some(configDir), listing, prefix, suffix, GenericReader(prefix, suffix, fromIso), join)
  }

  /** Every name the reader rejects, it rejects with an AssertionError. */
  predicate OnlyAssertionErrors(names: seq<string>, reader: string -> Result<Parsed>) {
    forall x :: x in names && reader(x).Err? ==> reader(x) == Err(AssertionError)
  }

  /** The generic `get_most_recent_config_file` fails whenever a name the
      capture script writes is among the candidates, and with the
      AssertionError of the reader when every candidate is such a name. */
  lemma GenericMostRecentFails(configDir: string, listing: seq<string>, prefix: string, suffix: string,
                               fromIso: string -> Result<int>, join: (string, string) -> string,
                               i: nat, guid: string, date: string, time: string, frac: string)
    requires StampParts(date, time, frac)
    requires |guid| > 0 && forall k :: 0 <= k < |guid| ==> GuidChar(guid[k])
    requires |suffix| > 0
    requires forall c :: c in FileName(prefix, guid, Stamp(date, time, frac), Dotless(suffix)) ==> c != '/'
    requires i < |KeepNames(listing, prefix, suffix)|
    requires KeepNames(listing, prefix, suffix)[i] == FileName(prefix, guid, Stamp(date, time, frac), Dotless(suffix))
    ensures GenericMostRecent(configDir, listing, prefix, suffix, fromIso, join).Err?
    ensures OnlyAssertionErrors(KeepNames(listing, prefix, suffix), GenericReader(prefix, suffix, fromIso))
            ==> GenericMostRecent(configDir, listing, prefix, suffix, fromIso, join) == Err(AssertionError)
  {
    var reader := GenericReader(prefix, suffix, fromIso);
    var candidates := KeepNames(listing, prefix, suffix);
    GenericRejectsSchemeName(prefix, guid, date, time, frac, suffix, fromIso);
    assert reader(candidates[i]).Err?;
    assert ParseAll(candidates, reader).Err?;
  }

  /** The macOS `get_most_recent_config_file`. */
  function MacMostRecent(configDir: Option<string>, listing: seq<string>, fromIso: string -> Result<int>,
                         join: (string, string) -> string): (r: Result<string>)
    ensures r.Ok? ==> |KeepNames(listing, MacPrefix, ".json")| > 0 && ParseAll(KeepNames(listing, MacPrefix, ".json"), MacReader(fromIso)).Ok?
    ensures r.Ok? ==> var files := ParseAll(KeepNames(listing, MacPrefix, ".json"), MacReader(fromIso)).value;
      r.value == Place(configDir, join, Earliest(files).1)
  {
    MostRecentConfigFile(configDir, listing, MacPrefix, ".json", MacReader(fromIso), join)
  }

  /** The Windows `get_most_recent_config_file`. */
  function WindowsMostRecent(configDir: Option<string>, listing: seq<string>, fromIso: string -> Result<int>,
                             join: (string, string) -> string): (r: Result<string>)
    ensures r.Ok? ==> |KeepNames(listing, WindowsPrefix, ".json")| > 0 && ParseAll(KeepNames(listing, WindowsPrefix, ".json"), WindowsReader(fromIso)).Ok?
    ensures r.Ok? ==> var files := ParseAll(KeepNames(listing, WindowsPrefix, ".json"), WindowsReader(fromIso)).value;
      r.value == Place(configDir, join, Earliest(files).1)
  {
    MostRecentConfigFile(configDir, listing, WindowsPrefix, ".json", WindowsReader(fromIso), join)
  }

  /** The indexer script's `get_most_recent_config_file`: the bare name,
      never joined with the directory. */
  function LocalMostRecent(listing: seq<string>, parse: string -> Result<int>): (r: Result<string>)
    ensures r.Ok? ==> |KeepNames(listing, WindowsPrefix, ".json")| > 0 && ParseAll(KeepNames(listing, WindowsPrefix, ".json"), LocalReader(parse)).Ok?
    ensures r.Ok? ==> var files := ParseAll(KeepNames(listing, WindowsPrefix, ".json"), LocalReader(parse)).value;
      r.value == Earliest(files).1
  {
    MostRecentConfigFile(None, listing, WindowsPrefix, ".json", LocalReader(parse), (a, b) => b)
  }

  /** Every name in the listing reads; when two of them carry different
      instants, the file chosen as "most recent" is not the latest one. */
  lemma MostRecentIsNotLatest(configDir: Option<string>, listing: seq<string>, prefix: string, suffix: string,
                              parse: string -> Result<Parsed>, join: (string, string) -> string, i: nat, j: nat)
    requires MostRecentConfigFile(configDir, listing, prefix, suffix, parse, join).Ok?
    requires i < |KeepNames(listing, prefix, suffix)| && j < |KeepNames(listing, prefix, suffix)|
    requires parse(KeepNames(listing, prefix, suffix)[i]).value.instant
             < parse(KeepNames(listing, prefix, suffix)[j]).value.instant
    ensures var files := ParseAll(KeepNames(listing, prefix, suffix), parse).value;
      MostRecentConfigFile(configDir, listing, prefix, suffix, parse, join).value
        == Place(configDir, join, SortByTime(files)[0].1)
      && SortByTime(files)[0].0 < Latest(files).0
  {
    var files := ParseAll(KeepNames(listing, prefix, suffix), parse).value;
    SortFirstIsEarliest(files);
    EarliestNotLatest(files, i, j);
  }

  // ---------------------------------------------------------------------
  // The configuration object's setters
  // ---------------------------------------------------------------------

  /** The attributes of a configuration object the setters touch.
      `machineId` is None until `set_machine_id` runs (the attribute is
      absent), and `record` is the cached record, cleared by
      `set_attributes`. */
  datatype Config = Config(platform: Option<Value>, machineId: Option<Value>,
                           attributes: Value, record: Option<Records.Record>)

  /** `d[k]` is present and is a `str`. */
  predicate StrAt(d: Value, k: string) {
    HasField(d, k) && Get(d.entries, k).value.VStr?
  }

  /** `d[k]` is present and `isinstance(d[k], int)`, which holds for
      `bool` too. */
  predicate IntAt(d: Value, k: string) {
    HasField(d, k) && (Get(d.entries, k).value.VInt? || Get(d.entries, k).value.VBool?)
  }

  /** The platform shape `set_platform` accepts. */
  predicate PlatformShape(p: Value) {
    p.VDict? && HasField(p, "software") && HasField(p, "hardware")
    && var sw := Get(p.entries, "software").value;
       var hw := Get(p.entries, "hardware").value;
       sw.VDict? && StrAt(sw, "OS") && StrAt(sw, "Version") && StrAt(sw, "Architecture")
       && hw.VDict? && StrAt(hw, "CPU") && StrAt(hw, "Version") && IntAt(hw, "Cores")
  }

  /** One `assert isinstance(d[k], T)`: a missing key is the KeyError of
      the subscript, a value of another type an AssertionError. */
  function FieldCheck(d: Value, k: string, ok: Value -> bool): (r: Result<()>)
    requires d.VDict?
    ensures r.Ok? <==> HasField(d, k) && ok(Get(d.entries, k).value)
    ensures r.Err? ==> r.error == (if HasField(d, k) then AssertionError else KeyError)
  {
    var v :- Field(d, k);
    Need(ok(v))
  }

  function IsStr(v: Value): bool { v.VStr? }

  function IsInt(v: Value): bool { v.VInt? || v.VBool? }

  /** `set_platform(platform_data)`, its assertions in source order. */
  function SetPlatform(c: Config, p: Value): (r: Result<Config>)
    ensures r.Ok? <==> PlatformShape(p)
    ensures r.Ok? ==> r.value == c.(platform := Some(p))
    ensures r.Err? ==> r.error == AssertionError || r.error == KeyError
  {
    var _ :- Need(p.VDict?);
    var _ :- Need(HasField(p, "software"));
    var sw := Get(p.entries, "software").value;
    var _ :- Need(sw.VDict?);
    var _ :- FieldCheck(sw, "OS", IsStr);
    var _ :- FieldCheck(sw, "Version", IsStr);
    var _ :- FieldCheck(sw, "Architecture", IsStr);
    var _ :- Need(HasField(p, "hardware"));
    var hw := Get(p.entries, "hardware").value;
    var _ :- Need(hw.VDict?);
    var _ :- FieldCheck(hw, "CPU", IsStr);
    var _ :- FieldCheck(hw, "Version", IsStr);
    var _ :- FieldCheck(hw, "Cores", IsInt);
    Ok(c.(platform := Some(p)))
  }

  /** A dictionary platform whose `software` dictionary lacks `OS` raises
      KeyError, not AssertionError. */
  lemma SetPlatformMissingOS(c: Config, p: Value)
    requires p.VDict? && HasField(p, "software")
    requires Get(p.entries, "software").value.VDict?
    requires !HasField(Get(p.entries, "software").value, "OS")
    ensures SetPlatform(c, p) == Err(KeyError)
  {
  }

  /** `set_machine_id(machine_id)`: a `str` must be a valid UUID string
      (AssertionError), a `uuid.UUID` is stored as its `str`, and anything
      else is stored as given. */
  function SetMachineId(c: Config, v: Value): (r: Result<Config>)
    ensures r.Err? <==> v.VStr? && !Uuid.ValidString(v)
    ensures r.Err? ==> r.error == AssertionError
    ensures r.Ok? ==> r.value.platform == c.platform && r.value.attributes == c.attributes
                      && r.value.record == c.record
  {
    if v.VStr? && !Uuid.ValidString(v) then Err(AssertionError)
    else Ok(c.(machineId := Some(if v.VUuid? then VStr(v.text) else v)))
  }

  /** `get_machine_id()`: None while the attribute is absent. */
  function GetMachineId(c: Config): (r: Value)
    ensures c.machineId.None? ==> r == VNone
  {
    if c.machineId.Some? then c.machineId.value else VNone
  }

  /** What is set is what is read back; a `uuid.UUID` reads back as its
      string form, which is a valid UUID string. */
  lemma MachineIdRoundTrip(c: Config, v: Value)
    requires SetMachineId(c, v).Ok?
    ensures GetMachineId(SetMachineId(c, v).value) == if v.VUuid? then VStr(v.text) else v
    ensures v.VStr? ==> Uuid.ValidString(GetMachineId(SetMachineId(c, v).value))
  {
  }

  /** `set_attributes(attributes)`: only a dictionary replaces the
      attributes, and the cached record is dropped either way. */
  function SetAttributes(c: Config, v: Value): (r: Config)
    ensures r.record.None?
    ensures r.attributes == if v.VDict? then v else c.attributes
    ensures r.platform == c.platform && r.machineId == c.machineId
  {
    Config(c.platform, c.machineId, if v.VDict? then v else c.attributes, None)
  }

  // ---------------------------------------------------------------------
  // Volumes
  // ---------------------------------------------------------------------

  const DevPrefix: string := "/dev/"

  /** The macOS `__find_volume_guid__`: a `str` under `/dev/`, and the
      name after it. */
  function MacVolumeGuid(vol: Value): (r: Result<string>)
    ensures r.Ok? <==> vol.VStr? && StartsWith(vol.s, DevPrefix)
    ensures r.Ok? ==> DevPrefix + r.value == vol.s
    ensures r.Err? ==> r.error == AssertionError
  {
    if vol.VNone? then Err(AssertionError)
    else if !vol.VStr? then Err(AssertionError)
    else if !StartsWith(vol.s, DevPrefix) then Err(AssertionError)
    else
      assert vol.s == vol.s[..5] + vol.s[5..];
      Ok(vol.s[5..])
  }

  /** The Windows `__find_volume_guid__`: a `str` starting `\\?\Volume{`,
      and `vol_name[11:-2]`, what lies between the prefix and the last two
      characters. */
  function WindowsVolumeGuid(vol: Value): (r: Result<string>)
    ensures r.Ok? <==> vol.VStr? && StartsWith(vol.s, Normalize.VolumePrefix)
    ensures r.Ok? && |vol.s| >= 13 ==> Normalize.VolumePrefix + r.value + vol.s[|vol.s| - 2..] == vol.s
    ensures r.Ok? && |vol.s| < 13 ==> r.value == []
    ensures r.Err? ==> r.error == AssertionError
  {
    if vol.VNone? then Err(AssertionError)
    else if !vol.VStr? then Err(AssertionError)
    else if !StartsWith(vol.s, Normalize.VolumePrefix) then Err(AssertionError)
    else
      var s := vol.s;
      if |s| >= 13 then
        assert s == s[..11] + s[11..|s| - 2] + s[|s| - 2..];
        Ok(s[11..|s| - 2])
      else Ok(Slice(s, 11, -2))
  }

  /** The GUID of a volume path `\\?\Volume{g}\` is `g`. */
  lemma WindowsVolumeGuidOf(g: string)
    ensures WindowsVolumeGuid(VStr(Normalize.VolumePrefix + g + "}\\")) == Ok(g)
  {
    var s := Normalize.VolumePrefix + g + "}\\";
    assert s[..11] == Normalize.VolumePrefix;
    assert s[11..|s| - 2] == g;
  }

  /** A drive of a configuration: its attribute dictionary, with `GUID`
      added, and the machine it belongs to. */
  datatype Drive = Drive(machineId: string, attributes: Dict<Value>)

  /** The checks both drive constructors make: no `GUID` yet, a
      `UniqueId` (AssertionError otherwise), and a `str` one (a value
      without `startswith` is an AttributeError) with the given prefix
      (AssertionError).  Python raises TypeError instead for a `bytes`
      UniqueId, whose `startswith` rejects a `str` prefix; the drive data
      comes from JSON, which holds no `bytes`, so the model does not
      separate that case. */
  function UniqueIdWith(d: Dict<Value>, prefix: string): (r: Result<string>)
    ensures r.Ok? <==> "GUID" !in Keys(d) && "UniqueId" in Keys(d)
                       && Get(d, "UniqueId").value.VStr? && StartsWith(Get(d, "UniqueId").value.s, prefix)
    ensures r.Ok? ==> Get(d, "UniqueId") == Some(VStr(r.value))
  {
    var _ :- Need("GUID" !in Keys(d));
    var _ :- Need("UniqueId" in Keys(d));
    var u := Get(d, "UniqueId").value;
    if !u.VStr? then Err(AttributeError)
    else if !StartsWith(u.s, prefix) then Err(AssertionError)
    else Ok(u.s)
  }

  /** `MacOSDriveInfo(machine_id, drive_data, captured)`: `GUID` becomes
      the name under `/dev/`. */
  function MacDriveInfo(machineId: string, d: Dict<Value>): (r: Result<Drive>)
    ensures r.Ok? <==> UniqueIdWith(d, DevPrefix).Ok?
    ensures r.Ok? ==> Get(r.value.attributes, "GUID") == Some(VStr(UniqueIdWith(d, DevPrefix).value[5..]))
    ensures r.Ok? ==> forall k :: k != "GUID" ==> Get(r.value.attributes, k) == Get(d, k)
    ensures r.Ok? ==> r.value.machineId == machineId
  {
    var u :- UniqueIdWith(d, DevPrefix);
    var g := MacVolumeGuid(VStr(u)).value;
    SetGets(d, "GUID", VStr(g));
    Ok(Drive(machineId, Set(d, "GUID", VStr(g))))
  }

  /** `WindowsDriveInfo(drive_data)`: `GUID` becomes `UniqueId[11:-2]`;
      the record's source is the drive-info class's own. */
  function WindowsDriveInfo(d: Dict<Value>): (r: Result<Drive>)
    ensures r.Ok? <==> UniqueIdWith(d, Normalize.VolumePrefix).Ok?
    ensures r.Ok? ==> Get(r.value.attributes, "GUID")
                      == Some(VStr(Slice(UniqueIdWith(d, Normalize.VolumePrefix).value, 11, -2)))
    ensures r.Ok? ==> forall k :: k != "GUID" ==> Get(r.value.attributes, k) == Get(d, k)
  {
    var u :- UniqueIdWith(d, Normalize.VolumePrefix);
    var g := WindowsVolumeGuid(VStr(u)).value;
    SetGets(d, "GUID", VStr(g));
    assert g == Slice(u, 11, -2);
    Ok(Drive("", Set(d, "GUID", VStr(g))))
  }

  /** Every key but the one assigned reads as before. */
  lemma SetGets(d: Dict<Value>, k: string, v: Value)
    ensures Get(Set(d, k, v), k) == Some(v)
    ensures forall j :: j != k ==> Get(Set(d, k, v), j) == Get(d, j)
  {
    SetGet(d, k, v, k);
    forall j | j != k
      ensures Get(Set(d, k, v), j) == Get(d, j)
    {
      SetGet(d, k, v, j);
    }
  }

  /** `get_vol_guid()`: the drive's `GUID` attribute. */
  function VolGuid(dr: Drive): (r: Result<Value>)
    ensures r.Ok? <==> "GUID" in Keys(dr.attributes)
  {
    At(dr.attributes, "GUID")
  }

  /** The macOS `serialize`: the data model's dictionary of the drive
      (given here as `base`) with `MachineId` and `_key`, the volume
      GUID, assigned in that order. */
  function MacSerialize(dr: Drive, base: Dict<Value>): (r: Result<Dict<Value>>)
    ensures r.Ok? <==> "GUID" in Keys(dr.attributes)
    ensures r.Ok? ==> Get(r.value, "_key") == Get(dr.attributes, "GUID")
    ensures r.Ok? ==> Get(r.value, "MachineId") == Some(VStr(dr.machineId))
    ensures r.Ok? ==> forall k :: k != "_key" && k != "MachineId" ==> Get(r.value, k) == Get(base, k)
  {
    var withId := Set(base, "MachineId", VStr(dr.machineId));
    var g :- VolGuid(dr);
    SetGets(base, "MachineId", VStr(dr.machineId));
    SetGets(withId, "_key", g);
    Ok(Set(withId, "_key", g))
  }

  /** The macOS `map_drive_letter_to_volume_guid`: macOS has no drive
      letters, so no letter has a volume. */
  function MacMapDriveLetter(letter: string): (r: Option<string>)
    ensures r.None?
  {
    None
  }

  /** `extract_volume_info`: each entry of `VolumeInfo` is made a drive
      (its error propagates), and drives are keyed by GUID; a GUID seen
      before fails the assertion.  `table` is the table built so far. */
  function ExtractVolumes(volumes: seq<Dict<Value>>, make: Dict<Value> -> Result<Drive>,
                          table: Dict<Drive>): (r: Result<Dict<Drive>>)
    ensures r.Ok? ==> |r.value| == |table| + |volumes|
    ensures r.Ok? && WellFormed(table) ==> WellFormed(r.value)
    decreases |volumes|
  {
    if |volumes| == 0 then Ok(table)
    else
      var dr :- make(volumes[0]);
      var g :- VolGuid(dr);
      if !g.VStr? then Err(TypeError)
      else if g.s in Keys(table) then Err(AssertionError)
      else
        assert Keys(table + [(g.s, dr)]) == Keys(table) + [g.s];
        assert WellFormed(table) ==> WellFormed(table + [(g.s, dr)]) by {
          if WellFormed(table) {
            DistinctSnoc(Keys(table), g.s);
          }
        }
        ExtractVolumes(volumes[1..], make, table + [(g.s, dr)])
  }

  /** Appending a new key keeps keys distinct. */
  lemma DistinctSnoc(ks: seq<string>, k: string)
    requires Distinct(ks) && k !in ks
    ensures Distinct(ks + [k])
  {
  }

  /** The GUIDs the drives of a volume list would get, when all of them
      can be made. */
  function Guids(volumes: seq<Dict<Value>>, make: Dict<Value> -> Result<Drive>): (r: Option<seq<string>>)
    ensures r.Some? ==> |r.value| == |volumes|
    decreases |volumes|
  {
    if |volumes| == 0 then Some([])
    else
      match make(volumes[0])
      case Err(_) => None
      case Ok(dr) =>
        var g := Get(dr.attributes, "GUID");
        if g.None? || !g.value.VStr? then None
        else
          match Guids(volumes[1..], make)
          case Some(rest) => Some([g.value.s] + rest)
          case None => None
  }

  /** The table is built exactly when every drive can be made and their
      GUIDs are pairwise distinct; its keys are then those GUIDs in
      order. */
  lemma {:induction false} ExtractVolumesOk(volumes: seq<Dict<Value>>, make: Dict<Value> -> Result<Drive>,
                                            table: Dict<Drive>)
    requires WellFormed(table)
    ensures ExtractVolumes(volumes, make, table).Ok?
            <==> Guids(volumes, make).Some? && Distinct(Keys(table) + Guids(volumes, make).value)
    ensures ExtractVolumes(volumes, make, table).Ok?
            ==> Keys(ExtractVolumes(volumes, make, table).value) == Keys(table) + Guids(volumes, make).value
    decreases |volumes|
  {
    if |volumes| == 0 {
      assert Keys(table) + [] == Keys(table);
    } else {
      var m := make(volumes[0]);
      if m.Ok? && Get(m.value.attributes, "GUID").Some? && Get(m.value.attributes, "GUID").value.VStr? {
        var g := Get(m.value.attributes, "GUID").value.s;
        var t2 := table + [(g, m.value)];
        assert Keys(t2) == Keys(table) + [g];
        if g in Keys(table) {
          if Guids(volumes, make).Some? {
            var gs := Guids(volumes, make).value;
            assert gs[0] == g;
            var ks := Keys(table) + gs;
            var i :| 0 <= i < |Keys(table)| && Keys(table)[i] == g;
            assert ks[i] == ks[|Keys(table)|];
          }
        } else {
          DistinctSnoc(Keys(table), g);
          ExtractVolumesOk(volumes[1..], make, t2);
          if Guids(volumes[1..], make).Some? {
            var rest := Guids(volumes[1..], make).value;
            assert Keys(table) + ([g] + rest) == Keys(t2) + rest;
          }
        }
      }
    }
  }

  /** The macOS `extract_volume_info`. */
  function MacExtractVolumes(machineId: string, volumes: seq<Dict<Value>>): (r: Result<Dict<Drive>>)
    ensures r.Ok? ==> WellFormed(r.value) && |r.value| == |volumes|
  {
    ExtractVolumes(volumes, d => MacDriveInfo(machineId, d), [])
  }

  /** The Windows `extract_volume_info`. */
  function WindowsExtractVolumes(volumes: seq<Dict<Value>>): (r: Result<Dict<Drive>>)
    ensures r.Ok? ==> WellFormed(r.value) && |r.value| == |volumes|
  {
    ExtractVolumes(volumes, WindowsDriveInfo, [])
  }
}
