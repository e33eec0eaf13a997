/** The shared part of every indexer: the constructor's defaults, the
    filter of `find_indexer_files`, and the layout of the output file
    name from `generate_index_file_name`.  Directory tests, the listing,
    `os.path.join`, the home directory and the current time are
    parameters.
 */
module Indexer {

  import opened Errors
  import opened Dicts
  import opened Values
  import opened PyStr
  import Uuid
  import MachineConfig
  import Ingester

  const DefaultPrefix: string := "indaleko"
  const DefaultSuffix: string := ".jsonl"

  /** The file-system facts and defaults an indexer reads: `os.path.isdir`,
      `os.path.join`, the default data, config and log directories, the
      home directory and the current time. */
  datatype Env = Env(
    isDir: Value -> bool,
    join: (Value, string) -> string,
    dataDir: Value,
    configDir: Value,
    logDir: Value,
    home: string,
    now: string)

  /** An indexer's attributes; the optional ones are the attributes
      `hasattr` may not find. */
  datatype Indexer = Indexer(
    filePrefix: string,
    fileSuffix: string,
    dataDir: Value,
    configDir: Value,
    logDir: Value,
    timestamp: Value,
    platform: Option<Value>,
    indexer: Option<Value>,
    machineId: Option<Value>,
    storage: Option<Value>,
    path: Value)

  /** `IndalekoIndexer.__init__`: the prefix and suffix get `-` replaced by
      `_` (a `bytes` value is a TypeError, any other non-`str` an
      AttributeError); the data
      directory must exist (AssertionError); platform, indexer, machine id
      and storage description are set only when given. */
  function NewIndexer(kwargs: Dict<Value>, env: Env): (r: Result<Indexer>)
    ensures r.Ok? ==> '-' !in r.value.filePrefix && '-' !in r.value.fileSuffix
    ensures r.Ok? ==> GetOr(kwargs, "file_prefix", VStr(DefaultPrefix)).VStr?
                      && r.value.filePrefix == Ingester.Underscored(GetOr(kwargs, "file_prefix", VStr(DefaultPrefix)).s)
    ensures r.Ok? ==> GetOr(kwargs, "file_suffix", VStr(DefaultSuffix)).VStr?
                      && r.value.fileSuffix == Ingester.Underscored(GetOr(kwargs, "file_suffix", VStr(DefaultSuffix)).s)
    ensures !GetOr(kwargs, "file_prefix", VStr(DefaultPrefix)).VStr? ==> r.Err?
    ensures GetOr(kwargs, "file_prefix", VStr(DefaultPrefix)).VStr? && !GetOr(kwargs, "file_suffix", VStr(DefaultSuffix)).VStr?
            ==> r.Err?
    ensures r.Ok? ==> env.isDir(r.value.dataDir)
    ensures r.Ok? ==> r.value.dataDir == GetOr(kwargs, "data_dir", env.dataDir)
    ensures r.Ok? ==> r.value.configDir == GetOr(kwargs, "config_dir", env.configDir)
                      && r.value.logDir == GetOr(kwargs, "log_dir", env.logDir)
                      && r.value.path == GetOr(kwargs, "path", VStr(env.home))
    ensures r.Ok? ==> r.value.timestamp == GetOr(kwargs, "timestamp", VStr(env.now))
    ensures r.Ok? ==> r.value.platform == Get(kwargs, "platform") && r.value.indexer == Get(kwargs, "indexer")
                      && r.value.machineId == Get(kwargs, "machine_id")
                      && r.value.storage == Get(kwargs, "storage_description")
    ensures GetOr(kwargs, "file_prefix", VStr(DefaultPrefix)).VStr?
            && GetOr(kwargs, "file_suffix", VStr(DefaultSuffix)).VStr?
            ==> (r.Ok? <==> env.isDir(GetOr(kwargs, "data_dir", env.dataDir)))
  {
    var prefix :- Ingester.UnderscoredValue(GetOr(kwargs, "file_prefix", VStr(DefaultPrefix)));
    var suffix :- Ingester.UnderscoredValue(GetOr(kwargs, "file_suffix", VStr(DefaultSuffix)));
    var data := GetOr(kwargs, "data_dir", env.dataDir);
    var _ :- Need(env.isDir(data));
    Ok(Indexer(prefix, suffix, data,
               GetOr(kwargs, "config_dir", env.configDir),
               GetOr(kwargs, "log_dir", env.logDir),
               GetOr(kwargs, "timestamp", VStr(env.now)),
               Get(kwargs, "platform"), Get(kwargs, "indexer"),
               Get(kwargs, "machine_id"), Get(kwargs, "storage_description"),
               GetOr(kwargs, "path", VStr(env.home))))
  }

  /** `find_indexer_files(search_dir, prefix, suffix)` over the names
      `os.listdir` returns: the directory must be given and exist, and the
      prefix and suffix must be given (AssertionError); the names with
      both are kept, in listing order. */
  function FindIndexerFiles(env: Env, searchDir: Value, prefix: Option<string>, suffix: Option<string>,
                            listing: seq<string>): (r: Result<seq<string>>)
    ensures r.Ok? <==> searchDir != VNone && env.isDir(searchDir) && prefix.Some? && suffix.Some?
    ensures r.Err? ==> r.error == AssertionError
    ensures r.Ok? ==> forall x :: x in r.value <==> (x in listing && StartsWith(x, prefix.value)
                                                     && EndsWith(x, suffix.value))
  {
    var _ :- Need(searchDir != VNone);
    var _ :- Need(env.isDir(searchDir));
    var _ :- Need(prefix.Some?);
    var _ :- Need(suffix.Some?);
    Ok(MachineConfig.KeepNames(listing, prefix.value, suffix.value))
  }

  const PlatformTag: string := "-platform="
  const IndexerTag: string := "-indexer="
  const MachineTag: string := "-machine="
  const StorageTag: string := "-storage="
  const TimestampTag: string := "-timestamp="

  /** The parts of an index file name, each already normalised. */
  datatype NameParts = NameParts(platform: string, indexer: string, machine: string, storage: string, timestamp: string)

  /** `prefix-platform=…-indexer=…-machine=…-storage=…-timestamp=…suffix`. */
  function Layout(prefix: string, p: NameParts, suffix: string): string {
    prefix + Middle(p) + suffix
  }

  /** The tagged parts between the prefix and the suffix. */
  function Middle(p: NameParts): string {
    PlatformTag + p.platform + IndexerTag + p.indexer + MachineTag + p.machine
    + StorageTag + p.storage + TimestampTag + p.timestamp
  }

  /** An optional attribute as a `str` with `-` replaced by `_`, or its
      default (which holds no `-`) when absent.  A `bytes` attribute
      refuses the `str` arguments of `replace` (TypeError); any other
      non-`str` has no `replace` (AttributeError). */
  function NormalizedAttr(v: Option<Value>, default: string): (r: Result<string>)
    requires '-' !in default
    ensures v.None? ==> r == Ok(default)
    ensures v.Some? ==> (r.Ok? <==> v.value.VStr?)
    ensures v.Some? && r.Ok? ==> r.value == Ingester.Underscored(v.value.s)
    ensures r.Ok? ==> '-' !in r.value
    ensures r.Err? ==> (r.error == TypeError <==> v.value.VBytes?) && (r.error == AttributeError <==> !v.value.VBytes?)
  {
    match v
    case None => Ok(default)
    case Some(x) =>
      var s :- AsReplaceable(x);
      Ok(Ingester.Underscored(s))
  }

  /** The parts `generate_index_file_name` uses: each attribute or its
      `unknown_…` default with `-` replaced by `_`, and the timestamp
      with `:` replaced by `-`. */
  function Parts(ix: Indexer): (r: Result<NameParts>)
    ensures r.Ok? <==> (ix.platform.None? || ix.platform.value.VStr?) && (ix.indexer.None? || ix.indexer.value.VStr?)
                       && (ix.machineId.None? || ix.machineId.value.VStr?) && (ix.storage.None? || ix.storage.value.VStr?)
                       && ix.timestamp.VStr?
    ensures r.Ok? ==> '-' !in r.value.platform && '-' !in r.value.indexer
                      && '-' !in r.value.machine && '-' !in r.value.storage
    ensures r.Ok? ==> ':' !in r.value.timestamp
    ensures r.Ok? && ix.platform.None? ==> r.value.platform == "unknown_platform"
    ensures r.Ok? && ix.indexer.None? ==> r.value.indexer == "unknown_indexer"
    ensures r.Ok? && ix.machineId.None? ==> r.value.machine == "unknown_machine_id"
    ensures r.Ok? && ix.storage.None? ==> r.value.storage == "unknown_storage_description"
  {
    var platform :- NormalizedAttr(ix.platform, "unknown_platform");
    var indexer :- NormalizedAttr(ix.indexer, "unknown_indexer");
    var machine :- NormalizedAttr(ix.machineId, "unknown_machine_id");
    var storage :- NormalizedAttr(ix.storage, "unknown_storage_description");
    var timestamp :- AsReplaceable(ix.timestamp);
    forall d | d in Replace(timestamp, ":", "-") ensures d != ':' {
      ReplaceCharChars(timestamp, ':', "-", d);
    }
    Ok(NameParts(platform, indexer, machine, storage, Replace(timestamp, ":", "-")))
  }

  /** The file-name part of `generate_index_file_name`: the layout with
      every space removed. */
  function IndexName(ix: Indexer): (r: Result<string>)
    ensures r.Ok? <==> Parts(ix).Ok?
    ensures r.Ok? ==> ' ' !in r.value
  {
    var p :- Parts(ix);
    Ok(RemoveChar(Layout(ix.filePrefix, p, ix.fileSuffix), ' '))
  }

  /** `generate_index_file_name(target_dir)`: the name joined to the target
      directory, the data directory by default. */
  function GenerateIndexFileName(ix: Indexer, env: Env, targetDir: Option<Value>): (r: Result<string>)
    ensures r.Ok? <==> Parts(ix).Ok?
    ensures r.Ok? && targetDir.None? ==> r.value == env.join(ix.dataDir, IndexName(ix).value)
  {
    var name :- IndexName(ix);
    var dir := if targetDir.Some? then targetDir.value else ix.dataDir;
    Ok(env.join(dir, name))
  }

  lemma TagsHaveNoSpace()
    ensures ' ' !in PlatformTag && ' ' !in IndexerTag && ' ' !in MachineTag
    ensures ' ' !in StorageTag && ' ' !in TimestampTag
  {
  }

  /** With parts free of spaces, the name is the layout itself. */
  lemma IndexNamePlain(ix: Indexer)
    requires Parts(ix).Ok?
    requires ' ' !in ix.filePrefix && ' ' !in ix.fileSuffix
    requires var p := Parts(ix).value;
      ' ' !in p.platform && ' ' !in p.indexer && ' ' !in p.machine && ' ' !in p.storage && ' ' !in p.timestamp
    ensures IndexName(ix) == Ok(Layout(ix.filePrefix, Parts(ix).value, ix.fileSuffix))
  {
    TagsHaveNoSpace();
    Uuid.RemoveCharAbsent(Layout(ix.filePrefix, Parts(ix).value, ix.fileSuffix), ' ');
  }

  /** The names an indexer generates are the names `find_indexer_files`
      keeps for its own prefix and suffix, when those hold no space. */
  lemma GeneratedNameIsFound(ix: Indexer, env: Env, searchDir: Value, listing: seq<string>)
    requires Parts(ix).Ok?
    requires ' ' !in ix.filePrefix && ' ' !in ix.fileSuffix
    requires searchDir != VNone && env.isDir(searchDir)
    requires IndexName(ix).value in listing
    ensures IndexName(ix).value in FindIndexerFiles(env, searchDir, Some(ix.filePrefix), Some(ix.fileSuffix), listing).value
  {
    var mid := Middle(Parts(ix).value);
    var a, b := ix.filePrefix, ix.fileSuffix;
    Uuid.RemoveCharConcat(a + mid, b, ' ');
    Uuid.RemoveCharConcat(a, mid, ' ');
    Uuid.RemoveCharAbsent(a, ' ');
    Uuid.RemoveCharAbsent(b, ' ');
    var name := a + RemoveChar(mid, ' ') + b;
    assert IndexName(ix).value == name;
    assert name[..|a|] == a;
    assert name[|name| - |b|..] == b;
  }
}
