/** `normalize_index_data` of the four ingesters: one indexer entry becomes
    the keyword arguments of an `IndalekoObject`, and then the object.  The
    keyword arguments are built first (`...Kwargs`), so that what each
    ingester puts under each key can be stated on its own; the object is
    then `Objects.NewObject` of them.
 */
module Normalize {

  import opened Errors
  import opened Dicts
  import opened Values
  import opened PyStr
  import opened Records
  import opened Objects
  import FileAttributes

  /** Library calls normalisation makes, as given functions. */
  datatype Env = Env(
    enc: Encoder,                      // `msgpack.packb` and base64
    jsonBytes: Value -> seq<int>,      // `json.dumps(v).encode('utf-8')` of a serialisable value
    encodeBinary: seq<int> -> Value,   // `Indaleko.encode_binary_data`
    isoTime: Value -> Result<string>)  // `datetime.fromtimestamp(v, timezone.utc).isoformat()`

  const DropboxIngesterId: string := "389ce9e0-3924-4cd1-be8d-5dc4b268e668"
  const ICloudIngesterId: string := "c2b887b3-2a2f-4fbf-83dd-062743f31477"
  const MacLocalIngesterId: string := "07670255-1e82-4079-ad6f-f2bb39f44f8f"
  const WindowsLocalIngesterId: string := "429f1f3c-7a21-463f-b7aa-cd731bb202b1"

  /** The `self.source` every ingester builds: its identifier and version
      "1.0". */
  function IngesterSource(id: string): (r: Value)
    ensures HasSourceFields(r)
    ensures Get(r.entries, "Identifier") == Some(VStr(id))
  {
    var r := VDict([("Identifier", VStr(id)), ("Version", VStr("1.0"))]);
    assert Keys(r.entries) == ["Identifier", "Version"];
    r
  }

  /** One entry of the `Timestamps` list. */
  function TimestampEntry(meaning: string, value: Value, description: string): Value {
    VDict([("Label", VStr(meaning)), ("Value", value), ("Description", VStr(description))])
  }

  /** `json.dumps(v).encode('utf-8')`: TypeError for bytes and UUID objects. */
  function JsonDumps(v: Value, env: Env): (r: Result<seq<int>>)
    ensures r.Ok? <==> JsonSerializable(v)
    ensures r.Err? ==> r.error == TypeError
  {
    if JsonSerializable(v) then Ok(env.jsonBytes(v)) else Err(TypeError)
  }

  /** `if 'user_id' not in data: data['user_id'] = self.user_id`. */
  function FillUserId(d: Dict<Value>, userId: Value): (r: Dict<Value>)
    ensures "user_id" in Keys(r)
    ensures "user_id" in Keys(d) ==> r == d
    ensures Keys(d) <= Keys(r)
  {
    if "user_id" in Keys(d) then d else Set(d, "user_id", userId)
  }

  /** The user id is filled only when missing, and nothing else changes. */
  lemma FillUserIdGet(d: Dict<Value>, userId: Value, k: string)
    ensures Get(FillUserId(d, userId), k) ==
      if k == "user_id" && "user_id" !in Keys(d) then Some(userId) else Get(d, k)
  {
    if "user_id" !in Keys(d) {
      SetGet(d, "user_id", userId, k);
    }
  }

  // ---------------------------------------------------------------------
  // Cloud ingesters (Dropbox, iCloud)
  // ---------------------------------------------------------------------

  /** A cloud file's two timestamps: client-modified, then server-modified. */
  function FileTimestamps(clientModified: Value, serverModified: Value): seq<Value> {
    [TimestampEntry(ModificationTimestamp, clientModified, "Client Modified"),
     TimestampEntry(ChangeTimestamp, serverModified, "Server Modified")]
  }

  /** The `Timestamps` and `Size` of a cloud entry: for a file, the client
      and server modification times (in that order) and its size, each a
      KeyError when missing; otherwise none and 0. */
  function CloudTiming(d: Dict<Value>): (r: Result<(seq<Value>, Value)>)
    ensures "FileMetadata" !in Keys(d) ==> r == Ok(([], VInt(0)))
    ensures "FileMetadata" in Keys(d) ==>
      (r.Ok? <==> "client_modified" in Keys(d) && "server_modified" in Keys(d) && "size" in Keys(d))
    ensures "FileMetadata" in Keys(d) && r.Ok? ==>
      r.value == (FileTimestamps(Get(d, "client_modified").value, Get(d, "server_modified").value),
                  Get(d, "size").value)
    ensures r.Err? ==> r.error == KeyError
  {
    if "FileMetadata" in Keys(d) then
      var cm :- At(d, "client_modified");
      var sm :- At(d, "server_modified");
      var size :- At(d, "size");
      Ok((FileTimestamps(cm, sm), size))
    else Ok(([], VInt(0)))
  }

  /** The Unix and Windows attribute codes: `FileMetadata` gives a regular
      file, which overrides `FolderMetadata`'s directory; with neither the
      local variable is unbound. */
  function CloudCodes(d: Dict<Value>): (r: Result<(int, int)>)
    ensures r.Ok? <==> "FileMetadata" in Keys(d) || "FolderMetadata" in Keys(d)
    ensures r.Err? ==> r.error == UnboundLocalError
    ensures r.Ok? ==> r.value == if "FileMetadata" in Keys(d) then (0x8000, 0x80) else (0x4000, 0x10)
  {
    if "FileMetadata" in Keys(d) then Ok((0x8000, 0x80))
    else if "FolderMetadata" in Keys(d) then Ok((0x4000, 0x10))
    else Err(UnboundLocalError)
  }

  /** The checks every cloud entry passes first. */
  function CloudEntry(data: Value, userId: Value): (r: Result<Dict<Value>>)
    ensures r.Ok? <==> HasField(data, "ObjectIdentifier")
    ensures r.Err? ==> r.error == ValueError
    ensures r.Ok? ==> "user_id" in Keys(r.value) && "ObjectIdentifier" in Keys(r.value)
  {
    if data.VNone? then Err(ValueError)
    else if !data.VDict? then Err(ValueError)
    else if !HasField(data, "ObjectIdentifier") then Err(ValueError)
    else Ok(FillUserId(data.entries, userId))
  }

  const DropboxHome: string := "https://www.dropbox.com/home"

  /** The keyword arguments of the Dropbox ingester, with its raw data. */
  function DropboxKwargs(userId: Value, data: Value, env: Env): (r: Result<(Dict<Value>, Value)>)
    ensures r.Ok? ==> HasField(data, "ObjectIdentifier")
    ensures r.Ok? ==> WellFormed(r.value.0)
  {
    var d :- CloudEntry(data, userId);
    var timing :- CloudTiming(d);
    var json :- JsonDumps(VDict(d), env);
    var pd :- At(d, "path_display");
    var path :- AsStr(pd, TypeError);
    var codes :- CloudCodes(d);
    var kw := DropboxArgs(d, pd, timing, codes);
    Ok((kw, env.encodeBinary(json)))
  }

  const DropboxKeys: seq<string> := [
    "URI", "Path", "ObjectIdentifier", "Timestamps", "Size", "Attributes",
    "UnixFileAttributes", "WindowsFileAttributes"
  ]

  lemma DropboxKeysDistinct()
    ensures Distinct(DropboxKeys)
  {
  }

  /** The Dropbox keys hold the four required names and none reserved. */
  lemma DropboxKeysAccepted(kw: Dict<Value>)
    requires Keys(kw) == DropboxKeys
    ensures HasRequiredArgs(kw) && NoReservedArgs(kw)
  {
    assert Keys(kw)[0] == "URI" && Keys(kw)[2] == "ObjectIdentifier";
    assert Keys(kw)[3] == "Timestamps" && Keys(kw)[4] == "Size";
    assert "source" !in Keys(kw);
    assert "_key" !in Keys(kw);
    assert "Data" !in Keys(kw);
  }

  /** The Dropbox keyword arguments, key by key, from the pieces read out of
      the entry. */
  function DropboxArgs(d: Dict<Value>, pd: Value, timing: (seq<Value>, Value), codes: (int, int)): (kw: Dict<Value>)
    requires pd.VStr? && "ObjectIdentifier" in Keys(d)
    ensures Keys(kw) == DropboxKeys && WellFormed(kw)
    ensures Get(kw, "URI") == Some(VStr(DropboxHome + pd.s))
    ensures Get(kw, "Path") == Some(pd)
    ensures Get(kw, "ObjectIdentifier") == Get(d, "ObjectIdentifier")
    ensures Get(kw, "Timestamps") == Some(VList(timing.0))
    ensures Get(kw, "Size") == Some(timing.1)
    ensures Get(kw, "Attributes") == Some(VDict(d))
    ensures Get(kw, "UnixFileAttributes") == Some(VStr(FileAttributes.MapUnix(codes.0)))
    ensures Get(kw, "WindowsFileAttributes") == Some(VStr(FileAttributes.MapWindows(codes.1)))
  {
    var oid := Get(d, "ObjectIdentifier").value;
    var vals := [
      VStr(DropboxHome + pd.s), pd, oid, VList(timing.0), timing.1, VDict(d),
      VStr(FileAttributes.MapUnix(codes.0)), VStr(FileAttributes.MapWindows(codes.1))
    ];
    DropboxKeysDistinct();
    ZipGet(DropboxKeys, vals, 0);
    ZipGet(DropboxKeys, vals, 1);
    ZipGet(DropboxKeys, vals, 2);
    ZipGet(DropboxKeys, vals, 3);
    ZipGet(DropboxKeys, vals, 4);
    ZipGet(DropboxKeys, vals, 5);
    ZipGet(DropboxKeys, vals, 6);
    ZipGet(DropboxKeys, vals, 7);
    Zip(DropboxKeys, vals)
  }

  /** `normalize_index_data` of the Dropbox ingester. */
  function DropboxNormalize(userId: Value, data: Value, env: Env, stamp: Stamp): (r: Result<Obj>)
    ensures !HasField(data, "ObjectIdentifier") ==> r == Err(ValueError)
  {
    var p :- DropboxKwargs(userId, data, env);
    NewObject(IngesterSource(DropboxIngesterId), p.1, p.0, env.enc, stamp)
  }

  /** What the Dropbox keyword arguments hold, key by key. */
  lemma DropboxKwargsValues(userId: Value, data: Value, env: Env)
    requires DropboxKwargs(userId, data, env).Ok?
    ensures var d := CloudEntry(data, userId).value;
      DropboxKwargs(userId, data, env).value.0 ==
        DropboxArgs(d, Get(d, "path_display").value, CloudTiming(d).value, CloudCodes(d).value)
  {
    var d := CloudEntry(data, userId).value;
    var timing := CloudTiming(d);
    assert timing.Ok?;
    var json := JsonDumps(VDict(d), env);
    assert json.Ok?;
    var pd := At(d, "path_display");
    assert pd.Ok? && pd.value.VStr?;
    var codes := CloudCodes(d);
    assert codes.Ok?;
    assert DropboxKwargs(userId, data, env) ==
      Ok((DropboxArgs(d, pd.value, timing.value, codes.value), env.encodeBinary(json.value)));
  }

  /** Once its own checks pass, a Dropbox entry becomes an object exactly
      when msgpack accepts the encoded raw data: the ingester's source is
      well formed, the four required arguments are present, none is
      reserved, and the attributes are the entry itself. */
  lemma DropboxBuilds(userId: Value, data: Value, env: Env, stamp: Stamp)
    ensures DropboxNormalize(userId, data, env, stamp).Ok? <==>
      DropboxKwargs(userId, data, env).Ok? && Packable(DropboxKwargs(userId, data, env).value.1)
  {
    if DropboxKwargs(userId, data, env).Ok? {
      var p := DropboxKwargs(userId, data, env).value;
      DropboxKwargsValues(userId, data, env);
      assert Keys(p.0) == DropboxKeys;
      DropboxKeysAccepted(p.0);
      assert AttributesArg(p.0).VDict?;
      var source := IngesterSource(DropboxIngesterId);
      assert ObjectArgsOk(source, p.0);
    }
  }

  /** Step from a built Dropbox object back to its keyword arguments. */
  lemma DropboxStep(userId: Value, data: Value, env: Env, stamp: Stamp)
    requires DropboxNormalize(userId, data, env, stamp).Ok?
    ensures DropboxKwargs(userId, data, env).Ok?
    ensures var p := DropboxKwargs(userId, data, env).value;
      WellFormed(p.0) && NewObject(IngesterSource(DropboxIngesterId), p.1, p.0, env.enc, stamp).Ok?
      && DropboxNormalize(userId, data, env, stamp) == NewObject(IngesterSource(DropboxIngesterId), p.1, p.0, env.enc, stamp)
  {
  }

  /** The arguments an object keeps are its keyword arguments, bar
      `Attributes`. */
  lemma KeptArg(source: Value, raw: Value, kw: Dict<Value>, enc: Encoder, stamp: Stamp, k: string)
    requires WellFormed(kw) && k != "Attributes"
    requires NewObject(source, raw, kw, enc, stamp).Ok?
    ensures Get(NewObject(source, raw, kw, enc, stamp).value.args, k) == Get(kw, k)
  {
    NewObjectArgs(source, raw, kw, enc, stamp, k);
  }

  /** The entry a Dropbox object was built from, with `user_id` filled. */
  lemma DropboxEntry(userId: Value, data: Value, env: Env, stamp: Stamp, k: string)
    requires DropboxNormalize(userId, data, env, stamp).Ok?
    ensures data.VDict?
    ensures Get(CloudEntry(data, userId).value, k) ==
      if k == "user_id" && "user_id" !in Keys(data.entries) then Some(userId) else Get(data.entries, k)
  {
    FillUserIdGet(data.entries, userId, k);
  }

  /** What the Dropbox ingester reads from an entry before building its
      arguments: the timing, the codes and a string `path_display`. */
  predicate DropboxReadable(d: Dict<Value>) {
    CloudTiming(d).Ok? && CloudCodes(d).Ok? && "ObjectIdentifier" in Keys(d)
    && Get(d, "path_display").Some? && Get(d, "path_display").value.VStr?
  }

  /** The arguments `DropboxArgs` builds from a readable entry. */
  function DropboxArgsOf(d: Dict<Value>): Dict<Value>
    requires DropboxReadable(d)
  {
    DropboxArgs(d, Get(d, "path_display").value, CloudTiming(d).value, CloudCodes(d).value)
  }

  /** A built Dropbox object came from a readable entry. */
  lemma DropboxRead(userId: Value, data: Value, env: Env, stamp: Stamp)
    requires DropboxNormalize(userId, data, env, stamp).Ok?
    ensures CloudEntry(data, userId).Ok? && DropboxReadable(CloudEntry(data, userId).value)
  {
    DropboxStep(userId, data, env, stamp);
  }

  /** Each argument of a built Dropbox object, as `DropboxArgs` of the
      pieces read out of the entry. */
  lemma DropboxArgOf(userId: Value, data: Value, env: Env, stamp: Stamp, k: string)
    requires DropboxNormalize(userId, data, env, stamp).Ok? && k != "Attributes"
    ensures CloudEntry(data, userId).Ok? && DropboxReadable(CloudEntry(data, userId).value)
    ensures Get(DropboxNormalize(userId, data, env, stamp).value.args, k)
         == Get(DropboxArgsOf(CloudEntry(data, userId).value), k)
  {
    DropboxRead(userId, data, env, stamp);
    DropboxStep(userId, data, env, stamp);
    var p := DropboxKwargs(userId, data, env).value;
    DropboxKwargsValues(userId, data, env);
    KeptArg(IngesterSource(DropboxIngesterId), p.1, p.0, env.enc, stamp, k);
  }

  /** A folder entry (no `FileMetadata`) is a directory of size 0 with no
      timestamps. */
  lemma DropboxFolder(userId: Value, data: Value, env: Env, stamp: Stamp)
    requires DropboxNormalize(userId, data, env, stamp).Ok?
    requires "FileMetadata" !in Keys(data.entries)
    ensures "FolderMetadata" in Keys(data.entries)
    ensures var args := DropboxNormalize(userId, data, env, stamp).value.args;
      Get(args, "UnixFileAttributes") == Some(VStr("S_IFDIR"))
      && Get(args, "WindowsFileAttributes") == Some(VStr("FILE_ATTRIBUTE_DIRECTORY"))
      && Get(args, "Size") == Some(VInt(0))
      && Get(args, "Timestamps") == Some(VList([]))
  {
    DropboxEntry(userId, data, env, stamp, "FileMetadata");
    DropboxEntry(userId, data, env, stamp, "FolderMetadata");
    DropboxArgOf(userId, data, env, stamp, "UnixFileAttributes");
    DropboxArgOf(userId, data, env, stamp, "WindowsFileAttributes");
    DropboxArgOf(userId, data, env, stamp, "Size");
    DropboxArgOf(userId, data, env, stamp, "Timestamps");
    var d := CloudEntry(data, userId).value;
    assert "FileMetadata" !in Keys(d);
    assert CloudCodes(d).value == (0x4000, 0x10);
    FileAttributes.RenderUnixDirectory();
    FileAttributes.RenderWindowsDirectory();
  }

  /** A file entry is a regular file, whatever `FolderMetadata` says. */
  lemma DropboxFile(userId: Value, data: Value, env: Env, stamp: Stamp)
    requires DropboxNormalize(userId, data, env, stamp).Ok?
    requires "FileMetadata" in Keys(data.entries)
    ensures var args := DropboxNormalize(userId, data, env, stamp).value.args;
      Get(args, "UnixFileAttributes") == Some(VStr("S_IFREG"))
      && Get(args, "WindowsFileAttributes") == Some(VStr("FILE_ATTRIBUTE_NORMAL"))
  {
    DropboxEntry(userId, data, env, stamp, "FileMetadata");
    DropboxArgOf(userId, data, env, stamp, "UnixFileAttributes");
    DropboxArgOf(userId, data, env, stamp, "WindowsFileAttributes");
    var d := CloudEntry(data, userId).value;
    assert "FileMetadata" in Keys(d);
    assert CloudCodes(d).value == (0x8000, 0x80);
    FileAttributes.RenderUnixRegular();
    FileAttributes.RenderWindowsNormal();
  }

  /** A file entry keeps its size and exactly two timestamps,
      client-modified then server-modified. */
  lemma DropboxFileTiming(userId: Value, data: Value, env: Env, stamp: Stamp)
    requires DropboxNormalize(userId, data, env, stamp).Ok?
    requires "FileMetadata" in Keys(data.entries)
    ensures "client_modified" in Keys(data.entries) && "server_modified" in Keys(data.entries)
    ensures var args := DropboxNormalize(userId, data, env, stamp).value.args;
      Get(args, "Size") == Get(data.entries, "size")
      && Get(args, "Timestamps") == Some(VList(FileTimestamps(
           Get(data.entries, "client_modified").value, Get(data.entries, "server_modified").value)))
  {
    DropboxEntry(userId, data, env, stamp, "FileMetadata");
    DropboxEntry(userId, data, env, stamp, "size");
    DropboxEntry(userId, data, env, stamp, "client_modified");
    DropboxEntry(userId, data, env, stamp, "server_modified");
    DropboxArgOf(userId, data, env, stamp, "Size");
    DropboxArgOf(userId, data, env, stamp, "Timestamps");
    var d := CloudEntry(data, userId).value;
    assert "FileMetadata" in Keys(d);
  }

  /** The identifier and path are copied, the URI is the Dropbox home URL
      followed by the path, and the attributes are the entry with a
      `user_id` filled in only when it had none. */
  lemma DropboxCopies(userId: Value, data: Value, env: Env, stamp: Stamp)
    requires DropboxNormalize(userId, data, env, stamp).Ok?
    ensures var o := DropboxNormalize(userId, data, env, stamp).value;
      Get(o.args, "ObjectIdentifier") == Get(data.entries, "ObjectIdentifier")
      && Get(o.args, "Path") == Get(data.entries, "path_display")
      && Get(data.entries, "path_display").Some? && Get(data.entries, "path_display").value.VStr?
      && Get(o.args, "URI") == Some(VStr(DropboxHome + Get(data.entries, "path_display").value.s))
  {
    DropboxEntry(userId, data, env, stamp, "ObjectIdentifier");
    DropboxEntry(userId, data, env, stamp, "path_display");
    DropboxArgOf(userId, data, env, stamp, "ObjectIdentifier");
    DropboxArgOf(userId, data, env, stamp, "Path");
    DropboxArgOf(userId, data, env, stamp, "URI");
  }

  /** The object's attributes are the entry with a `user_id` filled in
      only when it had none. */
  lemma DropboxUserId(userId: Value, data: Value, env: Env, stamp: Stamp)
    requires DropboxNormalize(userId, data, env, stamp).Ok?
    ensures var o := DropboxNormalize(userId, data, env, stamp).value;
      Get(o.record.attributes, "user_id") ==
        (if "user_id" in Keys(data.entries) then Get(data.entries, "user_id") else Some(userId))
  {
    DropboxEntry(userId, data, env, stamp, "user_id");
    DropboxStep(userId, data, env, stamp);
    var p := DropboxKwargs(userId, data, env).value;
    DropboxKwargsValues(userId, data, env);
    assert AttributesArg(p.0) == VDict(CloudEntry(data, userId).value);
  }

  /** `normalize_index_data` of the iCloud ingester: as Dropbox, but no
      URI and no Windows attributes, and the raw data is the packed JSON. */
  function ICloudKwargs(userId: Value, data: Value, env: Env): (r: Result<(Dict<Value>, Value)>)
    ensures !HasField(data, "ObjectIdentifier") ==> r == Err(ValueError)
    ensures r.Ok? ==> WellFormed(r.value.0) && Keys(r.value.0) == ICloudKeys
  {
    var d :- CloudEntry(data, userId);
    var timing :- CloudTiming(d);
    var json :- JsonDumps(VDict(d), env);
    var pd :- At(d, "path_display");
    var codes :- CloudCodes(d);
    ICloudKeysDistinct();
    var kw := Zip(ICloudKeys, [
      pd, Get(d, "ObjectIdentifier").value, VList(timing.0), timing.1, VDict(d),
      VStr(FileAttributes.MapUnix(codes.0))
    ]);
    var packed :- Pack(env.enc, VBytes(json));
    Ok((kw, VBytes(packed)))
  }

  const ICloudKeys: seq<string> := [
    "Path", "ObjectIdentifier", "Timestamps", "Size", "Attributes", "UnixFileAttributes"
  ]

  lemma ICloudKeysDistinct()
    ensures Distinct(ICloudKeys)
  {
  }

  function ICloudNormalize(userId: Value, data: Value, env: Env, stamp: Stamp): (r: Result<Obj>)
    ensures !HasField(data, "ObjectIdentifier") ==> r == Err(ValueError)
  {
    var p :- ICloudKwargs(userId, data, env);
    NewObject(IngesterSource(ICloudIngesterId), p.1, p.0, env.enc, stamp)
  }

  /** The iCloud ingester never builds an object: an entry that passes its
      own checks lacks the required `URI`, so the object constructor's
      assertion fails. */
  lemma ICloudNeverBuilds(userId: Value, data: Value, env: Env, stamp: Stamp)
    ensures ICloudNormalize(userId, data, env, stamp).Err?
    ensures ICloudKwargs(userId, data, env).Ok? ==>
              ICloudNormalize(userId, data, env, stamp).error == AssertionError
  {
    if ICloudKwargs(userId, data, env).Ok? {
      var kw := ICloudKwargs(userId, data, env).value.0;
      assert "URI" !in Keys(kw);
    }
  }

  // ---------------------------------------------------------------------
  // Local ingesters (Mac, Windows)
  // ---------------------------------------------------------------------

  /** `fromtimestamp(d[k], timezone.utc).isoformat()`. */
  function IsoAt(d: Dict<Value>, k: string, env: Env): (r: Result<string>)
    ensures k !in Keys(d) ==> r == Err(KeyError)
    ensures k in Keys(d) ==> r == env.isoTime(Get(d, k).value)
  {
    var v :- At(d, k);
    env.isoTime(v)
  }

  /** The four `stat` timestamps, in creation, modification, access, change
      order. */
  function StatTimestamps(created: string, modified: string, accessed: string, changed: string): seq<Value> {
    [TimestampEntry(CreationTimestamp, VStr(created), "Created"),
     TimestampEntry(ModificationTimestamp, VStr(modified), "Modified"),
     TimestampEntry(AccessTimestamp, VStr(accessed), "Accessed"),
     TimestampEntry(ChangeTimestamp, VStr(changed), "Changed")]
  }

  /** The `Timestamps` of a local entry; the first missing or unconvertible
      time raises. */
  function StatTimes(d: Dict<Value>, env: Env): (r: Result<seq<Value>>)
    ensures r.Ok? <==> IsoAt(d, "st_birthtime", env).Ok? && IsoAt(d, "st_mtime", env).Ok?
                       && IsoAt(d, "st_atime", env).Ok? && IsoAt(d, "st_ctime", env).Ok?
    ensures r.Ok? ==> r.value == StatTimestamps(IsoAt(d, "st_birthtime", env).value, IsoAt(d, "st_mtime", env).value,
                                                IsoAt(d, "st_atime", env).value, IsoAt(d, "st_ctime", env).value)
    ensures IsoAt(d, "st_birthtime", env).Err? ==> r == Err(IsoAt(d, "st_birthtime", env).error)
  {
    var created :- IsoAt(d, "st_birthtime", env);
    var modified :- IsoAt(d, "st_mtime", env);
    var accessed :- IsoAt(d, "st_atime", env);
    var changed :- IsoAt(d, "st_ctime", env);
    Ok(StatTimestamps(created, modified, accessed, changed))
  }

  const LocalKeys: seq<string> := ["URI", "ObjectIdentifier", "Timestamps", "Size", "Attributes", "Machine"]

  lemma LocalKeysDistinct()
    ensures Distinct(LocalKeys)
  {
  }

  /** The keyword arguments both local ingesters build first, key by key. */
  function LocalArgs(uri: Value, oid: string, times: seq<Value>, size: Value, data: Value, machineId: Value): (kw: Dict<Value>)
    ensures Keys(kw) == LocalKeys && WellFormed(kw)
    ensures Get(kw, "URI") == Some(uri)
    ensures Get(kw, "ObjectIdentifier") == Some(VStr(oid))
    ensures Get(kw, "Timestamps") == Some(VList(times))
    ensures Get(kw, "Size") == Some(size)
    ensures Get(kw, "Attributes") == Some(data)
    ensures Get(kw, "Machine") == Some(machineId)
  {
    var vals := [uri, VStr(oid), VList(times), size, data, machineId];
    LocalKeysDistinct();
    ZipGet(LocalKeys, vals, 0);
    ZipGet(LocalKeys, vals, 1);
    ZipGet(LocalKeys, vals, 2);
    ZipGet(LocalKeys, vals, 3);
    ZipGet(LocalKeys, vals, 4);
    ZipGet(LocalKeys, vals, 5);
    Zip(LocalKeys, vals)
  }

  /** The URI, timestamps and size read from a local entry, in that order. */
  function LocalKwargs(data: Value, env: Env, oid: string, machineId: Value): (r: Result<Dict<Value>>)
    requires data.VDict?
    ensures r.Ok? <==> "URI" in Keys(data.entries) && StatTimes(data.entries, env).Ok?
                       && "st_size" in Keys(data.entries)
    ensures "URI" !in Keys(data.entries) ==> r == Err(KeyError)
    ensures r.Ok? ==> r.value == LocalArgs(Get(data.entries, "URI").value, oid, StatTimes(data.entries, env).value,
                                           Get(data.entries, "st_size").value, data, machineId)
  {
    var uri :- At(data.entries, "URI");
    var times :- StatTimes(data.entries, env);
    var size :- At(data.entries, "st_size");
    Ok(LocalArgs(uri, oid, times, size, data, machineId))
  }

  /** An optional attribute code: absent when the entry lacks `k`, else
      its rendering; a non-integer code is a TypeError. */
  function CodeArg(d: Dict<Value>, k: string, render: int -> string): (r: Result<Option<Value>>)
    ensures k !in Keys(d) ==> r == Ok(None)
    ensures k in Keys(d) ==> (r.Ok? <==> AsInt(Get(d, k).value).Ok?)
    ensures k in Keys(d) && r.Ok? ==> r.value == Some(VStr(render(AsInt(Get(d, k).value).value)))
    ensures r.Err? ==> r.error == TypeError
  {
    if k in Keys(d) then
      var x :- AsInt(Get(d, k).value);
      Ok(Some(VStr(render(x))))
    else Ok(None)
  }

  /** `kwargs[k] = v` when there is a value to assign. */
  function SetOpt(d: Dict<Value>, k: string, o: Option<Value>): (r: Dict<Value>)
    ensures WellFormed(d) ==> WellFormed(r)
    ensures Keys(d) <= Keys(r)
    ensures k in Keys(r) <==> k in Keys(d) || o.Some?
  {
    match o
    case None => d
    case Some(v) =>
      assert WellFormed(d) ==> WellFormed(Set(d, k, v)) by {
        if WellFormed(d) {
          SetWellFormed(d, k, v);
        }
      }
      Set(d, k, v)
  }

  /** After the optional assignment `k` reads the assigned value, if any,
      and every other key reads as before. */
  lemma SetOptGet(d: Dict<Value>, k: string, o: Option<Value>, j: string)
    ensures Get(SetOpt(d, k, o), j) == if j == k && o.Some? then o else Get(d, j)
  {
    if o.Some? {
      SetGet(d, k, o.value, j);
    }
  }

  function MacKwargs(machineId: Value, data: Value, env: Env, oid: string): (r: Result<(Dict<Value>, Value)>)
    ensures !data.VDict? ==> r == Err(ValueError)
    ensures data.VDict? && !JsonSerializable(data) ==> r == Err(TypeError)
    ensures r.Ok? ==> data.VDict? && WellFormed(r.value.0) && r.value.1.VBytes?
  {
    if data.VNone? then Err(ValueError)
    else if !data.VDict? then Err(ValueError)
    else
      var json :- JsonDumps(data, env);
      var base :- LocalKwargs(data, env, oid, machineId);
      var unix :- CodeArg(data.entries, "st_mode", FileAttributes.MapUnix);
      var packed :- Pack(env.enc, VBytes(json));
      Ok((SetOpt(base, "UnixFileAttributes", unix), VBytes(packed)))
  }

  /** What the Mac keyword arguments hold: the local ones with the
      rendered mode, when every read succeeded. */
  lemma MacKwargsValues(machineId: Value, data: Value, env: Env, oid: string)
    requires MacKwargs(machineId, data, env, oid).Ok?
    ensures data.VDict? && LocalKwargs(data, env, oid, machineId).Ok?
    ensures CodeArg(data.entries, "st_mode", FileAttributes.MapUnix).Ok?
    ensures MacKwargs(machineId, data, env, oid).value.0 ==
      SetOpt(LocalKwargs(data, env, oid, machineId).value, "UnixFileAttributes",
             CodeArg(data.entries, "st_mode", FileAttributes.MapUnix).value)
  {
    var json := JsonDumps(data, env);
    assert json.Ok?;
    var base := LocalKwargs(data, env, oid, machineId);
    assert base.Ok?;
    var unix := CodeArg(data.entries, "st_mode", FileAttributes.MapUnix);
    assert unix.Ok?;
  }

  /** `normalize_index_data` of the Mac local ingester; `oid` is the fresh
      `uuid4` it draws for the object. */
  function MacNormalize(machineId: Value, data: Value, env: Env, oid: string, stamp: Stamp): (r: Result<Obj>)
    ensures !data.VDict? ==> r == Err(ValueError)
    ensures data.VDict? && !JsonSerializable(data) ==> r == Err(TypeError)
  {
    var p :- MacKwargs(machineId, data, env, oid);
    NewObject(IngesterSource(MacLocalIngesterId), p.1, p.0, env.enc, stamp)
  }

  /** The optional names are not among the first six. */
  lemma LocalKeysLack(kw: Dict<Value>)
    requires Keys(kw) == LocalKeys
    ensures Get(kw, "Volume") == None
    ensures Get(kw, "UnixFileAttributes") == None
    ensures Get(kw, "WindowsFileAttributes") == None
  {
    assert "Volume" !in Keys(kw);
    assert "UnixFileAttributes" !in Keys(kw);
    assert "WindowsFileAttributes" !in Keys(kw);
  }

  /** Keyword arguments the object constructor accepts. */
  predicate Accepted(kw: Dict<Value>) {
    HasRequiredArgs(kw) && NoReservedArgs(kw) && AttributesArg(kw).VDict?
  }

  /** The local ingesters' first six arguments satisfy the constructor
      whenever the entry is a dict. */
  lemma LocalArgsAccepted(uri: Value, oid: string, times: seq<Value>, size: Value, data: Value, machineId: Value)
    requires data.VDict?
    ensures Accepted(LocalArgs(uri, oid, times, size, data, machineId))
  {
    var kw := LocalArgs(uri, oid, times, size, data, machineId);
    assert Keys(kw)[0] == "URI" && Keys(kw)[1] == "ObjectIdentifier";
    assert Keys(kw)[2] == "Timestamps" && Keys(kw)[3] == "Size";
    assert "source" !in Keys(kw);
    assert "_key" !in Keys(kw);
    assert "Data" !in Keys(kw);
  }

  /** Assigning an optional argument under a name that is neither reserved
      nor `Attributes` keeps the arguments acceptable. */
  lemma SetOptAccepted(d: Dict<Value>, k: string, o: Option<Value>)
    requires Accepted(d)
    requires k != "source" && k != "_key" && k != "Data" && k != "Attributes"
    ensures Accepted(SetOpt(d, k, o))
  {
    SetOptGet(d, k, o, "source");
    SetOptGet(d, k, o, "_key");
    SetOptGet(d, k, o, "Data");
    SetOptGet(d, k, o, "Attributes");
  }

  /** A Mac entry becomes an object exactly when its own reads succeed. */
  lemma MacBuilds(machineId: Value, data: Value, env: Env, oid: string, stamp: Stamp)
    ensures MacNormalize(machineId, data, env, oid, stamp).Ok? <==> MacKwargs(machineId, data, env, oid).Ok?
    ensures MacKwargs(machineId, data, env, oid).Ok? ==>
      MacNormalize(machineId, data, env, oid, stamp) ==
        NewObject(IngesterSource(MacLocalIngesterId), MacKwargs(machineId, data, env, oid).value.1,
                  MacKwargs(machineId, data, env, oid).value.0, env.enc, stamp)
  {
    if MacKwargs(machineId, data, env, oid).Ok? {
      MacKwargsValues(machineId, data, env, oid);
      var d := data.entries;
      var base := LocalKwargs(data, env, oid, machineId).value;
      LocalArgsAccepted(Get(d, "URI").value, oid, StatTimes(d, env).value, Get(d, "st_size").value, data, machineId);
      SetOptAccepted(base, "UnixFileAttributes", CodeArg(d, "st_mode", FileAttributes.MapUnix).value);
      var raw := MacKwargs(machineId, data, env, oid).value.1;
      assert raw.VBytes? && Packable(raw);
      assert ObjectArgsOk(IngesterSource(MacLocalIngesterId), MacKwargs(machineId, data, env, oid).value.0);
    }
  }

  /** Each argument of a built Mac object other than `Attributes`. */
  lemma MacArgOf(machineId: Value, data: Value, env: Env, oid: string, stamp: Stamp, k: string)
    requires MacNormalize(machineId, data, env, oid, stamp).Ok? && k != "Attributes"
    ensures data.VDict? && LocalKwargs(data, env, oid, machineId).Ok?
    ensures CodeArg(data.entries, "st_mode", FileAttributes.MapUnix).Ok?
    ensures Get(MacNormalize(machineId, data, env, oid, stamp).value.args, k) ==
      Get(SetOpt(LocalKwargs(data, env, oid, machineId).value, "UnixFileAttributes",
                 CodeArg(data.entries, "st_mode", FileAttributes.MapUnix).value), k)
  {
    MacBuilds(machineId, data, env, oid, stamp);
    MacKwargsValues(machineId, data, env, oid);
    var p := MacKwargs(machineId, data, env, oid).value;
    KeptArg(IngesterSource(MacLocalIngesterId), p.1, p.0, env.enc, stamp, k);
  }

  /** A Mac object carries the entry's URI and size, the fresh identifier,
      the machine, and the four converted `stat` times in order. */
  lemma MacFields(machineId: Value, data: Value, env: Env, oid: string, stamp: Stamp)
    requires MacNormalize(machineId, data, env, oid, stamp).Ok?
    ensures data.VDict? && StatTimes(data.entries, env).Ok?
    ensures var args := MacNormalize(machineId, data, env, oid, stamp).value.args;
      Get(args, "URI") == Get(data.entries, "URI")
      && Get(args, "ObjectIdentifier") == Some(VStr(oid))
      && Get(args, "Size") == Get(data.entries, "st_size")
      && Get(args, "Machine") == Some(machineId)
      && Get(args, "Timestamps") == Some(VList(StatTimes(data.entries, env).value))
  {
    MacArgOf(machineId, data, env, oid, stamp, "URI");
    MacArgOf(machineId, data, env, oid, stamp, "ObjectIdentifier");
    MacArgOf(machineId, data, env, oid, stamp, "Size");
    MacArgOf(machineId, data, env, oid, stamp, "Machine");
    MacArgOf(machineId, data, env, oid, stamp, "Timestamps");
    var base := LocalKwargs(data, env, oid, machineId).value;
    var unix := CodeArg(data.entries, "st_mode", FileAttributes.MapUnix).value;
    SetOptGet(base, "UnixFileAttributes", unix, "URI");
    SetOptGet(base, "UnixFileAttributes", unix, "ObjectIdentifier");
    SetOptGet(base, "UnixFileAttributes", unix, "Size");
    SetOptGet(base, "UnixFileAttributes", unix, "Machine");
    SetOptGet(base, "UnixFileAttributes", unix, "Timestamps");
  }

  /** A Mac object has Unix attributes exactly when the entry has a
      `st_mode`, rendered from it. */
  lemma MacMode(machineId: Value, data: Value, env: Env, oid: string, stamp: Stamp)
    requires MacNormalize(machineId, data, env, oid, stamp).Ok?
    ensures data.VDict?
    ensures "st_mode" in Keys(data.entries) ==> AsInt(Get(data.entries, "st_mode").value).Ok?
    ensures Get(MacNormalize(machineId, data, env, oid, stamp).value.args, "UnixFileAttributes") ==
      if "st_mode" in Keys(data.entries)
      then Some(VStr(FileAttributes.MapUnix(AsInt(Get(data.entries, "st_mode").value).value)))
      else None
  {
    MacArgOf(machineId, data, env, oid, stamp, "UnixFileAttributes");
    var base := LocalKwargs(data, env, oid, machineId).value;
    LocalKeysLack(base);
    var unix := CodeArg(data.entries, "st_mode", FileAttributes.MapUnix).value;
    SetOptGet(base, "UnixFileAttributes", unix, "UnixFileAttributes");
    if "st_mode" in Keys(data.entries) {
      assert unix == Some(VStr(FileAttributes.MapUnix(AsInt(Get(data.entries, "st_mode").value).value)));
    } else {
      assert unix == None;
    }
  }

  /** The attributes of a Mac object are the entry itself. */
  lemma MacAttributes(machineId: Value, data: Value, env: Env, oid: string, stamp: Stamp)
    requires MacNormalize(machineId, data, env, oid, stamp).Ok?
    ensures data.VDict? && MacNormalize(machineId, data, env, oid, stamp).value.record.attributes == data.entries
  {
    MacBuilds(machineId, data, env, oid, stamp);
    MacKwargsValues(machineId, data, env, oid);
    var base := LocalKwargs(data, env, oid, machineId).value;
    var unix := CodeArg(data.entries, "st_mode", FileAttributes.MapUnix).value;
    SetOptGet(base, "UnixFileAttributes", unix, "Attributes");
  }

  /** A Mac entry that is serialisable but has no `URI` is a KeyError. */
  lemma MacMissingUri(machineId: Value, data: Value, env: Env, oid: string, stamp: Stamp)
    requires data.VDict? && JsonSerializable(data) && "URI" !in Keys(data.entries)
    ensures MacNormalize(machineId, data, env, oid, stamp) == Err(KeyError)
  {
  }

  /** The prefix of a Windows volume GUID path, `\\?\Volume{`. */
  const VolumePrefix: string := "\\\\?\\Volume{"

  /** The `Volume` argument: the entry's `Volume GUID` when present, else
      characters 11 to 47 of a URI that is a volume GUID path.  A bytes URI
      cannot be tested against a string prefix (TypeError); any other
      non-string has no `startswith` (AttributeError). */
  function WindowsVolume(d: Dict<Value>, uri: Value): (r: Result<Option<Value>>)
    ensures "Volume GUID" in Keys(d) ==> r == Ok(Get(d, "Volume GUID"))
    ensures "Volume GUID" !in Keys(d) && uri.VStr? ==> r.Ok? && (r.value.Some? <==> StartsWith(uri.s, VolumePrefix))
    ensures r.Err? <==> "Volume GUID" !in Keys(d) && !uri.VStr?
    ensures r.Err? ==> (r.error == TypeError <==> uri.VBytes?) && (r.error == AttributeError <==> !uri.VBytes?)
  {
    if "Volume GUID" in Keys(d) then Ok(Get(d, "Volume GUID"))
    else match uri
      case VStr(s) => if StartsWith(s, VolumePrefix) then Ok(Some(VStr(Slice(s, 11, 47)))) else Ok(None)
      case VBytes(_) => Err(TypeError)
      case _ => Err(AttributeError)
  }

  /** A volume GUID path long enough to hold a GUID yields exactly the 36
      characters after the prefix, which is 11 characters long. */
  lemma VolumeFromUri(d: Dict<Value>, s: string)
    requires "Volume GUID" !in Keys(d) && StartsWith(s, VolumePrefix) && |s| >= 47
    ensures |VolumePrefix| == 11
    ensures WindowsVolume(d, VStr(s)) == Ok(Some(VStr(s[|VolumePrefix|..|VolumePrefix| + 36])))
  {
  }

  /** The Windows keyword arguments: the six local ones, then `Volume`,
      `UnixFileAttributes` and `WindowsFileAttributes` when computed. */
  function WindowsArgs(base: Dict<Value>, e: (Option<Value>, Option<Value>, Option<Value>)): (kw: Dict<Value>)
    ensures WellFormed(base) ==> WellFormed(kw)
  {
    SetOpt(SetOpt(SetOpt(base, "Volume", e.0), "UnixFileAttributes", e.1), "WindowsFileAttributes", e.2)
  }

  /** The Windows keyword arguments and raw data.  The entry is packed
      first, as `raw_data` is the first value of the keyword dictionary
      that can raise, so an entry msgpack refuses fails with its error
      before any key is read. */
  function WindowsKwargs(machineId: Value, data: Value, env: Env, oid: string): (r: Result<(Dict<Value>, Value)>)
    ensures !data.VDict? ==> r == Err(ValueError)
    ensures data.VDict? && !Packable(data) ==> r == Err(Pack(env.enc, data).error)
    ensures r.Ok? ==> data.VDict? && Packable(data) && WellFormed(r.value.0)
    ensures r.Ok? ==> r.value.1 == VBytes(env.enc.packb(data))
  {
    if data.VNone? then Err(ValueError)
    else if !data.VDict? then Err(ValueError)
    else
      var packed :- Pack(env.enc, data);
      var base :- LocalKwargs(data, env, oid, machineId);
      var extras :- WindowsExtras(data);
      Ok((WindowsArgs(base, extras), VBytes(packed)))
  }

  /** `normalize_index_data` of the Windows local ingester; `oid` is the
      fresh `uuid4` it draws.  Unlike the Mac ingester it packs the entry
      directly and never serialises it to JSON. */
  function WindowsNormalize(machineId: Value, data: Value, env: Env, oid: string, stamp: Stamp): (r: Result<Obj>)
    ensures !data.VDict? ==> r == Err(ValueError)
  {
    var p :- WindowsKwargs(machineId, data, env, oid);
    NewObject(IngesterSource(WindowsLocalIngesterId), p.1, p.0, env.enc, stamp)
  }

  /** The three optional arguments of a Windows entry. */
  function WindowsExtras(data: Value): (r: Result<(Option<Value>, Option<Value>, Option<Value>)>)
    requires data.VDict? && "URI" in Keys(data.entries)
  {
    var volume :- WindowsVolume(data.entries, Get(data.entries, "URI").value);
    var unix :- CodeArg(data.entries, "st_mode", FileAttributes.MapUnix);
    var windows :- CodeArg(data.entries, "st_file_attributes", FileAttributes.MapWindows);
    Ok((volume, unix, windows))
  }

  /** A Windows entry becomes an object exactly when msgpack accepts it
      and its own reads succeed: it is never serialised to JSON, so
      nothing else is required of its values. */
  lemma WindowsBuilds(machineId: Value, data: Value, env: Env, oid: string, stamp: Stamp)
    ensures WindowsNormalize(machineId, data, env, oid, stamp).Ok? <==> WindowsKwargs(machineId, data, env, oid).Ok?
    ensures WindowsKwargs(machineId, data, env, oid).Ok? <==>
      data.VDict? && Packable(data) && LocalKwargs(data, env, oid, machineId).Ok? && WindowsExtras(data).Ok?
    ensures WindowsKwargs(machineId, data, env, oid).Ok? ==>
      WindowsNormalize(machineId, data, env, oid, stamp) ==
        NewObject(IngesterSource(WindowsLocalIngesterId), VBytes(env.enc.packb(data)),
                  WindowsArgs(LocalKwargs(data, env, oid, machineId).value, WindowsExtras(data).value),
                  env.enc, stamp)
  {
    if WindowsKwargs(machineId, data, env, oid).Ok? {
      var d := data.entries;
      var e := WindowsExtras(data).value;
      var base := LocalKwargs(data, env, oid, machineId).value;
      LocalArgsAccepted(Get(d, "URI").value, oid, StatTimes(d, env).value, Get(d, "st_size").value, data, machineId);
      SetOptAccepted(base, "Volume", e.0);
      SetOptAccepted(SetOpt(base, "Volume", e.0), "UnixFileAttributes", e.1);
      SetOptAccepted(SetOpt(SetOpt(base, "Volume", e.0), "UnixFileAttributes", e.1), "WindowsFileAttributes", e.2);
      assert Packable(VBytes(env.enc.packb(data)));
    }
  }

  /** Each optional argument of a built Windows object is present exactly
      when computed: the volume, the Unix mode and the Windows attributes. */
  lemma WindowsOptional(machineId: Value, data: Value, env: Env, oid: string, stamp: Stamp)
    requires WindowsNormalize(machineId, data, env, oid, stamp).Ok?
    ensures data.VDict? && "URI" in Keys(data.entries) && WindowsExtras(data).Ok?
    ensures var args := WindowsNormalize(machineId, data, env, oid, stamp).value.args;
      var e := WindowsExtras(data).value;
      Get(args, "Volume") == e.0 && Get(args, "UnixFileAttributes") == e.1
      && Get(args, "WindowsFileAttributes") == e.2
  {
    WindowsBuilds(machineId, data, env, oid, stamp);
    var e := WindowsExtras(data).value;
    var base := LocalKwargs(data, env, oid, machineId).value;
    LocalKeysLack(base);
    var k1 := SetOpt(base, "Volume", e.0);
    var k2 := SetOpt(k1, "UnixFileAttributes", e.1);
    var kw := WindowsArgs(base, e);
    var raw := VBytes(env.enc.packb(data));
    var source := IngesterSource(WindowsLocalIngesterId);
    KeptArg(source, raw, kw, env.enc, stamp, "Volume");
    KeptArg(source, raw, kw, env.enc, stamp, "UnixFileAttributes");
    KeptArg(source, raw, kw, env.enc, stamp, "WindowsFileAttributes");
    SetOptGet(base, "Volume", e.0, "Volume");
    SetOptGet(k1, "UnixFileAttributes", e.1, "Volume");
    SetOptGet(k2, "WindowsFileAttributes", e.2, "Volume");
    SetOptGet(base, "Volume", e.0, "UnixFileAttributes");
    SetOptGet(k1, "UnixFileAttributes", e.1, "UnixFileAttributes");
    SetOptGet(k2, "WindowsFileAttributes", e.2, "UnixFileAttributes");
    SetOptGet(base, "Volume", e.0, "WindowsFileAttributes");
    SetOptGet(k1, "UnixFileAttributes", e.1, "WindowsFileAttributes");
    SetOptGet(k2, "WindowsFileAttributes", e.2, "WindowsFileAttributes");
  }

  /** Each of the first six arguments of a built Windows object, bar
      `Attributes`, reads as in the local arguments. */
  lemma WindowsArgOf(machineId: Value, data: Value, env: Env, oid: string, stamp: Stamp, k: string)
    requires WindowsNormalize(machineId, data, env, oid, stamp).Ok?
    requires k != "Attributes" && k != "Volume" && k != "UnixFileAttributes" && k != "WindowsFileAttributes"
    ensures data.VDict? && LocalKwargs(data, env, oid, machineId).Ok?
    ensures Get(WindowsNormalize(machineId, data, env, oid, stamp).value.args, k)
            == Get(LocalKwargs(data, env, oid, machineId).value, k)
  {
    WindowsBuilds(machineId, data, env, oid, stamp);
    var e := WindowsExtras(data).value;
    var base := LocalKwargs(data, env, oid, machineId).value;
    var kw := WindowsArgs(base, e);
    KeptArg(IngesterSource(WindowsLocalIngesterId), VBytes(env.enc.packb(data)), kw, env.enc, stamp, k);
    var k1 := SetOpt(base, "Volume", e.0);
    SetOptGet(base, "Volume", e.0, k);
    SetOptGet(k1, "UnixFileAttributes", e.1, k);
    SetOptGet(SetOpt(k1, "UnixFileAttributes", e.1), "WindowsFileAttributes", e.2, k);
  }

  /** A Windows object carries the entry's URI and size, the fresh
      identifier, the machine and the four converted `stat` times. */
  lemma WindowsFields(machineId: Value, data: Value, env: Env, oid: string, stamp: Stamp)
    requires WindowsNormalize(machineId, data, env, oid, stamp).Ok?
    ensures data.VDict? && StatTimes(data.entries, env).Ok?
    ensures var args := WindowsNormalize(machineId, data, env, oid, stamp).value.args;
      Get(args, "URI") == Get(data.entries, "URI")
      && Get(args, "ObjectIdentifier") == Some(VStr(oid))
      && Get(args, "Size") == Get(data.entries, "st_size")
      && Get(args, "Machine") == Some(machineId)
      && Get(args, "Timestamps") == Some(VList(StatTimes(data.entries, env).value))
  {
    WindowsArgOf(machineId, data, env, oid, stamp, "URI");
    WindowsArgOf(machineId, data, env, oid, stamp, "ObjectIdentifier");
    WindowsArgOf(machineId, data, env, oid, stamp, "Size");
    WindowsArgOf(machineId, data, env, oid, stamp, "Machine");
    WindowsArgOf(machineId, data, env, oid, stamp, "Timestamps");
  }
}
