/** The shared part of every ingester: how the constructor normalises its
    keyword arguments, the six counters and `get_counts`, and the guards
    and counting of `write_data_to_file`.  Service registration is a
    database call and is not modelled; the current time is a parameter.
 */
module Ingester {

  import opened Errors
  import opened Dicts
  import opened Values
  import opened PyStr
  import Uuid

  const DefaultPrefix: string := "indaleko"
  const DefaultSuffix: string := ".jsonl"

  /** `uuid.UUID('00000000-0000-0000-0000-000000000000').hex`. */
  const NilHex: string := "00000000000000000000000000000000"

  lemma NilHexIsHex()
    ensures Uuid.IsHex32(NilHex)
  {
    assert forall i :: 0 <= i < |NilHex| ==> NilHex[i] == '0';
  }

  /** `IndalekoIngester.counter_values`, in order. */
  const CounterNames: seq<string> := ["input_count", "output_count", "dir_count", "file_count", "error_count", "edge_count"]

  datatype Counters = Counters(input: nat, output: nat, dirs: nat, files: nat, errors: nat, edges: nat)

  const Zero: Counters := Counters(0, 0, 0, 0, 0, 0)

  /** The directories an ingester is configured with. */
  datatype Dirs = Dirs(data: Value, output: Value, input: Value, config: Value, log: Value)

  /** The state an ingester's constructor sets up. */
  datatype Ingester = Ingester(
    filePrefix: string,
    fileSuffix: string,
    machineId: string,          // the `hex` form
    timestamp: Value,
    platform: Value,
    ingester: Value,
    storageDescription: Option<string>,
    dirs: Dirs,
    serviceName: Value,
    serviceDescription: Value,
    serviceVersion: Value,
    serviceType: Value,
    serviceId: Value,
    counters: Counters)

  /** `s.replace('-', '_')`: the result holds no `-`. */
  function Underscored(s: string): (r: string)
    ensures '-' !in r
    ensures '-' !in s ==> r == s
  {
    forall d | d in Replace(s, "-", "_") ensures d != '-' {
      ReplaceCharChars(s, '-', "_", d);
    }
    assert '-' !in s ==> Replace(s, "-", "_") == s by {
      if '-' !in s {
        ReplaceCharFree(s, '-', "_");
      }
    }
    Replace(s, "-", "_")
  }

  /** `value.replace('-', '_')` on a keyword argument: only a `str`
      succeeds; `bytes` refuses the `str` arguments (TypeError) and any
      other value has no `replace` (AttributeError). */
  function UnderscoredValue(v: Value): (r: Result<string>)
    ensures r.Ok? <==> v.VStr?
    ensures r.Ok? ==> r.value == Underscored(v.s)
    ensures r.Err? ==> (r.error == TypeError <==> v.VBytes?) && (r.error == AttributeError <==> !v.VBytes?)
  {
    var s :- AsReplaceable(v);
    Ok(Underscored(s))
  }

  /** `str(uuid.UUID(v).hex)`: a `str` that parses as a UUID (ValueError
      otherwise).  `uuid.UUID(None)` is given no argument at all and
      `uuid.UUID(b'…')` calls `replace` on bytes, both TypeError; any
      other value has no `replace` (AttributeError). */
  function HexOf(v: Value): (r: Result<string>)
    ensures r.Ok? <==> Uuid.ValidString(v)
    ensures r.Ok? ==> Uuid.IsHex32(r.value) && Uuid.Parse(v.s) == Ok(r.value)
    ensures v.VStr? && r.Err? ==> r.error == ValueError
    ensures v.VNone? || v.VBytes? ==> r == Err(TypeError)
    ensures !v.VStr? && !v.VNone? && !v.VBytes? ==> r == Err(AttributeError)
  {
    if v.VNone? then Err(TypeError)
    else
      var s :- AsReplaceable(v);
      Uuid.Parse(s)
  }

  /** `kwargs.get(k, kwargs.get(alt, None))`. */
  function GetEither(kwargs: Dict<Value>, k: string, alt: string): (r: Value)
    ensures Get(kwargs, k).Some? ==> Some(r) == Get(kwargs, k)
    ensures Get(kwargs, k).None? && Get(kwargs, alt).Some? ==> Some(r) == Get(kwargs, alt)
    ensures Get(kwargs, k).None? && Get(kwargs, alt).None? ==> r == VNone
  {
    GetOr(kwargs, k, GetOr(kwargs, alt, VNone))
  }

  /** The storage description kept by the constructor: none when the
      argument is absent, None or `'unknown'`, else its UUID's `hex`. */
  function StorageOf(kwargs: Dict<Value>): (r: Result<Option<string>>)
    ensures r.Ok? && r.value.None? <==>
              Get(kwargs, "storage_description").None?
              || Get(kwargs, "storage_description") == Some(VNone)
              || Get(kwargs, "storage_description") == Some(VStr("unknown"))
    ensures r.Ok? && r.value.Some? ==> Uuid.IsHex32(r.value.value)
  {
    match Get(kwargs, "storage_description")
    case None => Ok(None)
    case Some(v) =>
      if v == VNone || v == VStr("unknown") then Ok(None)
      else
        var h :- HexOf(v);
        Ok(Some(h))
  }

  /** `IndalekoIngester.__init__` without the service registration:
      defaults for the prefix, suffix, machine id, platform and ingester;
      `-` replaced by `_` in the prefix and suffix; the machine and
      storage UUIDs kept in `hex` form; a service name (`Name` or
      `service_name`) and identifier (`Identifier` or `service_id`)
      required (AssertionError); every counter zero. */
  function NewIngester(kwargs: Dict<Value>, now: string, defaults: Dirs): (r: Result<Ingester>)
    ensures r.Ok? ==> '-' !in r.value.filePrefix && '-' !in r.value.fileSuffix
    ensures r.Ok? ==> GetOr(kwargs, "file_prefix", VStr(DefaultPrefix)).VStr?
                      && r.value.filePrefix == Underscored(GetOr(kwargs, "file_prefix", VStr(DefaultPrefix)).s)
    ensures r.Ok? ==> GetOr(kwargs, "file_suffix", VStr(DefaultSuffix)).VStr?
                      && r.value.fileSuffix == Underscored(GetOr(kwargs, "file_suffix", VStr(DefaultSuffix)).s)
    ensures r.Ok? ==> r.value.counters == Zero
    ensures r.Ok? ==> Uuid.IsHex32(r.value.machineId)
    ensures r.Ok? && Get(kwargs, "machine_id").None? ==> r.value.machineId == NilHex
    ensures r.Ok? ==> r.value.serviceName != VNone && r.value.serviceId != VNone
    ensures GetEither(kwargs, "Name", "service_name") == VNone ==> r.Err?
    ensures GetEither(kwargs, "Identifier", "service_id") == VNone ==> r.Err?
    ensures r.Ok? ==> (r.value.storageDescription.None? <==>
                         Get(kwargs, "storage_description").None?
                         || Get(kwargs, "storage_description") == Some(VNone)
                         || Get(kwargs, "storage_description") == Some(VStr("unknown")))
  {
    var prefix :- UnderscoredValue(GetOr(kwargs, "file_prefix", VStr(DefaultPrefix)));
    var suffix :- UnderscoredValue(GetOr(kwargs, "file_suffix", VStr(DefaultSuffix)));
    var machine :- if Get(kwargs, "machine_id").Some? then HexOf(Get(kwargs, "machine_id").value)
                   else (NilHexIsHex(); Ok(NilHex));
    var storage :- StorageOf(kwargs);
    var data := GetOr(kwargs, "data_dir", defaults.data);
    var dirs := Dirs(data, GetOr(kwargs, "output_dir", data), GetOr(kwargs, "input_dir", data),
                     GetOr(kwargs, "config_dir", defaults.config), GetOr(kwargs, "log_dir", defaults.log));
    var name := GetEither(kwargs, "Name", "service_name");
    var _ :- Need(name != VNone);
    var id := GetEither(kwargs, "Identifier", "service_id");
    var _ :- Need(id != VNone);
    Ok(Ingester(
      prefix, suffix, machine,
      GetOr(kwargs, "timestamp", VStr(now)),
      GetOr(kwargs, "platform", VStr("unknown")),
      GetOr(kwargs, "ingester", VStr("unknown")),
      storage, dirs, name,
      GetOr(kwargs, "Description", VStr(GenericDescription)),
      GetOr(kwargs, "Version", VStr("1.0")),
      GetOr(kwargs, "Type", VStr("Ingester")),
      id, Zero))
  }

  const GenericDescription: string :=
    "This is the base (non-specialized) Indaleko Ingester. You should not see it in the database."

  function CounterValues(c: Counters): seq<Value> {
    [VInt(c.input), VInt(c.output), VInt(c.dirs), VInt(c.files), VInt(c.errors), VInt(c.edges)]
  }

  lemma CounterNamesDistinct()
    ensures Distinct(CounterNames)
  {
  }

  /** `get_counts`: exactly the six counters, under their names. */
  function GetCounts(c: Counters): (r: Dict<Value>)
    ensures Keys(r) == CounterNames
    ensures WellFormed(r)
    ensures forall i :: 0 <= i < 6 ==> Get(r, CounterNames[i]) == Some(CounterValues(c)[i])
  {
    CounterNamesDistinct();
    var r := Zip(CounterNames, CounterValues(c));
    forall i | 0 <= i < 6
      ensures Get(r, CounterNames[i]) == Some(CounterValues(c)[i])
    {
      ZipGet(CounterNames, CounterValues(c), i);
    }
    r
  }

  /** A freshly built ingester reports zero for every counter. */
  lemma NewIngesterCounts(kwargs: Dict<Value>, now: string, defaults: Dirs, k: string)
    requires NewIngester(kwargs, now, defaults).Ok?
    requires k in CounterNames
    ensures Get(GetCounts(NewIngester(kwargs, now, defaults).value.counters), k) == Some(VInt(0))
  {
    var i :| 0 <= i < 6 && CounterNames[i] == k;
  }

  /** The counters after `write_data_to_file`, and the exception it ends
      with, if any: counting is done entry by entry, so an exception
      leaves the entries written so far counted. */
  datatype Outcome = Outcome(counters: Counters, raised: Option<PyError>)

  /** The number of leading entries `json` can serialise. */
  function Writable(data: seq<Dict<Value>>): (r: nat)
    ensures r <= |data|
    ensures forall i :: 0 <= i < r ==> JsonSerializable(VDict(data[i]))
    ensures r < |data| ==> !JsonSerializable(VDict(data[r]))
    decreases |data|
  {
    if |data| == 0 || !JsonSerializable(VDict(data[0])) then 0
    else
      var rest := Writable(data[1..]);
      assert forall i :: 1 <= i < 1 + rest ==> data[i] == data[1..][i - 1];
      1 + rest
  }

  /** `write_data_to_file(data, file_name, jsonlines_output)`: data and
      file name must be given (ValueError).  JSON Lines output writes the
      entries' dictionaries in order, counting each, and stops with
      TypeError at the first one `json` cannot serialise.  The other branch
      hands the file name to `json.dump`, which needs a file object: a
      `str` has no `write` (AttributeError). */
  function WriteDataToFile(c: Counters, data: Option<seq<Dict<Value>>>, fileName: Option<string>,
                           jsonLines: bool): (r: Outcome)
    ensures r.raised.None? <==> (data.Some? && fileName.Some? && jsonLines
                                 && forall i :: 0 <= i < |data.value| ==> JsonSerializable(VDict(data.value[i])))
    ensures data.None? || fileName.None? ==> r == Outcome(c, Some(ValueError))
    ensures r.raised.None? ==> r.counters == c.(output := c.output + |data.value|)
    ensures r.counters.(output := c.output) == c
    ensures c.output <= r.counters.output
  {
    if data.None? || fileName.None? then Outcome(c, Some(ValueError))
    else if !jsonLines then Outcome(c, Some(AttributeError))
    else
      var n := Writable(data.value);
      Outcome(c.(output := c.output + n), if n == |data.value| then None else Some(TypeError))
  }

  /** Two successful writes count the same as one write of both lists. */
  lemma WriteAdds(c: Counters, a: seq<Dict<Value>>, b: seq<Dict<Value>>, fa: string, fb: string)
    requires WriteDataToFile(c, Some(a), Some(fa), true).raised.None?
    requires WriteDataToFile(WriteDataToFile(c, Some(a), Some(fa), true).counters, Some(b), Some(fb), true).raised.None?
    ensures WriteDataToFile(c, Some(a + b), Some(fa), true)
            == Outcome(WriteDataToFile(WriteDataToFile(c, Some(a), Some(fa), true).counters,
                                       Some(b), Some(fb), true).counters, None)
  {
    var ab := a + b;
    forall i | 0 <= i < |ab|
      ensures JsonSerializable(VDict(ab[i]))
    {
      if i >= |a| {
        assert ab[i] == b[i - |a|];
      }
    }
  }
}
