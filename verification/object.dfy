/** `IndalekoObject`: a record describing one storage object (a file or
    directory), built from a source reference, raw data and keyword
    arguments.  The keyword arguments other than `Attributes` are kept
    beside the record and overlaid on its dictionary form.
 */
module Objects {

  import opened Errors
  import opened Dicts
  import opened Values
  import opened Records

  /** Labels giving a timestamp its meaning. */
  const CreationTimestamp: string := "6b3f16ec-52d2-4e9b-afd0-e02a875ec6e6"
  const ModificationTimestamp: string := "434f7ac1-f71a-4cea-a830-e2ea9a47db5a"
  const AccessTimestamp: string := "581b5332-4d37-49c7-892a-854824f5d66f"
  const ChangeTimestamp: string := "3bdc4130-774f-4e99-914e-0bec9ee47aab"

  datatype Obj = Obj(record: Record, args: Dict<Value>)

  /** The four keyword arguments every object must be given. */
  predicate HasRequiredArgs(kwargs: Dict<Value>) {
    "URI" in Keys(kwargs) && "ObjectIdentifier" in Keys(kwargs)
    && "Timestamps" in Keys(kwargs) && "Size" in Keys(kwargs)
  }

  /** None of the names the constructor refuses: `source`, `_key`,
      `Data`. */
  predicate NoReservedArgs(kwargs: Dict<Value>) {
    "source" !in Keys(kwargs) && "_key" !in Keys(kwargs) && "Data" !in Keys(kwargs)
  }

  /** The attribute map: the `Attributes` argument, or an empty dict. */
  function AttributesArg(kwargs: Dict<Value>): Value {
    GetOr(kwargs, "Attributes", VDict([]))
  }

  /** The assertions the constructor makes before packing: a well-formed
      source, the required arguments and no reserved name. */
  predicate ObjectAsserts(source: Value, kwargs: Dict<Value>) {
    HasSourceFields(source) && HasRequiredArgs(kwargs) && NoReservedArgs(kwargs)
  }

  /** Every assertion holds, the record's dict check on `Attributes`
      included. */
  predicate ObjectArgsOk(source: Value, kwargs: Dict<Value>) {
    ObjectAsserts(source, kwargs) && AttributesArg(kwargs).VDict?
  }

  /** `IndalekoObject(source, raw_data, **kwargs)`.  The constructor's own
      assertions come first (a bad source, a missing required argument, a
      reserved name); then `msgpack.packb(raw_data)`, evaluated as the
      record's argument, raises on a value it cannot encode; then the
      record asserts that `Attributes` is a dict.  `kwargs` never holds
      `source` or `raw_data`: Python binds those names to the positional
      parameters, and a keyword argument of either name is a TypeError at
      the call, before the constructor runs. */
  function NewObject(source: Value, raw: Value, kwargs: Dict<Value>, enc: Encoder, stamp: Stamp): (r: Result<Obj>)
    requires WellFormed(kwargs)
    ensures r.Ok? <==> ObjectArgsOk(source, kwargs) && Packable(raw)
    ensures !ObjectAsserts(source, kwargs) ==> r == Err(AssertionError)
    ensures ObjectAsserts(source, kwargs) && !Packable(raw) ==> r == Err(Pack(enc, raw).error)
    ensures ObjectAsserts(source, kwargs) && Packable(raw) && !AttributesArg(kwargs).VDict?
            ==> r == Err(AssertionError)
    ensures r.Ok? ==> r.value.args == Remove(kwargs, "Attributes")
    ensures r.Ok? ==> r.value.record.attributes == AttributesArg(kwargs).entries
    ensures r.Ok? ==> Keys(r.value.record.source) == ["Identifier", "Version"]
    ensures r.Ok? ==> Get(r.value.record.source, "Identifier") == Get(source.entries, "Identifier")
    ensures r.Ok? ==> Get(r.value.record.source, "Version") == Get(source.entries, "Version")
    ensures r.Ok? ==> r.value.record.data == enc.b64(enc.packb(raw))
  {
    if !HasSourceFields(source) then Err(AssertionError)
    else if !HasRequiredArgs(kwargs) then Err(AssertionError)
    else
      var attributes := AttributesArg(kwargs);
      var args := Remove(kwargs, "Attributes");
      RemoveGet(kwargs, "Attributes", "source");
      RemoveGet(kwargs, "Attributes", "_key");
      RemoveGet(kwargs, "Attributes", "Data");
      if "source" in Keys(args) || "_key" in Keys(args) || "Data" in Keys(args) then Err(AssertionError)
      else
        var packed :- Pack(enc, raw);
        var projected := VDict(ProjectSource(source.entries));
        var rec :- NewRecord(VBytes(packed), attributes, projected, enc, stamp);
        Ok(Obj(rec, args))
  }

  /** Assigning every entry of `args`, in order, onto `d`. */
  function Overlay(d: Dict<Value>, args: Dict<Value>): (r: Dict<Value>)
    ensures Keys(d) <= Keys(r)
    ensures WellFormed(d) ==> WellFormed(r)
    decreases |args|
  {
    if |args| == 0 then d
    else
      var d1 := Set(d, args[0].0, args[0].1);
      assert WellFormed(d) ==> WellFormed(d1) by {
        if WellFormed(d) {
          SetWellFormed(d, args[0].0, args[0].1);
        }
      }
      Overlay(d1, args[1..])
  }

  /** After the overlay an argument's value is what a key reads, and keys
      not among the arguments read as before. */
  lemma {:induction false} OverlayGet(d: Dict<Value>, args: Dict<Value>, k: string)
    requires WellFormed(args)
    ensures Get(Overlay(d, args), k) == if k in Keys(args) then Get(args, k) else Get(d, k)
    decreases |args|
  {
    if |args| > 0 {
      var d1 := Set(d, args[0].0, args[0].1);
      assert Keys(args) == [args[0].0] + Keys(args[1..]);
      DistinctCons(args[0].0, Keys(args[1..]));
      OverlayGet(d1, args[1..], k);
      SetGet(d, args[0].0, args[0].1, k);
    }
  }

  /** `to_dict`: the record's dictionary, then `_key` set to the object
      identifier, then every argument; KeyError when there is no
      `ObjectIdentifier` argument. */
  function ObjToDict(o: Obj): (r: Result<Dict<Value>>)
    ensures r.Ok? <==> "ObjectIdentifier" in Keys(o.args)
    ensures r.Err? ==> r.error == KeyError
    ensures r.Ok? ==> OutputKeys() <= Keys(r.value)
    ensures r.Ok? ==> WellFormed(r.value)
  {
    var oid :- At(o.args, "ObjectIdentifier");
    var base := ToDict(o.record);
    ToDictWellFormed(o.record);
    SetWellFormed(base, "_key", oid);
    var keyed := Set(base, "_key", oid);
    Ok(Overlay(keyed, o.args))
  }

  /** What each key of `to_dict` reads: an argument wins, then `_key`,
      then the record's own field. */
  lemma ObjToDictGet(o: Obj, k: string)
    requires WellFormed(o.args)
    requires "ObjectIdentifier" in Keys(o.args)
    ensures Get(ObjToDict(o).value, k) ==
      if k in Keys(o.args) then Get(o.args, k)
      else if k == "_key" then Get(o.args, "ObjectIdentifier")
      else Get(ToDict(o.record), k)
  {
    var oid := Get(o.args, "ObjectIdentifier").value;
    OverlayGet(Set(ToDict(o.record), "_key", oid), o.args, k);
    SetGet(ToDict(o.record), "_key", oid, k);
  }

  /** The arguments kept are the keyword arguments without `Attributes`. */
  lemma NewObjectArgs(source: Value, raw: Value, kwargs: Dict<Value>, enc: Encoder, stamp: Stamp, k: string)
    requires WellFormed(kwargs)
    requires NewObject(source, raw, kwargs, enc, stamp).Ok?
    ensures WellFormed(NewObject(source, raw, kwargs, enc, stamp).value.args)
    ensures Get(NewObject(source, raw, kwargs, enc, stamp).value.args, k) ==
      if k == "Attributes" then None else Get(kwargs, k)
  {
    RemoveWellFormed(kwargs, "Attributes");
    RemoveGet(kwargs, "Attributes", k);
  }

  /** A constructed object's dictionary carries `_key` equal to its
      `ObjectIdentifier`, and its `Data` is the record's encoded data: no
      argument can shadow either. */
  lemma NewObjectToDict(source: Value, raw: Value, kwargs: Dict<Value>, enc: Encoder, stamp: Stamp)
    requires WellFormed(kwargs)
    requires NewObject(source, raw, kwargs, enc, stamp).Ok?
    ensures ObjToDict(NewObject(source, raw, kwargs, enc, stamp).value).Ok?
    ensures Get(ObjToDict(NewObject(source, raw, kwargs, enc, stamp).value).value, "_key")
            == Get(kwargs, "ObjectIdentifier")
    ensures Get(ObjToDict(NewObject(source, raw, kwargs, enc, stamp).value).value, "Data")
            == Some(VStr(enc.b64(enc.packb(raw))))
  {
    var o := NewObject(source, raw, kwargs, enc, stamp).value;
    NewObjectArgs(source, raw, kwargs, enc, stamp, "_key");
    NewObjectArgs(source, raw, kwargs, enc, stamp, "Data");
    NewObjectArgs(source, raw, kwargs, enc, stamp, "ObjectIdentifier");
    ObjToDictGet(o, "_key");
    ObjToDictGet(o, "Data");
    GetIndex(ToDict(o.record), 0);
  }
}
