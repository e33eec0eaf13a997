/** `IndalekoRecord`: the base record that objects, relationships and
    services carry.  It holds five slots — the raw data (as base64 text),
    an attribute dictionary, a source reference, a record identifier and a
    record timestamp — and behaves like a dictionary over its attributes.
 */
module Records {

  import opened Errors
  import opened Dicts
  import opened Values
  import Uuid

  datatype Record = Record(
    data: string,               // `__raw_data__`
    attributes: Dict<Value>,    // `__attributes__`
    source: Dict<Value>,        // `__source__`
    identifier: string,         // `__identifier__`
    timestamp: string)          // `__timestamp__`

  /** The library calls a constructor makes on the raw data:
      `msgpack.packb` on a value it can encode, and the ASCII text of
      `base64.b64encode`.  Which values it refuses is `PackError`. */
  datatype Encoder = Encoder(packb: Value -> seq<int>, b64: seq<int> -> string)

  /** The integers msgpack encodes: signed 64-bit from -2^63, unsigned
      64-bit up to 2^64 - 1. */
  predicate PackableInt(i: int) {
    -0x8000_0000_0000_0000 <= i < 0x1_0000_0000_0000_0000
  }

  /** The values `msgpack.packb` accepts: no `uuid.UUID` anywhere and no
      integer outside 64 bits, however deep in lists and dicts. */
  predicate Packable(v: Value)
    decreases v
  {
    match v
    case VInt(i) => PackableInt(i)
    case VUuid(_) => false
    case VList(xs) => forall i :: 0 <= i < |xs| ==> Packable(xs[i])
    case VDict(d) => forall i :: 0 <= i < |d| ==> Packable(d[i].1)
    case _ => true
  }

  /** The first entry of `s` that is present. */
  function FirstSome<T>(s: seq<Option<T>>): (r: Option<T>)
    ensures r.None? <==> forall i :: 0 <= i < |s| ==> s[i].None?
    ensures r.Some? ==> r in s
  {
    if |s| == 0 then None
    else if s[0].Some? then s[0]
    else
      var r := FirstSome(s[1..]);
      assert forall i :: 1 <= i < |s| ==> s[i] == s[1..][i - 1];
      assert r.Some? ==> r in s by {
        if r.Some? {
          var j :| 0 <= j < |s[1..]| && s[1..][j] == r;
          assert s[j + 1] == r;
        }
      }
      r
  }

  /** The exception `msgpack.packb` raises, met in its traversal order:
      an integer outside 64 bits is an OverflowError, a `uuid.UUID` a
      TypeError, and list items and dict values are visited in order. */
  function PackError(v: Value): (r: Option<PyError>)
    ensures r.Some? ==> r.value == OverflowError || r.value == TypeError
    decreases v
  {
    match v
    case VInt(i) => if PackableInt(i) then None else Some(OverflowError)
    case VUuid(_) => Some(TypeError)
    case VList(xs) => FirstSome(seq(|xs|, i requires 0 <= i < |xs| => PackError(xs[i])))
    case VDict(d) => FirstSome(seq(|d|, i requires 0 <= i < |d| => PackError(d[i].1)))
    case _ => None
  }

  /** `PackError` finds an exception exactly on the values msgpack
      refuses. */
  lemma {:induction false} PackErrorExactly(v: Value)
    ensures PackError(v).None? <==> Packable(v)
    decreases v
  {
    match v
    case VList(xs) =>
      var s := seq(|xs|, i requires 0 <= i < |xs| => PackError(xs[i]));
      forall i | 0 <= i < |xs|
        ensures s[i].None? <==> Packable(xs[i])
      {
        PackErrorExactly(xs[i]);
      }
    case VDict(d) =>
      var s := seq(|d|, i requires 0 <= i < |d| => PackError(d[i].1));
      forall i | 0 <= i < |d|
        ensures s[i].None? <==> Packable(d[i].1)
      {
        PackErrorExactly(d[i].1);
      }
    case _ =>
  }

  /** `msgpack.packb(v)`: the encoding, or the exception it raises. */
  function Pack(enc: Encoder, v: Value): (r: Result<seq<int>>)
    ensures r.Ok? <==> Packable(v)
    ensures r.Ok? ==> r.value == enc.packb(v)
    ensures r.Err? ==> r.error == OverflowError || r.error == TypeError
  {
    PackErrorExactly(v);
    match PackError(v)
    case Some(e) => Err(e)
    case None => Ok(enc.packb(v))
  }

  /** What a construction draws from its environment: `str(uuid.uuid4())`
      and the current UTC time in ISO format. */
  datatype Stamp = Stamp(identifier: string, timestamp: string)

  /** `keyword_map`: each slot and the key `to_dict` writes it under. */
  const KeywordMap: seq<(string, string)> := [
    ("__raw_data__", "Data"),
    ("__attributes__", "Attributes"),
    ("__source__", "Source"),
    ("__identifier__", "RecordIdentifier"),
    ("__timestamp__", "RecordTimestamp")
  ]

  /** The output keys of `keyword_map`, in order. */
  function OutputKeys(): (r: seq<string>)
    ensures |r| == |KeywordMap|
    ensures forall i :: 0 <= i < |r| ==> r[i] == KeywordMap[i].1
  {
    seq(|KeywordMap|, i requires 0 <= i < |KeywordMap| => KeywordMap[i].1)
  }

  /** The shape the constructor asserts for a source. */
  predicate HasSourceFields(src: Value) {
    src.VDict? && HasField(src, "Identifier") && HasField(src, "Version")
  }

  /** The stored source: exactly `Identifier` and `Version`, copied. */
  function ProjectSource(src: Dict<Value>): (r: Dict<Value>)
    requires "Identifier" in Keys(src) && "Version" in Keys(src)
    ensures Keys(r) == ["Identifier", "Version"]
    ensures Get(r, "Identifier") == Get(src, "Identifier")
    ensures Get(r, "Version") == Get(src, "Version")
  {
    var r := [("Identifier", Get(src, "Identifier").value), ("Version", Get(src, "Version").value)];
    assert Keys(r) == ["Identifier", "Version"];
    r
  }

  /** `IndalekoRecord(raw_data, attributes, source)`: bytes, a dict, and a
      dict source with `Identifier` and `Version`, or AssertionError. */
  function NewRecord(raw: Value, attributes: Value, source: Value, enc: Encoder, stamp: Stamp): (r: Result<Record>)
    ensures r.Ok? <==> raw.VBytes? && attributes.VDict? && HasSourceFields(source)
    ensures r.Err? ==> r.error == AssertionError
    ensures r.Ok? ==> r.value.attributes == attributes.entries
    ensures r.Ok? ==> Keys(r.value.source) == ["Identifier", "Version"]
    ensures r.Ok? ==> Get(r.value.source, "Identifier") == Get(source.entries, "Identifier")
    ensures r.Ok? ==> Get(r.value.source, "Version") == Get(source.entries, "Version")
    ensures r.Ok? ==> r.value.data == enc.b64(raw.bytes)
    ensures r.Ok? ==> r.value.identifier == stamp.identifier && r.value.timestamp == stamp.timestamp
  {
    if !raw.VBytes? then Err(AssertionError)
    else if !attributes.VDict? then Err(AssertionError)
    else if !source.VDict? then Err(AssertionError)
    else if !HasField(source, "Identifier") then Err(AssertionError)
    else if !HasField(source, "Version") then Err(AssertionError)
    else Ok(Record(enc.b64(raw.bytes), attributes.entries, ProjectSource(source.entries),
                   stamp.identifier, stamp.timestamp))
  }

  /** Everything but the attribute map is the same. */
  predicate SameSlots(a: Record, b: Record) {
    a.data == b.data && a.source == b.source && a.identifier == b.identifier
    && a.timestamp == b.timestamp
  }

  /** `record[k] = v`. */
  function SetItem(rec: Record, k: string, v: Value): (r: Record)
    ensures SameSlots(rec, r)
    ensures GetItem(r, k) == Ok(v)
  {
    SetGet(rec.attributes, k, v, k);
    rec.(attributes := Set(rec.attributes, k, v))
  }

  /** `record[k]`: KeyError when the attribute is absent. */
  function GetItem(rec: Record, k: string): (r: Result<Value>)
    ensures r.Ok? <==> k in Keys(rec.attributes)
    ensures r.Ok? ==> Get(rec.attributes, k) == Some(r.value)
    ensures r.Err? ==> r.error == KeyError
  {
    At(rec.attributes, k)
  }

  /** `del record[k]`: KeyError when the attribute is absent. */
  function DelItem(rec: Record, k: string): (r: Result<Record>)
    ensures r.Ok? <==> k in Keys(rec.attributes)
    ensures r.Err? ==> r.error == KeyError
    ensures r.Ok? ==> SameSlots(rec, r.value)
    ensures r.Ok? ==> |r.value.attributes| == |rec.attributes| - 1
  {
    if k in Keys(rec.attributes) then
      RemoveDrops(rec.attributes, k);
      Ok(rec.(attributes := Remove(rec.attributes, k)))
    else Err(KeyError)
  }

  lemma {:induction false} RemoveDrops<V>(d: Dict<V>, k: string)
    requires k in Keys(d)
    ensures |Remove(d, k)| == |d| - 1
    decreases |d|
  {
    if d[0].0 != k {
      assert Keys(d) == [d[0].0] + Keys(d[1..]);
      RemoveDrops(d[1..], k);
    }
  }

  /** `len(record)` counts attributes. */
  function Len(rec: Record): (r: nat)
    ensures r == |Iter(rec)|
  {
    |rec.attributes|
  }

  /** `iter(record)`: the attribute names in order. */
  function Iter(rec: Record): (r: seq<string>)
    ensures forall k :: k in r <==> GetItem(rec, k).Ok?
  {
    Keys(rec.attributes)
  }

  /** `k in record`: the class has no `__contains__`, so Python searches
      `iter(record)`. */
  predicate Has(rec: Record, k: string)
    ensures Has(rec, k) <==> exists i :: 0 <= i < Len(rec) && Iter(rec)[i] == k
  {
    k in Iter(rec)
  }

  /** Assigning an attribute leaves every other attribute as it was. */
  lemma SetItemOthers(rec: Record, k: string, v: Value, j: string)
    requires j != k
    ensures GetItem(SetItem(rec, k, v), j) == GetItem(rec, j)
  {
    SetGet(rec.attributes, k, v, j);
  }

  /** Assigning adds one to the length exactly when the name is new. */
  lemma SetItemLen(rec: Record, k: string, v: Value)
    ensures Len(SetItem(rec, k, v)) == Len(rec) + (if Has(rec, k) then 0 else 1)
  {
    var r := SetItem(rec, k, v);
    assert |Keys(r.attributes)| == |r.attributes|;
  }

  /** After `del record[k]` the attribute is gone and the others read as
      before. */
  lemma DelItemReads(rec: Record, k: string, j: string)
    requires WellFormed(rec.attributes)
    requires Has(rec, k)
    ensures GetItem(DelItem(rec, k).value, j) == if j == k then Err(KeyError) else GetItem(rec, j)
  {
    RemoveGet(rec.attributes, k, j);
  }

  /** `k in record` agrees with `record[k]` succeeding. */
  lemma HasIffGet(rec: Record, k: string)
    ensures Has(rec, k) <==> GetItem(rec, k).Ok?
  {
  }

  /** `to_dict`: every slot under its `keyword_map` key, in that order.  A
      record built by the constructor has all five slots, so all five keys
      appear. */
  function ToDict(rec: Record): (r: Dict<Value>)
    ensures Keys(r) == OutputKeys()
  {
    var r := [
      ("Data", VStr(rec.data)),
      ("Attributes", VDict(rec.attributes)),
      ("Source", VDict(rec.source)),
      ("RecordIdentifier", VStr(rec.identifier)),
      ("RecordTimestamp", VStr(rec.timestamp))
    ];
    assert Keys(r) == OutputKeys();
    r
  }

  /** Reading a record back from its `to_dict` form. */
  function FromDict(d: Dict<Value>): Option<Record> {
    var data, attrs, src, id, ts := Get(d, "Data"), Get(d, "Attributes"), Get(d, "Source"),
      Get(d, "RecordIdentifier"), Get(d, "RecordTimestamp");
    if data.Some? && data.value.VStr? && attrs.Some? && attrs.value.VDict?
       && src.Some? && src.value.VDict? && id.Some? && id.value.VStr?
       && ts.Some? && ts.value.VStr?
    then Some(Record(data.value.s, attrs.value.entries, src.value.entries, id.value.s, ts.value.s))
    else None
  }

  /** `to_dict` loses nothing: the record can be read back from it. */
  lemma ToDictFromDict(rec: Record)
    ensures FromDict(ToDict(rec)) == Some(rec)
  {
    var d := ToDict(rec);
    GetIndex(d, 0);
    GetIndex(d, 1);
    GetIndex(d, 2);
    GetIndex(d, 3);
    GetIndex(d, 4);
  }

  /** The output keys are distinct, so the dictionary is well formed. */
  lemma ToDictWellFormed(rec: Record)
    ensures WellFormed(ToDict(rec))
  {
  }

  /** `validate_source`: a dict whose `Identifier` is a valid UUID string
      and whose `Version` is a `str`. */
  function ValidateSource(src: Value): (r: bool)
    ensures r <==> HasSourceFields(src)
                   && Uuid.ValidString(Get(src.entries, "Identifier").value)
                   && Get(src.entries, "Version").value.VStr?
  {
    if !src.VDict? then false
    else match (Get(src.entries, "Identifier"), Get(src.entries, "Version"))
      case (None, _) => false
      case (_, None) => false
      case (Some(id), Some(ver)) =>
        if !Uuid.ValidString(id) then false
        else ver.VStr?
  }

  /** `set_source`: asserts `validate_source`, then stores the same
      two-field projection the constructor stores. */
  function SetSource(rec: Record, src: Value): (r: Result<Record>)
    ensures r.Ok? <==> ValidateSource(src)
    ensures r.Err? ==> r.error == AssertionError
    ensures r.Ok? ==> r.value.attributes == rec.attributes && r.value.data == rec.data
    ensures r.Ok? ==> r.value.identifier == rec.identifier && r.value.timestamp == rec.timestamp
    ensures r.Ok? ==> Keys(r.value.source) == ["Identifier", "Version"]
    ensures r.Ok? ==> Get(r.value.source, "Identifier") == Get(src.entries, "Identifier")
    ensures r.Ok? ==> Get(r.value.source, "Version") == Get(src.entries, "Version")
  {
    if ValidateSource(src) then Ok(rec.(source := ProjectSource(src.entries)))
    else Err(AssertionError)
  }

  /** `set_base64_data`: a `str` is stored verbatim as the raw data. */
  function SetBase64Data(rec: Record, v: Value): (r: Result<Record>)
    ensures r.Ok? <==> v.VStr?
    ensures r.Err? ==> r.error == AssertionError
    ensures r.Ok? ==> r.value.attributes == rec.attributes && r.value.source == rec.source
    ensures r.Ok? ==> r.value.identifier == rec.identifier && r.value.timestamp == rec.timestamp
  {
    if v.VStr? then Ok(rec.(data := v.s)) else Err(AssertionError)
  }

  /** `set_attributes`: replaces the whole attribute map. */
  function SetAttributes(rec: Record, attrs: Dict<Value>): (r: Record)
    ensures SameSlots(rec, r)
    ensures forall k :: GetItem(r, k) == At(attrs, k)
  {
    rec.(attributes := attrs)
  }

  /** `set_data`: base64-encodes raw bytes into the data slot. */
  function SetData(rec: Record, raw: seq<int>, enc: Encoder): (r: Record)
    ensures r.attributes == rec.attributes && r.source == rec.source
    ensures r.identifier == rec.identifier && r.timestamp == rec.timestamp
    ensures r.data == enc.b64(raw)
  {
    rec.(data := enc.b64(raw))
  }

  /** `set_data(b)` and `set_base64_data(b64encode(b))` leave the same
      record. */
  lemma SetDataAgrees(rec: Record, raw: seq<int>, enc: Encoder)
    ensures SetBase64Data(rec, VStr(enc.b64(raw))) == Ok(SetData(rec, raw, enc))
  {
  }

  /** `get_data` returns what `set_base64_data` stored, and `to_dict`
      reports it under `Data`. */
  lemma Base64DataStored(rec: Record, s: string)
    ensures SetBase64Data(rec, VStr(s)).value.data == s
    ensures Get(ToDict(SetBase64Data(rec, VStr(s)).value), "Data") == Some(VStr(s))
  {
  }
}
