/** `IndalekoRelationship`: a directed edge between two vertices, each a
    `{collection, object}` dictionary, labelled by a relationship UUID and
    carrying a record of its own.  `IndalekoRelationshipContains` and
    `IndalekoRelationshipContainedBy` add nothing the base constructor does
    not already check.
 */
module Relationships {

  import opened Errors
  import opened Dicts
  import opened Values
  import opened Records
  import Uuid

  const DirectoryContains: string := "cde81295-f171-45be-8607-8100f4611430"
  const VolumeContains: string := "db1a48c0-91d9-4f16-bd65-845433e6cba9"
  const MachineContains: string := "f3dde8a2-cff5-41b9-bd00-0f41330895e1"
  const ContainedByDirectory: string := "3d4b772d-b4b0-4203-a410-ecac5dc6dafa"
  const ContainedByVolume: string := "f38c45ce-e8d8-4c5a-adc6-fc34f5f8b8e9"
  const ContainedByMachine: string := "1ba5935c-8e82-4dd9-92e7-d4b085958487"

  /** A vertex: a dict whose `object` is a valid UUID string and whose
      `collection` is a `str`. */
  predicate ValidVertex(v: Value) {
    v.VDict? && HasField(v, "object") && HasField(v, "collection")
    && Uuid.ValidString(Get(v.entries, "object").value)
    && Get(v.entries, "collection").value.VStr?
  }

  /** `validate_vertex`: returns True or fails an assertion. */
  function ValidateVertex(v: Value): (r: Result<bool>)
    ensures r.Ok? <==> ValidVertex(v)
    ensures r.Ok? ==> r.value
    ensures r.Err? ==> r.error == AssertionError
  {
    if !v.VDict? then Err(AssertionError)
    else match (Get(v.entries, "object"), Get(v.entries, "collection"))
      case (None, _) => Err(AssertionError)
      case (_, None) => Err(AssertionError)
      case (Some(obj), Some(coll)) =>
        if !Uuid.ValidString(obj) then Err(AssertionError)
        else if !coll.VStr? then Err(AssertionError)
        else Ok(true)
  }

  /** The `metadata` argument, or an empty dict. */
  function MetadataArg(kwargs: Dict<Value>): Value {
    GetOr(kwargs, "metadata", VDict([]))
  }

  /** Everything the constructor asserts before it builds the record. */
  predicate ArgsOk(kwargs: Dict<Value>) {
    "relationship" in Keys(kwargs) && "object1" in Keys(kwargs)
    && "object2" in Keys(kwargs) && "Record" !in Keys(kwargs)
    && ValidVertex(Get(kwargs, "object1").value)
    && ValidVertex(Get(kwargs, "object2").value)
    && Uuid.ValidString(Get(kwargs, "relationship").value)
    && MetadataArg(kwargs).VDict?
  }

  /** The constructor's checks, in the order it makes them. */
  function CheckArgs(kwargs: Dict<Value>): (r: Result<()>)
    ensures r.Ok? <==> ArgsOk(kwargs)
    ensures r.Err? ==> r.error == AssertionError
  {
    var a :- Need("relationship" in Keys(kwargs));
    var b :- Need("object1" in Keys(kwargs));
    var c :- Need("object2" in Keys(kwargs));
    var d :- Need("Record" !in Keys(kwargs));
    var v1 :- ValidateVertex(Get(kwargs, "object1").value);
    var v2 :- ValidateVertex(Get(kwargs, "object2").value);
    var e :- Need(Uuid.ValidString(Get(kwargs, "relationship").value));
    Need(MetadataArg(kwargs).VDict?)
  }

  /** The parameters of `IndalekoRecord.__init__`. */
  predicate IsRecordParam(k: string) {
    k == "raw_data" || k == "attributes" || k == "source"
  }

  /** Python binds the keyword arguments exactly: no unknown name and none
      of the three parameters missing. */
  predicate BindsRecordParams(kw: Dict<Value>) {
    (forall i :: 0 <= i < |kw| ==> IsRecordParam(kw[i].0))
    && "raw_data" in Keys(kw) && "attributes" in Keys(kw) && "source" in Keys(kw)
  }

  /** `IndalekoRecord.__init__(**kw)`: a TypeError unless the keywords bind
      the three parameters, then the record constructor. */
  function RecordFromKeywords(kw: Dict<Value>, enc: Encoder, stamp: Stamp): (r: Result<Record>)
    ensures !BindsRecordParams(kw) ==> r == Err(TypeError)
    ensures BindsRecordParams(kw) ==>
      r == NewRecord(Get(kw, "raw_data").value, Get(kw, "attributes").value, Get(kw, "source").value, enc, stamp)
  {
    if BindsRecordParams(kw) then
      NewRecord(Get(kw, "raw_data").value, Get(kw, "attributes").value, Get(kw, "source").value, enc, stamp)
    else Err(TypeError)
  }

  /** A constructed relationship: its record and the checked arguments. */
  datatype Rel = Rel(
    record: Record,
    collection1: string, object1: string,
    collection2: string, object2: string,
    relationship: string,
    metadata: Dict<Value>)

  /** The relationship built from checked arguments. */
  function RelOf(kwargs: Dict<Value>, rec: Record): (r: Rel)
    requires ArgsOk(kwargs)
    ensures Some(VStr(r.object1)) == Get(Get(kwargs, "object1").value.entries, "object")
    ensures Some(VStr(r.object2)) == Get(Get(kwargs, "object2").value.entries, "object")
    ensures Some(VStr(r.collection1)) == Get(Get(kwargs, "object1").value.entries, "collection")
    ensures Some(VStr(r.collection2)) == Get(Get(kwargs, "object2").value.entries, "collection")
    ensures Some(VStr(r.relationship)) == Get(kwargs, "relationship")
  {
    var v1, v2 := Get(kwargs, "object1").value.entries, Get(kwargs, "object2").value.entries;
    Rel(rec,
        Get(v1, "collection").value.s, Get(v1, "object").value.s,
        Get(v2, "collection").value.s, Get(v2, "object").value.s,
        Get(kwargs, "relationship").value.s,
        MetadataArg(kwargs).entries)
  }

  /** The constructor as written: after its checks it supplies a default
      `raw_data` and forwards every keyword argument to
      `IndalekoRecord.__init__`. */
  function NewRelationshipAsWritten(kwargs: Dict<Value>, enc: Encoder, stamp: Stamp): (r: Result<Rel>)
    ensures !ArgsOk(kwargs) ==> r == Err(AssertionError)
  {
    var ok :- CheckArgs(kwargs);
    var kw := if "raw_data" in Keys(kwargs) then kwargs else Set(kwargs, "raw_data", VBytes([]));
    var rec :- RecordFromKeywords(kw, enc, stamp);
    Ok(RelOf(kwargs, rec))
  }

  /** No relationship is ever built: the forwarded `relationship` keyword
      is not a parameter of the record, so every call that passes the checks
      ends in TypeError. */
  lemma AsWrittenNeverBuilds(kwargs: Dict<Value>, enc: Encoder, stamp: Stamp)
    ensures NewRelationshipAsWritten(kwargs, enc, stamp).Err?
    ensures NewRelationshipAsWritten(kwargs, enc, stamp).error == TypeError <==> ArgsOk(kwargs)
  {
    if ArgsOk(kwargs) {
      var kw := if "raw_data" in Keys(kwargs) then kwargs else Set(kwargs, "raw_data", VBytes([]));
      assert "relationship" in Keys(kw);
      var i :| 0 <= i < |kw| && kw[i].0 == "relationship";
      assert !IsRecordParam(kw[i].0);
    }
  }

  /** The constructor as intended: the same checks, then a record of the
      raw data (empty bytes by default), the metadata as attributes, and the
      `source` argument. */
  function NewRelationship(kwargs: Dict<Value>, enc: Encoder, stamp: Stamp): (r: Result<Rel>)
    ensures !ArgsOk(kwargs) ==> r == Err(AssertionError)
    ensures r.Ok? <==> ArgsOk(kwargs) && GetOr(kwargs, "raw_data", VBytes([])).VBytes?
                       && HasSourceFields(GetOr(kwargs, "source", VNone))
    ensures r.Err? ==> r.error == AssertionError
    ensures r.Ok? ==> r.value.record.attributes == MetadataArg(kwargs).entries
    ensures r.Ok? ==> Some(VStr(r.value.relationship)) == Get(kwargs, "relationship")
  {
    var ok :- CheckArgs(kwargs);
    var rec :- NewRecord(GetOr(kwargs, "raw_data", VBytes([])), MetadataArg(kwargs),
                         GetOr(kwargs, "source", VNone), enc, stamp);
    Ok(RelOf(kwargs, rec))
  }

  /** `to_dict`: the record's dictionary, then the endpoints as
      `collection/object` handles, then the two objects and the label. */
  function RelToDict(rel: Rel): (r: Dict<Value>)
    ensures Keys(r) == ["Record", "_from", "_to", "Object1", "Object2", "Relationship"]
    ensures WellFormed(r)
  {
    var r := [
      ("Record", VDict(ToDict(rel.record))),
      ("_from", VStr(rel.collection1 + "/" + rel.object1)),
      ("_to", VStr(rel.collection2 + "/" + rel.object2)),
      ("Object1", VStr(rel.object1)),
      ("Object2", VStr(rel.object2)),
      ("Relationship", VStr(rel.relationship))
    ];
    assert Keys(r) == ["Record", "_from", "_to", "Object1", "Object2", "Relationship"];
    r
  }

  /** An edge of the containment graph: a relationship label from
      `object1` to `object2`, both in the `Objects` collection. */
  datatype Edge = Edge(relationship: string, object1: Value, object2: Value)

  /** A vertex in the `Objects` collection. */
  function ObjectsVertex(obj: Value): Value {
    VDict([("collection", VStr("Objects")), ("object", obj)])
  }

  /** The keyword arguments the ingesters pass for an edge. */
  function EdgeKwargs(e: Edge, source: Value): Dict<Value> {
    [("relationship", VStr(e.relationship)),
     ("object1", ObjectsVertex(e.object1)),
     ("object2", ObjectsVertex(e.object2)),
     ("source", source)]
  }

  lemma ObjectsVertexValid(obj: Value)
    requires Uuid.ValidString(obj)
    ensures ValidVertex(ObjectsVertex(obj))
    ensures Get(ObjectsVertex(obj).entries, "object") == Some(obj)
    ensures Get(ObjectsVertex(obj).entries, "collection") == Some(VStr("Objects"))
  {
    GetIndex(ObjectsVertex(obj).entries, 0);
    GetIndex(ObjectsVertex(obj).entries, 1);
  }

  lemma EdgeKwargsGet(e: Edge, source: Value)
    ensures Get(EdgeKwargs(e, source), "relationship") == Some(VStr(e.relationship))
    ensures Get(EdgeKwargs(e, source), "object1") == Some(ObjectsVertex(e.object1))
    ensures Get(EdgeKwargs(e, source), "object2") == Some(ObjectsVertex(e.object2))
    ensures Get(EdgeKwargs(e, source), "source") == Some(source)
    ensures "Record" !in Keys(EdgeKwargs(e, source))
    ensures "metadata" !in Keys(EdgeKwargs(e, source))
    ensures "raw_data" !in Keys(EdgeKwargs(e, source))
  {
    var kw := EdgeKwargs(e, source);
    GetIndex(kw, 0);
    GetIndex(kw, 1);
    GetIndex(kw, 2);
    GetIndex(kw, 3);
  }

  /** The endpoint handles and the label, read back from `to_dict`. */
  lemma RelToDictGet(rel: Rel)
    ensures Get(RelToDict(rel), "_from") == Some(VStr(rel.collection1 + "/" + rel.object1))
    ensures Get(RelToDict(rel), "_to") == Some(VStr(rel.collection2 + "/" + rel.object2))
    ensures Get(RelToDict(rel), "Relationship") == Some(VStr(rel.relationship))
  {
    var d := RelToDict(rel);
    GetIndex(d, 1);
    GetIndex(d, 2);
    GetIndex(d, 5);
  }

  /** An edge between valid object identifiers, with a valid label and a
      well-shaped source, passes the checks and builds. */
  lemma EdgeChecks(e: Edge, source: Value, enc: Encoder, stamp: Stamp)
    requires Uuid.ValidString(e.object1) && Uuid.ValidString(e.object2)
    requires Uuid.ValidString(VStr(e.relationship))
    requires HasSourceFields(source)
    ensures ArgsOk(EdgeKwargs(e, source))
    ensures NewRelationship(EdgeKwargs(e, source), enc, stamp).Ok?
  {
    EdgeKwargsGet(e, source);
    ObjectsVertexValid(e.object1);
    ObjectsVertexValid(e.object2);
  }

  /** The built edge's endpoints are the two objects in `Objects`. */
  lemma EdgeRelFields(e: Edge, source: Value, enc: Encoder, stamp: Stamp)
    requires Uuid.ValidString(e.object1) && Uuid.ValidString(e.object2)
    requires Uuid.ValidString(VStr(e.relationship))
    requires HasSourceFields(source)
    ensures NewRelationship(EdgeKwargs(e, source), enc, stamp).Ok?
    ensures var rel := NewRelationship(EdgeKwargs(e, source), enc, stamp).value;
      rel.collection1 == "Objects" && rel.object1 == e.object1.s
      && rel.collection2 == "Objects" && rel.object2 == e.object2.s
      && rel.relationship == e.relationship
  {
    EdgeChecks(e, source, enc, stamp);
    EdgeKwargsGet(e, source);
    ObjectsVertexValid(e.object1);
    ObjectsVertexValid(e.object2);
  }

  /** The built edge's dictionary links the two `Objects/` handles. */
  lemma EdgeBuilds(e: Edge, source: Value, enc: Encoder, stamp: Stamp)
    requires Uuid.ValidString(e.object1) && Uuid.ValidString(e.object2)
    requires Uuid.ValidString(VStr(e.relationship))
    requires HasSourceFields(source)
    ensures NewRelationship(EdgeKwargs(e, source), enc, stamp).Ok?
    ensures var d := RelToDict(NewRelationship(EdgeKwargs(e, source), enc, stamp).value);
      Get(d, "_from") == Some(VStr("Objects" + "/" + e.object1.s))
      && Get(d, "_to") == Some(VStr("Objects" + "/" + e.object2.s))
      && Get(d, "Relationship") == Some(VStr(e.relationship))
  {
    EdgeRelFields(e, source, enc, stamp);
    RelToDictGet(NewRelationship(EdgeKwargs(e, source), enc, stamp).value);
  }

  /** The same edge through the constructor as written is a TypeError. */
  lemma EdgeFailsAsWritten(e: Edge, source: Value, enc: Encoder, stamp: Stamp)
    requires Uuid.ValidString(e.object1) && Uuid.ValidString(e.object2)
    requires Uuid.ValidString(VStr(e.relationship))
    ensures NewRelationshipAsWritten(EdgeKwargs(e, source), enc, stamp) == Err(TypeError)
  {
    EdgeKwargsGet(e, source);
    ObjectsVertexValid(e.object1);
    ObjectsVertexValid(e.object2);
    AsWrittenNeverBuilds(EdgeKwargs(e, source), enc, stamp);
  }
}
