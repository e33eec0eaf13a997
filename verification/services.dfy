/** Service records: the dictionary `create_service_data` builds from
    keyword arguments, the fields of an `IndalekoService`, its
    `get_service_data` and `to_dict` layouts, and the service-type check
    made before registration.  Fresh identifiers and the current time are
    parameters; database lookups and inserts are not modelled.
 */
module Services {

  import opened Errors
  import opened Dicts
  import opened Values

  /** `IndalekoServices.service_types`, in declaration order. */
  const ServiceTypes: seq<string> := [
    "Test",
    "Machine Configuration",
    "Indexer",
    "Ingester",
    "Semantic Transducer",
    "Activity Context Generator",
    "Activity Data Collector",
    "Activity Data Registrar"
  ]

  /** `v in IndalekoServices.service_types`: only a listed string matches. */
  predicate KnownType(v: Value) {
    v.VStr? && v.s in ServiceTypes
  }

  /** The service-data keys, `Record` and `_key` are eight different
      strings. */
  lemma KeysDistinct()
    ensures Distinct(ServiceDataKeys + ["Record", "_key"])
    ensures Distinct(ServiceDataKeys)
  {
    var all := ServiceDataKeys + ["Record", "_key"];
    forall i, j | 0 <= i < j < |ServiceDataKeys|
      ensures ServiceDataKeys[i] != ServiceDataKeys[j]
    {
      assert ServiceDataKeys[i] == all[i] && ServiceDataKeys[j] == all[j];
    }
  }

  /** The keys of a list of optional entries. */
  function Names(es: seq<(string, Option<Value>)>): (r: seq<string>)
    ensures |r| == |es|
    ensures forall i :: 0 <= i < |es| ==> r[i] == es[i].0
  {
    seq(|es|, i requires 0 <= i < |es| => es[i].0)
  }

  /** The dictionary built by assigning, in order, each entry that is
      present to a key not yet in it: `d[k] = v` under `if k in kwargs`. */
  function Present(es: seq<(string, Option<Value>)>): (r: Dict<Value>)
    decreases |es|
  {
    if |es| == 0 then []
    else
      match es[0].1
      case None => Present(es[1..])
      case Some(v) => [(es[0].0, v)] + Present(es[1..])
  }

  /** A key no entry carries is absent. */
  lemma {:induction false} PresentAbsent(es: seq<(string, Option<Value>)>, k: string)
    requires k !in Names(es)
    ensures Get(Present(es), k).None?
    decreases |es|
  {
    if |es| > 0 {
      assert Names(es[1..]) == Names(es)[1..];
      PresentAbsent(es[1..], k);
    }
  }

  /** With distinct keys, each key reads its entry's value when present. */
  lemma {:induction false} PresentGet(es: seq<(string, Option<Value>)>, i: nat)
    requires Distinct(Names(es))
    requires i < |es|
    ensures Get(Present(es), es[i].0) == es[i].1
    decreases i
  {
    assert Names(es[1..]) == Names(es)[1..];
    DistinctCons(es[0].0, Names(es[1..]));
    assert Names(es) == [es[0].0] + Names(es[1..]);
    if i == 0 {
      if es[0].1.None? {
        PresentAbsent(es[1..], es[0].0);
      }
    } else {
      PresentGet(es[1..], i - 1);
    }
  }

  /** Present entries with distinct keys make a well-formed dictionary. */
  lemma {:induction false} PresentWellFormed(es: seq<(string, Option<Value>)>)
    requires Distinct(Names(es))
    ensures WellFormed(Present(es))
    decreases |es|
  {
    if |es| > 0 {
      assert Names(es[1..]) == Names(es)[1..];
      assert Names(es) == [es[0].0] + Names(es[1..]);
      DistinctCons(es[0].0, Names(es[1..]));
      PresentWellFormed(es[1..]);
      if es[0].1.Some? {
        var rest := Present(es[1..]);
        PresentAbsent(es[1..], es[0].0);
        assert Keys([(es[0].0, es[0].1.value)] + rest) == [es[0].0] + Keys(rest);
        DistinctCons(es[0].0, Keys(rest));
      }
    }
  }

  /** The keys `create_service_data` may write. */
  const ServiceDataKeys: seq<string> := ["Name", "Description", "Version", "Identifier", "Type", "Created"]

  /** The six entries of the service data, in writing order. */
  function ServiceEntries(kwargs: Dict<Value>, freshId: string, now: string): (r: seq<(string, Option<Value>)>)
    ensures Names(r) == ServiceDataKeys
  {
    var r := [
      ("Name", Get(kwargs, "service_name")),
      ("Description", Get(kwargs, "service_description")),
      ("Version", Get(kwargs, "service_version")),
      ("Identifier", Some(GetOr(kwargs, "service_identifier", VStr(freshId)))),
      ("Type", Get(kwargs, "service_type")),
      ("Created", Some(GetOr(kwargs, "creation_date", VStr(now))))];
    assert Names(r) == ServiceDataKeys;
    r
  }

  /** `IndalekoService.create_service_data(**kwargs)`: `service_name` and
      `service_version` are required (ValueError); the description and type
      are copied only when given; the identifier is `freshId` and the
      creation date `now` when not given. */
  function CreateServiceData(kwargs: Dict<Value>, freshId: string, now: string): (r: Result<Dict<Value>>)
    ensures r.Err? <==> Get(kwargs, "service_name").None? || Get(kwargs, "service_version").None?
    ensures r.Err? ==> r.error == ValueError
    ensures r.Ok? ==> WellFormed(r.value)
  {
    var _ :- Check(Get(kwargs, "service_name").Some?, ValueError);
    var _ :- Check(Get(kwargs, "service_version").Some?, ValueError);
    KeysDistinct();
    PresentWellFormed(ServiceEntries(kwargs, freshId, now));
    Ok(Present(ServiceEntries(kwargs, freshId, now)))
  }

  /** What each key of the service data holds: the keyword argument, the
      given or fresh identifier, the given or current creation date; no
      other key is written. */
  lemma CreateServiceDataGet(kwargs: Dict<Value>, freshId: string, now: string)
    requires CreateServiceData(kwargs, freshId, now).Ok?
    ensures var r := CreateServiceData(kwargs, freshId, now).value;
      && Get(r, "Name") == Get(kwargs, "service_name")
      && Get(r, "Description") == Get(kwargs, "service_description")
      && Get(r, "Version") == Get(kwargs, "service_version")
      && Get(r, "Identifier") == Some(GetOr(kwargs, "service_identifier", VStr(freshId)))
      && Get(r, "Type") == Get(kwargs, "service_type")
      && Get(r, "Created") == Some(GetOr(kwargs, "creation_date", VStr(now)))
      && forall k :: k !in ServiceDataKeys ==> Get(r, k).None?
  {
    var es := ServiceEntries(kwargs, freshId, now);
    KeysDistinct();
    PresentGet(es, 0);
    PresentGet(es, 1);
    PresentGet(es, 2);
    PresentGet(es, 3);
    PresentGet(es, 4);
    PresentGet(es, 5);
    forall k | k !in ServiceDataKeys
      ensures Get(Present(es), k).None?
    {
      PresentAbsent(es, k);
    }
  }

  /** The fields of an `IndalekoService`; `VNone` where Python has `None`. */
  datatype Service = Service(
    name: Value,
    description: Value,
    version: Value,
    identifier: Value,
    serviceType: Value,
    created: Value)

  /** A field that holds the keyword argument `k` when it is given and
      None otherwise. */
  predicate ArgOrNone(kwargs: Dict<Value>, k: string, field: Value) {
    && (Get(kwargs, k).Some? ==> Some(field) == Get(kwargs, k))
    && (Get(kwargs, k).None? ==> field == VNone)
  }

  /** The field assignments of `IndalekoService.__init__`: each field is
      the keyword argument of the same name or None, and the creation date
      defaults to `now`. */
  function ServiceOf(kwargs: Dict<Value>, now: string): (r: Service)
    ensures ArgOrNone(kwargs, "service_name", r.name)
    ensures ArgOrNone(kwargs, "service_description", r.description)
    ensures ArgOrNone(kwargs, "service_version", r.version)
    ensures ArgOrNone(kwargs, "service_identifier", r.identifier)
    ensures ArgOrNone(kwargs, "service_type", r.serviceType)
    ensures Get(kwargs, "creation_date").Some? ==> Some(r.created) == Get(kwargs, "creation_date")
    ensures Get(kwargs, "creation_date").None? ==> r.created == VStr(now)
  {
    Service(
      GetOr(kwargs, "service_name", VNone),
      GetOr(kwargs, "service_description", VNone),
      GetOr(kwargs, "service_version", VNone),
      GetOr(kwargs, "service_identifier", VNone),
      GetOr(kwargs, "service_type", VNone),
      GetOr(kwargs, "creation_date", VStr(now)))
  }

  function Fields(s: Service): seq<Value> {
    [s.name, s.description, s.version, s.identifier, s.serviceType, s.created]
  }

  /** `get_service_data`: exactly the six fields, in the order of
      `ServiceDataKeys`. */
  function GetServiceData(s: Service): (r: Dict<Value>)
    ensures Keys(r) == ServiceDataKeys
    ensures WellFormed(r)
    ensures forall i :: 0 <= i < 6 ==> Get(r, ServiceDataKeys[i]) == Some(Fields(s)[i])
  {
    var r := Zip(ServiceDataKeys, Fields(s));
    forall i | 0 <= i < 6
      ensures Get(r, ServiceDataKeys[i]) == Some(Fields(s)[i])
    {
      ZipGet(ServiceDataKeys, Fields(s), i);
    }
    r
  }

  /** The record `create_service_data` builds and the service object built
      from the same arguments agree on every key the record carries, the
      identifier excepted when a fresh one had to be drawn. */
  lemma CreateAgreesWithService(kwargs: Dict<Value>, freshId: string, now: string, i: nat)
    requires CreateServiceData(kwargs, freshId, now).Ok?
    requires i < 6 && Get(CreateServiceData(kwargs, freshId, now).value, ServiceDataKeys[i]).Some?
    requires i == 3 ==> Get(kwargs, "service_identifier").Some?
    ensures Get(CreateServiceData(kwargs, freshId, now).value, ServiceDataKeys[i])
            == Get(GetServiceData(ServiceOf(kwargs, now)), ServiceDataKeys[i])
  {
    var es := ServiceEntries(kwargs, freshId, now);
    KeysDistinct();
    PresentGet(es, i);
    var s := ServiceOf(kwargs, now);
    assert es[i].0 == ServiceDataKeys[i];
    assert es[i].1 == Some(Fields(s)[i]);
    assert Get(GetServiceData(s), ServiceDataKeys[i]) == Some(Fields(s)[i]);
  }

  /** `IndalekoService.to_dict`: the service data, then `Record` (the
      record part's own `to_dict`, given here) and `_key`, a copy of the
      identifier.  Both keys are new, so the assignments append. */
  function ServiceToDict(s: Service, record: Dict<Value>): (r: Dict<Value>)
    ensures Keys(r) == ServiceDataKeys + ["Record", "_key"]
    ensures WellFormed(r)
    ensures Get(r, "_key") == Get(r, "Identifier") == Some(s.identifier)
    ensures Get(r, "Record") == Some(VDict(record))
    ensures forall i :: 0 <= i < 6 ==> Get(r, ServiceDataKeys[i]) == Get(GetServiceData(s), ServiceDataKeys[i])
  {
    var keys := ServiceDataKeys + ["Record", "_key"];
    var vals := Fields(s) + [VDict(record), s.identifier];
    var r := Zip(keys, vals);
    KeysDistinct();
    forall i | 0 <= i < 8
      ensures Get(r, keys[i]) == Some(vals[i])
    {
      ZipGet(keys, vals, i);
    }
    assert keys[6] == "Record" && keys[7] == "_key" && keys[3] == "Identifier";
    r
  }

  /** `IndalekoService.register_service` before the insert: an identifier
      and a creation date are supplied when missing, and the type must be
      one of `ServiceTypes` (AssertionError); the result is the service as
      registered. */
  function RegisterService(s: Service, freshId: string, now: string): (r: Result<Service>)
    ensures r.Ok? <==> KnownType(s.serviceType)
    ensures r.Err? ==> r.error == AssertionError
    ensures r.Ok? ==> r.value.identifier == (if s.identifier == VNone then VStr(freshId) else s.identifier)
    ensures r.Ok? ==> r.value.created == (if s.created == VNone then VStr(now) else s.created)
    ensures r.Ok? ==> r.value.name == s.name && r.value.version == s.version
                      && r.value.description == s.description && r.value.serviceType == s.serviceType
  {
    var s1 := if s.identifier == VNone then s.(identifier := VStr(freshId)) else s;
    var s2 := if s1.created == VNone then s1.(created := VStr(now)) else s1;
    var _ :- Need(KnownType(s2.serviceType));
    Ok(s2)
  }

  /** What registration hands back: never an empty identifier, and a type
      that is one of the eight service types. */
  lemma RegisteredData(s: Service, freshId: string, now: string)
    requires RegisterService(s, freshId, now).Ok?
    ensures var d := GetServiceData(RegisterService(s, freshId, now).value);
      Get(d, "Identifier").Some? && Get(d, "Identifier").value != VNone
      && Get(d, "Type").Some? && KnownType(Get(d, "Type").value)
  {
    var t := RegisterService(s, freshId, now).value;
    assert Get(GetServiceData(t), ServiceDataKeys[3]) == Some(Fields(t)[3]);
    assert Get(GetServiceData(t), ServiceDataKeys[4]) == Some(Fields(t)[4]);
  }

  /** `IndalekoServices.register_service`: the type must be one of
      `ServiceTypes` (AssertionError); the document inserted carries the
      given or a freshId identifier, under both `identifier` and `_key`. */
  function NewServiceDocument(name: Value, description: Value, version: Value, serviceType: Value,
                              serviceId: Value, freshId: string, now: string): (r: Result<Dict<Value>>)
    ensures r.Ok? <==> KnownType(serviceType)
    ensures r.Err? ==> r.error == AssertionError
    ensures r.Ok? ==> Keys(r.value) == ["name", "description", "version", "identifier", "created", "_key"]
    ensures r.Ok? ==> Get(r.value, "identifier") == Get(r.value, "_key")
                      == Some(if serviceId == VNone then VStr(freshId) else serviceId)
  {
    var _ :- Need(KnownType(serviceType));
    var id := if serviceId == VNone then VStr(freshId) else serviceId;
    var d := [("name", name), ("description", description), ("version", version),
              ("identifier", id), ("created", VStr(now)), ("_key", id)];
    assert Keys(d) == ["name", "description", "version", "identifier", "created", "_key"];
    GetIndex(d, 3);
    GetIndex(d, 5);
    Ok(d)
  }
}
