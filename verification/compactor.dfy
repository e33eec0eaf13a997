/** The file-audit log compactor: canonised `open` and `close` records
    are paired per process and file descriptor, and each pair is handed to
    the writer as one compact record `[pid, procname, path, events]`.  The
    writer is modelled by the list of records it has been given.
 */
module Compactor {

  import opened Errors
  import opened Values
  import opened PyStr

  const EventSep: string := "|"
  const DateTsSep: string := "_"

  /** A `CompactRecord`. */
  datatype Record = Record(procName: string, pid: string, path: string, events: seq<string>)

  /** `CompactRecord()`: every field empty. */
  const Blank: Record := Record("", "", "", [])

  /** Where an event's date comes from: the `datefunc` the compactor was
      given, or by default `datetime.now().date()`, a `date` object and
      never a `str`. */
  datatype DateSource = Supplied(value: Value) | Today

  function DateText(d: DateSource): (r: Option<string>)
    ensures r.Some? <==> d.Supplied? && d.value.VStr?
  {
    if d.Supplied? && d.value.VStr? then Some(d.value.s) else None
  }

  /** `name|date_ts`. */
  function EventText(name: string, date: string, ts: string): string {
    name + EventSep + (date + DateTsSep + ts)
  }

  /** Without separators in the parts, an event splits back into its name,
      its date and its time. */
  lemma {:induction false} EventTextParts(name: string, date: string, ts: string)
    requires '|' !in name && '|' !in date && '|' !in ts
    requires '_' !in date && '_' !in ts
    ensures Split(EventText(name, date, ts), EventSep) == [name, date + DateTsSep + ts]
    ensures Split(date + DateTsSep + ts, DateTsSep) == [date, ts]
  {
    var rest := date + DateTsSep + ts;
    assert rest == date + ['_'] + ts;
    assert '|' !in rest;
    assert EventText(name, date, ts) == name + ['|'] + rest;
    SplitCharFirst(name, '|', rest);
    SplitCharNone(rest, '|');
    SplitCharFirst(date, '_', ts);
    SplitCharNone(ts, '_');
  }

  /** `add_event(name, date, ts)`: each argument must be a `str`
      (AssertionError, checked name, time, date); the event is appended
      after the ones already recorded. */
  function AddEvent(cr: Record, name: Value, date: DateSource, ts: Value): (r: Result<Record>)
    ensures r.Ok? <==> name.VStr? && ts.VStr? && DateText(date).Some?
    ensures r.Err? ==> r.error == AssertionError
    ensures r.Ok? ==> r.value.events == cr.events + [EventText(name.s, DateText(date).value, ts.s)]
    ensures r.Ok? ==> r.value.(events := cr.events) == cr
  {
    var n :- AsStr(name, AssertionError);
    var t :- AsStr(ts, AssertionError);
    var d :- match DateText(date) case Some(d) => Ok(d) case None => Err(AssertionError);
    Ok(cr.(events := cr.events + [EventText(n, d, t)]))
  }

  /** `add_pid`, `add_procname`, `add_path`: the value must be a `str`
      (AssertionError). */
  function AddPid(cr: Record, v: Value): (r: Result<Record>)
    ensures r.Ok? <==> v.VStr?
    ensures r.Err? ==> r.error == AssertionError
    ensures r.Ok? ==> r.value.pid == v.s && r.value.(pid := cr.pid) == cr
  {
    var s :- AsStr(v, AssertionError);
    Ok(cr.(pid := s))
  }

  function AddProcname(cr: Record, v: Value): (r: Result<Record>)
    ensures r.Ok? <==> v.VStr?
    ensures r.Err? ==> r.error == AssertionError
    ensures r.Ok? ==> r.value.procName == v.s && r.value.(procName := cr.procName) == cr
  {
    var s :- AsStr(v, AssertionError);
    Ok(cr.(procName := s))
  }

  function AddPath(cr: Record, v: Value): (r: Result<Record>)
    ensures r.Ok? <==> v.VStr?
    ensures r.Err? ==> r.error == AssertionError
    ensures r.Ok? ==> r.value.path == v.s && r.value.(path := cr.path) == cr
  {
    var s :- AsStr(v, AssertionError);
    Ok(cr.(path := s))
  }

  /** `to_list()`: `[pid, procname, path, events]`. */
  function ToList(cr: Record): (r: Value)
    ensures r.VList? && |r.items| == 4
    ensures r.items[3].VList? && |r.items[3].items| == |cr.events|
  {
    VList([VStr(cr.pid), VStr(cr.procName), VStr(cr.path), VList(Strs(cr.events))])
  }

  /** The state's key: the last two fields joined by `-`, and the third. */
  type Key = (string, Value)

  /** The compactor: the open records by key, the date source, and what the
      writer has been given. */
  datatype Compactor = Compactor(state: map<Key, Record>, date: DateSource, written: seq<Value>)

  function NewCompactor(date: DateSource): (r: Compactor)
    ensures r.state == map[] && r.written == []
  {
    Compactor(map[], date, [])
  }

  /** `'-'.join(values)` over `str` values (TypeError otherwise). */
  function JoinStrs(vs: seq<Value>, sep: string): (r: Result<string>)
    ensures r.Ok? <==> forall i :: 0 <= i < |vs| ==> vs[i].VStr?
    ensures r.Err? ==> r.error == TypeError
    decreases |vs|
  {
    if |vs| == 0 then Ok("")
    else
      var head :- AsStr(vs[0], TypeError);
      assert forall i :: 1 <= i < |vs| ==> vs[i] == vs[1..][i - 1];
      var rest :- JoinStrs(vs[1..], sep);
      Ok(if |vs| == 1 then head else head + sep + rest)
  }

  /** `get_state_key(record)`: `('-'.join(record[-2:]), record[2])`. */
  function StateKey(record: seq<Value>): (r: Result<Key>)
    ensures |record| >= 3 && record[|record| - 2].VStr? && record[|record| - 1].VStr?
            ==> r == Ok((record[|record| - 2].s + "-" + record[|record| - 1].s, record[2]))
  {
    var name :- JoinStrs(SliceFrom(record, -2), "-");
    var fd :- match Index(record, 2) case Some(v) => Ok(v) case None => Err(IndexError);
    assert |record| >= 3 && record[|record| - 2].VStr? && record[|record| - 1].VStr?
           ==> name == record[|record| - 2].s + "-" + record[|record| - 1].s by {
      if |record| >= 3 && record[|record| - 2].VStr? && record[|record| - 1].VStr? {
        var two := [record[|record| - 2], record[|record| - 1]];
        assert SliceFrom(record, -2) == two;
        assert two[1..] == [record[|record| - 1]];
        assert JoinStrs([record[|record| - 1]], "-") == Ok(record[|record| - 1].s);
      }
    }
    Ok((name, fd))
  }

  function At(record: seq<Value>, i: int): (r: Result<Value>)
    ensures r.Ok? <==> -|record| <= i < |record|
    ensures r.Err? ==> r.error == IndexError
  {
    match Index(record, i) case Some(v) => Ok(v) case None => Err(IndexError)
  }

  /** The record an `open` starts: the open event, then pid, process name
      and path from the last three fields (IndexError when there are only
      two fields). */
  function Opened(date: DateSource, record: seq<Value>): (r: Result<Record>)
    requires |record| >= 2
    ensures r.Ok? ==> DateText(date).Some? && record[0].VStr?
    ensures r.Ok? ==> r.value.events == [EventText("open", DateText(date).value, record[0].s)]
  {
    var cr :- AddEvent(Blank, VStr("open"), date, record[0]);
    var cr :- AddPid(cr, record[|record| - 1]);
    var cr :- AddProcname(cr, record[|record| - 2]);
    var path :- At(record, -3);
    AddPath(cr, path)
  }

  /** `add((status, record))`.  Status 1 is ignored.  An `open` stores a
      new record under its key, replacing any earlier one; a `close` adds
      its event to the record under its key (KeyError when there is none),
      writes the record once and forgets it; any other action raises.  The
      key is a tuple, so both uses hash its second part: a list or dict
      there is a TypeError. */
  function Add(c: Compactor, status: int, record: seq<Value>): (r: Result<Compactor>)
    ensures status == 1 ==> r == Ok(c)
    ensures r.Ok? ==> r.value.date == c.date
    ensures status != 1 && |record| < 2 ==> r == Err(IndexError)
    ensures status != 1 && |record| >= 2 && record[1] != VStr("open") && record[1] != VStr("close")
            ==> r == Err(GenericException)
    ensures status != 1 && |record| >= 2 && record[1] == VStr("open") && DateText(c.date).None?
            ==> r == Err(AssertionError)
    ensures status != 1 && r.Ok? && record[1] == VStr("open")
            ==> (StateKey(record).Ok? && Opened(c.date, record).Ok?
                 && r.value.state == c.state[StateKey(record).value := Opened(c.date, record).value]
                 && r.value.written == c.written)
    ensures status != 1 && r.Ok? && (record[1] == VStr("open") || record[1] == VStr("close"))
            ==> StateKey(record).Ok? && Hashable(StateKey(record).value.1)
    ensures (status != 1 && |record| >= 2 && record[1] == VStr("open") && Opened(c.date, record).Ok?
             && StateKey(record).Ok? && !Hashable(StateKey(record).value.1)) ==> r == Err(TypeError)
    ensures (status != 1 && |record| >= 2 && record[1] == VStr("close") && StateKey(record).Ok?
             && !Hashable(StateKey(record).value.1)) ==> r == Err(TypeError)
    ensures (status != 1 && |record| >= 2 && record[1] == VStr("close") && StateKey(record).Ok?
             && Hashable(StateKey(record).value.1) && StateKey(record).value !in c.state) ==> r == Err(KeyError)
    ensures status != 1 && r.Ok? && record[1] == VStr("close")
            ==> (StateKey(record).Ok? && StateKey(record).value in c.state
                 && StateKey(record).value !in r.value.state
                 && r.value.state == c.state - {StateKey(record).value}
                 && |r.value.written| == |c.written| + 1
                 && r.value.written[..|c.written|] == c.written)
    ensures status != 1 && r.Ok? && record[1] == VStr("close")
            ==> (record[0].VStr? && DateText(c.date).Some?
                 && var stored := c.state[StateKey(record).value];
                    r.value.written[|c.written|]
                      == ToList(stored.(events := stored.events + [EventText("close", DateText(c.date).value, record[0].s)])))
  {
    if status == 1 then Ok(c)
    else if |record| < 2 then Err(IndexError)
    else if record[1] == VStr("open") then
      var cr :- Opened(c.date, record);
      var key :- StateKey(record);
      if !Hashable(key.1) then Err(TypeError)
      else Ok(c.(state := c.state[key := cr]))
    else if record[1] == VStr("close") then
      var key :- StateKey(record);
      if !Hashable(key.1) then Err(TypeError)
      else if key !in c.state then Err(KeyError)
      else
        var cr :- AddEvent(c.state[key], VStr("close"), c.date, record[0]);
        assert (c.written + [ToList(cr)])[..|c.written|] == c.written;
        Ok(c.(state := c.state - {key}, written := c.written + [ToList(cr)]))
    else Err(GenericException)
  }

  /** The compactor fed a sequence of status-tagged records, one `add`
      each: the date function never changes, and the writer only ever
      receives more records after the ones it had. */
  function Run(c: Compactor, inputs: seq<(int, seq<Value>)>): (r: Result<Compactor>)
    ensures r.Ok? ==> r.value.date == c.date
    ensures r.Ok? ==> |r.value.written| >= |c.written| && r.value.written[..|c.written|] == c.written
    decreases |inputs|
  {
    if |inputs| == 0 then Ok(c)
    else
      var c' :- Add(c, inputs[0].0, inputs[0].1);
      var r := Run(c', inputs[1..]);
      assert r.Ok? ==> r.value.written[..|c'.written|][..|c.written|] == r.value.written[..|c.written|];
      r
  }

  /** The inputs whose status is not 1. */
  function Valid(inputs: seq<(int, seq<Value>)>): (r: seq<(int, seq<Value>)>)
    ensures forall i :: 0 <= i < |r| ==> r[i].0 != 1
    decreases |inputs|
  {
    if |inputs| == 0 then []
    else (if inputs[0].0 != 1 then [inputs[0]] else []) + Valid(inputs[1..])
  }

  /** Records with status 1 change nothing: feeding them or leaving them
      out gives the same compactor. */
  lemma {:induction false} InvalidIgnored(c: Compactor, inputs: seq<(int, seq<Value>)>)
    ensures Run(c, inputs) == Run(c, Valid(inputs))
    decreases |inputs|
  {
    if |inputs| > 0 {
      if inputs[0].0 == 1 {
        assert Valid(inputs) == Valid(inputs[1..]);
        InvalidIgnored(c, inputs[1..]);
      } else {
        var v := Valid(inputs);
        assert v == [inputs[0]] + Valid(inputs[1..]);
        assert v[0] == inputs[0] && v[1..] == Valid(inputs[1..]);
        var n := Add(c, inputs[0].0, inputs[0].1);
        if n.Ok? {
          InvalidIgnored(n.value, inputs[1..]);
        }
      }
    }
  }

  /** How many of the inputs are `close` records. */
  function Closes(inputs: seq<(int, seq<Value>)>): (r: nat)
    ensures r <= |inputs|
    decreases |inputs|
  {
    if |inputs| == 0 then 0
    else (if inputs[0].0 != 1 && |inputs[0].1| >= 2 && inputs[0].1[1] == VStr("close") then 1 else 0)
         + Closes(inputs[1..])
  }

  /** A run that does not raise writes one record per `close`, after what
      was written before. */
  lemma {:induction false} OneWritePerClose(c: Compactor, inputs: seq<(int, seq<Value>)>)
    requires Run(c, inputs).Ok?
    ensures |Run(c, inputs).value.written| == |c.written| + Closes(inputs)
    ensures Run(c, inputs).value.written[..|c.written|] == c.written
    decreases |inputs|
  {
    if |inputs| > 0 {
      var n := Add(c, inputs[0].0, inputs[0].1).value;
      OneWritePerClose(n, inputs[1..]);
      var w := Run(c, inputs).value.written;
      assert w[..|n.written|][..|c.written|] == w[..|c.written|];
    }
  }

  /** An `open` then a `close` of the same process and descriptor write
      `[pid, procname, path, [open|date_t1, close|date_t2]]` and leave
      nothing open under that key. */
  lemma {:induction false} OpenThenClose(c: Compactor, openRec: seq<Value>, closeRec: seq<Value>,
                                         t1: string, t2: string, fd: Value, path: string, proc: string,
                                         pid: string, date: string)
    requires c.date == Supplied(VStr(date)) && Hashable(fd)
    requires openRec == [VStr(t1), VStr("open"), fd, VStr(path), VStr(proc), VStr(pid)]
    requires closeRec == [VStr(t2), VStr("close"), fd, VStr(proc), VStr(pid)]
    ensures var c1 := Add(c, 0, openRec);
      c1.Ok? && Add(c1.value, 0, closeRec)
                == Ok(c.(state := c.state - {(proc + "-" + pid, fd)},
                         written := c.written
                                    + [VList([VStr(pid), VStr(proc), VStr(path),
                                              VList([VStr(EventText("open", date, t1)),
                                                     VStr(EventText("close", date, t2))])])]))
  {
    var key := (proc + "-" + pid, fd);
    assert StateKey(openRec) == Ok(key);
    assert StateKey(closeRec) == Ok(key);
    var cr := Record(proc, pid, path, [EventText("open", date, t1)]);
    assert Opened(c.date, openRec) == Ok(cr);
    var c1 := c.(state := c.state[key := cr]);
    assert Add(c, 0, openRec) == Ok(c1);
    var closed := cr.(events := cr.events + [EventText("close", date, t2)]);
    assert AddEvent(cr, VStr("close"), c.date, VStr(t2)) == Ok(closed);
    assert c1.state - {key} == c.state - {key};
    assert Strs(closed.events) == [VStr(EventText("open", date, t1)), VStr(EventText("close", date, t2))];
  }

  /** Without a date function, an `open` fails `add_event`'s `str` check. */
  lemma {:induction false} DefaultDateFails(c: Compactor, record: seq<Value>)
    requires c.date == Today
    requires |record| >= 2 && record[1] == VStr("open")
    ensures Add(c, 0, record) == Err(AssertionError)
  {
  }
}
