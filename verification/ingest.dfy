/** The graph-building body of `ingest` in the Dropbox, iCloud and Mac
    local ingesters.  Each normalises every indexer entry, sorts the objects
    into directories and files by a substring test on their attribute
    strings, maps a key of every directory to its identifier (a later
    directory with the same key overwrites an earlier one), and emits a
    Contains / ContainedBy edge pair for every object whose lookup key is in
    that map.  Reading the indexer file and writing the two output files are
    left to the caller: the model returns what would be written.
 */
module Ingest {

  import opened Errors
  import opened Dicts
  import opened Values
  import opened PyStr
  import opened Records
  import opened Objects
  import opened Relationships
  import opened Normalize

  /** `dir_count`, `file_count`, `error_count` and `edge_count`. */
  datatype Counters = Counters(dirs: nat, files: nat, errors: nat, edges: nat)

  /** The state of the first loop: the directories and files kept so far. */
  datatype Sorted = Sorted(dirs: seq<Obj>, files: seq<Obj>, counters: Counters)

  /** What `ingest` writes: the objects (directories first), the edges with
      the source they all carry, and the final counters. */
  datatype Outcome = Outcome(objects: seq<Obj>, edges: seq<Edge>, source: Value, counters: Counters)

  const NoCounts := Counters(0, 0, 0, 0)

  /** Python's `x in v` for a string `x`: a substring test on a string,
      membership in a list, a key test on a dict, and TypeError otherwise. */
  function StrIn(x: string, v: Value): (r: Result<bool>)
    ensures v.VStr? ==> r == Ok(Contains(v.s, x))
    ensures r.Err? <==> !(v.VStr? || v.VList? || v.VDict?)
  {
    match v
    case VStr(s) => Ok(Contains(s, x))
    case VList(items) => Ok(VStr(x) in items)
    case VDict(entries) => Ok(x in Keys(entries))
    case _ => Err(TypeError)
  }

  /** The directory test of the cloud ingesters: `S_IFDIR` in the Unix
      attributes, or else `FILE_ATTRIBUTE_DIRECTORY` in the Windows ones;
      the second is read only when the first test fails. */
  function CloudIsDirectory(args: Dict<Value>): (r: Result<bool>)
    ensures (Get(args, "UnixFileAttributes").Some? && Get(args, "UnixFileAttributes").value.VStr?
             && Contains(Get(args, "UnixFileAttributes").value.s, "S_IFDIR")) ==> r == Ok(true)
    ensures "UnixFileAttributes" !in Keys(args) ==> r == Err(KeyError)
  {
    var unix :- At(args, "UnixFileAttributes");
    var isDir :- StrIn("S_IFDIR", unix);
    if isDir then Ok(true)
    else
      var windows :- At(args, "WindowsFileAttributes");
      StrIn("FILE_ATTRIBUTE_DIRECTORY", windows)
  }

  /** The key of a dict lookup `parent in dirmap` when the map's keys are
      strings: a string is looked up, any other hashable value is simply not
      found, and a list or dict is unhashable (TypeError). */
  function ParentKey(v: Value): (r: Result<Option<string>>)
    ensures r.Err? <==> !Hashable(v)
    ensures v.VStr? ==> r == Ok(Some(v.s))
    ensures r.Ok? && r.value.Some? ==> v == VStr(r.value.value)
  {
    if !Hashable(v) then Err(TypeError)
    else if v.VStr? then Ok(Some(v.s))
    else Ok(None)
  }

  // ---------------------------------------------------------------------
  // The three phases, shared by the ingesters
  // ---------------------------------------------------------------------

  /** The first loop: each entry, in order, through an ingester's `step`
      (which receives the entry's position, for the fresh identifiers and
      clock readings the step draws). */
  function Sort(items: seq<Value>, step: (Sorted, nat, Value) -> Result<Sorted>): Result<Sorted>
    decreases |items|
  {
    if |items| == 0 then Ok(Sorted([], [], NoCounts))
    else
      var s :- Sort(items[..|items| - 1], step);
      step(s, |items| - 1, items[|items| - 1])
  }

  /** The counters agree with what has been kept. */
  predicate Consistent(s: Sorted) {
    s.counters.dirs == |s.dirs| && s.counters.files == |s.files|
  }

  /** A step that keeps the counters in agreement keeps them so over the
      whole loop. */
  lemma {:induction false} SortConsistent(items: seq<Value>, step: (Sorted, nat, Value) -> Result<Sorted>)
    requires forall s, i, v :: Consistent(s) && step(s, i, v).Ok? ==> Consistent(step(s, i, v).value)
    ensures Sort(items, step).Ok? ==> Consistent(Sort(items, step).value)
    decreases |items|
  {
    if |items| > 0 {
      SortConsistent(items[..|items| - 1], step);
    }
  }

  /** The edge counter starts at zero and the error counter is untouched
      by the later phases. */
  lemma {:induction false} SortNoEdges(items: seq<Value>, step: (Sorted, nat, Value) -> Result<Sorted>)
    requires forall s, i, v :: step(s, i, v).Ok? ==> step(s, i, v).value.counters.edges == s.counters.edges
    ensures Sort(items, step).Ok? ==> Sort(items, step).value.counters.edges == 0
    decreases |items|
  {
    if |items| > 0 {
      SortNoEdges(items[..|items| - 1], step);
    }
  }

  /** The key and identifier of every directory, in order, as `entry`
      reads them; the first failing read is the error. */
  function Entries(dirs: seq<Obj>, entry: Obj -> Result<(string, Value)>): (r: Result<seq<(string, Value)>>)
    ensures r.Ok? ==> |r.value| == |dirs|
    decreases |dirs|
  {
    if |dirs| == 0 then Ok([])
    else
      var front :- Entries(dirs[..|dirs| - 1], entry);
      var e :- entry(dirs[|dirs| - 1]);
      Ok(front + [e])
  }

  /** The second loop: `dirmap[key] = identifier` for every directory in
      order; `entry` gives one directory's key and identifier, reading them
      in the order the ingester does.  Only the reads can fail, so reading
      every entry first and then filling the map raises the same error. */
  function DirMap(dirs: seq<Obj>, entry: Obj -> Result<(string, Value)>): (r: Result<Dict<Value>>)
    ensures r.Ok? ==> WellFormed(r.value)
  {
    var es :- Entries(dirs, entry);
    FillWellFormed([], es);
    Ok(Fill([], es))
  }

  /** The entries read are the directories' own entries. */
  lemma {:induction false} EntriesOf(dirs: seq<Obj>, entry: Obj -> Result<(string, Value)>, i: int)
    requires Entries(dirs, entry).Ok? && 0 <= i < |dirs|
    ensures entry(dirs[i]).Ok? && Entries(dirs, entry).value[i] == entry(dirs[i]).value
    decreases |dirs|
  {
    var n := |dirs| - 1;
    if i < n {
      EntriesOf(dirs[..n], entry, i);
      assert dirs[..n][i] == dirs[i];
    }
  }

  /** Every directory's entry was read without error. */
  lemma DirMapEntries(dirs: seq<Obj>, entry: Obj -> Result<(string, Value)>)
    requires DirMap(dirs, entry).Ok?
    ensures forall i :: 0 <= i < |dirs| ==> entry(dirs[i]).Ok?
  {
    forall i | 0 <= i < |dirs|
      ensures entry(dirs[i]).Ok?
    {
      EntriesOf(dirs, entry, i);
    }
  }

  /** The map has a key exactly for the directories' keys. */
  lemma DirMapKeys(dirs: seq<Obj>, entry: Obj -> Result<(string, Value)>, k: string)
    requires DirMap(dirs, entry).Ok?
    ensures forall i :: 0 <= i < |dirs| ==> entry(dirs[i]).Ok?
    ensures k in Keys(DirMap(dirs, entry).value) <==>
              exists i :: 0 <= i < |dirs| && entry(dirs[i]).value.0 == k
  {
    DirMapEntries(dirs, entry);
    var es := Entries(dirs, entry).value;
    FillGet([], es, k);
    LastValueSome(es, k);
    if exists i :: 0 <= i < |es| && es[i].0 == k {
      var i :| 0 <= i < |es| && es[i].0 == k;
      EntriesOf(dirs, entry, i);
    }
    if exists i :: 0 <= i < |dirs| && entry(dirs[i]).value.0 == k {
      var i :| 0 <= i < |dirs| && entry(dirs[i]).value.0 == k;
      EntriesOf(dirs, entry, i);
    }
  }

  /** Each key holds the identifier of the LAST directory with that key. */
  lemma DirMapLast(dirs: seq<Obj>, entry: Obj -> Result<(string, Value)>, i: int)
    requires DirMap(dirs, entry).Ok?
    requires 0 <= i < |dirs| && entry(dirs[i]).Ok?
    requires forall j :: i < j < |dirs| ==> entry(dirs[j]).Ok? && entry(dirs[j]).value.0 != entry(dirs[i]).value.0
    ensures Get(DirMap(dirs, entry).value, entry(dirs[i]).value.0) == Some(entry(dirs[i]).value.1)
  {
    var es := Entries(dirs, entry).value;
    EntriesOf(dirs, entry, i);
    forall j | i < j < |es|
      ensures es[j].0 != es[i].0
    {
      EntriesOf(dirs, entry, j);
    }
    FillGet([], es, es[i].0);
    LastValueOf(es, i);
  }

  /** An edge pair: Contains from the child to its parent, then
      ContainedBy with the endpoints swapped. */
  function Pair(child: Value, parent: Value): (r: seq<Edge>)
    ensures |r| == 2
    ensures r[0].relationship == DirectoryContains && r[1].relationship == ContainedByDirectory
    ensures r[0].object1 == r[1].object2 == child && r[0].object2 == r[1].object1 == parent
  {
    [Edge(DirectoryContains, child, parent), Edge(ContainedByDirectory, parent, child)]
  }

  /** Whether an object gets an edge pair: its lookup key is in the map. */
  predicate Linked(item: Obj, dirmap: Dict<Value>, lookup: Obj -> Result<Option<string>>) {
    lookup(item).Ok? && lookup(item).value.Some? && lookup(item).value.value in Keys(dirmap)
  }

  /** The third loop: for each object in order, its lookup key; when the
      key is in the map, the pair to the identifier stored there.  The edge
      counter goes up by one per edge. */
  function Link(items: seq<Obj>, dirmap: Dict<Value>, lookup: Obj -> Result<Option<string>>): (r: Result<(seq<Edge>, nat)>)
    decreases |items|
  {
    if |items| == 0 then Ok(([], 0))
    else
      var front :- Link(items[..|items| - 1], dirmap, lookup);
      var last := items[|items| - 1];
      var parent :- lookup(last);
      if parent.None? || parent.value !in Keys(dirmap) then Ok(front)
      else
        var parentId := Get(dirmap, parent.value).value;
        var child :- At(last.args, "ObjectIdentifier");
        Ok((front.0 + Pair(child, parentId), front.1 + 2))
  }

  /** How many objects are linked: the reference count of pairs. */
  function LinkedCount(items: seq<Obj>, dirmap: Dict<Value>, lookup: Obj -> Result<Option<string>>): nat
    decreases |items|
  {
    if |items| == 0 then 0
    else LinkedCount(items[..|items| - 1], dirmap, lookup) + if Linked(items[|items| - 1], dirmap, lookup) then 1 else 0
  }

  /** The edge counter equals the number of edges, which is exactly two per
      linked object. */
  lemma {:induction false} LinkCounts(items: seq<Obj>, dirmap: Dict<Value>, lookup: Obj -> Result<Option<string>>)
    requires Link(items, dirmap, lookup).Ok?
    ensures var l := Link(items, dirmap, lookup).value;
      l.1 == |l.0| == 2 * LinkedCount(items, dirmap, lookup)
    decreases |items|
  {
    if |items| > 0 {
      LinkCounts(items[..|items| - 1], dirmap, lookup);
    }
  }

  /** Edges come in Contains / ContainedBy pairs with swapped endpoints. */
  lemma {:induction false} LinkPairs(items: seq<Obj>, dirmap: Dict<Value>, lookup: Obj -> Result<Option<string>>)
    requires Link(items, dirmap, lookup).Ok?
    ensures var es := Link(items, dirmap, lookup).value.0;
      |es| % 2 == 0
      && forall j :: 0 <= j < |es| / 2 ==> es[2 * j .. 2 * j + 2] == Pair(es[2 * j].object1, es[2 * j].object2)
    decreases |items|
  {
    if |items| > 0 {
      var front := items[..|items| - 1];
      LinkPairs(front, dirmap, lookup);
      var es0 := Link(front, dirmap, lookup).value.0;
      var es := Link(items, dirmap, lookup).value.0;
      if es != es0 {
        var p := es[|es0|..];
        assert es == es0 + p;
        forall j | 0 <= j < |es| / 2
          ensures es[2 * j .. 2 * j + 2] == Pair(es[2 * j].object1, es[2 * j].object2)
        {
          if j < |es0| / 2 {
            assert es[2 * j .. 2 * j + 2] == es0[2 * j .. 2 * j + 2];
          }
        }
      }
    }
  }

  /** When the first `n` objects are all linked, at least `n` are. */
  lemma {:induction false} LinkedPrefix(items: seq<Obj>, dirmap: Dict<Value>, lookup: Obj -> Result<Option<string>>, n: nat)
    requires n <= |items|
    requires forall i :: 0 <= i < n ==> Linked(items[i], dirmap, lookup)
    ensures LinkedCount(items, dirmap, lookup) >= n
    decreases |items|
  {
    if |items| > 0 {
      var front := items[..|items| - 1];
      var m := if n == |items| then n - 1 else n;
      forall i | 0 <= i < m
        ensures Linked(front[i], dirmap, lookup)
      {
        assert front[i] == items[i];
      }
      LinkedPrefix(front, dirmap, lookup, m);
    }
  }

  /** Every object whose lookup key is in the map yields exactly its pair:
      the Contains edge from it to the identifier stored under the key. */
  lemma {:induction false} LinkHasPair(items: seq<Obj>, dirmap: Dict<Value>, lookup: Obj -> Result<Option<string>>, i: int)
    requires Link(items, dirmap, lookup).Ok?
    requires 0 <= i < |items| && Linked(items[i], dirmap, lookup)
    ensures "ObjectIdentifier" in Keys(items[i].args)
    ensures var child := Get(items[i].args, "ObjectIdentifier").value;
      var parentId := Get(dirmap, lookup(items[i]).value.value).value;
      Edge(DirectoryContains, child, parentId) in Link(items, dirmap, lookup).value.0
      && Edge(ContainedByDirectory, parentId, child) in Link(items, dirmap, lookup).value.0
    decreases |items|
  {
    var n := |items| - 1;
    var front := items[..n];
    if i < n {
      assert items[i] == front[i];
      LinkHasPair(front, dirmap, lookup, i);
    } else {
      var child := Get(items[i].args, "ObjectIdentifier").value;
      var parentId := Get(dirmap, lookup(items[i]).value.value).value;
      var es := Link(items, dirmap, lookup).value.0;
      var es0 := Link(front, dirmap, lookup).value.0;
      assert es == es0 + Pair(child, parentId);
      assert es[|es0|] == Edge(DirectoryContains, child, parentId);
      assert es[|es0| + 1] == Edge(ContainedByDirectory, parentId, child);
    }
  }

  /** The three phases together. */
  function Build(sorted: Result<Sorted>, entry: Obj -> Result<(string, Value)>,
                 lookup: Obj -> Result<Option<string>>, source: Value): (r: Result<Outcome>)
    ensures r.Ok? ==> sorted.Ok? && r.value.objects == sorted.value.dirs + sorted.value.files
    ensures r.Ok? ==> r.value.counters.dirs == sorted.value.counters.dirs
                      && r.value.counters.files == sorted.value.counters.files
                      && r.value.counters.errors == sorted.value.counters.errors
    ensures r.Ok? ==> r.value.source == source
  {
    var s :- sorted;
    var dirmap :- DirMap(s.dirs, entry);
    var linked :- Link(s.dirs + s.files, dirmap, lookup);
    Ok(Outcome(s.dirs + s.files, linked.0, source, s.counters.(edges := linked.1)))
  }

  /** The map and the edges a successful build used. */
  lemma BuildParts(sorted: Result<Sorted>, entry: Obj -> Result<(string, Value)>,
                   lookup: Obj -> Result<Option<string>>, source: Value)
    requires Build(sorted, entry, lookup, source).Ok?
    ensures DirMap(sorted.value.dirs, entry).Ok?
    ensures var dirmap := DirMap(sorted.value.dirs, entry).value;
      var objects := sorted.value.dirs + sorted.value.files;
      Link(objects, dirmap, lookup).Ok?
      && Build(sorted, entry, lookup, source).value.edges == Link(objects, dirmap, lookup).value.0
      && Build(sorted, entry, lookup, source).value.counters.edges == Link(objects, dirmap, lookup).value.1
  {
  }

  // ---------------------------------------------------------------------
  // Dropbox
  // ---------------------------------------------------------------------

  /** One Dropbox entry: normalise it (any failure ends the ingest), then
      keep it as a directory (if the entry has a `path_display`) or as a
      file. */
  function DropboxStep(userId: Value, env: Env, stamps: nat -> Stamp, s: Sorted, i: nat, item: Value): (r: Result<Sorted>)
    ensures r.Ok? ==> r.value.counters.errors == s.counters.errors && r.value.counters.edges == s.counters.edges
    ensures Consistent(s) && r.Ok? ==> Consistent(r.value)
  {
    var obj :- DropboxNormalize(userId, item, env, stamps(i));
    var isDir :- CloudIsDirectory(obj.args);
    if isDir then
      if "path_display" !in Keys(item.entries) then Ok(s)
      else Ok(Sorted(s.dirs + [obj], s.files, s.counters.(dirs := s.counters.dirs + 1)))
    else Ok(Sorted(s.dirs, s.files + [obj], s.counters.(files := s.counters.files + 1)))
  }

  /** `dirmap[item.args['Path']] = item.args['ObjectIdentifier']`: the
      identifier is read first. */
  function CloudEntryKey(o: Obj): (r: Result<(string, Value)>)
    ensures r.Ok? ==> Get(o.args, "Path") == Some(VStr(r.value.0))
                      && Get(o.args, "ObjectIdentifier") == Some(r.value.1)
  {
    var oid :- At(o.args, "ObjectIdentifier");
    var path :- At(o.args, "Path");
    var key :- AsStr(path, TypeError);
    Ok((key, oid))
  }

  /** The cloud lookup: an object without `Path` is a ValueError, and its
      own `Path` is the key looked up. */
  function CloudLookup(o: Obj): (r: Result<Option<string>>)
    ensures "Path" !in Keys(o.args) ==> r == Err(ValueError)
    ensures r.Ok? && r.value.Some? ==> Get(o.args, "Path") == Some(VStr(r.value.value))
    ensures Get(o.args, "Path").Some? && Get(o.args, "Path").value.VStr? ==>
              r == Ok(Some(Get(o.args, "Path").value.s))
  {
    if "Path" !in Keys(o.args) then Err(ValueError)
    else ParentKey(Get(o.args, "Path").value)
  }

  /** The Dropbox loop body, with the ingester's settings fixed. */
  function DropboxSteps(userId: Value, env: Env, stamps: nat -> Stamp): (Sorted, nat, Value) -> Result<Sorted> {
    (s: Sorted, i: nat, v: Value) => DropboxStep(userId, env, stamps, s, i, v)
  }

  /** `IndalekoDropboxIngester.ingest` over the loaded indexer entries:
      every edge carries the Dropbox ingester as its source, the directory
      and file counters add up to the objects written, and no error is
      counted. */
  function DropboxIngest(userId: Value, items: seq<Value>, env: Env, stamps: nat -> Stamp): (r: Result<Outcome>)
    ensures r.Ok? ==> r.value.source == IngesterSource(DropboxIngesterId)
    ensures r.Ok? ==> r.value.counters.dirs + r.value.counters.files == |r.value.objects|
                      && r.value.counters.errors == 0
  {
    var step := DropboxSteps(userId, env, stamps);
    SortConsistent(items, step);
    SortErrorsZero(items, step);
    Build(Sort(items, step), CloudEntryKey, CloudLookup, IngesterSource(DropboxIngesterId))
  }

  /** A step that never counts an error leaves the error counter at zero. */
  lemma {:induction false} SortErrorsZero(items: seq<Value>, step: (Sorted, nat, Value) -> Result<Sorted>)
    requires forall s, i, v :: step(s, i, v).Ok? ==> step(s, i, v).value.counters.errors == s.counters.errors
    ensures Sort(items, step).Ok? ==> Sort(items, step).value.counters.errors == 0
    decreases |items|
  {
    if |items| > 0 {
      SortErrorsZero(items[..|items| - 1], step);
    }
  }

  /** The Dropbox counters describe the output: one directory or file count
      per object written, one edge count per edge, no errors. */
  lemma DropboxCounts(userId: Value, items: seq<Value>, env: Env, stamps: nat -> Stamp)
    requires DropboxIngest(userId, items, env, stamps).Ok?
    ensures var o := DropboxIngest(userId, items, env, stamps).value;
      o.counters.dirs + o.counters.files == |o.objects|
      && o.counters.edges == |o.edges| && o.counters.errors == 0
  {
    var step := DropboxSteps(userId, env, stamps);
    SortConsistent(items, step);
    SortErrorsZero(items, step);
    var sorted := Sort(items, step);
    BuildParts(sorted, CloudEntryKey, CloudLookup, IngesterSource(DropboxIngesterId));
    var dirmap := DirMap(sorted.value.dirs, CloudEntryKey).value;
    LinkCounts(sorted.value.dirs + sorted.value.files, dirmap, CloudLookup);
  }

  /** A directory of a successful cloud build is linked: its own `Path` is
      one of the map's keys. */
  lemma CloudDirectoryLinked(dirs: seq<Obj>, d: int)
    requires DirMap(dirs, CloudEntryKey).Ok? && 0 <= d < |dirs|
    ensures Linked(dirs[d], DirMap(dirs, CloudEntryKey).value, CloudLookup)
  {
    DirMapEntries(dirs, CloudEntryKey);
    var key := CloudEntryKey(dirs[d]).value.0;
    DirMapKeys(dirs, CloudEntryKey, key);
    assert CloudLookup(dirs[d]) == Ok(Some(key));
  }

  /** Directories link to themselves: every directory's own `Path` is a key
      of the map, so every directory gets an edge pair, and there are at
      least two edges per directory. */
  lemma DropboxDirectoriesLinked(userId: Value, items: seq<Value>, env: Env, stamps: nat -> Stamp)
    requires DropboxIngest(userId, items, env, stamps).Ok?
    ensures var sorted := Sort(items, DropboxSteps(userId, env, stamps)).value;
      var dirmap := DirMap(sorted.dirs, CloudEntryKey).value;
      forall d :: 0 <= d < |sorted.dirs| ==> Linked(sorted.dirs[d], dirmap, CloudLookup)
    ensures |DropboxIngest(userId, items, env, stamps).value.edges|
            >= 2 * |Sort(items, DropboxSteps(userId, env, stamps)).value.dirs|
  {
    var sorted := Sort(items, DropboxSteps(userId, env, stamps));
    BuildParts(sorted, CloudEntryKey, CloudLookup, IngesterSource(DropboxIngesterId));
    var dirs := sorted.value.dirs;
    var objects := dirs + sorted.value.files;
    var dirmap := DirMap(dirs, CloudEntryKey).value;
    forall d | 0 <= d < |dirs|
      ensures Linked(dirs[d], dirmap, CloudLookup) && Linked(objects[d], dirmap, CloudLookup)
    {
      CloudDirectoryLinked(dirs, d);
      assert objects[d] == dirs[d];
    }
    LinkCounts(objects, dirmap, CloudLookup);
    LinkedPrefix(objects, dirmap, CloudLookup, |dirs|);
  }

  // ---------------------------------------------------------------------
  // iCloud
  // ---------------------------------------------------------------------

  /** One iCloud entry: as Dropbox, but the object must carry `Path`
      (an assertion) before the directory test. */
  function ICloudStep(userId: Value, env: Env, stamps: nat -> Stamp, s: Sorted, i: nat, item: Value): (r: Result<Sorted>)
    ensures r.Ok? ==> r.value.counters.errors == s.counters.errors && r.value.counters.edges == s.counters.edges
    ensures Consistent(s) && r.Ok? ==> Consistent(r.value)
  {
    var obj :- ICloudNormalize(userId, item, env, stamps(i));
    var _ :- Need("Path" in Keys(obj.args));
    var isDir :- CloudIsDirectory(obj.args);
    if isDir then
      if "path_display" !in Keys(item.entries) then Ok(s)
      else Ok(Sorted(s.dirs + [obj], s.files, s.counters.(dirs := s.counters.dirs + 1)))
    else Ok(Sorted(s.dirs, s.files + [obj], s.counters.(files := s.counters.files + 1)))
  }

  /** The iCloud loop body, with the ingester's settings fixed. */
  function ICloudSteps(userId: Value, env: Env, stamps: nat -> Stamp): (Sorted, nat, Value) -> Result<Sorted> {
    (s: Sorted, i: nat, v: Value) => ICloudStep(userId, env, stamps, s, i, v)
  }

  /** `IndalekoICloudIngester.ingest` over the loaded indexer entries: the
      same map and edge rule as Dropbox, with the iCloud ingester as the
      source, and no error counted. */
  function ICloudIngest(userId: Value, items: seq<Value>, env: Env, stamps: nat -> Stamp): (r: Result<Outcome>)
    ensures r.Ok? ==> r.value.source == IngesterSource(ICloudIngesterId)
    ensures r.Ok? ==> r.value.counters.dirs + r.value.counters.files == |r.value.objects|
                      && r.value.counters.errors == 0
  {
    var step := ICloudSteps(userId, env, stamps);
    SortConsistent(items, step);
    SortErrorsZero(items, step);
    Build(Sort(items, step), CloudEntryKey, CloudLookup, IngesterSource(ICloudIngesterId))
  }

  /** Since normalisation never yields an object, the iCloud ingest succeeds
      only on an empty indexer file, and then writes nothing. */
  lemma ICloudIngestEmpty(userId: Value, items: seq<Value>, env: Env, stamps: nat -> Stamp)
    ensures ICloudIngest(userId, items, env, stamps).Ok? <==> |items| == 0
    ensures ICloudIngest(userId, items, env, stamps).Ok? ==>
              ICloudIngest(userId, items, env, stamps).value.objects == []
              && ICloudIngest(userId, items, env, stamps).value.edges == []
  {
    if |items| > 0 {
      var n := |items| - 1;
      ICloudNeverBuilds(userId, items[n], env, stamps(n));
      var front := Sort(items[..n], ICloudSteps(userId, env, stamps));
      if front.Ok? {
        assert ICloudStep(userId, env, stamps, front.value, n, items[n]).Err?;
      }
    }
  }

  // ---------------------------------------------------------------------
  // Mac local
  // ---------------------------------------------------------------------

  /** One Mac entry: an OSError from normalisation is counted and the entry
      skipped; any other failure ends the ingest.  The directory test reads
      the Unix attribute string only.  A directory whose attribute map has
      no `Path` is dropped without being counted; a kept directory's `Path`
      is a key of `dir_data_by_path`, so a list or dict there is a
      TypeError. */
  function MacStep(machineId: Value, env: Env, oids: nat -> string, stamps: nat -> Stamp,
                   s: Sorted, i: nat, item: Value): (r: Result<Sorted>)
    ensures r.Ok? ==> r.value.counters.edges == s.counters.edges
    ensures r.Ok? ==> r.value.counters.errors == s.counters.errors + OSErrorAt(machineId, item, env, oids(i), stamps(i))
    ensures Consistent(s) && r.Ok? ==> Consistent(r.value)
    ensures r.Ok? && |r.value.dirs| > |s.dirs| ==>
              GetItem(r.value.dirs[|s.dirs|].record, "Path").Ok?
              && Hashable(GetItem(r.value.dirs[|s.dirs|].record, "Path").value)
  {
    var n := MacNormalize(machineId, item, env, oids(i), stamps(i));
    if n == Err(OSError) then Ok(s.(counters := s.counters.(errors := s.counters.errors + 1)))
    else
      var obj :- n;
      var unix :- At(obj.args, "UnixFileAttributes");
      var isDir :- StrIn("S_IFDIR", unix);
      if isDir then
        if !Has(obj.record, "Path") then Ok(s)
        else if !Hashable(GetItem(obj.record, "Path").value) then Err(TypeError)
        else Ok(Sorted(s.dirs + [obj], s.files, s.counters.(dirs := s.counters.dirs + 1)))
      else Ok(Sorted(s.dirs, s.files + [obj], s.counters.(files := s.counters.files + 1)))
  }

  /** The Mac loop body, with the ingester's settings fixed. */
  function MacSteps(machineId: Value, env: Env, oids: nat -> string, stamps: nat -> Stamp): (Sorted, nat, Value) -> Result<Sorted> {
    (s: Sorted, i: nat, v: Value) => MacStep(machineId, env, oids, stamps, s, i, v)
  }

  /** `dirmap[os.path.join(item['Path'], item['Name'])] =
      item.args['ObjectIdentifier']`: both names come from the attribute
      map, and the key is computed before the identifier is read. */
  function MacEntryKey(join: (string, string) -> string, o: Obj): (r: Result<(string, Value)>)
    ensures r.Ok? ==> GetItem(o.record, "Path").Ok? && GetItem(o.record, "Path").value.VStr?
                      && GetItem(o.record, "Name").Ok? && GetItem(o.record, "Name").value.VStr?
                      && r.value.0 == join(GetItem(o.record, "Path").value.s, GetItem(o.record, "Name").value.s)
                      && Get(o.args, "ObjectIdentifier") == Some(r.value.1)
    ensures !Has(o.record, "Path") ==> r == Err(KeyError)
  {
    var path :- GetItem(o.record, "Path");
    var name :- GetItem(o.record, "Name");
    var p :- AsStr(path, TypeError);
    var q :- AsStr(name, TypeError);
    var oid :- At(o.args, "ObjectIdentifier");
    Ok((join(p, q), oid))
  }

  function MacEntries(join: (string, string) -> string): Obj -> Result<(string, Value)> {
    (o: Obj) => MacEntryKey(join, o)
  }

  /** The Mac lookup: `item['Path']`, from the attribute map (KeyError when
      absent). */
  function MacLookup(o: Obj): (r: Result<Option<string>>)
    ensures !Has(o.record, "Path") ==> r == Err(KeyError)
    ensures r.Ok? && r.value.Some? ==> GetItem(o.record, "Path") == Ok(VStr(r.value.value))
    ensures GetItem(o.record, "Path").Ok? && GetItem(o.record, "Path").value.VStr? ==>
              r == Ok(Some(GetItem(o.record, "Path").value.s))
  {
    var parent :- GetItem(o.record, "Path");
    ParentKey(parent)
  }

  /** `IndalekoMacLocalIngester.ingest` over the loaded indexer entries;
      `oids` and `stamps` give the fresh identifiers drawn for entry `i`.
      The edges carry the Mac ingester as their source, the counters add
      up to the objects written, and one error is counted per entry whose
      normalisation raised OSError. */
  function MacIngest(machineId: Value, items: seq<Value>, env: Env, oids: nat -> string, stamps: nat -> Stamp,
                     join: (string, string) -> string): (r: Result<Outcome>)
    ensures r.Ok? ==> r.value.source == IngesterSource(MacLocalIngesterId)
    ensures r.Ok? ==> r.value.counters.dirs + r.value.counters.files == |r.value.objects|
                      && r.value.counters.errors == OSErrorCount(machineId, items, env, oids, stamps)
  {
    var sorted := Sort(items, MacSteps(machineId, env, oids, stamps));
    assert sorted.Ok? ==> Consistent(sorted.value)
                          && sorted.value.counters.errors == OSErrorCount(machineId, items, env, oids, stamps) by {
      if sorted.Ok? {
        MacSortCounts(machineId, items, env, oids, stamps);
      }
    }
    Build(sorted, MacEntries(join), MacLookup, IngesterSource(MacLocalIngesterId))
  }

  /** An entry whose normalisation raises OSError only bumps the error
      counter. */
  lemma MacSkipsOSError(machineId: Value, env: Env, oids: nat -> string, stamps: nat -> Stamp, s: Sorted, i: nat, item: Value)
    requires MacNormalize(machineId, item, env, oids(i), stamps(i)) == Err(OSError)
    ensures MacStep(machineId, env, oids, stamps, s, i, item).Ok?
    ensures var t := MacStep(machineId, env, oids, stamps, s, i, item).value;
      t.dirs == s.dirs && t.files == s.files && t.counters == s.counters.(errors := s.counters.errors + 1)
  {
  }

  /** A normalised directory whose attribute map lacks `Path` leaves the
      state exactly as it was. */
  lemma MacDropsPathless(machineId: Value, env: Env, oids: nat -> string, stamps: nat -> Stamp, s: Sorted, i: nat, item: Value)
    requires MacNormalize(machineId, item, env, oids(i), stamps(i)).Ok?
    requires var o := MacNormalize(machineId, item, env, oids(i), stamps(i)).value;
      Get(o.args, "UnixFileAttributes").Some? && Get(o.args, "UnixFileAttributes").value.VStr?
      && Contains(Get(o.args, "UnixFileAttributes").value.s, "S_IFDIR") && !Has(o.record, "Path")
    ensures MacStep(machineId, env, oids, stamps, s, i, item) == Ok(s)
  {
  }

  /** A normalised directory whose `Path` is a list or dict cannot be a key
      of `dir_data_by_path`: the step raises TypeError. */
  lemma MacUnhashablePath(machineId: Value, env: Env, oids: nat -> string, stamps: nat -> Stamp, s: Sorted, i: nat, item: Value)
    requires MacNormalize(machineId, item, env, oids(i), stamps(i)).Ok?
    requires var o := MacNormalize(machineId, item, env, oids(i), stamps(i)).value;
      Get(o.args, "UnixFileAttributes").Some? && Get(o.args, "UnixFileAttributes").value.VStr?
      && Contains(Get(o.args, "UnixFileAttributes").value.s, "S_IFDIR")
      && GetItem(o.record, "Path").Ok? && !Hashable(GetItem(o.record, "Path").value)
    ensures MacStep(machineId, env, oids, stamps, s, i, item) == Err(TypeError)
  {
  }

  /** One when the entry's normalisation raises OSError, else zero. */
  function OSErrorAt(machineId: Value, item: Value, env: Env, oid: string, stamp: Stamp): nat {
    if MacNormalize(machineId, item, env, oid, stamp) == Err(OSError) then 1 else 0
  }

  /** The number of entries whose normalisation raises OSError. */
  function OSErrorCount(machineId: Value, items: seq<Value>, env: Env, oids: nat -> string, stamps: nat -> Stamp): nat
    decreases |items|
  {
    if |items| == 0 then 0
    else
      var n := |items| - 1;
      OSErrorCount(machineId, items[..n], env, oids, stamps) + OSErrorAt(machineId, items[n], env, oids(n), stamps(n))
  }

  /** The first loop of the Mac ingester counts one error per entry whose
      normalisation raised OSError, and keeps the other counters in step
      with the lists. */
  lemma {:induction false} MacSortCounts(machineId: Value, items: seq<Value>, env: Env, oids: nat -> string, stamps: nat -> Stamp)
    requires Sort(items, MacSteps(machineId, env, oids, stamps)).Ok?
    ensures var s := Sort(items, MacSteps(machineId, env, oids, stamps)).value;
      Consistent(s) && s.counters.edges == 0
      && s.counters.errors == OSErrorCount(machineId, items, env, oids, stamps)
    decreases |items|
  {
    if |items| > 0 {
      MacSortCounts(machineId, items[..|items| - 1], env, oids, stamps);
    }
  }

  /** The Mac counters describe the output: one directory or file count per
      object written, one edge count per edge, one error per OSError. */
  lemma MacCounts(machineId: Value, items: seq<Value>, env: Env, oids: nat -> string, stamps: nat -> Stamp,
                  join: (string, string) -> string)
    requires MacIngest(machineId, items, env, oids, stamps, join).Ok?
    ensures var o := MacIngest(machineId, items, env, oids, stamps, join).value;
      o.counters.dirs + o.counters.files == |o.objects|
      && o.counters.edges == |o.edges|
      && o.counters.errors == OSErrorCount(machineId, items, env, oids, stamps)
  {
    var sorted := Sort(items, MacSteps(machineId, env, oids, stamps));
    MacSortCounts(machineId, items, env, oids, stamps);
    BuildParts(sorted, MacEntries(join), MacLookup, IngesterSource(MacLocalIngesterId));
    var dirmap := DirMap(sorted.value.dirs, MacEntries(join)).value;
    LinkCounts(sorted.value.dirs + sorted.value.files, dirmap, MacLookup);
  }

  /** The string a Mac directory is keyed by, when it has one. */
  predicate MacKeyed(join: (string, string) -> string, d: Obj, key: string) {
    GetItem(d.record, "Path").Ok? && GetItem(d.record, "Path").value.VStr?
    && GetItem(d.record, "Name").Ok? && GetItem(d.record, "Name").value.VStr?
    && join(GetItem(d.record, "Path").value.s, GetItem(d.record, "Name").value.s) == key
  }

  /** An object of the Mac build is linked exactly when its `Path` attribute
      is a string equal to `join(Path, Name)` of some directory. */
  lemma MacLinked(dirs: seq<Obj>, join: (string, string) -> string, o: Obj)
    requires DirMap(dirs, MacEntries(join)).Ok?
    ensures Linked(o, DirMap(dirs, MacEntries(join)).value, MacLookup) <==>
      GetItem(o.record, "Path").Ok? && GetItem(o.record, "Path").value.VStr?
      && exists i :: 0 <= i < |dirs| && MacKeyed(join, dirs[i], GetItem(o.record, "Path").value.s)
  {
    var entry := MacEntries(join);
    DirMapEntries(dirs, entry);
    var p := GetItem(o.record, "Path");
    if p.Ok? && p.value.VStr? {
      DirMapKeys(dirs, entry, p.value.s);
      forall j | 0 <= j < |dirs|
        ensures (entry(dirs[j]).value.0 == p.value.s) == MacKeyed(join, dirs[j], p.value.s)
      {
        assert entry(dirs[j]) == MacEntryKey(join, dirs[j]);
      }
      assert MacLookup(o) == Ok(Some(p.value.s));
    }
  }

  /** An object of a cloud build is linked exactly when its `Path` is a
      string equal to the `Path` of some directory. */
  lemma CloudLinked(dirs: seq<Obj>, o: Obj)
    requires DirMap(dirs, CloudEntryKey).Ok?
    ensures Linked(o, DirMap(dirs, CloudEntryKey).value, CloudLookup) <==>
      Get(o.args, "Path").Some? && Get(o.args, "Path").value.VStr?
      && exists i :: 0 <= i < |dirs| && Get(dirs[i].args, "Path") == Get(o.args, "Path")
  {
    DirMapEntries(dirs, CloudEntryKey);
    var p := Get(o.args, "Path");
    if p.Some? && p.value.VStr? {
      DirMapKeys(dirs, CloudEntryKey, p.value.s);
      forall j | 0 <= j < |dirs|
        ensures (CloudEntryKey(dirs[j]).value.0 == p.value.s) == (Get(dirs[j].args, "Path") == p)
      {
      }
    }
  }
}
