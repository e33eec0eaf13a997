/** Rendering of numeric file attributes as `" | "`-joined flag names:
    the Windows `FILE_ATTRIBUTE_*` table and the Unix file-type table.

    A flag is listed when every bit of its mask is set in the input
    (`x & mask == mask`), in table order.  Masks fit in 32 bits, so only
    the low 32 bits of the (arbitrary precision, two's complement) Python
    integer matter; `Low32` takes them with Euclidean `%`, which agrees
    with two's complement for negative inputs.
 */
module FileAttributes {

  import opened PyStr

  type Table = seq<(string, bv32)>

  /** Windows flags in declaration order.  Some masks are shared: EA and
      RECALL_ON_OPEN, PINNED and FIRST_PIPE_INSTANCE, UNPINNED and
      OPEN_NO_RECALL.  The table is written in four runs of consecutive
      entries so that proofs can evaluate it a run at a time. */
  const WindowsTable: Table := WindowsRun0 + WindowsRun1 + WindowsRun2 + WindowsRun3

  const WindowsRun0: Table := [
    ("FILE_ATTRIBUTE_READONLY", 0x1),
    ("FILE_ATTRIBUTE_HIDDEN", 0x2),
    ("FILE_ATTRIBUTE_SYSTEM", 0x4),
    ("FILE_ATTRIBUTE_DIRECTORY", 0x10),
    ("FILE_ATTRIBUTE_ARCHIVE", 0x20),
    ("FILE_ATTRIBUTE_DEVICE", 0x40),
    ("FILE_ATTRIBUTE_NORMAL", 0x80)
  ]

  const WindowsRun1: Table := [
    ("FILE_ATTRIBUTE_TEMPORARY", 0x100),
    ("FILE_ATTRIBUTE_SPARSE_FILE", 0x200),
    ("FILE_ATTRIBUTE_REPARSE_POINT", 0x400),
    ("FILE_ATTRIBUTE_COMPRESSED", 0x800),
    ("FILE_ATTRIBUTE_OFFLINE", 0x1000),
    ("FILE_ATTRIBUTE_NOT_CONTENT_INDEXED", 0x2000),
    ("FILE_ATTRIBUTE_ENCRYPTED", 0x4000)
  ]

  const WindowsRun2: Table := [
    ("FILE_ATTRIBUTE_INTEGRITY_STREAM", 0x8000),
    ("FILE_ATTRIBUTE_VIRTUAL", 0x10000),
    ("FILE_ATTRIBUTE_NO_SCRUB_DATA", 0x20000),
    ("FILE_ATTRIBUTE_EA", 0x40000),
    ("FILE_ATTRIBUTE_PINNED", 0x80000),
    ("FILE_ATTRIBUTE_UNPINNED", 0x100000),
    ("FILE_ATTRIBUTE_RECALL_ON_OPEN", 0x40000)
  ]

  const WindowsRun3: Table := [
    ("FILE_ATTRIBUTE_RECALL_ON_DATA_ACCESS", 0x400000),
    ("FILE_ATTRIBUTE_STRICTLY_SEQUENTIAL", 0x20000000),
    ("FILE_ATTRIBUTE_OPEN_REPARSE_POINT", 0x200000),
    ("FILE_ATTRIBUTE_OPEN_NO_RECALL", 0x100000),
    ("FILE_ATTRIBUTE_FIRST_PIPE_INSTANCE", 0x80000)
  ]

  /** Unix file-type bits in declaration order (octal 0o140000 … 0o010000). */
  const UnixTable: Table := [
    ("S_IFSOCK", 0xC000),
    ("S_IFLNK", 0xA000),
    ("S_IFREG", 0x8000),
    ("S_IFBLK", 0x6000),
    ("S_IFDIR", 0x4000),
    ("S_IFCHR", 0x2000),
    ("S_IFIFO", 0x1000)
  ]

  /** The `S_IFMT` field: every bit any Unix mask uses. */
  const TypeBits: bv32 := 0xF000

  const Separator: string := " | "

  function Low32(x: int): bv32 {
    if 0 <= x < 0x1_0000_0000 then x as bv32 else (x % 0x1_0000_0000) as bv32
  }

  /** Python `x & mask == mask` (`&` binds tighter than `==`), on the low
      32 bits `v` of `x`. */
  predicate Held(v: bv32, mask: bv32) {
    v & mask == mask
  }

  /** The names of the table entries whose masks `v` holds, in table order. */
  function Names(t: Table, v: bv32): (r: seq<string>)
    ensures |r| <= |t|
    decreases |t|
  {
    if |t| == 0 then []
    else if Held(v, t[0].1) then [t[0].0] + Names(t[1..], v)
    else Names(t[1..], v)
  }

  /** The Windows rendering lists NORMAL first for a zero input; any other
      name is listed exactly when some entry of that name has its whole
      mask set in the low 32 bits. */
  function WindowsNames(x: int): (r: seq<string>)
    ensures x == 0 ==> |r| > 0 && r[0] == "FILE_ATTRIBUTE_NORMAL"
    ensures forall n :: n != "FILE_ATTRIBUTE_NORMAL" ==>
              (n in r <==> exists i :: 0 <= i < |WindowsTable| && WindowsTable[i].0 == n
                                       && Held(Low32(x), WindowsTable[i].1))
  {
    var names := Names(WindowsTable, Low32(x));
    assert forall n :: n in names <==> exists i :: 0 <= i < |WindowsTable| && WindowsTable[i].0 == n
                                                   && Held(Low32(x), WindowsTable[i].1) by {
      forall n {
        NamesMember(WindowsTable, Low32(x), n);
      }
    }
    (if x == 0 then ["FILE_ATTRIBUTE_NORMAL"] else []) + names
  }

  /** `IndalekoWindows.map_file_attributes`: every listed name occurs in
      the rendering. */
  function MapWindows(x: int): (r: string)
    ensures forall i :: 0 <= i < |WindowsNames(x)| ==> Contains(r, WindowsNames(x)[i])
  {
    var names := WindowsNames(x);
    assert forall i :: 0 <= i < |names| ==> Contains(Join(names, Separator), names[i]) by {
      forall i | 0 <= i < |names| {
        JoinContains(names, Separator, i);
      }
    }
    Join(names, Separator)
  }

  /** `UnixFileAttributes.map_file_attributes`: every listed name occurs
      in the rendering, and nothing is rendered when no name is listed. */
  function MapUnix(x: int): (r: string)
    ensures forall i :: 0 <= i < |Names(UnixTable, Low32(x))| ==> Contains(r, Names(UnixTable, Low32(x))[i])
    ensures |Names(UnixTable, Low32(x))| == 0 ==> r == ""
  {
    var names := Names(UnixTable, Low32(x));
    assert forall i :: 0 <= i < |names| ==> Contains(Join(names, Separator), names[i]) by {
      forall i | 0 <= i < |names| {
        JoinContains(names, Separator, i);
      }
    }
    Join(names, Separator)
  }

  /** A name is listed exactly when some table entry with that name has
      all of its mask bits set in `x`. */
  lemma {:induction false} NamesMember(t: Table, v: bv32, n: string)
    ensures n in Names(t, v) <==> exists i :: 0 <= i < |t| && t[i].0 == n && Held(v, t[i].1)
    decreases |t|
  {
    if |t| > 0 {
      NamesMember(t[1..], v, n);
      if n in Names(t[1..], v) {
        var i :| 0 <= i < |t[1..]| && t[1..][i].0 == n && Held(v, t[1..][i].1);
        assert t[i + 1] == t[1..][i];
      }
      forall i | 1 <= i < |t| && t[i].0 == n && Held(v, t[i].1)
        ensures n in Names(t[1..], v)
      {
        assert t[1..][i - 1] == t[i];
      }
    }
  }

  /** The position of name `n` in a table (its first occurrence). */
  function TableIndex(t: Table, n: string): (r: nat)
    ensures r <= |t|
    ensures r < |t| ==> t[r].0 == n
    decreases |t|
  {
    if |t| == 0 then 0
    else if t[0].0 == n then 0
    else 1 + TableIndex(t[1..], n)
  }

  predicate DistinctNames(t: Table) {
    forall i, j :: 0 <= i < j < |t| ==> t[i].0 != t[j].0
  }

  /** With distinct names, the listed names follow table order strictly. */
  lemma {:induction false} NamesInTableOrder(t: Table, v: bv32)
    requires DistinctNames(t)
    ensures forall k :: 0 <= k < |Names(t, v)| ==> TableIndex(t, Names(t, v)[k]) < |t|
    ensures forall k :: 0 <= k < |Names(t, v)| - 1 ==>
              TableIndex(t, Names(t, v)[k]) < TableIndex(t, Names(t, v)[k + 1])
    decreases |t|
  {
    if |t| > 0 {
      var rest := Names(t[1..], v);
      assert DistinctNames(t[1..]) by {
        forall i, j | 0 <= i < j < |t[1..]|
          ensures t[1..][i].0 != t[1..][j].0
        {
          assert t[1..][i] == t[i + 1] && t[1..][j] == t[j + 1];
        }
      }
      NamesInTableOrder(t[1..], v);
      forall k | 0 <= k < |rest|
        ensures rest[k] != t[0].0
        ensures TableIndex(t, rest[k]) == 1 + TableIndex(t[1..], rest[k])
      {
        NamesMember(t[1..], v, rest[k]);
        var i :| 0 <= i < |t[1..]| && t[1..][i].0 == rest[k] && Held(v, t[1..][i].1);
        assert t[i + 1] == t[1..][i];
      }
    }
  }

  /** Two tables with distinct names and no name in common concatenate to
      a table with distinct names. */
  lemma DistinctConcat(a: Table, b: Table)
    requires DistinctNames(a) && DistinctNames(b)
    requires forall i, j :: 0 <= i < |a| && 0 <= j < |b| ==> a[i].0 != b[j].0
    ensures DistinctNames(a + b)
  {
    var t := a + b;
    forall i, j | 0 <= i < j < |t|
      ensures t[i].0 != t[j].0
    {
      if j < |a| {
        assert t[i] == a[i] && t[j] == a[j];
      } else if i >= |a| {
        assert t[i] == b[i - |a|] && t[j] == b[j - |a|];
      } else {
        assert t[i] == a[i] && t[j] == b[j - |a|];
      }
    }
  }

  /** No name of one table occurs in the other. */
  predicate Disjoint(a: Table, b: Table) {
    forall i, j :: 0 <= i < |a| && 0 <= j < |b| ==> a[i].0 != b[j].0
  }

  lemma WindowsRunsDistinct()
    ensures DistinctNames(WindowsRun0) && DistinctNames(WindowsRun1)
    ensures DistinctNames(WindowsRun2) && DistinctNames(WindowsRun3)
  {
  }

  lemma WindowsRunsDisjoint0()
    ensures Disjoint(WindowsRun0, WindowsRun1)
    ensures Disjoint(WindowsRun0, WindowsRun2)
    ensures Disjoint(WindowsRun0, WindowsRun3)
  {
  }

  lemma WindowsRunsDisjoint1()
    ensures Disjoint(WindowsRun1, WindowsRun2)
    ensures Disjoint(WindowsRun1, WindowsRun3)
    ensures Disjoint(WindowsRun2, WindowsRun3)
  {
  }

  lemma WindowsNamesDistinct()
    ensures DistinctNames(WindowsTable)
  {
    WindowsRunsDistinct();
    WindowsRunsDisjoint0();
    WindowsRunsDisjoint1();
    var r01 := WindowsRun0 + WindowsRun1;
    DistinctConcat(WindowsRun0, WindowsRun1);
    assert Disjoint(r01, WindowsRun2) by {
      forall i, j | 0 <= i < |r01| && 0 <= j < |WindowsRun2|
        ensures r01[i].0 != WindowsRun2[j].0
      {
        if i < |WindowsRun0| {
          assert r01[i] == WindowsRun0[i];
        } else {
          assert r01[i] == WindowsRun1[i - |WindowsRun0|];
        }
      }
    }
    DistinctConcat(r01, WindowsRun2);
    var r012 := r01 + WindowsRun2;
    assert Disjoint(r012, WindowsRun3) by {
      forall i, j | 0 <= i < |r012| && 0 <= j < |WindowsRun3|
        ensures r012[i].0 != WindowsRun3[j].0
      {
        if i < |WindowsRun0| {
          assert r012[i] == WindowsRun0[i];
        } else if i < |r01| {
          assert r012[i] == WindowsRun1[i - |WindowsRun0|];
        } else {
          assert r012[i] == WindowsRun2[i - |r01|];
        }
      }
    }
    DistinctConcat(r012, WindowsRun3);
  }

  lemma UnixNamesDistinct()
    ensures DistinctNames(UnixTable)
  {
  }

  /** Setting more bits never removes a flag name. */
  lemma {:induction false} NamesMonotone(t: Table, a: bv32, b: bv32, n: string)
    requires a & b == a
    requires n in Names(t, a)
    ensures n in Names(t, b)
  {
    NamesMember(t, a, n);
    NamesMember(t, b, n);
    var i :| 0 <= i < |t| && t[i].0 == n && Held(a, t[i].1);
    assert Held(b, t[i].1);
  }

  /** Entries with equal masks are listed together or not at all. */
  lemma EqualMasks(t: Table, v: bv32, i: nat, j: nat)
    requires DistinctNames(t)
    requires i < |t| && j < |t| && t[i].1 == t[j].1
    ensures t[i].0 in Names(t, v) <==> t[j].0 in Names(t, v)
  {
    NamesMember(t, v, t[i].0);
    NamesMember(t, v, t[j].0);
    if t[i].0 in Names(t, v) {
      var k :| 0 <= k < |t| && t[k].0 == t[i].0 && Held(v, t[k].1);
      assert k == i;
    }
    if t[j].0 in Names(t, v) {
      var k :| 0 <= k < |t| && t[k].0 == t[j].0 && Held(v, t[k].1);
      assert k == j;
    }
  }

  /** The three aliased Windows pairs always appear together. */
  lemma SharedWindowsMasks(x: int)
    ensures "FILE_ATTRIBUTE_EA" in WindowsNames(x) <==> "FILE_ATTRIBUTE_RECALL_ON_OPEN" in WindowsNames(x)
    ensures "FILE_ATTRIBUTE_PINNED" in WindowsNames(x) <==> "FILE_ATTRIBUTE_FIRST_PIPE_INSTANCE" in WindowsNames(x)
    ensures "FILE_ATTRIBUTE_UNPINNED" in WindowsNames(x) <==> "FILE_ATTRIBUTE_OPEN_NO_RECALL" in WindowsNames(x)
  {
    WindowsNamesDistinct();
    var v := Low32(x);
    EqualMasks(WindowsTable, v, 17, 20);
    EqualMasks(WindowsTable, v, 18, 25);
    EqualMasks(WindowsTable, v, 19, 24);
  }

  /** Rendering a table in two parts renders each part in turn. */
  lemma {:induction false} NamesConcat(a: Table, b: Table, v: bv32)
    ensures Names(a + b, v) == Names(a, v) + Names(b, v)
    decreases |a|
  {
    if |a| > 0 {
      assert (a + b)[0] == a[0];
      assert (a + b)[1..] == a[1..] + b;
      NamesConcat(a[1..], b, v);
    } else {
      assert a + b == b;
    }
  }

  lemma WindowsRuns(v: bv32)
    ensures Names(WindowsTable, v)
         == Names(WindowsRun0, v) + Names(WindowsRun1, v) + Names(WindowsRun2, v) + Names(WindowsRun3, v)
  {
    NamesConcat(WindowsRun0 + WindowsRun1 + WindowsRun2, WindowsRun3, v);
    NamesConcat(WindowsRun0 + WindowsRun1, WindowsRun2, v);
    NamesConcat(WindowsRun0, WindowsRun1, v);
  }

  /** Inputs confined to the low byte hold no mask past the first run. */
  lemma LowByteRuns(v: bv32)
    requires v & 0xFFFF_FF00 == 0
    ensures Names(WindowsTable, v) == Names(WindowsRun0, v)
  {
    var high := WindowsRun1 + WindowsRun2 + WindowsRun3;
    WindowsHighRuns();
    assert WindowsTable == WindowsRun0 + high;
    NamesConcat(WindowsRun0, high, v);
    HighRunEmpty(high, v);
  }

  /** Every mask of `t` is non-zero and clear of the low byte. */
  predicate HighMasks(t: Table) {
    forall i :: 0 <= i < |t| ==> t[i].1 & 0xFF == 0 && t[i].1 != 0
  }

  lemma WindowsHighRuns()
    ensures HighMasks(WindowsRun1 + WindowsRun2 + WindowsRun3)
  {
  }

  /** A non-zero mask clear of the low byte is not held by a value
      confined to it. */
  lemma HighMask(v: bv32, m: bv32)
    requires v & 0xFFFF_FF00 == 0
    requires m & 0xFF == 0 && m != 0
    ensures v & m != m
  {
  }

  /** A run of masks clear of the low byte renders nothing for a value
      confined to it. */
  lemma {:induction false} HighRunEmpty(t: Table, v: bv32)
    requires v & 0xFFFF_FF00 == 0
    requires HighMasks(t)
    ensures Names(t, v) == []
    decreases |t|
  {
    if |t| > 0 {
      HighMask(v, t[0].1);
      assert HighMasks(t[1..]) by {
        forall i | 0 <= i < |t[1..]|
          ensures t[1..][i].1 & 0xFF == 0 && t[1..][i].1 != 0
        {
          assert t[1..][i] == t[i + 1];
        }
      }
      HighRunEmpty(t[1..], v);
    }
  }

  /** The directory bit alone renders as DIRECTORY. */
  lemma WindowsDirectory(x: int)
    requires Low32(x) == 0x10
    ensures Names(WindowsTable, Low32(x)) == ["FILE_ATTRIBUTE_DIRECTORY"]
  {
    LowByteRuns(0x10);
  }

  /** The NORMAL bit alone renders as NORMAL. */
  lemma WindowsNormal(x: int)
    requires Low32(x) == 0x80
    ensures Names(WindowsTable, Low32(x)) == ["FILE_ATTRIBUTE_NORMAL"]
  {
    LowByteRuns(0x80);
  }

  /** Zero holds no mask, and the special case supplies NORMAL. */
  lemma WindowsZero()
    ensures MapWindows(0) == "FILE_ATTRIBUTE_NORMAL"
  {
    assert Low32(0) == 0;
    LowByteRuns(0);
    assert Names(WindowsRun0, 0) == [];
  }

  /** Every mask of `t` lies inside the field `f`. */
  predicate WithinField(t: Table, f: bv32)
    decreases |t|
  {
    |t| == 0 || (t[0].1 & f == t[0].1 && WithinField(t[1..], f))
  }

  /** Every Unix mask lies inside the `S_IFMT` field. */
  lemma UnixMasksInField()
    ensures WithinField(UnixTable, TypeBits)
  {
  }

  /** A mask inside field `f` is held alike by values that agree on `f`. */
  lemma HeldWithinField(a: bv32, b: bv32, m: bv32, f: bv32)
    requires m & f == m && a & f == b & f
    ensures Held(a, m) <==> Held(b, m)
  {
    calc {
      a & m;
      a & (m & f);
      (a & f) & m;
      (b & f) & m;
      b & (m & f);
      b & m;
    }
  }

  /** When every mask of a table lies inside field `f`, the rendering
      depends only on the bits of `f`. */
  lemma {:induction false} NamesWithinField(t: Table, f: bv32, a: bv32, b: bv32)
    requires WithinField(t, f)
    requires a & f == b & f
    ensures Names(t, a) == Names(t, b)
    decreases |t|
  {
    if |t| > 0 {
      HeldWithinField(a, b, t[0].1, f);
      NamesWithinField(t[1..], f, a, b);
    }
  }

  /** A Unix rendering depends only on the file-type field. */
  lemma UnixTypeField(x: int, y: int)
    requires Low32(x) & TypeBits == Low32(y) & TypeBits
    ensures Names(UnixTable, Low32(x)) == Names(UnixTable, Low32(y))
    ensures MapUnix(x) == MapUnix(y)
  {
    UnixMasksInField();
    NamesWithinField(UnixTable, TypeBits, Low32(x), Low32(y));
  }

  /** The Unix names of a value are those of its file-type field alone. */
  lemma UnixNamesOfType(v: bv32)
    ensures Names(UnixTable, v) == Names(UnixTable, v & TypeBits)
  {
    UnixMasksInField();
    NamesWithinField(UnixTable, TypeBits, v, v & TypeBits);
  }

  /** The file-type codes the lemmas below evaluate, one at a time. */
  lemma DirectoryCode(v: bv32)
    requires v == 0x4000
    ensures Names(UnixTable, v) == ["S_IFDIR"]
  {
  }

  lemma RegularCode(v: bv32)
    requires v == 0x8000
    ensures Names(UnixTable, v) == ["S_IFREG"]
  {
  }

  lemma SocketCode(v: bv32)
    requires v == 0xC000
    ensures Names(UnixTable, v) == ["S_IFSOCK", "S_IFREG", "S_IFDIR"]
  {
  }

  lemma BlockCode(v: bv32)
    requires v == 0x6000
    ensures Names(UnixTable, v) == ["S_IFBLK", "S_IFDIR", "S_IFCHR"]
  {
  }

  lemma LinkCode(v: bv32)
    requires v == 0xA000
    ensures Names(UnixTable, v) == ["S_IFLNK", "S_IFREG", "S_IFCHR"]
  {
  }

  lemma NoTypeCode(v: bv32)
    requires v == 0
    ensures Names(UnixTable, v) == []
  {
  }

  /** A mode with no file-type bits renders no name at all: the empty
      string. */
  lemma UnixZero(x: int)
    requires Low32(x) & TypeBits == 0
    ensures Names(UnixTable, Low32(x)) == []
    ensures MapUnix(x) == ""
  {
    UnixNamesOfType(Low32(x));
    NoTypeCode(Low32(x) & TypeBits);
  }

  /** Directories render as S_IFDIR alone. */
  lemma UnixDirectory(x: int)
    requires Low32(x) & TypeBits == 0x4000
    ensures MapUnix(x) == "S_IFDIR"
  {
    UnixNamesOfType(Low32(x));
    DirectoryCode(Low32(x) & TypeBits);
  }

  /** Regular files render as S_IFREG alone. */
  lemma UnixRegular(x: int)
    requires Low32(x) & TypeBits == 0x8000
    ensures MapUnix(x) == "S_IFREG"
  {
    UnixNamesOfType(Low32(x));
    RegularCode(Low32(x) & TypeBits);
  }

  /** The type codes are not independent bits: a socket also holds the
      S_IFREG and S_IFDIR masks, a block device holds S_IFDIR and S_IFCHR,
      a symbolic link holds S_IFREG and S_IFCHR. */
  lemma UnixOverlappingCodes(x: int)
    ensures Low32(x) & TypeBits == 0xC000 ==> Names(UnixTable, Low32(x)) == ["S_IFSOCK", "S_IFREG", "S_IFDIR"]
    ensures Low32(x) & TypeBits == 0x6000 ==> Names(UnixTable, Low32(x)) == ["S_IFBLK", "S_IFDIR", "S_IFCHR"]
    ensures Low32(x) & TypeBits == 0xA000 ==> Names(UnixTable, Low32(x)) == ["S_IFLNK", "S_IFREG", "S_IFCHR"]
  {
    var t := Low32(x) & TypeBits;
    UnixNamesOfType(Low32(x));
    if t == 0xC000 {
      SocketCode(t);
    } else if t == 0x6000 {
      BlockCode(t);
    } else if t == 0xA000 {
      LinkCode(t);
    }
  }

  /** "S_IFREG" does not contain "S_IFDIR". */
  lemma RegularIsNotDirectory(s: string)
    requires s == "S_IFREG"
    ensures !Contains(s, "S_IFDIR")
  {
    ContainsIff(s, "S_IFDIR");
    assert s[4] != "S_IFDIR"[4];
    assert s[0..7] != "S_IFDIR";
  }

  /** The ingesters' directory test `'S_IFDIR' in map_file_attributes(mode)`
      accepts directories, sockets and block devices, and rejects regular
      files. */
  lemma UnixDirectoryTest(x: int)
    ensures Low32(x) & TypeBits in {0x4000, 0xC000, 0x6000} ==> Contains(MapUnix(x), "S_IFDIR")
    ensures Low32(x) & TypeBits == 0x8000 ==> !Contains(MapUnix(x), "S_IFDIR")
  {
    var t := Low32(x) & TypeBits;
    var names := Names(UnixTable, Low32(x));
    if t == 0x4000 {
      UnixNamesOfType(Low32(x));
      DirectoryCode(t);
      JoinContains(names, Separator, 0);
    } else if t == 0xC000 {
      UnixOverlappingCodes(x);
      JoinContains(names, Separator, 2);
    } else if t == 0x6000 {
      UnixOverlappingCodes(x);
      JoinContains(names, Separator, 1);
    } else if t == 0x8000 {
      UnixRegular(x);
      RegularIsNotDirectory(MapUnix(x));
    }
  }

  /** The four codes the cloud normalizers look up render as their own
      names: `FILE_ATTRIBUTES['S_IFDIR']` maps back to "S_IFDIR", and so on. */
  lemma RenderUnixDirectory()
    ensures MapUnix(0x4000) == "S_IFDIR"
  {
    UnixDirectory(0x4000);
  }

  lemma RenderUnixRegular()
    ensures MapUnix(0x8000) == "S_IFREG"
  {
    UnixRegular(0x8000);
  }

  lemma RenderWindowsDirectory()
    ensures MapWindows(0x10) == "FILE_ATTRIBUTE_DIRECTORY"
  {
    WindowsDirectory(0x10);
    assert WindowsNames(0x10) == ["FILE_ATTRIBUTE_DIRECTORY"];
  }

  lemma RenderWindowsNormal()
    ensures MapWindows(0x80) == "FILE_ATTRIBUTE_NORMAL"
  {
    WindowsNormal(0x80);
    assert WindowsNames(0x80) == ["FILE_ATTRIBUTE_NORMAL"];
  }
}
