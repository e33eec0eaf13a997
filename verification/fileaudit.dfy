/** The file-audit pipeline's operators: splitting a status-tagged line
    into fields, filtering on a field, and canonising an `fs_usage`
    record into `[time, action, fid, path, procname, pid]`.  Each operator
    takes and returns a `(status, payload)` pair; status 0 means the
    payload is good.
 */
module AuditOps {

  import opened Errors
  import opened Values
  import opened PyStr

  // ---------------------------------------------------------------------
  // ToList
  // ---------------------------------------------------------------------

  /** The pieces that are not empty, in order. */
  function NonEmpty(fields: seq<string>): (r: seq<string>)
    ensures forall i :: 0 <= i < |r| ==> |r[i]| > 0
    ensures forall f :: f in r <==> f in fields && |f| > 0
    decreases |fields|
  {
    if |fields| == 0 then []
    else (if |fields[0]| > 0 then [fields[0]] else []) + NonEmpty(fields[1..])
  }

  /** `ToList(sep, remove_empty_fields).execute((status, text))`: the
      separator must not be empty (AssertionError); a good line is split
      on it, dropping empty fields when asked; a bad one gives `(1, [])`. */
  function ToList(sep: string, removeEmpty: bool, status: int, text: string): (r: Result<(int, seq<string>)>)
    ensures r.Err? <==> |sep| == 0
    ensures r.Err? ==> r.error == AssertionError
    ensures r.Ok? && status != 0 ==> r.value == (1, [])
    ensures r.Ok? && status == 0 ==> r.value.0 == 0
    ensures r.Ok? && status == 0 && !removeEmpty ==> |r.value.1| >= 1 && Join(r.value.1, sep) == text
    ensures r.Ok? && status == 0 && removeEmpty ==> forall i :: 0 <= i < |r.value.1| ==> |r.value.1[i]| > 0
  {
    var _ :- Need(|sep| > 0);
    if status == 0 then
      JoinSplit(text, sep);
      var fields := Split(text, sep);
      Ok((0, if removeEmpty then NonEmpty(fields) else fields))
    else Ok((1, []))
  }

  /** Dropping empty fields is the plain split with its empty pieces left
      out, in order. */
  lemma {:induction false} ToListDropsEmpty(sep: string, text: string)
    requires |sep| > 0
    ensures ToList(sep, true, 0, text).value.1 == NonEmpty(ToList(sep, false, 0, text).value.1)
  {
  }

  /** An empty line is one empty field, or none when empty fields go. */
  lemma {:induction false} ToListEmptyLine(sep: string)
    requires |sep| > 0
    ensures ToList(sep, false, 0, "") == Ok((0, [""]))
    ensures ToList(sep, true, 0, "") == Ok((0, []))
  {
  }

  /** Fields free of a one-character separator, joined by it, split back
      into themselves; when none is empty, either mode gives them. */
  lemma {:induction false} ToListOfJoin(c: char, fields: seq<string>, removeEmpty: bool)
    requires |fields| > 0
    requires forall i :: 0 <= i < |fields| ==> |fields[i]| > 0 && c !in fields[i]
    ensures ToList([c], removeEmpty, 0, Join(fields, [c])) == Ok((0, fields))
  {
    SplitJoin(fields, c);
    NonEmptyKeeps(fields);
  }

  lemma {:induction false} NonEmptyKeeps(fields: seq<string>)
    requires forall i :: 0 <= i < |fields| ==> |fields[i]| > 0
    ensures NonEmpty(fields) == fields
    decreases |fields|
  {
    if |fields| > 0 {
      NonEmptyKeeps(fields[1..]);
      assert [fields[0]] + fields[1..] == fields;
    }
  }

  // ---------------------------------------------------------------------
  // FilterField and FilterFields
  // ---------------------------------------------------------------------

  /** `FilterField((position, value)).execute((status, fields))`: `(0,
      fields)` when the line is good and `value` occurs in the field at
      `position`, else `(1, fields)`; a negative position counts from the
      end, and one before the start raises IndexError.  The fields always
      come back unchanged. */
  function FilterField(position: int, value: string, status: int, fields: seq<string>)
    : (r: Result<(int, seq<string>)>)
    ensures r.Err? <==> status == 0 && |fields| > 0 && position < -|fields|
    ensures r.Err? ==> r.error == IndexError
    ensures r.Ok? ==> r.value.1 == fields && (r.value.0 == 0 || r.value.0 == 1)
    ensures r.Ok? ==> (r.value.0 == 0 <==> status == 0 && Index(fields, position).Some?
                                           && Contains(Index(fields, position).value, value))
  {
    if status == 0 && |fields| > position && |fields| != 0 then
      match Index(fields, position)
      case None => Err(IndexError)
      case Some(f) => Ok((if Contains(f, value) then 0 else 1, fields))
    else Ok((1, fields))
  }

  /** One query against one field: equal after stripping whitespace when
      matching exactly, else a substring. */
  predicate Matches(q: string, field: string, exact: bool) {
    if exact then StripWs(q) == StripWs(field) else Contains(field, q)
  }

  /** Whether some query matches, scanning in order. */
  function AnyMatch(queries: seq<string>, field: string, exact: bool): (r: bool)
    ensures r <==> exists i :: 0 <= i < |queries| && Matches(queries[i], field, exact)
    decreases |queries|
  {
    if |queries| == 0 then false
    else if Matches(queries[0], field, exact) then true
    else
      assert forall i :: 1 <= i < |queries| ==> queries[i] == queries[1..][i - 1];
      AnyMatch(queries[1..], field, exact)
  }

  /** `FilterFields(pos, queries, exact_match).execute((status, fields))`:
      `(0, fields)` when some query matches the field at `pos`, else `(1,
      fields)`.  The field is read only inside the loop, so with no
      queries even an out-of-range negative position gives `(1, fields)`. */
  function FilterFields(pos: int, queries: seq<string>, exact: bool, status: int, fields: seq<string>)
    : (r: Result<(int, seq<string>)>)
    ensures r.Err? <==> status == 0 && |fields| > pos && |queries| > 0 && pos < -|fields|
    ensures r.Err? ==> r.error == IndexError
    ensures r.Ok? ==> r.value.1 == fields && (r.value.0 == 0 || r.value.0 == 1)
    ensures r.Ok? ==> (r.value.0 == 0 <==> status == 0 && Index(fields, pos).Some?
                                           && exists i :: 0 <= i < |queries|
                                                          && Matches(queries[i], Index(fields, pos).value, exact))
  {
    if status == 0 && |fields| > pos && |queries| > 0 then
      match Index(fields, pos)
      case None => Err(IndexError)
      case Some(f) => Ok((if AnyMatch(queries, f, exact) then 0 else 1, fields))
    else Ok((1, fields))
  }

  /** In substring mode one query is `FilterField` on the same position,
      except on an empty list with a negative position, where only
      `FilterField`'s emptiness guard keeps it from indexing. */
  lemma {:induction false} FilterFieldsOne(pos: int, q: string, status: int, fields: seq<string>)
    requires pos >= 0 || |fields| > 0
    ensures FilterFields(pos, [q], false, status, fields) == FilterField(pos, q, status, fields)
  {
  }

  /** The exception: an empty list and a negative position. */
  lemma {:induction false} FilterFieldsEmptyList(pos: int, q: string)
    requires pos < 0
    ensures FilterFields(pos, [q], false, 0, []) == Err(IndexError)
    ensures FilterField(pos, q, 0, []) == Ok((1, []))
  {
  }

  /** In substring mode an empty query matches any field in range. */
  lemma {:induction false} EmptyQueryMatches(pos: int, queries: seq<string>, fields: seq<string>)
    requires "" in queries
    requires 0 <= pos < |fields|
    ensures FilterFields(pos, queries, false, 0, fields) == Ok((0, fields))
  {
    var i :| 0 <= i < |queries| && queries[i] == "";
    assert StartsWith(fields[pos], "");
    assert Matches(queries[i], fields[pos], false);
  }

  // ---------------------------------------------------------------------
  // Canonize
  // ---------------------------------------------------------------------

  lemma {:induction false} LStripSuffix(s: string, cs: set<char>)
    ensures |LStrip(s, cs)| <= |s| && LStrip(s, cs) == s[|s| - |LStrip(s, cs)|..]
    ensures |LStrip(s, cs)| > 0 ==> LStrip(s, cs)[0] !in cs
    decreases |s|
  {
    if |s| > 0 && s[0] in cs {
      LStripSuffix(s[1..], cs);
    }
  }

  lemma {:induction false} RStripPrefix(s: string, cs: set<char>)
    ensures |RStrip(s, cs)| <= |s| && RStrip(s, cs) == s[..|RStrip(s, cs)|]
    ensures |RStrip(s, cs)| > 0 ==> RStrip(s, cs)[|RStrip(s, cs)| - 1] !in cs
    decreases |s|
  {
    if |s| > 0 && s[|s| - 1] in cs {
      RStripPrefix(s[..|s| - 1], cs);
    }
  }

  /** `word.strip('[').strip(']')`: a piece of the word, with no `]` at
      either end. */
  function CleanWord(w: string): (r: string)
    ensures |r| <= |w|
    ensures |r| > 0 ==> r[0] != ']' && r[|r| - 1] != ']'
  {
    var a := LStrip(w, {'['});
    var b := RStrip(a, {'['});
    var c := LStrip(b, {']'});
    LStripSuffix(c, {']'});
    RStripPrefix(c, {']'});
    LStripSuffix(w, {'['});
    RStripPrefix(a, {'['});
    LStripSuffix(b, {']'});
    var d := RStrip(c, {']'});
    assert |d| > 0 ==> d[0] == c[0];
    d
  }

  /** A word without brackets at its ends is its own clean form, with or
      without one pair of brackets around it. */
  lemma {:induction false} CleanWordBracketed(w: string)
    requires |w| > 0 ==> w[0] != '[' && w[0] != ']' && w[|w| - 1] != '[' && w[|w| - 1] != ']'
    ensures CleanWord(w) == w
    ensures CleanWord("[" + w + "]") == w
  {
    var s := "[" + w + "]";
    var wb := w + "]";
    assert s[1..] == wb;
    assert LStrip(s, {'['}) == LStrip(wb, {'['});
    if |w| > 0 {
      assert wb[0] == w[0];
      assert wb[..|wb| - 1] == w;
      assert RStrip(wb, {']'}) == RStrip(w, {']'});
    } else {
      assert LStrip(wb, {']'}) == LStrip("", {']'});
    }
  }

  /** `word.strip().split('=')[1].split('[')[0]`: the text between the
      first `=` and the next `[`; IndexError when there is no `=`. */
  function ExtractFid(word: string): (r: Result<string>)
    ensures r.Ok? <==> '=' in StripWs(word)
    ensures r.Err? ==> r.error == IndexError
    ensures r.Ok? ==> '=' !in r.value && '[' !in r.value
  {
    var parts := Split(StripWs(word), "=");
    SplitCharCount(StripWs(word), '=');
    if |parts| < 2 then Err(IndexError)
    else
      SplitCharPieces(StripWs(word), '=');
      SplitCharPieces(parts[1], '[');
      SplitFirstPrefix(parts[1], "[");
      var r := Split(parts[1], "[")[0];
      assert forall i :: 0 <= i < |r| ==> r[i] == parts[1][i];
      Ok(r)
  }

  /** `key=fid[rest` gives `fid`. */
  lemma {:induction false} ExtractFidOf(key: string, fid: string, tail: string)
    requires Blankless(key) && Blankless(fid) && Blankless(tail)
    requires '=' !in key && '=' !in fid && '[' !in fid && '=' !in tail
    ensures ExtractFid(key + "=" + fid + "[" + tail) == Ok(fid)
  {
    var rest := fid + "[" + tail;
    var word := key + "=" + rest;
    assert word == key + ['='] + rest;
    assert rest == fid + ['['] + tail;
    assert '=' !in rest;
    BracketAndEqualAreNotWhitespace();
    BlanklessConcat(fid, "[");
    BlanklessConcat(fid + "[", tail);
    BlanklessConcat(key, "=");
    BlanklessConcat(key + "=", rest);
    StripBlankless(word);
    SplitCharFirst(key, '=', rest);
    SplitCharNone(rest, '=');
    SplitCharFirst(fid, '[', tail);
    assert key + "=" + fid + "[" + tail == word;
    assert Split(word, "=") == [key, rest];
    assert Split(rest, "[")[0] == fid;
  }

  lemma {:induction false} BlanklessConcat(a: string, b: string)
    requires Blankless(a) && Blankless(b)
    ensures Blankless(a + b)
  {
    assert forall i :: |a| <= i < |a + b| ==> (a + b)[i] == b[i - |a|];
  }

  lemma {:induction false} BracketAndEqualAreNotWhitespace()
    ensures '[' !in Whitespace && '=' !in Whitespace
  {
  }

  predicate AllDigits(s: string) {
    forall i :: 0 <= i < |s| ==> IsDigit(s[i])
  }

  /** `re.fullmatch(r"\d+\.\d+", s)` for ASCII digits. */
  predicate IsDecimal(s: string) {
    exists k :: 0 < k < |s| - 1 && s[k] == '.' && AllDigits(s[..k]) && AllDigits(s[k + 1..])
  }

  /** The last position holding a decimal, scanning from the end. */
  function LastDecimal(arr: seq<string>): (r: Option<nat>)
    ensures r.None? <==> forall i :: 0 <= i < |arr| ==> !IsDecimal(arr[i])
    ensures r.Some? ==> r.value < |arr| && IsDecimal(arr[r.value])
                        && forall j :: r.value < j < |arr| ==> !IsDecimal(arr[j])
    decreases |arr|
  {
    if |arr| == 0 then None
    else if IsDecimal(arr[|arr| - 1]) then Some(|arr| - 1)
    else
      assert forall i :: 0 <= i < |arr| - 1 ==> arr[i] == arr[..|arr| - 1][i];
      LastDecimal(arr[..|arr| - 1])
  }

  /** `extract_path_pid_procname(arr)`: None when no element is a decimal
      (the elapsed time); otherwise the elements before the last decimal
      joined by spaces (None when there are none) as the path, and the
      elements after it joined by spaces and split at their last `.` into
      the process name and the pid. */
  function ExtractPathPidProcname(arr: seq<string>): (r: Option<(Option<string>, string, string)>)
    ensures r.None? <==> forall i :: 0 <= i < |arr| ==> !IsDecimal(arr[i])
    ensures r.Some? ==> '.' !in r.value.2
    ensures r.Some? ==> (r.value.0.Some? <==> LastDecimal(arr).value > 0)
  {
    match LastDecimal(arr)
    case None => None
    case Some(f) =>
      var parts := RSplitOnce(Join(arr[f + 1..], " "), '.');
      RSplitOnceJoin(Join(arr[f + 1..], " "), '.');
      var procname := if |parts| == 2 then parts[0] else "";
      Some((if f > 0 then Some(Join(arr[..f], " ")) else None, procname, parts[|parts| - 1]))
  }

  /** Path words, the elapsed time, then words ending `proc.pid` give the
      path, the process name and the pid. */
  lemma {:induction false} ExtractOf(path: seq<string>, dur: string, after: seq<string>, proc: string, pid: string)
    requires IsDecimal(dur)
    requires forall i :: 0 <= i < |after| ==> !IsDecimal(after[i])
    requires Join(after, " ") == proc + "." + pid && '.' !in pid
    ensures ExtractPathPidProcname(path + [dur] + after)
            == Some((if |path| > 0 then Some(Join(path, " ")) else None, proc, pid))
  {
    var arr := path + [dur] + after;
    assert arr[|path|] == dur;
    assert forall j :: |path| < j < |arr| ==> arr[j] == after[j - |path| - 1];
    assert LastDecimal(arr) == Some(|path|);
    assert arr[|path| + 1..] == after;
    assert arr[..|path|] == path;
    assert proc + "." + pid == proc + ['.'] + pid;
    RSplitOnceAt(proc, '.', pid);
  }

  function OptStr(s: Option<string>): Value {
    if s.Some? then VStr(s.value) else VNone
  }

  /** `Canonize().execute((status, arr))`: a bad line gives `(1, [])`; a
      good one needs a time and an action (ValueError), both cleaned of
      brackets.  An `open` adds the fid of the first detail and, when the
      details after the second hold an elapsed time, the path (None when
      empty), process name and pid; a `close` adds the fid and, from the
      details after the first, the process name and pid; any other action
      adds nothing. */
  function Canonize(status: int, arr: seq<string>): (r: Result<(int, seq<Value>)>)
    ensures status != 0 ==> r == Ok((1, []))
    ensures status == 0 && |arr| < 2 ==> r == Err(ValueError)
    ensures r.Ok? && status == 0 ==> r.value.0 == 0 && |r.value.1| >= 2
                                     && r.value.1[0] == VStr(CleanWord(arr[0]))
                                     && r.value.1[1] == VStr(CleanWord(arr[1]))
    ensures r.Ok? && status == 0 && arr[1] != "open" && arr[1] != "close" ==> |r.value.1| == 2
    ensures r.Ok? && status == 0 && arr[1] == "open" ==> |r.value.1| == 3 || |r.value.1| == 6
    ensures r.Ok? && status == 0 && arr[1] == "close" ==> |r.value.1| == 3 || |r.value.1| == 5
    ensures r.Err? && status == 0 && |arr| >= 2 ==> (arr[1] == "open" || arr[1] == "close") && r.error == IndexError
  {
    if status != 0 then Ok((1, []))
    else if |arr| < 2 then Err(ValueError)
    else
      var head := [VStr(CleanWord(arr[0])), VStr(CleanWord(arr[1]))];
      var details := arr[2..];
      if arr[1] == "open" || arr[1] == "close" then
        if |details| == 0 then Err(IndexError)
        else
          var fid :- ExtractFid(details[0]);
          var skip := if arr[1] == "open" then 2 else 1;
          match ExtractPathPidProcname(SliceFrom(details, skip))
          case None => Ok((0, head + [VStr(fid)]))
          case Some(res) =>
            if arr[1] == "open" then Ok((0, head + [VStr(fid), OptStr(res.0), VStr(res.1), VStr(res.2)]))
            else Ok((0, head + [VStr(fid), VStr(res.1), VStr(res.2)]))
      else Ok((0, head))
  }

  lemma {:induction false} SliceFromDrops<T>(s: seq<T>, k: nat)
    requires k <= |s|
    ensures SliceFrom(s, k) == s[k..]
  {
  }

  /** An `open` or `close` line whose fid and process are found. */
  lemma {:induction false} CanonizeFound(arr: seq<string>, res: (Option<string>, string, string))
    requires |arr| >= 3 && (arr[1] == "open" || arr[1] == "close")
    requires ExtractFid(arr[2]).Ok?
    requires ExtractPathPidProcname(SliceFrom(arr[2..], if arr[1] == "open" then 2 else 1)) == Some(res)
    ensures var head := [VStr(CleanWord(arr[0])), VStr(CleanWord(arr[1]))];
      var fid := VStr(ExtractFid(arr[2]).value);
      Canonize(0, arr) == Ok((0, if arr[1] == "open" then head + [fid, OptStr(res.0), VStr(res.1), VStr(res.2)]
                                 else head + [fid, VStr(res.1), VStr(res.2)]))
  {
    assert arr[2..][0] == arr[2];
  }

  /** An `open` line `[time, open, fidword, x, path…, elapsed, proc.pid]`
      canonises to `[time, open, fid, path, proc, pid]`. */
  lemma {:induction false} CanonizeOpen(arr: seq<string>, time: string, action: string, fidWord: string, x: string,
                                        path: seq<string>, dur: string, after: seq<string>, proc: string, pid: string)
    requires arr == [time, action, fidWord, x] + path + [dur] + after
    requires action == "open"
    requires ExtractFid(fidWord).Ok?
    requires IsDecimal(dur)
    requires forall i :: 0 <= i < |after| ==> !IsDecimal(after[i])
    requires Join(after, " ") == proc + "." + pid && '.' !in pid
    ensures Canonize(0, arr)
            == Ok((0, [VStr(CleanWord(time)), VStr(CleanWord(action)), VStr(ExtractFid(fidWord).value),
                       OptStr(if |path| > 0 then Some(Join(path, " ")) else None), VStr(proc), VStr(pid)]))
  {
    var res := (if |path| > 0 then Some(Join(path, " ")) else None, proc, pid);
    var got := [VStr(CleanWord(time)), VStr(CleanWord(action))]
               + [VStr(ExtractFid(fidWord).value), OptStr(res.0), VStr(proc), VStr(pid)];
    assert Canonize(0, arr) == Ok((0, got)) by {
      var tail := path + [dur] + after;
      assert arr == [time, action, fidWord, x] + tail;
      assert arr[2..] == [fidWord, x] + tail;
      assert ([fidWord, x] + tail)[2..] == tail;
      ExtractOf(path, dur, after, proc, pid);
      SliceFromDrops(arr[2..], 2);
      assert ExtractPathPidProcname(SliceFrom(arr[2..], 2)) == Some(res);
      assert arr[0] == time && arr[1] == action && arr[2] == fidWord;
      CanonizeFound(arr, res);
    }
    assert got == [VStr(CleanWord(time)), VStr(CleanWord(action)), VStr(ExtractFid(fidWord).value),
                   OptStr(res.0), VStr(proc), VStr(pid)];
  }

  /** A `close` line `[time, close, fidword, proc.pid]` canonises to `[time,
      close, fid, proc, pid]` when something before the process is a
      decimal elapsed time. */
  lemma {:induction false} CanonizeClose(arr: seq<string>, time: string, action: string, fidWord: string,
                                         before: seq<string>, dur: string, after: seq<string>, proc: string, pid: string)
    requires arr == [time, action, fidWord] + before + [dur] + after
    requires action == "close"
    requires ExtractFid(fidWord).Ok?
    requires IsDecimal(dur)
    requires forall i :: 0 <= i < |after| ==> !IsDecimal(after[i])
    requires Join(after, " ") == proc + "." + pid && '.' !in pid
    ensures Canonize(0, arr)
            == Ok((0, [VStr(CleanWord(time)), VStr(CleanWord(action)), VStr(ExtractFid(fidWord).value),
                       VStr(proc), VStr(pid)]))
  {
    var res := (if |before| > 0 then Some(Join(before, " ")) else None, proc, pid);
    var got := [VStr(CleanWord(time)), VStr(CleanWord(action))] + [VStr(ExtractFid(fidWord).value), VStr(proc), VStr(pid)];
    assert Canonize(0, arr) == Ok((0, got)) by {
      var tail := before + [dur] + after;
      assert arr == [time, action, fidWord] + tail;
      assert arr[2..] == [fidWord] + tail;
      assert ([fidWord] + tail)[1..] == tail;
      ExtractOf(before, dur, after, proc, pid);
      SliceFromDrops(arr[2..], 1);
      assert ExtractPathPidProcname(SliceFrom(arr[2..], 1)) == Some(res);
      assert arr[0] == time && arr[1] == action && arr[2] == fidWord;
      assert action != "open" by {
        assert action[0] == 'c';
      }
      CanonizeFound(arr, res);
    }
    assert got == [VStr(CleanWord(time)), VStr(CleanWord(action)), VStr(ExtractFid(fidWord).value),
                   VStr(proc), VStr(pid)];
  }
}
