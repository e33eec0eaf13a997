/** Machine-configuration file names: `<prefix>-<guid>-<timestamp>.json`,
    where the timestamp is `YYYY-MM-DDTHH-MM-SS.<digits>Z`.  The modules
    that read these files match the name with a regular expression, turn
    the timestamp back into ISO form, and pick one file among several by
    its timestamp.
 */
module ConfigNames {

  import opened Errors
  import opened PyStr

  // ---------------------------------------------------------------------
  // The regular expression of the macOS and Windows readers, written as a
  // raw string, so `\d{4}` counts four digits:
  //   (?:.*[SEPS])?PREFIX-(?P<guid>[a-fA-F0-9\-]+)-(?P<timestamp>\d{4}-\d{2}-\d{2}T\d{2}-\d{2}-\d{2}\.\d+Z)\.SUFFIX
  // under `re.match`, which anchors the start only.
  // ---------------------------------------------------------------------

  /** The class `[a-fA-F0-9\-]` of the guid group. */
  predicate GuidChar(c: char) {
    IsHexDigit(c) || c == '-'
  }

  /** How many characters of the guid class follow position `i`. */
  function GuidRun(s: string, i: nat): (r: nat)
    requires i <= |s|
    ensures i + r <= |s|
    ensures forall k :: i <= k < i + r ==> GuidChar(s[k])
    ensures i + r < |s| ==> !GuidChar(s[i + r])
    decreases |s| - i
  {
    if i < |s| && GuidChar(s[i]) then 1 + GuidRun(s, i + 1) else 0
  }

  /** How many digits follow position `i`. */
  function DigitRun(s: string, i: nat): (r: nat)
    requires i <= |s|
    ensures i + r <= |s|
    ensures forall k :: i <= k < i + r ==> IsDigit(s[k])
    ensures i + r < |s| ==> !IsDigit(s[i + r])
    decreases |s| - i
  {
    if i < |s| && IsDigit(s[i]) then 1 + DigitRun(s, i + 1) else 0
  }

  /** `\d{4}-\d{2}-\d{2}`. */
  predicate DateShape(d: string) {
    |d| == 10 && d[4] == '-' && d[7] == '-'
    && forall k :: 0 <= k < 10 && k != 4 && k != 7 ==> IsDigit(d[k])
  }

  /** `\d{2}-\d{2}-\d{2}`. */
  predicate TimeShape(t: string) {
    |t| == 8 && t[2] == '-' && t[5] == '-'
    && forall k :: 0 <= k < 8 && k != 2 && k != 5 ==> IsDigit(t[k])
  }

  /** The pieces of a timestamp as it appears in a file name. */
  predicate StampParts(date: string, time: string, frac: string) {
    DateShape(date) && TimeShape(time) && |frac| > 0 && AllDigits(frac)
  }

  function Stamp(date: string, time: string, frac: string): string {
    date + "T" + time + "." + frac + "Z"
  }

  /** The name a configuration file of the scheme is written under. */
  function FileName(prefix: string, guid: string, stamp: string, suffix: string): string {
    prefix + "-" + guid + "-" + stamp + "." + suffix
  }

  /** Whether the timestamp group matches at `i`, and how long the match
      is: `\d+` takes every digit, and a `Z` must follow. */
  function StampAt(s: string, i: nat): (r: Option<nat>)
    requires i <= |s|
    ensures r.Some? ==> i + r.value <= |s| && r.value >= 22
  {
    if |s| < i + 22 then None
    else if !DateShape(s[i..i + 10]) || s[i + 10] != 'T' || !TimeShape(s[i + 11..i + 19]) || s[i + 19] != '.' then None
    else
      var k := DigitRun(s, i + 20);
      if k == 0 || i + 20 + k >= |s| || s[i + 20 + k] != 'Z' then None
      else Some(21 + k)
  }

  /** Where the timestamp group starts when the guid group starts at `g`:
      the guid group is the run of guid-class characters up to the first
      character outside the class, less the ten characters of the date and
      the `-` before it; that character must be the timestamp's `T`. */
  function StampStart(s: string, g: nat): (r: Option<nat>)
    requires g <= |s|
    ensures r.Some? ==> g + 1 < r.value && r.value + 10 < |s|
  {
    var run := GuidRun(s, g);
    if run < 12 || g + run >= |s| || s[g + run] != 'T' then None
    else if s[g + run - 11] != '-' then None
    else Some(g + run - 10)
  }

  /** The expression without its directory group, matched at `p`: the
      (guid, timestamp) pair of groups, or None. */
  function MatchAt(s: string, p: nat, prefix: string, suffix: string): (r: Option<(string, string)>)
    requires p <= |s|
  {
    var head := prefix + "-";
    if !StartsWith(s[p..], head) then None
    else
      var g := p + |head|;
      match StampStart(s, g)
      case None => None
      case Some(t) =>
        match StampAt(s, t)
        case None => None
        case Some(n) =>
          if StartsWith(s[t + n..], "." + suffix) then Some((s[g..t - 1], s[t..t + n])) else None
  }

  /** The optional directory group `(?:.*[SEPS])?` is greedy: the match
      starts just after the LAST separator from which the rest matches
      (`.` does not cross a newline), and at 0 when none does.  `j` counts
      down the candidate starts. */
  function DirMatch(s: string, j: nat, prefix: string, suffix: string, seps: set<char>): (r: Option<(string, string)>)
    requires j <= |s|
    decreases j
  {
    if j == 0 then MatchAt(s, 0, prefix, suffix)
    else if s[j - 1] in seps && '\n' !in s[..j - 1] && MatchAt(s, j, prefix, suffix).Some? then
      MatchAt(s, j, prefix, suffix)
    else DirMatch(s, j - 1, prefix, suffix, seps)
  }

  /** What the search finds is a match at one of the candidate starts. */
  lemma {:induction false} DirMatchSound(s: string, j: nat, prefix: string, suffix: string, seps: set<char>)
    requires j <= |s|
    ensures DirMatch(s, j, prefix, suffix, seps).Some? ==>
              exists p :: 0 <= p <= j && MatchAt(s, p, prefix, suffix) == DirMatch(s, j, prefix, suffix, seps)
    decreases j
  {
    if j > 0 {
      DirMatchSound(s, j - 1, prefix, suffix, seps);
    }
  }

  /** `re.match` of the file-name expression: the guid and timestamp
      groups, or None. */
  function ReMatch(s: string, prefix: string, suffix: string, seps: set<char>): Option<(string, string)> {
    DirMatch(s, |s|, prefix, suffix, seps)
  }

  /** A run of `n` guid-class characters ended by one outside the class. */
  lemma {:induction false} GuidRunExact(s: string, i: nat, n: nat)
    requires i + n < |s|
    requires forall k :: i <= k < i + n ==> GuidChar(s[k])
    requires !GuidChar(s[i + n])
    ensures GuidRun(s, i) == n
    decreases n
  {
    if n > 0 {
      GuidRunExact(s, i + 1, n - 1);
    }
  }

  lemma {:induction false} DigitRunExact(s: string, i: nat, n: nat)
    requires i + n < |s|
    requires forall k :: i <= k < i + n ==> IsDigit(s[k])
    requires !IsDigit(s[i + n])
    ensures DigitRun(s, i) == n
    decreases n
  {
    if n > 0 {
      DigitRunExact(s, i + 1, n - 1);
    }
  }

  /** The timestamp group recognises the timestamps of the naming
      scheme, with their full length. */
  lemma StampAtStamp(s: string, i: nat, date: string, time: string, frac: string)
    requires StampParts(date, time, frac)
    requires i + |Stamp(date, time, frac)| < |s|
    requires s[i..i + |Stamp(date, time, frac)|] == Stamp(date, time, frac)
    requires !IsDigit(s[i + |Stamp(date, time, frac)|])
    ensures StampAt(s, i) == Some(|Stamp(date, time, frac)|)
  {
    StampPieces(s, i, date, time, frac);
    DigitRunExact(s, i + 20, |frac|);
  }

  /** Where the pieces of a timestamp sit in the text holding it. */
  lemma StampPieces(s: string, i: nat, date: string, time: string, frac: string)
    requires |date| == 10 && |time| == 8
    requires i + |Stamp(date, time, frac)| <= |s|
    requires s[i..i + |Stamp(date, time, frac)|] == Stamp(date, time, frac)
    ensures |Stamp(date, time, frac)| == 21 + |frac|
    ensures s[i..i + 10] == date && s[i + 10] == 'T' && s[i + 11..i + 19] == time && s[i + 19] == '.'
    ensures forall k :: 0 <= k < |frac| ==> s[i + 20 + k] == frac[k]
    ensures s[i + 20 + |frac|] == 'Z'
  {
    var st := Stamp(date, time, frac);
    assert st == date + (['T'] + time + ['.'] + frac + ['Z']);
    assert forall k :: 0 <= k < 10 ==> s[i + k] == st[k] == date[k];
    assert forall k :: 0 <= k < 8 ==> s[i + 11 + k] == st[11 + k] == time[k];
    assert forall k :: 0 <= k < |frac| ==> s[i + 20 + k] == st[20 + k] == frac[k];
    assert s[i + 10] == st[10];
    assert s[i + 19] == st[19];
    assert s[i + 20 + |frac|] == st[20 + |frac|];
  }

  /** A name of the scheme, found at `p`, gives back its guid and
      timestamp. */
  lemma MatchAtName(s: string, p: nat, prefix: string, guid: string, date: string, time: string,
                    frac: string, suffix: string)
    requires StampParts(date, time, frac)
    requires |guid| > 0 && forall k :: 0 <= k < |guid| ==> GuidChar(guid[k])
    requires p <= |s| && StartsWith(s[p..], FileName(prefix, guid, Stamp(date, time, frac), suffix))
    ensures MatchAt(s, p, prefix, suffix) == Some((guid, Stamp(date, time, frac)))
  {
    var st := Stamp(date, time, frac);
    MatchAtBounds(s, p, prefix, guid, date, time, frac, suffix);
    var t := p + |prefix| + 1 + |guid| + 1;
    MatchAtFrom(s, p, prefix, suffix, t, |st|);
  }

  /** Where each group of a name of the scheme begins and ends. */
  lemma MatchAtBounds(s: string, p: nat, prefix: string, guid: string, date: string, time: string,
                      frac: string, suffix: string)
    requires StampParts(date, time, frac)
    requires |guid| > 0 && forall k :: 0 <= k < |guid| ==> GuidChar(guid[k])
    requires p <= |s| && StartsWith(s[p..], FileName(prefix, guid, Stamp(date, time, frac), suffix))
    ensures var g := p + |prefix| + 1;
      var t := g + |guid| + 1;
      var n := |Stamp(date, time, frac)|;
      t + n <= |s|
      && StartsWith(s[p..], prefix + "-")
      && StampStart(s, g) == Some(t) && StampAt(s, t) == Some(n)
      && StartsWith(s[t + n..], "." + suffix)
      && s[g..t - 1] == guid && s[t..t + n] == Stamp(date, time, frac)
  {
    var st := Stamp(date, time, frac);
    NamePieces(s, p, prefix, guid, st, suffix);
    var g := p + |prefix| + 1;
    var t := g + |guid| + 1;
    GuidGroup(s, g, guid, date, time, frac);
    StampAtStamp(s, t, date, time, frac);
  }

  /** Where the pieces of a name sit in the text holding it. */
  lemma NamePieces(s: string, p: nat, prefix: string, guid: string, st: string, suffix: string)
    requires p <= |s| && StartsWith(s[p..], FileName(prefix, guid, st, suffix))
    ensures var g := p + |prefix| + 1;
      var t := g + |guid| + 1;
      t + |st| < |s|
      && StartsWith(s[p..], prefix + "-")
      && s[g..t - 1] == guid && s[t - 1] == '-' && s[t..t + |st|] == st
      && s[t + |st|] == '.' && StartsWith(s[t + |st|..], "." + suffix)
  {
    var head := prefix + "-";
    var dot := "." + suffix;
    var name := FileName(prefix, guid, st, suffix);
    var a, b, c := |head|, |head| + |guid|, |head| + |guid| + 1 + |st|;
    assert name == head + guid + ['-'] + st + dot;
    assert s[p..][..|name|] == name;
    assert s[p..p + |name|] == name;
    SliceWithin(s, p, name, 0, a);
    assert name[0..a] == head;
    SliceWithin(s, p, name, a, b);
    assert name[a..b] == guid;
    SliceWithin(s, p, name, b + 1, c);
    assert name[b + 1..c] == st;
    SliceWithin(s, p, name, c, |name|);
    assert name[c..|name|] == dot;
    assert s[p + b] == name[b] == '-';
    assert s[p..][..a] == s[p..p + a];
    assert s[p + c..][..|dot|] == s[p + c..p + |name|];
  }

  /** In a name of the scheme the guid-class run from the guid group
      takes the guid, its `-` and the date, and stops at the `T`. */
  lemma GuidRunOfName(s: string, g: nat, guid: string, date: string, time: string, frac: string)
    requires StampParts(date, time, frac)
    requires |guid| > 0 && forall k :: 0 <= k < |guid| ==> GuidChar(guid[k])
    requires g + |guid| + 1 + |Stamp(date, time, frac)| <= |s|
    requires s[g..g + |guid|] == guid && s[g + |guid|] == '-'
    requires s[g + |guid| + 1..g + |guid| + 1 + |Stamp(date, time, frac)|] == Stamp(date, time, frac)
    ensures GuidRun(s, g) == |guid| + 11 && s[g + |guid| + 11] == 'T'
    ensures s[g + |guid| + 1..g + |guid| + 11] == date
  {
    var t := g + |guid| + 1;
    StampPieces(s, t, date, time, frac);
    forall k | g <= k < t + 10
      ensures GuidChar(s[k])
    {
      if k < t - 1 {
        assert s[k] == s[g..g + |guid|][k - g] == guid[k - g];
      } else if k >= t {
        assert s[k] == s[t..t + 10][k - t] == date[k - t];
      }
    }
    GuidRunExact(s, g, |guid| + 11);
  }

  /** The guid group ends just before the timestamp of a name. */
  lemma GuidGroup(s: string, g: nat, guid: string, date: string, time: string, frac: string)
    requires StampParts(date, time, frac)
    requires |guid| > 0 && forall k :: 0 <= k < |guid| ==> GuidChar(guid[k])
    requires g + |guid| + 1 + |Stamp(date, time, frac)| <= |s|
    requires s[g..g + |guid|] == guid && s[g + |guid|] == '-'
    requires s[g + |guid| + 1..g + |guid| + 1 + |Stamp(date, time, frac)|] == Stamp(date, time, frac)
    ensures StampStart(s, g) == Some(g + |guid| + 1)
  {
    GuidRunOfName(s, g, guid, date, time, frac);
  }

  /** The match, once each group's boundary is known. */
  lemma MatchAtFrom(s: string, p: nat, prefix: string, suffix: string, t: nat, n: nat)
    requires p <= |s| && StartsWith(s[p..], prefix + "-")
    requires StampStart(s, p + |prefix| + 1) == Some(t)
    requires StampAt(s, t) == Some(n)
    requires StartsWith(s[t + n..], "." + suffix)
    ensures MatchAt(s, p, prefix, suffix) == Some((s[p + |prefix| + 1..t - 1], s[t..t + n]))
  {
  }

  /** No candidate start between `lo` and `j` follows a separator: the
      search falls through to `lo`. */
  lemma {:induction false} DirMatchSkips(s: string, lo: nat, j: nat, prefix: string, suffix: string, seps: set<char>)
    requires lo <= j <= |s|
    requires forall k :: lo <= k < j ==> s[k] !in seps
    ensures DirMatch(s, j, prefix, suffix, seps) == DirMatch(s, lo, prefix, suffix, seps)
    decreases j
  {
    if j > lo {
      assert s[j - 1] !in seps;
      assert DirMatch(s, j, prefix, suffix, seps) == DirMatch(s, j - 1, prefix, suffix, seps);
      DirMatchSkips(s, lo, j - 1, prefix, suffix, seps);
    }
  }

  /** A candidate start just after a separator, or the start itself,
      where the rest matches, is what the search returns. */
  lemma DirMatchAt(s: string, j: nat, prefix: string, suffix: string, seps: set<char>)
    requires j <= |s|
    requires j == 0 || (s[j - 1] in seps && '\n' !in s[..j - 1])
    requires MatchAt(s, j, prefix, suffix).Some?
    ensures DirMatch(s, j, prefix, suffix, seps) == MatchAt(s, j, prefix, suffix)
  {
  }

  /** A start after which no separator occurs, that follows the last
      separator or is the start of the text, is where the search matches
      when anything matches there. */
  lemma DirLast(s: string, j: nat, prefix: string, suffix: string, seps: set<char>)
    requires j <= |s|
    requires j == 0 || (s[j - 1] in seps && '\n' !in s[..j - 1])
    requires forall k :: j <= k < |s| ==> s[k] !in seps
    requires MatchAt(s, j, prefix, suffix).Some?
    ensures ReMatch(s, prefix, suffix, seps) == MatchAt(s, j, prefix, suffix)
  {
    DirMatchSkips(s, j, |s|, prefix, suffix, seps);
    DirMatchAt(s, j, prefix, suffix, seps);
  }

  /** A directory path followed by a name without separators. */
  lemma DirThenName(dir: string, name: string, seps: set<char>)
    requires dir == [] || (dir[|dir| - 1] in seps && '\n' !in dir[..|dir| - 1])
    requires forall c :: c in name ==> c !in seps
    ensures |dir| == 0 || ((dir + name)[|dir| - 1] in seps && '\n' !in (dir + name)[..|dir| - 1])
    ensures forall k :: |dir| <= k < |dir + name| ==> (dir + name)[k] !in seps
    ensures (dir + name)[|dir|..] == name
  {
    var s := dir + name;
    forall k | |dir| <= k < |s|
      ensures s[k] !in seps
    {
      assert s[k] == name[k - |dir|];
    }
    if |dir| > 0 {
      assert s[..|dir| - 1] == dir[..|dir| - 1];
    }
  }

  /** A configuration file of the scheme, under any directory path, parses
      to the guid and timestamp it was named with. */
  lemma ParseName(dir: string, prefix: string, guid: string, date: string, time: string, frac: string,
                  suffix: string, seps: set<char>)
    requires StampParts(date, time, frac)
    requires |guid| > 0 && forall k :: 0 <= k < |guid| ==> GuidChar(guid[k])
    requires dir == [] || (dir[|dir| - 1] in seps && '\n' !in dir[..|dir| - 1])
    requires forall c :: c in FileName(prefix, guid, Stamp(date, time, frac), suffix) ==> c !in seps
    ensures ReMatch(dir + FileName(prefix, guid, Stamp(date, time, frac), suffix), prefix, suffix, seps)
            == Some((guid, Stamp(date, time, frac)))
  {
    var name := FileName(prefix, guid, Stamp(date, time, frac), suffix);
    DirThenName(dir, name, seps);
    var s := dir + name;
    assert name[..|name|] == name;
    assert StartsWith(s[|dir|..], name);
    MatchAtName(s, |dir|, prefix, guid, date, time, frac, suffix);
    DirLast(s, |dir|, prefix, suffix, seps);
  }

  // ---------------------------------------------------------------------
  // The expression of the generic reader.  It is built by an f-string, in
  // which `{4}` and `{2}` are replacement fields, not repetition counts:
  // they put the digits 4 and 2 into the pattern, so the timestamp group
  // reads `\d4-\d2-\d2T\d2-\d2-\d2\.\d+Z` (a digit followed by a literal
  // `4`, and so on).  Only the timestamp group differs from the expression
  // above.
  // ---------------------------------------------------------------------

  /** A digit followed by the literal character `c`: `\d4` or `\d2`. */
  predicate DigitThen(s: string, i: nat, c: char)
    requires i + 1 < |s|
  {
    IsDigit(s[i]) && s[i + 1] == c
  }

  /** `\d4-\d2-\d2`. */
  predicate FmtDateShape(d: string) {
    |d| == 8 && DigitThen(d, 0, '4') && d[2] == '-' && DigitThen(d, 3, '2') && d[5] == '-' && DigitThen(d, 6, '2')
  }

  /** `\d2-\d2-\d2`. */
  predicate FmtTimeShape(t: string) {
    |t| == 8 && DigitThen(t, 0, '2') && t[2] == '-' && DigitThen(t, 3, '2') && t[5] == '-' && DigitThen(t, 6, '2')
  }

  /** Whether the generic timestamp group matches at `i`, and how long the
      match is. */
  function FmtStampAt(s: string, i: nat): (r: Option<nat>)
    requires i <= |s|
    ensures r.Some? ==> i + r.value <= |s| && r.value >= 20
    ensures r.Some? ==> FmtDateShape(s[i..i + 8]) && s[i + 8] == 'T' && FmtTimeShape(s[i + 9..i + 17])
  {
    if |s| < i + 20 then None
    else if !FmtDateShape(s[i..i + 8]) || s[i + 8] != 'T' || !FmtTimeShape(s[i + 9..i + 17]) || s[i + 17] != '.' then None
    else
      var k := DigitRun(s, i + 18);
      if k == 0 || i + 18 + k >= |s| || s[i + 18 + k] != 'Z' then None
      else Some(19 + k)
  }

  /** Where the generic timestamp group starts when the guid group starts
      at `g`: as for the expression above, the first character outside the
      guid class must be the `T`, now eight characters after the start. */
  function FmtStampStart(s: string, g: nat): (r: Option<nat>)
    requires g <= |s|
    ensures r.Some? ==> g + 1 < r.value && r.value + 8 < |s| && s[r.value + 8] == 'T' && s[r.value - 1] == '-'
  {
    var run := GuidRun(s, g);
    if run < 10 || g + run >= |s| || s[g + run] != 'T' then None
    else if s[g + run - 9] != '-' then None
    else Some(g + run - 8)
  }

  /** The generic expression without its directory group, matched at `p`. */
  function FmtMatchAt(s: string, p: nat, prefix: string, suffix: string): (r: Option<(string, string)>)
    requires p <= |s|
  {
    var head := prefix + "-";
    if !StartsWith(s[p..], head) then None
    else
      FmtTail(s, p + |head|, suffix)
  }

  /** The guid and timestamp groups of the generic expression and the
      suffix after them, once the guid group starts at `g`. */
  function FmtTail(s: string, g: nat, suffix: string): (r: Option<(string, string)>)
    requires g <= |s|
  {
    match FmtStampStart(s, g)
    case None => None
    case Some(t) =>
      match FmtStampAt(s, t)
      case None => None
      case Some(n) =>
        if StartsWith(s[t + n..], "." + suffix) then Some((s[g..t - 1], s[t..t + n])) else None
  }

  /** The greedy directory group in front of the generic expression, as
      `DirMatch` above. */
  function FmtDirMatch(s: string, j: nat, prefix: string, suffix: string, seps: set<char>): (r: Option<(string, string)>)
    requires j <= |s|
    decreases j
  {
    if j == 0 then FmtMatchAt(s, 0, prefix, suffix)
    else if s[j - 1] in seps && '\n' !in s[..j - 1] && FmtMatchAt(s, j, prefix, suffix).Some? then
      FmtMatchAt(s, j, prefix, suffix)
    else FmtDirMatch(s, j - 1, prefix, suffix, seps)
  }

  /** `re.match` of the generic expression. */
  function FmtReMatch(s: string, prefix: string, suffix: string, seps: set<char>): Option<(string, string)> {
    FmtDirMatch(s, |s|, prefix, suffix, seps)
  }

  /** Without a separator before `j` the search falls through to the
      start of the text. */
  lemma {:induction false} FmtDirMatchNoSep(s: string, j: nat, prefix: string, suffix: string, seps: set<char>)
    requires j <= |s|
    requires forall k :: 0 <= k < j ==> s[k] !in seps
    ensures FmtDirMatch(s, j, prefix, suffix, seps) == FmtMatchAt(s, 0, prefix, suffix)
    decreases j
  {
    if j > 0 {
      assert s[j - 1] !in seps;
      FmtDirMatchNoSep(s, j - 1, prefix, suffix, seps);
    }
  }

  /** No name of the scheme matches the generic expression: the second
      character of its year is a digit where the expression wants the
      guid group's `-` (the year is one character too long for `\d4`). */
  lemma FmtRejectsName(prefix: string, guid: string, date: string, time: string, frac: string,
                       suffix: string, seps: set<char>)
    requires StampParts(date, time, frac)
    requires |guid| > 0 && forall k :: 0 <= k < |guid| ==> GuidChar(guid[k])
    requires forall c :: c in FileName(prefix, guid, Stamp(date, time, frac), suffix) ==> c !in seps
    ensures FmtReMatch(FileName(prefix, guid, Stamp(date, time, frac), suffix), prefix, suffix, seps) == None
  {
    var st := Stamp(date, time, frac);
    var s := FileName(prefix, guid, st, suffix);
    assert s[0..] == s;
    NamePieces(s, 0, prefix, guid, st, suffix);
    var g := |prefix| + 1;
    GuidRunOfName(s, g, guid, date, time, frac);
    assert s[g + |guid| + 2] == s[g + |guid| + 1..g + |guid| + 11][1] == date[1];
    assert FmtStampStart(s, g) == None;
    forall k | 0 <= k < |s|
      ensures s[k] !in seps
    {
      assert s[k] in s;
    }
    FmtDirMatchNoSep(s, |s|, prefix, suffix, seps);
  }

  /** Where the pieces of a timestamp of the generic shape sit in the
      text holding it. */
  lemma FmtStampPieces(s: string, i: nat, date: string, time: string, frac: string)
    requires |date| == 8 && |time| == 8
    requires i + |Stamp(date, time, frac)| <= |s|
    requires s[i..i + |Stamp(date, time, frac)|] == Stamp(date, time, frac)
    ensures |Stamp(date, time, frac)| == 19 + |frac|
    ensures s[i..i + 8] == date && s[i + 8] == 'T' && s[i + 9..i + 17] == time && s[i + 17] == '.'
    ensures forall k :: 0 <= k < |frac| ==> s[i + 18 + k] == frac[k]
    ensures s[i + 18 + |frac|] == 'Z'
  {
    var st := Stamp(date, time, frac);
    assert st == date + (['T'] + time + ['.'] + frac + ['Z']);
    assert forall k :: 0 <= k < 8 ==> s[i + k] == st[k] == date[k];
    assert forall k :: 0 <= k < 8 ==> s[i + 9 + k] == st[9 + k] == time[k];
    assert forall k :: 0 <= k < |frac| ==> s[i + 18 + k] == st[18 + k] == frac[k];
    assert s[i + 8] == st[8];
    assert s[i + 17] == st[17];
    assert s[i + 18 + |frac|] == st[18 + |frac|];
  }

  /** The generic timestamp group recognises the timestamps of the
      generic shape, with their full length. */
  lemma FmtStampAtStamp(s: string, i: nat, date: string, time: string, frac: string)
    requires FmtDateShape(date) && FmtTimeShape(time) && |frac| > 0 && AllDigits(frac)
    requires i + |Stamp(date, time, frac)| < |s|
    requires s[i..i + |Stamp(date, time, frac)|] == Stamp(date, time, frac)
    ensures FmtStampAt(s, i) == Some(|Stamp(date, time, frac)|)
  {
    FmtStampPieces(s, i, date, time, frac);
    DigitRunExact(s, i + 18, |frac|);
  }

  /** In a name of the generic shape the guid group ends just before the
      timestamp. */
  lemma FmtGuidGroup(s: string, g: nat, guid: string, date: string, time: string, frac: string)
    requires FmtDateShape(date) && |time| == 8
    requires |guid| > 0 && forall k :: 0 <= k < |guid| ==> GuidChar(guid[k])
    requires g + |guid| + 1 + |Stamp(date, time, frac)| <= |s|
    requires s[g..g + |guid|] == guid && s[g + |guid|] == '-'
    requires s[g + |guid| + 1..g + |guid| + 1 + |Stamp(date, time, frac)|] == Stamp(date, time, frac)
    ensures FmtStampStart(s, g) == Some(g + |guid| + 1)
  {
    var t := g + |guid| + 1;
    FmtStampPieces(s, t, date, time, frac);
    forall k | g <= k < t + 8
      ensures GuidChar(s[k])
    {
      if k < t - 1 {
        assert s[k] == s[g..g + |guid|][k - g] == guid[k - g];
      } else if k >= t {
        var d := k - t;
        assert s[k] == s[t..t + 8][d] == date[d];
        assert d == 0 || d == 1 || d == 2 || d == 3 || d == 4 || d == 5 || d == 6 || d == 7;
      }
    }
    GuidRunExact(s, g, |guid| + 9);
  }

  /** A name of the generic shape, found at `p`, gives back its guid and
      timestamp under the generic expression. */
  lemma FmtMatchAtName(s: string, p: nat, prefix: string, guid: string, date: string, time: string,
                       frac: string, suffix: string)
    requires FmtDateShape(date) && FmtTimeShape(time) && |frac| > 0 && AllDigits(frac)
    requires |guid| > 0 && forall k :: 0 <= k < |guid| ==> GuidChar(guid[k])
    requires p <= |s| && StartsWith(s[p..], FileName(prefix, guid, Stamp(date, time, frac), suffix))
    ensures FmtMatchAt(s, p, prefix, suffix) == Some((guid, Stamp(date, time, frac)))
  {
    var st := Stamp(date, time, frac);
    var g := p + |prefix| + 1;
    var t := g + |guid| + 1;
    FmtMatchAtBounds(s, p, prefix, guid, date, time, frac, suffix);
    FmtTailAt(s, g, t, |st|, suffix);
    assert FmtTail(s, g, suffix) == Some((guid, st));
    FmtMatchAtHead(s, p, prefix, suffix);
  }

  /** Where each group of a name of the generic shape begins and ends. */
  lemma FmtMatchAtBounds(s: string, p: nat, prefix: string, guid: string, date: string, time: string,
                         frac: string, suffix: string)
    requires FmtDateShape(date) && FmtTimeShape(time) && |frac| > 0 && AllDigits(frac)
    requires |guid| > 0 && forall k :: 0 <= k < |guid| ==> GuidChar(guid[k])
    requires p <= |s| && StartsWith(s[p..], FileName(prefix, guid, Stamp(date, time, frac), suffix))
    ensures var g := p + |prefix| + 1;
      var t := g + |guid| + 1;
      var n := |Stamp(date, time, frac)|;
      t + n <= |s|
      && StartsWith(s[p..], prefix + "-")
      && FmtStampStart(s, g) == Some(t) && FmtStampAt(s, t) == Some(n)
      && StartsWith(s[t + n..], "." + suffix)
      && s[g..t - 1] == guid && s[t..t + n] == Stamp(date, time, frac)
  {
    var st := Stamp(date, time, frac);
    NamePieces(s, p, prefix, guid, st, suffix);
    var g := p + |prefix| + 1;
    var t := g + |guid| + 1;
    FmtGuidGroup(s, g, guid, date, time, frac);
    FmtStampAtStamp(s, t, date, time, frac);
  }

  /** The generic match, once the literal prefix is found at `p`. */
  lemma FmtMatchAtHead(s: string, p: nat, prefix: string, suffix: string)
    requires p <= |s| && StartsWith(s[p..], prefix + "-")
    ensures FmtMatchAt(s, p, prefix, suffix) == FmtTail(s, p + |prefix| + 1, suffix)
  {
  }

  /** The groups after the prefix, once each group's boundary is known. */
  lemma FmtTailAt(s: string, g: nat, t: nat, n: nat, suffix: string)
    requires g <= |s|
    requires FmtStampStart(s, g) == Some(t)
    requires FmtStampAt(s, t) == Some(n)
    requires StartsWith(s[t + n..], "." + suffix)
    ensures FmtTail(s, g, suffix) == Some((s[g..t - 1], s[t..t + n]))
  {
  }

  /** The names the generic expression does match: the scheme's layout
      with a date of the shape `\d4-\d2-\d2` and a time of the shape
      `\d2-\d2-\d2`; the groups are the guid and that timestamp. */
  lemma FmtMatchesName(prefix: string, guid: string, date: string, time: string, frac: string,
                       suffix: string, seps: set<char>)
    requires FmtDateShape(date) && FmtTimeShape(time) && |frac| > 0 && AllDigits(frac)
    requires |guid| > 0 && forall k :: 0 <= k < |guid| ==> GuidChar(guid[k])
    requires forall c :: c in FileName(prefix, guid, Stamp(date, time, frac), suffix) ==> c !in seps
    ensures FmtReMatch(FileName(prefix, guid, Stamp(date, time, frac), suffix), prefix, suffix, seps)
            == Some((guid, Stamp(date, time, frac)))
  {
    var s := FileName(prefix, guid, Stamp(date, time, frac), suffix);
    assert s[0..] == s && s[..|s|] == s;
    FmtMatchAtName(s, 0, prefix, guid, date, time, frac, suffix);
    forall k | 0 <= k < |s|
      ensures s[k] !in seps
    {
      assert s[k] in s;
    }
    FmtDirMatchNoSep(s, |s|, prefix, suffix, seps);
  }

  // ---------------------------------------------------------------------
  // The timestamp group back in ISO form
  // ---------------------------------------------------------------------

  /** Every character of `s` is a digit or `c`. */
  predicate DigitsOr(s: string, c: char) {
    forall k :: 0 <= k < |s| ==> IsDigit(s[k]) || s[k] == c
  }

  /** The date and time of a timestamp with `:` for `-`, as the replace
      over the whole group leaves them. */
  function Colons(s: string): string {
    Replace(s, "-", ":")
  }

  /** `ymd, hms = head.split('T')` and the string handed to `fromisoformat`:
      the date part gets its `-` back, and `+00:00` names UTC.  Any other
      number of pieces is a ValueError of the tuple unpacking. */
  function IsoStamp(head: string, fraction: string): (r: Result<string>)
    ensures r.Ok? ==> EndsWith(r.value, "+00:00")
    ensures r.Err? ==> r.error == ValueError
  {
    var halves := Split(head, "T");
    if |halves| != 2 then Err(ValueError)
    else
      var iso := Replace(halves[0], ":", "-") + "T" + halves[1] + "." + fraction;
      assert (iso + "+00:00")[|iso|..] == "+00:00";
      Ok(iso + "+00:00")
  }

  /** The timestamp conversion of the machine-configuration readers, as
      written: the whole group has `-` replaced by `:`, must end in `Z`
      (AssertionError), is split at `.` (IndexError without one), and the
      piece after the first `.` is cut to six characters, the `Z`
      included when fewer than six digits precede it. */
  function ConfigStamp(raw: string): (r: Result<string>)
    ensures r.Ok? ==> EndsWith(r.value, "+00:00")
    ensures r.Err? ==> r.error in {IndexError, AssertionError, ValueError}
  {
    var ts := Colons(raw);
    if |ts| == 0 then Err(IndexError)
    else if ts[|ts| - 1] != 'Z' then Err(AssertionError)
    else
      var parts := Split(ts, ".");
      if |parts| < 2 then Err(IndexError)
      else IsoStamp(parts[0], Slice(parts[1], 0, 6))
  }

  /** The conversion with the final `Z` removed before the fraction is
      cut, so that only digits reach `+00:00`. */
  function FixedConfigStamp(raw: string): (r: Result<string>)
    ensures r.Ok? ==> EndsWith(r.value, "+00:00")
    ensures r.Err? ==> r.error in {IndexError, AssertionError, ValueError}
  {
    var ts := Colons(raw);
    if |ts| == 0 then Err(IndexError)
    else if ts[|ts| - 1] != 'Z' then Err(AssertionError)
    else
      var parts := Split(ts[..|ts| - 1], ".");
      if |parts| < 2 then Err(IndexError)
      else IsoStamp(parts[0], Slice(parts[1], 0, 6))
  }

  /** The conversion of the Windows indexer and the local ingest script:
      `-` becomes `:`, and a fraction of more than six digits is cut to
      six with the `Z` put back; a group without `.` is the ValueError of
      `rindex`. */
  function IndexStamp(raw: string): (r: Result<string>)
    ensures r.Ok? ==> |r.value| <= |raw| + 1
    ensures r.Err? <==> '.' !in Colons(raw)
  {
    var ts := Colons(raw);
    match RIndex(ts, '.')
    case None => Err(ValueError)
    case Some(pos) =>
      if |ts| - pos - 2 > 6 then
        ReplaceCharWise(raw, '-', ':');
        Ok(ts[..pos + 7] + "Z")
      else
        ReplaceCharWise(raw, '-', ':');
        Ok(ts)
  }

  /** Swapping `-` for `:` and back gives the digits-and-dashes text back. */
  lemma ColonsBack(s: string)
    requires DigitsOr(s, '-')
    ensures DigitsOr(Colons(s), ':')
    ensures Replace(Colons(s), ":", "-") == s
  {
    ReplaceCharWise(s, '-', ':');
    ReplaceCharWise(Colons(s), ':', '-');
  }

  /** A character that is neither a digit nor `c` is absent. */
  lemma DigitsOrFree(s: string, c: char, d: char)
    requires DigitsOr(s, c)
    requires !IsDigit(d) && d != c
    ensures d !in s
  {
    forall k | 0 <= k < |s|
      ensures s[k] != d
    {
    }
  }

  /** The date and time of a timestamp are digits and dashes. */
  lemma ShapeDigits(date: string, time: string, frac: string)
    requires StampParts(date, time, frac)
    ensures DigitsOr(date, '-') && DigitsOr(time, '-') && DigitsOr(frac, '-')
  {
  }

  /** What the replace makes of a timestamp of the naming scheme. */
  lemma ColonsStamp(date: string, time: string, frac: string)
    requires StampParts(date, time, frac)
    ensures Colons(Stamp(date, time, frac)) == Colons(date) + "T" + Colons(time) + "." + frac + "Z"
  {
    ShapeDigits(date, time, frac);
    DigitsOrFree(frac, '-', '.');
    ReplaceCharFree("T", '-', ":");
    ReplaceCharFree(".", '-', ":");
    ReplaceCharFree("Z", '-', ":");
    DigitsOrFree(frac, '.', '-');
    ReplaceCharFree(frac, '-', ":");
    ReplaceCharConcat(date, "T", '-', ":");
    ReplaceCharConcat(date + "T", time, '-', ":");
    ReplaceCharConcat(date + "T" + time, ".", '-', ":");
    ReplaceCharConcat(date + "T" + time + ".", frac, '-', ":");
    ReplaceCharConcat(date + "T" + time + "." + frac, "Z", '-', ":");
  }

  /** The head `date:T:time` of a converted timestamp holds neither `.`
      nor a second `T`, and splits at `T` into date and time. */
  lemma HeadSplit(date: string, time: string, frac: string)
    requires StampParts(date, time, frac)
    ensures '.' !in Colons(date) + "T" + Colons(time)
    ensures Split(Colons(date) + "T" + Colons(time), "T") == [Colons(date), Colons(time)]
    ensures Replace(Colons(date), ":", "-") == date
  {
    ShapeDigits(date, time, frac);
    ColonsBack(date);
    ColonsBack(time);
    DigitsOrFree(Colons(date), ':', '.');
    DigitsOrFree(Colons(time), ':', '.');
    DigitsOrFree(Colons(date), ':', 'T');
    DigitsOrFree(Colons(time), ':', 'T');
    SplitCharFirst(Colons(date), 'T', Colons(time));
    SplitCharNone(Colons(time), 'T');
  }

  /** The conversion as written: the date keeps its dashes, the time gets
      colons, and the fraction is the first six characters of the digits
      followed by `Z`. */
  lemma ConfigStampOf(date: string, time: string, frac: string)
    requires StampParts(date, time, frac)
    ensures ConfigStamp(Stamp(date, time, frac))
            == Ok(date + "T" + Colons(time) + "." + Slice(frac + "Z", 0, 6) + "+00:00")
  {
    ColonsStamp(date, time, frac);
    HeadSplit(date, time, frac);
    var head := Colons(date) + "T" + Colons(time);
    var tail := frac + "Z";
    ShapeDigits(date, time, frac);
    DigitsOrFree(frac, '-', '.');
    assert Colons(Stamp(date, time, frac)) == head + ['.'] + tail;
    SplitCharFirst(head, '.', tail);
    SplitCharNone(tail, '.');
  }

  /** The corrected conversion: the fraction is the first six digits, and
      nothing follows it but `+00:00`. */
  lemma FixedConfigStampOf(date: string, time: string, frac: string)
    requires StampParts(date, time, frac)
    ensures FixedConfigStamp(Stamp(date, time, frac))
            == Ok(date + "T" + Colons(time) + "." + Slice(frac, 0, 6) + "+00:00")
  {
    ColonsStamp(date, time, frac);
    HeadSplit(date, time, frac);
    var head := Colons(date) + "T" + Colons(time);
    ShapeDigits(date, time, frac);
    DigitsOrFree(frac, '-', '.');
    var ts := Colons(Stamp(date, time, frac));
    assert ts[..|ts| - 1] == head + ['.'] + frac;
    SplitCharFirst(head, '.', frac);
    SplitCharNone(frac, '.');
  }

  /** With fewer than six fractional digits the text handed to
      `fromisoformat` as written carries the `Z` in front of `+00:00`,
      which names the time zone twice. */
  lemma ConfigStampKeepsZ(date: string, time: string, frac: string)
    requires StampParts(date, time, frac)
    requires |frac| < 6
    ensures ConfigStamp(Stamp(date, time, frac)).Ok?
    ensures Contains(ConfigStamp(Stamp(date, time, frac)).value, "Z+00:00")
  {
    ConfigStampOf(date, time, frac);
    assert Slice(frac + "Z", 0, 6) == frac + "Z";
    var pre := date + "T" + Colons(time) + "." + frac;
    assert ConfigStamp(Stamp(date, time, frac)).value == pre + "Z+00:00" + [];
    ContainsMiddle(pre, "Z+00:00", []);
  }

  /** With six digits or more the two conversions agree. */
  lemma ConfigStampLongFraction(date: string, time: string, frac: string)
    requires StampParts(date, time, frac)
    requires |frac| >= 6
    ensures ConfigStamp(Stamp(date, time, frac)) == FixedConfigStamp(Stamp(date, time, frac))
  {
    ConfigStampOf(date, time, frac);
    FixedConfigStampOf(date, time, frac);
    assert Slice(frac + "Z", 0, 6) == Slice(frac, 0, 6);
  }

  /** The indexer's conversion of a text whose replaced form has its last
      `.` between `head` and `tail`. */
  lemma IndexStampSplit(raw: string, head: string, tail: string)
    requires Colons(raw) == head + ['.'] + tail
    requires '.' !in tail
    ensures IndexStamp(raw) == Ok(if |tail| > 7 then head + "." + tail[..6] + "Z" else Colons(raw))
  {
    RIndexLast(head, '.', tail);
    if |tail| > 7 {
      assert Colons(raw)[..|head| + 7] == head + "." + tail[..6];
    }
  }

  /** The indexer's conversion keeps the whole timestamp with colons and
      at most six fractional digits, `Z` still last. */
  lemma IndexStampOf(date: string, time: string, frac: string)
    requires StampParts(date, time, frac)
    ensures IndexStamp(Stamp(date, time, frac))
            == Ok(Colons(date) + "T" + Colons(time) + "." + Slice(frac, 0, 6) + "Z")
  {
    ColonsStamp(date, time, frac);
    HeadSplit(date, time, frac);
    var head := Colons(date) + "T" + Colons(time);
    ShapeDigits(date, time, frac);
    DigitsOrFree(frac, '-', '.');
    var tail := frac + "Z";
    assert Colons(Stamp(date, time, frac)) == head + ['.'] + tail;
    IndexStampSplit(Stamp(date, time, frac), head, tail);
    if |frac| > 6 {
      assert tail[..6] == frac[..6] == Slice(frac, 0, 6);
    } else {
      assert Slice(frac, 0, 6) == frac;
    }
  }

  // ---------------------------------------------------------------------
  // Picking one configuration file among several
  // ---------------------------------------------------------------------

  /** A candidate file: the instant its name records, and the name. */
  type Candidate = (int, string)

  predicate SortedByTime(c: seq<Candidate>) {
    forall i, j :: 0 <= i < j < |c| ==> c[i].0 <= c[j].0
  }

  /** Inserting `x` before the first element not earlier than it. */
  function InsertByTime(x: Candidate, s: seq<Candidate>): (r: seq<Candidate>)
    ensures |r| == |s| + 1
    ensures multiset(r) == multiset(s) + multiset{x}
    decreases |s|
  {
    if |s| == 0 || x.0 <= s[0].0 then [x] + s
    else
      assert s == [s[0]] + s[1..];
      [s[0]] + InsertByTime(x, s[1..])
  }

  /** `list.sort(key=lambda x: x[0])`: Python's sort is stable, and so is
      this insertion sort, since each element goes in front of the later
      ones with the same timestamp. */
  function SortByTime(c: seq<Candidate>): (r: seq<Candidate>)
    ensures |r| == |c|
    ensures multiset(r) == multiset(c)
    decreases |c|
  {
    if |c| == 0 then []
    else
      assert c == [c[0]] + c[1..];
      InsertByTime(c[0], SortByTime(c[1..]))
  }

  /** The earliest candidate, the first one of them on a tie. */
  function Earliest(c: seq<Candidate>): (r: Candidate)
    requires |c| > 0
    ensures r in c
    ensures forall i :: 0 <= i < |c| ==> r.0 <= c[i].0
    decreases |c|
  {
    if |c| == 1 then c[0]
    else
      var e := Earliest(c[1..]);
      assert forall i :: 1 <= i < |c| ==> c[i] == c[1..][i - 1];
      if c[0].0 <= e.0 then c[0] else e
  }

  /** The latest candidate, the last one of them on a tie. */
  function Latest(c: seq<Candidate>): (r: Candidate)
    requires |c| > 0
    ensures r in c
    ensures forall i :: 0 <= i < |c| ==> c[i].0 <= r.0
    decreases |c|
  {
    if |c| == 1 then c[0]
    else
      var l := Latest(c[1..]);
      assert forall i :: 1 <= i < |c| ==> c[i] == c[1..][i - 1];
      if c[0].0 > l.0 then c[0] else l
  }

  /** Insertion keeps the order. */
  lemma {:induction false} InsertSorted(x: Candidate, s: seq<Candidate>)
    requires SortedByTime(s)
    ensures SortedByTime(InsertByTime(x, s))
    decreases |s|
  {
    if |s| > 0 && x.0 > s[0].0 {
      InsertSorted(x, s[1..]);
      var r := InsertByTime(x, s[1..]);
      assert multiset(r) == multiset(s[1..]) + multiset{x};
      forall y | y in r
        ensures s[0].0 <= y.0
      {
        assert y in multiset(r);
        if y != x {
          assert y in multiset(s[1..]);
          var k :| 0 <= k < |s[1..]| && s[1..][k] == y;
          assert s[k + 1] == y;
        }
      }
    }
  }

  /** The sort orders the candidates by timestamp. */
  lemma {:induction false} SortByTimeSorted(c: seq<Candidate>)
    ensures SortedByTime(SortByTime(c))
    decreases |c|
  {
    if |c| > 0 {
      SortByTimeSorted(c[1..]);
      InsertSorted(c[0], SortByTime(c[1..]));
    }
  }

  /** `candidate_files.sort(...)` then `candidate_files[0]` is the earliest
      candidate, the first of equal ones. */
  lemma {:induction false} SortFirstIsEarliest(c: seq<Candidate>)
    requires |c| > 0
    ensures SortByTime(c)[0] == Earliest(c)
    decreases |c|
  {
    if |c| > 1 {
      SortFirstIsEarliest(c[1..]);
    }
  }

  /** Whenever the candidates do not all share one timestamp, the first
      element after sorting is strictly older than the most recent one. */
  lemma EarliestNotLatest(c: seq<Candidate>, i: nat, j: nat)
    requires i < |c| && j < |c| && c[i].0 < c[j].0
    ensures SortByTime(c)[0].0 < Latest(c).0
  {
    SortFirstIsEarliest(c);
  }
}
