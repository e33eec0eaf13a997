/** The Python `str` operations the modelled code relies on, with
    Python's semantics for the argument shapes that code uses.
 */
module PyStr {

  import opened Errors

  predicate StartsWith(s: string, p: string) {
    |p| <= |s| && s[..|p|] == p
  }

  predicate EndsWith(s: string, p: string) {
    |p| <= |s| && s[|s| - |p|..] == p
  }

  /** Python `p in s` for strings. */
  predicate Contains(s: string, p: string)
    decreases |s|
  {
    if |p| > |s| then false
    else StartsWith(s, p) || (|s| > 0 && Contains(s[1..], p))
  }

  /** A window of `s` that spells `w` spells each part of `w` at the
      matching offset. */
  lemma SliceWithin(s: string, p: nat, w: string, i: nat, j: nat)
    requires p + |w| <= |s| && s[p..p + |w|] == w
    requires i <= j <= |w|
    ensures s[p + i..p + j] == w[i..j]
  {
    forall k | 0 <= k < j - i
      ensures s[p + i..p + j][k] == w[i..j][k]
    {
      assert s[p + i + k] == s[p..p + |w|][i + k];
    }
  }

  /** `p` occurs in `s` starting at index `i`. */
  predicate OccursAt(s: string, p: string, i: int) {
    0 <= i && i + |p| <= |s| && s[i..i + |p|] == p
  }

  /** `Contains` agrees with the positional reading of `p in s`. */
  lemma {:induction false} ContainsIff(s: string, p: string)
    ensures Contains(s, p) <==> exists i :: OccursAt(s, p, i)
    decreases |s|
  {
    if |p| > |s| {
    } else if StartsWith(s, p) {
      assert s[0..0 + |p|] == s[..|p|];
      assert OccursAt(s, p, 0);
    } else if |s| > 0 {
      ContainsIff(s[1..], p);
      if Contains(s[1..], p) {
        var i :| OccursAt(s[1..], p, i);
        assert s[1..][i..i + |p|] == s[i + 1..i + 1 + |p|];
        assert OccursAt(s, p, i + 1);
      } else {
        forall i | OccursAt(s, p, i)
          ensures false
        {
          if i > 0 {
            assert s[1..][i - 1..i - 1 + |p|] == s[i..i + |p|];
            assert OccursAt(s[1..], p, i - 1);
          }
        }
      }
    }
  }

  /** A string contains each of its infixes. */
  lemma ContainsMiddle(a: string, p: string, b: string)
    ensures Contains(a + p + b, p)
  {
    assert (a + p + b)[|a|..|a| + |p|] == p;
    assert OccursAt(a + p + b, p, |a|);
    ContainsIff(a + p + b, p);
  }

  /** For a one-character needle, `[c] in s` is plain membership. */
  lemma {:induction false} ContainsChar(s: string, c: char)
    ensures Contains(s, [c]) <==> c in s
    decreases |s|
  {
    if |s| > 0 {
      ContainsChar(s[1..], c);
      assert s == [s[0]] + s[1..];
    }
  }

  /** Python `s.replace(pat, rep)` for a non-empty `pat`: occurrences are
      found left to right and never overlap. */
  function Replace(s: string, pat: string, rep: string): (r: string)
    requires |pat| > 0
    decreases |s|
  {
    if |s| < |pat| then s
    else if s[..|pat|] == pat then rep + Replace(s[|pat|..], pat, rep)
    else [s[0]] + Replace(s[1..], pat, rep)
  }

  /** Without an occurrence of `pat`, `replace` changes nothing. */
  lemma {:induction false} ReplaceAbsent(s: string, pat: string, rep: string)
    requires |pat| > 0
    requires !Contains(s, pat)
    ensures Replace(s, pat, rep) == s
    decreases |s|
  {
    if |s| >= |pat| {
      assert s[..|pat|] != pat;
      ReplaceAbsent(s[1..], pat, rep);
    }
  }

  /** Replacing one character is local: it commutes with concatenation. */
  lemma {:induction false} ReplaceCharConcat(a: string, b: string, c: char, rep: string)
    ensures Replace(a + b, [c], rep) == Replace(a, [c], rep) + Replace(b, [c], rep)
    decreases |a|
  {
    if |a| == 0 {
      assert a + b == b;
    } else {
      assert (a + b)[1..] == a[1..] + b;
      assert (a + b)[..1] == a[..1];
      ReplaceCharConcat(a[1..], b, c, rep);
    }
  }

  /** Replacing a character removes it, keeps every other character of the
      input, and introduces only characters of the replacement. */
  lemma {:induction false} ReplaceCharChars(s: string, c: char, rep: string, d: char)
    ensures d in Replace(s, [c], rep) ==> (d in s && d != c) || d in rep
    decreases |s|
  {
    if |s| > 0 {
      ReplaceCharChars(s[1..], c, rep, d);
      if s[..1] != [c] {
        assert s[0] != c;
      }
    }
  }

  /** Replacing a character that does not occur changes nothing. */
  lemma ReplaceCharFree(s: string, c: char, rep: string)
    requires c !in s
    ensures Replace(s, [c], rep) == s
  {
    ContainsChar(s, c);
    ReplaceAbsent(s, [c], rep);
  }

  /** Replacing one character by another works position by position. */
  lemma {:induction false} ReplaceCharWise(s: string, c: char, d: char)
    ensures |Replace(s, [c], [d])| == |s|
    ensures forall i :: 0 <= i < |s| ==> Replace(s, [c], [d])[i] == if s[i] == c then d else s[i]
    decreases |s|
  {
    if |s| > 0 {
      ReplaceCharWise(s[1..], c, d);
      assert s[..1] == [s[0]];
    }
  }

  /** Python `s.split(sep)` for a non-empty separator. */
  function Split(s: string, sep: string): (r: seq<string>)
    requires |sep| > 0
    ensures |r| >= 1
    decreases |s|
  {
    if |s| < |sep| then [s]
    else if s[..|sep|] == sep then [[]] + Split(s[|sep|..], sep)
    else
      var rest := Split(s[1..], sep);
      [[s[0]] + rest[0]] + rest[1..]
  }

  /** Python `sep.join(parts)`. */
  function Join(parts: seq<string>, sep: string): string
    decreases |parts|
  {
    if |parts| == 0 then []
    else if |parts| == 1 then parts[0]
    else parts[0] + sep + Join(parts[1..], sep)
  }

  /** Gluing a character onto the first piece glues it onto the join. */
  lemma JoinConsFirst(c: char, parts: seq<string>, sep: string)
    requires |parts| >= 1
    ensures Join([[c] + parts[0]] + parts[1..], sep) == [c] + Join(parts, sep)
  {
    var q := [[c] + parts[0]] + parts[1..];
    assert q[0] == [c] + parts[0];
    if |parts| > 1 {
      assert q[1..] == parts[1..];
    }
  }

  /** Every piece occurs in the joined string. */
  lemma {:induction false} JoinContains(parts: seq<string>, sep: string, i: nat)
    requires i < |parts|
    ensures Contains(Join(parts, sep), parts[i])
    decreases |parts|
  {
    if i == 0 {
      var tail := if |parts| == 1 then [] else sep + Join(parts[1..], sep);
      assert Join(parts, sep) == [] + parts[0] + tail;
      ContainsMiddle([], parts[0], tail);
    } else {
      var p := parts[i];
      var pre := parts[0] + sep;
      var rest := Join(parts[1..], sep);
      assert parts[1..][i - 1] == p;
      JoinContains(parts[1..], sep, i - 1);
      ContainsIff(rest, p);
      var k :| OccursAt(rest, p, k);
      assert Join(parts, sep) == pre + rest;
      assert (pre + rest)[|pre| + k..|pre| + k + |p|] == rest[k..k + |p|];
      assert OccursAt(pre + rest, p, |pre| + k);
      ContainsIff(pre + rest, p);
    }
  }

  /** An empty first piece puts a separator in front of the join. */
  lemma JoinConsEmpty(parts: seq<string>, sep: string)
    requires |parts| >= 1
    ensures Join([[]] + parts, sep) == sep + Join(parts, sep)
  {
    assert ([[]] + parts)[1..] == parts;
  }

  /** `sep.join(s.split(sep)) == s`: splitting loses nothing. */
  lemma {:induction false} JoinSplit(s: string, sep: string)
    requires |sep| > 0
    ensures Join(Split(s, sep), sep) == s
    decreases |s|
  {
    if |s| < |sep| {
    } else if s[..|sep|] == sep {
      var rest := Split(s[|sep|..], sep);
      assert Split(s, sep) == [[]] + rest;
      JoinSplit(s[|sep|..], sep);
      JoinConsEmpty(rest, sep);
      assert s == s[..|sep|] + s[|sep|..];
    } else {
      var rest := Split(s[1..], sep);
      assert Split(s, sep) == [[s[0]] + rest[0]] + rest[1..];
      JoinSplit(s[1..], sep);
      JoinConsFirst(s[0], rest, sep);
      assert s == [s[0]] + s[1..];
    }
  }

  /** Splitting on a character yields pieces free of that character. */
  lemma {:induction false} SplitCharPieces(s: string, c: char)
    ensures forall k :: 0 <= k < |Split(s, [c])| ==> c !in Split(s, [c])[k]
    decreases |s|
  {
    if |s| >= 1 {
      SplitCharPieces(s[1..], c);
    }
  }

  /** Splitting `a + [c] + b` at the first `c` when `a` has none. */
  lemma {:induction false} SplitCharFirst(a: string, c: char, b: string)
    requires c !in a
    ensures Split(a + [c] + b, [c]) == [a] + Split(b, [c])
    decreases |a|
  {
    if |a| == 0 {
      assert a + [c] + b == [c] + b;
      assert ([c] + b)[..1] == [c];
      assert ([c] + b)[1..] == b;
    } else {
      var s := a + [c] + b;
      assert s[..1] == [a[0]];
      assert s[1..] == a[1..] + [c] + b;
      SplitCharFirst(a[1..], c, b);
      assert [a[0]] + a[1..] == a;
    }
  }

  /** A string without the separator splits into itself. */
  lemma {:induction false} SplitCharNone(s: string, c: char)
    requires c !in s
    ensures Split(s, [c]) == [s]
    decreases |s|
  {
    if |s| >= 1 {
      assert s[..1] == [s[0]];
      SplitCharNone(s[1..], c);
      assert [s[0]] + s[1..] == s;
    }
  }

  /** Splitting a join on a character none of the parts holds gives the
      parts back. */
  lemma {:induction false} SplitJoin(ws: seq<string>, c: char)
    requires |ws| > 0
    requires forall i :: 0 <= i < |ws| ==> c !in ws[i]
    ensures Split(Join(ws, [c]), [c]) == ws
    decreases |ws|
  {
    if |ws| == 1 {
      SplitCharNone(ws[0], c);
    } else {
      SplitJoin(ws[1..], c);
      SplitCharFirst(ws[0], c, Join(ws[1..], [c]));
    }
  }

  /** Splitting on a character gives more than one piece exactly when the
      character occurs. */
  lemma {:induction false} SplitCharCount(s: string, c: char)
    ensures |Split(s, [c])| == 1 <==> c !in s
    decreases |s|
  {
    if |s| >= 1 {
      assert s[..1] == [s[0]];
      SplitCharCount(s[1..], c);
      assert s == [s[0]] + s[1..];
    }
  }

  /** The first piece of a split is a prefix of the string. */
  lemma {:induction false} SplitFirstPrefix(s: string, sep: string)
    requires |sep| > 0
    ensures |Split(s, sep)[0]| <= |s| && Split(s, sep)[0] == s[..|Split(s, sep)[0]|]
    decreases |s|
  {
    if |s| < |sep| {
      assert s[..|s|] == s;
    } else if s[..|sep|] != sep {
      var first := Split(s[1..], sep)[0];
      SplitFirstPrefix(s[1..], sep);
      SplitFirstCons(s, sep);
      var r := [s[0]] + first;
      assert s[..|r|] == [s[0]] + s[1..][..|first|];
      assert r == s[..|r|];
    }
  }

  /** Off a separator, the first piece of a split keeps the first
      character. */
  lemma SplitFirstCons(s: string, sep: string)
    requires 0 < |sep| <= |s| && s[..|sep|] != sep
    ensures Split(s, sep)[0] == [s[0]] + Split(s[1..], sep)[0]
  {
  }

  /** `rsplit(c, 1)` of `p + [c] + d` splits at the `c` after `p` when `d`
      has none. */
  lemma RSplitOnceAt(p: string, c: char, d: string)
    requires c !in d
    ensures RSplitOnce(p + [c] + d, c) == [p, d]
  {
    var s := p + [c] + d;
    RSplitOnceJoin(s, c);
    assert s[|p|] == c;
    var r := RSplitOnce(s, c);
    assert |r| == 2;
    assert s == r[0] + [c] + r[1];
    RIndexLast(p, c, d);
    RIndexLast(r[0], c, r[1]);
    assert |r[1]| == |d|;
    assert r[1] == s[|s| - |d|..] == d;
    assert r[0] == s[..|p|] == p;
  }

  /** Python `s.lstrip(chars)` / `s.rstrip(chars)` / `s.strip(chars)`. */
  function LStrip(s: string, chars: set<char>): (r: string)
    decreases |s|
  {
    if |s| > 0 && s[0] in chars then LStrip(s[1..], chars) else s
  }

  function RStrip(s: string, chars: set<char>): (r: string)
    decreases |s|
  {
    if |s| > 0 && s[|s| - 1] in chars then RStrip(s[..|s| - 1], chars) else s
  }

  function Strip(s: string, chars: set<char>): string {
    RStrip(LStrip(s, chars), chars)
  }

  lemma {:induction false} LStripShorter(s: string, chars: set<char>)
    ensures |LStrip(s, chars)| <= |s|
    decreases |s|
  {
    if |s| > 0 && s[0] in chars {
      LStripShorter(s[1..], chars);
    }
  }

  lemma {:induction false} RStripShorter(s: string, chars: set<char>)
    ensures |RStrip(s, chars)| <= |s|
    decreases |s|
  {
    if |s| > 0 && s[|s| - 1] in chars {
      RStripShorter(s[..|s| - 1], chars);
    }
  }

  /** Stripping never lengthens a string. */
  lemma StripShorter(s: string, chars: set<char>)
    ensures |Strip(s, chars)| <= |s|
  {
    LStripShorter(s, chars);
    RStripShorter(LStrip(s, chars), chars);
  }

  /** The characters `str.isspace()` accepts; `strip()` with no argument
      removes these. */
  const Whitespace: set<char> :=
    {
     '\U{20}', '\U{9}', '\U{A}', '\U{D}', '\U{B}', '\U{C}', '\U{1C}', '\U{1D}',
     '\U{1E}', '\U{1F}', '\U{85}', '\U{A0}', '\U{1680}', '\U{2000}', '\U{2001}', '\U{2002}',
     '\U{2003}', '\U{2004}', '\U{2005}', '\U{2006}', '\U{2007}', '\U{2008}', '\U{2009}', '\U{200A}',
     '\U{2028}', '\U{2029}', '\U{202F}', '\U{205F}', '\U{3000}'}

  function StripWs(s: string): string {
    Strip(s, Whitespace)
  }

  /** No whitespace at all. */
  predicate Blankless(w: string) {
    forall i :: 0 <= i < |w| ==> w[i] !in Whitespace
  }

  /** Stripping leaves a blankless string, or one behind a space, as the
      string itself. */
  lemma {:induction false} StripBlankless(w: string)
    requires Blankless(w)
    ensures StripWs(w) == w
    ensures StripWs(" " + w) == w
  {
    assert ' ' in Whitespace;
    assert (" " + w)[1..] == w;
    if |w| > 0 {
      assert w[0] !in Whitespace && w[|w| - 1] !in Whitespace;
    }
  }

  /** `s.rsplit(c, 1)` for one character `c`. */
  function RSplitOnce(s: string, c: char): (r: seq<string>)
    ensures 1 <= |r| <= 2
    decreases |s|
  {
    if |s| == 0 then [s]
    else if s[|s| - 1] == c then [s[..|s| - 1], []]
    else
      var rest := RSplitOnce(s[..|s| - 1], c);
      rest[..|rest| - 1] + [rest[|rest| - 1] + [s[|s| - 1]]]
  }

  /** `rsplit` keeps everything: the pieces joined by `c` give back `s`, and
      the last piece is free of `c`. */
  lemma {:induction false} RSplitOnceJoin(s: string, c: char)
    ensures Join(RSplitOnce(s, c), [c]) == s
    ensures c !in RSplitOnce(s, c)[|RSplitOnce(s, c)| - 1]
    ensures |RSplitOnce(s, c)| == 1 <==> c !in s
    decreases |s|
  {
    if |s| > 0 {
      var init := s[..|s| - 1];
      assert s == init + [s[|s| - 1]];
      if s[|s| - 1] != c {
        RSplitOnceJoin(init, c);
        var rest := RSplitOnce(init, c);
        if |rest| == 2 {
          assert Join(rest, [c]) == rest[0] + [c] + rest[1];
        }
      }
    }
  }

  /** `s.rindex(c)` for one character: the last position holding `c`, or
      None where Python raises ValueError. */
  function RIndex(s: string, c: char): (r: Option<nat>)
    ensures r.None? <==> c !in s
    ensures r.Some? ==> r.value < |s| && s[r.value] == c && c !in s[r.value + 1..]
    decreases |s|
  {
    if |s| == 0 then None
    else if s[|s| - 1] == c then Some(|s| - 1)
    else
      var r := RIndex(s[..|s| - 1], c);
      assert s == s[..|s| - 1] + [s[|s| - 1]];
      if r.Some? then
        assert s[r.value + 1..] == s[..|s| - 1][r.value + 1..] + [s[|s| - 1]];
        r
      else r
  }

  /** The last `c` of `a + [c] + b` is the one after `a` when `b` has none. */
  lemma RIndexLast(a: string, c: char, b: string)
    requires c !in b
    ensures RIndex(a + [c] + b, c) == Some(|a|)
  {
    var s := a + [c] + b;
    assert s[|a|] == c;
    assert s[|a| + 1..] == b;
  }

  /** Index normalisation of a Python slice bound (step 1). */
  function ClampIndex(i: int, len: nat): (r: nat)
    ensures r <= len
  {
    if i < 0 then (if i + len < 0 then 0 else i + len)
    else if i > len then len
    else i
  }

  /** Python `s[start:stop]`; a missing bound is `None`. */
  function Slice<T>(s: seq<T>, start: int, stop: int): (r: seq<T>)
    ensures |r| <= |s|
  {
    var a := ClampIndex(start, |s|);
    var b := ClampIndex(stop, |s|);
    if b <= a then [] else s[a..b]
  }

  /** Python `s[start:]`. */
  function SliceFrom<T>(s: seq<T>, start: int): (r: seq<T>) {
    Slice(s, start, |s|)
  }

  /** Python `s[i]` with negative indices counted from the end. */
  function Index<T>(s: seq<T>, i: int): (r: Option<T>)
    ensures r.Some? <==> -|s| <= i < |s|
  {
    if 0 <= i < |s| then Some(s[i])
    else if -|s| <= i < 0 then Some(s[|s| + i])
    else None
  }

  predicate IsDigit(c: char) {
    '0' <= c <= '9'
  }

  predicate IsHexDigit(c: char) {
    '0' <= c <= '9' || 'a' <= c <= 'f' || 'A' <= c <= 'F'
  }

  predicate AllDigits(s: string) {
    forall i :: 0 <= i < |s| ==> IsDigit(s[i])
  }

  function UpperChar(c: char): char {
    if 'a' <= c <= 'z' then (c as int - 32) as char else c
  }

  function LowerChar(c: char): char {
    if 'A' <= c <= 'Z' then (c as int + 32) as char else c
  }

  function Lower(s: string): (r: string)
    ensures |r| == |s|
    ensures forall i :: 0 <= i < |s| ==> r[i] == LowerChar(s[i])
  {
    seq(|s|, i requires 0 <= i < |s| => LowerChar(s[i]))
  }

  /** `s` with every occurrence of `c` removed. */
  function RemoveChar(s: string, c: char): (r: string)
    ensures c !in r
    ensures |r| <= |s|
    ensures forall d :: d != c ==> (d in r <==> d in s)
    decreases |s|
  {
    if |s| == 0 then []
    else if s[0] == c then RemoveChar(s[1..], c)
    else [s[0]] + RemoveChar(s[1..], c)
  }

  /** `s.replace(c, '')` is `RemoveChar`. */
  lemma {:induction false} ReplaceByEmpty(s: string, c: char)
    ensures Replace(s, [c], []) == RemoveChar(s, c)
    decreases |s|
  {
    if |s| > 0 {
      ReplaceByEmpty(s[1..], c);
    }
  }
}
