/** UUIDs as text: the strings `uuid.UUID(text)` accepts, and the two forms
    the code prints, `str(u)` (hyphenated, section 3 of RFC 4122) and
    `u.hex` (32 lower-case hexadecimal digits).
 */
module Uuid {

  import opened Errors
  import opened PyStr
  import opened Values

  predicate IsLowerHexDigit(c: char) {
    '0' <= c <= '9' || 'a' <= c <= 'f'
  }

  /** The `u.hex` form. */
  predicate IsHex32(h: string) {
    |h| == 32 && forall i :: 0 <= i < |h| ==> IsLowerHexDigit(h[i])
  }

  /** The digits `uuid.UUID` hands to `int(..., 16)`: `urn:` and `uuid:`
      removed, braces stripped from both ends, hyphens removed. */
  function Digits(s: string): string {
    RemoveChar(Strip(Replace(Replace(s, "urn:", ""), "uuid:", ""), {'{', '}'}), '-')
  }

  /** The whitespace `int()` skips around its digits: what `str.isspace()`
      accepts, except U+001C to U+001F, which `int()` keeps as ASCII and
      then rejects. */
  const IntSpace: set<char> := Whitespace - {'\U{1C}', '\U{1D}', '\U{1E}', '\U{1F}'}

  /** `t` without one leading `+`. */
  function Unsigned(t: string): (r: string)
    ensures r == t || (|t| > 0 && t[0] == '+' && r == t[1..])
  {
    if |t| > 0 && t[0] == '+' then t[1..] else t
  }

  /** `t` without a leading `0x` or `0X`, and without the one `_` that may
      follow that prefix. */
  function Unprefixed(t: string): (r: string)
    ensures |r| <= |t|
    ensures (|t| < 2 || t[0] != '0' || (t[1] != 'x' && t[1] != 'X')) ==> r == t
  {
    if |t| >= 2 && t[0] == '0' && (t[1] == 'x' || t[1] == 'X') then
      if |t| > 2 && t[2] == '_' then t[3..] else t[2..]
    else t
  }

  /** Digit groups as `int()` reads them: hexadecimal digits, with single
      `_` between two digits. */
  predicate Grouped(u: string) {
    && |u| > 0 && u[0] != '_' && u[|u| - 1] != '_'
    && (forall c :: c in u ==> IsHexDigit(c) || c == '_')
    && (forall i :: 0 <= i < |u| - 1 ==> u[i] != '_' || u[i + 1] != '_')
  }

  /** The hexadecimal digits `int(t, 16)` reads, or None where it raises
      ValueError: whitespace at both ends, an optional `+`, an optional
      `0x` prefix, then digit groups.  A `-` sign cannot occur here, since
      every hyphen was removed before `int()` is called. */
  function IntDigits(t: string): (r: Option<string>)
    ensures r.Some? ==> 0 < |r.value| <= |t| && forall c :: c in r.value ==> IsHexDigit(c)
  {
    var u := Unprefixed(Unsigned(Strip(t, IntSpace)));
    StripShorter(t, IntSpace);
    if Grouped(u) then Some(RemoveChar(u, '_')) else None
  }

  /** `'%032x' % n`, for the number `n` whose digits are `h`. */
  function ZeroPad32(h: string): (r: string)
    requires |h| <= 32
    ensures |r| == 32 && r[32 - |h|..] == h
    ensures forall i :: 0 <= i < 32 - |h| ==> r[i] == '0'
  {
    seq(32 - |h|, _ => '0') + h
  }

  /** `uuid.UUID(s).hex`, or ValueError for a badly formed string: the
      digits must number 32 before `int(digits, 16)` reads them.  They stay
      below 2^128, so the range check never fires. */
  function Parse(s: string): (r: Result<string>)
    ensures r.Ok? ==> IsHex32(r.value)
    ensures r.Err? ==> r.error == ValueError
    ensures r.Ok? <==> |Digits(s)| == 32 && IntDigits(Digits(s)).Some?
  {
    var d := Digits(s);
    if |d| != 32 then Err(ValueError)
    else match IntDigits(d)
      case None => Err(ValueError)
      case Some(h) =>
        var l := Lower(h);
        assert forall i :: 0 <= i < |l| ==> IsLowerHexDigit(l[i]) by {
          forall i | 0 <= i < |l|
            ensures IsLowerHexDigit(l[i])
          {
            assert h[i] in h;
          }
        }
        var r := ZeroPad32(l);
        assert forall i :: 0 <= i < 32 ==> IsLowerHexDigit(r[i]) by {
          forall i | 0 <= i < 32
            ensures IsLowerHexDigit(r[i])
          {
            if i >= 32 - |l| {
              assert r[i] == r[32 - |l|..][i - (32 - |l|)];
            }
          }
        }
        Ok(r)
  }

  /** `str(u)` for the UUID whose `hex` is `h`. */
  function Hyphenate(h: string): (r: string)
    requires IsHex32(h)
    ensures |r| == 36
  {
    h[..8] + "-" + h[8..12] + "-" + h[12..16] + "-" + h[16..20] + "-" + h[20..]
  }

  /** `Indaleko.validate_uuid_string` / `IndalekoRecord.validate_uuid_string`:
      a `str` that `uuid.UUID` accepts. */
  predicate ValidString(v: Value) {
    v.VStr? && Parse(v.s).Ok?
  }

  lemma RemoveCharAbsent(s: string, c: char)
    requires c !in s
    ensures RemoveChar(s, c) == s
    decreases |s|
  {
    if |s| > 0 {
      RemoveCharAbsent(s[1..], c);
      assert s == [s[0]] + s[1..];
    }
  }

  lemma {:induction false} RemoveCharConcat(a: string, b: string, c: char)
    ensures RemoveChar(a + b, c) == RemoveChar(a, c) + RemoveChar(b, c)
    decreases |a|
  {
    if |a| == 0 {
      assert a + b == b;
    } else {
      assert (a + b)[1..] == a[1..] + b;
      RemoveCharConcat(a[1..], b, c);
    }
  }

  /** A needle holding a character the haystack lacks never occurs. */
  lemma NotContainedForChar(s: string, p: string, j: int)
    requires 0 <= j < |p| && p[j] !in s
    ensures !Contains(s, p)
  {
    forall i | 0 <= i && i + |p| <= |s|
      ensures !OccursAt(s, p, i)
    {
      assert s[i..i + |p|][j] == s[i + j];
    }
    ContainsIff(s, p);
  }

  lemma LowerHexUnchanged(h: string)
    requires IsHex32(h)
    ensures Lower(h) == h
  {
  }

  /** The pieces of a hyphenated form are hexadecimal. */
  lemma HyphenateChars(h: string)
    requires IsHex32(h)
    ensures var t := Hyphenate(h);
      ':' !in t && t[0] != '{' && t[0] != '}' && t[35] != '{' && t[35] != '}'
  {
    var t := Hyphenate(h);
    assert t[0] == h[0] && t[35] == h[31];
    forall k | 0 <= k < |t|
      ensures t[k] != ':'
    {
      assert t[k] == '-' || t[k] in h;
    }
  }

  /** Neither prefix nor braces touch a hyphenated form: only the hyphens
      are dropped before the digits are read. */
  lemma HyphenatedDigits(h: string)
    requires IsHex32(h)
    ensures Digits(Hyphenate(h)) == RemoveChar(Hyphenate(h), '-')
  {
    var t := Hyphenate(h);
    HyphenateChars(h);
    NotContainedForChar(t, "urn:", 3);
    ReplaceAbsent(t, "urn:", "");
    NotContainedForChar(t, "uuid:", 4);
    ReplaceAbsent(t, "uuid:", "");
    assert Strip(t, {'{', '}'}) == t;
  }

  /** Removing hyphens around one hyphen-free piece. */
  lemma DropHyphen(x: string, y: string)
    requires '-' !in y
    ensures RemoveChar(x + "-" + y, '-') == RemoveChar(x, '-') + y
  {
    RemoveCharConcat(x + "-", y, '-');
    RemoveCharConcat(x, "-", '-');
    RemoveCharAbsent(y, '-');
  }

  /** Removing the four hyphens gives the 32 digits back. */
  lemma DehyphenateHyphenated(h: string)
    requires IsHex32(h)
    ensures RemoveChar(Hyphenate(h), '-') == h
  {
    assert '-' !in h;
    var a, b, c, d, e := h[..8], h[8..12], h[12..16], h[16..20], h[20..];
    assert '-' !in a && '-' !in b && '-' !in c && '-' !in d && '-' !in e;
    var p1 := a + "-" + b;
    var p2 := p1 + "-" + c;
    var p3 := p2 + "-" + d;
    assert Hyphenate(h) == p3 + "-" + e;
    RemoveCharAbsent(a, '-');
    DropHyphen(a, b);
    DropHyphen(p1, c);
    DropHyphen(p2, d);
    DropHyphen(p3, e);
    assert RemoveChar(p3 + "-" + e, '-') == a + b + c + d + e;
    assert a + b + c + d + e == h;
  }

  /** Plain hexadecimal digits are read as they stand. */
  lemma IntDigitsPlain(d: string)
    requires |d| > 0 && forall i :: 0 <= i < |d| ==> IsHexDigit(d[i])
    ensures IntDigits(d) == Some(d)
  {
    assert LStrip(d, IntSpace) == d;
    assert RStrip(d, IntSpace) == d;
    assert forall c :: c in d ==> IsHexDigit(c);
    RemoveCharAbsent(d, '_');
  }

  /** Thirty-two hexadecimal digits parse to their lower-case form. */
  lemma ParsePlain(s: string)
    requires |Digits(s)| == 32 && forall i :: 0 <= i < 32 ==> IsHexDigit(Digits(s)[i])
    ensures Parse(s) == Ok(Lower(Digits(s)))
  {
    IntDigitsPlain(Digits(s));
    assert ZeroPad32(Lower(Digits(s))) == Lower(Digits(s));
  }

  /** `str(u)` parses back to `u`: `uuid.UUID(str(u)).hex == u.hex`. */
  lemma ParseHyphenated(h: string)
    requires IsHex32(h)
    ensures Parse(Hyphenate(h)) == Ok(h)
  {
    HyphenatedDigits(h);
    DehyphenateHyphenated(h);
    ParsePlain(Hyphenate(h));
    LowerHexUnchanged(h);
  }

  /** A string without `:`, braces or hyphens is its own digit string. */
  lemma DigitsUnchanged(t: string)
    requires ':' !in t && '{' !in t && '}' !in t && '-' !in t
    ensures Digits(t) == t
  {
    NotContainedForChar(t, "urn:", 3);
    ReplaceAbsent(t, "urn:", "");
    NotContainedForChar(t, "uuid:", 4);
    ReplaceAbsent(t, "uuid:", "");
    if |t| > 0 {
      assert t[0] in t && t[|t| - 1] in t;
    }
    assert Strip(t, {'{', '}'}) == t;
    RemoveCharAbsent(t, '-');
  }

  /** The `hex` form parses to itself. */
  lemma ParseHex(h: string)
    requires IsHex32(h)
    ensures Parse(h) == Ok(h)
  {
    DigitsUnchanged(h);
    ParsePlain(h);
    LowerHexUnchanged(h);
  }

  /** Lower-case hexadecimal digits hold none of the characters the digit
      reading treats specially. */
  lemma LowerHexPlain(h: string)
    requires forall i :: 0 <= i < |h| ==> IsLowerHexDigit(h[i])
    ensures ':' !in h && '{' !in h && '}' !in h && '-' !in h && '_' !in h && '+' !in h
    ensures forall c :: c in h ==> IsHexDigit(c) && c !in IntSpace && c != 'x' && c != 'X'
    ensures Lower(h) == h
  {
  }

  /** Digits, `+`, `_` and `x` are not whitespace to `int()`. */
  lemma NotIntSpace(c: char)
    requires IsHexDigit(c) || c == '+' || c == '_' || c == 'x' || c == 'X'
    ensures c !in IntSpace
  {
  }

  /** Stripping leaves a string alone when neither end is stripped. */
  lemma StripKept(t: string, cs: set<char>)
    requires |t| > 0 && t[0] !in cs && t[|t| - 1] !in cs
    ensures Strip(t, cs) == t
  {
  }

  /** A form of 32 characters whose digits `int()` reads as `h` parses to
      `h` padded with zeros. */
  lemma ParseForm(t: string, h: string)
    requires |t| == 32 && ':' !in t && '{' !in t && '}' !in t && '-' !in t
    requires IntDigits(t) == Some(h) && forall i :: 0 <= i < |h| ==> IsLowerHexDigit(h[i])
    ensures Parse(t) == Ok(ZeroPad32(h))
  {
    DigitsUnchanged(t);
    LowerHexPlain(h);
  }

  /** Plain lower-case digit groups are read with the `_` dropped. */
  lemma IntDigitsGrouped(t: string, u: string)
    requires Unprefixed(Unsigned(Strip(t, IntSpace))) == u && Grouped(u)
    ensures IntDigits(t) == Some(RemoveChar(u, '_'))
  {
  }

  /** The digits `int()` reads from a `+` and lower-case digits. */
  lemma SignedDigits(t: string, h: string)
    requires |h| > 1 && forall i :: 0 <= i < |h| ==> IsLowerHexDigit(h[i])
    requires t == "+" + h
    ensures IntDigits(t) == Some(h)
    ensures ':' !in t && '{' !in t && '}' !in t && '-' !in t
  {
    LowerHexPlain(h);
    assert t[|t| - 1] == h[|h| - 1] && h[|h| - 1] in h;
    StripKept(t, IntSpace);
    assert Unsigned(t) == h;
    assert h[1] in h;
    assert Grouped(h);
    RemoveCharAbsent(h, '_');
    IntDigitsGrouped(t, h);
  }

  /** Padding `k` digits short of 32 puts `k` zeros in front. */
  lemma ZeroPadShort(h: string, z: string)
    requires |z| + |h| == 32 && forall i :: 0 <= i < |z| ==> z[i] == '0'
    ensures ZeroPad32(h) == z + h
  {
  }

  /** `int()` accepts a leading `+`: a sign and 31 digits form a UUID whose
      first digit is 0. */
  lemma ParseSigned(h: string)
    requires |h| == 31 && forall i :: 0 <= i < |h| ==> IsLowerHexDigit(h[i])
    ensures Parse("+" + h) == Ok("0" + h)
  {
    var t := "+" + h;
    SignedDigits(t, h);
    ParseForm(t, h);
    ZeroPadShort(h, "0");
  }

  /** The `0x` prefix comes off, and no sign precedes it. */
  lemma UnprefixedOf(t: string, h: string)
    requires |h| > 0 && h[0] != '_' && t == "0x" + h
    ensures Unsigned(t) == t && Unprefixed(t) == h
  {
    assert t[2] == h[0] && t[2..] == h;
  }

  /** The digits `int(..., 16)` reads after a `0x` prefix. */
  lemma PrefixedDigits(t: string, h: string)
    requires |h| > 0 && forall i :: 0 <= i < |h| ==> IsLowerHexDigit(h[i])
    requires t == "0x" + h
    ensures IntDigits(t) == Some(h)
    ensures ':' !in t && '{' !in t && '}' !in t && '-' !in t
  {
    LowerHexPlain(h);
    assert t[|t| - 1] == h[|h| - 1] && h[|h| - 1] in h;
    NotIntSpace(t[0]);
    NotIntSpace(t[|t| - 1]);
    StripKept(t, IntSpace);
    assert h[0] in h;
    UnprefixedOf(t, h);
    assert Grouped(h);
    RemoveCharAbsent(h, '_');
    IntDigitsGrouped(t, h);
  }

  /** `int(..., 16)` accepts a `0x` prefix: the prefix and 30 digits form a
      UUID whose first two digits are 0. */
  lemma ParsePrefixed(h: string)
    requires |h| == 30 && forall i :: 0 <= i < |h| ==> IsLowerHexDigit(h[i])
    ensures Parse("0x" + h) == Ok("00" + h)
  {
    var t := "0x" + h;
    PrefixedDigits(t, h);
    ParseForm(t, h);
    ZeroPadShort(h, "00");
  }

  /** The digits `int()` reads between two spaces. */
  lemma SpacedDigits(t: string, h: string)
    requires |h| > 0 && forall i :: 0 <= i < |h| ==> IsLowerHexDigit(h[i])
    requires t == " " + h + " "
    ensures IntDigits(t) == Some(h)
    ensures ':' !in t && '{' !in t && '}' !in t && '-' !in t
  {
    LowerHexPlain(h);
    assert ' ' in IntSpace;
    assert t[1..] == h + " ";
    assert LStrip(t, IntSpace) == LStrip(h + " ", IntSpace);
    assert h[0] in h && h[|h| - 1] in h;
    assert LStrip(h + " ", IntSpace) == h + " ";
    assert (h + " ")[..|h|] == h;
    assert RStrip(h + " ", IntSpace) == RStrip(h, IntSpace);
    StripKept(h, IntSpace);
    assert Strip(t, IntSpace) == h;
    assert Grouped(h);
    RemoveCharAbsent(h, '_');
    IntDigitsGrouped(t, h);
  }

  /** `int()` skips surrounding whitespace: a space on each side of 30
      digits still forms a UUID. */
  lemma ParseSpaced(h: string)
    requires |h| == 30 && forall i :: 0 <= i < |h| ==> IsLowerHexDigit(h[i])
    ensures Parse(" " + h + " ") == Ok("00" + h)
  {
    var t := " " + h + " ";
    SpacedDigits(t, h);
    ParseForm(t, h);
    ZeroPadShort(h, "00");
  }

  /** A single `_` between two runs of digits makes digit groups. */
  lemma GroupedUnderscored(a: string, b: string)
    requires |a| > 0 && |b| > 0 && '_' !in a && '_' !in b
    requires forall c :: c in a + b ==> IsHexDigit(c)
    ensures Grouped(a + "_" + b)
  {
    var t := a + "_" + b;
    assert t[0] == a[0] && t[|t| - 1] == b[|b| - 1];
    assert a[0] in a && b[|b| - 1] in b;
    forall i | 0 <= i < |t| - 1
      ensures t[i] != '_' || t[i + 1] != '_'
    {
      if i < |a| {
        assert t[i] == a[i] && a[i] in a;
      } else {
        assert t[i + 1] == b[i - |a|] && b[i - |a|] in b;
      }
    }
  }

  /** Removing `_` around one `_`-free piece. */
  lemma DropUnderscore(x: string, y: string)
    requires '_' !in y
    ensures RemoveChar(x + "_" + y, '_') == RemoveChar(x, '_') + y
  {
    RemoveCharConcat(x + "_", y, '_');
    RemoveCharConcat(x, "_", '_');
    RemoveCharAbsent(y, '_');
  }

  /** Removing the one `_` joining two runs gives the runs joined. */
  lemma RemoveJoiningUnderscore(a: string, b: string)
    requires '_' !in a && '_' !in b
    ensures RemoveChar(a + "_" + b, '_') == a + b
  {
    DropUnderscore(a, b);
    RemoveCharAbsent(a, '_');
  }

  /** The digits `int()` reads from two runs joined by `_`. */
  lemma UnderscoredDigits(t: string, a: string, b: string)
    requires |a| > 0 && |b| > 0
    requires forall c :: c in a + b ==> IsHexDigit(c)
    requires '_' !in a && '_' !in b
    requires t == a + "_" + b
    ensures IntDigits(t) == Some(a + b)
  {
    GroupedUnderscored(a, b);
    assert t[0] == a[0] && a[0] in a + b;
    assert t[|t| - 1] == b[|b| - 1] && b[|b| - 1] in a + b;
    NotIntSpace(t[0]);
    NotIntSpace(t[|t| - 1]);
    StripKept(t, IntSpace);
    assert Unsigned(t) == t;
    assert Unprefixed(t) == t by {
      if |a| > 1 {
        assert t[1] == a[1] && a[1] in a + b;
      }
    }
    IntDigitsGrouped(t, t);
    RemoveJoiningUnderscore(a, b);
  }

  /** Two runs of lower-case digits joined by `_` form a digit string. */
  lemma UnderscoredForm(t: string, a: string, b: string)
    requires |a| > 0 && |b| > 0
    requires forall i :: 0 <= i < |a| + |b| ==> IsLowerHexDigit((a + b)[i])
    requires t == a + "_" + b
    ensures IntDigits(t) == Some(a + b)
    ensures ':' !in t && '{' !in t && '}' !in t && '-' !in t
  {
    LowerHexPlain(a + b);
    assert '_' !in a && '_' !in b;
    UnderscoredDigits(t, a, b);
  }

  /** `int()` accepts a single `_` between digits, and drops it. */
  lemma ParseUnderscored(a: string, b: string)
    requires |a| > 0 && |b| > 0 && |a| + |b| == 31
    requires forall i :: 0 <= i < |a| + |b| ==> IsLowerHexDigit((a + b)[i])
    ensures Parse(a + "_" + b) == Ok("0" + a + b)
  {
    var t := a + "_" + b;
    var h := a + b;
    UnderscoredForm(t, a, b);
    ParseForm(t, h);
    ZeroPadShort(h, "0");
    assert "0" + h == "0" + a + b;
  }
}