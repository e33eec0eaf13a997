/** The Win32 file-name codec of the Windows local indexer: each
    reserved Win32 character is replaced by a short underscore-delimited
    token (`windows_to_posix`), and tokens are replaced back
    (`posix_to_windows`).  Both walk the same nine-entry table in the same
    order, one `str.replace` per entry.  The decoder is not the inverse of
    the encoder on all inputs: tokens produced for neighbouring characters
    can combine with the text between them into another token.
 */
module PathCodec {

  import opened PyStr

  type CodecTable = seq<(char, string)>

  /** Reserved character and its token, in the order both directions
      apply them. */
  const Table: CodecTable := [
    ('<', "_lt_"), ('>', "_gt_"), (':', "_cln_"), ('"', "_qt_"), ('/', "_sl_"),
    ('\\', "_bsl_"), ('|', "_bar_"), ('?', "_qm_"), ('*', "_ast_")
  ]

  const ReservedChars: set<char> := {'<', '>', ':', '"', '/', '\\', '|', '?', '*'}

  /** A token: an underscore, lower-case letters, an underscore. */
  predicate Token(tok: string) {
    |tok| >= 3 && tok[0] == '_' && tok[|tok| - 1] == '_' &&
    forall k :: 0 < k < |tok| - 1 ==> 'a' <= tok[k] <= 'z'
  }

  /** The table's shape: tokens are well formed, characters and tokens
      are distinct, and no reserved character is '_' or a letter. */
  predicate GoodTable(t: CodecTable) {
    (forall i :: 0 <= i < |t| ==> Token(t[i].1)) &&
    (forall i :: 0 <= i < |t| ==> t[i].0 != '_' && !('a' <= t[i].0 <= 'z')) &&
    (forall i, j :: 0 <= i < j < |t| ==> t[i].0 != t[j].0 && t[i].1 != t[j].1)
  }

  lemma TableIsGood()
    ensures GoodTable(Table)
    ensures forall i :: 0 <= i < |Table| ==> Table[i].0 in ReservedChars
    ensures forall c :: c in ReservedChars ==> exists i :: 0 <= i < |Table| && Table[i].0 == c
  {
    TableTokens();
    TableChars();
  }

  lemma TableTokens()
    ensures forall i :: 0 <= i < |Table| ==> Token(Table[i].1)
    ensures forall i, j :: 0 <= i < j < |Table| ==> Table[i].1 != Table[j].1
  {
    TableTokenShapes();
    TableTokensDistinct();
  }

  lemma TableTokenShapes()
    ensures forall i :: 0 <= i < |Table| ==> Token(Table[i].1)
  {
    assert Token("_lt_") && Token("_gt_") && Token("_cln_");
    assert Token("_qt_") && Token("_sl_") && Token("_bsl_");
    assert Token("_bar_") && Token("_qm_") && Token("_ast_");
  }

  /** The tokens differ in their length or in their second or third
      character. */
  lemma TableTokensDistinct()
    ensures forall i, j :: 0 <= i < j < |Table| ==> Table[i].1 != Table[j].1
  {
    var sig := i requires 0 <= i < |Table| => (|Table[i].1|, Table[i].1[1], Table[i].1[2]);
    assert sig(0) == (4, 'l', 't') && sig(1) == (4, 'g', 't') && sig(2) == (5, 'c', 'l');
    assert sig(3) == (4, 'q', 't') && sig(4) == (4, 's', 'l') && sig(5) == (5, 'b', 's');
    assert sig(6) == (5, 'b', 'a') && sig(7) == (4, 'q', 'm') && sig(8) == (5, 'a', 's');
    forall i, j | 0 <= i < j < |Table|
      ensures Table[i].1 != Table[j].1
    {
      assert sig(i) != sig(j);
    }
  }

  lemma TableChars()
    ensures forall i :: 0 <= i < |Table| ==> Table[i].0 != '_' && !('a' <= Table[i].0 <= 'z')
    ensures forall i, j :: 0 <= i < j < |Table| ==> Table[i].0 != Table[j].0
    ensures forall i :: 0 <= i < |Table| ==> Table[i].0 in ReservedChars
    ensures forall c :: c in ReservedChars ==> exists i :: 0 <= i < |Table| && Table[i].0 == c
  {
    assert Table[0].0 == '<' && Table[1].0 == '>' && Table[2].0 == ':';
    assert Table[3].0 == '"' && Table[4].0 == '/' && Table[5].0 == '\\';
    assert Table[6].0 == '|' && Table[7].0 == '?' && Table[8].0 == '*';
  }

  predicate TokensNonEmpty(t: CodecTable) {
    forall i :: 0 <= i < |t| ==> |t[i].1| > 0
  }

  /** One `replace(char, token)` per entry, in table order. */
  function Encode(s: string, t: CodecTable): string
    decreases |t|
  {
    if |t| == 0 then s else Encode(Replace(s, [t[0].0], t[0].1), t[1..])
  }

  /** One `replace(token, char)` per entry, in table order. */
  function Decode(s: string, t: CodecTable): string
    requires TokensNonEmpty(t)
    decreases |t|
  {
    if |t| == 0 then s else Decode(Replace(s, t[0].1, [t[0].0]), t[1..])
  }

  /** `IndalekoWindowsLocalIndexer.windows_to_posix`. */
  function WindowsToPosix(s: string): (r: string)
    ensures NoReserved(s) ==> r == s
  {
    assert NoReserved(s) ==> Encode(s, Table) == s by {
      if NoReserved(s) {
        TableIsGood();
        forall k | 0 <= k < |Table|
          ensures Table[k].0 !in s
        {
        }
        EncodeIdentity(s, Table);
      }
    }
    Encode(s, Table)
  }

  /** `IndalekoWindowsLocalIndexer.posix_to_windows`. */
  function PosixToWindows(s: string): (r: string)
    ensures NoUnderscore(s) ==> r == s
  {
    TableIsGood();
    assert NoUnderscore(s) ==> Decode(s, Table) == s by {
      if NoUnderscore(s) {
        TableTokens();
        DecodeIdentity(s, Table);
      }
    }
    Decode(s, Table)
  }

  predicate NoReserved(s: string) {
    forall i :: 0 <= i < |s| ==> s[i] !in ReservedChars
  }

  // ---------------------------------------------------------------------
  // Encoding

  /** A character survives encoding only if no entry replaces it, and
      anything else in the output comes from a token. */
  lemma {:induction false} EncodeChars(s: string, t: CodecTable, d: char)
    ensures d in Encode(s, t) ==>
              (d in s && forall i :: 0 <= i < |t| ==> t[i].0 != d) ||
              exists i :: 0 <= i < |t| && d in t[i].1
    decreases |t|
  {
    if |t| > 0 {
      var s1 := Replace(s, [t[0].0], t[0].1);
      EncodeChars(s1, t[1..], d);
      ReplaceCharChars(s, t[0].0, t[0].1, d);
      if d in Encode(s, t) {
        if exists i :: 0 <= i < |t[1..]| && d in t[1..][i].1 {
          var i :| 0 <= i < |t[1..]| && d in t[1..][i].1;
          assert t[i + 1] == t[1..][i];
        } else if d in t[0].1 {
        } else {
          forall i | 0 <= i < |t|
            ensures t[i].0 != d
          {
            if i > 0 {
              assert t[i] == t[1..][i - 1];
            }
          }
        }
      }
    }
  }

  /** `windows_to_posix` leaves no reserved character behind. */
  lemma EncodedHasNoReserved(s: string)
    ensures NoReserved(WindowsToPosix(s))
  {
    TableIsGood();
    forall d | d in ReservedChars
      ensures d !in WindowsToPosix(s)
    {
      EncodeChars(s, Table, d);
      forall j | 0 <= j < |Table|
        ensures d !in Table[j].1
      {
        TokenChars(Table[j].1, d);
      }
    }
  }

  /** Tokens consist of '_' and lower-case letters only. */
  lemma TokenChars(tok: string, d: char)
    requires Token(tok)
    requires d != '_' && !('a' <= d <= 'z')
    ensures d !in tok
  {
    forall m | 0 <= m < |tok|
      ensures tok[m] != d
    {
      if 0 < m < |tok| - 1 {
        assert 'a' <= tok[m] <= 'z';
      }
    }
  }

  /** Encoding changes nothing in a string that has none of the table's
      characters. */
  lemma {:induction false} EncodeIdentity(s: string, t: CodecTable)
    requires forall i :: 0 <= i < |t| ==> t[i].0 !in s
    ensures Encode(s, t) == s
    decreases |t|
  {
    if |t| > 0 {
      ContainsChar(s, t[0].0);
      ReplaceAbsent(s, [t[0].0], t[0].1);
      EncodeIdentity(s, t[1..]);
    }
  }

  /** Encoding is applied character by character. */
  lemma {:induction false} EncodeConcat(a: string, b: string, t: CodecTable)
    ensures Encode(a + b, t) == Encode(a, t) + Encode(b, t)
    decreases |t|
  {
    if |t| > 0 {
      ReplaceCharConcat(a, b, t[0].0, t[0].1);
      EncodeConcat(Replace(a, [t[0].0], t[0].1), Replace(b, [t[0].0], t[0].1), t[1..]);
    }
  }

  /** A lone reserved character encodes as its token. */
  lemma {:induction false} EncodeOne(t: CodecTable, i: nat)
    requires GoodTable(t) && i < |t|
    ensures Encode([t[i].0], t) == t[i].1
    decreases |t|
  {
    var rest := t[1..];
    assert GoodTable(rest) by {
      forall a | 0 <= a < |rest|
        ensures rest[a] == t[a + 1]
      {
      }
    }
    if i == 0 {
      assert [t[0].0][..1] == [t[0].0];
      assert Replace([], [t[0].0], t[0].1) == [];
      assert Replace([t[0].0], [t[0].0], t[0].1) == t[0].1 + [];
      assert t[0].1 + [] == t[0].1;
      forall a | 0 <= a < |rest|
        ensures rest[a].0 !in t[0].1
      {
        assert rest[a] == t[a + 1];
        TokenChars(t[0].1, rest[a].0);
      }
      EncodeIdentity(t[0].1, rest);
    } else {
      assert t[0].0 != t[i].0;
      assert Replace([t[i].0], [t[0].0], t[0].1) == [t[i].0];
      assert rest[i - 1] == t[i];
      EncodeOne(rest, i - 1);
    }
  }

  // ---------------------------------------------------------------------
  // Decoding

  predicate NoUnderscore(s: string) {
    '_' !in s
  }

  /** A token always starts with '_', so a string without '_' holds none. */
  lemma NoTokenWithoutUnderscore(s: string, tok: string)
    requires Token(tok) && NoUnderscore(s)
    ensures !Contains(s, tok)
  {
    forall i | 0 <= i && i + |tok| <= |s|
      ensures !OccursAt(s, tok, i)
    {
      assert s[i..i + |tok|][0] == s[i];
    }
    ContainsIff(s, tok);
  }

  /** Decoding changes nothing in a string without '_'. */
  lemma {:induction false} DecodeIdentity(s: string, t: CodecTable)
    requires TokensNonEmpty(t)
    requires forall i :: 0 <= i < |t| ==> Token(t[i].1)
    requires NoUnderscore(s)
    ensures Decode(s, t) == s
    decreases |t|
  {
    if |t| > 0 {
      NoTokenWithoutUnderscore(s, t[0].1);
      ReplaceAbsent(s, t[0].1, [t[0].0]);
      DecodeIdentity(s, t[1..]);
    }
  }

  /** A string whose only underscores are its first and last characters. */
  predicate Delimited(tok: string) {
    |tok| >= 2 && tok[0] == '_' && tok[|tok| - 1] == '_' && NoUnderscore(tok[1..|tok| - 1])
  }

  lemma TokenDelimited(tok: string)
    requires Token(tok)
    ensures Delimited(tok)
  {
    var inner := tok[1..|tok| - 1];
    forall k | 0 <= k < |inner|
      ensures inner[k] != '_'
    {
      assert inner[k] == tok[k + 1];
    }
  }

  /** In `x + tok + y` with no '_' in `x` or `y`, the only underscores are
      the two ends of `tok`. */
  lemma UnderscoresOfDelimited(x: string, tok: string, y: string, j: int)
    requires Delimited(tok) && NoUnderscore(x) && NoUnderscore(y)
    requires 0 <= j < |x + tok + y|
    ensures (x + tok + y)[j] == '_' ==> j == |x| || j == |x| + |tok| - 1
  {
    var s := x + tok + y;
    if j < |x| {
      assert s[j] == x[j];
    } else if j >= |x| + |tok| {
      assert s[j] == y[j - |x| - |tok|];
    } else if |x| < j < |x| + |tok| - 1 {
      assert s[j] == tok[1..|tok| - 1][j - |x| - 1];
    }
  }

  /** Another token cannot occur in `x + tok + y`. */
  lemma OnlyOneToken(x: string, tok: string, y: string, other: string)
    requires Token(tok) && Token(other) && other != tok
    requires NoUnderscore(x) && NoUnderscore(y)
    ensures !Contains(x + tok + y, other)
  {
    var s := x + tok + y;
    TokenDelimited(tok);
    forall i | 0 <= i && i + |other| <= |s|
      ensures !OccursAt(s, other, i)
    {
      var w := s[i..i + |other|];
      assert w[0] == s[i] && w[|other| - 1] == s[i + |other| - 1];
      UnderscoresOfDelimited(x, tok, y, i);
      UnderscoresOfDelimited(x, tok, y, i + |other| - 1);
    }
    ContainsIff(s, other);
  }

  /** Replacing a token that starts with '_' skips a prefix without '_'. */
  lemma {:induction false} ReplaceSkipsPrefix(x: string, rest: string, pat: string, rep: string)
    requires |pat| > 0 && pat[0] == '_' && NoUnderscore(x)
    ensures Replace(x + rest, pat, rep) == x + Replace(rest, pat, rep)
    decreases |x|
  {
    var s := x + rest;
    if |x| == 0 {
      assert s == rest;
    } else if |s| < |pat| {
      assert Replace(rest, pat, rep) == rest;
    } else {
      assert x[0] in x;
      assert s[..|pat|][0] == x[0];
      assert Replace(s, pat, rep) == [x[0]] + Replace(s[1..], pat, rep);
      assert s[1..] == x[1..] + rest;
      ReplaceSkipsPrefix(x[1..], rest, pat, rep);
      assert x == [x[0]] + x[1..];
    }
  }

  /** Replacing the one token of `x + tok + y` by `rep`. */
  lemma ReplaceOnlyToken(x: string, tok: string, y: string, rep: string)
    requires Token(tok) && NoUnderscore(x) && NoUnderscore(y)
    ensures Replace(x + tok + y, tok, rep) == x + rep + y
  {
    ReplaceSkipsPrefix(x, tok + y, tok, rep);
    assert (tok + y)[..|tok|] == tok;
    assert (tok + y)[|tok|..] == y;
    NoTokenWithoutUnderscore(y, tok);
    ReplaceAbsent(y, tok, rep);
    assert x + tok + y == x + (tok + y);
  }

  lemma GoodTableTail(t: CodecTable)
    requires GoodTable(t) && |t| > 0
    ensures GoodTable(t[1..]) && TokensNonEmpty(t[1..])
  {
    assert forall a :: 0 <= a < |t[1..]| ==> t[1..][a] == t[a + 1];
  }

  /** Decoding `x + tok_i + y` restores the character of entry `i`. */
  lemma {:induction false} DecodeOne(x: string, y: string, t: CodecTable, i: nat)
    requires GoodTable(t) && TokensNonEmpty(t) && i < |t|
    requires NoUnderscore(x) && NoUnderscore(y)
    ensures Decode(x + t[i].1 + y, t) == x + [t[i].0] + y
    decreases |t|
  {
    var rest := t[1..];
    GoodTableTail(t);
    var s := x + t[i].1 + y;
    if i == 0 {
      ReplaceOnlyToken(x, t[0].1, y, [t[0].0]);
      assert NoUnderscore(x + [t[0].0] + y);
      DecodeIdentity(x + [t[0].0] + y, rest);
    } else {
      OnlyOneToken(x, t[i].1, y, t[0].1);
      ReplaceAbsent(s, t[0].1, [t[0].0]);
      assert rest[i - 1] == t[i];
      DecodeOne(x, y, rest, i - 1);
    }
  }

  // ---------------------------------------------------------------------
  // Round trip

  /** The codec is inverse on names with no '_' and exactly one reserved
      character. */
  lemma RoundTripOneReserved(x: string, c: char, y: string)
    requires c in ReservedChars
    requires NoReserved(x) && NoReserved(y) && NoUnderscore(x) && NoUnderscore(y)
    ensures PosixToWindows(WindowsToPosix(x + [c] + y)) == x + [c] + y
  {
    TableIsGood();
    var i :| 0 <= i < |Table| && Table[i].0 == c;
    forall k | 0 <= k < |Table|
      ensures Table[k].0 !in x && Table[k].0 !in y
    {
    }
    EncodeConcat(x + [c], y, Table);
    EncodeConcat(x, [c], Table);
    EncodeIdentity(x, Table);
    EncodeIdentity(y, Table);
    EncodeOne(Table, i);
    DecodeOne(x, y, Table, i);
  }

  /** Strings without reserved characters or '_' pass through both
      directions unchanged. */
  lemma CleanNamesUnchanged(s: string)
    requires NoReserved(s) && NoUnderscore(s)
    ensures WindowsToPosix(s) == s
    ensures PosixToWindows(s) == s
  {
  }

  /** Not an inverse in general: ":lt>" encodes to "_cln_lt_gt_", in which
      the decoder finds "_lt_" first (it spans the tail of ":"'s token and
      the head of ">"'s) and yields "_cln<gt_". */
  lemma RoundTripFails()
    ensures WindowsToPosix(":lt>") == "_cln_lt_gt_"
    ensures PosixToWindows("_cln_lt_gt_") == "_cln<gt_"
    ensures PosixToWindows(WindowsToPosix(":lt>")) != ":lt>"
  {
    var s, e, d := ":lt>", "_cln_lt_gt_", "_cln<gt_";
    assert s == [':'] + "lt" + ['>'];
    assert e == "_cln_" + "lt" + "_gt_";
    assert e == "_cln" + "_lt_gt_";
    assert d == "_cln" + "<gt_";
    EncodeLtPieces(s, e);
    DecodeLtPieces(e, d);
  }

  lemma EncodeLtPieces(s: string, e: string)
    requires s == [':'] + "lt" + ['>']
    requires e == "_cln_" + "lt" + "_gt_"
    ensures WindowsToPosix(s) == e
  {
    EncodeColon();
    EncodeGreater();
    EncodeLetters();
    EncodeLtSplit();
  }

  lemma EncodeColon()
    ensures Encode([':'], Table) == "_cln_"
  {
    TableIsGood();
    EncodeOne(Table, 2);
  }

  lemma EncodeGreater()
    ensures Encode(['>'], Table) == "_gt_"
  {
    TableIsGood();
    EncodeOne(Table, 1);
  }

  lemma EncodeLetters()
    ensures Encode("lt", Table) == "lt"
  {
    TableIsGood();
    EncodeIdentity("lt", Table);
  }

  lemma EncodeLtSplit()
    ensures Encode([':'] + "lt" + ['>'], Table)
         == Encode([':'], Table) + Encode("lt", Table) + Encode(['>'], Table)
  {
    EncodeConcat([':'] + "lt", ['>'], Table);
    EncodeConcat([':'], "lt", Table);
  }

  lemma DecodeLtPieces(e: string, d: string)
    requires e == "_cln" + "_lt_gt_"
    requires d == "_cln" + "<gt_"
    ensures PosixToWindows(e) == d
  {
    TokenLengths();
    assert Table[0] == ('<', "_lt_");
    var d1 := Replace(e, "_lt_", "<");
    assert PosixToWindows(e) == Decode(d1, Table[1..]);
    DecodeFirstEntry(e);
    ClnGtDelimited(d1);
    DecodeRest(d1);
  }

  /** The first entry, "_lt_", first matches at index 4 of "_cln_lt_gt_". */
  lemma DecodeFirstEntry(e: string)
    requires e == "_cln" + "_lt_gt_"
    ensures Replace(e, "_lt_", "<") == "_cln<gt_"
  {
    forall k | 0 <= k < 4
      ensures !StartsWith(e[k..], "_lt_")
    {
      assert e[k..][..4][0] == e[k] && e[k..][..4][1] == e[k + 1];
    }
    ReplaceSkip("_cln", "_lt_gt_", "_lt_", "<");
    assert Replace("gt_", "_lt_", "<") == "gt_";
    assert Replace("_lt_gt_", "_lt_", "<") == "<" + "gt_";
  }

  lemma ClnGtDelimited(d: string)
    requires d == "_cln<gt_"
    ensures Delimited(d) && |d| == 8
  {
    var inner := d[1..7];
    assert forall i :: 0 <= i < 6 ==> inner[i] == d[i + 1];
    assert forall i :: 1 <= i < 7 ==> d[i] != '_';
  }

  /** Replacement passes over a prefix in which no occurrence starts. */
  lemma {:induction false} ReplaceSkip(a: string, rest: string, pat: string, rep: string)
    requires |pat| > 0
    requires forall k :: 0 <= k < |a| ==> !StartsWith((a + rest)[k..], pat)
    ensures Replace(a + rest, pat, rep) == a + Replace(rest, pat, rep)
    decreases |a|
  {
    var s := a + rest;
    if |a| == 0 {
      assert s == rest;
    } else if |s| < |pat| {
      assert Replace(rest, pat, rep) == rest;
    } else {
      assert !StartsWith(s[0..], pat);
      assert s[0..] == s;
      assert s[1..] == a[1..] + rest;
      forall k | 0 <= k < |a[1..]|
        ensures !StartsWith((a[1..] + rest)[k..], pat)
      {
        assert (a[1..] + rest)[k..] == s[k + 1..];
      }
      ReplaceSkip(a[1..], rest, pat, rep);
      assert a == [a[0]] + a[1..];
    }
  }

  /** A delimited string holds no shorter token: a token needs an
      underscore at both of its ends. */
  lemma DelimitedNoShorterToken(d: string, tok: string)
    requires Delimited(d) && Token(tok) && |tok| < |d|
    ensures !Contains(d, tok)
  {
    forall i | 0 <= i && i + |tok| <= |d|
      ensures !OccursAt(d, tok, i)
    {
      NoShorterTokenAt(d, tok, i);
    }
    ContainsIff(d, tok);
  }

  /** The same, at one position. */
  lemma NoShorterTokenAt(d: string, tok: string, i: int)
    requires Delimited(d) && Token(tok) && |tok| < |d|
    requires 0 <= i && i + |tok| <= |d|
    ensures !OccursAt(d, tok, i)
  {
    assert "" + d + "" == d;
    var w := d[i..i + |tok|];
    assert w[0] == d[i] && w[|tok| - 1] == d[i + |tok| - 1];
    UnderscoresOfDelimited("", d, "", i);
    UnderscoresOfDelimited("", d, "", i + |tok| - 1);
  }

  /** After the first entry, no remaining token occurs in an
      eight-character delimited string such as "_cln<gt_". */
  lemma DecodeRest(d1: string)
    requires Delimited(d1) && |d1| == 8
    ensures Decode(d1, Table[1..]) == d1
  {
    TableTokens();
    TokenLengths();
    var t := Table[1..];
    forall k | 0 <= k < |t|
      ensures !Contains(d1, t[k].1)
    {
      assert t[k] == Table[k + 1];
      DelimitedNoShorterToken(d1, t[k].1);
    }
    DecodeAbsent(d1, t);
  }

  lemma TokenLengths()
    ensures forall k :: 0 <= k < |Table| ==> 0 < |Table[k].1| <= 5
  {
  }

  /** Decoding changes nothing when no token of the table occurs. */
  lemma {:induction false} DecodeAbsent(s: string, t: CodecTable)
    requires TokensNonEmpty(t)
    requires forall k :: 0 <= k < |t| ==> !Contains(s, t[k].1)
    ensures Decode(s, t) == s
    decreases |t|
  {
    if |t| > 0 {
      ReplaceAbsent(s, t[0].1, [t[0].0]);
      assert forall k :: 0 <= k < |t[1..]| ==> t[1..][k] == t[k + 1];
      DecodeAbsent(s, t[1..]);
    }
  }
}
