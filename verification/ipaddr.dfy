/** The Linux machine configuration's reading of `ip addr` output: the
    command runner's argument check, and the line-by-line parser that
    turns the output text into a dictionary of interfaces.  The command
    itself is a parameter; the parser works on the text it returns.
 */
module IpAddr {

  import opened Errors
  import opened Dicts
  import opened Values
  import opened PyStr

  /** `execute_command(command)`: anything but a list is refused with a
      bare Exception, as is a command that fails (`run` gives None); the
      output is stripped of surrounding whitespace. */
  function ExecuteCommand(command: Value, run: seq<Value> -> Option<string>): (r: Result<string>)
    ensures r.Ok? <==> command.VList? && run(command.items).Some?
    ensures r.Err? ==> r.error == GenericException
    ensures r.Ok? ==> r.value == StripWs(run(command.items).value)
  {
    if !command.VList? then Err(GenericException)
    else match run(command.items)
      case None => Err(GenericException)
      case Some(out) => Ok(StripWs(out))
  }

  // ---------------------------------------------------------------------
  // Tokens
  // ---------------------------------------------------------------------

  /** A token as the parser produces them: non-empty, no whitespace. */
  predicate Word(w: string) {
    |w| > 0 && Blankless(w)
  }

  /** The stripped, non-empty pieces, in order. */
  function Clean(pieces: seq<string>): (r: seq<string>)
    ensures forall i :: 0 <= i < |r| ==> |r[i]| > 0
    decreases |pieces|
  {
    if |pieces| == 0 then []
    else
      var w := StripWs(pieces[0]);
      (if |w| > 0 then [w] else []) + Clean(pieces[1..])
  }

  /** `[d.strip() for d in line.split(' ') if len(d.strip()) > 0]`. */
  function Tokens(line: string): (r: seq<string>)
    ensures forall i :: 0 <= i < |r| ==> |r[i]| > 0
  {
    Clean(Split(line, " "))
  }

  lemma {:induction false} CleanWords(ws: seq<string>)
    requires forall i :: 0 <= i < |ws| ==> Word(ws[i])
    ensures Clean(ws) == ws
    decreases |ws|
  {
    if |ws| > 0 {
      StripBlankless(ws[0]);
      CleanWords(ws[1..]);
    }
  }

  lemma SpaceIsWhitespace()
    ensures ' ' in Whitespace
  {
  }

  /** Words hold no space. */
  lemma {:induction false} WordsHaveNoSpace(ws: seq<string>)
    requires forall i :: 0 <= i < |ws| ==> Word(ws[i])
    ensures forall i :: 0 <= i < |ws| ==> ' ' !in ws[i]
  {
    SpaceIsWhitespace();
  }

  /** Words joined by spaces tokenise back to the words. */
  lemma TokensOfWords(ws: seq<string>)
    requires |ws| > 0
    requires forall i :: 0 <= i < |ws| ==> Word(ws[i])
    ensures Tokens(Join(ws, " ")) == ws
  {
    WordsHaveNoSpace(ws);
    SplitJoin(ws, ' ');
    CleanWords(ws);
  }

  /** An empty piece contributes no token. */
  lemma {:induction false} CleanSkipsEmpty(ws: seq<string>)
    ensures Clean([""] + ws) == Clean(ws)
  {
    StripBlankless("");
    assert ([""] + ws)[1..] == ws;
  }

  lemma {:induction false} IndentedJoin(ws: seq<string>)
    requires |ws| > 0
    ensures " " + Join(ws, " ") == Join([""] + ws, " ")
  {
    assert ([""] + ws)[1..] == ws;
  }

  /** The same with a leading space, as indented lines have. */
  lemma {:induction false} TokensOfIndented(ws: seq<string>)
    requires |ws| > 0
    requires forall i :: 0 <= i < |ws| ==> Word(ws[i])
    ensures Tokens(" " + Join(ws, " ")) == ws
  {
    WordsHaveNoSpace(ws);
    IndentedJoin(ws);
    SplitJoin([""] + ws, ' ');
    CleanSkipsEmpty(ws);
    CleanWords(ws);
  }

  // ---------------------------------------------------------------------
  // Key/value loops
  // ---------------------------------------------------------------------

  /** The value paired with the last occurrence of `k` as a key, taking
      the tokens two by two. */
  function LastPair(t: seq<string>, k: string): (r: Option<string>)
    decreases |t|
  {
    if |t| < 2 then None
    else
      var rest := LastPair(t[2..], k);
      if rest.Some? then rest else if t[0] == k then Some(t[1]) else None
  }

  /** `while data: key = data.pop(0); d[key] = data.pop(0)`: an odd
      number of tokens runs out of values (IndexError). */
  function Pairs(t: seq<string>, d: Dict<Value>): (r: Result<Dict<Value>>)
    ensures r.Ok? <==> |t| % 2 == 0
    ensures r.Err? ==> r.error == IndexError
    decreases |t|
  {
    if |t| == 0 then Ok(d)
    else if |t| == 1 then Err(IndexError)
    else Pairs(t[2..], Set(d, t[0], VStr(t[1])))
  }

  /** Each key reads the value of its last pair, or what it read before. */
  lemma {:induction false} PairsGet(t: seq<string>, d: Dict<Value>, k: string)
    requires |t| % 2 == 0
    ensures Get(Pairs(t, d).value, k) == match LastPair(t, k)
                                         case Some(v) => Some(VStr(v))
                                         case None => Get(d, k)
    decreases |t|
  {
    if |t| > 0 {
      PairsGet(t[2..], Set(d, t[0], VStr(t[1])), k);
      SetGet(d, t[0], VStr(t[1]), k);
    }
  }

  /** The `brd` loop: pairs as above, but a last unpaired key is dropped. */
  function LoosePairs(t: seq<string>, d: Dict<Value>): (r: Dict<Value>)
    decreases |t|
  {
    if |t| < 2 then d
    else LoosePairs(t[2..], Set(d, t[0], VStr(t[1])))
  }

  /** On an even number of tokens the two loops agree. */
  lemma {:induction false} LoosePairsEven(t: seq<string>, d: Dict<Value>)
    requires |t| % 2 == 0
    ensures Pairs(t, d).Ok? && LoosePairs(t, d) == Pairs(t, d).value
    decreases |t|
  {
    if |t| > 0 {
      LoosePairsEven(t[2..], Set(d, t[0], VStr(t[1])));
    }
  }

  /** An odd last token is ignored by the `brd` loop. */
  lemma {:induction false} LoosePairsOdd(t: seq<string>, d: Dict<Value>)
    requires |t| % 2 == 1
    ensures LoosePairs(t, d) == LoosePairs(t[..|t| - 1], d)
    decreases |t|
  {
    if |t| >= 2 {
      var e := t[..|t| - 1];
      LoosePairsOdd(t[2..], Set(d, t[0], VStr(t[1])));
      assert e[2..] == t[2..][..|t[2..]| - 1];
    }
  }

  /** The `brd` loop is the strict loop on all but an odd last token. */
  lemma LoosePairsDropsLast(t: seq<string>, d: Dict<Value>)
    ensures Pairs(t[..|t| - |t| % 2], d).Ok?
    ensures LoosePairs(t, d) == Pairs(t[..|t| - |t| % 2], d).value
  {
    var e := t[..|t| - |t| % 2];
    assert |e| % 2 == 0;
    LoosePairsEven(e, d);
    if |t| % 2 == 1 {
      assert e == t[..|t| - 1];
      LoosePairsOdd(t, d);
    } else {
      assert e == t;
    }
  }

  /** The address scan of an `inet`/`inet6` line: the token after each
      `kind` token is the address (IndexError when there is none), every
      other token is a flag.  The address persists from earlier lines,
      as the Python local does. */
  function AddrScan(t: seq<string>, kind: string, addr: Option<string>, flags: seq<string>)
    : (r: Result<(Option<string>, seq<string>)>)
    ensures r.Err? ==> r.error == IndexError
    ensures kind !in t ==> r == Ok((addr, flags + t))
    decreases |t|
  {
    if |t| == 0 then
      assert flags + t == flags;
      Ok((addr, flags))
    else if t[0] == kind then
      if |t| == 1 then Err(IndexError) else AddrScan(t[2..], kind, Some(t[1]), flags)
    else
      assert kind !in t ==> kind !in t[1..];
      assert flags + t == (flags + [t[0]]) + t[1..];
      AddrScan(t[1..], kind, addr, flags + [t[0]])
  }

  /** A line `kind addr flags…` gives its address and its flags. */
  lemma {:induction false} AddrScanLine(kind: string, a: string, rest: seq<string>, addr: Option<string>)
    requires kind !in rest
    ensures AddrScan([kind, a] + rest, kind, addr, []) == Ok((Some(a), rest))
  {
    assert ([kind, a] + rest)[2..] == rest;
    assert [] + rest == rest;
  }

  // ---------------------------------------------------------------------
  // The line parser
  // ---------------------------------------------------------------------

  /** The parser's variables: the finished interfaces, the one being
      read, and the last `inet6` and `inet` addresses seen. */
  datatype ParseState = ParseState(interfaces: Dict<Value>, info: Dict<Value>,
                                   inet6: Option<string>, inet4: Option<string>)

  const Start: ParseState := ParseState([], [], None, None)

  /** `interfaces[info['name']] = info` when `info` is not empty: an
      interface without a name raises KeyError.  Every name the parser
      stores is a `str`; anything else is refused as unhashable. */
  function Store(interfaces: Dict<Value>, info: Dict<Value>): (r: Result<Dict<Value>>)
    ensures |info| == 0 ==> r == Ok(interfaces)
    ensures |info| > 0 && Get(info, "name").None? ==> r == Err(KeyError)
    ensures |info| > 0 && r.Ok? ==> Get(info, "name").Some? && Get(info, "name").value.VStr?
                                    && Get(r.value, Get(info, "name").value.s) == Some(VDict(info))
    ensures r.Ok? ==> Keys(interfaces) <= Keys(r.value)
  {
    if |info| == 0 then Ok(interfaces)
    else match Get(info, "name")
      case None => Err(KeyError)
      case Some(v) =>
        if v.VStr? then
          SetGet(interfaces, v.s, VDict(info), v.s);
          Ok(Set(interfaces, v.s, VDict(info)))
        else Err(TypeError)
  }

  /** A token of the form `<…>`. */
  predicate Bracketed(w: string) {
    StartsWith(w, "<") && EndsWith(w, ">")
  }

  /** What is inside the brackets. */
  function Inner(w: string): (r: string)
    requires |w| > 0 && Bracketed(w)
    ensures |r| == |w| - 2
    ensures w == "<" + r + ">"
  {
    assert |w| >= 2 by {
      assert w[0] == '<' && w[|w| - 1] == '>';
    }
    assert w == [w[0]] + w[1..|w| - 1] + [w[|w| - 1]];
    w[1..|w| - 1]
  }

  /** The interface the tokens after the name open: the first token must
      be `<flags>` (IndexError when there is none, a bare Exception when it
      is not bracketed) and gives a one-element flag list, the split of
      the flags on a space no token holds; the other tokens are key/value
      pairs after the name and the flags. */
  function HeaderData(name: string, data: seq<string>): (r: Result<Dict<Value>>)
    ensures |data| == 0 ==> r == Err(IndexError)
    ensures |data| > 0 && !Bracketed(data[0]) ==> r == Err(GenericException)
    ensures |data| > 0 && Bracketed(data[0]) ==> (r.Ok? <==> |data| % 2 == 1)
    ensures |data| > 0 && Bracketed(data[0]) && |data| % 2 == 0 ==> r == Err(IndexError)
  {
    var _ :- Check(|data| > 0, IndexError);
    var _ :- Check(Bracketed(data[0]), GenericException);
    var info := [("name", VStr(name)), ("flags", VList(Strs(Split(Inner(data[0]), " "))))];
    Pairs(data[1..], info)
  }

  /** The interface an `mtu` line opens: the line must split on `:` into
      exactly three parts (ValueError); the second, stripped, is the name
      and the tokens of the third describe it. */
  function Header(line: string): (r: Result<Dict<Value>>)
    ensures |Split(line, ":")| != 3 ==> r == Err(ValueError)
    ensures |Split(line, ":")| == 3
            ==> r == HeaderData(StripWs(Split(line, ":")[1]), Tokens(Split(line, ":")[2]))
  {
    var parts := Split(line, ":");
    var _ :- Check(|parts| == 3, ValueError);
    HeaderData(StripWs(parts[1]), Tokens(parts[2]))
  }

  /** The previous address of the given kind. */
  function PrevAddr(st: ParseState, kind: string): Option<string> {
    if kind == "inet6" then st.inet6 else st.inet4
  }

  /** The entry appended for one address. */
  function AddrEntry(a: string, flags: seq<string>, data: Dict<Value>): Dict<Value> {
    [("address", VStr(a)), ("flags", VList(Strs(flags))), ("data", VDict(data))]
  }

  /** An `inet6` or `inet` line and its continuation: the continuation
      must exist (IndexError) and hold `valid_lft` (a bare Exception); its
      tokens are key/value pairs.  The entry is appended to the list under
      `kind` (AttributeError when that key holds something else), and an
      address never seen leaves the Python local unbound. */
  function Inet(kind: string, line: string, rest: seq<string>, st: ParseState)
    : (r: Result<(ParseState, seq<string>)>)
    ensures r.Ok? ==> |rest| > 0 && r.value.1 == rest[1..]
    ensures r.Ok? ==> r.value.0.interfaces == st.interfaces
    ensures AddrScan(Tokens(line), kind, PrevAddr(st, kind), []).Ok? && |rest| == 0 ==> r == Err(IndexError)
    ensures AddrScan(Tokens(line), kind, PrevAddr(st, kind), []).Ok? && |rest| > 0 && !Contains(rest[0], "valid_lft")
            ==> r == Err(GenericException)
  {
    var scan :- AddrScan(Tokens(line), kind, PrevAddr(st, kind), []);
    var _ :- Check(|rest| > 0, IndexError);
    var _ :- Check(Contains(rest[0], "valid_lft"), GenericException);
    var data :- Pairs(Tokens(rest[0]), []);
    var list :- match Get(st.info, kind)
                case None => Ok([])
                case Some(v) => if v.VList? then Ok(v.items) else Err(AttributeError);
    var a :- match scan.0
             case None => Err(UnboundLocalError)
             case Some(a) => Ok(a);
    var info := Set(st.info, kind, VList(list + [VDict(AddrEntry(a, scan.1, data))]));
    var st' := if kind == "inet6" then st.(info := info, inet6 := scan.0) else st.(info := info, inet4 := scan.0);
    Ok((st', rest[1..]))
  }

  /** One step of the `while lines` loop: `mtu` lines open an interface,
      storing the previous one; `inet6` is tested before `inet`, and both
      before `brd`; other lines are skipped. */
  function Step(lines: seq<string>, st: ParseState): (r: Result<(ParseState, seq<string>)>)
    requires |lines| > 0
    ensures r.Ok? ==> |r.value.1| < |lines|
    ensures Contains(lines[0], "mtu") && r.Ok? ==> (Store(st.interfaces, st.info).Ok?
                                                   && r.value.0.interfaces == Store(st.interfaces, st.info).value)
    ensures !Contains(lines[0], "mtu") && r.Ok? ==> r.value.0.interfaces == st.interfaces
  {
    var line := lines[0];
    if Contains(line, "mtu") then
      var ifs :- Store(st.interfaces, st.info);
      var info :- Header(line);
      Ok((ParseState(ifs, info, st.inet6, st.inet4), lines[1..]))
    else if Contains(line, "inet6") then Inet("inet6", line, lines[1..], st)
    else if Contains(line, "inet") then Inet("inet", line, lines[1..], st)
    else if Contains(line, "brd") then Ok((st.(info := LoosePairs(Tokens(line), st.info)), lines[1..]))
    else Ok((st, lines[1..]))
  }

  /** The loop, then the final `interfaces[info['name']] = info`.  An
      interface once stored keeps its place: names are listed in the order
      first seen, and a later interface of the same name replaces the
      earlier one in place. */
  function Parse(lines: seq<string>, st: ParseState): (r: Result<Dict<Value>>)
    ensures r.Ok? ==> Keys(st.interfaces) <= Keys(r.value)
    decreases |lines|
  {
    if |lines| == 0 then Store(st.interfaces, st.info)
    else
      var next :- Step(lines, st);
      assert Keys(st.interfaces) <= Keys(next.0.interfaces);
      Parse(next.1, next.0)
  }

  /** `parse_ip_addr_output` on the command's output text: empty output
      lists no interface. */
  function ParseIpAddrOutput(output: string): (r: Result<Dict<Value>>)
    ensures output == "" ==> r == Ok([])
  {
    assert output == "" ==> Parse(Split(output, "\n"), Start) == Ok([]) by {
      if output == "" {
        assert Split(output, "\n") == [""];
        assert !Contains("", "mtu") && !Contains("", "inet6") && !Contains("", "inet") && !Contains("", "brd");
        assert Step([""], Start) == Ok((Start, []));
      }
    }
    Parse(Split(output, "\n"), Start)
  }

  // ---------------------------------------------------------------------
  // Rendered lines parse back
  // ---------------------------------------------------------------------

  /** `idx: name: <flags> k1 v1 k2 v2 …`, the shape of an interface line. */
  function HeaderLine(idx: string, name: string, flags: string, kvs: seq<string>): string {
    idx + ":" + " " + name + ":" + " " + Join(["<" + flags + ">"] + kvs, " ")
  }

  predicate NoColon(ws: seq<string>) {
    forall i :: 0 <= i < |ws| ==> ':' !in ws[i]
  }

  /** The dictionary an interface line opens. */
  function HeaderInfo(name: string, flags: string): Dict<Value> {
    [("name", VStr(name)), ("flags", VList([VStr(flags)]))]
  }

  lemma {:induction false} HeaderSplit(idx: string, name: string, flags: string, kvs: seq<string>)
    requires ':' !in idx && ':' !in name && ':' !in flags && NoColon(kvs)
    ensures Split(HeaderLine(idx, name, flags, kvs), ":")
            == [idx, " " + name, " " + Join(["<" + flags + ">"] + kvs, " ")]
  {
    var j := Join(["<" + flags + ">"] + kvs, " ");
    JoinNoChar(["<" + flags + ">"] + kvs, ' ', ':');
    assert HeaderLine(idx, name, flags, kvs) == idx + [':'] + ((" " + name) + [':'] + (" " + j));
    SplitCharFirst(idx, ':', (" " + name) + [':'] + (" " + j));
    SplitCharFirst(" " + name, ':', " " + j);
    SplitCharNone(" " + j, ':');
  }

  /** A join of parts without `d`, by a separator other than `d`, has no `d`. */
  lemma {:induction false} JoinNoChar(ws: seq<string>, sep: char, d: char)
    requires sep != d
    requires forall i :: 0 <= i < |ws| ==> d !in ws[i]
    ensures d !in Join(ws, [sep])
    decreases |ws|
  {
    if |ws| > 1 {
      JoinNoChar(ws[1..], sep, d);
    }
  }

  /** An interface line with an even number of key/value tokens opens the
      interface `name` with the single flag string and those pairs. */
  lemma {:induction false} HeaderRoundTrip(idx: string, name: string, flags: string, kvs: seq<string>)
    requires ':' !in idx && ':' !in name && ':' !in flags && NoColon(kvs)
    requires Word(name) && Blankless(flags)
    requires forall i :: 0 <= i < |kvs| ==> Word(kvs[i])
    requires |kvs| % 2 == 0
    ensures Header(HeaderLine(idx, name, flags, kvs)) == Pairs(kvs, HeaderInfo(name, flags))
  {
    HeaderSplit(idx, name, flags, kvs);
    var ws := ["<" + flags + ">"] + kvs;
    BracketedWord(flags);
    TokensOfIndented(ws);
    StripBlankless(name);
    HeaderDataOfWords(name, flags, kvs);
  }

  lemma BracketsAreNotWhitespace()
    ensures '<' !in Whitespace && '>' !in Whitespace
  {
  }

  /** `<flags>` is a token, and its inside is the flags. */
  lemma BracketedWord(flags: string)
    requires Blankless(flags)
    ensures Word("<" + flags + ">") && Bracketed("<" + flags + ">")
    ensures Inner("<" + flags + ">") == flags
  {
    var w := "<" + flags + ">";
    BracketsAreNotWhitespace();
    assert forall i :: 1 <= i < |w| - 1 ==> w[i] == flags[i - 1];
    assert w[..1] == "<";
    assert w[|w| - 1..] == ">";
  }

  /** The tokens `<flags> k1 v1 …` open the interface with the one flag
      string and the pairs. */
  lemma {:induction false} HeaderDataOfWords(name: string, flags: string, kvs: seq<string>)
    requires Blankless(flags)
    requires |kvs| % 2 == 0
    ensures HeaderData(name, ["<" + flags + ">"] + kvs) == Pairs(kvs, HeaderInfo(name, flags))
  {
    BracketedWord(flags);
    var ws := ["<" + flags + ">"] + kvs;
    assert ws[1..] == kvs;
    SpaceIsWhitespace();
    SplitCharNone(flags, ' ');
    assert Strs([flags]) == [VStr(flags)];
  }

  /** ` kind addr flag…`, an address line, and ` k1 v1 …`, its continuation. */
  function AddrLine(kind: string, a: string, flags: seq<string>): string {
    " " + Join([kind, a] + flags, " ")
  }

  function ContLine(data: seq<string>): string {
    " " + Join(data, " ")
  }

  /** Which branch an address line takes: `kind` must be the first of
      `inet6` and `inet` it contains, and it must not contain `mtu`. */
  predicate Routes(line: string, kind: string) {
    !Contains(line, "mtu")
    && (kind == "inet6" || kind == "inet")
    && Contains(line, kind)
    && (kind == "inet" ==> !Contains(line, "inet6"))
  }

  /** An address line and its continuation append one entry, with that
      address, those flags and those pairs, after the entries already
      listed under `kind`; the parser moves past both lines. */
  lemma {:induction false} AddrRoundTrip(kind: string, a: string, flags: seq<string>, data: seq<string>,
                                         st: ParseState, rest: seq<string>)
    requires Routes(AddrLine(kind, a, flags), kind)
    requires Word(a) && forall i :: 0 <= i < |flags| ==> Word(flags[i]) && flags[i] != kind
    requires |data| > 0 && |data| % 2 == 0 && forall i :: 0 <= i < |data| ==> Word(data[i])
    requires Contains(ContLine(data), "valid_lft")
    requires Get(st.info, kind).None? || Get(st.info, kind).value.VList?
    ensures var r := Step([AddrLine(kind, a, flags), ContLine(data)] + rest, st);
      var prior := if Get(st.info, kind).None? then [] else Get(st.info, kind).value.items;
      r.Ok? && r.value.1 == rest
      && r.value.0.info == Set(st.info, kind, VList(prior + [VDict(AddrEntry(a, flags, Pairs(data, []).value))]))
      && r.value.0.interfaces == st.interfaces
  {
    var lines := [AddrLine(kind, a, flags), ContLine(data)] + rest;
    assert lines[1..] == [ContLine(data)] + rest;
    InetOfLines(kind, a, flags, data, st, rest);
  }

  lemma KindsAreWords()
    ensures Word("inet") && Word("inet6")
  {
  }

  /** The address branch on a rendered address line and continuation. */
  lemma {:induction false} InetOfLines(kind: string, a: string, flags: seq<string>, data: seq<string>,
                                       st: ParseState, rest: seq<string>)
    requires kind == "inet6" || kind == "inet"
    requires Word(a) && forall i :: 0 <= i < |flags| ==> Word(flags[i]) && flags[i] != kind
    requires |data| > 0 && |data| % 2 == 0 && forall i :: 0 <= i < |data| ==> Word(data[i])
    requires Contains(ContLine(data), "valid_lft")
    requires Get(st.info, kind).None? || Get(st.info, kind).value.VList?
    ensures var r := Inet(kind, AddrLine(kind, a, flags), [ContLine(data)] + rest, st);
      var prior := if Get(st.info, kind).None? then [] else Get(st.info, kind).value.items;
      r.Ok? && r.value.1 == rest
      && r.value.0.info == Set(st.info, kind, VList(prior + [VDict(AddrEntry(a, flags, Pairs(data, []).value))]))
      && r.value.0.interfaces == st.interfaces
  {
    KindsAreWords();
    var ws := [kind, a] + flags;
    TokensOfIndented(ws);
    TokensOfIndented(data);
    assert kind !in flags;
    AddrScanLine(kind, a, flags, PrevAddr(st, kind));
    assert ([ContLine(data)] + rest)[1..] == rest;
  }

  /** An output holding a single interface line gives that one interface. */
  lemma {:induction false} SingleInterface(idx: string, name: string, flags: string, kvs: seq<string>)
    requires ':' !in idx && ':' !in name && ':' !in flags && NoColon(kvs)
    requires Word(name) && Blankless(flags)
    requires forall i :: 0 <= i < |kvs| ==> Word(kvs[i])
    requires |kvs| % 2 == 0
    requires Contains(HeaderLine(idx, name, flags, kvs), "mtu")
    requires LastPair(kvs, "name").None?
    ensures Parse([HeaderLine(idx, name, flags, kvs)], Start)
            == Ok([(name, VDict(Pairs(kvs, HeaderInfo(name, flags)).value))])
  {
    var line := HeaderLine(idx, name, flags, kvs);
    HeaderRoundTrip(idx, name, flags, kvs);
    var info := Pairs(kvs, HeaderInfo(name, flags)).value;
    PairsGet(kvs, HeaderInfo(name, flags), "name");
    assert Get(info, "name") == Some(VStr(name));
    assert |info| > 0;
    var st := Step([line], Start);
    assert st == Ok((ParseState([], info, None, None), []));
  }
}
