/** The configuration parser (llarp/config/ini.cpp): reading INI text and writing overrides. */
module IniConfig {

  type Pair = (string, string)
  /** A section is a multimap of keys to values. */
  type Sections = map<string, multiset<Pair>>

  /** What Parse returns, and the entries collected when it returned. */
  datatype Result = Result(ok: bool, config: Sections)

  predicate IsBreak(c: char) { c == '\n' || c == '\r' }

  /** std::isspace in the C locale. */
  predicate IsSpace(c: char)
  {
    c == ' ' || c == '\t' || c == '\n' || c == '\U{0B}' || c == '\U{0C}' || c == '\r'
  }

  // ----- lines

  function FirstBreak(s: string): (i: nat)
    ensures i <= |s|
    ensures forall j :: 0 <= j < i ==> !IsBreak(s[j])
    ensures i < |s| ==> IsBreak(s[i])
  {
    if s == "" || IsBreak(s[0]) then 0 else 1 + FirstBreak(s[1..])
  }

  function Lines(s: string): seq<string>
    decreases |s|
  {
    if s == "" then []
    else
      var i := FirstBreak(s);
      if i == |s| then [s] else [s[..i]] + Lines(s[i + 1..])
  }

  predicate NoBreaks(s: string) { forall c :: c in s ==> !IsBreak(c) }

  // ----- trimming

  function TrimFront(s: string): string { if s != "" && IsSpace(s[0]) then TrimFront(s[1..]) else s }

  function TrimBack(s: string): string
  {
    if s != "" && IsSpace(s[|s| - 1]) then TrimBack(s[..|s| - 1]) else s
  }

  function Trim(s: string): string { TrimBack(TrimFront(s)) }

  // ----- one line

  datatype Parsed = Blank | Section(name: string) | Entry(key: string, val: string) | Malformed

  function FirstEquals(s: string): (i: nat)
    ensures i <= |s|
    ensures forall j :: 0 <= j < i ==> s[j] != '='
    ensures i < |s| ==> s[i] == '='
  {
    if s == "" || s[0] == '=' then 0 else 1 + FirstEquals(s[1..])
  }

  function ParseTrimmed(t: string): Parsed
  {
    if t == "" || t[0] == ';' || t[0] == '#' then Blank
    else if t[0] == '[' && t[|t| - 1] == ']' then Section(t[1..|t| - 1])
    else
      var i := FirstEquals(t);
      if i == |t| then Malformed
      else
        var k := TrimBack(t[..i]);
        if k == "" then Malformed else Entry(k, TrimFront(t[i + 1..]))
  }

  function ParseLine(line: string): Parsed { ParseTrimmed(Trim(line)) }

  // ----- whole text

  function AddEntry(config: Sections, sect: string, k: string, v: string): Sections
  {
    var entries := if sect in config then config[sect] else multiset{};
    config[sect := entries + multiset{(k, v)}]
  }

  /** Entries go to the section named last; the parser gives up at a malformed line. */
  function ParseLines(lines: seq<string>, sect: string, config: Sections): Result
    decreases |lines|
  {
    if lines == [] then Result(true, config)
    else
      match ParseLine(lines[0])
      case Blank => ParseLines(lines[1..], sect, config)
      case Section(name) => ParseLines(lines[1..], name, config)
      case Entry(k, v) => ParseLines(lines[1..], sect, AddEntry(config, sect, k, v))
      case Malformed => Result(false, config)
  }

  function Parse(text: string, config: Sections): Result { ParseLines(Lines(text), "", config) }

  // ----- saving

  function RenderEntries(entries: seq<Pair>): string
  {
    if entries == [] then "" else entries[0].0 + "=" + entries[0].1 + "\n" + RenderEntries(entries[1..])
  }

  function RenderSection(name: string, entries: seq<Pair>): string
  {
    "\n" + "[" + name + "]" + "\n" + RenderEntries(entries)
  }

  function Render(order: seq<(string, seq<Pair>)>): string
  {
    if order == [] then "" else RenderSection(order[0].0, order[0].1) + Render(order[1..])
  }

  /** order visits every section once, and every entry of it as often as it is there. */
  ghost predicate Visits(order: seq<(string, seq<Pair>)>, overrides: Sections)
  {
    && (forall i, j :: 0 <= i < j < |order| ==> order[i].0 != order[j].0)
    && (forall i :: 0 <= i < |order| ==> order[i].0 in overrides && multiset(order[i].1) == overrides[order[i].0])
    && (forall name :: name in overrides ==> exists i :: 0 <= i < |order| && order[i].0 == name)
  }

  // ----- what can be saved

  predicate Trimmed(s: string) { s != "" ==> !IsSpace(s[0]) && !IsSpace(s[|s| - 1]) }

  predicate EntryOk(p: Pair)
  {
    && NoBreaks(p.0) && NoBreaks(p.1) && Trimmed(p.0) && Trimmed(p.1)
    && p.0 != "" && '=' !in p.0 && p.0[0] != ';' && p.0[0] != '#'
    && !(p.0[0] == '[' && p.1 != "" && p.1[|p.1| - 1] == ']')
  }

  ghost predicate SectionsOk(sections: Sections)
  {
    forall name :: name in sections ==> NoBreaks(name) && forall p :: p in sections[name] ==> EntryOk(p)
  }

  // ----- reading gives only what can be saved

  lemma {:induction false} TrimFrontIs(s: string)
    ensures TrimFront(s) != "" ==> !IsSpace(TrimFront(s)[0])
    ensures exists n :: 0 <= n <= |s| && TrimFront(s) == s[n..]
  {
    if s != "" && IsSpace(s[0]) {
      TrimFrontIs(s[1..]);
      var n :| 0 <= n <= |s[1..]| && TrimFront(s[1..]) == s[1..][n..];
      assert TrimFront(s) == s[n + 1..];
    } else {
      assert s == s[0..];
    }
  }

  lemma {:induction false} TrimBackIs(s: string)
    ensures TrimBack(s) != "" ==> !IsSpace(TrimBack(s)[|TrimBack(s)| - 1])
    ensures exists n :: 0 <= n <= |s| && TrimBack(s) == s[..n]
    decreases |s|
  {
    if s != "" && IsSpace(s[|s| - 1]) {
      var r := s[..|s| - 1];
      TrimBackIs(r);
      var n :| 0 <= n <= |r| && TrimBack(r) == r[..n];
      assert TrimBack(s) == s[..n];
    } else {
      assert s == s[..|s|];
    }
  }

  lemma TrimIs(s: string)
    ensures Trimmed(Trim(s))
    ensures NoBreaks(s) ==> NoBreaks(Trim(s))
  {
    TrimFrontIs(s);
    TrimBackIs(TrimFront(s));
  }

  /** An entry read from a line without breaks can be saved again, and so can a section name. */
  lemma ParsedOk(line: string)
    requires NoBreaks(line)
    ensures var p := ParseLine(line);
            && (p.Section? ==> NoBreaks(p.name))
            && (p.Entry? ==> EntryOk((p.key, p.val)))
  {
    hide Trim, TrimFront, TrimBack, FirstEquals, EntryOk;
    TrimIs(line);
    var t := Trim(line);
    if ParseLine(line).Entry? { EntryFrom(t, FirstEquals(t)); }
  }

  lemma EntryFrom(t: string, i: nat)
    requires Trimmed(t) && NoBreaks(t) && i < |t| && t[0] != ';' && t[0] != '#'
    requires !(t[0] == '[' && t[|t| - 1] == ']')
    requires t[i] == '=' && forall j :: 0 <= j < i ==> t[j] != '='
    requires TrimBack(t[..i]) != ""
    ensures EntryOk((TrimBack(t[..i]), TrimFront(t[i + 1..])))
  {
    KeyFrom(t, i);
    ValueFrom(t, i);
    hide TrimFront, TrimBack;
  }

  lemma KeyFrom(t: string, i: nat)
    requires Trimmed(t) && NoBreaks(t) && i < |t| && TrimBack(t[..i]) != ""
    requires forall j :: 0 <= j < i ==> t[j] != '='
    ensures var k := TrimBack(t[..i]);
            k[0] == t[0] && NoBreaks(k) && Trimmed(k) && '=' !in k
  {
    hide TrimBack, IsBreak, IsSpace;
    TrimBackIs(t[..i]);
    var k := TrimBack(t[..i]);
    var n :| 0 <= n <= |t[..i]| && k == t[..i][..n];
    assert k == t[..n];
  }

  lemma ValueFrom(t: string, i: nat)
    requires Trimmed(t) && NoBreaks(t) && i < |t|
    ensures var v := TrimFront(t[i + 1..]);
            NoBreaks(v) && Trimmed(v) && (v != "" ==> v[|v| - 1] == t[|t| - 1])
  {
    hide TrimFront, IsBreak, IsSpace;
    TrimFrontIs(t[i + 1..]);
    var v := TrimFront(t[i + 1..]);
    var m :| 0 <= m <= |t[i + 1..]| && v == t[i + 1..][m..];
    assert v == t[i + 1 + m..];
  }

  lemma {:induction false} LinesHaveNoBreaks(s: string)
    ensures forall line :: line in Lines(s) ==> NoBreaks(line)
    decreases |s|
  {
    if s != "" {
      var i := FirstBreak(s);
      if i < |s| { LinesHaveNoBreaks(s[i + 1..]); }
    }
  }

  lemma {:induction false} ParseLinesOk(lines: seq<string>, sect: string, config: Sections)
    requires forall line :: line in lines ==> NoBreaks(line)
    requires NoBreaks(sect) && SectionsOk(config)
    ensures SectionsOk(ParseLines(lines, sect, config).config)
    decreases |lines|
  {
    hide EntryOk, ParseLine;
    if lines != [] {
      assert lines[0] in lines;
      ParsedOk(lines[0]);
      match ParseLine(lines[0])
      case Blank => ParseLinesOk(lines[1..], sect, config);
      case Section(name) => ParseLinesOk(lines[1..], name, config);
      case Entry(k, v) => ParseLinesOk(lines[1..], sect, AddEntry(config, sect, k, v));
      case Malformed =>
    }
  }

  // ----- what can be saved is read back

  lemma {:induction false} FirstBreakAt(line: string, rest: string)
    requires NoBreaks(line)
    ensures FirstBreak(line + "\n" + rest) == |line|
  {
    if line != "" {
      assert line[0] in line;
      assert (line + "\n" + rest)[1..] == line[1..] + "\n" + rest;
      FirstBreakAt(line[1..], rest);
    }
  }

  lemma LinesCons(line: string, rest: string)
    requires NoBreaks(line)
    ensures Lines(line + "\n" + rest) == [line] + Lines(rest)
  {
    FirstBreakAt(line, rest);
    var s := line + "\n" + rest;
    assert s[..|line|] == line && s[|line| + 1..] == rest;
  }

  lemma TrimmedStays(s: string)
    requires Trimmed(s)
    ensures Trim(s) == s && TrimFront(s) == s && TrimBack(s) == s
  {
  }

  lemma ReadSection(name: string)
    ensures ParseLine("[" + name + "]") == Section(name)
  {
    var s := "[" + name + "]";
    assert s[0] == '[' && s[|s| - 1] == ']';
    TrimmedStays(s);
    assert s[1..|s| - 1] == name;
  }

  lemma {:induction false} FirstEqualsAt(k: string, v: string)
    requires '=' !in k
    ensures FirstEquals(k + "=" + v) == |k|
  {
    if k != "" {
      assert k[0] in k;
      assert (k + "=" + v)[1..] == k[1..] + "=" + v;
      FirstEqualsAt(k[1..], v);
    }
  }

  lemma ReadEntry(p: Pair)
    requires EntryOk(p)
    ensures ParseLine(p.0 + "=" + p.1) == Entry(p.0, p.1)
  {
    var k, v := p.0, p.1;
    var s := k + "=" + v;
    assert s[0] == k[0];
    if v != "" { assert s[|s| - 1] == v[|v| - 1]; } else { assert s[|s| - 1] == '='; }
    TrimmedStays(s);
    FirstEqualsAt(k, v);
    assert s[..|k|] == k && s[|k| + 1..] == v;
    TrimmedStays(k);
    TrimmedStays(v);
  }

  /** All entries under one section, in this order. */
  function AddEntries(config: Sections, sect: string, entries: seq<Pair>): Sections
    decreases |entries|
  {
    if entries == [] then config
    else AddEntries(AddEntry(config, sect, entries[0].0, entries[0].1), sect, entries[1..])
  }

  lemma NoBreaksJoin(a: string, b: string)
    requires NoBreaks(a) && NoBreaks(b)
    ensures NoBreaks(a + b)
  {
  }

  lemma {:induction false} ReadEntries(entries: seq<Pair>, rest: string, sect: string, config: Sections)
    requires forall p :: p in entries ==> EntryOk(p)
    ensures ParseLines(Lines(RenderEntries(entries) + rest), sect, config)
         == ParseLines(Lines(rest), sect, AddEntries(config, sect, entries))
    decreases |entries|
  {
    hide EntryOk, ParseLine, Lines;
    if entries == [] {
      assert "" + rest == rest;
    } else {
      var p := entries[0];
      assert p in entries;
      var line := p.0 + "=" + p.1;
      var tail := RenderEntries(entries[1..]) + rest;
      EntryLine(p);
      ReadEntry(p);
      LinesCons(line, tail);
      assert RenderEntries(entries) + rest == line + "\n" + tail;
      assert ([line] + Lines(tail))[1..] == Lines(tail);
      ReadEntries(entries[1..], rest, sect, AddEntry(config, sect, p.0, p.1));
    }
  }

  lemma EntryLine(p: Pair)
    requires EntryOk(p)
    ensures NoBreaks(p.0 + "=" + p.1)
  {
    NoBreaksJoin(p.0, "=");
    NoBreaksJoin(p.0 + "=", p.1);
  }

  lemma ReadOneSection(name: string, entries: seq<Pair>, rest: string, sect: string, config: Sections)
    requires NoBreaks(name) && forall p :: p in entries ==> EntryOk(p)
    ensures ParseLines(Lines(RenderSection(name, entries) + rest), sect, config)
         == ParseLines(Lines(rest), name, AddEntries(config, name, entries))
  {
    hide EntryOk, ParseLine, Lines, RenderEntries;
    var head := "[" + name + "]";
    var tail := RenderEntries(entries) + rest;
    assert RenderSection(name, entries) + rest == "" + "\n" + (head + "\n" + tail);
    LinesCons("", head + "\n" + tail);
    NoBreaksJoin("[", name);
    NoBreaksJoin("[" + name, "]");
    LinesCons(head, tail);
    ReadBlank();
    ReadSection(name);
    var lines := [""] + ([head] + Lines(tail));
    assert lines[0] == "" && lines[1..] == [head] + Lines(tail) && lines[1..][0] == head && lines[1..][1..]
        == Lines(tail);
    assert ParseLines(lines, sect, config) == ParseLines(lines[1..], sect, config);
    assert ParseLines(lines[1..], sect, config) == ParseLines(Lines(tail), name, config);
    ReadEntries(entries, rest, name, config);
  }

  lemma ReadBlank()
    ensures ParseLine("") == Blank
  {
  }

  function AddAll(config: Sections, order: seq<(string, seq<Pair>)>): Sections
    decreases |order|
  {
    if order == [] then config else AddAll(AddEntries(config, order[0].0, order[0].1), order[1..])
  }

  ghost predicate OrderOk(order: seq<(string, seq<Pair>)>)
  {
    forall i :: 0 <= i < |order| ==> NoBreaks(order[i].0) && forall p :: p in order[i].1 ==> EntryOk(p)
  }

  lemma {:induction false} ReadRendered(order: seq<(string, seq<Pair>)>, sect: string, config: Sections)
    requires OrderOk(order)
    ensures ParseLines(Lines(Render(order)), sect, config) == Result(true, AddAll(config, order))
    decreases |order|
  {
    hide EntryOk, RenderSection, AddEntries, Lines;
    if order == [] {
      NoLines();
    } else {
      ReadOneSection(order[0].0, order[0].1, Render(order[1..]), sect, config);
      ReadRendered(order[1..], order[0].0, AddEntries(config, order[0].0, order[0].1));
    }
  }

  lemma NoLines()
    ensures Lines("") == []
  {
  }

  // ----- collecting the entries again

  lemma FirstCounted(m: multiset<Pair>, entries: seq<Pair>)
    requires entries != []
    ensures m + multiset{entries[0]} + multiset(entries[1..]) == m + multiset(entries)
  {
    assert entries == [entries[0]] + entries[1..];
  }

  lemma {:induction false} AddMore(config: Sections, sect: string, entries: seq<Pair>)
    requires sect in config
    ensures AddEntries(config, sect, entries) == config[sect := config[sect] + multiset(entries)]
    decreases |entries|
  {
    if entries == [] {
      assert config[sect] + multiset(entries) == config[sect];
    } else {
      var p, tail := entries[0], entries[1..];
      var config1 := AddEntry(config, sect, p.0, p.1);
      assert config1 == config[sect := config[sect] + multiset{p}];
      AddMore(config1, sect, tail);
      FirstCounted(config[sect], entries);
    }
  }

  lemma AddFirst(config: Sections, sect: string, p: Pair)
    requires sect !in config
    ensures AddEntry(config, sect, p.0, p.1) == config[sect := multiset{p}]
  {
    var none: multiset<Pair> := multiset{};
    assert none + multiset{(p.0, p.1)} == multiset{p};
  }

  /** A section that is not there yet ends up with exactly these entries. */
  lemma AddNew(config: Sections, sect: string, entries: seq<Pair>)
    requires entries != [] && sect !in config
    ensures AddEntries(config, sect, entries) == config[sect := multiset(entries)]
  {
    hide AddEntry;
    var p, tail := entries[0], entries[1..];
    assert entries == [p] + tail;
    AddFirst(config, sect, p);
    var config1 := AddEntry(config, sect, p.0, p.1);
    assert config1[sect] == multiset{p};
    AddMore(config1, sect, tail);
    assert multiset{p} + multiset(tail) == multiset(entries);
  }

  /** Without its first section, an order visits the overrides without that section. */
  lemma VisitsTail(order: seq<(string, seq<Pair>)>, overrides: Sections)
    requires order != [] && Visits(order, overrides)
    ensures Visits(order[1..], overrides - {order[0].0})
  {
    var rest, less := order[1..], overrides - {order[0].0};
    forall name | name in less
      ensures exists i :: 0 <= i < |rest| && rest[i].0 == name
    {
      var i :| 0 <= i < |order| && order[i].0 == name;
      assert rest[i - 1].0 == name;
    }
  }

  lemma MoveOne(config: Sections, overrides: Sections, name: string)
    requires name in overrides
    ensures config[name := overrides[name]] + (overrides - {name}) == config + overrides
  {
  }

  lemma {:induction false} CollectedAll(config: Sections, order: seq<(string, seq<Pair>)>, overrides: Sections)
    requires Visits(order, overrides) && (forall name :: name in overrides ==> overrides[name] != multiset{})
    requires forall name :: name in overrides ==> name !in config
    ensures AddAll(config, order) == config + overrides
    decreases |order|
  {
    hide AddEntries;
    if order == [] {
      assert overrides == map[];
      assert config + map[] == config;
    } else {
      var name := order[0].0;
      FirstVisited(order, overrides);
      AddNew(config, name, order[0].1);
      VisitsTail(order, overrides);
      MoveOne(config, overrides, name);
      hide Visits;
      CollectedAll(config[name := overrides[name]], order[1..], overrides - {name});
    }
  }

  lemma FirstVisited(order: seq<(string, seq<Pair>)>, overrides: Sections)
    requires order != [] && Visits(order, overrides)
    requires forall name :: name in overrides ==> overrides[name] != multiset{}
    ensures order[0].0 in overrides && multiset(order[0].1) == overrides[order[0].0] && order[0].1 != []
  {
  }

  /** Whatever the order in which Save visits the overrides, parsing what it writes gives them back
      if and only if every section name, key and value can stand on a line of its own. */
  lemma SaveParseIff(order: seq<(string, seq<Pair>)>, overrides: Sections)
    requires Visits(order, overrides) && forall name :: name in overrides ==> overrides[name] != multiset{}
    ensures Parse(Render(order), map[]) == Result(true, overrides) <==> SectionsOk(overrides)
  {
    hide EntryOk, ParseLines, Lines, Render;
    LinesHaveNoBreaks(Render(order));
    ParseLinesOk(Lines(Render(order)), "", map[]);
    if SectionsOk(overrides) {
      VisitedOk(order, overrides);
      ReadRendered(order, "", map[]);
      CollectedAll(map[], order, overrides);
      assert map[] + overrides == overrides;
    }
  }

  /** A key with an equals sign does not come back. */
  lemma EqualsInKeyIsLost(entry: Pair)
    requires entry == ("a=b", "c")
    ensures Parse(Render([("s", [entry])]), map[]) != Result(true, map["s" := multiset{entry}])
  {
    hide Render, Parse;
    var overrides := map["s" := multiset{entry}];
    var order := [("s", [entry])];
    assert order[0].0 == "s";
    assert "a=b"[1] == '=';
    assert entry in overrides["s"];
    SaveParseIff(order, overrides);
  }

  lemma VisitedOk(order: seq<(string, seq<Pair>)>, overrides: Sections)
    requires Visits(order, overrides) && SectionsOk(overrides)
    ensures OrderOk(order)
  {
    hide EntryOk;
    forall i, p | 0 <= i < |order| && p in order[i].1
      ensures EntryOk(p)
    {
      assert p in multiset(order[i].1);
    }
  }

  // ----- the parser object

  lemma FirstBreakFrom(data: string, beg: nat, itr: nat)
    requires beg <= itr <= |data| && beg < |data|
    requires forall j :: beg <= j < itr ==> !IsBreak(data[j])
    requires itr < |data| ==> IsBreak(data[itr])
    ensures FirstBreak(data[beg..]) == itr - beg
  {
    hide IsBreak;
    var s := data[beg..];
    assert forall j :: 0 <= j < itr - beg ==> s[j] == data[beg + j];
    assert itr < |data| ==> IsBreak(s[itr - beg]);
  }

  lemma LinesFrom(data: string, beg: nat, itr: nat)
    requires beg <= itr <= |data| && beg < |data|
    requires forall j :: beg <= j < itr ==> !IsBreak(data[j])
    requires itr < |data| ==> IsBreak(data[itr])
    ensures Lines(data[beg..]) == [data[beg..itr]] + (if itr == |data| then [] else Lines(data[itr + 1..]))
  {
    hide FirstBreak, IsBreak;
    var s := data[beg..];
    FirstBreakFrom(data, beg, itr);
    assert s[..itr - beg] == data[beg..itr];
    if itr < |data| { assert s[itr - beg + 1..] == data[itr + 1..]; } else { assert s == data[beg..itr]; }
  }

  method SplitLines(data: string) returns (lines: seq<string>)
    ensures lines == Lines(data)
  {
    hide Lines;
    lines := [];
    var itr := 0;
    NoLines();
    assert data[0..] == data;
    while itr != |data|
      invariant 0 <= itr <= |data|
      invariant Lines(data) == lines + Lines(data[itr..])
      decreases |data| - itr
    {
      var beg := itr;
      while itr != |data| && data[itr] != '\n' && data[itr] != '\r'
        invariant beg <= itr <= |data|
        invariant forall j :: beg <= j < itr ==> !IsBreak(data[j])
        decreases |data| - itr
      {
        itr := itr + 1;
      }
      LinesFrom(data, beg, itr);
      lines := lines + [data[beg..itr]];
      if itr == |data| { assert data[itr..] == ""; break; }
      itr := itr + 1;
    }
    assert data[itr..] == "";
  }

  method TrimLeft(s: string) returns (t: string)
    ensures t == TrimFront(s)
  {
    t := s;
    while t != "" && IsSpace(t[0])
      invariant TrimFront(t) == TrimFront(s)
      decreases |t|
    {
      t := t[1..];
    }
  }

  method TrimRight(s: string) returns (t: string)
    ensures t == TrimBack(s)
  {
    t := s;
    while t != "" && IsSpace(t[|t| - 1])
      invariant TrimBack(t) == TrimBack(s)
      decreases |t|
    {
      t := t[..|t| - 1];
    }
  }

  method ReadLine(line: string) returns (p: Parsed)
    ensures p == ParseLine(line)
  {
    var t := TrimLeft(line);
    t := TrimRight(t);
    if t == "" || t[0] == ';' || t[0] == '#' { return Blank; }
    if t[0] == '[' && t[|t| - 1] == ']' { return Section(t[1..|t| - 1]); }
    var i := FirstEquals(t);
    if i == |t| { return Malformed; }
    var k := TrimRight(t[..i]);
    var v := TrimLeft(t[i + 1..]);
    if k == "" { return Malformed; }
    return Entry(k, v);
  }

  lemma {:induction false} RenderEntriesSnoc(entries: seq<Pair>, p: Pair)
    ensures RenderEntries(entries + [p]) == RenderEntries(entries) + (p.0 + "=" + p.1 + "\n")
    decreases |entries|
  {
    if entries == [] {
      assert [] + [p] == [p];
      assert RenderEntries([p][1..]) == "";
    } else {
      RenderEntriesSnoc(entries[1..], p);
      assert (entries + [p])[1..] == entries[1..] + [p];
    }
  }

  lemma {:induction false} RenderSnoc(order: seq<(string, seq<Pair>)>, s: (string, seq<Pair>))
    ensures Render(order + [s]) == Render(order) + RenderSection(s.0, s.1)
    decreases |order|
  {
    hide RenderSection;
    if order == [] {
      assert [] + [s] == [s];
      assert Render([s][1..]) == "";
    } else {
      RenderSnoc(order[1..], s);
      assert (order + [s])[1..] == order[1..] + [s];
    }
  }

  method WriteEntries(entries: multiset<Pair>) returns (text: string, ghost order: seq<Pair>)
    ensures multiset(order) == entries && text == RenderEntries(order)
    ensures exists o: seq<Pair> :: multiset(o) == entries && text == RenderEntries(o)
  {
    hide RenderEntries;
    text, order := "", [];
    NoEntries();
    var rest := entries;
    while rest != multiset{}
      invariant multiset(order) + rest == entries && text == RenderEntries(order)
      decreases |rest|
    {
      var p :| p in rest;
      RenderEntriesSnoc(order, p);
      text := text + (p.0 + "=" + p.1 + "\n");
      order := order + [p];
      rest := rest - multiset{p};
    }
  }

  lemma NoEntries()
    ensures RenderEntries([]) == "" && Render([]) == ""
  {
  }

  /** order visits exactly these sections of the overrides. */
  ghost predicate VisitsSome(order: seq<(string, seq<Pair>)>, overrides: Sections, names: set<string>)
  {
    && (forall i, j :: 0 <= i < j < |order| ==> order[i].0 != order[j].0)
    && (forall i :: 0 <= i < |order| ==>
          order[i].0 in names && order[i].0 in overrides && multiset(order[i].1) == overrides[order[i].0])
    && (forall name :: name in names ==> exists i :: 0 <= i < |order| && order[i].0 == name)
  }

  lemma VisitOneMore(order: seq<(string, seq<Pair>)>, overrides: Sections, names: set<string>, s: (string, seq<Pair>))
    requires VisitsSome(order, overrides, names) && s.0 !in names
    requires s.0 in overrides && multiset(s.1) == overrides[s.0]
    ensures VisitsSome(order + [s], overrides, names + {s.0})
  {
    var order' := order + [s];
    forall name | name in names + {s.0}
      ensures exists i :: 0 <= i < |order'| && order'[i].0 == name
    {
      if name == s.0 {
        assert order'[|order|].0 == name;
      } else {
        var i :| 0 <= i < |order| && order[i].0 == name;
        assert order'[i].0 == name;
      }
    }
  }

  /** The text of one file; the containers are visited in any order. */
  method WriteFile(overrides: Sections) returns (text: string, ghost order: seq<(string, seq<Pair>)>)
    ensures Visits(order, overrides) && text == Render(order)
    ensures exists o: seq<(string, seq<Pair>)> :: Visits(o, overrides) && text == Render(o)
  {
    hide Render, VisitsSome;
    text, order := "", [];
    NoEntries();
    VisitNone(overrides);
    var rest := overrides.Keys;
    assert overrides.Keys - rest == {};
    while rest != {}
      invariant rest <= overrides.Keys && text == Render(order)
      invariant VisitsSome(order, overrides, overrides.Keys - rest)
      decreases |rest|
    {
      var name :| name in rest;
      ghost var written;
      var body;
      body, written := WriteEntries(overrides[name]);
      RenderSnoc(order, (name, written));
      VisitOneMore(order, overrides, overrides.Keys - rest, (name, written));
      assert overrides.Keys - (rest - {name}) == (overrides.Keys - rest) + {name};
      text := text + ("\n" + "[" + name + "]" + "\n" + body);
      order := order + [(name, written)];
      rest := rest - {name};
    }
    assert overrides.Keys - {} == overrides.Keys;
    VisitAll(order, overrides);
  }

  lemma VisitNone(overrides: Sections)
    ensures VisitsSome([], overrides, {})
  {
  }

  lemma VisitAll(order: seq<(string, seq<Pair>)>, overrides: Sections)
    requires VisitsSome(order, overrides, overrides.Keys)
    ensures Visits(order, overrides)
  {
  }

  class ConfigParser {
    var config: Sections
    var overrides: map<string, Sections>

    /** Every section of an override has an entry. */
    ghost predicate Valid()
      reads this
    {
      forall file, name :: file in overrides && name in overrides[file] ==> overrides[file][name] != multiset{}
    }

    constructor ()
      ensures Valid() && config == map[] && overrides == map[]
    {
      config, overrides := map[], map[];
    }

    method LoadFromStr(text: string) returns (ok: bool)
      requires Valid()
      modifies this`config
      ensures Valid() && Result(ok, config) == Parse(text, old(config))
    {
      var lines := SplitLines(text);
      var sectName := "";
      var i := 0;
      assert lines[0..] == lines;
      while i < |lines|
        invariant 0 <= i <= |lines| && Valid()
        invariant ParseLines(lines[i..], sectName, config) == ParseLines(lines, "", old(config))
      {
        assert lines[i..][0] == lines[i] && lines[i..][1..] == lines[i + 1..];
        var p := ReadLine(lines[i]);
        match p {
          case Blank =>
          case Section(name) => sectName := name;
          case Entry(k, v) =>
            var entries := if sectName in config then config[sectName] else multiset{};
            config := config[sectName := entries + multiset{(k, v)}];
          case Malformed => return false;
        }
        i := i + 1;
      }
      assert lines[i..] == [];
      return true;
    }

    method AddOverride(file: string, section: string, key: string, value: string)
      requires Valid()
      modifies this`overrides
      ensures Valid()
      ensures overrides == old(overrides)[file := AddEntry(if file in old(overrides) then old(overrides)[file]
                                                           else map[], section, key, value)]
    {
      var data := if file in overrides then overrides[file] else map[];
      overrides := overrides[file := AddEntry(data, section, key, value)];
    }

    /** Writes every override file and forgets the overrides; a file reads back as its overrides
        exactly if these can stand on lines of their own. */
    method Save() returns (files: map<string, string>)
      requires Valid()
      modifies this`overrides
      ensures Valid() && overrides == map[] && files.Keys == old(overrides).Keys
      ensures forall file :: file in files ==>
                (Parse(files[file], map[]) == Result(true, old(overrides)[file]) <==> SectionsOk(old(overrides)[file]))
    {
      hide Parse, SectionsOk, Render, Visits;
      files := map[];
      var rest := overrides.Keys;
      while rest != {}
        invariant rest <= overrides.Keys && files.Keys == overrides.Keys - rest && overrides == old(overrides)
        invariant forall file :: file in files ==>
                    (Parse(files[file], map[]) == Result(true, overrides[file]) <==> SectionsOk(overrides[file]))
        decreases |rest|
      {
        var file :| file in rest;
        ghost var order;
        var text;
        text, order := WriteFile(overrides[file]);
        SaveParseIff(order, overrides[file]);
        files := files[file := text];
        rest := rest - {file};
      }
      overrides := map[];
    }
  }
}
