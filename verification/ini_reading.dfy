/** What the configuration parser (llarp/config/ini.cpp) reads: which lines a text has, what each line
    is, and which entries the sections end up with. */
module IniReading {
  import opened IniConfig

  // ----- lines

  /** The lines of a text: what a line break ends, and a last line that is not empty. A return and a new
      line after each other are two breaks. */
  lemma LinesAre(line: string, c: char, rest: string)
    requires '\n' !in line && '\r' !in line && (c == '\n' || c == '\r')
    ensures Lines("") == []
    ensures Lines(line) == if line == "" then [] else [line]
    ensures Lines(line + [c] + rest) == [line] + Lines(rest)
  {
    BreakAt(line, c, rest);
    var s := line + [c] + rest;
    assert s[..|line|] == line && s[|line| + 1..] == rest;
    assert forall j :: 0 <= j < |line| ==> line[j] in line;
  }

  lemma BreakAt(line: string, c: char, rest: string)
    requires NoBreaks(line) && IsBreak(c)
    ensures FirstBreak(line + [c] + rest) == |line|
  {
    hide IsBreak;
    var s := line + [c] + rest;
    assert s[|line|] == c;
    forall j | 0 <= j < |line|
      ensures !IsBreak(s[j])
    {
      assert s[j] in line;
    }
  }

  // ----- one line

  /** Nothing but blanks, tabulators, line and form feeds and returns. */
  predicate Spaces(s: string) { forall i :: 0 <= i < |s| ==> s[i] in " \t\n\U{0B}\U{0C}\r" }

  lemma SpacesAre(s: string)
    ensures Spaces(s) <==> forall i :: 0 <= i < |s| ==> IsSpace(s[i])
  {
    forall i | 0 <= i < |s|
      ensures s[i] in " \t\n\U{0B}\U{0C}\r" <==> IsSpace(s[i])
    {
      SpaceIs(s[i]);
    }
  }

  lemma SpaceIs(c: char)
    ensures c in " \t\n\U{0B}\U{0C}\r" <==> IsSpace(c)
  {
    var all := " \t\n\U{0B}\U{0C}\r";
    assert all[0] == ' ' && all[1] == '\t' && all[2] == '\n' && all[3] == '\U{0B}' && all[4] == '\U{0C}'
        && all[5] == '\r';
  }

  lemma {:induction false} TrimsFront(a: string, t: string)
    requires Spaces(a) && (t != "" ==> !IsSpace(t[0]))
    ensures TrimFront(a + t) == t
  {
    SpacesAre(a);
    if a != "" {
      assert (a + t)[1..] == a[1..] + t;
      TrimsFront(a[1..], t);
    } else {
      assert a + t == t;
    }
  }

  lemma {:induction false} TrimsBack(t: string, b: string)
    requires Spaces(b) && (t != "" ==> !IsSpace(t[|t| - 1]))
    ensures TrimBack(t + b) == t
    decreases |b|
  {
    SpacesAre(b);
    if b != "" {
      var n := |b| - 1;
      assert (t + b)[..|t + b| - 1] == t + b[..n];
      TrimsBack(t, b[..n]);
    } else {
      assert t + b == t;
    }
  }

  lemma TrimsBoth(a: string, t: string, b: string)
    requires Spaces(a) && Spaces(b) && Trimmed(t)
    ensures Trim(a + t + b) == t
  {
    hide IsSpace, TrimFront, TrimBack;
    assert a + t + b == a + (t + b);
    if t != "" {
      TrimsFront(a, t + b);
    } else {
      assert a + (t + b) == (a + b) + "";
      TrimsFront(a + b, "");
      assert t + "" == t;
      TrimsBack(t, "");
    }
    TrimsBack(t, b);
  }

  /** Every line is of this form. */
  lemma {:induction false} LineSplits(line: string) returns (a: string, t: string, b: string)
    ensures line == a + t + b && Spaces(a) && Spaces(b) && Trimmed(t)
    decreases |line|
  {
    if line == "" || Trimmed(line) {
      a, t, b := "", line, "";
    } else if IsSpace(line[0]) {
      a, t, b := LineSplits(line[1..]);
      SpaceIs(line[0]);
      a := [line[0]] + a;
    } else {
      a, t, b := LineSplits(line[..|line| - 1]);
      SpaceIs(line[|line| - 1]);
      b := b + [line[|line| - 1]];
      assert line == line[..|line| - 1] + [line[|line| - 1]];
    }
  }

  predicate IsComment(t: string) { t != "" && (t[0] == ';' || t[0] == '#') }

  predicate IsHeader(t: string) { |t| >= 2 && t[0] == '[' && t[|t| - 1] == ']' }

  lemma HeaderIs(t: string, name: string)
    ensures t == "[" + name + "]" <==> IsHeader(t) && t[1..|t| - 1] == name
  {
    if t == "[" + name + "]" { assert t[1..|t| - 1] == name; }
    if IsHeader(t) { assert t == "[" + t[1..|t| - 1] + "]"; }
  }

  lemma HasKeyIff(t: string)
    requires t != "" && !IsSpace(t[0])
    ensures var i := FirstEquals(t);
            (i < |t| && TrimBack(t[..i]) != "") <==> ('=' in t && t[0] != '=')
  {
    hide IsSpace;
    var i := FirstEquals(t);
    assert '=' in t <==> i < |t|;
    if 0 < i < |t| { KeyRemains(t[..i]); }
  }

  /** What a line is, its outer space put aside: nothing exactly if it is empty or a comment; a section
      exactly if it stands in brackets, with what is between them as the name; malformed exactly if it is
      none of these and has no equals sign with something before it. */
  lemma LineIs(a: string, t: string, b: string, name: string)
    requires Spaces(a) && Spaces(b) && Trimmed(t)
    ensures var p := ParseLine(a + t + b);
            && (p == Blank <==> t == "" || IsComment(t))
            && (p == Section(name) <==> t == "[" + name + "]")
            && (p == Malformed <==> t != "" && !IsComment(t) && !IsHeader(t) && ('=' !in t || t[0] == '='))
  {
    TrimsBoth(a, t, b);
    hide Trim, IsSpace, FirstEquals, TrimBack, TrimFront;
    HeaderIs(t, name);
    if t != "" { HasKeyIff(t); }
  }

  lemma {:induction false} KeyRemains(k: string)
    requires k != "" && !IsSpace(k[0])
    ensures TrimBack(k) != ""
    decreases |k|
  {
    if IsSpace(k[|k| - 1]) { KeyRemains(k[..|k| - 1]); }
  }

  /** An entry: key and value stand on either side of the first equals sign, without the space around it. */
  lemma EntryIs(a: string, k: string, c: string, d: string, v: string, b: string)
    requires Spaces(a) && Spaces(b) && Spaces(c) && Spaces(d)
    requires k != "" && Trimmed(k) && Trimmed(v) && '=' !in k && !IsComment(k)
    requires k[0] != '[' || v == "" || v[|v| - 1] != ']'
    ensures ParseLine(a + (k + c + "=" + d + v) + b) == Entry(k, v)
  {
    hide IsSpace, TrimFront, TrimBack, FirstEquals;
    NoEqualsInSpaces(c);
    if v != "" {
      var t := k + c + "=" + d + v;
      assert t[0] == k[0] && t[|t| - 1] == v[|v| - 1];
      TrimsBoth(a, t, b);
      SplitAtEquals(k, c, d, v);
    } else {
      var t := k + c + "=";
      assert t[0] == k[0] && t[|t| - 1] == '=';
      EqualsIsNoSpace();
      SpacesJoin(d, b);
      TrimsBoth(a, t, d + b);
      assert a + (k + c + "=" + d + v) + b == a + t + (d + b);
      assert t == k + c + "=" + "" + "";
      SplitAtEquals(k, c, "", "");
    }
  }

  lemma SpacesJoin(a: string, b: string)
    requires Spaces(a) && Spaces(b)
    ensures Spaces(a + b)
  {
  }

  lemma EqualsIsNoSpace()
    ensures !IsSpace('=')
  {
  }

  lemma NoEqualsInSpaces(c: string)
    requires Spaces(c)
    ensures '=' !in c
  {
    SpacesAre(c);
  }

  lemma SplitAtEquals(k: string, c: string, d: string, v: string)
    requires k != "" && Trimmed(k) && Trimmed(v) && '=' !in k && '=' !in c && Spaces(c) && Spaces(d)
    ensures var t := k + c + "=" + d + v;
            && FirstEquals(t) == |k + c|
            && TrimBack(t[..|k + c|]) == k && TrimFront(t[|k + c| + 1..]) == v
  {
    hide IsSpace, TrimFront, TrimBack;
    var t := k + c + "=" + d + v;
    assert t == (k + c) + "=" + (d + v);
    FirstEqualsAt(k + c, d + v);
    assert t[..|k + c|] == k + c && t[|k + c| + 1..] == d + v;
    TrimsBack(k, c);
    TrimsFront(d, v);
  }

  /** Every line that is no comment, no section and not malformed is an entry of that form. */
  lemma EntrySplits(t: string) returns (k: string, c: string, d: string, v: string)
    requires Trimmed(t) && t != "" && !IsComment(t) && !IsHeader(t) && '=' in t && t[0] != '='
    ensures t == k + c + "=" + d + v && Spaces(c) && Spaces(d)
    ensures k != "" && Trimmed(k) && Trimmed(v) && '=' !in k && !IsComment(k)
    ensures k[0] != '[' || v == "" || v[|v| - 1] != ']'
  {
    var i := FirstEquals(t);
    k, c := BackSplits(t[..i]);
    d, v := FrontSplits(t[i + 1..]);
    assert t[..i] == k + c && t[i + 1..] == d + v;
    assert t == t[..i] + "=" + t[i + 1..];
    assert t[..i][0] == t[0];
    assert k[0] == t[0];
    if v != "" { assert v[|v| - 1] == t[|t| - 1]; }
    forall x | x in k
      ensures x != '='
    {
      var j :| 0 <= j < |k| && k[j] == x;
      assert k[j] == t[j];
    }
  }

  lemma {:induction false} BackSplits(s: string) returns (k: string, c: string)
    ensures s == k + c && Spaces(c) && (k != "" ==> !IsSpace(k[|k| - 1]))
    ensures s != "" && !IsSpace(s[0]) ==> k != ""
    decreases |s|
  {
    k, c := s, "";
    if s != "" && IsSpace(s[|s| - 1]) {
      k, c := BackSplits(s[..|s| - 1]);
      SpaceIs(s[|s| - 1]);
      c := c + [s[|s| - 1]];
      assert s == s[..|s| - 1] + [s[|s| - 1]];
    }
  }

  lemma {:induction false} FrontSplits(s: string) returns (d: string, v: string)
    ensures s == d + v && Spaces(d) && (v != "" ==> !IsSpace(v[0]))
    decreases |s|
  {
    d, v := "", s;
    if s != "" && IsSpace(s[0]) {
      d, v := FrontSplits(s[1..]);
      SpaceIs(s[0]);
      d := [s[0]] + d;
    }
  }

  // ----- the whole text

  function NewSection(p: Parsed, sect: string): string { if p.Section? then p.name else sect }

  /** The section that line i belongs to, if the first line belongs to sect. */
  function SectionAt(lines: seq<string>, i: nat, sect: string): string
    requires i <= |lines|
    decreases i
  {
    if i == 0 then sect else NewSection(ParseLine(lines[i - 1]), SectionAt(lines, i - 1, sect))
  }

  /** It is the last one named before the line. */
  lemma {:induction false} SectionAtIs(lines: seq<string>, i: nat, sect: string)
    requires i <= |lines|
    ensures var name := SectionAt(lines, i, sect);
            || (name == sect && forall j :: 0 <= j < i ==> !ParseLine(lines[j]).Section?)
            || exists j :: 0 <= j < i && ParseLine(lines[j]) == Section(name)
                           && forall m :: j < m < i ==> !ParseLine(lines[m]).Section?
    decreases i
  {
    hide ParseLine;
    if i > 0 {
      SectionAtIs(lines, i - 1, sect);
      if ParseLine(lines[i - 1]).Section? {
        assert ParseLine(lines[i - 1]) == Section(SectionAt(lines, i, sect));
      }
    }
  }

  predicate IsEntryOf(lines: seq<string>, i: nat, sect: string, name: string, p: Pair)
    requires i < |lines|
  {
    ParseLine(lines[i]) == Entry(p.0, p.1) && SectionAt(lines, i, sect) == name
  }

  /** How many of the first n lines are this entry in the named section. */
  function Occurrences(lines: seq<string>, n: nat, sect: string, name: string, p: Pair): nat
    requires n <= |lines|
    decreases n
  {
    if n == 0 then 0
    else Occurrences(lines, n - 1, sect, name, p) + (if IsEntryOf(lines, n - 1, sect, name, p) then 1 else 0)
  }

  /** Where the parser stops: at the first malformed line, or after the last line. */
  ghost predicate StopsAt(lines: seq<string>, n: nat)
  {
    && n <= |lines| && (n < |lines| ==> ParseLine(lines[n]) == Malformed)
    && forall i :: 0 <= i < n ==> ParseLine(lines[i]) != Malformed
  }

  function CountIn(config: Sections, name: string, p: Pair): nat
  {
    if name in config then config[name][p] else 0
  }

  lemma {:induction false} SectionShift(lines: seq<string>, i: nat, sect: string)
    requires i < |lines|
    ensures SectionAt(lines[1..], i, NewSection(ParseLine(lines[0]), sect)) == SectionAt(lines, i + 1, sect)
    decreases i
  {
    hide ParseLine;
    if i > 0 {
      SectionShift(lines, i - 1, sect);
      assert lines[1..][i - 1] == lines[i];
    }
  }

  lemma {:induction false} OccurrencesShift(lines: seq<string>, n: nat, sect: string, name: string, p: Pair)
    requires n < |lines|
    ensures Occurrences(lines, n + 1, sect, name, p)
         == (if IsEntryOf(lines, 0, sect, name, p) then 1 else 0)
            + Occurrences(lines[1..], n, NewSection(ParseLine(lines[0]), sect), name, p)
    decreases n
  {
    hide ParseLine, SectionAt;
    if n > 0 {
      OccurrencesShift(lines, n - 1, sect, name, p);
      SectionShift(lines, n - 1, sect);
      assert lines[1..][n - 1] == lines[n];
    }
  }

  lemma AddCounts(config: Sections, sect: string, k: string, v: string, name: string, p: Pair)
    ensures var more := AddEntry(config, sect, k, v);
            && CountIn(more, name, p) == CountIn(config, name, p) + (if name == sect && p == (k, v) then 1 else 0)
            && (name in more <==> name in config || name == sect)
  {
  }

  /** What is read, for every text: it is accepted exactly if no line is malformed. The entries are those
      there were, and each once for every line up to the first malformed one that is this entry, in the
      section named last before that line. */
  lemma {:induction false} ParseCounts(lines: seq<string>, sect: string, config: Sections, n: nat, name: string,
                                       p: Pair)
    requires StopsAt(lines, n)
    ensures var r := ParseLines(lines, sect, config);
            && (r.ok <==> n == |lines|)
            && CountIn(r.config, name, p) == CountIn(config, name, p) + Occurrences(lines, n, sect, name, p)
    decreases |lines|
  {
    hide ParseLine, AddEntry, CountIn;
    if lines != [] && n > 0 {
      var tail, head := lines[1..], ParseLine(lines[0]);
      assert StopsAt(tail, n - 1) by {
        assert forall i :: 0 <= i < |tail| ==> tail[i] == lines[i + 1];
      }
      OccurrencesShift(lines, n - 1, sect, name, p);
      if head.Entry? {
        AddCounts(config, sect, head.key, head.val, name, p);
        ParseCounts(tail, sect, AddEntry(config, sect, head.key, head.val), n - 1, name, p);
      } else {
        ParseCounts(tail, NewSection(head, sect), config, n - 1, name, p);
      }
    }
  }

  /** There is one such line. */
  lemma {:induction false} Stops(lines: seq<string>) returns (n: nat)
    ensures StopsAt(lines, n)
    decreases |lines|
  {
    hide ParseLine;
    n := 0;
    if lines != [] && ParseLine(lines[0]) != Malformed {
      n := Stops(lines[1..]);
      n := n + 1;
      assert forall i :: 0 <= i < |lines[1..]| ==> lines[1..][i] == lines[i + 1];
    }
  }

  /** A text is accepted exactly if none of its lines is malformed. */
  lemma ParseOkIff(text: string, config: Sections)
    ensures Parse(text, config).ok <==> forall line :: line in Lines(text) ==> ParseLine(line) != Malformed
  {
    hide ParseLine, Lines;
    var lines := Lines(text);
    var n := Stops(lines);
    ParseCounts(lines, "", config, n, "", ("", ""));
    if n < |lines| { assert lines[n] in lines; }
  }
}
