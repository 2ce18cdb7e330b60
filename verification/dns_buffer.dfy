/** The buffer object that DNS messages are written to and read from (llarp/util/buffer.cpp), with
    the loops of EncodeName, DecodeName and of Message::Encode and Decode. */
module DnsBuffer {
  import opened Common
  import opened DnsNames
  import opened DnsMessage

  class Buffer {
    const base: array<byte>
    var cur: nat

    ghost predicate Valid()
      reads this
    {
      cur <= base.Length
    }

    /** The bytes from the cursor on. */
    ghost function Left(): Bytes
      reads this, base
      requires Valid()
    {
      base[cur..]
    }

    constructor (base: array<byte>)
      ensures Valid() && this.base == base && cur == 0
    {
      this.base := base;
      cur := 0;
    }

    function SizeLeft(): (n: nat)
      reads this
      requires Valid()
      ensures cur + n == base.Length
    {
      base.Length - cur
    }

    /** Puts data at the cursor and moves past it. */
    method Put(data: Bytes)
      requires Valid() && |data| <= SizeLeft()
      modifies this`cur, base
      ensures Valid() && cur == old(cur) + |data|
      ensures base[..cur] == old(base[..cur]) + data && base[cur..] == old(base[cur..])[|data|..]
    {
      forall i | 0 <= i < |data| {
        base[cur + i] := data[i];
      }
      cur := cur + |data|;
      assert base[..cur] == old(base[..cur]) + data;
    }

    /** Put, for a caller that has written done after before. */
    method Append(data: Bytes, ghost before: Bytes, ghost done: Bytes)
      requires Valid() && |data| <= SizeLeft() && base[..cur] == before + done
      modifies this`cur, base
      ensures Valid() && cur == old(cur) + |data|
      ensures base[..cur] == before + (done + data) && |before| <= base.Length && base[..|before|] == before
    {
      Put(data);
      assert (before + done) + data == before + (done + data);
      KeepPrefix(base, before, done + data);
    }

    method PutU16(x: uint16) returns (ok: bool)
      requires Valid()
      modifies this`cur, base
      ensures Valid() && (ok <==> 2 <= old(SizeLeft()))
      ensures ok ==> cur == old(cur) + 2 && base[..cur] == old(base[..cur]) + PutUint16(x)
      ensures !ok ==> cur == old(cur) && base[..] == old(base[..])
    {
      if SizeLeft() < 2 { return false; }
      Put(PutUint16(x));
      return true;
    }

    method ReadU16() returns (ok: bool, x: uint16)
      requires Valid()
      modifies this`cur
      ensures Valid() && (ok <==> 2 <= old(SizeLeft()))
      ensures ok ==> cur == old(cur) + 2 && x == GetUint16(old(Left()))
      ensures !ok ==> cur == old(cur)
    {
      if SizeLeft() < 2 { return false, 0; }
      x := base[cur] as uint16 * 256 + base[cur + 1] as uint16;
      assert Left()[0] == base[cur] && Left()[1] == base[cur + 1];
      cur := cur + 2;
      return true, x;
    }

    /** Writes the name's encoding, or fails exactly if a label is too long or there is no room. */
    method WriteName(name: Bytes) returns (ok: bool)
      requires Valid() && InBounds(Labels(name), SizeLeft())
      modifies this`cur, base
      ensures Valid() && (ok <==> FitsIn(EncodeName(name), old(SizeLeft())))
      ensures ok ==> base[..cur] == old(base[..cur]) + EncodeName(name).value
      ensures base[..old(cur)] == old(base[..cur])
    {
      hide Lines, EncodeLabels, Writing, FitsIn;
      ghost var before := base[..cur];
      var ss := Stripped(name);
      ghost var done: Bytes := [];
      ghost var room := SizeLeft();
      WritingStart(name, room);
      while ss != []
        invariant Valid() && base[..cur] == before + done && base[..old(cur)] == before
        invariant Writing(name, room, done, ss, SizeLeft())
        decreases |ss|
      {
        var i := FirstDot(ss);
        var part := ss[..i];
        WritingNext(name, room, done, ss, SizeLeft());
        if |part| > 63 { return false; }
        Append([|part| as byte], before, done);
        done := done + [|part| as byte];
        if SizeLeft() < |part| { return false; }
        if |part| == 0 {
          Append([0], before, done);
          return true;
        }
        Append(part, before, done);
        done := done + part;
        ss := if i == |ss| then [] else ss[i + 1..];
      }
      WritingEnd(name, room, done, SizeLeft());
      Append([0], before, done);
      return true;
    }

    /** Reads a name in trailing-dot form. */
    method ReadName() returns (ok: bool, name: Bytes)
      requires Valid()
      modifies this`cur
      ensures Valid() && (ok <==> DecodeName(old(Left())).Some?)
      ensures ok ==> name == DecodeName(old(Left())).value.what && cur == old(cur) + DecodeName(old(Left())).value.used
    {
      hide DecodeLabels, After;
      name := [];
      ghost var all := Left();
      ghost var labels: seq<Bytes> := [];
      AfterNothing(DecodeLabels(all));
      while true
        invariant Valid() && old(cur) <= cur && name == Dotted(labels)
        invariant DecodeLabels(all) == After(labels, cur - old(cur), DecodeLabels(Left()))
        decreases base.Length - cur
      {
        ghost var s := Left();
        DecodeNext(labels, cur - old(cur), s);
        if SizeLeft() < 1 { return false, name; }
        var l := base[cur] as nat;
        assert s[0] == base[cur];
        cur := cur + 1;
        if l == 0 { return true, name; }
        if SizeLeft() < l { return false, name; }
        var part := base[cur..cur + l];
        assert part == s[1..1 + l] && base[cur + l..] == s[1 + l..];
        DottedSnoc(labels, part);
        labels := labels + [part];
        name := name + part + [DOT];
        cur := cur + l;
      }
    }

    method WriteQuestion(q: Question) returns (ok: bool)
      requires Valid() && InBounds(Labels(q.qname), SizeLeft())
      modifies this`cur, base
      ensures Valid() && (ok <==> FitsIn(EncodeQuestion(q), old(SizeLeft())))
      ensures ok ==> base[..cur] == old(base[..cur]) + EncodeQuestion(q).value
      ensures base[..old(cur)] == old(base[..cur])
    {
      hide EncodeName, InBounds;
      ghost var before := base[..cur];
      ok := WriteName(q.qname);
      if !ok { return; }
      ghost var name := EncodeName(q.qname).value;
      ok := PutU16(q.qtype);
      if !ok { return; }
      assert base[..cur] == before + (name + PutUint16(q.qtype));
      ghost var mid := base[..cur];
      ok := PutU16(q.qclass);
      if !ok { KeepPrefix(base, before, name + PutUint16(q.qtype)); return; }
      assert mid + PutUint16(q.qclass) == before + (name + PutUint16(q.qtype) + PutUint16(q.qclass));
      KeepPrefix(base, before, name + PutUint16(q.qtype) + PutUint16(q.qclass));
    }

    method ReadQuestion() returns (ok: bool, q: Question)
      requires Valid()
      modifies this`cur
      ensures Valid() && (ok <==> DecodeQuestion(old(Left())).Some?)
      ensures ok ==> q == DecodeQuestion(old(Left())).value.what
      ensures ok ==> cur == old(cur) + DecodeQuestion(old(Left())).value.used
    {
      q := Question([], 0, 0);
      ghost var all := Left();
      var name, qtype, qclass;
      ok, name := ReadName();
      if !ok { return; }
      ghost var used := DecodeName(all).value.used;
      assert Left() == all[used..];
      ok, qtype := ReadU16();
      if !ok { return; }
      assert Left() == all[used..][2..];
      ok, qclass := ReadU16();
      if !ok { return; }
      q := Question(name, qtype, qclass);
    }

    /** Reads the announced number of questions. */
    method ReadQuestions(n: nat) returns (ok: bool, qs: seq<Question>)
      requires Valid()
      modifies this`cur
      ensures Valid() && (ok <==> DecodeQuestions(old(Left()), n).Some?)
      ensures ok ==> qs == DecodeQuestions(old(Left()), n).value.what
                     && cur == old(cur) + DecodeQuestions(old(Left()), n).value.used
    {
      hide DecodeQuestion, DecodeQuestions, Reading;
      qs := [];
      ghost var all := Left();
      var i := 0;
      ReadingStart(all, n);
      while i < n
        invariant 0 <= i <= n && Valid() && old(cur) <= cur
        invariant Reading(all, n, qs, i, cur - old(cur))
      {
        assert Left() == all[cur - old(cur)..];
        ReadingNext(all, n, qs, i, cur - old(cur));
        var q;
        ok, q := ReadQuestion();
        if !ok { return; }
        qs := qs + [q];
        i := i + 1;
      }
      ReadingEnd(all, n, qs, cur - old(cur));
      ok := true;
    }

    method ReadHeader() returns (ok: bool, h: Header)
      requires Valid()
      modifies this`cur
      ensures Valid() && (ok <==> DecodeHeader(old(Left())).Some?)
      ensures ok ==> h == DecodeHeader(old(Left())).value && cur == old(cur) + 12
    {
      h := Header(0, 0, 0, 0, 0, 0);
      ghost var all := Left();
      var id, fields, qd, an, ns, ar;
      ok, id := ReadU16();
      if !ok { return; }
      assert Left() == all[2..];
      ok, fields := ReadU16();
      if !ok { return; }
      assert Left() == all[4..];
      ok, qd := ReadU16();
      if !ok { return; }
      assert Left() == all[6..];
      ok, an := ReadU16();
      if !ok { return; }
      assert Left() == all[8..];
      ok, ns := ReadU16();
      if !ok { return; }
      assert Left() == all[10..];
      ok, ar := ReadU16();
      if !ok { return; }
      h := Header(id, fields, qd, an, ns, ar);
    }

    /** The header and the questions of a message without resource records. */
    method ReadMessage() returns (ok: bool, m: Message)
      requires Valid()
      modifies this`cur
      ensures Valid() && (ok <==> DecodeMessage(old(Left())).Some?)
      ensures ok ==> m == DecodeMessage(old(Left())).value.what
      ensures ok ==> cur == old(cur) + DecodeMessage(old(Left())).value.used
    {
      hide DecodeHeader, DecodeQuestions;
      m := Message(0, 0, []);
      ghost var all := Left();
      var h, qs;
      ok, h := ReadHeader();
      if !ok { return; }
      assert Left() == all[12..];
      ok, qs := ReadQuestions(h.qd as nat);
      if !ok { return; }
      m := Message(h.id, h.fields, qs);
    }

    method WriteHeader(h: Header) returns (ok: bool)
      requires Valid()
      modifies this`cur, base
      ensures Valid() && (ok <==> 12 <= old(SizeLeft()))
      ensures ok ==> cur == old(cur) + 12 && base[..cur] == old(base[..cur]) + EncodeHeader(h)
    {
      hide PutUint16, EncodeHeader;
      ghost var before := base[..cur];
      ghost var done: Bytes := [];
      ok := PutU16(h.id);
      if !ok { return; }
      done := done + PutUint16(h.id);
      assert base[..cur] == before + done;
      ok := PutU16(h.fields);
      if !ok { return; }
      done := done + PutUint16(h.fields);
      assert base[..cur] == before + done;
      ok := PutU16(h.qd);
      if !ok { return; }
      done := done + PutUint16(h.qd);
      assert base[..cur] == before + done;
      ok := PutU16(h.an);
      if !ok { return; }
      done := done + PutUint16(h.an);
      assert base[..cur] == before + done;
      ok := PutU16(h.ns);
      if !ok { return; }
      done := done + PutUint16(h.ns);
      assert base[..cur] == before + done;
      ok := PutU16(h.ar);
      if !ok { return; }
      done := done + PutUint16(h.ar);
      assert base[..cur] == before + done;
      assert done == EncodeHeader(h) by { HeaderFields(h); }
    }

    /** Writes the whole message, or fails exactly if it has no encoding or there is no room for it. */
    method WriteMessage(m: Message) returns (ok: bool)
      requires Valid() && (12 <= SizeLeft() ==> AllInBounds(m.questions, SizeLeft() - 12))
      modifies this`cur, base
      ensures Valid() && (ok <==> FitsIn(EncodeMessage(m), old(SizeLeft())))
      ensures ok ==> base[..cur] == old(base[..cur]) + EncodeMessage(m).value
    {
      hide EncodeHeader, EncodeQuestions, AllInBounds;
      ghost var before := base[..cur];
      ghost var head := EncodeHeader(HeaderOf(m));
      HeaderSize(HeaderOf(m));
      ok := WriteHeader(HeaderOf(m));
      if !ok { return; }
      ok := WriteQuestions(m.questions);
      if !ok { return; }
      ghost var body := EncodeQuestions(m.questions).value;
      assert (before + head) + body == before + (head + body);
    }

    method WriteQuestions(qs: seq<Question>) returns (ok: bool)
      requires Valid() && AllInBounds(qs, SizeLeft())
      modifies this`cur, base
      ensures Valid() && (ok <==> FitsIn(EncodeQuestions(qs), old(SizeLeft())))
      ensures ok ==> base[..cur] == old(base[..cur]) + EncodeQuestions(qs).value
    {
      hide EncodeQuestion, EncodeQuestions, WritingAll, AllInBounds, InBounds, Labels;
      ghost var before := base[..cur];
      ghost var done: Bytes := [];
      ghost var room := SizeLeft();
      var i := 0;
      WritingAllStart(qs, room);
      while i < |qs|
        invariant 0 <= i <= |qs| && Valid()
        invariant base[..cur] == before + done
        invariant WritingAll(qs, room, done, i, SizeLeft())
      {
        WritingAllNext(qs, room, done, i, SizeLeft());
        ok := WriteQuestion(qs[i]);
        if !ok { return; }
        ghost var e := EncodeQuestion(qs[i]).value;
        assert (before + done) + e == before + (done + e);
        done := done + e;
        i := i + 1;
      }
      WritingAllEnd(qs, room, done, SizeLeft());
      ok := true;
    }
  }

  lemma HeaderFields(h: Header)
    ensures EncodeHeader(h) == [] + PutUint16(h.id) + PutUint16(h.fields) + PutUint16(h.qd) + PutUint16(h.an)
                               + PutUint16(h.ns) + PutUint16(h.ar)
  {
  }

  lemma HeaderSize(h: Header)
    ensures |EncodeHeader(h)| == 12
  {
  }

  /** There is an encoding, and it has at most this many bytes. */
  predicate FitsIn(e: Option<Bytes>, room: nat) { e.Some? && |e.value| <= room }

  /** InBounds for each question at its place. */
  predicate AllInBounds(qs: seq<Question>, left: nat)
  {
    qs == [] ||
    (&& InBounds(Labels(qs[0].qname), left)
     && (FitsIn(EncodeQuestion(qs[0]), left) ==> AllInBounds(qs[1..], left - |EncodeQuestion(qs[0]).value|)))
  }

  /** Bytes that the questions can need at most. */
  function Room(qs: seq<Question>): nat
  {
    if qs == [] then 0 else |qs[0].qname| + 6 + Room(qs[1..])
  }

  lemma {:induction false} EncodedLength(labels: seq<Bytes>)
    requires EncodeLabels(labels).Some?
    ensures |EncodeLabels(labels).value| <= |Dotted(labels)| + 1
  {
    if labels != [] && labels[0] != [] { EncodedLength(labels[1..]); }
  }

  /** A buffer with room for the texts and six bytes for each is large enough for all questions. */
  lemma {:induction false} QuestionRoomSuffices(qs: seq<Question>, left: nat)
    requires Room(qs) <= left
    ensures AllInBounds(qs, left)
    ensures EncodeQuestions(qs).Some? ==> |EncodeQuestions(qs).value| <= left
    decreases |qs|
  {
    hide InBounds, Labels, EncodeLabels, Dotted;
    if qs != [] {
      var name := qs[0].qname;
      NameRoomSuffices(name, left);
      if EncodeName(name).Some? {
        EncodedLength(Labels(name));
        DottedLines(Stripped(name));
        assert |EncodeName(name).value| <= |name| + 2 by { LabelsRoom(name); }
      }
      if EncodeQuestion(qs[0]).Some? { QuestionRoomSuffices(qs[1..], left - |EncodeQuestion(qs[0]).value|); }
    }
  }

  lemma LabelsRoom(name: Bytes)
    ensures |Dotted(Labels(name))| <= |name| + 1
  {
    hide Dotted, Lines;
    DottedLines(Stripped(name));
  }

  // ----- the loops of the writer

  /** Within WriteName: done is written, ss is to be written into left bytes. */
  ghost predicate Writing(name: Bytes, room: nat, done: Bytes, ss: Bytes, left: nat)
  {
    && EncodeName(name) == Prefixed(done, EncodeLabels(Lines(ss)))
    && |done| + left == room
    && InBounds(Lines(ss), left)
  }

  lemma WritingStart(name: Bytes, room: nat)
    requires InBounds(Labels(name), room)
    ensures Writing(name, room, [], Stripped(name), room)
  {
    PrefixedNothing(EncodeName(name));
  }

  lemma WritingNext(name: Bytes, room: nat, done: Bytes, ss: Bytes, left: nat)
    requires Writing(name, room, done, ss, left) && ss != []
    ensures var i := FirstDot(ss);
            var part, rest := ss[..i], if i == |ss| then [] else ss[i + 1..];
            && (|part| > 63 ==> !FitsIn(EncodeName(name), room))
            && (|part| <= 63 ==>
                 && left >= 1
                 && (left - 1 < |part| ==> !FitsIn(EncodeName(name), room))
                 && (|part| == 0 ==> left >= 2 && EncodeName(name) == Some(done + [|part| as byte] + [0])
                                     && FitsIn(EncodeName(name), room))
                 && (0 < |part| <= left - 1 ==>
                      Writing(name, room, done + [|part| as byte] + part, rest, left - 1 - |part|)))
  {
    hide Lines, EncodeLabels, InBounds, FirstDot;
    var i := FirstDot(ss);
    var part, rest := ss[..i], if i == |ss| then [] else ss[i + 1..];
    EncodeFirst(done, ss);
    LinesFirst(ss);
    FirstInBounds(part, Lines(rest), left);
    if |part| <= 63 {
      assert done + ([|part| as byte] + part) == done + [|part| as byte] + part;
      assert done + [0, 0] == done + [0] + [0];
    }
  }

  lemma FirstInBounds(part: Bytes, lines: seq<Bytes>, left: nat)
    requires InBounds([part] + lines, left)
    ensures |part| <= 63 ==> left >= 1 && (|part| == 0 ==> left >= 2)
    ensures 0 < |part| <= 63 && |part| <= left - 1 ==> InBounds(lines, left - 1 - |part|)
  {
    assert ([part] + lines)[1..] == lines;
  }

  lemma WritingEnd(name: Bytes, room: nat, done: Bytes, left: nat)
    requires Writing(name, room, done, [], left)
    ensures left >= 1 && EncodeName(name) == Some(done + [0]) && FitsIn(EncodeName(name), room)
  {
    EncodeNothing(done);
  }

  /** Within the loop over the questions: i of them are written. */
  ghost predicate WritingAll(qs: seq<Question>, room: nat, done: Bytes, i: nat, left: nat)
  {
    && i <= |qs|
    && EncodeQuestions(qs) == Prefixed(done, EncodeQuestions(qs[i..]))
    && |done| + left == room
    && AllInBounds(qs[i..], left)
  }

  lemma WritingAllStart(qs: seq<Question>, room: nat)
    requires AllInBounds(qs, room)
    ensures WritingAll(qs, room, [], 0, room)
  {
    assert qs[0..] == qs;
    PrefixedNothing(EncodeQuestions(qs));
  }

  lemma WritingAllNext(qs: seq<Question>, room: nat, done: Bytes, i: nat, left: nat)
    requires WritingAll(qs, room, done, i, left) && i < |qs|
    ensures InBounds(Labels(qs[i].qname), left)
    ensures var e := EncodeQuestion(qs[i]);
            if FitsIn(e, left) then WritingAll(qs, room, done + e.value, i + 1, left - |e.value|)
            else !FitsIn(EncodeQuestions(qs), room)
  {
    hide EncodeQuestion, InBounds, Labels;
    assert qs[i..][0] == qs[i] && qs[i..][1..] == qs[i + 1..];
    if EncodeQuestion(qs[i]).Some? {
      PrefixedJoin(done, EncodeQuestion(qs[i]).value, EncodeQuestions(qs[i + 1..]));
    }
  }

  lemma WritingAllEnd(qs: seq<Question>, room: nat, done: Bytes, left: nat)
    requires WritingAll(qs, room, done, |qs|, left)
    ensures EncodeQuestions(qs) == Some(done) && FitsIn(EncodeQuestions(qs), room)
  {
    assert qs[|qs|..] == [];
    assert done + [] == done;
  }

  // ----- the loop of the reader

  ghost predicate Reading(all: Bytes, n: nat, qs: seq<Question>, i: nat, used: nat)
  {
    i <= n && used <= |all| && DecodeQuestions(all, n) == Following(qs, used, DecodeQuestions(all[used..], n - i))
  }

  lemma ReadingStart(all: Bytes, n: nat)
    ensures Reading(all, n, [], 0, 0)
  {
    assert all[0..] == all;
    FollowingNothing(DecodeQuestions(all, n));
  }

  lemma ReadingNext(all: Bytes, n: nat, qs: seq<Question>, i: nat, used: nat)
    requires Reading(all, n, qs, i, used) && i < n
    ensures used <= |all|
    ensures var d := DecodeQuestion(all[used..]);
            if d.None? then DecodeQuestions(all, n).None?
            else used + d.value.used <= |all| ==> Reading(all, n, qs + [d.value.what], i + 1, used + d.value.used)
  {
    hide DecodeQuestion, DecodeQuestions, Following;
    var s := all[used..];
    FollowingNext(qs, used, s, n - i);
    var d := DecodeQuestion(s);
    if d.Some? && used + d.value.used <= |all| { assert s[d.value.used..] == all[used + d.value.used..]; }
  }

  lemma ReadingEnd(all: Bytes, n: nat, qs: seq<Question>, used: nat)
    requires Reading(all, n, qs, n, used)
    ensures DecodeQuestions(all, n) == Some(Read(qs, used))
  {
    FollowingEnd(qs, used, all[used..]);
  }

  function Prefixed(done: Bytes, rest: Option<Bytes>): Option<Bytes>
  {
    match rest
    case None => None
    case Some(r) => Some(done + r)
  }

  lemma PrefixedNothing(rest: Option<Bytes>)
    ensures Prefixed([], rest) == rest
  {
    if rest.Some? { assert [] + rest.value == rest.value; }
  }

  lemma AfterNothing(rest: Option<Read<seq<Bytes>>>)
    ensures After([], 0, rest) == rest
  {
    if rest.Some? { assert [] + rest.value.what == rest.value.what; }
  }

  lemma FollowingNothing(rest: Option<Read<seq<Question>>>)
    ensures Following([], 0, rest) == rest
  {
    if rest.Some? { assert [] + rest.value.what == rest.value.what; }
  }

  /** The next part of the text, as EncodeLabels sees it. */
  lemma EncodeFirst(done: Bytes, ss: Bytes)
    requires ss != []
    ensures var i := FirstDot(ss);
            var part, rest := ss[..i], if i == |ss| then [] else ss[i + 1..];
            Prefixed(done, EncodeLabels(Lines(ss)))
            == if |part| > 63 then None
               else if |part| == 0 then Some(done + [0, 0])
               else Prefixed(done + ([|part| as byte] + part), EncodeLabels(Lines(rest)))
  {
    hide Lines, EncodeLabels;
    var i := FirstDot(ss);
    var part, rest := ss[..i], if i == |ss| then [] else ss[i + 1..];
    LinesFirst(ss);
    LabelsFirst(part, Lines(rest));
    if 0 < |part| <= 63 { PrefixedJoin(done, [|part| as byte] + part, EncodeLabels(Lines(rest))); }
  }

  lemma LinesFirst(ss: Bytes)
    requires ss != []
    ensures var i := FirstDot(ss);
            Lines(ss) == [ss[..i]] + Lines(if i == |ss| then [] else ss[i + 1..])
  {
    hide FirstDot;
    var i := FirstDot(ss);
    if i == |ss| {
      assert ss[..i] == ss;
      assert Lines([]) == [];
      assert [ss] + [] == [ss];
    }
  }

  lemma LabelsFirst(part: Bytes, lines: seq<Bytes>)
    ensures EncodeLabels([part] + lines)
         == if |part| > 63 then None
            else if |part| == 0 then Some([0, 0])
            else Prefixed([|part| as byte] + part, EncodeLabels(lines))
  {
    assert ([part] + lines)[1..] == lines;
  }

  lemma EncodeNothing(done: Bytes)
    ensures Prefixed(done, EncodeLabels(Lines([]))) == Some(done + [0])
  {
  }

  lemma DecodeUnfold(s: Bytes)
    ensures s == [] ==> DecodeLabels(s).None?
    ensures s != [] && s[0] == 0 ==> DecodeLabels(s) == Some(Read([], 1))
    ensures s != [] && s[0] != 0 && |s| - 1 < s[0] as nat ==> DecodeLabels(s).None?
    ensures s != [] && s[0] != 0 && |s| - 1 >= s[0] as nat ==>
              var l := s[0] as nat;
              DecodeLabels(s) == Prepend(s[1..1 + l], DecodeLabels(s[1 + l..]))
  {
    hide Prepend;
  }

  /** The next byte of the buffer, as DecodeLabels sees it. */
  lemma DecodeNext(labels: seq<Bytes>, used: nat, s: Bytes)
    ensures var d := After(labels, used, DecodeLabels(s));
            && (s == [] ==> d.None?)
            && (s != [] && s[0] == 0 ==> d == Some(Read(labels, used + 1)))
            && (s != [] && s[0] != 0 ==>
                 var l := s[0] as nat;
                 d == if |s| - 1 < l then None
                      else After(labels + [s[1..1 + l]], used + 1 + l, DecodeLabels(s[1 + l..])))
  {
    hide DecodeLabels, Prepend, After;
    DecodeUnfold(s);
    AfterEnd(labels, used);
    if s != [] && s[0] != 0 && |s| - 1 >= s[0] as nat {
      var l := s[0] as nat;
      AfterOneMore(labels, used, s[1..1 + l], DecodeLabels(s[1 + l..]));
    }
  }

  lemma PrefixedJoin(a: Bytes, b: Bytes, rest: Option<Bytes>)
    ensures Prefixed(a, Prefixed(b, rest)) == Prefixed(a + b, rest)
  {
    if rest.Some? { assert a + (b + rest.value) == (a + b) + rest.value; }
  }

  /** Labels read so far, followed by what the rest of the buffer gives. */
  function After(labels: seq<Bytes>, used: nat, rest: Option<Read<seq<Bytes>>>): Option<Read<seq<Bytes>>>
  {
    match rest
    case None => None
    case Some(r) => Some(Read(labels + r.what, used + r.used))
  }

  lemma AfterEnd(labels: seq<Bytes>, used: nat)
    ensures After(labels, used, None) == None && After(labels, used, Some(Read([], 1))) == Some(Read(labels, used + 1))
  {
    assert labels + [] == labels;
  }

  lemma AfterOneMore(labels: seq<Bytes>, used: nat, l: Bytes, rest: Option<Read<seq<Bytes>>>)
    ensures After(labels, used, Prepend(l, rest)) == After(labels + [l], used + 1 + |l|, rest)
  {
    if rest.Some? { assert labels + ([l] + rest.value.what) == (labels + [l]) + rest.value.what; }
  }

  function Following(qs: seq<Question>, used: nat, rest: Option<Read<seq<Question>>>): Option<Read<seq<Question>>>
  {
    match rest
    case None => None
    case Some(r) => Some(Read(qs + r.what, used + r.used))
  }

  lemma FollowingEnd(qs: seq<Question>, used: nat, s: Bytes)
    ensures Following(qs, used, DecodeQuestions(s, 0)) == Some(Read(qs, used))
  {
    assert qs + [] == qs;
  }

  /** The next question of the buffer, as DecodeQuestions sees it. */
  lemma FollowingNext(qs: seq<Question>, used: nat, s: Bytes, n: nat)
    requires n > 0
    ensures var d := DecodeQuestion(s);
            && (d.None? ==> Following(qs, used, DecodeQuestions(s, n)) == None)
            && (d.Some? && d.value.used <= |s| ==>
                 Following(qs, used, DecodeQuestions(s, n))
                 == Following(qs + [d.value.what], used + d.value.used, DecodeQuestions(s[d.value.used..], n - 1)))
  {
    hide DecodeQuestion, Prepended;
    var d := DecodeQuestion(s);
    if d.Some? && d.value.used <= |s| {
      FollowingOneMore(qs, used, d.value, DecodeQuestions(s[d.value.used..], n - 1));
    }
  }

  lemma FollowingOneMore(qs: seq<Question>, used: nat, first: Read<Question>, rest: Option<Read<seq<Question>>>)
    ensures Following(qs, used, Prepended(first, rest)) == Following(qs + [first.what], used + first.used, rest)
  {
    if rest.Some? { assert qs + ([first.what] + rest.value.what) == (qs + [first.what]) + rest.value.what; }
  }

  lemma {:induction false} DottedSnoc(labels: seq<Bytes>, l: Bytes)
    ensures Dotted(labels + [l]) == Dotted(labels) + l + [DOT]
    decreases |labels|
  {
    if labels == [] {
      DottedCons(l, []);
      assert [] + [l] == [l] == [l] + [];
      assert l + [DOT] + Dotted([]) == Dotted([]) + l + [DOT];
    } else {
      var a, t := labels[0], labels[1..];
      DottedSnoc(t, l);
      DottedCons(a, t);
      DottedCons(a, t + [l]);
      assert labels == [a] + t && labels + [l] == [a] + (t + [l]);
      assert a + [DOT] + (Dotted(t) + l + [DOT]) == (a + [DOT] + Dotted(t)) + l + [DOT];
    }
  }

  lemma KeepPrefix(base: array<byte>, before: Bytes, added: Bytes)
    requires |before| + |added| <= base.Length && base[..|before| + |added|] == before + added
    ensures base[..|before|] == before
  {
    assert base[..|before|] == base[..|before| + |added|][..|before|];
  }
}
