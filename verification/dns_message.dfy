/** DNS messages of questions (llarp/dns/message.cpp, llarp/dns/question.cpp, llarp/util/buffer.cpp):
    the header and question formats of sections 4.1.1 and 4.1.2 of RFC 1035. */
module DnsMessage {
  import opened Common
  import opened DnsNames

  newtype uint16 = x: int | 0 <= x < 0x1_0000

  datatype Question = Question(qname: Bytes, qtype: uint16, qclass: uint16)

  datatype Header = Header(id: uint16, fields: uint16, qd: uint16, an: uint16, ns: uint16, ar: uint16)

  /** A message without resource records. */
  datatype Message = Message(id: uint16, fields: uint16, questions: seq<Question>)

  // ----- encoding

  function PutUint16(x: uint16): Bytes { [(x / 256) as byte, (x % 256) as byte] }

  function GetUint16(s: Bytes): uint16
    requires |s| >= 2
  {
    s[0] as uint16 * 256 + s[1] as uint16
  }

  function EncodeQuestion(q: Question): Option<Bytes>
  {
    match EncodeName(q.qname)
    case None => None
    case Some(name) => Some(name + PutUint16(q.qtype) + PutUint16(q.qclass))
  }

  function EncodeQuestions(qs: seq<Question>): Option<Bytes>
  {
    if qs == [] then Some([])
    else
      match EncodeQuestion(qs[0])
      case None => None
      case Some(first) =>
        match EncodeQuestions(qs[1..])
        case None => None
        case Some(rest) => Some(first + rest)
  }

  function EncodeHeader(h: Header): Bytes
  {
    PutUint16(h.id) + PutUint16(h.fields) + PutUint16(h.qd) + PutUint16(h.an) + PutUint16(h.ns) + PutUint16(h.ar)
  }

  /** The count field keeps the low 16 bits of the number of questions. */
  function HeaderOf(m: Message): Header
  {
    Header(m.id, m.fields, (|m.questions| % 0x1_0000) as uint16, 0, 0, 0)
  }

  function EncodeMessage(m: Message): Option<Bytes>
  {
    match EncodeQuestions(m.questions)
    case None => None
    case Some(questions) => Some(EncodeHeader(HeaderOf(m)) + questions)
  }

  // ----- decoding

  function DecodeQuestion(s: Bytes): Option<Read<Question>>
  {
    match DecodeName(s)
    case None => None
    case Some(name) =>
      if name.used > |s| || |s| - name.used < 4 then None
      else
        var t := s[name.used..];
        Some(Read(Question(name.what, GetUint16(t), GetUint16(t[2..])), name.used + 4))
  }

  function DecodeQuestions(s: Bytes, n: nat): Option<Read<seq<Question>>>
    decreases n
  {
    if n == 0 then Some(Read([], 0))
    else
      match DecodeQuestion(s)
      case None => None
      case Some(first) =>
        if first.used > |s| then None
        else Prepended(first, DecodeQuestions(s[first.used..], n - 1))
  }

  function Prepended(first: Read<Question>, rest: Option<Read<seq<Question>>>): Option<Read<seq<Question>>>
  {
    match rest
    case None => None
    case Some(r) => Some(Read([first.what] + r.what, first.used + r.used))
  }

  function DecodeHeader(s: Bytes): Option<Header>
  {
    if |s| < 12 then None
    else Some(Header(GetUint16(s), GetUint16(s[2..]), GetUint16(s[4..]), GetUint16(s[6..]), GetUint16(s[8..]),
                     GetUint16(s[10..])))
  }

  /** The header, then as many questions as it announces. */
  function DecodeMessage(s: Bytes): Option<Read<Message>>
  {
    match DecodeHeader(s)
    case None => None
    case Some(h) =>
      match DecodeQuestions(s[12..], h.qd as nat)
      case None => None
      case Some(qs) => Some(Read(Message(h.id, h.fields, qs.what), 12 + qs.used))
  }

  // ----- round trip

  function CanonicalQuestion(q: Question): Question { q.(qname := Canonical(q.qname)) }

  function CanonicalQuestions(qs: seq<Question>): (r: seq<Question>)
    ensures |r| == |qs|
  {
    if qs == [] then [] else [CanonicalQuestion(qs[0])] + CanonicalQuestions(qs[1..])
  }

  predicate NamesOk(qs: seq<Question>) { forall i :: 0 <= i < |qs| ==> NameOk(qs[i].qname) }

  lemma Uint16RoundTrip(x: uint16, rest: Bytes)
    ensures GetUint16(PutUint16(x) + rest) == x
    ensures (PutUint16(x) + rest)[2..] == rest
  {
    var s := PutUint16(x) + rest;
    assert s[0] == (x / 256) as byte && s[1] == (x % 256) as byte;
    assert x / 256 * 256 + x % 256 == x;
  }

  /** A question with a proper name survives; any other question that can be written is read back
      with another name, or not at all. */
  lemma QuestionRoundTrip(q: Question, rest: Bytes)
    ensures NameOk(q.qname) ==> EncodeQuestion(q).Some?
    ensures EncodeQuestion(q).Some? && NameOk(q.qname) ==>
              DecodeQuestion(EncodeQuestion(q).value + rest)
              == Some(Read(CanonicalQuestion(q), |EncodeQuestion(q).value|))
    ensures EncodeQuestion(q).Some? && !NameOk(q.qname) ==>
              var d := DecodeQuestion(EncodeQuestion(q).value + rest);
              d.None? || d.value.what.qname != Canonical(q.qname)
  {
    hide NameOk, EncodeName, DecodeName, Canonical, PutUint16, GetUint16;
    NameRoundTripIff(q.qname, []);
    if EncodeQuestion(q).Some? {
      var name := EncodeName(q.qname).value;
      var tail := PutUint16(q.qtype) + (PutUint16(q.qclass) + rest);
      NameRoundTripIff(q.qname, tail);
      QuestionTail(q, name, rest);
      Uint16RoundTrip(q.qtype, PutUint16(q.qclass) + rest);
      Uint16RoundTrip(q.qclass, rest);
      PutSize(q);
    }
  }

  lemma QuestionTail(q: Question, name: Bytes, rest: Bytes)
    ensures var tail := PutUint16(q.qtype) + (PutUint16(q.qclass) + rest);
            (name + PutUint16(q.qtype) + PutUint16(q.qclass)) + rest == name + tail
            && (name + tail)[|name|..] == tail
  {
  }

  lemma PutSize(q: Question)
    ensures |PutUint16(q.qtype)| == 2 && |PutUint16(q.qclass)| == 2
  {
  }

  /** Decoding gives these questions, with canonical names, and takes this many bytes. */
  predicate ReadsBack(s: Bytes, qs: seq<Question>, used: nat)
  {
    DecodeQuestions(s, |qs|) == Some(Read(CanonicalQuestions(qs), used))
  }

  lemma {:induction false} QuestionsRoundTripIff(qs: seq<Question>, rest: Bytes)
    ensures NamesOk(qs) ==> EncodeQuestions(qs).Some?
    ensures EncodeQuestions(qs).Some? ==>
              (NamesOk(qs) <==> ReadsBack(EncodeQuestions(qs).value + rest, qs, |EncodeQuestions(qs).value|))
    decreases |qs|
  {
    hide EncodeQuestion, DecodeQuestion, CanonicalQuestion, NameOk;
    if qs == [] {
    } else {
      QuestionsRoundTripIff(qs[1..], rest);
      QuestionRoundTrip(qs[0], []);
      NamesOkCons(qs);
      if EncodeQuestions(qs).Some? {
        var e, e1 := EncodeQuestion(qs[0]).value, EncodeQuestions(qs[1..]).value;
        QuestionRoundTrip(qs[0], e1 + rest);
        assert (e + e1) + rest == e + (e1 + rest);
        assert (e + (e1 + rest))[|e|..] == e1 + rest;
        FirstDecides(qs, e, e1 + rest, |e1|);
      }
    }
  }

  lemma NamesOkCons(qs: seq<Question>)
    requires qs != []
    ensures NamesOk(qs) <==> NameOk(qs[0].qname) && NamesOk(qs[1..])
  {
    hide NameOk;
    if NameOk(qs[0].qname) && NamesOk(qs[1..]) {
      forall i | 0 <= i < |qs|
        ensures NameOk(qs[i].qname)
      {
        if i > 0 { assert qs[1..][i - 1] == qs[i]; }
      }
    }
  }

  lemma PrependedEqual(c: Question, n: nat, cs: seq<Question>, used: nat, r: Option<Read<seq<Question>>>)
    ensures Prepended(Read(c, n), r) == Some(Read([c] + cs, n + used)) <==> r == Some(Read(cs, used))
  {
    if r.Some? && [c] + r.value.what == [c] + cs {
      assert r.value.what == ([c] + r.value.what)[1..];
      assert cs == ([c] + cs)[1..];
    }
  }

  lemma DecodeFirst(s: Bytes, n: nat)
    requires n > 0
    ensures DecodeQuestion(s).None? ==> DecodeQuestions(s, n).None?
    ensures DecodeQuestion(s).Some? && DecodeQuestion(s).value.used <= |s| ==>
              var first := DecodeQuestion(s).value;
              DecodeQuestions(s, n) == Prepended(first, DecodeQuestions(s[first.used..], n - 1))
    ensures DecodeQuestion(s).Some? && DecodeQuestions(s, n).Some? ==>
              var all := DecodeQuestions(s, n).value.what;
              |all| > 0 && all[0] == DecodeQuestion(s).value.what
  {
    hide DecodeQuestion;
  }

  /** The list comes back right exactly if its first question does and then the others do. */
  lemma FirstDecides(qs: seq<Question>, e: Bytes, tail: Bytes, used: nat)
    requires qs != [] && (e + tail)[|e|..] == tail
    requires NameOk(qs[0].qname) ==> DecodeQuestion(e + tail) == Some(Read(CanonicalQuestion(qs[0]), |e|))
    requires !NameOk(qs[0].qname) ==>
               DecodeQuestion(e + tail).None? || DecodeQuestion(e + tail).value.what.qname != Canonical(qs[0].qname)
    ensures ReadsBack(e + tail, qs, |e| + used) <==> NameOk(qs[0].qname) && ReadsBack(tail, qs[1..], used)
  {
    hide DecodeQuestion, NameOk, Canonical, DecodeQuestions, Prepended;
    var c, cs := CanonicalQuestion(qs[0]), CanonicalQuestions(qs[1..]);
    assert CanonicalQuestions(qs) == [c] + cs;
    DecodeFirst(e + tail, |qs|);
    if NameOk(qs[0].qname) {
      PrependedEqual(c, |e|, cs, used, DecodeQuestions(tail, |qs| - 1));
    } else {
      assert ([c] + cs)[0].qname == Canonical(qs[0].qname);
    }
  }

  lemma HeaderRoundTrip(h: Header, rest: Bytes)
    ensures |EncodeHeader(h)| == 12 && (EncodeHeader(h) + rest)[12..] == rest
    ensures DecodeHeader(EncodeHeader(h) + rest) == Some(h)
  {
    var s := EncodeHeader(h) + rest;
    PutAt(s, 0, h.id);
    PutAt(s, 2, h.fields);
    PutAt(s, 4, h.qd);
    PutAt(s, 6, h.an);
    PutAt(s, 8, h.ns);
    PutAt(s, 10, h.ar);
  }

  lemma PutAt(s: Bytes, at: nat, x: uint16)
    requires at + 2 <= |s| && s[at] == (x / 256) as byte && s[at + 1] == (x % 256) as byte
    ensures GetUint16(s[at..]) == x
  {
    assert x / 256 * 256 + x % 256 == x;
  }

  /** The promise: the same id, fields and questions come back, the names in trailing-dot form, and
      exactly the written bytes are consumed, whatever follows them in the buffer. */
  predicate Survives(m: Message, rest: Bytes)
  {
    && EncodeMessage(m).Some?
    && DecodeMessage(EncodeMessage(m).value + rest)
       == Some(Read(m.(questions := CanonicalQuestions(m.questions)), |EncodeMessage(m).value|))
  }

  /** A message survives exactly if the number of its questions fits the count field and every name
      is proper. */
  lemma MessageRoundTripIff(m: Message, rest: Bytes)
    ensures Survives(m, rest) <==> |m.questions| <= 0xffff && NamesOk(m.questions)
  {
    hide EncodeHeader, DecodeHeader, EncodeQuestions, DecodeQuestions, NamesOk, CanonicalQuestions;
    QuestionsRoundTripIff(m.questions, rest);
    if EncodeMessage(m).Some? {
      var body := EncodeQuestions(m.questions).value;
      var head := EncodeHeader(HeaderOf(m));
      HeaderRoundTrip(HeaderOf(m), body + rest);
      assert (head + body) + rest == head + (body + rest);
      DecodedCount(body + rest, HeaderOf(m).qd as nat);
    }
  }

  lemma {:induction false} DecodedCount(s: Bytes, n: nat)
    ensures var d := DecodeQuestions(s, n);
            d.Some? ==> |d.value.what| == n
    decreases n
  {
    hide DecodeQuestion;
    if n > 0 {
      var first := DecodeQuestion(s);
      if first.Some? && first.value.used <= |s| { DecodedCount(s[first.value.used..], n - 1); }
    }
  }

  // ----- what is read

  /** A question as it stands on the wire: labels, type and class. */
  datatype WireQuestion = WireQuestion(labels: seq<Bytes>, qtype: uint16, qclass: uint16)

  function QuestionWire(w: WireQuestion): Bytes
    requires WireOk(w.labels)
  {
    Wire(w.labels) + PutUint16(w.qtype) + PutUint16(w.qclass)
  }

  function QuestionText(w: WireQuestion): Question { Question(Dotted(w.labels), w.qtype, w.qclass) }

  lemma PutGet(s: Bytes)
    requires |s| >= 2
    ensures PutUint16(GetUint16(s)) == s[..2]
  {
  }

  lemma DecodedQuestion(s: Bytes) returns (w: WireQuestion)
    requires DecodeQuestion(s).Some?
    ensures WireOk(w.labels) && DecodeQuestion(s) == Some(Read(QuestionText(w), |QuestionWire(w)|))
    ensures QuestionWire(w) <= s
  {
    hide GetUint16, PutUint16, Wire, Dotted;
    var name := DecodeLabels(s).value;
    DecodedIsWire(s);
    var t := s[name.used..];
    w := WireQuestion(name.what, GetUint16(t), GetUint16(t[2..]));
    PutGet(t);
    PutGet(t[2..]);
    assert s[..name.used + 4] == s[..name.used] + t[..2] + t[2..][..2];
  }

  lemma WireQuestionDecodes(w: WireQuestion, rest: Bytes)
    requires WireOk(w.labels)
    ensures DecodeQuestion(QuestionWire(w) + rest) == Some(Read(QuestionText(w), |QuestionWire(w)|))
  {
    hide GetUint16, PutUint16, Wire, Dotted, WireOk;
    var s, name := QuestionWire(w) + rest, Wire(w.labels);
    var tail := PutUint16(w.qtype) + (PutUint16(w.qclass) + rest);
    assert s == name + tail && s[|name|..] == tail;
    WireDecodes(w.labels, tail);
    Uint16RoundTrip(w.qtype, PutUint16(w.qclass) + rest);
    Uint16RoundTrip(w.qclass, rest);
    PutSize(Question([], w.qtype, w.qclass));
  }

  predicate AllWireOk(ws: seq<WireQuestion>) { forall i :: 0 <= i < |ws| ==> WireOk(ws[i].labels) }

  function QuestionsWire(ws: seq<WireQuestion>): Bytes
    requires AllWireOk(ws)
  {
    if ws == [] then [] else QuestionWire(ws[0]) + QuestionsWire(ws[1..])
  }

  function QuestionsText(ws: seq<WireQuestion>): (qs: seq<Question>)
    ensures |qs| == |ws|
  {
    if ws == [] then [] else [QuestionText(ws[0])] + QuestionsText(ws[1..])
  }

  lemma {:induction false} DecodedQuestions(s: Bytes, n: nat) returns (ws: seq<WireQuestion>)
    requires DecodeQuestions(s, n).Some?
    ensures |ws| == n && AllWireOk(ws)
    ensures DecodeQuestions(s, n) == Some(Read(QuestionsText(ws), |QuestionsWire(ws)|))
    ensures QuestionsWire(ws) <= s
    decreases n
  {
    hide DecodeQuestion, QuestionText, QuestionWire, WireOk;
    if n == 0 {
      ws := [];
    } else {
      var w := DecodedQuestion(s);
      var used := |QuestionWire(w)|;
      var rest := DecodedQuestions(s[used..], n - 1);
      ws := [w] + rest;
      assert ws[1..] == rest;
      assert s[..used + |QuestionsWire(rest)|] == s[..used] + s[used..][..|QuestionsWire(rest)|];
    }
  }

  lemma {:induction false} WireQuestionsDecode(ws: seq<WireQuestion>, rest: Bytes)
    requires AllWireOk(ws)
    ensures DecodeQuestions(QuestionsWire(ws) + rest, |ws|) == Some(Read(QuestionsText(ws), |QuestionsWire(ws)|))
    decreases |ws|
  {
    hide DecodeQuestion, QuestionText, QuestionWire, WireOk;
    if ws != [] {
      var e, e1 := QuestionWire(ws[0]), QuestionsWire(ws[1..]);
      WireQuestionsDecode(ws[1..], rest);
      WireQuestionDecodes(ws[0], e1 + rest);
      assert (e + e1) + rest == e + (e1 + rest) && (e + (e1 + rest))[|e|..] == e1 + rest;
      DecodeFirst(e + (e1 + rest), |ws|);
    }
  }

  lemma DecodedHeader(s: Bytes)
    requires |s| >= 12
    ensures DecodeHeader(s).Some? && EncodeHeader(DecodeHeader(s).value) == s[..12]
  {
    hide PutUint16, GetUint16;
    PutGet(s);
    PutGet(s[2..]);
    PutGet(s[4..]);
    PutGet(s[6..]);
    PutGet(s[8..]);
    PutGet(s[10..]);
    assert s[..12] == s[..2] + s[2..][..2] + s[4..][..2] + s[6..][..2] + s[8..][..2] + s[10..][..2];
  }

  /** Bytes are read as a message exactly if they start with a header and the wire form of as many questions
      as it announces: nothing else is accepted, just that is taken, and the names are the labels with a
      dot after each. */
  lemma DecodeMessageIff(s: Bytes, m: Message, used: nat)
    ensures DecodeMessage(s) == Some(Read(m, used))
       <==> exists h: Header, ws: seq<WireQuestion> :: IsMessage(s, m, used, h, ws)
  {
    hide DecodeQuestions, QuestionsText, QuestionsWire, EncodeHeader, DecodeHeader, WireOk;
    if DecodeMessage(s) == Some(Read(m, used)) {
      TooShort(s);
      DecodedHeader(s);
      var h := DecodeHeader(s).value;
      var ws := DecodedQuestions(s[12..], h.qd as nat);
      assert s == s[..12] + s[12..];
      var body := s[12..];
      assert body == QuestionsWire(ws) + body[|QuestionsWire(ws)|..];
      assert IsMessage(s, m, used, h, ws);
    }
    forall h: Header, ws: seq<WireQuestion> | IsMessage(s, m, used, h, ws)
      ensures DecodeMessage(s) == Some(Read(m, used))
    {
      MessageDecodes(s, m, used, h, ws);
    }
  }

  ghost predicate IsMessage(s: Bytes, m: Message, used: nat, h: Header, ws: seq<WireQuestion>)
  {
    && AllWireOk(ws) && |ws| == h.qd as nat
    && EncodeHeader(h) + QuestionsWire(ws) <= s && used == |EncodeHeader(h) + QuestionsWire(ws)|
    && m == Message(h.id, h.fields, QuestionsText(ws))
  }

  lemma MessageDecodes(s: Bytes, m: Message, used: nat, h: Header, ws: seq<WireQuestion>)
    requires IsMessage(s, m, used, h, ws)
    ensures DecodeMessage(s) == Some(Read(m, used))
  {
    hide DecodeQuestions, QuestionsText, QuestionsWire, EncodeHeader, DecodeHeader, WireOk;
    var body := QuestionsWire(ws);
    var rest := s[|EncodeHeader(h) + body|..];
    assert s == EncodeHeader(h) + (body + rest);
    HeaderRoundTrip(h, body + rest);
    WireQuestionsDecode(ws, rest);
  }

  lemma TooShort(s: Bytes)
    ensures DecodeHeader(s).Some? <==> |s| >= 12
  {
  }

  /** The name a..b is written as a, with a second zero byte that is read as something else. */
  lemma DoubledDotIsLost(name: Bytes)
    requires name == [97, DOT, DOT, 98]
    ensures !NameOk(name) && EncodeName(name) == Some([1, 97, 0, 0])
  {
    var t: Bytes := [DOT, 98];
    assert Stripped(name) == name;
    assert FirstDot(name) == 1 by { assert name[1..][0] == DOT; }
    assert name[..1] == [97] && name[2..] == t;
    assert FirstDot(t) == 0 && t[..0] == [];
    var tail := Lines(t[1..]);
    assert Lines(t) == [[]] + tail;
    var labels := Labels(name);
    assert labels == [[97]] + ([[]] + tail);
    assert labels[1] == [] && labels[1] in labels;
    assert labels[1..] == [[]] + tail;
    assert labels[1..][0] == [];
    assert EncodeLabels(labels[1..]) == Some([0, 0]);
    assert labels[0] == [97];
    assert [1] + [97] + [0, 0] == [1, 97, 0, 0];
  }
}
