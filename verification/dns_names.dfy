/** DNS names on the wire (llarp/dns/name.cpp): labels with a length byte, ended by a zero byte, as
    in section 3.1 of RFC 1035. Names are text with dots between labels. */
module DnsNames {
  import opened Common

  const DOT: byte := 46
  const MAX_LABEL: nat := 63

  /** A value read from the front of a buffer, and how many bytes it took. */
  datatype Read<T> = Read(what: T, used: nat)

  // ----- text

  /** The position of the first dot, or the length of the text. */
  function FirstDot(s: Bytes): (i: nat)
    ensures i <= |s|
    ensures forall j :: 0 <= j < i ==> s[j] != DOT
    ensures i < |s| ==> s[i] == DOT
  {
    if s == [] then 0 else if s[0] == DOT then 0 else 1 + FirstDot(s[1..])
  }

  /** What repeated getline reads: parts between dots, without an empty last one. */
  function Lines(s: Bytes): seq<Bytes>
    decreases |s|
  {
    if s == [] then []
    else
      var i := FirstDot(s);
      if i == |s| then [s] else [s[..i]] + Lines(s[i + 1..])
  }

  function Stripped(name: Bytes): Bytes
  {
    if |name| > 0 && name[|name| - 1] == DOT then name[..|name| - 1] else name
  }

  function Labels(name: Bytes): seq<Bytes> { Lines(Stripped(name)) }

  /** Every label followed by a dot. */
  function Dotted(labels: seq<Bytes>): Bytes
  {
    if labels == [] then [] else labels[0] + [DOT] + Dotted(labels[1..])
  }

  /** The name with exactly one trailing dot; the root is the empty text. */
  function Canonical(name: Bytes): Bytes
  {
    if Stripped(name) == [] then [] else Stripped(name) + [DOT]
  }

  predicate LabelOk(l: Bytes) { 1 <= |l| <= MAX_LABEL }

  /** No empty label, none too long, and no second dot at the end. */
  predicate NameOk(name: Bytes)
  {
    && (forall l :: l in Labels(name) ==> LabelOk(l))
    && (Stripped(name) != [] ==> Stripped(name)[|Stripped(name)| - 1] != DOT)
  }

  // ----- wire

  /** An empty label ends the loop after its own length byte: two zero bytes are written. */
  function EncodeLabels(labels: seq<Bytes>): Option<Bytes>
  {
    if labels == [] then Some([0])
    else if |labels[0]| > MAX_LABEL then None
    else if labels[0] == [] then Some([0, 0])
    else
      match EncodeLabels(labels[1..])
      case None => None
      case Some(rest) => Some([|labels[0]| as byte] + labels[0] + rest)
  }

  function EncodeName(name: Bytes): Option<Bytes> { EncodeLabels(Labels(name)) }

  /** The labels up to the zero byte; None when the buffer ends before it. */
  function DecodeLabels(s: Bytes): Option<Read<seq<Bytes>>>
    decreases |s|
  {
    if s == [] then None
    else
      var l := s[0] as nat;
      if l == 0 then Some(Read([], 1))
      else if |s| - 1 < l then None
      else Prepend(s[1..1 + l], DecodeLabels(s[1 + l..]))
  }

  function Prepend(l: Bytes, r: Option<Read<seq<Bytes>>>): Option<Read<seq<Bytes>>>
  {
    match r
    case None => None
    case Some(read) => Some(Read([l] + read.what, 1 + |l| + read.used))
  }

  function DecodeName(s: Bytes): Option<Read<Bytes>>
  {
    match DecodeLabels(s)
    case None => None
    case Some(r) => Some(Read(Dotted(r.what), r.used))
  }

  // ----- lemmas

  /** The labels before the first empty one. */
  function Leading(labels: seq<Bytes>): seq<Bytes>
  {
    if labels == [] || labels[0] == [] then [] else [labels[0]] + Leading(labels[1..])
  }

  lemma SplitCons(x: byte, l: Bytes, tail: Bytes)
    ensures var s := [x] + l + tail;
            |s| == 1 + |l| + |tail| && s[0] == x && s[1..1 + |l|] == l && s[1 + |l|..] == tail
  {
  }

  lemma DecodeCons(l: Bytes, tail: Bytes)
    requires 1 <= |l| <= 255
    ensures DecodeLabels([|l| as byte] + l + tail) == Prepend(l, DecodeLabels(tail))
  {
    hide Prepend;
    SplitCons(|l| as byte, l, tail);
  }

  /** What was encoded reads back as the labels before the first empty one; with an empty label one
      written byte is left over. */
  lemma {:induction false} LabelsRoundTrip(labels: seq<Bytes>, rest: Bytes)
    requires EncodeLabels(labels).Some?
    ensures |EncodeLabels(labels).value| >= 1
    ensures DecodeLabels(EncodeLabels(labels).value + rest)
         == Some(Read(Leading(labels), |EncodeLabels(labels).value| - if Leading(labels) == labels then 0 else 1))
    decreases |labels|
  {
    hide DecodeLabels;
    if labels == [] {
      DecodeEnd(rest);
    } else if labels[0] == [] {
      DecodeEnd([0] + rest);
      assert [0] + ([0] + rest) == [0, 0] + rest;
    } else {
      var l, e1 := labels[0], EncodeLabels(labels[1..]).value;
      LabelsRoundTrip(labels[1..], rest);
      DecodeCons(l, e1 + rest);
      assert [|l| as byte] + l + (e1 + rest) == ([|l| as byte] + l + e1) + rest;
      assert Leading(labels) == labels <==> Leading(labels[1..]) == labels[1..] by {
        assert labels == [l] + labels[1..];
        assert ([l] + Leading(labels[1..]))[1..] == Leading(labels[1..]);
      }
    }
  }

  lemma DecodeEnd(rest: Bytes)
    ensures DecodeLabels([0] + rest) == Some(Read([], 1))
  {
    assert ([0] + rest)[0] == 0;
  }

  lemma HeadAndTail(labels: seq<Bytes>)
    requires labels != []
    ensures forall l :: l in labels <==> l == labels[0] || l in labels[1..]
  {
    assert labels == [labels[0]] + labels[1..];
    assert labels[0] in labels;
  }

  lemma {:induction false} LeadingAll(labels: seq<Bytes>)
    ensures Leading(labels) == labels <==> forall l :: l in labels ==> l != []
    ensures |Dotted(Leading(labels))| <= |Dotted(labels)|
    ensures Leading(labels) != labels ==> |Dotted(Leading(labels))| < |Dotted(labels)|
  {
    if labels != [] {
      LeadingAll(labels[1..]);
      HeadAndTail(labels);
      assert labels[0] in labels;
      if labels[0] != [] {
        assert Leading(labels)[1..] == Leading(labels[1..]);
        assert Leading(labels) == labels <==> Leading(labels[1..]) == labels[1..];
      }
    }
  }

  lemma {:induction false} EncodesIff(labels: seq<Bytes>)
    requires forall l :: l in labels ==> l != []
    ensures EncodeLabels(labels).Some? <==> forall l :: l in labels ==> |l| <= MAX_LABEL
  {
    if labels != [] {
      HeadAndTail(labels);
      assert labels[0] in labels;
      EncodesIff(labels[1..]);
    }
  }

  /** Putting a dot after every part gives the text back, plus a dot unless it ends in one. */
  lemma {:induction false} DottedLines(s: Bytes)
    ensures Dotted(Lines(s)) == if s == [] || s[|s| - 1] == DOT then s else s + [DOT]
    decreases |s|
  {
    if s != [] {
      var i := FirstDot(s);
      if i < |s| {
        DottedLines(s[i + 1..]);
        DottedCons(s[..i], Lines(s[i + 1..]));
        RejoinDot(s, i);
      } else {
        DottedCons(s, []);
        assert [s] + [] == [s];
        assert s[|s| - 1] != DOT;
      }
    }
  }

  lemma RejoinDot(s: Bytes, i: nat)
    requires i < |s| && s[i] == DOT
    ensures var t := s[i + 1..];
            && s == s[..i] + [DOT] + t
            && s[..i] + [DOT] + (t + [DOT]) == s + [DOT]
            && (t == [] ==> s[|s| - 1] == DOT)
            && (t != [] ==> s[|s| - 1] == t[|t| - 1])
  {
    var t := s[i + 1..];
    assert s == s[..i] + [DOT] + t;
    assert s[..i] + [DOT] + (t + [DOT]) == (s[..i] + [DOT] + t) + [DOT];
  }

  lemma DottedCons(l: Bytes, labels: seq<Bytes>)
    ensures Dotted([l] + labels) == l + [DOT] + Dotted(labels)
  {
    assert ([l] + labels)[1..] == labels;
  }

  /** The text of the labels before the first empty one is the canonical name exactly for proper
      names. */
  lemma CanonicalIff(name: Bytes)
    requires forall l :: l in Labels(name) ==> |l| <= MAX_LABEL || exists m :: m in Labels(name) && m == []
    ensures Dotted(Leading(Labels(name))) == Canonical(name) <==> NameOk(name)
    ensures NameOk(name) ==> Leading(Labels(name)) == Labels(name)
  {
    hide Lines, Dotted, Leading;
    DottedLines(Stripped(name));
    LeadingAll(Labels(name));
    NoLabelsIsRoot(name);
  }

  lemma {:induction false} EncodedIsShort(labels: seq<Bytes>)
    requires EncodeLabels(labels).Some?
    ensures forall l :: l in labels ==> |l| <= MAX_LABEL || exists m :: m in labels && m == []
  {
    if forall l :: l in labels ==> l != [] { EncodesIff(labels); }
  }

  /** A name survives the wire, in trailing-dot form and with exactly the written bytes consumed,
      if and only if it is a proper name; and if it is not, another name is read. */
  lemma NameRoundTripIff(name: Bytes, rest: Bytes)
    ensures NameOk(name) ==> EncodeName(name).Some?
    ensures EncodeName(name).Some? ==> DecodeName(EncodeName(name).value + rest).Some?
    ensures EncodeName(name).Some? ==>
              (DecodeName(EncodeName(name).value + rest).value.what == Canonical(name) <==> NameOk(name))
    ensures NameOk(name) ==>
              DecodeName(EncodeName(name).value + rest) == Some(Read(Canonical(name), |EncodeName(name).value|))
  {
    hide EncodeLabels, DecodeLabels, Dotted, Leading, Labels, Canonical;
    if NameOk(name) {
      assert forall l :: l in Labels(name) ==> LabelOk(l);
      EncodesIff(Labels(name));
    }
    if EncodeName(name).Some? {
      LabelsRoundTrip(Labels(name), rest);
      EncodedIsShort(Labels(name));
      CanonicalIff(name);
    }
  }

  lemma NoLabelsIsRoot(name: Bytes)
    ensures Stripped(name) == [] ==> Labels(name) == []
  {
  }

  // ----- the wire form

  /** Section 3.1 of RFC 1035: each label after its length, and a zero byte. */
  function Wire(labels: seq<Bytes>): Bytes
    requires WireOk(labels)
  {
    if labels == [] then [0] else [|labels[0]| as byte] + labels[0] + Wire(labels[1..])
  }

  /** Labels that a length byte can announce. */
  predicate WireOk(labels: seq<Bytes>) { forall i :: 0 <= i < |labels| ==> 1 <= |labels[i]| <= 255 }

  lemma {:induction false} DecodedIsWire(s: Bytes)
    requires DecodeLabels(s).Some?
    ensures var r := DecodeLabels(s).value;
            WireOk(r.what) && r.used <= |s| && s[..r.used] == Wire(r.what)
    decreases |s|
  {
    var l := s[0] as nat;
    if l > 0 {
      var tail := s[1 + l..];
      DecodedIsWire(tail);
      var r := DecodeLabels(tail).value;
      assert ([s[1..1 + l]] + r.what)[1..] == r.what;
      assert s[..1 + l + r.used] == [s[0]] + s[1..1 + l] + tail[..r.used];
    } else {
      assert s[..1] == [0];
    }
  }

  lemma {:induction false} WireDecodes(labels: seq<Bytes>, rest: Bytes)
    requires WireOk(labels)
    ensures DecodeLabels(Wire(labels) + rest) == Some(Read(labels, |Wire(labels)|))
    decreases |labels|
  {
    hide DecodeLabels;
    if labels == [] {
      DecodeEnd(rest);
    } else {
      var l, tail := labels[0], Wire(labels[1..]);
      WireDecodes(labels[1..], rest);
      DecodeCons(l, tail + rest);
      assert Wire(labels) + rest == [|l| as byte] + l + (tail + rest);
      assert [l] + labels[1..] == labels;
    }
  }

  /** Labels are read from a buffer exactly if it starts with their wire form, and just that is taken: no
      other bytes are accepted. */
  lemma DecodeLabelsIff(s: Bytes, labels: seq<Bytes>, used: nat)
    ensures DecodeLabels(s) == Some(Read(labels, used))
       <==> WireOk(labels) && used == |Wire(labels)| && Wire(labels) <= s
  {
    hide DecodeLabels, Wire, WireOk;
    if DecodeLabels(s) == Some(Read(labels, used)) { DecodedIsWire(s); }
    if WireOk(labels) && Wire(labels) <= s {
      WireDecodes(labels, s[|Wire(labels)|..]);
      assert s == Wire(labels) + s[|Wire(labels)|..];
    }
  }

  /** What is written: the wire form of the labels before the first empty one, and one more zero byte if
      there is such a one; nothing exactly if one of those labels is longer than 63 bytes. */
  lemma {:induction false} EncodeLabelsIs(labels: seq<Bytes>)
    ensures var head, e := Leading(labels), EncodeLabels(labels);
            && (e.None? <==> exists i :: 0 <= i < |head| && |head[i]| > 63)
            && (e.Some? ==> WireOk(head) && e.value == Wire(head) + (if head == labels then [] else [0]))
    decreases |labels|
  {
    if labels == [] {
    } else if labels[0] == [] {
      assert Wire([]) + [0] == [0, 0];
    } else {
      var l, head, head1 := labels[0], Leading(labels), Leading(labels[1..]);
      EncodeLabelsIs(labels[1..]);
      assert head == [l] + head1 && head[1..] == head1 && labels == [l] + labels[1..];
      assert head == labels <==> head1 == labels[1..];
      assert |l| > 63 ==> |head[0]| > 63;
      assert forall i :: 0 <= i < |head1| ==> head[i + 1] == head1[i];
      if EncodeLabels(labels).Some? {
        assert Wire(head) == [|l| as byte] + l + Wire(head1);
      }
    }
  }

  /** The trailing-dot form: a dot is put at the end unless there is one; the root is the empty text. */
  lemma CanonicalIs(name: Bytes)
    ensures DOT !in name && name != [] ==> Canonical(name) == name + [DOT] == Canonical(name + [DOT])
    ensures |name| > 1 && name[|name| - 1] == DOT ==> Canonical(name) == name
    ensures Canonical([]) == [] && Canonical([DOT]) == []
  {
    assert (name + [DOT])[..|name|] == name;
    if |name| > 1 && name[|name| - 1] == DOT { assert name == name[..|name| - 1] + [DOT]; }
  }

  /** The parts between dots hold no dot; so together with their order and length, which DottedLines fixes,
      there is only one way to split. */
  lemma {:induction false} LinesHaveNoDots(s: Bytes)
    ensures forall l :: l in Lines(s) ==> DOT !in l
    decreases |s|
  {
    if s != [] {
      var i := FirstDot(s);
      if i < |s| { LinesHaveNoDots(s[i + 1..]); }
    }
  }

  // ----- room

  /** The loop writes a length byte, and at the end a zero byte, without looking at the space left; only
      the bytes of a label are checked. With this much space none of those writes leaves the buffer. */
  predicate InBounds(labels: seq<Bytes>, left: nat)
  {
    if labels == [] then left >= 1
    else
      var l := |labels[0]|;
      || l > MAX_LABEL
      || (left >= 1 && (left - 1 < l || (if l == 0 then left >= 2 else InBounds(labels[1..], left - 1 - l))))
  }

  /** Room for the text and two bytes is enough. */
  lemma {:induction false} RoomSuffices(labels: seq<Bytes>, left: nat)
    requires |Dotted(labels)| + 1 <= left
    ensures InBounds(labels, left)
  {
    if labels != [] && 0 < |labels[0]| <= MAX_LABEL { RoomSuffices(labels[1..], left - 1 - |labels[0]|); }
  }

  lemma NameRoomSuffices(name: Bytes, left: nat)
    requires |name| + 2 <= left
    ensures InBounds(Labels(name), left)
  {
    hide Dotted, Lines;
    DottedLines(Stripped(name));
    RoomSuffices(Labels(name), left);
  }
}
