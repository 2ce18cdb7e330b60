/** Service node addresses (contrib/hex-to-base32z.py): a 256-bit key in hexadecimal, regrouped into
    5-bit digits of the z-base-32 alphabet, and back. */
module Base32z {
  import opened Common

  const ALPHABET: string := "ybndrfg8ejkmcpqxot1uwisza345h769"

  // ----- digits

  /** int(x, 16) of one character. */
  function HexDigit(c: char): (d: Option<nat>)
    ensures d.Some? ==> d.value < 16
  {
    if '0' <= c <= '9' then Some((c - '0') as nat)
    else if 'a' <= c <= 'f' then Some((c - 'a') as nat + 10)
    else if 'A' <= c <= 'F' then Some((c - 'A') as nat + 10)
    else None
  }

  function HexChar(d: nat): char
    requires d < 16
  {
    if d < 10 then '0' + d as char else 'a' + (d - 10) as char
  }

  /** Both cases of the sixteen digits are read, and nothing else; the lower case is written. */
  lemma HexDigitIs(c: char, d: nat)
    requires d < 16
    ensures HexDigit(c) == Some(d) <==> c == "0123456789abcdef"[d] || c == "0123456789ABCDEF"[d]
    ensures HexChar(d) == "0123456789abcdef"[d]
  {
  }

  /** base32z_map. */
  function ZDigit(c: char): (d: Option<nat>)
    ensures d.Some? ==> d.value < 32
  {
    if c == 'y' then Some(0)
    else if c == 'b' then Some(1)
    else if c == 'n' then Some(2)
    else if c == 'd' then Some(3)
    else if c == 'r' then Some(4)
    else if c == 'f' then Some(5)
    else if c == 'g' then Some(6)
    else if c == '8' then Some(7)
    else if c == 'e' then Some(8)
    else if c == 'j' then Some(9)
    else if c == 'k' then Some(10)
    else if c == 'm' then Some(11)
    else if c == 'c' then Some(12)
    else if c == 'p' then Some(13)
    else if c == 'q' then Some(14)
    else if c == 'x' then Some(15)
    else if c == 'o' then Some(16)
    else if c == 't' then Some(17)
    else if c == '1' then Some(18)
    else if c == 'u' then Some(19)
    else if c == 'w' then Some(20)
    else if c == 'i' then Some(21)
    else if c == 's' then Some(22)
    else if c == 'z' then Some(23)
    else if c == 'a' then Some(24)
    else if c == '3' then Some(25)
    else if c == '4' then Some(26)
    else if c == '5' then Some(27)
    else if c == 'h' then Some(28)
    else if c == '7' then Some(29)
    else if c == '6' then Some(30)
    else if c == '9' then Some(31)
    else None
  }

  lemma ZDigitOfAlphabet(v: nat)
    requires v < |ALPHABET|
    ensures ZDigit(ALPHABET[v]) == Some(v)
  {
  }

  lemma AlphabetOfZDigit(c: char)
    requires ZDigit(c).Some?
    ensures ALPHABET[ZDigit(c).value] == c
  {
  }

  /** One pending bit leaves y or o. */
  lemma LastDigit(v: nat)
    requires v == 0 || v == 16
    ensures ALPHABET[v] in "yo"
  {
  }

  // ----- numbers

  function Power(b: nat, n: nat): nat { if n == 0 then 1 else b * Power(b, n - 1) }

  predicate IsHex(s: string) { forall i :: 0 <= i < |s| ==> HexDigit(s[i]).Some? }

  predicate IsZ(s: string) { forall i :: 0 <= i < |s| ==> ZDigit(s[i]).Some? }

  function HexValue(s: string): nat
    requires IsHex(s)
  {
    if s == "" then 0 else 16 * HexValue(s[..|s| - 1]) + HexDigit(s[|s| - 1]).value
  }

  function ZValue(s: string): nat
    requires IsZ(s)
  {
    if s == "" then 0 else 32 * ZValue(s[..|s| - 1]) + ZDigit(s[|s| - 1]).value
  }

  lemma ZValueSnoc(s: string, c: char)
    requires IsZ(s) && ZDigit(c).Some?
    ensures IsZ(s + [c]) && ZValue(s + [c]) == 32 * ZValue(s) + ZDigit(c).value
  {
    assert (s + [c])[..|s|] == s;
  }

  lemma HexValueSnoc(s: string, i: nat)
    requires i < |s| && IsHex(s[..i]) && HexDigit(s[i]).Some?
    ensures IsHex(s[..i + 1]) && HexValue(s[..i + 1]) == 16 * HexValue(s[..i]) + HexDigit(s[i]).value
  {
    assert s[..i + 1][..i] == s[..i];
  }

  /** 2 to the number of pending bits. */
  function Shift(bits: nat): (r: nat)
    requires bits < 5
    ensures r > 0
  {
    [1, 2, 4, 8, 16][bits]
  }

  function ShiftRight(val: nat, bits: nat): nat requires bits < 5 { val / Shift(bits) }

  function LowBits(val: nat, bits: nat): nat requires bits < 5 { val % Shift(bits) }

  function ShiftLeft(val: nat, bits: nat): nat requires bits < 5 { val * Shift(bits) }

  // ----- encoding

  /** One step of the regrouping: four more bits in, and five out when there are as many. */
  lemma Regroup(z: nat, val: nat, bits: nat, hex: nat, d: nat)
    requires bits < 5 && z * Shift(bits) + val == hex && val < Shift(bits) && d < 16
    ensures bits == 0 ==> z * Shift(4) + (val * 16 + d) == 16 * hex + d && val * 16 + d < Shift(4)
    ensures bits > 0 ==>
              var b, v := bits - 1, val * 16 + d;
              && ShiftRight(v, b) < 32 && LowBits(v, b) < Shift(b)
              && (32 * z + ShiftRight(v, b)) * Shift(b) + LowBits(v, b) == 16 * hex + d
  {
    if bits > 0 {
      var b, v := bits - 1, val * 16 + d;
      assert v == ShiftRight(v, b) * Shift(b) + LowBits(v, b);
      if bits == 1 {} else if bits == 2 {} else if bits == 3 {} else {}
    }
  }

  /** The digits and the pending bits together spell the number read so far. */
  predicate Regrouped(digits: string, bits: nat, val: nat, hex: nat)
  {
    bits < 5 && val < Shift(bits) && IsZ(digits) && ZValue(digits) * Shift(bits) + val == hex
  }

  lemma RegroupedStart(s: string)
    ensures IsHex(s[..0]) && Regrouped("", 0, 0, HexValue(s[..0]))
  {
    assert s[..0] == "";
  }

  /** One hexadecimal digit more. */
  lemma RegroupedStep(digits: string, bits: nat, val: nat, hex: nat, d: nat)
    requires Regrouped(digits, bits, val, hex) && d < 16
    ensures bits == 0 ==> Regrouped(digits, 4, val * 16 + d, 16 * hex + d)
    ensures bits > 0 ==>
              var b, v := bits - 1, val * 16 + d;
              && b < 4 && ShiftRight(v, b) < 32
              && Regrouped(digits + [ALPHABET[ShiftRight(v, b)]], b, LowBits(v, b), 16 * hex + d)
  {
    Regroup(ZValue(digits), val, bits, hex, d);
    if bits > 0 {
      var v := ShiftRight(val * 16 + d, bits - 1);
      ZDigitOfAlphabet(v);
      ZValueSnoc(digits, ALPHABET[v]);
    }
  }

  /** The one bit that is left becomes the first of a last digit. */
  lemma RegroupedEnd(digits: string, val: nat, hex: nat)
    requires Regrouped(digits, 1, val, hex)
    ensures ShiftLeft(val, 4) < 32
    ensures var s := digits + [ALPHABET[ShiftLeft(val, 4)]]; IsZ(s) && ZValue(s) == 16 * hex && s[|digits|] in "yo"
  {
    ZDigitOfAlphabet(val * 16);
    ZValueSnoc(digits, ALPHABET[val * 16]);
    LastDigit(val * 16);
  }

  /** Fails for anything but 64 hexadecimal digits. Otherwise the 52 characters spell the key's number
      followed by four zero bits, so the last is y or o. */
  method SnodeAddr(pkHex: string) returns (ok: bool, digits: string, addr: string)
    ensures ok <==> |pkHex| == 64 && IsHex(pkHex)
    ensures ok ==> addr == digits + ".snode" && |digits| == 52 && IsZ(digits)
    ensures ok ==> ZValue(digits) == 16 * HexValue(pkHex) && digits[51] in "yo"
  {
    hide ZDigit, HexDigit, Regrouped, ZValue, HexValue, ShiftRight, LowBits, ShiftLeft;
    digits, addr := "", "";
    if |pkHex| != 64 { return false, digits, addr; }
    var bits, val := 0, 0;
    var i := 0;
    RegroupedStart(pkHex);
    while i < |pkHex|
      invariant 0 <= i <= |pkHex| && 0 <= bits < 5 && 0 <= val
      invariant 5 * |digits| + bits == 4 * i
      invariant IsHex(pkHex[..i]) && Regrouped(digits, bits, val, HexValue(pkHex[..i]))
    {
      var x := HexDigit(pkHex[i]);
      if x.None? { return false, digits, addr; }
      HexValueSnoc(pkHex, i);
      RegroupedStep(digits, bits, val, HexValue(pkHex[..i]), x.value);
      bits := bits + 4;
      val := val * 16 + x.value;
      if bits >= 5 {
        bits := bits - 5;
        var v := ShiftRight(val, bits);
        val := LowBits(val, bits);
        digits := digits + [ALPHABET[v]];
      }
      i := i + 1;
    }
    assert pkHex[..i] == pkHex;
    RegroupedEnd(digits, val, HexValue(pkHex));
    digits := digits + [ALPHABET[ShiftLeft(val, 5 - bits)]];
    return true, digits, digits + ".snode";
  }

  // ----- decoding

  function ToHex(n: nat): (s: string)
    ensures s != ""
  {
    if n < 16 then [HexChar(n)] else ToHex(n / 16) + [HexChar(n % 16)]
  }

  function Spaces(n: nat): string { seq(n, i => ' ') }

  /** "{:64x}".format(n): no leading zeros, filled up with blanks on the left. */
  function Format64(n: nat): string
  {
    var s := ToHex(n);
    if |s| < 64 then Spaces(64 - |s|) + s else s
  }

  method HexFromSnode(b32z: string) returns (ok: bool, hex: string)
    ensures ok <==> |b32z| == 52 && IsZ(b32z) && b32z[51] in "yo"
    ensures ok ==> hex == Format64(ZValue(b32z) / 16)
  {
    hex := "";
    if |b32z| != 52 { return false, hex; }
    var val := 0;
    var i := 0;
    while i < |b32z|
      invariant 0 <= i <= |b32z| && IsZ(b32z[..i]) && val == ZValue(b32z[..i])
    {
      var d := ZDigit(b32z[i]);
      if d.None? { return false, hex; }
      ZValueSnoc(b32z[..i], b32z[i]);
      assert b32z[..i + 1] == b32z[..i] + [b32z[i]];
      val := val * 32 + d.value;
      i := i + 1;
    }
    assert b32z[..i] == b32z;
    if b32z[51] !in "yo" { return false, hex; }
    return true, Format64(val / 16);
  }

  // ----- round trip

  /** The number survives for every key. */
  lemma NumberSurvives(pkHex: string, digits: string)
    requires IsHex(pkHex) && IsZ(digits) && ZValue(digits) == 16 * HexValue(pkHex)
    ensures ZValue(digits) / 16 == HexValue(pkHex)
  {
  }

  /** A number has one spelling of a given length. */
  lemma {:induction false} SpellingUnique(s: string, t: string)
    requires IsZ(s) && IsZ(t) && |s| == |t|
    ensures ZValue(s) == ZValue(t) <==> s == t
    decreases |s|
  {
    hide ZDigit;
    if s != "" && ZValue(s) == ZValue(t) {
      var n := |s| - 1;
      assert s == s[..n] + [s[n]] && t == t[..n] + [t[n]];
      AlphabetOfZDigit(s[n]);
      AlphabetOfZDigit(t[n]);
      SpellingUnique(s[..n], t[..n]);
    }
  }

  /** Two keys get the same address exactly if they are the same number. */
  method AddressesOf(first: string, second: string) returns (a: string, b: string)
    requires |first| == |second| == 64 && IsHex(first) && IsHex(second)
    ensures a == b <==> HexValue(first) == HexValue(second)
  {
    hide HexValue, ZValue, HexDigit, ZDigit;
    var ok, s, t;
    ok, s, a := SnodeAddr(first);
    ok, t, b := SnodeAddr(second);
    SpellingUnique(s, t);
    assert a[..52] == s && b[..52] == t;
  }

  function LowerDigit(c: char): char
  {
    if HexDigit(c).Some? then HexChar(HexDigit(c).value) else c
  }

  function Lower(s: string): (t: string)
    ensures |t| == |s|
  {
    seq(|s|, i requires 0 <= i < |s| => LowerDigit(s[i]))
  }

  lemma HexDigitOfChar(c: char)
    requires HexDigit(c).Some?
    ensures HexDigit(c).value == 0 <==> c == '0'
    ensures LowerDigit(c) == c <==> !('A' <= c <= 'F')
  {
  }

  /** A text without a leading zero has a number of that many digits, which prints as the text in
      lower case. */
  lemma {:induction false} HexRoundTrip(s: string)
    requires IsHex(s) && s != "" && s[0] != '0'
    ensures HexValue(s) > 0 && ToHex(HexValue(s)) == Lower(s)
    decreases |s|
  {
    hide HexDigit, HexChar;
    var n := |s| - 1;
    var front, d := s[..n], HexDigit(s[n]).value;
    if n == 0 {
      assert HexValue(front) == 0;
      HexDigitOfChar(s[0]);
      assert Lower(s) == [HexChar(d)];
    } else {
      HexRoundTrip(front);
      var v := HexValue(front);
      assert (16 * v + d) / 16 == v && (16 * v + d) % 16 == d;
      assert Lower(s) == Lower(front) + [HexChar(d)];
    }
  }

  lemma {:induction false} ToHexLength(n: nat, k: nat)
    requires k > 0 && n < Power(16, k)
    ensures |ToHex(n)| <= k
    decreases k
  {
    if n >= 16 { ToHexLength(n / 16, k - 1); }
  }

  lemma {:induction false} LeadingZero(s: string)
    requires IsHex(s) && |s| > 1 && s[0] == '0'
    ensures HexValue(s) < Power(16, |s| - 1)
    decreases |s|
  {
    var n := |s| - 1;
    if n > 1 {
      LeadingZero(s[..n]);
    } else {
      assert s[..1] == ['0'] && s[..1][..0] == "";
      assert HexValue(s[..1]) == 0;
      assert Power(16, 1) == 16;
    }
  }

  predicate NoUpperCase(s: string) { forall i :: 0 <= i < |s| ==> !('A' <= s[i] <= 'F') }

  lemma LowerIsSameIff(s: string)
    requires IsHex(s)
    ensures Lower(s) == s <==> NoUpperCase(s)
  {
    var low := Lower(s);
    forall i | 0 <= i < |s|
      ensures low[i] == s[i] <==> !('A' <= s[i] <= 'F')
    {
      HexDigitOfChar(s[i]);
    }
  }

  /** Decoding the address prints the key again exactly if the key has no leading zero digit and no
      upper-case digit; otherwise the text differs, although the number is the same. */
  lemma TextSurvivesIff(pkHex: string)
    requires |pkHex| == 64 && IsHex(pkHex)
    ensures Format64(HexValue(pkHex)) == pkHex <==> pkHex[0] != '0' && NoUpperCase(pkHex)
  {
    hide HexDigit, HexValue, ToHex, LowerDigit;
    if pkHex[0] == '0' {
      LeadingZero(pkHex);
      ToHexLength(HexValue(pkHex), 63);
      assert Format64(HexValue(pkHex))[0] == ' ';
    } else {
      HexRoundTrip(pkHex);
      LowerIsSameIff(pkHex);
    }
  }

  lemma {:induction false} ZerosCountNothing(z: nat, s: string)
    requires IsHex(s)
    ensures var t := seq(z, i => '0') + s; IsHex(t) && HexValue(t) == HexValue(s)
    decreases z + |s|
  {
    hide HexDigit;
    ZeroDigit();
    var zeros := seq(z, i => '0');
    var t := zeros + s;
    if s != "" {
      var n := |s| - 1;
      assert t[..|t| - 1] == zeros + s[..n];
      ZerosCountNothing(z, s[..n]);
    } else if z > 0 {
      assert t[..|t| - 1] == seq(z - 1, i => '0') + s;
      ZerosCountNothing(z - 1, s);
    } else {
      assert t == s;
    }
  }

  lemma ZeroDigit()
    ensures HexDigit('0') == Some(0)
  {
  }

  /** What is printed instead: the leading zeros become blanks, and the rest is in lower case. */
  lemma TextPrintedIs(z: nat, rest: string)
    requires z + |rest| == 64 && IsHex(rest) && rest != "" && rest[0] != '0'
    ensures var key := seq(z, i => '0') + rest;
            IsHex(key) && Format64(HexValue(key)) == seq(z, i => ' ') + Lower(rest)
  {
    hide HexDigit, HexValue, ToHex, LowerDigit;
    ZerosCountNothing(z, rest);
    HexRoundTrip(rest);
    assert z == 0 ==> seq(z, i => ' ') + Lower(rest) == Lower(rest);
  }

  /** The key of all zeros does not come back. */
  lemma ZerosPrintAsBlanks()
    ensures var zeros := seq(64, i => '0');
            IsHex(zeros) && Format64(HexValue(zeros)) != zeros
  {
    hide HexValue, Format64;
    TextSurvivesIff(seq(64, i => '0'));
  }

  /** Encoding and then decoding, as the two functions do it. */
  method ThereAndBack(pkHex: string) returns (hex: string)
    requires |pkHex| == 64 && IsHex(pkHex)
    ensures hex == Format64(HexValue(pkHex))
    ensures hex == pkHex <==> pkHex[0] != '0' && NoUpperCase(pkHex)
  {
    var ok, digits, addr := SnodeAddr(pkHex);
    NumberSurvives(pkHex, digits);
    TextSurvivesIff(pkHex);
    ok, hex := HexFromSnode(digits);
  }
}
