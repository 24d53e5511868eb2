/**
 `encodeURIComponent` and `decodeURIComponent`: UTF-8 octets written as `%XX`
 (section 2.1 of RFC 3986) except for the characters that stand for themselves.
 */
module PercentEncoding {
  import opened Strings

  predicate IsUnreserved(c: char) {
    'A' <= c <= 'Z' || 'a' <= c <= 'z' || '0' <= c <= '9' ||
    c in {'-', '_', '.', '!', '~', '*', '\'', '(', ')'}
  }

  function HexDigit(n: nat): (c: char)
    requires n < 16
  {
    if n < 10 then '0' + n as char else 'A' + (n - 10) as char
  }

  function HexValue(c: char): Option<nat> {
    if '0' <= c <= '9' then Some(c as int - '0' as int)
    else if 'A' <= c <= 'F' then Some(c as int - 'A' as int + 10)
    else if 'a' <= c <= 'f' then Some(c as int - 'a' as int + 10)
    else None
  }

  type Octet = b: nat | b < 256

  function Escape(b: Octet): string { ['%', HexDigit(b / 16), HexDigit(b % 16)] }

  /** The UTF-8 octets of a code point. */
  function Utf8(c: char): (octets: seq<Octet>)
    ensures 1 <= |octets| <= 4
  {
    var n := c as int;
    if n < 0x80 then [n]
    else if n < 0x800 then [0xC0 + n / 64, 0x80 + n % 64]
    else if n < 0x1_0000 then [0xE0 + n / 4096, 0x80 + n / 64 % 64, 0x80 + n % 64]
    else [0xF0 + n / 262144, 0x80 + n / 4096 % 64, 0x80 + n / 64 % 64, 0x80 + n % 64]
  }

  function EscapeAll(octets: seq<Octet>): string {
    if octets == [] then "" else Escape(octets[0]) + EscapeAll(octets[1..])
  }

  function EncodeChar(c: char): string {
    if IsUnreserved(c) then [c] else EscapeAll(Utf8(c))
  }

  function Encode(s: string): string {
    if s == "" then "" else EncodeChar(s[0]) + Encode(s[1..])
  }

  datatype Read<+T> = Read(value: T, rest: string)

  function ReadOctet(s: string): (r: Option<Read<Octet>>)
    ensures r.Some? ==> |r.value.rest| + 3 == |s|
  {
    if |s| < 3 || s[0] != '%' then None
    else
      var hi, lo := HexValue(s[1]), HexValue(s[2]);
      if hi.None? || lo.None? then None else Some(Read(hi.value * 16 + lo.value, s[3..]))
  }

  /** `count` continuation octets, six bits each, after the bits in `bits`. */
  function ReadContinuation(s: string, count: nat, bits: nat): (r: Option<Read<nat>>)
    ensures r.Some? ==> |r.value.rest| <= |s|
    decreases count
  {
    if count == 0 then Some(Read(bits, s))
    else
      var octet := ReadOctet(s);
      if octet.None? || !(0x80 <= octet.value.value < 0xC0) then None
      else ReadContinuation(octet.value.rest, count - 1, bits * 64 + (octet.value.value - 0x80))
  }

  /** A code point that is no surrogate and was not written longer than it needs. */
  function ToChar(r: Option<Read<nat>>, least: nat): Option<Read<char>> {
    if r.Some? && least <= r.value.value <= 0x10_FFFF && !(0xD800 <= r.value.value < 0xE000) then
      Some(Read(r.value.value as char, r.value.rest))
    else None
  }

  /** One character, as itself or as escaped octets. */
  function ReadChar(s: string): (r: Option<Read<char>>)
    requires s != ""
    ensures r.Some? ==> |r.value.rest| < |s|
  {
    if s[0] != '%' then Some(Read(s[0], s[1..]))
    else
      var first := ReadOctet(s);
      if first.None? then None
      else
        var b, rest := first.value.value, first.value.rest;
        if b < 0x80 then Some(Read(b as char, rest))
        else if 0xC0 <= b < 0xE0 then ToChar(ReadContinuation(rest, 1, b - 0xC0), 0x80)
        else if 0xE0 <= b < 0xF0 then ToChar(ReadContinuation(rest, 2, b - 0xE0), 0x800)
        else if 0xF0 <= b < 0xF8 then ToChar(ReadContinuation(rest, 3, b - 0xF0), 0x1_0000)
        else None
  }

  /** `None` is the URIError. */
  function Decode(s: string): Option<string>
    decreases |s|
  {
    if s == "" then Some("")
    else
      var c := ReadChar(s);
      if c.None? then None
      else
        var rest := Decode(c.value.rest);
        if rest.None? then None else Some([c.value.value] + rest.value)
  }

  // ---------------------------------------------------------------- laws

  lemma ReadNextContinuation(b: Octet, tail: string, count: nat, bits: nat)
    requires 0x80 <= b < 0xC0
    ensures ReadContinuation(Escape(b) + tail, count + 1, bits) == ReadContinuation(tail, count, bits * 64 + (b - 0x80))
  {
  }

  lemma {:induction false} EscapedContinuation1(b1: Octet, rest: string, bits: nat)
    requires 0x80 <= b1 < 0xC0
    ensures ReadContinuation(Escape(b1) + rest, 1, bits) == Some(Read(bits * 64 + (b1 - 0x80), rest))
  {
  }

  lemma {:induction false} EscapedContinuation2(b1: Octet, b2: Octet, rest: string, bits: nat)
    requires 0x80 <= b1 < 0xC0 && 0x80 <= b2 < 0xC0
    ensures ReadContinuation(Escape(b1) + (Escape(b2) + rest), 2, bits) ==
      Some(Read((bits * 64 + (b1 - 0x80)) * 64 + (b2 - 0x80), rest))
  {
    hide Escape, ReadContinuation;
    ReadNextContinuation(b1, Escape(b2) + rest, 1, bits);
    EscapedContinuation1(b2, rest, bits * 64 + (b1 - 0x80));
  }

  lemma {:induction false} EscapedContinuation3(b1: Octet, b2: Octet, b3: Octet, rest: string, bits: nat)
    requires 0x80 <= b1 < 0xC0 && 0x80 <= b2 < 0xC0 && 0x80 <= b3 < 0xC0
    ensures ReadContinuation(Escape(b1) + (Escape(b2) + (Escape(b3) + rest)), 3, bits) ==
      Some(Read(((bits * 64 + (b1 - 0x80)) * 64 + (b2 - 0x80)) * 64 + (b3 - 0x80), rest))
  {
    hide Escape, ReadContinuation;
    ReadNextContinuation(b1, Escape(b2) + (Escape(b3) + rest), 2, bits);
    EscapedContinuation2(b2, b3, rest, bits * 64 + (b1 - 0x80));
  }

  lemma {:induction false} EscapeAllOf(octets: seq<Octet>, rest: string)
    ensures |octets| > 0 ==> EscapeAll(octets) + rest == Escape(octets[0]) + (EscapeAll(octets[1..]) + rest)
    ensures |octets| == 0 ==> EscapeAll(octets) + rest == rest
  {
    hide Escape, EscapeAll;
    EscapeAllStep(octets);
    if |octets| > 0 {
      Associative(Escape(octets[0]), EscapeAll(octets[1..]), rest);
    } else {
      NothingBefore(rest);
    }
  }

  lemma Associative(a: string, b: string, c: string)
    ensures (a + b) + c == a + (b + c)
  {
  }

  lemma NothingBefore(s: string)
    ensures "" + s == s
  {
  }

  lemma {:induction false} EscapeAllStep(octets: seq<Octet>)
    ensures EscapeAll(octets) == if octets == [] then "" else Escape(octets[0]) + EscapeAll(octets[1..])
  {
    hide Escape;
  }

  lemma ReadEncodedChar(c: char, rest: string)
    ensures EncodeChar(c) + rest != ""
    ensures ReadChar(EncodeChar(c) + rest) == Some(Read(c, rest))
  {
    if IsUnreserved(c) {
      assert ([c] + rest)[1..] == rest;
    } else {
      ReadEscapedChar(c, rest);
    }
  }

  lemma EscapeStarts(b: Octet, tail: string)
    ensures Escape(b) + tail != "" && (Escape(b) + tail)[0] == '%'
    ensures ReadOctet(Escape(b) + tail) == Some(Read(b, tail))
  {
  }

  lemma CharIsScalar(c: char)
    ensures 0 <= c as int <= 0x10_FFFF && !(0xD800 <= c as int < 0xE000) && (c as int) as char == c
  {
  }

  /** The six-bit groups of a number put it together again. */
  lemma SixBitGroups(n: nat)
    ensures n / 64 * 64 + n % 64 == n
    ensures (n / 4096 * 64 + n / 64 % 64) * 64 + n % 64 == n
    ensures ((n / 262144 * 64 + n / 4096 % 64) * 64 + n / 64 % 64) * 64 + n % 64 == n
  {
    var a := n / 64;
    assert a * 64 + n % 64 == n;
    var b := a / 64;
    assert n / 4096 == b && b * 64 + a % 64 == a;
    assert n / 262144 == b / 64 && b / 64 * 64 + b % 64 == b;
  }

  lemma ReadOneOctet(c: char, rest: string)
    requires c as int < 0x80
    ensures var s := EscapeAll(Utf8(c)) + rest; s != "" && ReadChar(s) == Some(Read(c, rest))
  {
  }

  lemma ReadTwoOctets(c: char, rest: string)
    requires 0x80 <= c as int < 0x800
    ensures var s := EscapeAll(Utf8(c)) + rest; s != "" && ReadChar(s) == Some(Read(c, rest))
  {
    hide Escape, EscapeAll, ReadOctet, ReadContinuation;
    CharIsScalar(c);
    SixBitGroups(c as int);
    var o := Utf8(c);
    EscapeAllOf(o, rest);
    EscapeAllOf(o[1..], rest);
    EscapeAllOf(o[1..][1..], rest);
    EscapeStarts(o[0], EscapeAll(o[1..]) + rest);
    EscapedContinuation1(o[1], rest, c as int / 64);
  }

  lemma ReadThreeOctets(c: char, rest: string)
    requires 0x800 <= c as int < 0x1_0000
    ensures var s := EscapeAll(Utf8(c)) + rest; s != "" && ReadChar(s) == Some(Read(c, rest))
  {
    hide Escape, EscapeAll, ReadOctet, ReadContinuation;
    CharIsScalar(c);
    SixBitGroups(c as int);
    var o := Utf8(c);
    EscapeAllOf(o, rest);
    EscapeAllOf(o[1..], rest);
    EscapeAllOf(o[1..][1..], rest);
    EscapeAllOf(o[1..][1..][1..], rest);
    EscapeStarts(o[0], EscapeAll(o[1..]) + rest);
    EscapedContinuation2(o[1], o[2], rest, c as int / 4096);
  }

  lemma ReadFourOctets(c: char, rest: string)
    requires 0x1_0000 <= c as int
    ensures var s := EscapeAll(Utf8(c)) + rest; s != "" && ReadChar(s) == Some(Read(c, rest))
  {
    hide Escape, EscapeAll, ReadOctet, ReadContinuation;
    CharIsScalar(c);
    SixBitGroups(c as int);
    var o := Utf8(c);
    EscapeAllOf(o, rest);
    EscapeAllOf(o[1..], rest);
    EscapeAllOf(o[1..][1..], rest);
    EscapeAllOf(o[1..][1..][1..], rest);
    EscapeAllOf(o[1..][1..][1..][1..], rest);
    EscapeStarts(o[0], EscapeAll(o[1..]) + rest);
    EscapedContinuation3(o[1], o[2], o[3], rest, c as int / 262144);
  }

  lemma ReadEscapedChar(c: char, rest: string)
    ensures var s := EscapeAll(Utf8(c)) + rest; s != "" && ReadChar(s) == Some(Read(c, rest))
  {
    hide ReadChar, EscapeAll, Utf8;
    if c as int < 0x80 {
      ReadOneOctet(c, rest);
    } else if c as int < 0x800 {
      ReadTwoOctets(c, rest);
    } else if c as int < 0x1_0000 {
      ReadThreeOctets(c, rest);
    } else {
      ReadFourOctets(c, rest);
    }
  }

  /** Decoding undoes encoding, for every string. */
  lemma {:induction false} DecodeEncode(s: string)
    ensures Decode(Encode(s)) == Some(s)
  {
    if s != "" {
      hide ReadChar, EncodeChar;
      ReadEncodedChar(s[0], Encode(s[1..]));
      DecodeEncode(s[1..]);
      assert [s[0]] + s[1..] == s;
    }
  }

  lemma {:induction false} EncodeConcat(a: string, b: string)
    ensures Encode(a + b) == Encode(a) + Encode(b)
  {
    if a == "" {
      assert a + b == b;
    } else {
      assert (a + b)[1..] == a[1..] + b;
      EncodeConcat(a[1..], b);
    }
  }

  /** Encoded text holds only unreserved characters and `%`, so none of the separators of a URL. */
  lemma {:induction false} EncodedIsPlain(s: string)
    ensures forall i :: 0 <= i < |Encode(s)| ==> IsUnreserved(Encode(s)[i]) || Encode(s)[i] == '%'
  {
    if s != "" {
      EncodedIsPlain(s[1..]);
      if !IsUnreserved(s[0]) {
        EscapesArePlain(Utf8(s[0]));
      }
    }
  }

  lemma {:induction false} EscapesArePlain(octets: seq<Octet>)
    ensures forall i :: 0 <= i < |EscapeAll(octets)| ==>
      IsUnreserved(EscapeAll(octets)[i]) || EscapeAll(octets)[i] == '%'
  {
    if octets != [] {
      EscapesArePlain(octets[1..]);
    }
  }

  // ---------------------------------------------------------------- what decodes

  lemma HexValues(i: nat, c: char)
    requires i < 16
    ensures HexValue(c) == Some(i) <==> c == "0123456789ABCDEF"[i] || c == "0123456789abcdef"[i]
  {
  }

  /** The first octets escaped in the text. */
  function Octets(s: string, count: nat): (o: Option<seq<Octet>>)
    ensures o.Some? ==> |o.value| == count && 3 * count <= |s|
    decreases count
  {
    if count == 0 then Some([])
    else
      var first := ReadOctet(s);
      if first.None? then None
      else
        var rest := Octets(first.value.rest, count - 1);
        if rest.None? then None else Some([first.value.value] + rest.value)
  }

  /** Every character as itself or by the escapes of its octets. */
  predicate Spells(s: string, t: string)
    decreases |t|
  {
    if t == "" then s == ""
    else
      s != "" &&
      if s[0] != '%' then s[0] == t[0] && Spells(s[1..], t[1..])
      else
        var count := |Utf8(t[0])|;
        Octets(s, count) == Some(Utf8(t[0])) && Spells(s[3 * count..], t[1..])
  }

  predicate Continues(octets: seq<Octet>) {
    octets == [] || (0x80 <= octets[0] < 0xC0 && Continues(octets[1..]))
  }

  function Joined(bits: nat, octets: seq<Octet>): nat
    requires Continues(octets)
    decreases |octets|
  {
    if octets == [] then bits else Joined(bits * 64 + (octets[0] - 0x80), octets[1..])
  }

  lemma {:induction false} ContinuationIs(s: string, count: nat, bits: nat)
    ensures var o := Octets(s, count);
      ReadContinuation(s, count, bits) ==
        if o.Some? && Continues(o.value) then Some(Read(Joined(bits, o.value), s[3 * count..])) else None
    decreases count
  {
    if count > 0 {
      var first := ReadOctet(s);
      if first.Some? {
        var rest := Octets(first.value.rest, count - 1);
        if 0x80 <= first.value.value < 0xC0 {
          ContinuationIs(first.value.rest, count - 1, bits * 64 + (first.value.value - 0x80));
        }
        if rest.Some? {
          assert ([first.value.value] + rest.value)[1..] == rest.value;
        }
      }
    }
  }

  lemma Divided(n: nat, q: nat, r: nat)
    requires r < 64
    ensures n == q * 64 + r <==> n / 64 == q && n % 64 == r
  {
  }

  lemma TwoOctets(c: char, b: Octet, x: Octet)
    requires 0x80 <= x < 0xC0
    ensures Utf8(c) == [b, x] <==>
      0xC0 <= b < 0xE0 && 0x80 <= c as int == (b - 0xC0) * 64 + (x - 0x80)
  {
    if b >= 0xC0 {
      Divided(c as int, b - 0xC0, x - 0x80);
    }
  }

  lemma ThreeOctets(c: char, b: Octet, x: Octet, y: Octet)
    requires 0x80 <= x < 0xC0 && 0x80 <= y < 0xC0
    ensures Utf8(c) == [b, x, y] <==>
      0xE0 <= b < 0xF0 && 0x800 <= c as int == ((b - 0xE0) * 64 + (x - 0x80)) * 64 + (y - 0x80)
  {
    if b >= 0xE0 {
      Divided(c as int, (b - 0xE0) * 64 + (x - 0x80), y - 0x80);
      Divided(c as int / 64, b - 0xE0, x - 0x80);
      assert c as int / 64 / 64 == c as int / 4096;
    }
  }

  lemma FourOctets(c: char, b: Octet, x: Octet, y: Octet, z: Octet)
    requires 0x80 <= x < 0xC0 && 0x80 <= y < 0xC0 && 0x80 <= z < 0xC0
    ensures Utf8(c) == [b, x, y, z] <==>
      0xF0 <= b < 0xF8 &&
      0x1_0000 <= c as int == (((b - 0xF0) * 64 + (x - 0x80)) * 64 + (y - 0x80)) * 64 + (z - 0x80)
  {
    CharIsScalar(c);
    if b >= 0xF0 {
      Divided(c as int, ((b - 0xF0) * 64 + (x - 0x80)) * 64 + (y - 0x80), z - 0x80);
      Divided(c as int / 64, (b - 0xF0) * 64 + (x - 0x80), y - 0x80);
      Divided(c as int / 4096, b - 0xF0, x - 0x80);
      assert c as int / 64 / 64 == c as int / 4096 && c as int / 4096 / 64 == c as int / 262144;
    }
  }

  lemma {:induction false} JoinedAre(bits: nat, o: seq<Octet>)
    requires Continues(o)
    ensures |o| == 1 ==> o == [o[0]] && 0x80 <= o[0] < 0xC0 && Joined(bits, o) == bits * 64 + (o[0] - 0x80)
    ensures |o| == 2 ==>
      o == [o[0], o[1]] && 0x80 <= o[0] < 0xC0 && 0x80 <= o[1] < 0xC0 &&
      Joined(bits, o) == (bits * 64 + (o[0] - 0x80)) * 64 + (o[1] - 0x80)
    ensures |o| == 3 ==>
      o == [o[0], o[1], o[2]] && 0x80 <= o[0] < 0xC0 && 0x80 <= o[1] < 0xC0 && 0x80 <= o[2] < 0xC0 &&
      Joined(bits, o) == ((bits * 64 + (o[0] - 0x80)) * 64 + (o[1] - 0x80)) * 64 + (o[2] - 0x80)
    decreases |o|
  {
    if |o| > 0 {
      JoinedAre(bits * 64 + (o[0] - 0x80), o[1..]);
    }
  }

  lemma {:induction false} NextOctets(s: string, count: nat)
    requires ReadOctet(s).Some?
    ensures ReadOctet(s).value.rest == s[3..]
    ensures Octets(s, count + 1) ==
      if Octets(s[3..], count).None? then None else Some([ReadOctet(s).value.value] + Octets(s[3..], count).value)
    ensures 3 * count <= |s[3..]| ==> s[3..][3 * count..] == s[3 * (count + 1)..]
  {
  }

  /** The least lead octet that so many octets follow, and the least code point so written. */
  function Lead(count: nat): nat {
    if count == 0 then 0
    else if count == 1 then 0xC0
    else if count == 2 then 0xE0
    else if count == 3 then 0xF0
    else 0xF8
  }

  function Least(count: nat): nat {
    if count == 0 then 0 else if count == 1 then 0x80 else if count == 2 then 0x800 else 0x1_0000
  }

  /** A character's octets, after one that is not ASCII: what the lead announces continues it. */
  lemma {:induction false} LeadAndRest(c: char, b: Octet, o: seq<Octet>)
    requires b >= 0x80 && 1 <= |o| <= 3
    ensures Utf8(c) == [b] + o <==>
      Continues(o) && Lead(|o|) <= b < Lead(|o| + 1) && Least(|o|) <= c as int == Joined(b - Lead(|o|), o)
  {
    hide Joined, Utf8;
    assert ([b] + o)[1..] == o;
    if Continues(o) {
      JoinedAre(if b >= Lead(|o|) then b - Lead(|o|) else 0, o);
      if |o| == 1 {
        TwoOctets(c, b, o[0]);
      } else if |o| == 2 {
        ThreeOctets(c, b, o[0], o[1]);
      } else {
        FourOctets(c, b, o[0], o[1], o[2]);
      }
    } else {
      TailContinues(c);
    }
  }

  lemma TailContinues(c: char)
    ensures Continues(Utf8(c)[1..])
  {
    AllContinue(Utf8(c)[1..]);
  }

  lemma {:induction false} AllContinue(o: seq<Octet>)
    requires forall i :: 0 <= i < |o| ==> 0x80 <= o[i] < 0xC0
    ensures Continues(o)
  {
    if o != [] {
      AllContinue(o[1..]);
    }
  }

  lemma ReadsAscii(s: string)
    requires s != "" && s[0] == '%' && ReadOctet(s).Some? && ReadOctet(s).value.value < 0xC0
    ensures var b := ReadOctet(s).value.value;
      ReadChar(s) == if b < 0x80 then Some(Read(b as char, s[3..])) else None
  {
  }

  lemma ReadsLead(s: string, count: nat)
    requires s != "" && s[0] == '%' && ReadOctet(s).Some? && 1 <= count <= 3
    requires Lead(count) <= ReadOctet(s).value.value < Lead(count + 1)
    ensures var b, o := ReadOctet(s).value.value, Octets(s[3..], count);
      ReadChar(s) ==
        if o.Some? && Continues(o.value) then
          ToChar(Some(Read(Joined(b - Lead(count), o.value), s[3 * (count + 1)..])), Least(count))
        else None
  {
    hide ReadContinuation, Joined, Continues, Octets;
    NextOctets(s, count);
    ContinuationIs(s[3..], count, ReadOctet(s).value.value - Lead(count));
  }

  lemma NoLead(s: string)
    requires s != "" && s[0] == '%' && ReadOctet(s).Some? && ReadOctet(s).value.value >= 0xF8
    ensures ReadChar(s) == None
  {
  }

  /** What is read from an escape is a character whose octets are those escaped there, all of them and no more. */
  lemma {:induction false} ReadsItsOctets(s: string)
    requires s != "" && s[0] == '%' && ReadChar(s).Some?
    ensures var c := ReadChar(s).value.value;
      Octets(s, |Utf8(c)|) == Some(Utf8(c)) && ReadChar(s).value.rest == s[3 * |Utf8(c)|..]
  {
    assert ReadOctet(s).Some?;
    hide ReadOctet, ReadContinuation, Joined, Continues, Octets, ReadChar, Utf8;
    var c, b := ReadChar(s).value.value, ReadOctet(s).value.value;
    if b < 0xC0 {
      ReadsAscii(s);
      OneOctet(s, c);
    } else if b < 0xF8 {
      var count := if b < 0xE0 then 1 else if b < 0xF0 then 2 else 3;
      NextOctets(s, count);
      ReadsLead(s, count);
      LeadAndRest(c, b, Octets(s[3..], count).value);
    } else {
      NoLead(s);
    }
  }

  lemma {:induction false} OneOctet(s: string, c: char)
    requires ReadOctet(s).Some? && c as int < 0x80
    ensures |Utf8(c)| == 1
    ensures Octets(s, 1) == Some(Utf8(c)) <==> ReadOctet(s).value.value == c as int
  {
    hide ReadOctet;
    NextOctets(s, 0);
    var b := ReadOctet(s).value.value;
    assert [b] + [] == [b];
    assert Octets(s, 1) == Some([b]);
    assert [b][0] == b && Utf8(c)[0] == c as int;
  }

  lemma AsciiIsOneOctet(c: char)
    ensures |Utf8(c)| == 1 <==> c as int < 0x80
    ensures |Utf8(c)| > 1 ==> Utf8(c)[0] >= 0x80
  {
  }

  lemma {:induction false} LongOctetsAreRead(s: string, c: char, o: seq<Octet>)
    requires s != "" && s[0] == '%' && ReadOctet(s).Some? && 1 <= |o| <= 3
    requires Octets(s[3..], |o|) == Some(o) && Utf8(c) == [ReadOctet(s).value.value] + o
    ensures ReadChar(s) == Some(Read(c, s[3 * (|o| + 1)..]))
  {
    hide ReadOctet, Octets, ReadChar, Joined, Continues, Utf8;
    var b := ReadOctet(s).value.value;
    AsciiIsOneOctet(c);
    assert ([b] + o)[0] == b;
    LeadAndRest(c, b, o);
    ReadsLead(s, |o|);
    CharIsScalar(c);
  }

  /** And the other way around: a character's escaped octets are read as that character. */
  lemma {:induction false} OctetsAreRead(s: string, c: char)
    requires Octets(s, |Utf8(c)|) == Some(Utf8(c))
    ensures s != "" && s[0] == '%' && ReadChar(s) == Some(Read(c, s[3 * |Utf8(c)|..]))
  {
    var count := |Utf8(c)| - 1;
    assert ReadOctet(s).Some? && s[0] == '%';
    hide ReadOctet, ReadContinuation, Joined, Continues, Octets, ReadChar, Utf8;
    NextOctets(s, count);
    AsciiIsOneOctet(c);
    if count == 0 {
      OneOctet(s, c);
      ReadsAscii(s);
    } else {
      LongOctetsAreRead(s, c, Octets(s[3..], count).value);
    }
  }

  /**
   A string decodes to a text exactly when it spells that text: each character as itself or by the
   escapes of its UTF-8 octets, whether they are needed or not, in hexadecimal digits of either case.
   */
  lemma {:induction false} DecodesIff(s: string, t: string)
    ensures Decode(s) == Some(t) <==> Spells(s, t)
    decreases |s|
  {
    hide ReadChar, Octets, Utf8;
    if s != "" {
      if s[0] != '%' {
        DecodesStep(s, t);
        if t != "" {
          DecodesIff(s[1..], t[1..]);
        }
      } else {
        DecodesStep(s, t);
        if ReadChar(s).Some? {
          ReadsItsOctets(s);
        }
        if t != "" {
          if Octets(s, |Utf8(t[0])|) == Some(Utf8(t[0])) {
            OctetsAreRead(s, t[0]);
            DecodesIff(s[3 * |Utf8(t[0])|..], t[1..]);
          }
        }
      }
    }
  }

  lemma {:induction false} DecodesStep(s: string, t: string)
    requires s != ""
    ensures Decode(s) == Some(t) <==>
      t != "" && ReadChar(s).Some? && t[0] == ReadChar(s).value.value &&
      Decode(ReadChar(s).value.rest) == Some(t[1..])
    ensures s[0] != '%' ==> ReadChar(s) == Some(Read(s[0], s[1..]))
  {
    if t != "" {
      assert t == [t[0]] + t[1..];
    }
    if ReadChar(s).Some? && Decode(ReadChar(s).value.rest).Some? {
      var c, rest := ReadChar(s).value.value, Decode(ReadChar(s).value.rest).value;
      assert ([c] + rest)[0] == c && ([c] + rest)[1..] == rest;
    }
  }

  // ---------------------------------------------------------------- how long encoded text is

  /** What is escaped: spaces, controls, everything beyond ASCII, and the signs with a meaning elsewhere. */
  lemma EscapedAre(c: char)
    ensures !IsUnreserved(c) <==>
      c <= ' ' || c > '~' ||
      c in {'"', '#', '$', '%', '&', '+', ',', '/', ':', ';', '<', '=', '>', '?', '@'} ||
      c in {'[', '\\', ']', '^', '`', '{', '|', '}'}
  {
  }

  /** Unreserved characters stand for themselves; every other octet takes three characters. */
  lemma EncodedLength(c: char)
    ensures EncodeChar(c) == [c] <==> IsUnreserved(c)
    ensures |EncodeChar(c)| ==
      if IsUnreserved(c) then 1 else if c as int < 0x80 then 3 else if c as int < 0x800 then 6
      else if c as int < 0x1_0000 then 9 else 12
  {
    hide Escape, EscapeAll;
    EscapesLength(Utf8(c));
  }

  lemma {:induction false} EscapesLength(octets: seq<Octet>)
    ensures |EscapeAll(octets)| == 3 * |octets|
  {
    if octets != [] {
      EscapesLength(octets[1..]);
    }
  }

  /** Encoding leaves text alone exactly when all of it is unreserved. */
  lemma {:induction false} UnchangedIff(s: string)
    ensures |Encode(s)| >= |s|
    ensures Encode(s) == s <==> forall i :: 0 <= i < |s| ==> IsUnreserved(s[i])
  {
    hide EncodeChar, IsUnreserved;
    if s != "" {
      UnchangedIff(s[1..]);
      EncodedLength(s[0]);
      assert s == [s[0]] + s[1..];
      if IsUnreserved(s[0]) {
        assert Encode(s)[1..] == Encode(s[1..]);
      } else {
        assert |Encode(s)| > |s|;
      }
    }
  }
}
