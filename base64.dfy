/** The base64 encoding of section 4 of RFC 4648, which the client applies to
    each file before uploading it (`base64.b64encode(...).decode("utf-8")`),
    and its inverse, the decoding a receiver applies. */
module Base64 {
  import opened Text

  type byte = b: int | 0 <= b < 256

  /** A 6-bit group, the value one base64 character carries. */
  type sextet = v: int | 0 <= v < 64

  const Pad: char := '='

  /** The base64 alphabet (Table 1 of RFC 4648). */
  function Symbol(v: sextet): (c: char)
    ensures IsSymbol(c)
  {
    if v < 26 then ('A' as int + v) as char
    else if v < 52 then ('a' as int + (v - 26)) as char
    else if v < 62 then ('0' as int + (v - 52)) as char
    else if v == 62 then '+'
    else '/'
  }

  predicate IsSymbol(c: char)
  {
    'A' <= c <= 'Z' || 'a' <= c <= 'z' || '0' <= c <= '9' || c == '+' || c == '/'
  }

  /** The value an alphabet character stands for. */
  function Value(c: char): (v: sextet)
    requires IsSymbol(c)
    ensures Symbol(v) == c
  {
    if 'A' <= c <= 'Z' then c as int - 'A' as int
    else if 'a' <= c <= 'z' then c as int - 'a' as int + 26
    else if '0' <= c <= '9' then c as int - '0' as int + 52
    else if c == '+' then 62
    else 63
  }

  lemma SymbolValue(v: sextet)
    ensures Value(Symbol(v)) == v
  {
  }

  /** Four characters for three bytes: the 24 bits cut into four 6-bit groups. */
  function Quantum(b0: byte, b1: byte, b2: byte): (q: string)
    ensures |q| == 4
  {
    [Symbol(b0 / 4), Symbol(b0 % 4 * 16 + b1 / 16), Symbol(b1 % 16 * 4 + b2 / 64), Symbol(b2 % 64)]
  }

  /** Three bytes for four 6-bit groups: the inverse cut. */
  function Join(v0: sextet, v1: sextet, v2: sextet, v3: sextet): (d: seq<byte>)
    ensures |d| == 3
  {
    [v0 * 4 + v1 / 16, v1 % 16 * 16 + v2 / 4, v2 % 4 * 64 + v3]
  }

  /** Encoding: every 3 input bytes become 4 characters; a final group of 1
      or 2 bytes is zero-filled to whole 6-bit groups, and the characters
      that stand for no input bit are replaced by '='. */
  function Encode(s: seq<byte>): (r: string)
    decreases |s|
  {
    if |s| == 0 then []
    else if |s| == 1 then Quantum(s[0], 0, 0)[..2] + [Pad, Pad]
    else if |s| == 2 then Quantum(s[0], s[1], 0)[..3] + [Pad]
    else Quantum(s[0], s[1], s[2]) + Encode(s[3..])
  }

  /** The three bytes that four alphabet characters carry; `None` unless all
      four are in the alphabet. */
  function DecodeQuantum(c0: char, c1: char, c2: char, c3: char): Option<seq<byte>>
  {
    if IsSymbol(c0) && IsSymbol(c1) && IsSymbol(c2) && IsSymbol(c3) then
      Some(Join(Value(c0), Value(c1), Value(c2), Value(c3)))
    else None
  }

  /** A last quantum `c0 c1 c2 =` or `c0 c1 = =`: one or two bytes. The bits
      that padding discards must be zero (section 3.5 of RFC 4648). */
  function DecodePadded(c0: char, c1: char, c2: char): Option<seq<byte>>
  {
    if !IsSymbol(c0) || !IsSymbol(c1) then None
    else if c2 == Pad then
      if Value(c1) % 16 == 0 then Some(Join(Value(c0), Value(c1), 0, 0)[..1]) else None
    else if IsSymbol(c2) && Value(c2) % 4 == 0 then
      Some(Join(Value(c0), Value(c1), Value(c2), 0)[..2])
    else None
  }

  /** Four characters for every three bytes, the last group rounded up. */
  lemma {:induction false} EncodeLength(s: seq<byte>)
    ensures |Encode(s)| == 4 * ((|s| + 2) / 3)
    decreases |s|
  {
    if |s| >= 3 {
      EncodeLength(s[3..]);
      EncodeSplit(s);
      var n := |s| - 3;
      assert (n + 5) / 3 == (n + 2) / 3 + 1;
    }
  }

  /** Strict decoding: the text must be whole 4-character quanta and padding
      may only end the last one. Anything else is rejected. */
  function Decode(t: string): Option<seq<byte>>
    decreases |t|
  {
    if |t| == 0 then Some([])
    else if |t| < 4 then None
    else if |t| == 4 && t[3] == Pad then DecodePadded(t[0], t[1], t[2])
    else
      match DecodeQuantum(t[0], t[1], t[2], t[3])
      case None => None
      case Some(q) =>
        match Decode(t[4..])
        case None => None
        case Some(rest) => Some(q + rest)
  }

  /** Cutting three bytes into 6-bit groups and joining them again is the
      identity. */
  lemma JoinQuantum(b0: byte, b1: byte, b2: byte)
    ensures Join(b0 / 4, b0 % 4 * 16 + b1 / 16, b1 % 16 * 4 + b2 / 64, b2 % 64) == [b0, b1, b2]
  {
  }

  /** Joining four 6-bit groups into bytes and cutting them again is the
      identity. */
  lemma QuantumJoin(v0: sextet, v1: sextet, v2: sextet, v3: sextet)
    ensures var d := Join(v0, v1, v2, v3);
      Quantum(d[0], d[1], d[2]) == [Symbol(v0), Symbol(v1), Symbol(v2), Symbol(v3)]
  {
    var d := Join(v0, v1, v2, v3);
    assert d[0] / 4 == v0;
    assert d[0] % 4 * 16 + d[1] / 16 == v1;
    assert d[1] % 16 * 4 + d[2] / 64 == v2;
    assert d[2] % 64 == v3;
  }

  lemma DecodeOfQuantum(b0: byte, b1: byte, b2: byte)
    ensures var q := Quantum(b0, b1, b2);
      DecodeQuantum(q[0], q[1], q[2], q[3]) == Some([b0, b1, b2])
  {
    SymbolValue(b0 / 4);
    SymbolValue(b0 % 4 * 16 + b1 / 16);
    SymbolValue(b1 % 16 * 4 + b2 / 64);
    SymbolValue(b2 % 64);
    JoinQuantum(b0, b1, b2);
  }

  lemma QuantumOfDecode(c0: char, c1: char, c2: char, c3: char)
    requires DecodeQuantum(c0, c1, c2, c3).Some?
    ensures var d := DecodeQuantum(c0, c1, c2, c3).value;
      |d| == 3 && Quantum(d[0], d[1], d[2]) == [c0, c1, c2, c3]
  {
    QuantumJoin(Value(c0), Value(c1), Value(c2), Value(c3));
  }

  lemma PaddedOfOne(b0: byte)
    ensures var q := Quantum(b0, 0, 0);
      DecodePadded(q[0], q[1], Pad) == Some([b0])
  {
    var v0, v1 := b0 / 4, b0 % 4 * 16;
    SymbolValue(v0);
    SymbolValue(v1);
    assert v1 % 16 == 0;
    assert Join(v0, v1, 0, 0)[..1] == [b0];
  }

  lemma PaddedOfTwo(b0: byte, b1: byte)
    ensures var q := Quantum(b0, b1, 0);
      DecodePadded(q[0], q[1], q[2]) == Some([b0, b1])
  {
    var v0, v1, v2 := b0 / 4, b0 % 4 * 16 + b1 / 16, b1 % 16 * 4;
    SymbolValue(v0);
    SymbolValue(v1);
    SymbolValue(v2);
    assert v2 % 4 == 0;
    JoinQuantum(b0, b1, 0);
    assert Join(v0, v1, v2, 0)[..2] == [b0, b1];
  }

  lemma DecodeOfOne(s: seq<byte>)
    requires |s| == 1
    ensures Decode(Encode(s)) == Some(s)
  {
    var q := Quantum(s[0], 0, 0);
    var t := [q[0], q[1], Pad, Pad];
    PadTwo(q);
    assert Decode(t) == DecodePadded(q[0], q[1], Pad);
    PaddedOfOne(s[0]);
    SingleByte(s);
  }

  lemma DecodeOfTwo(s: seq<byte>)
    requires |s| == 2
    ensures Decode(Encode(s)) == Some(s)
  {
    var q := Quantum(s[0], s[1], 0);
    var t := [q[0], q[1], q[2], Pad];
    PadOne(q);
    assert Decode(t) == DecodePadded(q[0], q[1], q[2]);
    PaddedOfTwo(s[0], s[1]);
    TwoBytes(s);
  }

  lemma PadTwo(q: string)
    requires |q| == 4
    ensures q[..2] + [Pad, Pad] == [q[0], q[1], Pad, Pad]
  {
  }

  lemma PadOne(q: string)
    requires |q| == 4
    ensures q[..3] + [Pad] == [q[0], q[1], q[2], Pad]
  {
  }

  lemma SingleByte(s: seq<byte>)
    requires |s| == 1
    ensures s == [s[0]]
  {
  }

  lemma TwoBytes(s: seq<byte>)
    requires |s| == 2
    ensures s == [s[0], s[1]]
  {
  }

  lemma LastQuantum(t: string)
    requires |t| == 4 && t[3] == Pad
    ensures t == [t[0], t[1], t[2], Pad]
  {
  }

  lemma SplitFirstThree(s: seq<byte>)
    requires |s| >= 3
    ensures s == [s[0], s[1], s[2]] + s[3..]
  {
  }

  lemma SplitFirstFour(t: string)
    requires |t| >= 4
    ensures t == [t[0], t[1], t[2], t[3]] + t[4..]
  {
  }

  lemma DecodeOfLonger(s: seq<byte>)
    requires |s| >= 3 && Decode(Encode(s[3..])) == Some(s[3..])
    ensures Decode(Encode(s)) == Some(s)
  {
    SplitFirstThree(s);
    var q, e := Quantum(s[0], s[1], s[2]), Encode(s[3..]);
    DecodeOfQuantum(s[0], s[1], s[2]);
    var t := q + e;
    assert Encode(s) == t;
    assert t[0] == q[0] && t[1] == q[1] && t[2] == q[2] && t[3] == q[3];
    assert t[4..] == e;
    assert Decode(t) == Some([s[0], s[1], s[2]] + s[3..]);
  }

  /** Decoding an encoding gives back the original bytes. */
  lemma {:induction false} DecodeEncode(s: seq<byte>)
    ensures Decode(Encode(s)) == Some(s)
    decreases |s|
  {
    if |s| == 1 {
      DecodeOfOne(s);
    } else if |s| == 2 {
      DecodeOfTwo(s);
    } else if |s| >= 3 {
      DecodeEncode(s[3..]);
      DecodeOfLonger(s);
    }
  }

  lemma EncodeOfPadded(c0: char, c1: char, c2: char)
    requires DecodePadded(c0, c1, c2).Some?
    ensures Encode(DecodePadded(c0, c1, c2).value) == [c0, c1, c2, Pad]
  {
    var d := DecodePadded(c0, c1, c2).value;
    if c2 == Pad {
      var j := Join(Value(c0), Value(c1), 0, 0);
      QuantumJoin(Value(c0), Value(c1), 0, 0);
      assert j[1] == 0 && j[2] == 0;
      assert d == [j[0]];
    } else {
      var j := Join(Value(c0), Value(c1), Value(c2), 0);
      QuantumJoin(Value(c0), Value(c1), Value(c2), 0);
      assert j[2] == 0;
      assert d == [j[0], j[1]];
    }
  }

  lemma EncodeSplit(d: seq<byte>)
    requires |d| >= 3
    ensures Encode(d) == Quantum(d[0], d[1], d[2]) + Encode(d[3..])
  {
  }

  lemma DecodeSplit(t: string)
    requires |t| >= 4 && !(|t| == 4 && t[3] == Pad) && Decode(t).Some?
    ensures DecodeQuantum(t[0], t[1], t[2], t[3]).Some? && Decode(t[4..]).Some?
    ensures Decode(t).value == DecodeQuantum(t[0], t[1], t[2], t[3]).value + Decode(t[4..]).value
  {
  }

  lemma EncodeOfLonger(t: string)
    requires |t| >= 4 && !(|t| == 4 && t[3] == Pad) && Decode(t).Some?
    requires Encode(Decode(t[4..]).value) == t[4..]
    ensures Encode(Decode(t).value) == t
  {
    SplitFirstFour(t);
    DecodeSplit(t);
    QuantumOfDecode(t[0], t[1], t[2], t[3]);
    var q := DecodeQuantum(t[0], t[1], t[2], t[3]).value;
    var d := Decode(t).value;
    EncodeSplit(d);
    assert d[0] == q[0] && d[1] == q[1] && d[2] == q[2] && d[3..] == Decode(t[4..]).value;
    assert Quantum(d[0], d[1], d[2]) == [t[0], t[1], t[2], t[3]];
    assert Encode(d[3..]) == t[4..];
  }

  /** Every text the decoder accepts is the encoding of what it decodes to:
      the encoding is canonical. */
  lemma {:induction false} EncodeDecode(t: string)
    requires Decode(t).Some?
    ensures Encode(Decode(t).value) == t
    decreases |t|
  {
    if |t| == 4 && t[3] == Pad {
      LastQuantum(t);
      EncodeOfPadded(t[0], t[1], t[2]);
    } else if |t| >= 4 {
      EncodeDecode(t[4..]);
      EncodeOfLonger(t);
    }
  }

  /** Different byte strings have different encodings. */
  lemma EncodeInjective(a: seq<byte>, b: seq<byte>)
    requires Encode(a) == Encode(b)
    ensures a == b
  {
    DecodeEncode(a);
    DecodeEncode(b);
  }

  /** The test vectors of section 10 of RFC 4648, which pin the alphabet
      and the padding down: "f", "fo", "foo" and "foobar". */
  lemma TestVectors()
    ensures Encode([]) == ""
    ensures Encode([102]) == "Zg=="
    ensures Encode([102, 111]) == "Zm8="
    ensures Encode([102, 111, 111]) == "Zm9v"
    ensures Encode([102, 111, 111, 98, 97, 114]) == "Zm9vYmFy"
  {
    assert [102, 111, 111, 98, 97, 114][3..] == [98, 97, 114];
  }
}
