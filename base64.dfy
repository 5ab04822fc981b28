/** The base64 encoding of section 4 of RFC 4648, which the relay applies to
    `user:password` for the `Proxy-Authorization: Basic` field (Python's
    `base64.b64encode`), and the decoding the upstream proxy applies. */
module Base64 {
  import opened Wrappers
  import opened Bytes

  /** The `=` that pads the last group. */
  const Pad: byte := 61

  /** The symbol for a six-bit value: `A`-`Z`, `a`-`z`, `0`-`9`, `+`, `/`. */
  function Symbol(v: int): (b: byte)
    requires 0 <= v < 64
  {
    if v < 26 then (65 + v) as byte
    else if v < 52 then (71 + v) as byte
    else if v < 62 then (v - 4) as byte
    else if v == 62 then 43
    else 47
  }

  /** A byte of the alphabet. */
  predicate IsSymbol(b: byte) {
    65 <= b <= 90 || 97 <= b <= 122 || 48 <= b <= 57 || b == 43 || b == 47
  }

  /** The six-bit value of a symbol. */
  function ValueOf(b: byte): (v: int)
    requires IsSymbol(b)
    ensures 0 <= v < 64
  {
    if 65 <= b <= 90 then b as int - 65
    else if 97 <= b <= 122 then b as int - 71
    else if 48 <= b <= 57 then b as int + 4
    else if b == 43 then 62
    else 63
  }

  lemma SymbolValue(v: int)
    requires 0 <= v < 64
    ensures IsSymbol(Symbol(v)) && ValueOf(Symbol(v)) == v
  {
  }

  /** The four symbols for three bytes. */
  function Group3(a: int, b: int, c: int): seq<byte>
    requires 0 <= a < 256 && 0 <= b < 256 && 0 <= c < 256
  {
    [Symbol(a / 4), Symbol(a % 4 * 16 + b / 16), Symbol(b % 16 * 4 + c / 64), Symbol(c % 64)]
  }

  /** The padded group for a last two bytes. */
  function Group2(a: int, b: int): seq<byte>
    requires 0 <= a < 256 && 0 <= b < 256
  {
    [Symbol(a / 4), Symbol(a % 4 * 16 + b / 16), Symbol(b % 16 * 4), Pad]
  }

  /** The padded group for a last byte. */
  function Group1(a: int): seq<byte>
    requires 0 <= a < 256
  {
    [Symbol(a / 4), Symbol(a % 4 * 16), Pad, Pad]
  }

  /** `b64encode(data)`: each group of three bytes becomes four symbols; a
      last group of one or two bytes is padded with `=` to four. */
  function Encode(data: seq<byte>): seq<byte>
    decreases |data|
  {
    if |data| == 0 then []
    else if |data| == 1 then Group1(data[0] as int)
    else if |data| == 2 then Group2(data[0] as int, data[1] as int)
    else Group3(data[0] as int, data[1] as int, data[2] as int) + Encode(data[3..])
  }

  /** One group of four: the three bytes of four symbols, or fewer when the
      group ends in padding. */
  function DecodeGroup(g: seq<byte>): Option<seq<byte>>
    requires |g| == 4
  {
    if !IsSymbol(g[0]) || !IsSymbol(g[1]) then None
    else
      var a, b := ValueOf(g[0]), ValueOf(g[1]);
      if g[2] == Pad && g[3] == Pad then Some([(a * 4 + b / 16) as byte])
      else if !IsSymbol(g[2]) then None
      else
        var c := ValueOf(g[2]);
        if g[3] == Pad then Some([(a * 4 + b / 16) as byte, (b % 16 * 16 + c / 4) as byte])
        else if !IsSymbol(g[3]) then None
        else
          var d := ValueOf(g[3]);
          Some([(a * 4 + b / 16) as byte, (b % 16 * 16 + c / 4) as byte, (c % 4 * 64 + d) as byte])
  }

  /** Decoding: groups of four, padding only in the last one. */
  function Decode(text: seq<byte>): Option<seq<byte>>
    decreases |text|
  {
    if |text| == 0 then Some([])
    else if |text| < 4 then None
    else
      match DecodeGroup(text[..4])
      case None => None
      case Some(g) =>
        if |text| == 4 then Some(g)
        else if |g| < 3 then None
        else
          match Decode(text[4..])
          case None => None
          case Some(rest) => Some(g + rest)
  }

  /** Four symbols for every three bytes, the last group rounded up. */
  lemma {:induction false} EncodeLength(data: seq<byte>)
    ensures |Encode(data)| == 4 * ((|data| + 2) / 3)
    decreases |data|
  {
    if |data| >= 3 {
      var a, b, c := data[0] as int, data[1] as int, data[2] as int;
      EncodeLength(data[3..]);
      assert Encode(data) == Group3(a, b, c) + Encode(data[3..]);
      assert (|data| + 2) / 3 == (|data[3..]| + 2) / 3 + 1;
    } else if |data| == 2 {
      assert Encode(data) == Group2(data[0] as int, data[1] as int);
    } else if |data| == 1 {
      assert Encode(data) == Group1(data[0] as int);
    }
  }

  /** Every byte of the encoding is a symbol or `=`; in particular no line
      break, so `rstrip(b"\r\n")` leaves it alone. */
  lemma {:induction false} EncodeAlphabet(data: seq<byte>)
    ensures forall i :: 0 <= i < |Encode(data)| ==> IsSymbol(Encode(data)[i]) || Encode(data)[i] == Pad
    decreases |data|
  {
    if |data| >= 3 {
      EncodeAlphabet(data[3..]);
      var a, b, c := data[0] as int, data[1] as int, data[2] as int;
      SymbolValue(a / 4);
      SymbolValue(a % 4 * 16 + b / 16);
      SymbolValue(b % 16 * 4 + c / 64);
      SymbolValue(c % 64);
    } else if |data| == 2 {
      SymbolValue(data[0] as int / 4);
      SymbolValue(data[0] as int % 4 * 16 + data[1] as int / 16);
      SymbolValue(data[1] as int % 16 * 4);
    } else if |data| == 1 {
      SymbolValue(data[0] as int / 4);
      SymbolValue(data[0] as int % 4 * 16);
    }
  }

  /** Four symbols decode to the bytes their bits spell out. */
  lemma SymbolsDecode(x0: int, x1: int, x2: int, x3: int)
    requires 0 <= x0 < 64 && 0 <= x1 < 64 && 0 <= x2 < 64 && 0 <= x3 < 64
    requires x0 * 4 + x1 / 16 < 256 && x1 % 16 * 16 + x2 / 4 < 256 && x2 % 4 * 64 + x3 < 256
    ensures DecodeGroup([Symbol(x0), Symbol(x1), Symbol(x2), Symbol(x3)])
         == Some([(x0 * 4 + x1 / 16) as byte, (x1 % 16 * 16 + x2 / 4) as byte, (x2 % 4 * 64 + x3) as byte])
    ensures DecodeGroup([Symbol(x0), Symbol(x1), Symbol(x2), Pad])
         == Some([(x0 * 4 + x1 / 16) as byte, (x1 % 16 * 16 + x2 / 4) as byte])
    ensures DecodeGroup([Symbol(x0), Symbol(x1), Pad, Pad]) == Some([(x0 * 4 + x1 / 16) as byte])
  {
    SymbolValue(x0);
    SymbolValue(x1);
    SymbolValue(x2);
    SymbolValue(x3);
  }

  /** A full group decodes to the three bytes it encodes. */
  lemma FullGroup(a: int, b: int, c: int)
    requires 0 <= a < 256 && 0 <= b < 256 && 0 <= c < 256
    ensures DecodeGroup(Group3(a, b, c)) == Some([a as byte, b as byte, c as byte])
  {
    var x0, x1, x2, x3 := a / 4, a % 4 * 16 + b / 16, b % 16 * 4 + c / 64, c % 64;
    RegroupThree(a, b, c);
    SymbolsDecode(x0, x1, x2, x3);
  }

  /** The four 6-bit values of three bytes give the bytes back. */
  lemma RegroupThree(a: int, b: int, c: int)
    requires 0 <= a < 256 && 0 <= b < 256 && 0 <= c < 256
    ensures var x0, x1, x2, x3 := a / 4, a % 4 * 16 + b / 16, b % 16 * 4 + c / 64, c % 64;
      && 0 <= x0 < 64 && 0 <= x1 < 64 && 0 <= x2 < 64 && 0 <= x3 < 64
      && x0 * 4 + x1 / 16 == a && x1 % 16 * 16 + x2 / 4 == b && x2 % 4 * 64 + x3 == c
  {
    var x1, x2 := a % 4 * 16 + b / 16, b % 16 * 4 + c / 64;
    assert x1 / 16 == a % 4 && x1 % 16 == b / 16;
    assert x2 / 4 == b % 16 && x2 % 4 == c / 64;
  }

  /** A last group of one byte decodes to it. */
  lemma OneByteGroup(a: int)
    requires 0 <= a < 256
    ensures DecodeGroup(Group1(a)) == Some([a as byte])
  {
    var x0, x1 := a / 4, a % 4 * 16;
    RegroupOne(a);
    SymbolsDecode(x0, x1, 0, 0);
  }

  /** The two 6-bit values of a last byte give it back. */
  lemma RegroupOne(a: int)
    requires 0 <= a < 256
    ensures var x0, x1 := a / 4, a % 4 * 16;
      0 <= x0 < 64 && 0 <= x1 < 64 && x0 * 4 + x1 / 16 == a && x1 % 16 == 0
  {
    assert (a % 4 * 16) / 16 == a % 4;
  }

  /** A last group of two bytes decodes to them. */
  lemma TwoByteGroup(a: int, b: int)
    requires 0 <= a < 256 && 0 <= b < 256
    ensures DecodeGroup(Group2(a, b)) == Some([a as byte, b as byte])
  {
    var x0, x1, x2 := a / 4, a % 4 * 16 + b / 16, b % 16 * 4;
    RegroupTwo(a, b);
    SymbolsDecode(x0, x1, x2, 0);
  }

  /** The three 6-bit values of two last bytes give them back. */
  lemma RegroupTwo(a: int, b: int)
    requires 0 <= a < 256 && 0 <= b < 256
    ensures var x0, x1, x2 := a / 4, a % 4 * 16 + b / 16, b % 16 * 4;
      && 0 <= x0 < 64 && 0 <= x1 < 64 && 0 <= x2 < 64
      && x0 * 4 + x1 / 16 == a && x1 % 16 * 16 + x2 / 4 == b && x2 % 4 == 0
  {
    var x1, x2 := a % 4 * 16 + b / 16, b % 16 * 4;
    assert x1 / 16 == a % 4 && x1 % 16 == b / 16;
    assert x2 / 4 == b % 16;
  }

  /** A text of one group decodes as that group. */
  lemma DecodeOneGroup(text: seq<byte>)
    requires |text| == 4
    ensures Decode(text) == DecodeGroup(text)
  {
    assert text[..4] == text;
  }

  /** Decoding a full group in front of more groups. */
  lemma DecodeCons(text: seq<byte>, x: seq<byte>, y: seq<byte>)
    requires |text| > 4 && DecodeGroup(text[..4]) == Some(x) && |x| == 3
    requires Decode(text[4..]) == Some(y)
    ensures Decode(text) == Some(x + y)
  {
  }

  /** A last group of one byte round-trips. */
  lemma OneByteRoundTrip(data: seq<byte>)
    requires |data| == 1
    ensures Decode(Encode(data)) == Some(data)
  {
    OneByteGroup(data[0] as int);
    DecodeOneGroup(Encode(data));
    assert data == [data[0] as int as byte];
  }

  /** A last group of two bytes round-trips. */
  lemma TwoByteRoundTrip(data: seq<byte>)
    requires |data| == 2
    ensures Decode(Encode(data)) == Some(data)
  {
    TwoByteGroup(data[0] as int, data[1] as int);
    DecodeOneGroup(Encode(data));
    assert data == [data[0] as int as byte, data[1] as int as byte];
  }

  /** The encoding of three or more bytes: one full group, then the rest. */
  lemma EncodeGroup(data: seq<byte>)
    requires |data| >= 3
    ensures |Encode(data)| >= 4
    ensures Encode(data)[4..] == Encode(data[3..])
    ensures DecodeGroup(Encode(data)[..4]) == Some(data[..3])
  {
    var a, b, c := data[0] as int, data[1] as int, data[2] as int;
    EncodeFront(data);
    FullGroup(a, b, c);
    assert data[..3] == [a as byte, b as byte, c as byte];
  }

  /** The first four symbols of the encoding of three or more bytes. */
  lemma EncodeFront(data: seq<byte>)
    requires |data| >= 3
    ensures |Encode(data)| >= 4
    ensures Encode(data)[..4] == Group3(data[0] as int, data[1] as int, data[2] as int)
    ensures Encode(data)[4..] == Encode(data[3..])
  {
    var e := Encode(data);
    var g := Group3(data[0] as int, data[1] as int, data[2] as int);
    assert |g| == 4 && e == g + Encode(data[3..]);
  }

  /** Three bytes are one full group. */
  lemma ThreeByteRoundTrip(data: seq<byte>)
    requires |data| == 3
    ensures Decode(Encode(data)) == Some(data)
  {
    EncodeGroup(data);
    var e := Encode(data);
    assert data[3..] == [];
    assert |e| == 4 && e[..4] == e;
    DecodeOneGroup(e);
    assert data[..3] == data;
  }

  /** A full group in front of more groups that already round-trip. */
  lemma GroupRoundTrip(data: seq<byte>)
    requires |data| > 3
    requires Decode(Encode(data[3..])) == Some(data[3..])
    ensures Decode(Encode(data)) == Some(data)
  {
    EncodeGroup(data);
    EncodeLength(data[3..]);
    DecodeCons(Encode(data), data[..3], data[3..]);
    assert data == data[..3] + data[3..];
  }

  /** Decoding undoes encoding. */
  lemma {:induction false} DecodeEncode(data: seq<byte>)
    ensures Decode(Encode(data)) == Some(data)
    decreases |data|
  {
    if |data| == 1 {
      OneByteRoundTrip(data);
    } else if |data| == 2 {
      TwoByteRoundTrip(data);
    } else if |data| == 3 {
      ThreeByteRoundTrip(data);
    } else if |data| > 3 {
      DecodeEncode(data[3..]);
      GroupRoundTrip(data);
    }
  }
}
