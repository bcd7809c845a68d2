/**
 * The base 64 encoding of section 4 of RFC 4648 (standard alphabet, `=` padding),
 * which is what Python's `base64.b64encode` produces, and a decoder for it.
 */
module Base64 {
  import opened Wrappers
  import opened Bytes

  /** A 6-bit group: the value one base 64 digit stands for. */
  type Sextet = v: int | 0 <= v < 64

  /** The digit of the base 64 alphabet (Table 1 of RFC 4648) for value `v`. */
  function Digit(v: Sextet): (c: char)
    ensures IsDigit(c)
  {
    if v < 26 then ('A' as int + v) as char
    else if v < 52 then ('a' as int + (v - 26)) as char
    else if v < 62 then ('0' as int + (v - 52)) as char
    else if v == 62 then '+'
    else '/'
  }

  /** The value a digit of the alphabet stands for; None for any other character. */
  function ValueOf(c: char): (r: Option<Sextet>)
    ensures r.Some? ==> Digit(r.value) == c
  {
    if 'A' <= c <= 'Z' then Some(c as int - 'A' as int)
    else if 'a' <= c <= 'z' then Some(c as int - 'a' as int + 26)
    else if '0' <= c <= '9' then Some(c as int - '0' as int + 52)
    else if c == '+' then Some(62)
    else if c == '/' then Some(63)
    else None
  }

  predicate IsDigit(c: char) {
    'A' <= c <= 'Z' || 'a' <= c <= 'z' || '0' <= c <= '9' || c == '+' || c == '/'
  }

  /** Every digit is read back as the value it was written for. */
  lemma DigitValue(v: Sextet)
    ensures ValueOf(Digit(v)) == Some(v)
  {
  }

  /**
   * Encodes `b` three octets at a time into four digits; a final group of one or two
   * octets is zero-filled and padded with `=` to four characters.
   */
  function Encode(b: seq<Byte>): string
    decreases |b|
  {
    if |b| == 0 then []
    else if |b| == 1 then
      [Digit(b[0] / 4), Digit(b[0] % 4 * 16), '=', '=']
    else if |b| == 2 then
      [Digit(b[0] / 4), Digit(b[0] % 4 * 16 + b[1] / 16), Digit(b[1] % 16 * 4), '=']
    else
      Quad(b[0], b[1], b[2]) + Encode(b[3..])
  }

  /** The four digits that encode the three octets `x`, `y`, `z` (24 bits, most significant first). */
  function Quad(x: Byte, y: Byte, z: Byte): (r: string)
    ensures |r| == 4 && forall i :: 0 <= i < 4 ==> IsDigit(r[i])
  {
    [Digit(x / 4), Digit(x % 4 * 16 + y / 16), Digit(y % 16 * 4 + z / 64), Digit(z % 64)]
  }

  /**
   * Decodes one quantum of four characters. Padding is accepted only in the final
   * quantum (`last`), and only when the unused bits of the digit before it are zero.
   */
  function DecodeQuantum(q: string, last: bool): (r: Option<seq<Byte>>)
    requires |q| == 4
    ensures r.Some? ==> 1 <= |r.value| <= 3 && (!last ==> |r.value| == 3)
  {
    var a, b, c, d := ValueOf(q[0]), ValueOf(q[1]), ValueOf(q[2]), ValueOf(q[3]);
    if a.None? || b.None? then None
    else if last && q[2] == '=' && q[3] == '=' then
      if b.value % 16 == 0 then Some([a.value * 4 + b.value / 16]) else None
    else if c.None? then None
    else if last && q[3] == '=' then
      if c.value % 4 == 0 then Some([a.value * 4 + b.value / 16, b.value % 16 * 16 + c.value / 4]) else None
    else if d.None? then None
    else
      Some([a.value * 4 + b.value / 16, b.value % 16 * 16 + c.value / 4, c.value % 4 * 64 + d.value])
  }

  /** Decodes a padded base 64 text; None when its length is not a multiple of 4 or a quantum is malformed. */
  function Decode(s: string): (r: Option<seq<Byte>>)
    decreases |s|
  {
    if |s| == 0 then Some([])
    else if |s| < 4 then None
    else
      match DecodeQuantum(s[..4], |s| == 4)
      case None => None
      case Some(head) =>
        match Decode(s[4..])
        case None => None
        case Some(tail) => Some(head + tail)
  }

  /** Splitting three octets into four sextets and joining them again is the identity. */
  lemma Regroup(x: Byte, y: Byte, z: Byte)
    ensures x / 4 * 4 + (x % 4 * 16 + y / 16) / 16 == x
    ensures (x % 4 * 16 + y / 16) % 16 * 16 + (y % 16 * 4 + z / 64) / 4 == y
    ensures (y % 16 * 4 + z / 64) % 4 * 64 + z % 64 == z
  {
  }

  /** A full quantum decodes to the three octets it was written for. */
  lemma Quantum3(x: Byte, y: Byte, z: Byte, last: bool)
    ensures DecodeQuantum(Quad(x, y, z), last) == Some([x, y, z])
  {
    Regroup(x, y, z);
    DigitValue(x / 4);
    DigitValue(x % 4 * 16 + y / 16);
    DigitValue(y % 16 * 4 + z / 64);
    DigitValue(z % 64);
  }

  /** A final quantum with one `=` decodes to the two octets it was written for. */
  lemma Quantum2(x: Byte, y: Byte)
    ensures DecodeQuantum([Digit(x / 4), Digit(x % 4 * 16 + y / 16), Digit(y % 16 * 4), '='], true) == Some([x, y])
  {
    Regroup(x, y, 0);
    DigitValue(x / 4);
    DigitValue(x % 4 * 16 + y / 16);
    DigitValue(y % 16 * 4);
  }

  /** A final quantum with two `=` decodes to the octet it was written for. */
  lemma Quantum1(x: Byte)
    ensures DecodeQuantum([Digit(x / 4), Digit(x % 4 * 16), '=', '='], true) == Some([x])
  {
    Regroup(x, 0, 0);
    DigitValue(x / 4);
    DigitValue(x % 4 * 16);
  }

  /** One octet survives encoding and decoding. */
  lemma RoundTrip1(x: Byte)
    ensures Decode(Encode([x])) == Some([x])
  {
    var s := Encode([x]);
    Quantum1(x);
    assert s == [Digit(x / 4), Digit(x % 4 * 16), '=', '='];
    assert s[..4] == s && s[4..] == [];
    assert DecodeQuantum(s[..4], |s| == 4) == Some([x]);
    assert Decode(s[4..]) == Some([]);
    var h: seq<Byte> := [x];
    var t: seq<Byte> := [];
    assert h + t == [x];
    assert Decode(s) == Some(h + t);
  }

  /** Two octets survive encoding and decoding. */
  lemma RoundTrip2(x: Byte, y: Byte)
    ensures Decode(Encode([x, y])) == Some([x, y])
  {
    var s := Encode([x, y]);
    Quantum2(x, y);
    assert s == [Digit(x / 4), Digit(x % 4 * 16 + y / 16), Digit(y % 16 * 4), '='];
    assert s[..4] == s && s[4..] == [];
    assert DecodeQuantum(s[..4], |s| == 4) == Some([x, y]);
    assert Decode(s[4..]) == Some([]);
    var h: seq<Byte> := [x, y];
    var t: seq<Byte> := [];
    assert h + t == [x, y];
    assert Decode(s) == Some(h + t);
  }

  /** Decoding proceeds quantum by quantum. */
  lemma DecodeAhead(s: string, head: seq<Byte>, tail: seq<Byte>)
    requires |s| >= 4
    requires DecodeQuantum(s[..4], |s| == 4) == Some(head)
    requires Decode(s[4..]) == Some(tail)
    ensures Decode(s) == Some(head + tail)
  {
  }

  /** A leading full quantum is decoded ahead of the rest of the text. */
  lemma RoundTrip3(x: Byte, y: Byte, z: Byte, rest: string, tail: seq<Byte>)
    requires Decode(rest) == Some(tail)
    ensures Decode(Quad(x, y, z) + rest) == Some([x, y, z] + tail)
  {
    var s := Quad(x, y, z) + rest;
    assert s[..4] == Quad(x, y, z) && s[4..] == rest;
    Quantum3(x, y, z, |s| == 4);
    DecodeAhead(s, [x, y, z], tail);
  }

  /** Octet strings that fill at most one quantum survive encoding and decoding. */
  lemma RoundTripShort(b: seq<Byte>)
    requires |b| < 3
    ensures Decode(Encode(b)) == Some(b)
  {
    if |b| == 1 {
      assert b == [b[0]];
      RoundTrip1(b[0]);
    } else if |b| == 2 {
      assert b == [b[0], b[1]];
      RoundTrip2(b[0], b[1]);
    }
  }

  /** Three leading octets are encoded as one quantum ahead of the rest. */
  lemma EncodeAhead(b: seq<Byte>)
    requires |b| >= 3
    ensures Encode(b) == Quad(b[0], b[1], b[2]) + Encode(b[3..])
  {
  }

  /** Once the rest of the octets round-trip, the first quantum decodes in front of them. */
  lemma DecodeQuadAhead(b: seq<Byte>)
    requires |b| >= 3
    requires Decode(Encode(b[3..])) == Some(b[3..])
    ensures Decode(Quad(b[0], b[1], b[2]) + Encode(b[3..])) == Some([b[0], b[1], b[2]] + b[3..])
  {
    RoundTrip3(b[0], b[1], b[2], Encode(b[3..]), b[3..]);
  }

  /** The long case of the round trip, from the two facts above. */
  lemma RoundTripLong(b: seq<Byte>)
    requires |b| >= 3
    requires Decode(Quad(b[0], b[1], b[2]) + Encode(b[3..])) == Some([b[0], b[1], b[2]] + b[3..])
    ensures Decode(Encode(b)) == Some([b[0], b[1], b[2]] + b[3..])
  {
    EncodeAhead(b);
  }

  /** An octet string is its first three octets followed by the rest. */
  lemma FirstThree(b: seq<Byte>)
    requires |b| >= 3
    ensures [b[0], b[1], b[2]] + b[3..] == b
  {
  }

  /** Decoding the encoding of any octet string gives that octet string back. */
  lemma {:induction false} DecodeEncode(b: seq<Byte>)
    ensures Decode(Encode(b)) == Some(b)
    decreases |b|
  {
    if |b| < 3 {
      RoundTripShort(b);
    } else {
      DecodeEncode(b[3..]);
      DecodeQuadAhead(b);
      RoundTripLong(b);
      FirstThree(b);
    }
  }

  /** The three octets regrouped from four sextets give back the sextets one by one. */
  lemma Regather(x: int, y: int, z: int, a: Sextet, b: Sextet, c: Sextet, d: Sextet)
    requires x == a * 4 + b / 16 && y == b % 16 * 16 + c / 4 && z == c % 4 * 64 + d
    ensures x / 4 == a && x % 4 * 16 + y / 16 == b && y % 16 * 4 + z / 64 == c && z % 64 == d
  {
  }

  /** Three octets regrouped from four sextets encode to those sextets' digits. */
  lemma Inverse3(x: Byte, y: Byte, z: Byte, a: Sextet, b: Sextet, c: Sextet, d: Sextet)
    requires x == a * 4 + b / 16 && y == b % 16 * 16 + c / 4 && z == c % 4 * 64 + d
    ensures Quad(x, y, z) == [Digit(a), Digit(b), Digit(c), Digit(d)]
  {
    Regather(x, y, z, a, b, c, d);
  }

  /** A final quantum with one `=` and zero pad bits is the encoding of its two octets. */
  lemma Inverse2(x: Byte, y: Byte, a: Sextet, b: Sextet, c: Sextet)
    requires x == a * 4 + b / 16 && y == b % 16 * 16 + c / 4 && c % 4 == 0
    ensures Encode([x, y]) == [Digit(a), Digit(b), Digit(c), '=']
  {
    Regather(x, y, 0, a, b, c, 0);
  }

  /** A final quantum with two `=` and zero pad bits is the encoding of its octet. */
  lemma Inverse1(x: Byte, a: Sextet, b: Sextet)
    requires x == a * 4 + b / 16 && b % 16 == 0
    ensures Encode([x]) == [Digit(a), Digit(b), '=', '=']
  {
    Regather(x, 0, 0, a, b, 0, 0);
  }

  /** A final quantum `xy==` that decodes is the encoding of its one octet. */
  lemma QuantumInverse1(q: string)
    requires |q| == 4 && q[2] == '=' && q[3] == '=' && DecodeQuantum(q, true).Some?
    ensures q == Encode(DecodeQuantum(q, true).value)
  {
    var a, b := ValueOf(q[0]).value, ValueOf(q[1]).value;
    var h := DecodeQuantum(q, true).value;
    assert |h| == 1 && h[0] == a as int * 4 + b / 16;
    assert h == [h[0]];
    Inverse1(h[0], a, b);
    assert q == [Digit(a), Digit(b), '=', '='];
  }

  /** A final quantum `xyz=` that decodes is the encoding of its two octets. */
  lemma QuantumInverse2(q: string)
    requires |q| == 4 && q[2] != '=' && q[3] == '=' && DecodeQuantum(q, true).Some?
    ensures q == Encode(DecodeQuantum(q, true).value)
  {
    var a, b, c := ValueOf(q[0]).value, ValueOf(q[1]).value, ValueOf(q[2]).value;
    var h := DecodeQuantum(q, true).value;
    assert |h| == 2 && h[0] == a as int * 4 + b / 16 && h[1] == b as int % 16 * 16 + c / 4;
    assert h == [h[0], h[1]];
    Inverse2(h[0], h[1], a, b, c);
    assert q == [Digit(a), Digit(b), Digit(c), '='];
  }

  /** A quantum without padding that decodes is the `Quad` of its three octets. */
  lemma QuantumInverse3(q: string, last: bool)
    requires |q| == 4 && (!last || q[3] != '=') && DecodeQuantum(q, last).Some?
    ensures var h := DecodeQuantum(q, last).value;
      |h| == 3 && q == Quad(h[0], h[1], h[2])
  {
    var a, b, c, d := ValueOf(q[0]).value, ValueOf(q[1]).value, ValueOf(q[2]).value, ValueOf(q[3]).value;
    var h := DecodeQuantum(q, last).value;
    assert |h| == 3 && h[0] == a as int * 4 + b / 16;
    assert h[1] == b as int % 16 * 16 + c / 4 && h[2] == c as int % 4 * 64 + d;
    Inverse3(h[0], h[1], h[2], a, b, c, d);
    assert q == [Digit(a), Digit(b), Digit(c), Digit(d)];
  }

  /**
   * A quantum that decodes is the encoding of the octets it decodes to: a full quantum
   * is their `Quad`, a padded one (necessarily the final one) their whole encoding.
   */
  lemma QuantumInverse(q: string, last: bool)
    requires |q| == 4 && DecodeQuantum(q, last).Some?
    ensures var h := DecodeQuantum(q, last).value;
      && (|h| == 3 ==> q == Quad(h[0], h[1], h[2]))
      && (|h| < 3 ==> last && q == Encode(h))
  {
    if last && q[2] == '=' && q[3] == '=' {
      QuantumInverse1(q);
    } else if last && q[3] == '=' {
      QuantumInverse2(q);
    } else {
      QuantumInverse3(q, last);
    }
  }

  /** A text that starts with a full quantum encodes the octets decoded from it. */
  lemma EncodeDecodeAhead(s: string, h: seq<Byte>, t: seq<Byte>)
    requires |s| >= 4 && |h| == 3
    requires s[..4] == Quad(h[0], h[1], h[2]) && Encode(t) == s[4..]
    ensures Encode(h + t) == s
  {
    EncodeAhead(h + t);
    assert (h + t)[3..] == t;
    assert s == s[..4] + s[4..];
  }

  /**
   * Decoding is injective and `Encode` is its inverse: a text that decodes at all is the
   * encoding of the octets it decodes to, so `Encode` is the only encoder `Decode` inverts.
   */
  lemma {:induction false} EncodeDecode(s: string)
    requires Decode(s).Some?
    ensures Encode(Decode(s).value) == s
    decreases |s|
  {
    if |s| > 0 {
      var h := DecodeQuantum(s[..4], |s| == 4).value;
      var t := Decode(s[4..]).value;
      assert Decode(s).value == h + t;
      EncodeDecode(s[4..]);
      QuantumInverse(s[..4], |s| == 4);
      if |h| == 3 {
        EncodeDecodeAhead(s, h, t);
      } else {
        assert s[4..] == [] && t == [] && h + t == h;
        assert s[..4] == s;
      }
    }
  }

  /** Pad bits that are not zero are refused: `TR==` would otherwise decode like `TQ==`. */
  lemma PadBitsChecked()
    ensures Decode("TR==") == None
  {
    assert ValueOf('R') == Some(17);
  }

  /** The octets of "Man" fill one quantum and encode to `TWFu`. */
  lemma EncodeExampleMan()
    ensures Encode([77, 97, 110]) == "TWFu"
  {
    assert Digit(19) == 'T' && Digit(22) == 'W' && Digit(5) == 'F' && Digit(46) == 'u';
    assert [77, 97, 110][3..] == [];
  }

  /** The octets of "Ma" and "M" leave a padded final quantum: `TWE=` and `TQ==`. */
  lemma EncodeExamplesPadded()
    ensures Encode([77, 97]) == "TWE="
    ensures Encode([77]) == "TQ=="
  {
    assert Digit(19) == 'T' && Digit(22) == 'W' && Digit(4) == 'E' && Digit(16) == 'Q';
  }

  /** The test vectors of section 10 of RFC 4648 for "f", "fo" and "foo". */
  lemma RfcVectorsShort()
    ensures Encode([]) == ""
    ensures Encode([102]) == "Zg=="
    ensures Encode([102, 111]) == "Zm8="
    ensures Encode([102, 111, 111]) == "Zm9v"
  {
    assert Digit(25) == 'Z' && Digit(32) == 'g' && Digit(38) == 'm' && Digit(60) == '8';
    assert Digit(61) == '9' && Digit(47) == 'v';
    assert [102, 111, 111][3..] == [];
  }

  /** The test vectors of section 10 of RFC 4648 for "foob", "fooba" and "foobar". */
  lemma RfcVectorsLong()
    ensures Encode([102, 111, 111, 98]) == "Zm9vYg=="
    ensures Encode([102, 111, 111, 98, 97]) == "Zm9vYmE="
    ensures Encode([102, 111, 111, 98, 97, 114]) == "Zm9vYmFy"
  {
    RfcVectorsShort();
    assert Digit(24) == 'Y' && Digit(32) == 'g' && Digit(38) == 'm' && Digit(4) == 'E';
    assert Digit(5) == 'F' && Digit(50) == 'y';
    assert [102, 111, 111, 98][3..] == [98];
    assert [102, 111, 111, 98, 97][3..] == [98, 97];
    assert [102, 111, 111, 98, 97, 114][3..] == [98, 97, 114];
    assert [98, 97, 114][3..] == [];
  }
}
