/**
 * The two library encodings the key derivation of the session record is built from:
 * UTF-8 encoding of a string (Python's `str.encode("utf-8")`) and the Base64 encoding
 * with the standard alphabet and `=` padding of section 4 of RFC 4648
 * (Python's `base64.b64encode`), with its decoder.
 */
module Encoding {
  import opened Optional

  /** One octet of a Python `bytes` value. */
  type byte = b: int | 0 <= b < 256

  predicate IsAscii(s: string) {
    forall i :: 0 <= i < |s| ==> s[i] as int < 0x80
  }

  // ---------------------------------------------------------------- UTF-8

  /** The UTF-8 encoding of one Unicode scalar value (section 3 of RFC 3629). */
  function CharUtf8(c: char): (r: seq<byte>)
    ensures 1 <= |r| <= 4
    ensures |r| == 1 <==> c as int < 0x80
    ensures c as int < 0x80 ==> r[0] == c as int
  {
    var cp := c as int;
    if cp < 0x80 then [cp]
    else if cp < 0x800 then [0xC0 + cp / 0x40, 0x80 + cp % 0x40]
    else if cp < 0x1_0000 then [0xE0 + cp / 0x1000, 0x80 + cp / 0x40 % 0x40, 0x80 + cp % 0x40]
    else [0xF0 + cp / 0x4_0000, 0x80 + cp / 0x1000 % 0x40, 0x80 + cp / 0x40 % 0x40, 0x80 + cp % 0x40]
  }

  /** The UTF-8 encoding of a string: never shorter than the string, and as long
      as it exactly when every character is ASCII. */
  function Utf8(s: string): (r: seq<byte>)
    ensures |r| >= |s|
    ensures |r| == |s| <==> IsAscii(s)
    decreases |s|
  {
    if s == [] then []
    else
      var r := CharUtf8(s[0]) + Utf8(s[1..]);
      assert IsAscii(s) <==> s[0] as int < 0x80 && IsAscii(s[1..]) by {
        if s[0] as int < 0x80 && IsAscii(s[1..]) {
          forall i | 0 <= i < |s| ensures s[i] as int < 0x80 {
            if i > 0 { assert s[i] == s[1..][i - 1]; }
          }
        }
      }
      r
  }

  /** Encoding distributes over concatenation. */
  lemma {:induction false} Utf8Append(a: string, b: string)
    ensures Utf8(a + b) == Utf8(a) + Utf8(b)
    decreases |a|
  {
    if a != [] {
      assert (a + b)[0] == a[0];
      assert (a + b)[1..] == a[1..] + b;
      Utf8Append(a[1..], b);
    } else {
      assert a + b == b;
    }
  }

  /** An ASCII string encodes byte for byte as its code points. */
  lemma {:induction false} Utf8OfAscii(s: string)
    requires IsAscii(s)
    ensures |Utf8(s)| == |s|
    ensures forall i :: 0 <= i < |s| ==> Utf8(s)[i] == s[i] as int
    decreases |s|
  {
    if s != [] {
      assert IsAscii(s[1..]) by {
        forall i | 0 <= i < |s| - 1 ensures s[1..][i] as int < 0x80 { assert s[1..][i] == s[i + 1]; }
      }
      Utf8OfAscii(s[1..]);
      assert Utf8(s) == [s[0] as int] + Utf8(s[1..]);
    }
  }

  // --------------------------------------------------------------- Base64

  /** The standard alphabet of RFC 4648, table 1: A-Z, a-z, 0-9, '+', '/'. */
  function Base64Char(i: int): (c: char)
    requires 0 <= i < 64
    ensures c != '='
  {
    if i < 26 then ('A' as int + i) as char
    else if i < 52 then ('a' as int + (i - 26)) as char
    else if i < 62 then ('0' as int + (i - 52)) as char
    else if i == 62 then '+'
    else '/'
  }

  /** The position of a character in the standard alphabet, if it is in it. */
  function Base64Index(c: char): (r: Option<int>)
    ensures r.Some? ==> 0 <= r.value < 64 && Base64Char(r.value) == c
    ensures c == '=' ==> r.None?
  {
    if 'A' <= c <= 'Z' then Some(c as int - 'A' as int)
    else if 'a' <= c <= 'z' then Some(c as int - 'a' as int + 26)
    else if '0' <= c <= '9' then Some(c as int - '0' as int + 52)
    else if c == '+' then Some(62)
    else if c == '/' then Some(63)
    else None
  }

  /** The number of '=' characters that pad the encoding of `n` bytes. */
  function PadLength(n: nat): (r: nat) {
    (3 - n % 3) % 3
  }

  predicate AllSextets(v: seq<int>) {
    forall i :: 0 <= i < |v| ==> 0 <= v[i] < 64
  }

  /** The 6-bit values the bytes are cut into, 24 bits (4 values) per 3 bytes; a final
      group of 1 or 2 bytes gives 2 or 3 values, its missing low bits taken as zero. */
  function Sextets(b: seq<byte>): (v: seq<int>)
    ensures AllSextets(v)
    ensures |v| + PadLength(|b|) == 4 * ((|b| + 2) / 3)
    decreases |b|
  {
    if |b| == 0 then []
    else if |b| == 1 then [b[0] / 4, b[0] % 4 * 16]
    else if |b| == 2 then [b[0] / 4, b[0] % 4 * 16 + b[1] / 16, b[1] % 16 * 4]
    else
      var rest := Sextets(b[3..]);
      var v := Quad(b[0], b[1], b[2]) + rest;
      assert forall i :: 4 <= i < |v| ==> v[i] == rest[i - 4];
      GroupCount(|b|);
      v
  }

  /** The four 6-bit values of a full group of three bytes. */
  function Quad(x: byte, y: byte, z: byte): (q: seq<int>)
    ensures |q| == 4 && AllSextets(q)
  {
    [x / 4, x % 4 * 16 + y / 16, y % 16 * 4 + z / 64, z % 64]
  }

  /** Dropping a full group leaves the padding alone and removes one group of four. */
  lemma GroupCount(n: nat)
    requires n >= 3
    ensures PadLength(n) == PadLength(n - 3) && 4 * ((n + 2) / 3) == 4 + 4 * ((n - 1) / 3)
  {
  }

  /** Joins 6-bit values back into bytes; a trailing single value cannot come from any bytes. */
  function FromSextets(v: seq<int>): (r: Option<seq<byte>>)
    requires AllSextets(v)
    decreases |v|
  {
    if |v| == 0 then Some([])
    else if |v| == 1 then None
    else if |v| == 2 then Some([v[0] * 4 + v[1] / 16])
    else if |v| == 3 then Some([v[0] * 4 + v[1] / 16, v[1] % 16 * 16 + v[2] / 4])
    else
      match FromSextets(v[4..])
      case None => None
      case Some(rest) => Some([v[0] * 4 + v[1] / 16, v[1] % 16 * 16 + v[2] / 4, v[2] % 4 * 64 + v[3]] + rest)
  }

  /** The characters of the standard alphabet at the given positions. */
  function ToChars(v: seq<int>): (s: string)
    requires AllSextets(v)
    ensures |s| == |v|
    ensures forall i :: 0 <= i < |s| ==> s[i] != '=' && Base64Index(s[i]) == Some(v[i])
  {
    seq(|v|, i requires 0 <= i < |v| => Base64Char(v[i]))
  }

  /** The alphabet positions of the characters, if every one is in the alphabet. */
  function FromChars(s: string): (r: Option<seq<int>>)
    ensures r.Some? ==> AllSextets(r.value) && |r.value| == |s|
  {
    if forall i :: 0 <= i < |s| ==> Base64Index(s[i]).Some? then
      Some(seq(|s|, i requires 0 <= i < |s| => Base64Index(s[i]).value))
    else None
  }

  /** Base64 with '=' padding: every 3 input bytes become 4 characters, a final group of
      1 or 2 bytes becomes 2 or 3 characters followed by 2 or 1 '='. The result has
      4 * ceil(n / 3) characters and '=' appears exactly in its last PadLength(n) places. */
  function Base64Encode(b: seq<byte>): (r: string)
    ensures |r| == 4 * ((|b| + 2) / 3)
    ensures forall i :: 0 <= i < |r| ==> (r[i] == '=' <==> i >= |r| - PadLength(|b|))
  {
    var body := ToChars(Sextets(b));
    var r := body + seq(PadLength(|b|), _ => '=');
    assert forall i :: 0 <= i < |body| ==> r[i] == body[i];
    r
  }

  /** The number of '=' that end `s`, at most two. */
  function TrailingPad(s: string): (n: nat)
    ensures n <= 2 && n <= |s|
  {
    if |s| >= 2 && s[|s| - 1] == '=' && s[|s| - 2] == '=' then 2
    else if |s| >= 1 && s[|s| - 1] == '=' then 1
    else 0
  }

  /** The strict decoder: groups of four characters of the alphabet, with '=' only as
      the padding of the last group. */
  function Base64Decode(s: string): (r: Option<seq<byte>>)
  {
    if |s| % 4 != 0 then None
    else
      match FromChars(s[..|s| - TrailingPad(s)])
      case None => None
      case Some(v) => FromSextets(v)
  }

  /** The arithmetic of one group: the 6-bit values recombine to the bytes they were cut from. */
  lemma GroupArithmetic(x: byte, y: byte, z: byte)
    ensures x / 4 * 4 + (x % 4 * 16 + y / 16) / 16 == x
    ensures (x % 4 * 16 + y / 16) % 16 * 16 + (y % 16 * 4 + z / 64) / 4 == y
    ensures (y % 16 * 4 + z / 64) % 4 * 64 + z % 64 == z
  {
    assert (x % 4 * 16 + y / 16) / 16 == x % 4 && (x % 4 * 16 + y / 16) % 16 == y / 16;
    assert (y % 16 * 4 + z / 64) / 4 == y % 16 && (y % 16 * 4 + z / 64) % 4 == z / 64;
  }

  /** Joining a full group's values in front of joinable values joins the three bytes in front. */
  lemma QuadJoins(x: byte, y: byte, z: byte, rest: seq<int>, tail: seq<byte>)
    requires AllSextets(rest) && FromSextets(rest) == Some(tail)
    ensures FromSextets(Quad(x, y, z) + rest) == Some([x, y, z] + tail)
  {
    var v := Quad(x, y, z) + rest;
    assert v[4..] == rest;
    GroupArithmetic(x, y, z);
  }

  /** Joining the 6-bit values gives back the bytes. */
  lemma {:induction false} SextetsRoundTrip(b: seq<byte>)
    ensures FromSextets(Sextets(b)) == Some(b)
    decreases |b|
  {
    if |b| == 1 {
      GroupArithmetic(b[0], 0, 0);
      assert b == [b[0]];
    } else if |b| == 2 {
      GroupArithmetic(b[0], b[1], 0);
      assert b == [b[0], b[1]];
    } else if |b| >= 3 {
      SextetsRoundTrip(b[3..]);
      QuadJoins(b[0], b[1], b[2], Sextets(b[3..]), b[3..]);
      assert b == [b[0], b[1], b[2]] + b[3..];
    }
  }

  /** Reading the alphabet gives back the positions. */
  lemma CharsRoundTrip(v: seq<int>)
    requires AllSextets(v)
    ensures FromChars(ToChars(v)) == Some(v)
  {
    var body := ToChars(v);
    assert forall i :: 0 <= i < |body| ==> Base64Index(body[i]).Some?;
    var w := FromChars(body).value;
    assert forall i :: 0 <= i < |v| ==> w[i] == v[i];
    assert w == v;
  }

  /** Up to two '=' after a body that does not end in '=' are exactly what TrailingPad counts. */
  lemma StripPad(body: string, k: nat)
    requires k <= 2 && (k == 1 ==> |body| >= 1)
    requires |body| > 0 ==> body[|body| - 1] != '='
    ensures var s := body + seq(k, _ => '=');
            TrailingPad(s) == k && s[..|s| - k] == body
  {
    var s := body + seq(k, _ => '=');
    assert s[..|s| - k] == body;
    if k == 0 && |body| > 0 {
      assert s[|s| - 1] == body[|body| - 1];
    } else if k == 1 {
      assert s[|s| - 2] == body[|body| - 1];
    }
  }

  /** The counting facts about padding: at most two '=', a single '=' follows at least
      one full group, and the encoded length is a multiple of four. */
  lemma PadArithmetic(n: nat)
    ensures PadLength(n) <= 2
    ensures PadLength(n) == 1 ==> 4 * ((n + 2) / 3) >= 4
    ensures (4 * ((n + 2) / 3)) % 4 == 0
  {
  }

  /** The decoder strips exactly the padding the encoder added. */
  lemma PaddingStripped(b: seq<byte>)
    ensures var s := Base64Encode(b);
            |s| % 4 == 0 && s[..|s| - TrailingPad(s)] == ToChars(Sextets(b))
  {
    var s, body, k := Base64Encode(b), ToChars(Sextets(b)), PadLength(|b|);
    assert |s| % 4 == 0 by {
      PadArithmetic(|b|);
    }
    assert s[..|s| - TrailingPad(s)] == body by {
      PadArithmetic(|b|);
      StripPad(body, k);
      assert s == body + seq(k, _ => '=');
    }
  }

  /** Joinable 6-bit values give three bytes per four values, rounded down; a lone
      trailing value never joins. */
  lemma {:induction false} FromSextetsLength(v: seq<int>)
    requires AllSextets(v) && FromSextets(v).Some?
    ensures |FromSextets(v).value| == 3 * |v| / 4 && |v| % 4 != 1
    decreases |v|
  {
    if |v| >= 4 {
      FromSextetsLength(v[4..]);
    }
  }

  /** A string that decodes gives three bytes per group of four characters, less one
      per trailing '='. */
  lemma DecodedLength(s: string)
    requires Base64Decode(s).Some?
    ensures |Base64Decode(s).value| == 3 * (|s| / 4) - TrailingPad(s)
  {
    var t := TrailingPad(s);
    var v := FromChars(s[..|s| - t]).value;
    FromSextetsLength(v);
    assert |v| == |s| - t;
    assert t == 0 || t == 1 || t == 2;
  }

  // Section 4 of RFC 4648 spells each group of bytes separately: three bytes give four
  // letters; a final one or two bytes give two or three letters and '=' padding.

  function Spell3(x: byte, y: byte, z: byte): (r: string) {
    [Base64Char(x / 4), Base64Char(x % 4 * 16 + y / 16), Base64Char(y % 16 * 4 + z / 64), Base64Char(z % 64)]
  }

  function Spell2(x: byte, y: byte): (r: string) {
    [Base64Char(x / 4), Base64Char(x % 4 * 16 + y / 16), Base64Char(y % 16 * 4), '=']
  }

  function Spell1(x: byte): (r: string) {
    [Base64Char(x / 4), Base64Char(x % 4 * 16), '=', '=']
  }

  // The encoder agrees with the group-by-group spelling, for inputs of up to six bytes.
  // Each lemma takes the expected text as a parameter `s`, `t`.

  lemma EncodeOne(x: byte, s: string)
    requires s == Spell1(x)
    ensures Base64Encode([x]) == s
  {
    assert ToChars(Sextets([x]))[1] == Base64Char(x % 4 * 16);
  }

  lemma EncodeTwo(x: byte, y: byte, s: string)
    requires s == Spell2(x, y)
    ensures Base64Encode([x, y]) == s
  {
    assert ToChars(Sextets([x, y]))[2] == Base64Char(y % 16 * 4);
  }

  lemma EncodeThree(x: byte, y: byte, z: byte, s: string)
    requires s == Spell3(x, y, z)
    ensures Base64Encode([x, y, z]) == s
  {
    LeadingSextets(x, y, z, []);
    assert [x, y, z] + [] == [x, y, z];
  }

  lemma EncodeFour(x: byte, y: byte, z: byte, u: byte, s: string, t: string)
    requires s == Spell3(x, y, z) && t == Spell1(u)
    ensures Base64Encode([x, y, z, u]) == s + t
  {
    EncodeThree(x, y, z, s);
    EncodeOne(u, t);
    FirstGroup(x, y, z, [u]);
    assert [x, y, z] + [u] == [x, y, z, u];
  }

  lemma EncodeFive(x: byte, y: byte, z: byte, u: byte, v: byte, s: string, t: string)
    requires s == Spell3(x, y, z) && t == Spell2(u, v)
    ensures Base64Encode([x, y, z, u, v]) == s + t
  {
    EncodeThree(x, y, z, s);
    EncodeTwo(u, v, t);
    FirstGroup(x, y, z, [u, v]);
    assert [x, y, z] + [u, v] == [x, y, z, u, v];
  }

  lemma EncodeSix(x: byte, y: byte, z: byte, u: byte, v: byte, w: byte, s: string, t: string)
    requires s == Spell3(x, y, z) && t == Spell3(u, v, w)
    ensures Base64Encode([x, y, z, u, v, w]) == s + t
  {
    EncodeThree(x, y, z, s);
    EncodeThree(u, v, w, t);
    FirstGroup(x, y, z, [u, v, w]);
    assert [x, y, z] + [u, v, w] == [x, y, z, u, v, w];
  }

  // The test vectors of section 10 of RFC 4648, for the prefixes of "foobar".

  lemma Rfc4648Empty()
    ensures Base64Encode([]) == ""
  {
  }

  lemma Rfc4648F()
    ensures Base64Encode([102]) == "Zg=="
  {
    EncodeOne(102, "Zg==");
  }

  lemma Rfc4648Fo()
    ensures Base64Encode([102, 111]) == "Zm8="
  {
    EncodeTwo(102, 111, "Zm8=");
  }

  lemma Rfc4648Foo()
    ensures Base64Encode([102, 111, 111]) == "Zm9v"
  {
    EncodeThree(102, 111, 111, "Zm9v");
  }

  lemma Rfc4648Foob()
    ensures Base64Encode([102, 111, 111, 98]) == "Zm9vYg=="
  {
    EncodeFour(102, 111, 111, 98, "Zm9v", "Yg==");
  }

  lemma Rfc4648Fooba()
    ensures Base64Encode([102, 111, 111, 98, 97]) == "Zm9vYmE="
  {
    EncodeFive(102, 111, 111, 98, 97, "Zm9v", "YmE=");
  }

  lemma Rfc4648Foobar()
    ensures Base64Encode([102, 111, 111, 98, 97, 114]) == "Zm9vYmFy"
  {
    EncodeSix(102, 111, 111, 98, 97, 114, "Zm9v", "YmFy");
  }

  /** Encoding works three bytes at a time: a leading group of three encodes to its own
      four characters, independently of what follows. */
  lemma FirstGroup(x: byte, y: byte, z: byte, rest: seq<byte>)
    ensures Base64Encode([x, y, z] + rest) == Base64Encode([x, y, z]) + Base64Encode(rest)
  {
    var q, v := Quad(x, y, z), Sextets(rest);
    var pad := seq(PadLength(|rest|), _ => '=');
    LeadingSextets(x, y, z, rest);
    LeadingSextets(x, y, z, []);
    assert [x, y, z] + [] == [x, y, z];
    ToCharsAppend(q, v);
    assert Base64Encode([x, y, z] + rest) == ToChars(q + v) + pad by {
      PadShift(|rest|);
    }
    assert Base64Encode([x, y, z]) == ToChars(q) by {
      assert Sextets([x, y, z]) == q;
    }
    assert Base64Encode(rest) == ToChars(v) + pad;
  }

  lemma PadShift(n: nat)
    ensures PadLength(n + 3) == PadLength(n)
  {
    assert (n + 3) % 3 == n % 3;
  }

  lemma LeadingSextets(x: byte, y: byte, z: byte, rest: seq<byte>)
    ensures Sextets([x, y, z] + rest) == Quad(x, y, z) + Sextets(rest)
  {
    assert ([x, y, z] + rest)[3..] == rest;
  }

  lemma ToCharsAppend(q: seq<int>, v: seq<int>)
    requires AllSextets(q) && AllSextets(v)
    ensures AllSextets(q + v) && ToChars(q + v) == ToChars(q) + ToChars(v)
  {
    assert forall i :: 0 <= i < |q + v| ==> (q + v)[i] == if i < |q| then q[i] else v[i - |q|];
  }

  /** Decoding undoes encoding. */
  lemma Base64RoundTrip(b: seq<byte>)
    ensures Base64Decode(Base64Encode(b)) == Some(b)
  {
    var s := Base64Encode(b);
    var v := Sextets(b);
    PaddingStripped(b);
    CharsRoundTrip(v);
    assert FromChars(s[..|s| - TrailingPad(s)]) == Some(v);
    SextetsRoundTrip(b);
  }
}
