/** Unpadded base64url (sections 3.5 and 5 of RFC 4648), in its strict, one-spelling form. */
module Base64Url {
  import opened Common
  import opened Bytes

  const PAD: CodePoint := '=' as int

  type Sextet = v: int | 0 <= v < 64

  function CharOf(v: Sextet): CodePoint {
    if v < 26 then 'A' as int + v
    else if v < 52 then 'a' as int + (v - 26)
    else if v < 62 then '0' as int + (v - 52)
    else if v == 62 then '-' as int
    else '_' as int
  }

  predicate InAlphabet(c: CodePoint) {
    'A' as int <= c <= 'Z' as int || 'a' as int <= c <= 'z' as int || '0' as int <= c <= '9' as int
    || c == '-' as int || c == '_' as int
  }

  function SextetOf(c: CodePoint): Sextet {
    if 'A' as int <= c <= 'Z' as int then c - 'A' as int
    else if 'a' as int <= c <= 'z' as int then c - 'a' as int + 26
    else if '0' as int <= c <= '9' as int then c - '0' as int + 52
    else if c == '-' as int then 62
    else 63
  }

  lemma AlphabetRoundTrip(v: Sextet)
    ensures InAlphabet(CharOf(v)) && SextetOf(CharOf(v)) == v && CharOf(v) != PAD
  {
  }

  function High(a: Byte): Sextet { a / 4 }
  function Cross(a: Byte, b: Byte): Sextet { a % 4 * 16 + b / 16 }
  function Middle(b: Byte, c: Byte): Sextet { b % 16 * 4 + c / 64 }
  function Low(c: Byte): Sextet { c % 64 }

  /** `base64.urlsafe_b64encode`. */
  function EncodePadded(data: Bytes): Text {
    if data == [] then []
    else if |data| == 1 then [CharOf(High(data[0])), CharOf(Cross(data[0], 0)), PAD, PAD]
    else if |data| == 2 then [CharOf(High(data[0])), CharOf(Cross(data[0], data[1])), CharOf(Middle(data[1], 0)), PAD]
    else
      [CharOf(High(data[0])), CharOf(Cross(data[0], data[1])), CharOf(Middle(data[1], data[2])), CharOf(Low(data[2]))]
      + EncodePadded(data[3..])
  }

  /** `rstrip(b"=")`. */
  function RStrip(t: Text): Text {
    if t != [] && t[|t| - 1] == PAD then RStrip(t[..|t| - 1]) else t
  }

  /** `_b64url`. */
  function Encode64(data: Bytes): Text { RStrip(EncodePadded(data)) }

  function FirstByte(p: Sextet, q: Sextet): Byte { p * 4 + q / 16 }
  function SecondByte(q: Sextet, r: Sextet): Byte { q % 16 * 16 + r / 4 }
  function ThirdByte(r: Sextet, s: Sextet): Byte { r % 4 * 64 + s }

  /** `base64.urlsafe_b64decode` of padded text; the bits left over in the last character are dropped. */
  function DecodePadded(t: Text): Bytes
    requires |t| % 4 == 0
  {
    if t == [] then []
    else
      var p, q, r, s := SextetOf(t[0]), SextetOf(t[1]), SextetOf(t[2]), SextetOf(t[3]);
      if t[2] == PAD then [FirstByte(p, q)]
      else if t[3] == PAD then [FirstByte(p, q), SecondByte(q, r)]
      else [FirstByte(p, q), SecondByte(q, r), ThirdByte(r, s)] + DecodePadded(t[4..])
  }

  predicate AllInAlphabet(t: Text) { forall i :: 0 <= i < |t| ==> InAlphabet(t[i]) }

  function Pads(n: nat): (r: Text)
    ensures |r| == n
  {
    if n == 0 then [] else Pads(n - 1) + [PAD]
  }

  /** `_b64url_strict`. */
  function Decode64Strict(t: Text): Option<Bytes> {
    if t == [] || !AllInAlphabet(t) || |t| % 4 == 1 then None
    else
      var raw := DecodePadded(t + Pads((4 - |t| % 4) % 4));
      if Encode64(raw) != t then None else Some(raw)
  }

  /** The encoding is text of the alphabet, and padding it to a multiple of four gives the padded form back. */
  lemma {:induction false} EncodedIsUnpadded(data: Bytes)
    ensures var u := Encode64(data);
            && AllInAlphabet(u) && |u| % 4 != 1 && (u == [] <==> data == [])
            && EncodePadded(data) == u + Pads((4 - |u| % 4) % 4)
  {
    hide EncodePadded, Encode64, InAlphabet, RStrip, Pads;
    if data == [] {
      EmptyEncoding();
    } else if |data| <= 2 {
      ShortGroup(data);
    } else {
      EncodedIsUnpadded(data[3..]);
      var group := FullGroup(data);
      var rest := Encode64(data[3..]);
      assert group + rest + Pads((4 - |rest| % 4) % 4) == group + (rest + Pads((4 - |rest| % 4) % 4));
    }
  }

  lemma EmptyEncoding()
    ensures EncodePadded([]) == [] && Encode64([]) == [] && Pads(0) == []
  {
  }

  lemma FullGroup(data: Bytes) returns (group: Text)
    requires |data| >= 3
    ensures |group| == 4 && AllInAlphabet(group)
    ensures group == [CharOf(High(data[0])), CharOf(Cross(data[0], data[1])), CharOf(Middle(data[1], data[2])),
                      CharOf(Low(data[2]))]
    ensures EncodePadded(data) == group + EncodePadded(data[3..])
    ensures Encode64(data) == group + Encode64(data[3..])
  {
    hide High, Cross, Middle, Low, CharOf, SextetOf;
    group := [CharOf(High(data[0])), CharOf(Cross(data[0], data[1])), CharOf(Middle(data[1], data[2])),
              CharOf(Low(data[2]))];
    AlphabetRoundTrip(High(data[0]));
    AlphabetRoundTrip(Cross(data[0], data[1]));
    AlphabetRoundTrip(Middle(data[1], data[2]));
    AlphabetRoundTrip(Low(data[2]));
    StripOfConcat(group, EncodePadded(data[3..]));
  }

  lemma ShortGroup(data: Bytes)
    requires 1 <= |data| <= 2
    ensures var t := EncodePadded(data);
            && |t| == 4 && Encode64(data) == t[..|data| + 1] && AllInAlphabet(t[..|data| + 1])
            && t == t[..|data| + 1] + Pads(3 - |data|)
  {
    hide High, Cross, Middle, Low, CharOf, SextetOf;
    var t := EncodePadded(data);
    AlphabetRoundTrip(High(data[0]));
    AlphabetRoundTrip(Cross(data[0], if |data| == 1 then 0 else data[1]));
    assert t[..3] + [PAD] == t && RStrip(t) == RStrip(t[..3]);
    if |data| == 1 {
      assert t[..3][..2] == t[..2] && t[..2] + [PAD] + [PAD] == t;
      assert RStrip(t[..3]) == RStrip(t[..2]) == t[..2];
      assert Pads(0) + [PAD] == [PAD] && Pads(1) + [PAD] == [PAD, PAD];
    } else {
      AlphabetRoundTrip(Middle(data[1], 0));
      assert RStrip(t[..3]) == t[..3];
      assert Pads(0) + [PAD] == [PAD];
    }
  }

  lemma {:induction false} StripOfConcat(group: Text, rest: Text)
    requires group != [] && group[|group| - 1] != PAD
    ensures RStrip(group + rest) == group + RStrip(rest)
  {
    if rest == [] {
      assert group + rest == group;
    } else {
      StripOfConcat(group, rest[..|rest| - 1]);
      assert (group + rest)[..|group + rest| - 1] == group + rest[..|rest| - 1];
    }
  }

  lemma GroupRoundTrip(a: Byte, b: Byte, c: Byte)
    ensures FirstByte(High(a), Cross(a, b)) == a
    ensures SecondByte(Cross(a, b), Middle(b, c)) == b
    ensures ThirdByte(Middle(b, c), Low(c)) == c
  {
  }

  lemma {:induction false} DecodePaddedOfEncodePadded(data: Bytes)
    ensures |EncodePadded(data)| % 4 == 0 && DecodePadded(EncodePadded(data)) == data
  {
    hide High, Cross, Middle, Low, FirstByte, SecondByte, ThirdByte, CharOf, SextetOf;
    if data != [] {
      var a := data[0];
      var b := if |data| > 1 then data[1] else 0;
      var c := if |data| > 2 then data[2] else 0;
      GroupRoundTrip(a, b, c);
      AlphabetRoundTrip(High(a));
      AlphabetRoundTrip(Cross(a, b));
      AlphabetRoundTrip(Middle(b, c));
      AlphabetRoundTrip(Low(c));
      if |data| > 2 {
        DecodePaddedOfEncodePadded(data[3..]);
        assert EncodePadded(data)[4..] == EncodePadded(data[3..]);
        assert data == [a, b, c] + data[3..];
      }
    }
  }

  /** Strict decoding gives back any non-empty byte string from its encoding. */
  lemma StrictRoundTrip(data: Bytes)
    requires data != []
    ensures Decode64Strict(Encode64(data)) == Some(data)
  {
    EncodedIsUnpadded(data);
    DecodePaddedOfEncodePadded(data);
  }

  /** A byte string has exactly one accepted spelling, and the accepted texts are exactly the encodings. */
  lemma StrictAcceptsExactlyEncodings(t: Text)
    ensures Decode64Strict(t).Some? <==> exists data: Bytes :: data != [] && Encode64(data) == t
    ensures forall u: Text :: Decode64Strict(t).Some? && Decode64Strict(u) == Decode64Strict(t) ==> u == t
  {
    hide EncodePadded, DecodePadded, RStrip;
    if Decode64Strict(t).Some? {
      EncodedIsUnpadded(Decode64Strict(t).value);
    }
    forall data: Bytes | data != [] && Encode64(data) == t
      ensures Decode64Strict(t).Some?
    {
      StrictRoundTrip(data);
    }
  }

  /** The test of the length modulo four turns away only texts that no encoding produces. */
  lemma LengthTestIsExact(t: Text)
    requires |t| % 4 == 1
    ensures forall data: Bytes :: Encode64(data) != t
  {
    forall data: Bytes
      ensures Encode64(data) != t
    {
      EncodedIsUnpadded(data);
    }
  }

  // ---- The encoding of RFC 4648 ----------------------------------------------------------------

  /** Table 2 of RFC 4648. */
  ghost predicate Stands(c: CodePoint, v: int) {
    || (0 <= v < 26 && c == 'A' as int + v)
    || (26 <= v < 52 && c == 'a' as int + (v - 26))
    || (52 <= v < 62 && c == '0' as int + (v - 52))
    || (v == 62 && c == '-' as int)
    || (v == 63 && c == '_' as int)
  }

  lemma CharStands(v: Sextet)
    ensures Stands(CharOf(v), v)
  {
  }

  /** The characters are the digits, most significant first, of a number written in base 64. */
  ghost predicate Digits(t: Text, n: int) {
    match |t|
    case 2 => exists p, q :: Stands(t[0], p) && Stands(t[1], q) && n == p * 64 + q
    case 3 => exists p, q, r :: Stands(t[0], p) && Stands(t[1], q) && Stands(t[2], r) && n == (p * 64 + q) * 64 + r
    case 4 =>
      exists p, q, r, s :: Stands(t[0], p) && Stands(t[1], q) && Stands(t[2], r) && Stands(t[3], s)
                           && n == ((p * 64 + q) * 64 + r) * 64 + s
    case _ => false
  }

  /** Three bytes are one 24-bit number and four digits; a last byte or two are filled up with zero bits. */
  ghost predicate Spells(data: Bytes, t: Text)
    decreases |data|
  {
    match |data|
    case 0 => t == []
    case 1 => Digits(t, data[0] as int * 16)
    case 2 => Digits(t, (data[0] as int * 256 + data[1]) * 4)
    case _ => |t| >= 4 && Digits(t[..4], (data[0] as int * 256 + data[1]) * 256 + data[2]) && Spells(data[3..], t[4..])
  }

  lemma GroupNumber(a: Byte, b: Byte, c: Byte)
    ensures var p: int, q: int, r: int, s: int := High(a), Cross(a, b), Middle(b, c), Low(c);
            ((p * 64 + q) * 64 + r) * 64 + s == (a as int * 256 + b) * 256 + c
    ensures High(a) as int * 64 + Cross(a, 0) == a as int * 16
    ensures (High(a) as int * 64 + Cross(a, b)) * 64 + Middle(b, 0) == (a as int * 256 + b) * 4
  {
  }

  lemma FullDigits(a: Byte, b: Byte, c: Byte)
    ensures Digits([CharOf(High(a)), CharOf(Cross(a, b)), CharOf(Middle(b, c)), CharOf(Low(c))],
                   (a as int * 256 + b) * 256 + c)
  {
    hide CharOf, Stands, High, Cross, Middle, Low;
    CharStands(High(a));
    CharStands(Cross(a, b));
    CharStands(Middle(b, c));
    CharStands(Low(c));
    GroupNumber(a, b, c);
    var t := [CharOf(High(a)), CharOf(Cross(a, b)), CharOf(Middle(b, c)), CharOf(Low(c))];
    assert Stands(t[0], High(a)) && Stands(t[1], Cross(a, b)) && Stands(t[2], Middle(b, c)) && Stands(t[3], Low(c));
  }

  lemma ShortDigits(a: Byte, b: Byte)
    ensures Digits([CharOf(High(a)), CharOf(Cross(a, 0))], a as int * 16)
    ensures Digits([CharOf(High(a)), CharOf(Cross(a, b)), CharOf(Middle(b, 0))], (a as int * 256 + b) * 4)
  {
    hide CharOf, Stands, High, Cross, Middle;
    CharStands(High(a));
    CharStands(Cross(a, 0));
    CharStands(Cross(a, b));
    CharStands(Middle(b, 0));
    GroupNumber(a, b, 0);
    var t, u := [CharOf(High(a)), CharOf(Cross(a, 0))], [CharOf(High(a)), CharOf(Cross(a, b)), CharOf(Middle(b, 0))];
    assert Stands(t[0], High(a)) && Stands(t[1], Cross(a, 0));
    assert Stands(u[0], High(a)) && Stands(u[1], Cross(a, b)) && Stands(u[2], Middle(b, 0));
  }

  /** Every encoding is the unpadded base64url of RFC 4648. */
  lemma {:induction false} EncodingIsBase64Url(data: Bytes)
    ensures Spells(data, Encode64(data))
    decreases |data|
  {
    hide Encode64, EncodePadded, High, Cross, Middle, Low, CharOf, Digits;
    if data == [] {
      EmptyEncoding();
    } else if |data| <= 2 {
      ShortGroup(data);
      ShortText(data);
      ShortDigits(data[0], if |data| == 1 then 0 else data[1]);
    } else {
      var group := FullGroup(data);
      FullDigits(data[0], data[1], data[2]);
      EncodingIsBase64Url(data[3..]);
      var t := Encode64(data);
      assert t[..4] == group && t[4..] == Encode64(data[3..]);
    }
  }

  lemma ShortText(data: Bytes)
    requires 1 <= |data| <= 2
    ensures EncodePadded(data)[..|data| + 1]
            == if |data| == 1 then [CharOf(High(data[0])), CharOf(Cross(data[0], 0))]
               else [CharOf(High(data[0])), CharOf(Cross(data[0], data[1])), CharOf(Middle(data[1], 0))]
  {
    hide CharOf, High, Cross, Middle;
  }
}
