/** Bytes, text as code points, strict UTF-8, and fixed-width little-endian integers. */
module Bytes {
  import opened Common

  type Byte = b: int | 0 <= b < 256
  type Bytes = seq<Byte>
  type CodePoint = c: int | 0 <= c < 0x11_0000
  /** A Python `str`: lone surrogates are possible and are what UTF-8 refuses. */
  type Text = seq<CodePoint>

  function Ascii(s: string): (r: Bytes)
    requires forall i :: 0 <= i < |s| ==> s[i] as int < 128
    ensures |r| == |s| && forall i :: 0 <= i < |s| ==> r[i] == s[i] as int
  {
    seq(|s|, i requires 0 <= i < |s| => s[i] as int)
  }

  predicate IsSurrogate(c: int) { 0xD800 <= c <= 0xDFFF }

  function Width(c: CodePoint): (w: nat)
    ensures 1 <= w <= 4
  {
    if c < 0x80 then 1 else if c < 0x800 then 2 else if c < 0x1_0000 then 3 else 4
  }

  function EncodeOne(c: CodePoint): (r: Bytes)
    ensures |r| == Width(c)
  {
    var q := c / 64;
    if c < 0x80 then [c]
    else if c < 0x800 then [0xC0 + q, 0x80 + c % 64]
    else if c < 0x1_0000 then [0xE0 + q / 64, 0x80 + q % 64, 0x80 + c % 64]
    else [0xF0 + q / 64 / 64, 0x80 + q / 64 % 64, 0x80 + q % 64, 0x80 + c % 64]
  }

  predicate IsContinuation(b: int) { 0x80 <= b < 0xC0 }

  /** Append the six bits of a continuation byte. */
  function Extend(high: int, b: int): int { high * 64 + (b - 0x80) }

  /** The first character of `s` and its width; shortest forms only, no surrogates. */
  function DecodeOne(s: Bytes): Option<(CodePoint, nat)>
    requires s != []
  {
    var b: int := s[0];
    if b < 0x80 then Some((b, 1))
    else if b < 0xC0 then None
    else if b < 0xE0 then
      if |s| < 2 || !IsContinuation(s[1]) then None
      else
        var c := Extend(b - 0xC0, s[1]);
        if c < 0x80 then None else Some((c, 2))
    else if b < 0xF0 then
      if |s| < 3 || !IsContinuation(s[1]) || !IsContinuation(s[2]) then None
      else
        var c := Extend(Extend(b - 0xE0, s[1]), s[2]);
        if c < 0x800 || IsSurrogate(c) then None else Some((c, 3))
    else if b < 0xF8 then
      if |s| < 4 || !IsContinuation(s[1]) || !IsContinuation(s[2]) || !IsContinuation(s[3]) then None
      else
        var c := Extend(Extend(Extend(b - 0xF0, s[1]), s[2]), s[3]);
        if c < 0x1_0000 || c >= 0x11_0000 then None else Some((c, 4))
    else None
  }

  lemma DecodeOneOfEncodeOne(c: CodePoint, rest: Bytes)
    requires !IsSurrogate(c)
    ensures DecodeOne(EncodeOne(c) + rest) == Some((c, Width(c)))
  {
    var e, s := EncodeOne(c), EncodeOne(c) + rest;
    assert s[0] == e[0];
    assert |e| > 1 ==> s[1] == e[1];
    assert |e| > 2 ==> s[2] == e[2];
    assert |e| > 3 ==> s[3] == e[3];
  }

  lemma DivideExtended(high: int, b: int)
    requires IsContinuation(b)
    ensures Extend(high, b) / 64 == high && Extend(high, b) % 64 == b - 0x80
  {
  }

  lemma TwoBytes(s: Bytes)
    requires |s| >= 2 && 0xC0 <= s[0] < 0xE0 && IsContinuation(s[1]) && Extend(s[0] - 0xC0, s[1]) >= 0x80
    ensures EncodeOne(Extend(s[0] - 0xC0, s[1])) == [s[0], s[1]]
  {
    DivideExtended(s[0] - 0xC0, s[1]);
  }

  lemma ThreeBytes(s: Bytes)
    requires |s| >= 3 && 0xE0 <= s[0] < 0xF0 && IsContinuation(s[1]) && IsContinuation(s[2])
    requires Extend(Extend(s[0] - 0xE0, s[1]), s[2]) >= 0x800
    ensures EncodeOne(Extend(Extend(s[0] - 0xE0, s[1]), s[2])) == [s[0], s[1], s[2]]
  {
    var m := Extend(s[0] - 0xE0, s[1]);
    DivideExtended(s[0] - 0xE0, s[1]);
    DivideExtended(m, s[2]);
  }

  lemma FourBytes(s: Bytes)
    requires |s| >= 4 && 0xF0 <= s[0] < 0xF8 && IsContinuation(s[1]) && IsContinuation(s[2]) && IsContinuation(s[3])
    requires 0x1_0000 <= Extend(Extend(Extend(s[0] - 0xF0, s[1]), s[2]), s[3]) < 0x11_0000
    ensures EncodeOne(Extend(Extend(Extend(s[0] - 0xF0, s[1]), s[2]), s[3])) == [s[0], s[1], s[2], s[3]]
  {
    var m := Extend(s[0] - 0xF0, s[1]);
    var n := Extend(m, s[2]);
    DivideExtended(s[0] - 0xF0, s[1]);
    DivideExtended(m, s[2]);
    DivideExtended(n, s[3]);
  }

  lemma EncodeOneOfDecodeOne(s: Bytes)
    requires s != [] && DecodeOne(s).Some?
    ensures var (c, w) := DecodeOne(s).value;
            1 <= w <= |s| && !IsSurrogate(c) && EncodeOne(c) == s[..w]
  {
    var (c, w) := DecodeOne(s).value;
    if w == 2 {
      TwoBytes(s);
    } else if w == 3 {
      ThreeBytes(s);
    } else if w == 4 {
      FourBytes(s);
    }
    hide Extend;
  }

  /** `text.encode("utf-8")`; None when the text holds a lone surrogate. */
  function Encode(t: Text): Option<Bytes> {
    if t == [] then Some([])
    else if IsSurrogate(t[0]) then None
    else
      var rest :- Encode(t[1..]);
      Some(EncodeOne(t[0]) + rest)
  }

  /** `data.decode("utf-8", errors="strict")`. */
  function Decode(s: Bytes): Option<Text> {
    if s == [] then Some([])
    else
      var (c, w) :- DecodeOne(s);
      if w == 0 || w > |s| then None
      else
        var rest :- Decode(s[w..]);
        Some([c] + rest)
  }

  lemma {:induction false} DecodeOfEncode(t: Text)
    requires Encode(t).Some?
    ensures Decode(Encode(t).value) == Some(t)
  {
    if t != [] {
      var rest := Encode(t[1..]).value;
      DecodeOfEncode(t[1..]);
      DecodeOneOfEncodeOne(t[0], rest);
      assert (EncodeOne(t[0]) + rest)[Width(t[0])..] == rest;
      assert [t[0]] + t[1..] == t;
    }
  }

  lemma {:induction false} EncodeOfDecode(s: Bytes)
    requires Decode(s).Some?
    ensures Encode(Decode(s).value) == Some(s)
  {
    hide EncodeOne, DecodeOne;
    if s != [] {
      var (c, w) := DecodeOne(s).value;
      EncodeOneOfDecodeOne(s);
      EncodeOfDecode(s[w..]);
      var t := [c] + Decode(s[w..]).value;
      assert t[1..] == Decode(s[w..]).value;
      assert s == s[..w] + s[w..];
    }
  }

  /** Number of UTF-8 bytes of a text without surrogates. */
  function Utf8Length(s: string): nat {
    if s == [] then 0 else Width(CharCode(s[0])) + Utf8Length(s[1..])
  }

  function CharCode(c: char): CodePoint { c as int }

  function Pow256(k: nat): (r: nat)
    ensures r >= 1
  {
    if k == 0 then 1 else 256 * Pow256(k - 1)
  }

  /** `struct.pack` of an unsigned integer in `k` little-endian bytes. */
  function LittleEndian(n: nat, k: nat): (r: Bytes)
    ensures |r| == k
  {
    if k == 0 then [] else [n % 256] + LittleEndian(n / 256, k - 1)
  }

  function FromLittleEndian(s: Bytes): nat {
    if s == [] then 0 else s[0] + 256 * FromLittleEndian(s[1..])
  }

  lemma {:induction false} FromLittleEndianOfLittleEndian(n: nat, k: nat)
    requires n < Pow256(k)
    ensures FromLittleEndian(LittleEndian(n, k)) == n
  {
    if k > 0 {
      FromLittleEndianOfLittleEndian(n / 256, k - 1);
      assert LittleEndian(n, k)[1..] == LittleEndian(n / 256, k - 1);
    }
  }

  lemma {:induction false} LittleEndianOfFromLittleEndian(s: Bytes)
    ensures LittleEndian(FromLittleEndian(s), |s|) == s
    ensures FromLittleEndian(s) < Pow256(|s|)
  {
    if s != [] {
      LittleEndianOfFromLittleEndian(s[1..]);
      assert s == [s[0]] + s[1..];
    }
  }

  // ---- What the encodings are ------------------------------------------------------------------

  /** Byte `i` of a little-endian integer is its digit of weight 256 to the `i`. */
  lemma {:induction false} LittleEndianDigits(n: nat, k: nat, i: nat)
    requires i < k
    ensures Pow256(i) > 0 && LittleEndian(n, k)[i] == n / Pow256(i) % 256
  {
    if i > 0 {
      LittleEndianDigits(n / 256, k - 1, i - 1);
      DivideTwice(n, Pow256(i - 1));
    }
  }

  lemma DivideTwice(n: nat, p: nat)
    requires p > 0
    ensures n / 256 / p == n / (256 * p)
  {
    var q, r := n / 256, n % 256;
    var a, b := q / p, q % p;
    assert n == 256 * (a * p + b) + r == a * (256 * p) + (256 * b + r);
    assert 256 * b + r <= 256 * (p - 1) + 255;
    QuotientIs(n, 256 * p, a, 256 * b + r);
  }

  lemma QuotientIs(n: int, d: int, q: int, r: int)
    requires d > 0 && n == q * d + r && 0 <= r < d
    ensures n / d == q
  {
    assert (n / d - q) * d == r - n % d;
    AtLeastOnce(n / d - q, d);
  }

  lemma AtLeastOnce(e: int, d: int)
    requires d > 0
    ensures e >= 1 ==> e * d >= d
    ensures e <= -1 ==> e * d <= -d
  {
  }

  /** The six bits of a byte that follows a lead byte. */
  ghost predicate Carries(b: Byte, bits: int) { 0x80 <= b < 0xC0 && bits == b - 0x80 }

  /** The table of section 3 of RFC 3629: the lead byte tells how many bytes follow, each of which carries six bits. */
  ghost predicate IsUtf8Of(r: Bytes, c: CodePoint) {
    match |r|
    case 1 => c < 0x80 && r[0] == c
    case 2 => 0x80 <= c < 0x800 && 0xC0 <= r[0] < 0xE0 && r[0] == 0xC0 + c / 64 && Carries(r[1], c % 64)
    case 3 =>
      && 0x800 <= c < 0x1_0000 && 0xE0 <= r[0] < 0xF0
      && r[0] == 0xE0 + c / 4096 && Carries(r[1], c / 64 % 64) && Carries(r[2], c % 64)
    case 4 =>
      && 0x1_0000 <= c && 0xF0 <= r[0] < 0xF8
      && r[0] == 0xF0 + c / 262144 && Carries(r[1], c / 4096 % 64) && Carries(r[2], c / 64 % 64)
      && Carries(r[3], c % 64)
    case _ => false
  }

  lemma EncodeOneIsUtf8(c: CodePoint)
    ensures IsUtf8Of(EncodeOne(c), c)
  {
    assert c / 64 / 64 == c / 4096 && c / 64 / 64 / 64 == c / 262144;
  }

  /** A text is encoded character by character, and exactly when it holds no surrogate. */
  ghost predicate IsUtf8(b: Bytes, t: Text)
    decreases |t|
  {
    if t == [] then b == []
    else exists n :: 0 < n <= |b| && IsUtf8Of(b[..n], t[0]) && IsUtf8(b[n..], t[1..])
  }

  lemma {:induction false} EncodeIsUtf8(t: Text)
    ensures Encode(t).Some? <==> forall i :: 0 <= i < |t| ==> !(0xD800 <= t[i] <= 0xDFFF)
    ensures Encode(t).Some? ==> IsUtf8(Encode(t).value, t)
  {
    hide EncodeOne, IsUtf8Of;
    if t != [] {
      EncodeIsUtf8(t[1..]);
      assert t == [t[0]] + t[1..];
      if Encode(t).Some? {
        EncodeOneIsUtf8(t[0]);
        var b, n := Encode(t).value, |EncodeOne(t[0])|;
        assert b[..n] == EncodeOne(t[0]) && b[n..] == Encode(t[1..]).value;
      }
    }
  }
}
