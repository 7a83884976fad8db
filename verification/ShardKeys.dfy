/** Shard keys, and the row ids they prefix. */
module ShardKeys {
  import opened Common
  import opened Bytes

  const SEPARATOR := 0x1F
  const ATTACH_UUID_LENGTH := 16

  // ---- Prefixing row ids -----------------------------------------------------------------------

  /** A key that can be encoded and does not hold the separator. */
  predicate IsShardKey(key: Text) { Encode(key).Some? && SEPARATOR !in key }

  function Mark(key: Text): Bytes
    requires Encode(key).Some?
  {
    Encode(key).value + [SEPARATOR]
  }

  /** `_p`. */
  function Prefixed(key: Text, id: Bytes): Bytes
    requires Encode(key).Some?
  {
    Mark(key) + id
  }

  lemma {:induction false} EncodedHoldsSeparator(key: Text)
    requires Encode(key).Some?
    ensures SEPARATOR in Encode(key).value <==> SEPARATOR in key
  {
    if key != [] {
      EncodedHoldsSeparator(key[1..]);
      assert key == [key[0]] + key[1..];
      assert SEPARATOR in EncodeOne(key[0]) <==> key[0] == SEPARATOR;
    }
  }

  lemma EncodeInjective(a: Text, b: Text)
    requires Encode(a).Some? && Encode(a) == Encode(b)
    ensures a == b
  {
    DecodeOfEncode(a);
    DecodeOfEncode(b);
  }

  /** Two keys share a row id exactly when one mark starts with the other. */
  lemma SharedRowIdsExactlyWhenMarksNest(a: Text, b: Text)
    requires Encode(a).Some? && Encode(b).Some?
    ensures (exists x: Bytes, y: Bytes :: Prefixed(a, x) == Prefixed(b, y))
            <==> Mark(a) <= Mark(b) || Mark(b) <= Mark(a)
  {
    var m, n := Mark(a), Mark(b);
    if m <= n {
      assert Prefixed(a, n[|m|..]) == Prefixed(b, []);
    }
    if n <= m {
      assert Prefixed(a, []) == Prefixed(b, m[|n|..]);
    }
    if x: Bytes, y: Bytes :| Prefixed(a, x) == Prefixed(b, y) {
      var s := Prefixed(a, x);
      assert s[..|m|] == m && s[..|n|] == n;
      if |m| <= |n| {
        assert n[..|m|] == s[..|n|][..|m|] == s[..|m|];
      } else {
        assert m[..|n|] == s[..|m|][..|n|] == s[..|n|];
      }
    }
  }

  /** The mark of a key free of the separator starts no other key's mark. */
  lemma MarksDoNotNest(a: Text, b: Text)
    requires IsShardKey(a) && IsShardKey(b) && Mark(a) <= Mark(b)
    ensures a == b
  {
    var ea, eb := Encode(a).value, Encode(b).value;
    EncodedHoldsSeparator(b);
    assert Mark(b)[|ea|] == SEPARATOR;
    assert forall i :: 0 <= i < |eb| ==> Mark(b)[i] in eb;
    assert ea == Mark(a)[..|ea|] == Mark(b)[..|ea|] == eb;
    EncodeInjective(a, b);
  }

  /** Prefixing is injective over all shard keys and ids. */
  lemma PrefixedIsInjective(a: Text, x: Bytes, b: Text, y: Bytes)
    requires IsShardKey(a) && IsShardKey(b) && Prefixed(a, x) == Prefixed(b, y)
    ensures a == b && x == y
  {
    SharedRowIdsExactlyWhenMarksNest(a, b);
    if Mark(a) <= Mark(b) {
      MarksDoNotNest(a, b);
    } else {
      MarksDoNotNest(b, a);
    }
    assert Prefixed(a, x)[|Mark(a)|..] == x && Prefixed(b, y)[|Mark(b)|..] == y;
  }

  lemma {:induction false} EncodeConcat(a: Text, b: Text)
    requires Encode(a).Some? && Encode(b).Some?
    ensures Encode(a + b) == Some(Encode(a).value + Encode(b).value)
  {
    hide EncodeOne;
    if a == [] {
      assert a + b == b && Encode(a).value + Encode(b).value == Encode(b).value;
    } else {
      EncodeConcat(a[1..], b);
      assert (a + b)[1..] == a[1..] + b && (a + b)[0] == a[0];
      assert EncodeOne(a[0]) + (Encode(a[1..]).value + Encode(b).value) == Encode(a).value + Encode(b).value;
    }
  }

  /** A key that holds the separator shares row ids with the key before it. */
  lemma SeparatorInKeyCollides(a: Text, b: Text)
    requires Encode(a).Some? && Encode(b).Some?
    ensures Encode(a + [SEPARATOR] + b).Some?
    ensures Prefixed(a + [SEPARATOR] + b, []) == Prefixed(a, Encode(b).value + [SEPARATOR])
  {
    hide Encode;
    EncodedSeparator();
    EncodeConcat(a, [SEPARATOR]);
    EncodeConcat(a + [SEPARATOR], b);
    assert Mark(a) + Encode(b).value + [SEPARATOR] + [] == Mark(a) + (Encode(b).value + [SEPARATOR]);
  }

  lemma EncodedSeparator()
    ensures Encode([SEPARATOR]) == Some([SEPARATOR])
  {
    var t: Text := [SEPARATOR];
    assert t[1..] == [] && Encode([]) == Some([]);
    assert EncodeOne(t[0]) + [] == [SEPARATOR];
  }

  // ---- Deriving keys ---------------------------------------------------------------------------

  function HexDigit(n: int): CodePoint
    requires 0 <= n < 16
  {
    if n < 10 then '0' as int + n else 'a' as int + (n - 10)
  }

  /** `data.hex()`. */
  function Hex(data: Bytes): Text {
    if data == [] then []
    else
      var last := data[|data| - 1];
      Hex(data[..|data| - 1]) + [HexDigit(last / 16), HexDigit(last % 16)]
  }

  const ATTACH_KEY: Text := ['a' as int, 't' as int, 't' as int, '-' as int]

  /** `_derive_shard_key`; None where it raises. */
  function DeriveShardKey(uuid: Option<Bytes>): Option<Text> {
    if uuid.None? || |uuid.value| != ATTACH_UUID_LENGTH then None else Some(ATTACH_KEY + Hex(uuid.value))
  }

  /** `_resolve_shard_key`; only a backend that shards remotely refuses to work without an attach. */
  function ResolveShardKey(requiresShardKey: bool, attach: Option<Bytes>): Option<Text> {
    var uuid := if attach.Some? && |attach.value| >= ATTACH_UUID_LENGTH then Some(attach.value[..ATTACH_UUID_LENGTH])
        else None;
    if uuid.Some? || requiresShardKey then DeriveShardKey(uuid) else Some([])
  }

  lemma {:induction false} HexIsInjective(a: Bytes, b: Bytes)
    requires |a| == |b| && Hex(a) == Hex(b)
    ensures a == b
  {
    if a != [] {
      var x, y := a[..|a| - 1], b[..|b| - 1];
      HexLength(x);
      HexLength(y);
      assert Hex(x) == Hex(a)[..2 * |x|] && Hex(y) == Hex(b)[..2 * |y|];
      HexIsInjective(x, y);
      var p, q := a[|a| - 1], b[|b| - 1];
      assert Hex(a)[2 * |x|] == HexDigit(p / 16) && Hex(b)[2 * |x|] == HexDigit(q / 16);
      assert Hex(a)[2 * |x| + 1] == HexDigit(p % 16) && Hex(b)[2 * |x| + 1] == HexDigit(q % 16);
      assert a == x + [p] && b == y + [q];
    }
  }

  lemma {:induction false} HexLength(data: Bytes)
    ensures |Hex(data)| == 2 * |data|
    ensures forall i :: 0 <= i < |Hex(data)| ==> 0x30 <= Hex(data)[i] < 0x80
  {
    if data != [] {
      HexLength(data[..|data| - 1]);
    }
  }

  lemma {:induction false} AsciiEncodes(t: Text)
    requires forall i :: 0 <= i < |t| ==> t[i] < 0x80
    ensures Encode(t).Some?
  {
    if t != [] {
      AsciiEncodes(t[1..]);
    }
  }

  /** Every resolved key is a shard key, so the rows of different keys never meet. */
  lemma ResolvedIsShardKey(requiresShardKey: bool, attach: Option<Bytes>)
    ensures var key := ResolveShardKey(requiresShardKey, attach);
            && (key.None? <==> requiresShardKey && (attach.None? || |attach.value| < ATTACH_UUID_LENGTH))
            && (key.Some? ==> IsShardKey(key.value) && |key.value| <= 36)
  {
    var key := ResolveShardKey(requiresShardKey, attach);
    if key.Some? && key.value != [] {
      HexLength(attach.value[..ATTACH_UUID_LENGTH]);
      AsciiEncodes(key.value);
    }
  }

  /** Two attaches get one key exactly when they carry the same leading uuid. */
  lemma ResolvedKeysFollowTheUuid(requiresShardKey: bool, a: Bytes, b: Bytes)
    requires |a| >= ATTACH_UUID_LENGTH && |b| >= ATTACH_UUID_LENGTH
    ensures ResolveShardKey(requiresShardKey, Some(a)) == ResolveShardKey(requiresShardKey, Some(b))
            <==> a[..ATTACH_UUID_LENGTH] == b[..ATTACH_UUID_LENGTH]
  {
    var x, y := a[..ATTACH_UUID_LENGTH], b[..ATTACH_UUID_LENGTH];
    var k, l := ATTACH_KEY + Hex(x), ATTACH_KEY + Hex(y);
    if k == l {
      assert Hex(x) == k[4..] && Hex(y) == l[4..];
      HexIsInjective(x, y);
    }
  }

  /** Two lower-case hexadecimal digits per byte, the high half first. */
  lemma {:induction false} HexDigits(data: Bytes, i: nat)
    requires i < |data|
    ensures |Hex(data)| == 2 * |data| && |"0123456789abcdef"| == 16
    ensures Hex(data)[2 * i] == "0123456789abcdef"[data[i] / 16] as int
    ensures Hex(data)[2 * i + 1] == "0123456789abcdef"[data[i] % 16] as int
  {
    var n := |data| - 1;
    HexLength(data[..n]);
    DigitIs(data[n] / 16);
    DigitIs(data[n] % 16);
    if i < n {
      HexDigits(data[..n], i);
    }
  }

  lemma DigitIs(n: int)
    requires 0 <= n < 16
    ensures |"0123456789abcdef"| == 16 && HexDigit(n) == "0123456789abcdef"[n] as int
  {
  }

  /**
   An attach of 16 bytes or more shards by the hexadecimal of its first 16; a shorter one, or none, is not
   sharded.
   */
  lemma ResolvedKeyIs(requiresShardKey: bool, attach: Option<Bytes>)
    ensures var key := ResolveShardKey(requiresShardKey, attach);
            if attach.Some? && |attach.value| >= 16 then
              key == Some(['a' as int, 't' as int, 't' as int, '-' as int] + Hex(attach.value[..16]))
            else key == if requiresShardKey then None else Some([])
  {
    hide Hex;
  }
}
