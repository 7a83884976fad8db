/** Attach tickets: the payload codec, minting and opening. The AEAD is an abstract seal/open pair. */
module AttachTicket {
  import opened Common
  import opened Bytes
  import opened Base64Url

  const MAX_OPTIONS_BYTES := 16 * 1024
  const MAX_TICKET_CHARS := 32 * 1024
  const MAX_TEXT := 0xFFFF
  const CLOCK_SKEW_SECONDS := 60
  const INT64_LIMIT := 0x8000_0000_0000_0000

  datatype Claims = Claims(
    issuedAt: int,
    expiresAt: int,
    ticketId: Text,
    catalogName: Text,
    dataVersionSpec: Text,
    implementationVersion: Text,
    optionsIpc: Bytes)

  /** `[0-9a-f]{32}`. */
  predicate IsTicketId(t: Text) {
    |t| == 32 && forall i :: 0 <= i < 32 ==> '0' as int <= t[i] <= '9' as int || 'a' as int <= t[i] <= 'f' as int
  }

  /** The rules on fields that both minting and decoding enforce. */
  predicate ValidClaims(c: Claims) {
    IsTicketId(c.ticketId) && c.catalogName != [] && (c.expiresAt != 0 ==> c.expiresAt > c.issuedAt)
  }

  // ---- The payload codec -----------------------------------------------------------------------

  /** `struct.pack("<q", n)`. */
  function PackInt64(n: int): Option<Bytes> {
    if -INT64_LIMIT <= n < INT64_LIMIT then Some(LittleEndian(if n < 0 then n + 2 * INT64_LIMIT else n, 8)) else None
  }

  function UnpackInt64(b: Bytes): int {
    var n := FromLittleEndian(b);
    if n >= INT64_LIMIT then n - 2 * INT64_LIMIT else n
  }

  function PackText(t: Text): Option<Bytes> {
    var raw :- Encode(t);
    if |raw| > MAX_TEXT then None else Some(LittleEndian(|raw|, 2) + raw)
  }

  /** `_encode_payload`; None for a field that cannot be encoded. */
  function EncodePayload(c: Claims): Option<Bytes> {
    if |c.optionsIpc| > MAX_OPTIONS_BYTES then None
    else
      var issued :- PackInt64(c.issuedAt);
      var expires :- PackInt64(c.expiresAt);
      var id :- PackText(c.ticketId);
      var catalog :- PackText(c.catalogName);
      var data :- PackText(c.dataVersionSpec);
      var implementation :- PackText(c.implementationVersion);
      Some(issued + (expires + (id + (catalog + (data + (implementation
           + (LittleEndian(|c.optionsIpc|, 4) + c.optionsIpc)))))))
  }

  /** The next `n` bytes and what follows them. */
  function Take(rest: Bytes, n: nat): Option<(Bytes, Bytes)> {
    if n > |rest| then None else Some((rest[..n], rest[n..]))
  }

  function TakeText(rest: Bytes): Option<(Text, Bytes)> {
    var (size, afterSize) :- Take(rest, 2);
    var (raw, after) :- Take(afterSize, FromLittleEndian(size));
    var text :- Decode(raw);
    Some((text, after))
  }

  function TakeInt64(rest: Bytes): Option<(int, Bytes)> {
    var (raw, after) :- Take(rest, 8);
    Some((UnpackInt64(raw), after))
  }

  function TakeOptions(rest: Bytes): Option<(Bytes, Bytes)> {
    var (size, after) :- Take(rest, 4);
    if FromLittleEndian(size) > MAX_OPTIONS_BYTES then None else Take(after, FromLittleEndian(size))
  }

  /** `_decode_payload`: exact lengths, valid UTF-8, the field rules, and no trailing bytes. */
  function DecodePayload(payload: Bytes): Option<Claims> {
    var (issued, r1) :- TakeInt64(payload);
    var (expires, r2) :- TakeInt64(r1);
    var (id, r3) :- TakeText(r2);
    var (catalog, r4) :- TakeText(r3);
    var (data, r5) :- TakeText(r4);
    var (implementation, r6) :- TakeText(r5);
    var (options, r7) :- TakeOptions(r6);
    var c := Claims(issued, expires, id, catalog, data, implementation, options);
    if r7 == [] && ValidClaims(c) then Some(c) else None
  }

  /** The cursor over a payload. */
  class Cursor {
    const payload: Bytes
    var pos: nat

    ghost predicate Valid()
      reads this
    {
      pos <= |payload|
    }

    /** What has not been read yet. */
    ghost function Rest(): Bytes
      requires Valid()
      reads this
    {
      payload[pos..]
    }

    constructor (payload: Bytes)
      ensures Valid() && this.payload == payload && Rest() == payload
    {
      this.payload := payload;
      pos := 0;
    }

    /** `take`. */
    method TakeBytes(n: nat) returns (r: Option<Bytes>)
      requires Valid()
      modifies this`pos
      ensures Valid()
      ensures r.None? <==> Take(old(Rest()), n).None?
      ensures r.Some? ==> Take(old(Rest()), n) == Some((r.value, Rest()))
    {
      if pos + n > |payload| {
        return None;
      }
      var chunk := payload[pos..pos + n];
      assert payload[pos..][..n] == chunk && payload[pos..][n..] == payload[pos + n..];
      pos := pos + n;
      return Some(chunk);
    }

    /** `pos == len(payload)`. */
    method AtEnd() returns (r: bool)
      requires Valid()
      ensures r <==> Rest() == []
    {
      assert |Rest()| == |payload| - pos;
      r := pos == |payload|;
    }

    /** `text`. */
    method NextText() returns (r: Option<Text>)
      requires Valid()
      modifies this`pos
      ensures Valid()
      ensures r.None? <==> TakeText(old(Rest())).None?
      ensures r.Some? ==> TakeText(old(Rest())) == Some((r.value, Rest()))
    {
      hide Decode;
      var size := TakeBytes(2);
      if size.None? {
        return None;
      }
      var raw := TakeBytes(FromLittleEndian(size.value));
      if raw.None? {
        return None;
      }
      r := Decode(raw.value);
    }
  }

  /** `_decode_payload` as it runs, advancing one cursor. */
  method ReadPayload(payload: Bytes) returns (r: Option<Claims>)
    ensures r == DecodePayload(payload)
  {
    hide Take, TakeText, UnpackInt64, ValidClaims, FromLittleEndian, Cursor.Rest, Cursor.Valid;
    var cursor := new Cursor(payload);
    var issued := cursor.TakeBytes(8);
    if issued.None? {
      return None;
    }
    var expires := cursor.TakeBytes(8);
    if expires.None? {
      return None;
    }
    var id := cursor.NextText();
    if id.None? {
      return None;
    }
    var catalog := cursor.NextText();
    if catalog.None? {
      return None;
    }
    var data := cursor.NextText();
    if data.None? {
      return None;
    }
    var implementation := cursor.NextText();
    if implementation.None? {
      return None;
    }
    var size := cursor.TakeBytes(4);
    if size.None? || FromLittleEndian(size.value) > MAX_OPTIONS_BYTES {
      return None;
    }
    var options := cursor.TakeBytes(FromLittleEndian(size.value));
    if options.None? {
      return None;
    }
    var ended := cursor.AtEnd();
    if !ended {
      return None;
    }
    var c := Claims(UnpackInt64(issued.value), UnpackInt64(expires.value), id.value, catalog.value, data.value,
                    implementation.value, options.value);
    if !ValidClaims(c) {
      return None;
    }
    return Some(c);
  }

  // ---- One field at a time ---------------------------------------------------------------------

  lemma PowersOf256()
    ensures Pow256(2) == 0x1_0000 && Pow256(4) == 0x1_0000_0000 && Pow256(8) == 2 * INT64_LIMIT
  {
    assert Pow256(1) == 256 && Pow256(3) == 0x100_0000 && Pow256(5) == 0x100_0000_0000;
    assert Pow256(6) == 0x1_0000_0000_0000 && Pow256(7) == 0x100_0000_0000_0000;
  }

  lemma Int64RoundTrip(n: int, rest: Bytes)
    requires PackInt64(n).Some?
    ensures TakeInt64(PackInt64(n).value + rest) == Some((n, rest))
  {
    hide LittleEndian, FromLittleEndian, Pow256;
    PowersOf256();
    var b := PackInt64(n).value;
    FromLittleEndianOfLittleEndian(if n < 0 then n + 2 * INT64_LIMIT else n, 8);
    assert (b + rest)[..8] == b && (b + rest)[8..] == rest;
  }

  lemma Int64Canonical(s: Bytes)
    requires TakeInt64(s).Some?
    ensures var (n, rest) := TakeInt64(s).value;
            PackInt64(n).Some? && s == PackInt64(n).value + rest
  {
    hide LittleEndian, FromLittleEndian, Pow256;
    PowersOf256();
    LittleEndianOfFromLittleEndian(s[..8]);
    assert s == s[..8] + s[8..];
  }

  lemma TextRoundTrip(t: Text, rest: Bytes)
    requires PackText(t).Some?
    ensures TakeText(PackText(t).value + rest) == Some((t, rest))
  {
    hide LittleEndian, FromLittleEndian, Pow256, Encode, Decode;
    PowersOf256();
    var raw := Encode(t).value;
    var size := LittleEndian(|raw|, 2);
    FromLittleEndianOfLittleEndian(|raw|, 2);
    DecodeOfEncode(t);
    var s := size + raw + rest;
    assert s[..2] == size && s[2..] == raw + rest;
    assert (raw + rest)[..|raw|] == raw && (raw + rest)[|raw|..] == rest;
  }

  lemma TextCanonical(s: Bytes)
    requires TakeText(s).Some?
    ensures var (t, rest) := TakeText(s).value;
            PackText(t).Some? && s == PackText(t).value + rest
  {
    hide LittleEndian, FromLittleEndian, Pow256, Encode, Decode;
    PowersOf256();
    var size := s[..2];
    LittleEndianOfFromLittleEndian(size);
    var raw := s[2..][..FromLittleEndian(size)];
    EncodeOfDecode(raw);
    assert s == size + raw + s[2..][FromLittleEndian(size)..];
  }

  lemma OptionsRoundTrip(options: Bytes)
    requires |options| <= MAX_OPTIONS_BYTES
    ensures TakeOptions(LittleEndian(|options|, 4) + options) == Some((options, []))
  {
    hide LittleEndian, FromLittleEndian, Pow256;
    PowersOf256();
    var size := LittleEndian(|options|, 4);
    FromLittleEndianOfLittleEndian(|options|, 4);
    assert (size + options)[..4] == size && (size + options)[4..] == options;
    assert options[..|options|] == options && options[|options|..] == [];
  }

  lemma OptionsCanonical(s: Bytes)
    requires TakeOptions(s).Some?
    ensures var (options, rest) := TakeOptions(s).value;
            |options| <= MAX_OPTIONS_BYTES && s == LittleEndian(|options|, 4) + options + rest
  {
    hide LittleEndian, FromLittleEndian, Pow256;
    LittleEndianOfFromLittleEndian(s[..4]);
    var n := FromLittleEndian(s[..4]);
    assert s == s[..4] + s[4..][..n] + s[4..][n..];
  }

  // ---- The codec is a bijection between valid claims and accepted payloads ---------------------

  /** Decoding an encoded valid claim set gives it back. */
  lemma DecodeOfEncodedPayload(c: Claims)
    requires ValidClaims(c) && EncodePayload(c).Some?
    ensures DecodePayload(EncodePayload(c).value) == Some(c)
  {
    hide PackInt64, PackText, TakeInt64, TakeText, TakeOptions, LittleEndian, ValidClaims;
    var s7 := LittleEndian(|c.optionsIpc|, 4) + c.optionsIpc;
    var s6 := PackText(c.implementationVersion).value + s7;
    var s5 := PackText(c.dataVersionSpec).value + s6;
    var s4 := PackText(c.catalogName).value + s5;
    var s3 := PackText(c.ticketId).value + s4;
    var s2 := PackInt64(c.expiresAt).value + s3;
    Int64RoundTrip(c.issuedAt, s2);
    Int64RoundTrip(c.expiresAt, s3);
    TextRoundTrip(c.ticketId, s4);
    TextRoundTrip(c.catalogName, s5);
    TextRoundTrip(c.dataVersionSpec, s6);
    TextRoundTrip(c.implementationVersion, s7);
    OptionsRoundTrip(c.optionsIpc);
  }

  /** Every accepted payload carries valid claims and re-encodes to exactly its own bytes. */
  lemma EncodeOfDecodedPayload(payload: Bytes)
    requires DecodePayload(payload).Some?
    ensures ValidClaims(DecodePayload(payload).value)
    ensures EncodePayload(DecodePayload(payload).value) == Some(payload)
  {
    hide PackInt64, PackText, TakeInt64, TakeText, TakeOptions, LittleEndian, ValidClaims;
    var (issued, r1) := TakeInt64(payload).value;
    var (expires, r2) := TakeInt64(r1).value;
    var (id, r3) := TakeText(r2).value;
    var (catalog, r4) := TakeText(r3).value;
    var (data, r5) := TakeText(r4).value;
    var (implementation, r6) := TakeText(r5).value;
    var (options, r7) := TakeOptions(r6).value;
    Int64Canonical(payload);
    Int64Canonical(r1);
    TextCanonical(r2);
    TextCanonical(r3);
    TextCanonical(r4);
    TextCanonical(r5);
    OptionsCanonical(r6);
    assert r6 == LittleEndian(|options|, 4) + options;
  }

  // ---- Minting and opening ---------------------------------------------------------------------

  /** `seal(plaintext, key, aad, nonce)` and `open(envelope, key, aad)`. */
  datatype Aead = Aead(seal: (Bytes, Bytes, Bytes, Bytes) -> Bytes, open: (Bytes, Bytes, Bytes) -> Option<Bytes>)

  /** Opening what was sealed with the same key and associated data gives the plaintext back. */
  ghost predicate Correct(aead: Aead) {
    forall p: Bytes, k: Bytes, a: Bytes, n: Bytes ::
      aead.seal(p, k, a, n) != [] && aead.open(aead.seal(p, k, a, n), k, a) == Some(p)
  }

  const PREFIX: Text := Ascii("vgia1.")
  const AAD_DOMAIN: Bytes := Ascii("vgi.attach_ticket.v1") + [0]

  /** `attach_ticket_aad`. */
  function Aad(principal: Text): Option<Bytes> {
    var raw :- Encode(principal);
    Some(AAD_DOMAIN + raw)
  }

  /** `mint_attach_ticket`; None for every error it raises. */
  function Mint(aead: Aead, key: Bytes, principal: Text, claims: Claims, nonce: Bytes): Option<Text> {
    if principal == [] || !ValidClaims(claims) then None
    else
      var payload :- EncodePayload(claims);
      var aad :- Aad(principal);
      var token := PREFIX + Encode64(aead.seal(payload, key, aad, nonce));
      if |token| > MAX_TICKET_CHARS then None else Some(token)
  }

  datatype OpenError = Invalid | Expired | Unencodable

  /** `open_attach_ticket`, with its checks in their normative order. */
  function Open(aead: Aead, key: Bytes, token: Text, principal: Option<Text>, now: real): Result<Claims, OpenError> {
    if !(PREFIX <= token) || |token| > MAX_TICKET_CHARS then Err(Invalid)
    else
      var envelope := Decode64Strict(token[|PREFIX|..]);
      if envelope.None? || principal.None? || principal.value == [] then Err(Invalid)
      else if Aad(principal.value).None? then Err(Unencodable)
      else
        var payload := aead.open(envelope.value, key, Aad(principal.value).value);
        if payload.None? || DecodePayload(payload.value).None? then Err(Invalid)
        else
          var c := DecodePayload(payload.value).value;
          if c.issuedAt as real > now + CLOCK_SKEW_SECONDS as real then Err(Expired)
          else if c.expiresAt != 0 && now >= (c.expiresAt + CLOCK_SKEW_SECONDS) as real then Err(Expired)
          else Ok(c)
  }

  /** The lifetime of a ticket, widened by the allowance for clocks that disagree. */
  predicate Alive(c: Claims, now: real) {
    && (c.issuedAt - CLOCK_SKEW_SECONDS) as real <= now
    && (c.expiresAt == 0 || now < (c.expiresAt + CLOCK_SKEW_SECONDS) as real)
  }

  /** What mint returns, open returns for the same key and principal exactly while the ticket is alive. */
  lemma MintedTicketOpensWhileAlive(aead: Aead, key: Bytes, principal: Text, claims: Claims, nonce: Bytes, now: real)
    requires Correct(aead) && Mint(aead, key, principal, claims, nonce).Some?
    ensures var token := Mint(aead, key, principal, claims, nonce).value;
            Open(aead, key, token, Some(principal), now) == if Alive(claims, now) then Ok(claims) else Err(Expired)
  {
    hide EncodePayload, DecodePayload, Encode64, Decode64Strict, ValidClaims, Encode;
    var payload := EncodePayload(claims).value;
    var envelope := aead.seal(payload, key, Aad(principal).value, nonce);
    var token := Mint(aead, key, principal, claims, nonce).value;
    DecodeOfEncodedPayload(claims);
    StrictRoundTrip(envelope);
    assert token[|PREFIX|..] == Encode64(envelope);
  }

  /** Whatever opens was sealed for the caller's own principal and re-encodes to its own payload. */
  lemma OpenedTicketIsCanonical(aead: Aead, key: Bytes, token: Text, principal: Option<Text>, now: real)
    requires Open(aead, key, token, principal, now).Ok?
    ensures var c := Open(aead, key, token, principal, now).value;
            && principal.Some? && principal.value != [] && Aad(principal.value).Some?
            && ValidClaims(c) && Alive(c, now)
            && exists envelope: Bytes ::
                 && token == PREFIX + Encode64(envelope)
                 && EncodePayload(c).Some?
                 && aead.open(envelope, key, Aad(principal.value).value) == EncodePayload(c)
  {
    hide EncodePayload, DecodePayload, Encode64, ValidClaims, Encode, EncodePadded, DecodePadded;
    var envelope := Decode64Strict(token[|PREFIX|..]).value;
    var payload := aead.open(envelope, key, Aad(principal.value).value).value;
    EncodeOfDecodedPayload(payload);
    assert token == token[..|PREFIX|] + token[|PREFIX|..];
  }

  // ---- The bytes of a ticket -------------------------------------------------------------------

  /** A text field: its UTF-8 behind its length in two little-endian bytes. */
  ghost predicate IsField(raw: Bytes, t: Text) {
    |raw| >= 2 && raw == LittleEndian(|raw| - 2, 2) + raw[2..] && IsUtf8(raw[2..], t)
  }

  predicate HasSurrogate(t: Text) { exists i :: 0 <= i < |t| && 0xD800 <= t[i] <= 0xDFFF }

  /** The text can be encoded, in at most 65,535 bytes. */
  ghost predicate Packs(t: Text) { !HasSurrogate(t) && (Encode(t).Some? ==> |Encode(t).value| <= 0xFFFF) }

  lemma PackedField(t: Text)
    ensures PackText(t).Some? <==> Packs(t)
    ensures PackText(t).Some? ==> IsField(PackText(t).value, t)
  {
    hide LittleEndian, Encode, IsUtf8;
    EncodeIsUtf8(t);
    if PackText(t).Some? {
      var raw := Encode(t).value;
      assert (LittleEndian(|raw|, 2) + raw)[2..] == raw;
    }
  }

  /** A signed integer in two's complement. */
  function Unsigned(n: int): nat
    requires -0x8000_0000_0000_0000 <= n < 0x8000_0000_0000_0000
  {
    if n < 0 then n + 0x1_0000_0000_0000_0000 else n
  }

  /**
   The layout of a payload: both times in eight little-endian bytes, the ticket id, the catalog and the two versions as
   text fields in this order, and the options behind their length in four bytes.
   */
  lemma PayloadLayout(c: Claims) returns (id: Bytes, catalog: Bytes, data: Bytes, implementation: Bytes)
    ensures EncodePayload(c).Some?
            <==> && |c.optionsIpc| <= 16384 && Packs(c.ticketId) && Packs(c.catalogName) && Packs(c.dataVersionSpec)
                 && Packs(c.implementationVersion)
                 && -0x8000_0000_0000_0000 <= c.issuedAt < 0x8000_0000_0000_0000
                 && -0x8000_0000_0000_0000 <= c.expiresAt < 0x8000_0000_0000_0000
    ensures EncodePayload(c).Some? ==>
              && IsField(id, c.ticketId) && IsField(catalog, c.catalogName) && IsField(data, c.dataVersionSpec)
              && IsField(implementation, c.implementationVersion)
              && EncodePayload(c).value
                 == LittleEndian(Unsigned(c.issuedAt), 8) + LittleEndian(Unsigned(c.expiresAt), 8) + id + catalog + data
                    + implementation + LittleEndian(|c.optionsIpc|, 4) + c.optionsIpc
  {
    hide LittleEndian, PackText, IsField, Packs;
    PackedField(c.ticketId);
    PackedField(c.catalogName);
    PackedField(c.dataVersionSpec);
    PackedField(c.implementationVersion);
    id, catalog, data, implementation := PackText(c.ticketId).GetOr([]), PackText(c.catalogName).GetOr([]),
      PackText(c.dataVersionSpec).GetOr([]), PackText(c.implementationVersion).GetOr([]);
  }

  predicate LowerHex(t: Text) {
    forall c <- t :: 0x30 <= c <= 0x39 || 0x61 <= c <= 0x66
  }

  lemma TicketIdIsHex(t: Text)
    ensures IsTicketId(t) <==> |t| == 32 && LowerHex(t)
  {
    assert forall i :: 0 <= i < |t| ==> t[i] in t;
  }

  /** A ticket is minted exactly for a principal and valid claims that can be encoded, within the length limit. */
  lemma MintsExactly(aead: Aead, key: Bytes, principal: Text, claims: Claims, nonce: Bytes)
    ensures Mint(aead, key, principal, claims, nonce).Some?
            <==> && principal != [] && Encode(principal).Some? && EncodePayload(claims).Some?
                 && LowerHex(claims.ticketId) && |claims.ticketId| == 32 && claims.catalogName != []
                 && (claims.expiresAt == 0 || claims.issuedAt < claims.expiresAt)
                 && var aad := Ascii("vgi.attach_ticket.v1") + [0] + Encode(principal).value;
                    6 + |Encode64(aead.seal(EncodePayload(claims).value, key, aad, nonce))| <= 32768
    ensures Mint(aead, key, principal, claims, nonce).Some? ==>
              var aad := Ascii("vgi.attach_ticket.v1") + [0] + Encode(principal).value;
              Mint(aead, key, principal, claims, nonce).value
              == ['v' as int, 'g' as int, 'i' as int, 'a' as int, '1' as int, '.' as int]
                 + Encode64(aead.seal(EncodePayload(claims).value, key, aad, nonce))
  {
    hide EncodePayload, Encode64, IsTicketId, LowerHex, Encode;
    TicketIdIsHex(claims.ticketId);
    PrefixIsAscii();
  }

  lemma PrefixIsAscii()
    ensures PREFIX == ['v' as int, 'g' as int, 'i' as int, 'a' as int, '1' as int, '.' as int]
  {
  }
}
