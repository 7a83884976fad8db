/** Query tickets: what sealing binds and what opening checks. Serialization and the AEAD are abstract. */
module QueryTicket {
  import opened Common
  import opened Bytes

  const MAX_TOKEN_BYTES := 65536
  const MAX_HANDLE_BYTES := 32768
  const DIGEST_BYTES := 32
  const EXPIRY_LIMIT := 0x8000_0000_0000_0000

  datatype Kind = Prepare | Execution

  datatype Ticket = Ticket(kind: Kind, owner: Bytes, capability: Bytes, handle: Bytes, contract: Bytes, expiresAt: int)

  /** What the constructor of a ticket accepts. */
  predicate WellFormed(t: Ticket) {
    && |t.owner| == |t.capability| == |t.contract| == DIGEST_BYTES
    && 0 < |t.handle| <= MAX_HANDLE_BYTES
    && 0 < t.expiresAt < EXPIRY_LIMIT
  }

  /**
   Serialization, and `seal(plaintext, aad, nonce)` and `open(token, aad)`; `keyed` says that a signing key is
   set.
   */
  datatype Worker = Worker(
    keyed: bool,
    write: Ticket -> Bytes,
    read: Bytes -> Option<Ticket>,
    seal: (Bytes, Bytes, Bytes) -> Bytes,
    open: (Bytes, Bytes) -> Option<Bytes>)

  /**
   Reading gives back what was written; with any nonce, opening gives back what was sealed for the same data,
   and nothing for other data.
   */
  ghost predicate Correct(w: Worker) {
    && (forall t: Ticket :: w.write(t) != [] && w.read(w.write(t)) == Some(t))
    && (forall p: Bytes, a: Bytes, n: Bytes :: w.seal(p, a, n) != [] && w.open(w.seal(p, a, n), a) == Some(p))
    && (forall p: Bytes, a: Bytes, n: Bytes, b: Bytes :: a != b ==> w.open(w.seal(p, a, n), b) == None)
  }

  const TICKET_DOMAIN: Bytes := Ascii("vgi.query.ticket.v1") + [0]

  /** `_seal`; None where it raises. */
  function Seal(w: Worker, t: Ticket, nonce: Bytes): Option<Bytes> {
    var written := w.write(t);
    var payload := if w.keyed then w.seal(written, TICKET_DOMAIN + t.owner, nonce) else written;
    if |payload| > MAX_TOKEN_BYTES then None else Some(payload)
  }

  /** `_open`; None for every reason it refuses a token. */
  function Open(w: Worker, payload: Bytes, owner: Bytes, capability: Bytes, kind: Kind, checkExpiry: bool,
                now: int): Option<Ticket> {
    if !(0 < |payload| <= MAX_TOKEN_BYTES) then None
    else
      var written :- if w.keyed then w.open(payload, TICKET_DOMAIN + owner) else Some(payload);
      var t :- w.read(written);
      if !WellFormed(t) then None
      else if t.owner != owner || t.capability != capability || t.kind != kind then None
      else if checkExpiry && t.expiresAt <= now then None
      else Some(t)
  }

  /**
   A sealed ticket opens for its own owner, agreement and kind and, where expiry is checked, before it
   expires, and for nothing else; with or without a signing key.
   */
  lemma SealedTicketOpensExactly(w: Worker, t: Ticket, nonce: Bytes, owner: Bytes, capability: Bytes, kind: Kind,
                                 checkExpiry: bool, now: int)
    requires Correct(w) && WellFormed(t) && Seal(w, t, nonce).Some?
    ensures Open(w, Seal(w, t, nonce).value, owner, capability, kind, checkExpiry, now)
            == if owner == t.owner && capability == t.capability && kind == t.kind
                && (checkExpiry ==> now < t.expiresAt)
               then Some(t) else None
  {
    var written := w.write(t);
    assert w.read(written) == Some(t) && written != [];
    if w.keyed {
      var a, b := TICKET_DOMAIN + t.owner, TICKET_DOMAIN + owner;
      var token := w.seal(written, a, nonce);
      assert token != [] && w.open(token, a) == Some(written);
      if owner != t.owner {
        assert a[|TICKET_DOMAIN|..] == t.owner && b[|TICKET_DOMAIN|..] == owner;
        assert w.open(token, b) == None;
      }
    }
  }

  /** Only what was sealed opens, with whatever nonce it was sealed. */
  ghost predicate Authentic(w: Worker) {
    forall c: Bytes, a: Bytes :: w.open(c, a).Some? ==> exists n: Bytes :: c == w.seal(w.open(c, a).value, a, n)
  }

  /** No token, however it was made, opens for two callers, under two agreements or as two kinds. */
  lemma TokenOpensForOneCaller(w: Worker, payload: Bytes, owner: Bytes, capability: Bytes, kind: Kind, now: int,
                               owner': Bytes, capability': Bytes, kind': Kind, now': int)
    requires Correct(w) && Authentic(w)
    requires Open(w, payload, owner, capability, kind, false, now).Some?
    requires Open(w, payload, owner', capability', kind', false, now').Some?
    ensures owner == owner' && capability == capability' && kind == kind'
  {
    if w.keyed {
      OneAssociatedData(w, payload, TICKET_DOMAIN + owner, TICKET_DOMAIN + owner');
      assert (TICKET_DOMAIN + owner)[|TICKET_DOMAIN|..] == owner
             && (TICKET_DOMAIN + owner')[|TICKET_DOMAIN|..] == owner';
    }
  }

  lemma OneAssociatedData(w: Worker, payload: Bytes, a: Bytes, b: Bytes)
    requires Correct(w) && Authentic(w) && w.open(payload, a).Some? && w.open(payload, b).Some?
    ensures a == b
  {
    var p := w.open(payload, a).value;
    var n: Bytes :| payload == w.seal(p, a, n);
    assert a != b ==> w.open(w.seal(p, a, n), b) == None;
  }

  // ---- From preparation to reading -------------------------------------------------------------

  /** What a provider hands over for a prepared query, with the fingerprint of its preparation. */
  datatype Prepared = Prepared(handle: Bytes, contract: Bytes, expiresAt: int)

  /** The end of `prepare`: the token handed to the caller. */
  function PrepareToken(w: Worker, owner: Bytes, capability: Bytes, p: Prepared, nonce: Bytes): Option<Bytes> {
    var t := Ticket(Prepare, owner, capability, p.handle, p.contract, p.expiresAt);
    if WellFormed(t) then Seal(w, t, nonce) else None
  }

  /** What the provider answers: the fingerprint of the preparation of a handle, and the execution it starts for it. */
  datatype Provider = Provider(resolve: Bytes -> Option<Bytes>, start: Bytes -> Option<Prepared>)

  /** `on_init`: the token is opened, its preparation resolved and compared, and an execution started and sealed. */
  function InitToken(w: Worker, owner: Bytes, capability: Bytes, token: Bytes, now: int, provider: Provider,
                     nonce: Bytes)
    : Option<Bytes>
  {
    var t :- Open(w, token, owner, capability, Prepare, true, now);
    var fingerprint :- provider.resolve(t.handle);
    if fingerprint != t.contract then None
    else
      var x :- provider.start(t.handle);
      var e := Ticket(Execution, owner, capability, x.handle, fingerprint, x.expiresAt);
      if WellFormed(e) then Seal(w, e, nonce) else None
  }

  /**
   Only the owner who prepared a query, under the agreement it was prepared with and before it expired, gets it
   started; and only that owner reads it, from the very handle that the start of that preparation gave.
   */
  lemma OnlyTheOwnerReads(w: Worker, owner: Bytes, capability: Bytes, p: Prepared, nonce: Bytes, starter: Bytes,
                          agreed: Bytes, now: int, provider: Provider, nonce': Bytes, reader: Bytes, selected: Bytes,
                          later: int)
    requires Correct(w)
    requires PrepareToken(w, owner, capability, p, nonce).Some?
    requires InitToken(w, starter, agreed, PrepareToken(w, owner, capability, p, nonce).value, now, provider,
                       nonce').Some?
    ensures starter == owner && agreed == capability && now < p.expiresAt
    ensures provider.resolve(p.handle) == Some(p.contract) && provider.start(p.handle).Some?
    ensures var prepared := PrepareToken(w, owner, capability, p, nonce).value;
            var token := InitToken(w, starter, agreed, prepared, now, provider, nonce').value;
            && Open(w, token, reader, selected, Prepare, false, later).None?
            && match Open(w, token, reader, selected, Execution, false, later)
               case None => reader != owner || selected != capability
               case Some(t) =>
                 && reader == owner && selected == capability && t.contract == p.contract
                 && t.handle == provider.start(p.handle).value.handle
  {
    hide Open, Seal;
    var t := Ticket(Prepare, owner, capability, p.handle, p.contract, p.expiresAt);
    SealedTicketOpensExactly(w, t, nonce, starter, agreed, Prepare, true, now);
    var x := provider.start(p.handle).value;
    var e := Ticket(Execution, owner, capability, x.handle, p.contract, x.expiresAt);
    SealedTicketOpensExactly(w, e, nonce', reader, selected, Execution, false, later);
    SealedTicketOpensExactly(w, e, nonce', reader, selected, Prepare, false, later);
  }

  // ---- Workers that meet the assumptions -------------------------------------------------------

  function Ones(n: nat): Bytes { seq(n, _ => 1) }

  /** A byte string behind its length in unary. */
  function Framed(x: Bytes): Bytes { Ones(|x|) + [0] + x }

  function LeadingOnes(c: Bytes): (k: nat)
    ensures k <= |c|
  {
    if c == [] || c[0] != 1 then 0 else 1 + LeadingOnes(c[1..])
  }

  function Unframed(c: Bytes): Option<(Bytes, Bytes)> {
    var k := LeadingOnes(c);
    if |c| < 2 * k + 1 || c[k] != 0 then None else Some((c[k + 1..2 * k + 1], c[2 * k + 1..]))
  }

  lemma {:induction false} LeadingOnesOf(n: nat, rest: Bytes)
    ensures LeadingOnes(Ones(n) + [0] + rest) == n
  {
    if n > 0 {
      assert (Ones(n) + [0] + rest)[1..] == Ones(n - 1) + [0] + rest;
      LeadingOnesOf(n - 1, rest);
    }
  }

  lemma {:induction false} LeadingOnesAreOnes(c: Bytes)
    ensures c[..LeadingOnes(c)] == Ones(LeadingOnes(c))
  {
    if c != [] && c[0] == 1 {
      LeadingOnesAreOnes(c[1..]);
      assert c == [1] + c[1..];
    }
  }

  lemma UnframedOfFramed(x: Bytes, rest: Bytes)
    ensures Unframed(Framed(x) + rest) == Some((x, rest))
  {
    var c := Framed(x) + rest;
    assert c == Ones(|x|) + [0] + (x + rest);
    LeadingOnesOf(|x|, x + rest);
    assert c[|x|] == 0 && c[|x| + 1..2 * |x| + 1] == x && c[2 * |x| + 1..] == rest;
  }

  lemma FramedOfUnframed(c: Bytes)
    requires Unframed(c).Some?
    ensures c == Framed(Unframed(c).value.0) + Unframed(c).value.1
  {
    var k := LeadingOnes(c);
    LeadingOnesAreOnes(c);
    assert c == c[..k] + [c[k]] + c[k + 1..2 * k + 1] + c[2 * k + 1..];
  }

  /** A plaintext behind its associated data and nonce. */
  function PlainSeal(p: Bytes, a: Bytes, n: Bytes): Bytes { Framed(a) + (Framed(n) + p) }

  function PlainOpen(c: Bytes, a: Bytes): Option<Bytes> {
    var (aad, rest) :- Unframed(c);
    var (nonce, p) :- Unframed(rest);
    if aad == a then Some(p) else None
  }

  /** With any serialization that reads back what it wrote, a keyed worker whose tokens differ by their nonce exists. */
  lemma KeyedWorkersExist(write: Ticket -> Bytes, read: Bytes -> Option<Ticket>)
    requires forall t: Ticket :: write(t) != [] && read(write(t)) == Some(t)
    ensures var w := Worker(true, write, read, PlainSeal, PlainOpen);
            && Correct(w) && Authentic(w)
            && forall p: Bytes, a: Bytes, n: Bytes, m: Bytes :: n != m ==> w.seal(p, a, n) != w.seal(p, a, m)
  {
    hide Framed, Unframed;
    forall p: Bytes, a: Bytes, n: Bytes
      ensures PlainOpen(PlainSeal(p, a, n), a) == Some(p) && PlainSeal(p, a, n) != []
      ensures forall b: Bytes :: a != b ==> PlainOpen(PlainSeal(p, a, n), b) == None
    {
      UnframedOfFramed(a, Framed(n) + p);
      UnframedOfFramed(n, p);
      assert Framed(a) != [] by {
        FramedIsNotEmpty(a);
      }
    }
    forall c: Bytes, a: Bytes | PlainOpen(c, a).Some?
      ensures exists n: Bytes :: c == PlainSeal(PlainOpen(c, a).value, a, n)
    {
      FramedOfUnframed(c);
      FramedOfUnframed(Unframed(c).value.1);
      assert c == PlainSeal(PlainOpen(c, a).value, a, Unframed(Unframed(c).value.1).value.0);
    }
    forall p: Bytes, a: Bytes, n: Bytes, m: Bytes | PlainSeal(p, a, n) == PlainSeal(p, a, m)
      ensures n == m
    {
      UnframedOfFramed(a, Framed(n) + p);
      UnframedOfFramed(a, Framed(m) + p);
      UnframedOfFramed(n, p);
      UnframedOfFramed(m, p);
    }
  }

  lemma FramedIsNotEmpty(x: Bytes)
    ensures Framed(x) != []
  {
  }
}
