/** The byte strings that identify a query's owner and a preparation's contract before they are hashed. */
module QueryOwner {
  import opened Common
  import opened Bytes

  const OWNER_DOMAIN: Bytes := Ascii("vgi.query.owner.v1") + [0]
  const ATTACH_UUID_LENGTH := 16
  const LENGTH_LIMIT := 0x1_0000_0000_0000_0000

  function Backwards(s: Bytes): (r: Bytes)
    ensures |r| == |s|
  {
    seq(|s|, i requires 0 <= i < |s| => s[|s| - 1 - i])
  }

  /** `n.to_bytes(8, "big")`. */
  function BigEndian8(n: nat): (r: Bytes)
    ensures |r| == 8
  {
    Backwards(LittleEndian(n, 8))
  }

  /** Byte `i` has weight 256 to the power `7 - i`. */
  lemma BigEndianDigits(n: nat, i: nat)
    requires i < 8
    ensures Pow256(7 - i) > 0 && BigEndian8(n)[i] == n / Pow256(7 - i) % 256
  {
    LittleEndianDigits(n, 8, 7 - i);
  }

  /** Each part with its length in front. */
  function Framed(parts: seq<Bytes>): Bytes {
    if parts == [] then []
    else
      var last := parts[|parts| - 1];
      Framed(parts[..|parts| - 1]) + BigEndian8(|last|) + last
  }

  /** What `owner_from_plaintext` hashes; None where it refuses. */
  function OwnerBinding(aad: Bytes, plaintext: Bytes, transaction: Option<Bytes>): Option<Bytes> {
    if |plaintext| < ATTACH_UUID_LENGTH || transaction == Some([]) then None
    else Some(OWNER_DOMAIN + Framed([aad, plaintext, transaction.GetOr([])]))
  }

  lemma BindingLayout(aad: Bytes, plaintext: Bytes, transaction: Option<Bytes>)
    ensures var t := if transaction.Some? then transaction.value else [];
            OWNER_DOMAIN + Framed([aad, plaintext, t])
            == Ascii("vgi.query.owner.v1") + [0] + BigEndian8(|aad|) + aad + BigEndian8(|plaintext|) + plaintext
               + BigEndian8(|t|) + t
  {
    hide BigEndian8, Framed;
    var t := if transaction.Some? then transaction.value else [];
    FramedThree(aad, plaintext, t);
    hide Ascii;
    assert t + [] == t;
  }

  /** `owner_from_plaintext` as it runs, extending one byte array part by part. */
  method BuildOwnerBinding(aad: Bytes, plaintext: Bytes, transaction: Option<Bytes>) returns (r: Option<Bytes>)
    ensures r == OwnerBinding(aad, plaintext, transaction)
    ensures r.None? <==> |plaintext| < 16 || transaction == Some([])
    ensures r.Some? ==>
              var t := if transaction.Some? then transaction.value else [];
              r.value == Ascii("vgi.query.owner.v1") + [0] + BigEndian8(|aad|) + aad + BigEndian8(|plaintext|)
                  + plaintext
                         + BigEndian8(|t|) + t
  {
    BindingLayout(aad, plaintext, transaction);
    hide BigEndian8, Ascii;
    if |plaintext| < ATTACH_UUID_LENGTH || transaction == Some([]) {
      return None;
    }
    var parts := [aad, plaintext, transaction.GetOr([])];
    var binding := OWNER_DOMAIN;
    for i := 0 to |parts|
      invariant binding == OWNER_DOMAIN + Framed(parts[..i])
    {
      binding := binding + BigEndian8(|parts[i]|);
      binding := binding + parts[i];
      assert parts[..i + 1][..i] == parts[..i];
    }
    assert parts[..|parts|] == parts;
    r := Some(binding);
  }

  /** What `_fingerprint` hashes: the request framed, then the result. */
  function Contract(request: Bytes, result: Bytes): Bytes { BigEndian8(|request|) + request + result }

  // ---- Distinct inputs, distinct bytes ---------------------------------------------------------

  lemma BigEndianInjective(m: nat, n: nat)
    requires m < LENGTH_LIMIT && n < LENGTH_LIMIT && BigEndian8(m) == BigEndian8(n)
    ensures m == n
  {
    hide LittleEndian, FromLittleEndian, Pow256;
    var a, b := LittleEndian(m, 8), LittleEndian(n, 8);
    assert forall i :: 0 <= i < 8 ==> a[i] == Backwards(a)[7 - i] && b[i] == Backwards(b)[7 - i];
    assert a == b;
    assert Pow256(8) == LENGTH_LIMIT by {
      Pow256Of8();
    }
    FromLittleEndianOfLittleEndian(m, 8);
    FromLittleEndianOfLittleEndian(n, 8);
  }

  lemma Pow256Of8()
    ensures Pow256(8) == LENGTH_LIMIT
  {
    assert Pow256(2) == 0x1_0000 && Pow256(4) == 0x1_0000_0000 && Pow256(6) == 0x1_0000_0000_0000;
  }

  /** A framed part at the front of a byte string can be read off it. */
  lemma FrontPartIsDetermined(a: Bytes, b: Bytes, x: Bytes, y: Bytes)
    requires |a| < LENGTH_LIMIT && |b| < LENGTH_LIMIT
    requires BigEndian8(|a|) + a + x == BigEndian8(|b|) + b + y
    ensures a == b && x == y
  {
    hide BigEndian8;
    var s, t := BigEndian8(|a|) + a + x, BigEndian8(|b|) + b + y;
    assert s[..8] == BigEndian8(|a|) && t[..8] == BigEndian8(|b|);
    BigEndianInjective(|a|, |b|);
    assert a == s[8..8 + |a|] && b == t[8..8 + |b|];
    assert x == s[8 + |a|..] && y == t[8 + |b|..];
  }

  lemma FramedThree(a: Bytes, b: Bytes, c: Bytes)
    ensures Framed([a, b, c]) == BigEndian8(|a|) + a + (BigEndian8(|b|) + b + (BigEndian8(|c|) + c + []))
  {
    hide BigEndian8;
    assert [a, b, c][..2] == [a, b] && [a, b][..1] == [a] && [a][..0] == [];
    assert Framed([]) == [];
    assert Framed([a]) == BigEndian8(|a|) + a;
    assert Framed([a, b]) == BigEndian8(|a|) + a + BigEndian8(|b|) + b;
  }

  /**
   Over all accepted inputs the binding tells apart the principal, the attachment and the transaction,
   whether there is one included.
   */
  lemma OwnerBindingIsInjective(aad: Bytes, plaintext: Bytes, transaction: Option<Bytes>,
                                aad': Bytes, plaintext': Bytes, transaction': Option<Bytes>)
    requires OwnerBinding(aad, plaintext, transaction).Some?
    requires OwnerBinding(aad, plaintext, transaction) == OwnerBinding(aad', plaintext', transaction')
    requires |aad| < LENGTH_LIMIT && |plaintext| < LENGTH_LIMIT && |transaction.GetOr([])| < LENGTH_LIMIT
    requires |aad'| < LENGTH_LIMIT && |plaintext'| < LENGTH_LIMIT && |transaction'.GetOr([])| < LENGTH_LIMIT
    ensures aad == aad' && plaintext == plaintext' && transaction == transaction'
  {
    hide Framed, BigEndian8;
    var t, t' := transaction.GetOr([]), transaction'.GetOr([]);
    FramedThree(aad, plaintext, t);
    FramedThree(aad', plaintext', t');
    var s, s' := OWNER_DOMAIN + Framed([aad, plaintext, t]), OWNER_DOMAIN + Framed([aad', plaintext', t']);
    assert s[|OWNER_DOMAIN|..] == Framed([aad, plaintext, t]) && s'[|OWNER_DOMAIN|..] == Framed([aad', plaintext', t']);
    FrontPartIsDetermined(aad, aad', BigEndian8(|plaintext|) + plaintext + (BigEndian8(|t|) + t + []),
                          BigEndian8(|plaintext'|) + plaintext' + (BigEndian8(|t'|) + t' + []));
    FrontPartIsDetermined(plaintext, plaintext', BigEndian8(|t|) + t + [], BigEndian8(|t'|) + t' + []);
    FrontPartIsDetermined(t, t', [], []);
  }

  /** Refusing the empty transaction is what keeps it apart from no transaction. */
  lemma EmptyTransactionWouldCollide(aad: Bytes, plaintext: Bytes, transaction: Option<Bytes>,
                                     transaction': Option<Bytes>)
    requires |transaction.GetOr([])| < LENGTH_LIMIT && |transaction'.GetOr([])| < LENGTH_LIMIT
    requires |aad| < LENGTH_LIMIT && |plaintext| < LENGTH_LIMIT
    ensures transaction != transaction'
            && Framed([aad, plaintext, transaction.GetOr([])]) == Framed([aad, plaintext, transaction'.GetOr([])])
            <==> {transaction, transaction'} == {None, Some([])}
  {
    hide Framed, BigEndian8;
    var t, t' := transaction.GetOr([]), transaction'.GetOr([]);
    FramedThree(aad, plaintext, t);
    FramedThree(aad, plaintext, t');
    if Framed([aad, plaintext, t]) == Framed([aad, plaintext, t']) {
      FrontPartIsDetermined(aad, aad, BigEndian8(|plaintext|) + plaintext + (BigEndian8(|t|) + t + []),
                            BigEndian8(|plaintext|) + plaintext + (BigEndian8(|t'|) + t' + []));
      FrontPartIsDetermined(plaintext, plaintext, BigEndian8(|t|) + t + [], BigEndian8(|t'|) + t' + []);
      FrontPartIsDetermined(t, t', [], []);
    }
    var none: Option<Bytes> := None;
    assert {transaction, transaction'} == {none, Some([])} <==>
      (transaction == none && transaction' == Some([])) || (transaction == Some([]) && transaction' == none) by {
      if {transaction, transaction'} == {none, Some([])} {
        assert transaction in {none, Some([])} && transaction' in {none, Some([])};
        assert none in {transaction, transaction'} && Some([]) in {transaction, transaction'};
      }
    }
  }

  /** The contract tells apart every pair of request and result. */
  lemma ContractIsInjective(request: Bytes, result: Bytes, request': Bytes, result': Bytes)
    requires |request| < LENGTH_LIMIT && |request'| < LENGTH_LIMIT
             && Contract(request, result) == Contract(request', result')
    ensures request == request' && result == result'
  {
    FrontPartIsDetermined(request, request', result, result');
  }
}
