/** The bridge's mapping between addresses and 32-byte payloads, by way of their
XDR form (unions and opaque data, sections 4.15 and 4.9 of RFC 4506). */
module AddressCodec {
  import opened Bytes
  import opened Transactions

  datatype Stellar = Account(key: Bytes) | Contract(hash: Bytes) {
    predicate Valid() {
      |Payload()| == 32
    }

    function Payload(): Bytes {
      if Account? then key else hash
    }
  }

  const CONTRACT_HEADER: Bytes := [0, 0, 0, 18, 0, 0, 0, 1]
  const ACCOUNT_HEADER: Bytes := [0, 0, 0, 18, 0, 0, 0, 0, 0, 0, 0, 0]

  function ToXdr(a: Stellar): Bytes {
    match a
    case Account(key) => ACCOUNT_HEADER + key
    case Contract(hash) => CONTRACT_HEADER + hash
  }

  function FromXdr(xdr: Bytes): Txn<Stellar> {
    if |xdr| == 40 && xdr[..8] == CONTRACT_HEADER then Committed(Contract(xdr[8..]))
    else if |xdr| == 44 && xdr[..12] == ACCOUNT_HEADER then Committed(Account(xdr[12..]))
    else Reverted
  }

  /** The length of the XDR form tells the two kinds apart. */
  method AddressToBytes(a: Stellar) returns (r: Txn<(nat, Bytes)>)
    requires a.Valid()
    ensures r == Committed((if a.Contract? then 1 else 0, a.Payload()))
  {
    var xdr := ToXdr(a);
    if |xdr| != 40 && |xdr| != 44 {
      return Reverted;
    }
    var skip := if |xdr| == 40 then 8 else 12;
    var payload := new byte[32](_ => 0);
    for i := 0 to 32
      invariant forall k :: 0 <= k < i ==> payload[k] == xdr[skip + k]
    {
      payload[i] := xdr[i + skip];
    }
    assert a.Payload() == xdr[skip..];
    assert payload[..] == xdr[skip..];
    r := Committed((if |xdr| == 40 then 1 else 0, payload[..]));
  }

  function BytesToAddress(kind: nat, payload: Bytes): Txn<Stellar> {
    if kind == 1 then FromXdr(CONTRACT_HEADER + payload)
    else if kind == 0 then FromXdr(ACCOUNT_HEADER + payload)
    else Reverted
  }

  lemma XdrRoundTrip(a: Stellar)
    requires a.Valid()
    ensures FromXdr(ToXdr(a)) == Committed(a)
  {
    match a
    case Account(key) =>
      assert ToXdr(a)[..12] == ACCOUNT_HEADER && ToXdr(a)[12..] == key;
    case Contract(hash) =>
      assert ToXdr(a)[..8] == CONTRACT_HEADER && ToXdr(a)[8..] == hash;
  }

  /** The XDR form of an address is the value type 18, the address type, for an
  account the key type 0, and the payload. */
  lemma XdrLayout(a: Stellar)
    ensures ToXdr(a) == BigEndian(18, 4) + BigEndian(if a.Contract? then 1 else 0, 4)
                        + (if a.Contract? then [] else BigEndian(0, 4)) + a.Payload()
  {
    assert BigEndian(18, 4) == [0, 0, 0, 18] && BigEndian(1, 4) == [0, 0, 0, 1] && BigEndian(0, 4) == [0, 0, 0, 0] by {
      SmallWord(18);
      SmallWord(1);
      SmallWord(0);
    }
    if a.Account? {
      assert ACCOUNT_HEADER == BigEndian(18, 4) + BigEndian(0, 4) + BigEndian(0, 4);
    } else {
      assert CONTRACT_HEADER == BigEndian(18, 4) + BigEndian(1, 4) + [];
    }
  }

  lemma SmallWord(x: nat)
    requires x < 256
    ensures BigEndian(x, 4) == [0, 0, 0, x as byte]
  {
    assert BigEndian(0, 1) == BigEndian(0, 0) + [0] == [0];
    assert BigEndian(0, 2) == BigEndian(0, 1) + [0];
    assert BigEndian(0, 3) == BigEndian(0, 2) + [0];
  }

  /** Both ways round: every valid address survives the trip through its kind and
  payload, and every pair with a known kind names exactly one address. */
  lemma MappingIsLossless(a: Stellar, kind: nat, payload: Bytes)
    requires a.Valid() && |payload| == 32
    ensures BytesToAddress(kind, payload) == Committed(a)
            <==> kind == (if a.Contract? then 1 else 0) && payload == a.Payload()
    ensures BytesToAddress(kind, payload).Committed? <==> kind <= 1
  {
    XdrRoundTrip(Contract(payload));
    XdrRoundTrip(Account(payload));
  }
}
