/** The byte strings the contracts hash: reading commitments and project ids. */
module Preimages {
  import opened Numeric
  import opened Transactions
  import opened Bytes
  import opened OracleData

  function U64(x: nat): Bytes {
    BigEndian(x, 8)
  }

  function I64(x: int): Bytes
    requires IsI64(x)
  {
    Width8();
    TwosComplement(x, 8)
  }

  lemma U64Injective(x: nat, y: nat)
    requires x < TWO_64 && y < TWO_64
    ensures U64(x) == U64(y) <==> x == y
  {
    Width8();
    BigEndianInjective(x, y, 8);
  }

  lemma I64Injective(x: int, y: int)
    requires IsI64(x) && IsI64(y)
    ensures |I64(x)| == 8
    ensures I64(x) == I64(y) <==> x == y
  {
    Width8();
    TwosComplementInjective(x, y, 8);
  }

  lemma SplitEqual(a: Bytes, b: Bytes, c: Bytes, d: Bytes)
    requires |a| == |c|
    ensures a + b == c + d <==> a == c && b == d
  {
    assert (a + b)[..|a|] == a && (a + b)[|a|..] == b;
    assert (c + d)[..|a|] == c && (c + d)[|a|..] == d;
  }

  lemma Associate(a: Bytes, b: Bytes, c: Bytes)
    ensures a + b + c == a + (b + c)
  {
  }

  // ---- Reading commitments ----

  function ReadingBytes(r: Reading): (b: Bytes)
    requires r.Wire()
    ensures |b| == 56
  {
    I64Injective(r.ph, r.ph);
    I64(r.ph) + (I64(r.turbidity) + (I64(r.dissolvedOxygen) + (I64(r.flowRate)
    + (I64(r.temperature) + (I64(r.totalNitrogen) + I64(r.totalPhosphorus))))))
  }

  function CommitmentPreimage(nonce: nat, r: Reading, salt: Bytes): Bytes
    requires r.Wire()
  {
    U64(nonce) + (ReadingBytes(r) + salt)
  }

  lemma ReadingBytesInjective(r: Reading, q: Reading)
    requires r.Wire() && q.Wire()
    ensures ReadingBytes(r) == ReadingBytes(q) <==> r == q
  {
    I64Injective(r.ph, q.ph);
    I64Injective(r.turbidity, q.turbidity);
    I64Injective(r.dissolvedOxygen, q.dissolvedOxygen);
    I64Injective(r.flowRate, q.flowRate);
    I64Injective(r.temperature, q.temperature);
    I64Injective(r.totalNitrogen, q.totalNitrogen);
    I64Injective(r.totalPhosphorus, q.totalPhosphorus);
    var r5 := I64(r.totalNitrogen) + I64(r.totalPhosphorus);
    var q5 := I64(q.totalNitrogen) + I64(q.totalPhosphorus);
    SplitEqual(I64(r.totalNitrogen), I64(r.totalPhosphorus), I64(q.totalNitrogen), I64(q.totalPhosphorus));
    var r4, q4 := I64(r.temperature) + r5, I64(q.temperature) + q5;
    SplitEqual(I64(r.temperature), r5, I64(q.temperature), q5);
    var r3, q3 := I64(r.flowRate) + r4, I64(q.flowRate) + q4;
    SplitEqual(I64(r.flowRate), r4, I64(q.flowRate), q4);
    var r2, q2 := I64(r.dissolvedOxygen) + r3, I64(q.dissolvedOxygen) + q3;
    SplitEqual(I64(r.dissolvedOxygen), r3, I64(q.dissolvedOxygen), q3);
    var r1, q1 := I64(r.turbidity) + r2, I64(q.turbidity) + q2;
    SplitEqual(I64(r.turbidity), r2, I64(q.turbidity), q2);
    SplitEqual(I64(r.ph), r1, I64(q.ph), q1);
  }

  /** A commitment preimage determines the nonce, all seven signed values and the
  salt. */
  lemma CommitmentPreimageInjective(n: nat, r: Reading, salt: Bytes, m: nat, q: Reading, pepper: Bytes)
    requires r.Wire() && q.Wire() && n < TWO_64 && m < TWO_64
    ensures CommitmentPreimage(n, r, salt) == CommitmentPreimage(m, q, pepper)
            <==> n == m && r == q && salt == pepper
  {
    U64Injective(n, m);
    ReadingBytesInjective(r, q);
    SplitEqual(U64(n), ReadingBytes(r) + salt, U64(m), ReadingBytes(q) + pepper);
    SplitEqual(ReadingBytes(r), salt, ReadingBytes(q), pepper);
  }

  // ---- The documented layout ----

  /** The eight bytes at position `8 * k`, as a number. */
  function Word(b: Bytes, k: nat): nat
    requires 8 * k + 8 <= |b|
  {
    FromBigEndian(b[8 * k..8 * k + 8])
  }

  lemma U64Word(x: nat)
    requires x < TWO_64
    ensures FromBigEndian(U64(x)) == x
  {
    Width8();
    BigEndianRoundTrip(x, 8);
  }

  lemma I64Word(x: int)
    requires IsI64(x)
    ensures |I64(x)| == 8 && FromBigEndian(I64(x)) == x % TWO_64
  {
    Width8();
    BigEndianRoundTrip(if x < 0 then x + TWO_64 else x, 8);
  }

  lemma FirstWord(a: Bytes, rest: Bytes)
    requires |a| == 8
    ensures Word(a + rest, 0) == FromBigEndian(a)
  {
    assert (a + rest)[0..8] == a;
  }

  lemma NextWord(a: Bytes, rest: Bytes, k: nat)
    requires |a| == 8 && 8 * k + 8 <= |rest|
    ensures 8 * (k + 1) + 8 <= |a + rest| && Word(a + rest, k + 1) == Word(rest, k)
  {
    assert (a + rest)[8 * (k + 1)..8 * (k + 1) + 8] == rest[8 * k..8 * k + 8];
  }

  function Chain(parts: seq<Bytes>, tail: Bytes): Bytes {
    if parts == [] then tail else parts[0] + Chain(parts[1..], tail)
  }

  lemma {:induction false} ChainLength(parts: seq<Bytes>, tail: Bytes)
    requires forall i :: 0 <= i < |parts| ==> |parts[i]| == 8
    ensures |Chain(parts, tail)| == 8 * |parts| + |tail|
    ensures Chain(parts, tail)[8 * |parts|..] == tail
  {
    if parts != [] {
      ChainLength(parts[1..], tail);
      assert Chain(parts, tail)[8 * |parts|..] == Chain(parts[1..], tail)[8 * |parts[1..]|..];
    }
  }

  /** The words of a concatenation of 8-byte strings. */
  lemma {:induction false} WordOf(parts: seq<Bytes>, tail: Bytes, k: nat)
    requires k < |parts| && forall i :: 0 <= i < |parts| ==> |parts[i]| == 8
    ensures |Chain(parts, tail)| == 8 * |parts| + |tail|
    ensures Word(Chain(parts, tail), k) == FromBigEndian(parts[k])
  {
    ChainLength(parts, tail);
    ChainLength(parts[1..], tail);
    if k == 0 {
      FirstWord(parts[0], Chain(parts[1..], tail));
    } else {
      WordOf(parts[1..], tail, k - 1);
      NextWord(parts[0], Chain(parts[1..], tail), k - 1);
    }
  }

  /** The eight fields of fixed width. */
  function Fields(nonce: nat, r: Reading): (w: seq<Bytes>)
    requires r.Wire()
    ensures |w| == 8 && forall i :: 0 <= i < 8 ==> |w[i]| == 8
  {
    Width8();
    [U64(nonce), I64(r.ph), I64(r.turbidity), I64(r.dissolvedOxygen), I64(r.flowRate),
     I64(r.temperature), I64(r.totalNitrogen), I64(r.totalPhosphorus)]
  }

  lemma PreimageIsChain(nonce: nat, r: Reading, salt: Bytes)
    requires r.Wire()
    ensures CommitmentPreimage(nonce, r, salt) == Chain(Fields(nonce, r), salt)
  {
    var w := Fields(nonce, r);
    var r6 := w[6] + w[7];
    var r5 := w[5] + r6;
    var r4 := w[4] + r5;
    var r3 := w[3] + r4;
    var r2 := w[2] + r3;
    Associate(w[1], r2, salt);
    Associate(w[2], r3, salt);
    Associate(w[3], r4, salt);
    Associate(w[4], r5, salt);
    Associate(w[5], r6, salt);
    Associate(w[6], w[7], salt);
    assert w[1..][1..] == w[2..] && w[2..][1..] == w[3..] && w[3..][1..] == w[4..] && w[4..][1..] == w[5..];
    assert w[5..][1..] == w[6..] && w[6..][1..] == w[7..] && w[7..][1..] == [];
    assert Chain(w[7..], salt) == w[7] + salt;
    assert Chain(w[6..], salt) == r6 + salt;
    assert Chain(w[5..], salt) == r5 + salt;
    assert Chain(w[4..], salt) == r4 + salt;
    assert Chain(w[3..], salt) == r3 + salt;
    assert Chain(w[2..], salt) == r2 + salt;
  }

  /** A commitment preimage is the nonce, the seven readings in the documented order
  as two's complement, and the salt. */
  lemma CommitmentLayout(nonce: nat, r: Reading, salt: Bytes)
    requires r.Wire() && nonce < TWO_64
    ensures |CommitmentPreimage(nonce, r, salt)| == 64 + |salt|
    ensures
      var b := CommitmentPreimage(nonce, r, salt);
      && Word(b, 0) == nonce
      && Word(b, 1) == r.ph % TWO_64
      && Word(b, 2) == r.turbidity % TWO_64
      && Word(b, 3) == r.dissolvedOxygen % TWO_64
      && Word(b, 4) == r.flowRate % TWO_64
      && Word(b, 5) == r.temperature % TWO_64
      && Word(b, 6) == r.totalNitrogen % TWO_64
      && Word(b, 7) == r.totalPhosphorus % TWO_64
      && b[64..] == salt
  {
    var w := Fields(nonce, r);
    PreimageIsChain(nonce, r, salt);
    ChainLength(w, salt);
    forall k | 0 <= k < 8 ensures Word(Chain(w, salt), k) == FromBigEndian(w[k]) {
      WordOf(w, salt, k);
    }
    U64Word(nonce);
    I64Word(r.ph);
    I64Word(r.turbidity);
    I64Word(r.dissolvedOxygen);
    I64Word(r.flowRate);
    I64Word(r.temperature);
    I64Word(r.totalNitrogen);
    I64Word(r.totalPhosphorus);
  }

  // ---- Project ids ----

  datatype ProjectDetails = ProjectDetails(count: nat, name: Bytes, methodology: Bytes,
                                           latitude: int, longitude: int, areaHectares: nat)
  {
    predicate Wire() {
      && count < TWO_64 && areaHectares < TWO_64
      && IsI64(latitude) && IsI64(longitude)
      && |name| < TWO_32 && |methodology| < TWO_32
    }
  }

  function Prefixed(text: Bytes): Bytes {
    BigEndian(|text|, 4) + text
  }

  function Location(d: ProjectDetails): Bytes
    requires d.Wire()
  {
    I64(d.latitude) + (I64(d.longitude) + U64(d.areaHectares))
  }

  function ProjectPreimage(d: ProjectDetails): Bytes
    requires d.Wire()
  {
    U64(d.count) + (Prefixed(d.name) + (Prefixed(d.methodology) + Location(d)))
  }

  /** Appends the length of a text and then, if there is any, the text. */
  method AppendText(buffer: Bytes, text: Bytes) returns (longer: Bytes)
    ensures longer == buffer + Prefixed(text)
  {
    longer := buffer + BigEndian(|text|, 4);
    if |text| > 0 {
      longer := longer + text;
    }
  }

  lemma Reassociate(a: Bytes, b: Bytes, c: Bytes, d: Bytes, e: Bytes, f: Bytes)
    ensures a + b + c + d + e + f == a + (b + (c + (d + (e + f))))
  {
  }

  /** Builds the preimage by appending to a buffer; over-long texts revert. */
  method BuildProjectPreimage(d: ProjectDetails) returns (r: Txn<Bytes>)
    requires d.Wire()
    ensures r == if |d.name| <= 128 && |d.methodology| <= 128 then Committed(ProjectPreimage(d)) else Reverted
  {
    if |d.name| > 128 {
      return Reverted;
    }
    :- Require(|d.methodology| <= 128);
    var buffer := U64(d.count);
    buffer := AppendText(buffer, d.name);
    buffer := AppendText(buffer, d.methodology);
    buffer := buffer + I64(d.latitude);
    buffer := buffer + I64(d.longitude);
    buffer := buffer + U64(d.areaHectares);
    Reassociate(U64(d.count), Prefixed(d.name), Prefixed(d.methodology), I64(d.latitude), I64(d.longitude), U64(d.areaHectares));
    r := Committed(buffer);
  }

  lemma PrefixedSplit(s: Bytes, rest: Bytes, t: Bytes, more: Bytes)
    requires |s| < TWO_32 && |t| < TWO_32
    ensures Prefixed(s) + rest == Prefixed(t) + more <==> s == t && rest == more
  {
    Width4();
    BigEndianInjective(|s|, |t|, 4);
    Associate(BigEndian(|s|, 4), s, rest);
    Associate(BigEndian(|t|, 4), t, more);
    SplitEqual(BigEndian(|s|, 4), s + rest, BigEndian(|t|, 4), t + more);
    if |s| == |t| {
      SplitEqual(s, rest, t, more);
    }
  }

  /** A project preimage determines all its inputs: the length prefixes keep every
  split of name and methodology apart. */
  lemma ProjectPreimageInjective(d: ProjectDetails, e: ProjectDetails)
    requires d.Wire() && e.Wire()
    ensures ProjectPreimage(d) == ProjectPreimage(e) <==> d == e
  {
    U64Injective(d.count, e.count);
    U64Injective(d.areaHectares, e.areaHectares);
    I64Injective(d.latitude, e.latitude);
    I64Injective(d.longitude, e.longitude);
    SplitEqual(I64(d.longitude), U64(d.areaHectares), I64(e.longitude), U64(e.areaHectares));
    SplitEqual(I64(d.latitude), I64(d.longitude) + U64(d.areaHectares),
               I64(e.latitude), I64(e.longitude) + U64(e.areaHectares));
    PrefixedSplit(d.methodology, Location(d), e.methodology, Location(e));
    PrefixedSplit(d.name, Prefixed(d.methodology) + Location(d), e.name, Prefixed(e.methodology) + Location(e));
    SplitEqual(U64(d.count), Prefixed(d.name) + (Prefixed(d.methodology) + Location(d)),
               U64(e.count), Prefixed(e.name) + (Prefixed(e.methodology) + Location(e)));
  }

  lemma Cut(b: Bytes, at: nat, head: Bytes, rest: Bytes)
    requires at <= |b| && b[at..] == head + rest
    ensures at + |head| + |rest| == |b|
    ensures b[at..at + |head|] == head && b[at + |head|..] == rest
  {
    assert b[at..][..|head|] == head && b[at..][|head|..] == rest;
    assert b[at..at + |head|] == b[at..][..|head|] && b[at + |head|..] == b[at..][|head|..];
  }

  lemma U32Word(x: nat)
    requires x < TWO_32
    ensures FromBigEndian(BigEndian(x, 4)) == x
  {
    Width4();
    BigEndianRoundTrip(x, 4);
  }

  lemma TextCuts(b: Bytes, at: nat, size: Bytes, text: Bytes, rest: Bytes)
    requires at <= |b| && |size| == 4 && b[at..] == size + text + rest
    ensures at + 4 + |text| + |rest| == |b|
    ensures b[at..at + 4] == size && b[at + 4..at + 4 + |text|] == text && b[at + 4 + |text|..] == rest
  {
    Associate(size, text, rest);
    Cut(b, at, size, text + rest);
    Cut(b, at + 4, text, rest);
  }

  lemma LocationCuts(b: Bytes, at: nat, d: ProjectDetails)
    requires d.Wire() && at <= |b| && b[at..] == Location(d)
    ensures at + 24 == |b|
    ensures FromBigEndian(b[at..at + 8]) == d.latitude % TWO_64
    ensures FromBigEndian(b[at + 8..at + 16]) == d.longitude % TWO_64
    ensures FromBigEndian(b[at + 16..at + 24]) == d.areaHectares
  {
    U64Word(d.areaHectares);
    I64Word(d.latitude);
    I64Word(d.longitude);
    Cut(b, at, I64(d.latitude), I64(d.longitude) + U64(d.areaHectares));
    Cut(b, at + 8, I64(d.longitude), U64(d.areaHectares));
    assert b[at + 16..] == b[at + 16..at + 24];
  }

  lemma TextsCut(b: Bytes, count: Bytes, size: Bytes, text: Bytes, size': Bytes, text': Bytes, rest: Bytes)
    requires |count| == 8 && |size| == 4 && |size'| == 4
    requires b == count + ((size + text) + ((size' + text') + rest))
    ensures |b| == 16 + |text| + |text'| + |rest|
    ensures b[..8] == count && b[8..12] == size && b[12..12 + |text|] == text
    ensures b[12 + |text|..16 + |text|] == size' && b[16 + |text|..16 + |text| + |text'|] == text'
    ensures b[16 + |text| + |text'|..] == rest
  {
    var more := (size' + text') + rest;
    assert b[0..] == b && b[..8] == b[0..8];
    Cut(b, 0, count, (size + text) + more);
    TextCuts(b, 8, size, text, more);
    TextCuts(b, 12 + |text|, size', text', rest);
  }

  /** A project preimage is the count, both texts behind their lengths, the two
  coordinates and the area, in this order. */
  lemma ProjectLayout(d: ProjectDetails)
    requires d.Wire()
    ensures |ProjectPreimage(d)| == 40 + |d.name| + |d.methodology|
    ensures
      var b, n, m := ProjectPreimage(d), |d.name|, |d.methodology|;
      && FromBigEndian(b[..8]) == d.count
      && FromBigEndian(b[8..12]) == n && b[12..12 + n] == d.name
      && FromBigEndian(b[12 + n..16 + n]) == m && b[16 + n..16 + n + m] == d.methodology
      && FromBigEndian(b[16 + n + m..24 + n + m]) == d.latitude % TWO_64
      && FromBigEndian(b[24 + n + m..32 + n + m]) == d.longitude % TWO_64
      && FromBigEndian(b[32 + n + m..40 + n + m]) == d.areaHectares
  {
    var b, n, m := ProjectPreimage(d), |d.name|, |d.methodology|;
    TextsCut(b, U64(d.count), BigEndian(n, 4), d.name, BigEndian(m, 4), d.methodology, Location(d));
    LocationCuts(b, 16 + n + m, d);
    U64Word(d.count);
    U32Word(n);
    U32Word(m);
  }
}
