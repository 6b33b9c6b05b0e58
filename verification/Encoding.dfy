/** The bytes that are hashed for a consensus digest and signed for a descriptor
    (src/mesh/consensus.rs): equal bytes mean equal content. */
module Encoding {
  import opened Prelude
  import opened Sorting
  import opened Directory

  type WireRelay<+S> = Descriptor<bytes, bytes, S>
  type WireDocument<+S> = Document<bytes, bytes, S>

  const U16_LIMIT := 0x1_0000
  const U32_LIMIT := 0x1_0000_0000
  const U64_LIMIT := 0x1_0000_0000_0000_0000

  /** "AnonGuard-Consensus-v6" and "AnonGuard-RelayDescriptor-v6" in ASCII. */
  const CONSENSUS_TAG: bytes :=
    [65, 110, 111, 110, 71, 117, 97, 114, 100, 45, 67, 111, 110, 115, 101, 110, 115, 117, 115, 45, 118, 54]
  const DESCRIPTOR_TAG: bytes :=
    [65, 110, 111, 110, 71, 117, 97, 114, 100, 45, 82, 101, 108, 97, 121, 68, 101, 115, 99, 114, 105,
     112, 116, 111, 114, 45, 118, 54]

  /** Big-endian integers; wider numbers are truncated, as an `as u32` cast does. */
  function U16(n: nat): (b: bytes)
    ensures |b| == 2
  {
    [n / 256 % 256, n % 256]
  }

  function U32(n: nat): (b: bytes)
    ensures |b| == 4
  {
    U16(n / U16_LIMIT) + U16(n % U16_LIMIT)
  }

  function U64(n: nat): (b: bytes)
    ensures |b| == 8
  {
    U32(n / U32_LIMIT) + U32(n % U32_LIMIT)
  }

  lemma U16Injective(n: nat, m: nat)
    requires n < U16_LIMIT && m < U16_LIMIT && U16(n) == U16(m)
    ensures n == m
  {
  }

  lemma U32Injective(n: nat, m: nat)
    requires n < U32_LIMIT && m < U32_LIMIT && U32(n) == U32(m)
    ensures n == m
  {
    SplitEqual(U16(n / U16_LIMIT), U16(n % U16_LIMIT), U16(m / U16_LIMIT), U16(m % U16_LIMIT));
    U16Injective(n / U16_LIMIT, m / U16_LIMIT);
    U16Injective(n % U16_LIMIT, m % U16_LIMIT);
  }

  lemma U64Injective(n: nat, m: nat)
    requires n < U64_LIMIT && m < U64_LIMIT && U64(n) == U64(m)
    ensures n == m
  {
    SplitEqual(U32(n / U32_LIMIT), U32(n % U32_LIMIT), U32(m / U32_LIMIT), U32(m % U32_LIMIT));
    U32Injective(n / U32_LIMIT, m / U32_LIMIT);
    U32Injective(n % U32_LIMIT, m % U32_LIMIT);
  }

  /** A length-prefixed field. */
  function Framed(field: bytes): bytes {
    U32(|field|) + field
  }

  /** Everything after the two variable-length fields: a fixed 83 bytes. */
  function FixedFields<S>(r: WireRelay<S>): bytes {
    U16(r.port) + r.onionKey + r.pin + [if r.isExit then 1 else 0]
    + U64(r.powNonce) + U64(r.registeredAt)
  }

  function RelayBytes<S>(r: WireRelay<S>): bytes {
    Framed(r.nodeId) + Framed(r.host) + FixedFields(r)
  }

  function SigningBytes<S>(r: WireRelay<S>): bytes {
    DESCRIPTOR_TAG + RelayBytes(r)
  }

  function RelayListBytes<S>(s: seq<WireRelay<S>>): bytes {
    if s == [] then [] else RelayBytes(s[0]) + RelayListBytes(s[1..])
  }

  function ConsensusBytes<S>(d: WireDocument<S>): bytes {
    CONSENSUS_TAG + U64(d.validAfter) + U64(d.validUntil)
    + RelayListBytes(SortBy(ById<bytes, bytes, S>, d.relays))
  }

  /** The ranges the Rust field types impose, and lengths below 2^32. */
  predicate WellSized<S>(r: WireRelay<S>) {
    && |r.nodeId| < U32_LIMIT && |r.host| < U32_LIMIT
    && r.port < U16_LIMIT && |r.onionKey| == 32 && |r.pin| == 32
    && r.powNonce < U64_LIMIT && r.registeredAt < U64_LIMIT
  }

  ghost predicate WellSizedDocument<S>(d: WireDocument<S>) {
    && d.validAfter < U64_LIMIT && d.validUntil < U64_LIMIT
    && forall r :: r in d.relays ==> WellSized(r)
  }

  lemma FramedPrefix(f: bytes, x: bytes, g: bytes, y: bytes)
    requires |f| < U32_LIMIT && |g| < U32_LIMIT
    requires Framed(f) + x == Framed(g) + y
    ensures f == g && x == y
  {
    var lf, lg := U32(|f|), U32(|g|);
    assert Framed(f) + x == lf + (f + x) && Framed(g) + y == lg + (g + y);
    SplitEqual(lf, f + x, lg, g + y);
    U32Injective(|f|, |g|);
    SplitEqual(f, x, g, y);
  }

  lemma FixedFieldsInjective<S, T>(a: WireRelay<S>, b: WireRelay<T>)
    requires WellSized(a) && WellSized(b)
    ensures |FixedFields(a)| == |FixedFields(b)| == 83
    ensures FixedFields(a) == FixedFields(b) ==>
      && a.port == b.port && a.onionKey == b.onionKey && a.pin == b.pin
      && a.isExit == b.isExit && a.powNonce == b.powNonce && a.registeredAt == b.registeredAt
  {
    if FixedFields(a) == FixedFields(b) {
      var ea: bytes, eb: bytes := [if a.isExit then 1 else 0], [if b.isExit then 1 else 0];
      var na, nb := U64(a.powNonce), U64(b.powNonce);
      var ra, rb := U64(a.registeredAt), U64(b.registeredAt);
      var pa, pb := U16(a.port), U16(b.port);
      SplitEqual(pa + a.onionKey + a.pin + ea + na, ra, pb + b.onionKey + b.pin + eb + nb, rb);
      SplitEqual(pa + a.onionKey + a.pin + ea, na, pb + b.onionKey + b.pin + eb, nb);
      SplitEqual(pa + a.onionKey + a.pin, ea, pb + b.onionKey + b.pin, eb);
      SplitEqual(pa + a.onionKey, a.pin, pb + b.onionKey, b.pin);
      SplitEqual(pa, a.onionKey, pb, b.onionKey);
      assert ea[0] == eb[0];
      U16Injective(a.port, b.port);
      U64Injective(a.powNonce, b.powNonce);
      U64Injective(a.registeredAt, b.registeredAt);
    }
  }

  lemma ConcatParts(a: bytes, b: bytes, c: bytes, d: bytes)
    ensures a + b + c + d == a + (b + (c + d))
  {
  }

  /** Proof bytes are not encoded. */
  lemma RelayBytesUnsigned<S>(r: WireRelay<S>)
    ensures RelayBytes(r) == RelayBytes(Unsigned(r))
  {
  }

  /** A descriptor's encoding is self-delimiting and determines every field but the proof. */
  lemma RelayPrefix<S, T>(a: WireRelay<S>, x: bytes, b: WireRelay<T>, y: bytes)
    requires WellSized(a) && WellSized(b)
    requires RelayBytes(a) + x == RelayBytes(b) + y
    ensures Unsigned(a) == Unsigned(b) && x == y
  {
    var fa, fb := FixedFields(a), FixedFields(b);
    ConcatParts(Framed(a.nodeId), Framed(a.host), fa, x);
    ConcatParts(Framed(b.nodeId), Framed(b.host), fb, y);
    FramedPrefix(a.nodeId, Framed(a.host) + (fa + x), b.nodeId, Framed(b.host) + (fb + y));
    FramedPrefix(a.host, fa + x, b.host, fb + y);
    FixedFieldsInjective(a, b);
    SplitEqual(fa, x, fb, y);
  }

  /** The bytes a relay signs determine every signed field. */
  lemma SigningBytesInjective<S, T>(a: WireRelay<S>, b: WireRelay<T>)
    requires WellSized(a) && WellSized(b)
    ensures SigningBytes(a) == SigningBytes(b) <==> Unsigned(a) == Unsigned(b)
  {
    RelayBytesUnsigned(a);
    RelayBytesUnsigned(b);
    if SigningBytes(a) == SigningBytes(b) {
      SplitEqual(DESCRIPTOR_TAG, RelayBytes(a), DESCRIPTOR_TAG, RelayBytes(b));
      assert RelayBytes(a) + [] == RelayBytes(a) && RelayBytes(b) + [] == RelayBytes(b);
      RelayPrefix(a, [], b, []);
    }
  }

  lemma {:induction false} RelayListInjective<S, T>(s: seq<WireRelay<S>>, t: seq<WireRelay<T>>)
    requires forall r :: r in s ==> WellSized(r)
    requires forall r :: r in t ==> WellSized(r)
    ensures RelayListBytes(s) == RelayListBytes(t) <==> UnsignedAll(s) == UnsignedAll(t)
  {
    if s == [] || t == [] {
      assert s != [] ==> |RelayBytes(s[0])| >= 4;
      assert t != [] ==> |RelayBytes(t[0])| >= 4;
    } else {
      assert s[0] in s && t[0] in t;
      RelayListInjective(s[1..], t[1..]);
      if RelayListBytes(s) == RelayListBytes(t) {
        RelayPrefix(s[0], RelayListBytes(s[1..]), t[0], RelayListBytes(t[1..]));
      }
      RelayBytesUnsigned(s[0]);
      RelayBytesUnsigned(t[0]);
      SplitUnsigned(s, t);
    }
  }

  lemma SplitUnsigned<S, T>(s: seq<WireRelay<S>>, t: seq<WireRelay<T>>)
    requires s != [] && t != []
    ensures UnsignedAll(s) == UnsignedAll(t) <==>
      Unsigned(s[0]) == Unsigned(t[0]) && UnsignedAll(s[1..]) == UnsignedAll(t[1..])
  {
  }

  /** The hashed bytes of two documents are equal exactly when the canonical contents
      are equal, for every list of relays. */
  lemma ConsensusBytesCanonical<S(!new)>(d: WireDocument<S>, e: WireDocument<S>)
    requires WellSizedDocument(d) && WellSizedDocument(e)
    ensures ConsensusBytes(d) == ConsensusBytes(e) <==> Canonical(d) == Canonical(e)
  {
    var s, t := SortBy(ById<bytes, bytes, S>, d.relays), SortBy(ById<bytes, bytes, S>, e.relays);
    ByIdPreorder<bytes, bytes, S>();
    SortSorts(ById<bytes, bytes, S>, d.relays);
    SortSorts(ById<bytes, bytes, S>, e.relays);
    forall r | r in s ensures WellSized(r) { assert r in multiset(s); }
    forall r | r in t ensures WellSized(r) { assert r in multiset(t); }
    RelayListInjective(s, t);
    if ConsensusBytes(d) == ConsensusBytes(e) {
      var ad, ae := U64(d.validAfter), U64(e.validAfter);
      var ud, ue := U64(d.validUntil), U64(e.validUntil);
      SplitEqual(CONSENSUS_TAG + ad + ud, RelayListBytes(s), CONSENSUS_TAG + ae + ue, RelayListBytes(t));
      SplitEqual(CONSENSUS_TAG + ad, ud, CONSENSUS_TAG + ae, ue);
      SplitEqual(CONSENSUS_TAG, ad, CONSENSUS_TAG, ae);
      U64Injective(d.validAfter, e.validAfter);
      U64Injective(d.validUntil, e.validUntil);
    }
  }

  /** Canonical encoding: with distinct node ids, the hashed bytes agree exactly when the
      windows agree and the relays agree up to order and ignoring proofs. */
  lemma ConsensusBytesMeaning<S(!new)>(d: WireDocument<S>, e: WireDocument<S>)
    requires WellSizedDocument(d) && WellSizedDocument(e)
    requires DistinctIds(d.relays)
    ensures ConsensusBytes(d) == ConsensusBytes(e) <==>
      && d.validAfter == e.validAfter && d.validUntil == e.validUntil
      && multiset(UnsignedAll(d.relays)) == multiset(UnsignedAll(e.relays))
  {
    ConsensusBytesCanonical(d, e);
    CanonicalMeaning(d, e);
  }

  /** Feeding the next relay moves its bytes from what is left to what was hashed. */
  lemma FeedStep<S>(hashed: bytes, next: bytes, sorted: seq<WireRelay<S>>, k: nat)
    requires k < |sorted| && next == hashed + RelayBytes(sorted[k])
    ensures next + RelayListBytes(sorted[k + 1..]) == hashed + RelayListBytes(sorted[k..])
  {
  }

  /** One turn of the hashing loop. */
  method FeedRelay<S>(hashed: bytes, r: WireRelay<S>) returns (next: bytes)
    ensures next == hashed + RelayBytes(r)
  {
    ghost var id, host := Framed(r.nodeId), Framed(r.host);
    next := hashed + U32(|r.nodeId|);
    next := next + r.nodeId;
    assert next == hashed + id;
    next := next + U32(|r.host|);
    next := next + r.host;
    assert next == hashed + (id + host);
    ghost var before := next;
    next := FeedFixed(next, r);
    assert before + FixedFields(r) == hashed + (id + host + FixedFields(r));
  }

  method FeedFixed<S>(hashed: bytes, r: WireRelay<S>) returns (next: bytes)
    ensures next == hashed + FixedFields(r)
  {
    ghost var fed := U16(r.port);
    next := hashed + U16(r.port);
    next, fed := next + r.onionKey, fed + r.onionKey;
    assert next == hashed + fed;
    next, fed := next + r.pin, fed + r.pin;
    assert next == hashed + fed;
    next, fed := next + [if r.isExit then 1 else 0], fed + [if r.isExit then 1 else 0];
    assert next == hashed + fed;
    next, fed := next + U64(r.powNonce), fed + U64(r.powNonce);
    assert next == hashed + fed;
    next := next + U64(r.registeredAt);
    assert next == hashed + (fed + U64(r.registeredAt));
  }

  method FeedRelays<S>(header: bytes, sorted: seq<WireRelay<S>>) returns (hashed: bytes)
    ensures hashed == header + RelayListBytes(sorted)
  {
    hashed := header;
    for k := 0 to |sorted|
      invariant hashed + RelayListBytes(sorted[k..]) == header + RelayListBytes(sorted)
    {
      var next := FeedRelay(hashed, sorted[k]);
      FeedStep(hashed, next, sorted, k);
      hashed := next;
    }
    assert RelayListBytes(sorted[|sorted|..]) == [];
  }

  /** `compute_digest` up to the hash: the hasher is fed field by field. */
  method ComputeDigestInput<S>(d: WireDocument<S>) returns (hashed: bytes)
    ensures hashed == ConsensusBytes(d)
  {
    hashed := CONSENSUS_TAG + U64(d.validAfter) + U64(d.validUntil);
    hashed := FeedRelays(hashed, SortBy(ById<bytes, bytes, S>, d.relays));
  }

  /** `compute_signing_bytes`: the buffer is filled field by field. */
  method ComputeSigningBytes<S>(r: WireRelay<S>) returns (buffer: bytes)
    ensures buffer == SigningBytes(r)
  {
    buffer := FeedRelay(DESCRIPTOR_TAG, r);
  }

  // ---- the layout ----

  /** The most significant byte comes first. */
  lemma BigEndian(n: nat)
    ensures n < U16_LIMIT ==> var b := U16(n); n == b[0] as int * 256 + b[1] as int
    ensures n < U32_LIMIT ==> var b := U32(n); n == b[0] as int * 0x100_0000 + b[1] as int * 0x1_0000 + b[2] as int * 256 + b[3] as int
    ensures n < U64_LIMIT ==> U64(n)[..4] == U32(n / U32_LIMIT) && U64(n)[4..] == U32(n % U32_LIMIT)
  {
  }

  /** Where each field of a relay stands in its encoding. */
  lemma RelayLayout<S>(r: WireRelay<S>)
    requires WellSized(r)
    ensures
      var b, h, f := RelayBytes(r), 8 + |r.nodeId|, 8 + |r.nodeId| + |r.host|;
      && |b| == f + 83
      && b[..4] == U32(|r.nodeId|) && b[4..4 + |r.nodeId|] == r.nodeId
      && b[h - 4..h] == U32(|r.host|) && b[h..f] == r.host
      && b[f..f + 2] == U16(r.port) && b[f + 2..f + 34] == r.onionKey && b[f + 34..f + 66] == r.pin
      && b[f + 66] == (if r.isExit then 1 else 0)
      && b[f + 67..f + 75] == U64(r.powNonce) && b[f + 75..f + 83] == U64(r.registeredAt)
  {
    var front := Framed(r.nodeId) + Framed(r.host);
    var fixed := FixedFields(r);
    FixedLayout(r);
    assert RelayBytes(r) == front + fixed;
  }

  lemma FixedLayout<S>(r: WireRelay<S>)
    requires WellSized(r)
    ensures
      var b := FixedFields(r);
      && |b| == 83 && b[..2] == U16(r.port) && b[2..34] == r.onionKey && b[34..66] == r.pin
      && b[66] == (if r.isExit then 1 else 0) && b[67..75] == U64(r.powNonce) && b[75..83] == U64(r.registeredAt)
  {
  }

  /** A document's encoding starts with the tag and its window, followed by its relays in order of
      their ids. */
  lemma DocumentLayout<S(!new)>(d: WireDocument<S>)
    ensures
      var b := ConsensusBytes(d);
      && |b| >= 38 && b[..22] == CONSENSUS_TAG && b[22..30] == U64(d.validAfter) && b[30..38] == U64(d.validUntil)
      && b[38..] == RelayListBytes(SortBy(ById<bytes, bytes, S>, d.relays))
      && Sorted(ById<bytes, bytes, S>, SortBy(ById<bytes, bytes, S>, d.relays))
  {
    ByIdPreorder<bytes, bytes, S>();
    SortSorts(ById<bytes, bytes, S>, d.relays);
  }
}
