/** Relay descriptors and consensus documents. The types are generic in the host,
    pin and proof, so that one definition serves the byte-level encoding and the
    symbolic protocol. */
module Directory {
  import opened Prelude
  import opened Sorting

  const MAX_DIRECTORY_RELAYS := 512
  const MAX_SIGNATURES := 16

  datatype Descriptor<+H, +P, +S> = Descriptor(
    nodeId: bytes, host: H, port: nat, onionKey: bytes, pin: P,
    isExit: bool, powNonce: nat, registeredAt: nat, proof: S)

  datatype Vote<+S> = Vote(authorityId: string, proof: S)

  datatype Document<+H, +P, +S> = Document(
    validAfter: nat, validUntil: nat,
    relays: seq<Descriptor<H, P, S>>, signatures: seq<Vote<S>>)

  /** What a consensus digest commits to: the window and the relays sorted by node
      id, without their proof bytes. */
  datatype Content<+H, +P> = Content(
    validAfter: nat, validUntil: nat, relays: seq<Descriptor<H, P, ()>>)

  function Unsigned<H, P, S>(r: Descriptor<H, P, S>): Descriptor<H, P, ()> {
    Descriptor(r.nodeId, r.host, r.port, r.onionKey, r.pin, r.isExit, r.powNonce, r.registeredAt, ())
  }

  function UnsignedAll<H, P, S>(s: seq<Descriptor<H, P, S>>): (u: seq<Descriptor<H, P, ()>>)
    ensures |u| == |s| && forall i :: 0 <= i < |s| ==> u[i] == Unsigned(s[i])
  {
    seq(|s|, i requires 0 <= i < |s| => Unsigned(s[i]))
  }

  /** Byte-wise lexicographic order, as strings compare. */
  predicate LexLe(a: bytes, b: bytes) {
    a == [] || (b != [] && (a[0] < b[0] || (a[0] == b[0] && LexLe(a[1..], b[1..]))))
  }

  predicate ById<H, P, S>(a: Descriptor<H, P, S>, b: Descriptor<H, P, S>) {
    LexLe(a.nodeId, b.nodeId)
  }

  function Canonical<H, P, S>(d: Document<H, P, S>): Content<H, P> {
    Content(d.validAfter, d.validUntil, UnsignedAll(SortBy(ById<H, P, S>, d.relays)))
  }

  predicate DistinctIds<H, P, S>(s: seq<Descriptor<H, P, S>>) {
    forall i, j :: 0 <= i < j < |s| ==> s[i].nodeId != s[j].nodeId
  }

  lemma {:induction false} LexTotal(a: bytes, b: bytes)
    ensures LexLe(a, b) || LexLe(b, a)
    ensures LexLe(a, b) && LexLe(b, a) ==> a == b
  {
    if a != [] && b != [] {
      LexTotal(a[1..], b[1..]);
      assert a == [a[0]] + a[1..] && b == [b[0]] + b[1..];
    }
  }

  lemma {:induction false} LexTransitive(a: bytes, b: bytes, c: bytes)
    requires LexLe(a, b) && LexLe(b, c)
    ensures LexLe(a, c)
  {
    if a != [] && a[0] == b[0] == c[0] {
      LexTransitive(a[1..], b[1..], c[1..]);
    }
  }

  lemma LexPreorder()
    ensures TotalPreorder(LexLe)
  {
    forall a: bytes, b: bytes ensures LexLe(a, b) || LexLe(b, a) {
      LexTotal(a, b);
    }
    forall a: bytes, b: bytes, c: bytes | LexLe(a, b) && LexLe(b, c) ensures LexLe(a, c) {
      LexTransitive(a, b, c);
    }
  }

  lemma ByIdPreorder<H(!new), P(!new), S(!new)>()
    ensures TotalPreorder(ById<H, P, S>)
  {
    forall x: Descriptor<H, P, S>, y: Descriptor<H, P, S> ensures ById(x, y) || ById(y, x) {
      LexTotal(x.nodeId, y.nodeId);
    }
    forall x: Descriptor<H, P, S>, y: Descriptor<H, P, S>, z: Descriptor<H, P, S> | ById(x, y) && ById(y, z)
      ensures ById(x, z)
    {
      LexTransitive(x.nodeId, y.nodeId, z.nodeId);
    }
  }

  lemma {:induction false} InsertUnsigned<H, P, S>(x: Descriptor<H, P, S>, s: seq<Descriptor<H, P, S>>)
    ensures UnsignedAll(Insert(ById<H, P, S>, x, s)) == Insert(ById<H, P, ()>, Unsigned(x), UnsignedAll(s))
  {
    if s != [] && !ById(x, s[0]) {
      InsertUnsigned(x, s[1..]);
      assert UnsignedAll(s)[1..] == UnsignedAll(s[1..]);
      assert UnsignedAll([s[0]] + Insert(ById<H, P, S>, x, s[1..]))
          == [Unsigned(s[0])] + UnsignedAll(Insert(ById<H, P, S>, x, s[1..]));
    } else {
      assert UnsignedAll([x] + s) == [Unsigned(x)] + UnsignedAll(s);
    }
  }

  /** Dropping the proofs commutes with sorting, because sorting looks at ids only. */
  lemma {:induction false} SortUnsigned<H, P, S>(s: seq<Descriptor<H, P, S>>)
    ensures UnsignedAll(SortBy(ById<H, P, S>, s)) == SortBy(ById<H, P, ()>, UnsignedAll(s))
  {
    if s != [] {
      SortUnsigned(s[1..]);
      InsertUnsigned(s[0], SortBy(ById<H, P, S>, s[1..]));
      assert UnsignedAll(s)[1..] == UnsignedAll(s[1..]);
    }
  }

  /** For distinct node ids, two documents have the same canonical content exactly when
      their windows agree and their relays agree up to order and ignoring proofs. */
  lemma CanonicalMeaning<H(!new), P(!new), S(!new)>(d: Document<H, P, S>, e: Document<H, P, S>)
    requires DistinctIds(d.relays)
    ensures Canonical(d) == Canonical(e) <==>
      && d.validAfter == e.validAfter && d.validUntil == e.validUntil
      && multiset(UnsignedAll(d.relays)) == multiset(UnsignedAll(e.relays))
  {
    var u := UnsignedAll(d.relays);
    ByIdPreorder<H, P, ()>();
    SortUnsigned(d.relays);
    SortUnsigned(e.relays);
    forall i, j | 0 <= i < |u| && 0 <= j < |u| && ById(u[i], u[j]) && ById(u[j], u[i]) ensures u[i] == u[j] {
      LexTotal(u[i].nodeId, u[j].nodeId);
    }
    SortDetermined(ById<H, P, ()>, u, UnsignedAll(e.relays));
  }
}
