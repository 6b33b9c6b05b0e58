/** The bytes that are hashed for a retirement policy and for the authority set it names
    (src/core/revocation.rs): equal bytes mean equal content. */
module PolicyEncoding {
  import opened Prelude
  import opened Sorting
  import opened Directory
  import opened Encoding

  /** "AnonGuard-IdentityRetirement-v1" and "AnonGuard-RevocationAuthoritySet-v1" in ASCII. */
  const POLICY_TAG: bytes :=
    [65, 110, 111, 110, 71, 117, 97, 114, 100, 45, 73, 100, 101, 110, 116, 105, 116, 121, 82, 101, 116, 105, 114, 101,
     109, 101, 110, 116, 45, 118, 49]
  const AUTHORITIES_TAG: bytes :=
    [65, 110, 111, 110, 71, 117, 97, 114, 100, 45, 82, 101, 118, 111, 99, 97, 116, 105, 111, 110, 65, 117, 116, 104,
     111, 114, 105, 116, 121, 83, 101, 116, 45, 118, 49]

  // ---- the policy ----

  datatype WirePolicy = WirePolicy(version: nat, generation: nat, authoritySet: bytes, revoked: seq<bytes>)

  function Concat(s: seq<bytes>): bytes {
    if s == [] then [] else s[0] + Concat(s[1..])
  }

  function PolicyHeader(p: WirePolicy): bytes {
    POLICY_TAG + U32(p.version) + U64(p.generation) + p.authoritySet + U32(|p.revoked|)
  }

  function PolicyBytes(p: WirePolicy): bytes {
    PolicyHeader(p) + Concat(SortBy(LexLe, p.revoked))
  }

  ghost predicate Identities(s: seq<bytes>) {
    forall x :: x in s ==> |x| == 32
  }

  /** The ranges the Rust field types impose. */
  ghost predicate WellSizedPolicy(p: WirePolicy) {
    && p.version < U32_LIMIT && p.generation < U64_LIMIT && |p.authoritySet| == 32
    && |p.revoked| < U32_LIMIT && Identities(p.revoked)
  }

  lemma {:induction false} ConcatInjective(s: seq<bytes>, t: seq<bytes>)
    requires Identities(s) && Identities(t)
    ensures Concat(s) == Concat(t) <==> s == t
  {
    if s == [] || t == [] {
      assert s != [] ==> |s[0]| == 32;
      assert t != [] ==> |t[0]| == 32;
    } else {
      assert s[0] in s && t[0] in t;
      ConcatInjective(s[1..], t[1..]);
      if Concat(s) == Concat(t) {
        SplitEqual(s[0], Concat(s[1..]), t[0], Concat(t[1..]));
        assert s == [s[0]] + s[1..] && t == [t[0]] + t[1..];
      }
    }
  }

  lemma SortedIdentities(s: seq<bytes>)
    requires Identities(s)
    ensures Identities(SortBy(LexLe, s))
  {
    LexPreorder();
    SortSorts(LexLe, s);
    var sorted := SortBy(LexLe, s);
    forall x | x in sorted ensures |x| == 32 { assert x in multiset(sorted); }
  }

  lemma SortedBytesMeaning(s: seq<bytes>, t: seq<bytes>)
    ensures SortBy(LexLe, s) == SortBy(LexLe, t) <==> multiset(s) == multiset(t)
  {
    LexPreorder();
    forall i, j | 0 <= i < |s| && 0 <= j < |s| && LexLe(s[i], s[j]) && LexLe(s[j], s[i]) ensures s[i] == s[j] {
      LexTotal(s[i], s[j]);
    }
    SortDetermined(LexLe, s, t);
  }

  /** The listed identities' bytes depend on the multiset of identities only, and determine it. */
  lemma ListedMeaning(s: seq<bytes>, t: seq<bytes>)
    requires Identities(s) && Identities(t)
    ensures Concat(SortBy(LexLe, s)) == Concat(SortBy(LexLe, t)) <==> multiset(s) == multiset(t)
  {
    SortedIdentities(s);
    SortedIdentities(t);
    ConcatInjective(SortBy(LexLe, s), SortBy(LexLe, t));
    SortedBytesMeaning(s, t);
  }

  lemma HeaderInjective(p: WirePolicy, q: WirePolicy)
    requires WellSizedPolicy(p) && WellSizedPolicy(q)
    ensures |PolicyHeader(p)| == |PolicyHeader(q)|
    ensures PolicyHeader(p) == PolicyHeader(q) <==>
      p.version == q.version && p.generation == q.generation && p.authoritySet == q.authoritySet && |p.revoked| == |q.revoked|
  {
    if PolicyHeader(p) == PolicyHeader(q) {
      var vp, vq, gp, gq := U32(p.version), U32(q.version), U64(p.generation), U64(q.generation);
      SplitEqual(POLICY_TAG + vp + gp + p.authoritySet, U32(|p.revoked|), POLICY_TAG + vq + gq + q.authoritySet, U32(|q.revoked|));
      SplitEqual(POLICY_TAG + vp + gp, p.authoritySet, POLICY_TAG + vq + gq, q.authoritySet);
      SplitEqual(POLICY_TAG + vp, gp, POLICY_TAG + vq, gq);
      SplitEqual(POLICY_TAG, vp, POLICY_TAG, vq);
      U32Injective(p.version, q.version);
      U64Injective(p.generation, q.generation);
      U32Injective(|p.revoked|, |q.revoked|);
    }
  }

  /** The hashed bytes of two policies are equal exactly when version, generation, authority set
      and the retired identities up to order are all equal. */
  lemma PolicyBytesMeaning(p: WirePolicy, q: WirePolicy)
    requires WellSizedPolicy(p) && WellSizedPolicy(q)
    ensures PolicyBytes(p) == PolicyBytes(q) <==>
      && p.version == q.version && p.generation == q.generation && p.authoritySet == q.authoritySet
      && multiset(p.revoked) == multiset(q.revoked)
  {
    HeaderInjective(p, q);
    ListedMeaning(p.revoked, q.revoked);
    if multiset(p.revoked) == multiset(q.revoked) {
      assert |multiset(p.revoked)| == |p.revoked| && |multiset(q.revoked)| == |q.revoked|;
    }
    if PolicyBytes(p) == PolicyBytes(q) {
      SplitEqual(PolicyHeader(p), Concat(SortBy(LexLe, p.revoked)), PolicyHeader(q), Concat(SortBy(LexLe, q.revoked)));
    }
  }

  /** Where each field of a policy stands in its encoding; the identities follow in byte order. */
  lemma PolicyLayout(p: WirePolicy)
    requires WellSizedPolicy(p)
    ensures
      var b := PolicyBytes(p);
      && |b| >= 79 && b[..31] == POLICY_TAG && b[31..35] == U32(p.version) && b[35..43] == U64(p.generation)
      && b[43..75] == p.authoritySet && b[75..79] == U32(|p.revoked|)
      && b[79..] == Concat(SortBy(LexLe, p.revoked)) && Sorted(LexLe, SortBy(LexLe, p.revoked))
  {
    LexPreorder();
    SortSorts(LexLe, p.revoked);
    HeaderLayout(p);
    var h, b := PolicyHeader(p), PolicyBytes(p);
    assert forall i, j :: 0 <= i <= j <= 79 ==> b[i..j] == h[i..j];
  }

  lemma HeaderLayout(p: WirePolicy)
    requires |p.authoritySet| == 32
    ensures
      var h := PolicyHeader(p);
      && |h| == 79 && h[..31] == POLICY_TAG && h[31..35] == U32(p.version) && h[35..43] == U64(p.generation)
      && h[43..75] == p.authoritySet && h[75..79] == U32(|p.revoked|)
  {
  }

  /** `digest` up to the hash: the hasher is fed field by field. */
  method ComputePolicyInput(p: WirePolicy) returns (hashed: bytes)
    ensures hashed == PolicyBytes(p)
  {
    hashed := POLICY_TAG + U32(p.version);
    hashed := hashed + U64(p.generation);
    hashed := hashed + p.authoritySet;
    var identities := SortBy(LexLe, p.revoked);
    LexPreorder();
    SortSorts(LexLe, p.revoked);
    hashed := hashed + U32(|identities|);
    for k := 0 to |identities|
      invariant hashed + Concat(identities[k..]) == PolicyBytes(p)
    {
      ghost var rest := Concat(identities[k + 1..]);
      assert Concat(identities[k..]) == identities[k] + rest;
      assert hashed + (identities[k] + rest) == hashed + identities[k] + rest;
      hashed := hashed + identities[k];
    }
    assert hashed + [] == hashed;
  }

  // ---- the authority set ----

  /** An authority's id and key. */
  datatype Authority = Authority(id: bytes, key: bytes)

  predicate ById(a: Authority, b: Authority) {
    LexLe(a.id, b.id)
  }

  function AuthorityBytes(a: Authority): bytes {
    Framed(a.id) + a.key
  }

  function AuthorityListBytes(s: seq<Authority>): bytes {
    if s == [] then [] else AuthorityBytes(s[0]) + AuthorityListBytes(s[1..])
  }

  function AuthoritySetBytes(s: seq<Authority>): bytes {
    AUTHORITIES_TAG + U32(|s|) + AuthorityListBytes(SortBy(ById, s))
  }

  ghost predicate Authorities(s: seq<Authority>) {
    forall a :: a in s ==> |a.id| < U32_LIMIT && |a.key| == 32
  }

  lemma AuthorityPrefix(a: Authority, x: bytes, b: Authority, y: bytes)
    requires |a.id| < U32_LIMIT && |b.id| < U32_LIMIT && |a.key| == |b.key|
    requires AuthorityBytes(a) + x == AuthorityBytes(b) + y
    ensures a == b && x == y
  {
    assert AuthorityBytes(a) + x == Framed(a.id) + (a.key + x) && AuthorityBytes(b) + y == Framed(b.id) + (b.key + y);
    FramedPrefix(a.id, a.key + x, b.id, b.key + y);
    SplitEqual(a.key, x, b.key, y);
  }

  lemma {:induction false} AuthorityListInjective(s: seq<Authority>, t: seq<Authority>)
    requires Authorities(s) && Authorities(t)
    ensures AuthorityListBytes(s) == AuthorityListBytes(t) <==> s == t
  {
    if s == [] || t == [] {
      assert s != [] ==> |AuthorityBytes(s[0])| >= 4;
      assert t != [] ==> |AuthorityBytes(t[0])| >= 4;
    } else {
      assert s[0] in s && t[0] in t;
      AuthorityListInjective(s[1..], t[1..]);
      if AuthorityListBytes(s) == AuthorityListBytes(t) {
        AuthorityPrefix(s[0], AuthorityListBytes(s[1..]), t[0], AuthorityListBytes(t[1..]));
        assert s == [s[0]] + s[1..] && t == [t[0]] + t[1..];
      }
    }
  }

  lemma ByIdOrder()
    ensures TotalPreorder(ById)
  {
    forall a: Authority, b: Authority ensures ById(a, b) || ById(b, a) {
      LexTotal(a.id, b.id);
    }
    forall a: Authority, b: Authority, c: Authority | ById(a, b) && ById(b, c) ensures ById(a, c) {
      LexTransitive(a.id, b.id, c.id);
    }
  }

  lemma SortedAuthorities(s: seq<Authority>)
    requires Authorities(s)
    ensures Authorities(SortBy(ById, s))
  {
    ByIdOrder();
    SortSorts(ById, s);
    var sorted := SortBy(ById, s);
    forall a | a in sorted ensures |a.id| < U32_LIMIT && |a.key| == 32 { assert a in multiset(sorted); }
  }

  /** The hashed bytes of two authority sets, with distinct ids, are equal exactly when they bind
      the same ids to the same keys, in whatever order they are iterated. */
  lemma AuthoritySetMeaning(s: seq<Authority>, t: seq<Authority>)
    requires Authorities(s) && Authorities(t) && |s| < U32_LIMIT && |t| < U32_LIMIT
    requires forall i, j :: 0 <= i < j < |s| ==> s[i].id != s[j].id
    ensures AuthoritySetBytes(s) == AuthoritySetBytes(t) <==> multiset(s) == multiset(t)
  {
    SortedAuthorities(s);
    SortedAuthorities(t);
    AuthorityListInjective(SortBy(ById, s), SortBy(ById, t));
    ByIdOrder();
    forall i, j | 0 <= i < |s| && 0 <= j < |s| && ById(s[i], s[j]) && ById(s[j], s[i]) ensures s[i] == s[j] {
      LexTotal(s[i].id, s[j].id);
    }
    SortDetermined(ById, s, t);
    assert |multiset(s)| == |s| && |multiset(t)| == |t|;
    if AuthoritySetBytes(s) == AuthoritySetBytes(t) {
      SplitEqual(AUTHORITIES_TAG + U32(|s|), AuthorityListBytes(SortBy(ById, s)),
                 AUTHORITIES_TAG + U32(|t|), AuthorityListBytes(SortBy(ById, t)));
    }
  }

  lemma FeedAuthorityStep(hashed: bytes, sorted: seq<Authority>, k: nat)
    requires k < |sorted|
    ensures hashed + AuthorityBytes(sorted[k]) + AuthorityListBytes(sorted[k + 1..]) == hashed + AuthorityListBytes(sorted[k..])
  {
    assert sorted[k..][1..] == sorted[k + 1..];
  }

  /** `authority_set_digest` up to the hash, for any iteration order of the keys. */
  method ComputeAuthoritySetInput(keys: seq<Authority>) returns (hashed: bytes)
    ensures hashed == AuthoritySetBytes(keys)
  {
    var sorted := SortBy(ById, keys);
    assert |sorted| == |keys| by {
      ByIdOrder();
      SortSorts(ById, keys);
    }
    hashed := AUTHORITIES_TAG + U32(|sorted|);
    for k := 0 to |sorted|
      invariant hashed + AuthorityListBytes(sorted[k..]) == AuthoritySetBytes(keys)
    {
      FeedAuthorityStep(hashed, sorted, k);
      hashed := FeedAuthority(hashed, sorted[k]);
    }
  }

  method FeedAuthority(hashed: bytes, a: Authority) returns (next: bytes)
    ensures next == hashed + AuthorityBytes(a)
  {
    next := hashed + U32(|a.id|);
    next := next + a.id;
    next := next + a.key;
  }
}
