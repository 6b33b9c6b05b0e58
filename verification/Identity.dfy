/** Composite identities with idealised cryptography: a pin is the injective hash of a
    classical and a post-quantum key, and a proof verifies only for the message that was
    signed (src/crypto/identity.rs, src/crypto/hybrid_identity.rs). */
module Identity {
  import opened Prelude
  import opened Directory
  import opened Address

  datatype Pin = ZeroPin | Pin(classical: nat, pq: nat)

  /** The content a retirement policy's digest commits to. */
  datatype PolicyContent = PolicyContent(
    version: nat, generation: nat, authoritySet: map<string, Pin>, revoked: multiset<Pin>)

  datatype Message =
    | SignedDescriptor(descriptor: Descriptor<Host, Pin, ()>)
    | SignedDigest(digest: Content<Host, Pin>)
    | SignedPolicy(policy: PolicyContent)

  /** `sized`: the bytes have the proof length. `decodes`: the embedded public key is
      acceptable. `signed`: the message both signature halves are valid for, if any. */
  datatype Proof = Proof(sized: bool, classical: nat, pq: nat, decodes: bool, signed: Option<Message>)

  type Relay = Descriptor<Host, Pin, Proof>
  type ConsensusDocument = Document<Host, Pin, Proof>
  type AuthoritySignature = Vote<Proof>
  type Digest = Content<Host, Pin>

  /** The proof that the holder of `key` makes. */
  function Sign(key: Pin, message: Message): Proof
    requires key.Pin?
  {
    Proof(true, key.classical, key.pq, true, Some(message))
  }

  predicate Verifies(pin: Pin, message: Message, proof: Proof) {
    && proof.sized && proof.decodes
    && pin == Pin(proof.classical, proof.pq)
    && proof.signed == Some(message)
  }

  predicate IdByte(b: byte) {
    48 <= b <= 57 || 65 <= b <= 90 || 97 <= b <= 122 || b == 45 || b == 95 || b == 46
  }

  predicate ValidNodeId(id: bytes) {
    0 < |id| <= 128 && forall i :: 0 <= i < |id| ==> IdByte(id[i])
  }

  predicate CanonicalHost(h: Host) {
    match h
    case Address(_, spelling) => spelling == 0
    case Name(_, canonical) => canonical
  }

  /** `RelayDescriptor::verify_identity`. */
  predicate VerifyIdentity(r: Relay) {
    && CanonicalHost(r.host) && ValidNodeId(r.nodeId) && r.port != 0
    && r.pin != ZeroPin
    && Verifies(r.pin, SignedDescriptor(Unsigned(r)), r.proof)
  }

  /** A letter, a digit, a hyphen, an underscore or a full stop. */
  ghost predicate IdCharacter(c: char) {
    '0' <= c <= '9' || 'A' <= c <= 'Z' || 'a' <= c <= 'z' || c == '-' || c == '_' || c == '.'
  }

  /** A descriptor of a named relay at a canonical address, signed with its own key, verifies. */
  lemma OwnDescriptorVerifies(r: Relay)
    requires 1 <= |r.nodeId| <= 128 && forall i :: 0 <= i < |r.nodeId| ==> IdCharacter(r.nodeId[i] as char)
    requires CanonicalHost(r.host) && r.port != 0 && r.pin.Pin?
    requires r.proof == Sign(r.pin, SignedDescriptor(Unsigned(r)))
    ensures VerifyIdentity(r)
  {
  }

  /** What verification guarantees: the proof fixes every field of the descriptor, and the pin is
      that of the key that made it. */
  lemma VerifiedIsAuthentic(r: Relay, other: Relay)
    requires VerifyIdentity(r) && VerifyIdentity(other) && r.proof == other.proof
    ensures r == other && r.pin == Pin(r.proof.classical, r.proof.pq) && r.port != 0
    ensures 1 <= |r.nodeId| <= 128 && forall i :: 0 <= i < |r.nodeId| ==> IdCharacter(r.nodeId[i] as char)
    ensures r.host.Address? ==> r.host.spelling == 0
  {
  }
}
