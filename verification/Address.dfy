/** Hosts and the address prefix that circuit diversity compares (src/mesh/sybil.rs). */
module Address {
  import opened Prelude

  type Octets16 = s: bytes | |s| == 16 witness seq(16, _ => 0)

  datatype Ip = V4(a: byte, b: byte, c: byte, d: byte) | V6(octets: Octets16)

  /** A host text either parses as an address, under one of its spellings (0 is the
      canonical one), or is some other name. */
  datatype Host = Address(ip: Ip, spelling: nat) | Name(text: string, canonical: bool)

  datatype Prefix = V4Prefix(a: byte, b: byte) | V6Prefix(a: byte, b: byte, c: byte, d: byte)

  const ZERO10: bytes := [0, 0, 0, 0, 0, 0, 0, 0, 0, 0]
  const NAT64: bytes := [0x00, 0x64, 0xff, 0x9b, 0, 0, 0, 0, 0, 0, 0, 0]

  /** The IPv4 /16 an address belongs to or embeds, else its IPv6 /32. */
  function PrefixOf(ip: Ip): Prefix {
    match ip
    case V4(a, b, _, _) => V4Prefix(a, b)
    case V6(o) =>
      if o[..10] == ZERO10 && o[10] == 0xff && o[11] == 0xff then V4Prefix(o[12], o[13])      // mapped
      else if o[..10] == ZERO10 && o[10] == 0 && o[11] == 0 then V4Prefix(o[12], o[13])       // compatible
      else if o[0] == 0x20 && o[1] == 0x02 then V4Prefix(o[2], o[3])                          // 6to4
      else if o[0] == 0x20 && o[1] == 0x01 && o[2] == 0 && o[3] == 0 then
        V4Prefix(255 - o[12], 255 - o[13])                                                    // Teredo
      else if o[..12] == NAT64 then V4Prefix(o[12], o[13])
      else V6Prefix(o[0], o[1], o[2], o[3])
  }

  /** The IPv6 address carries this IPv4 address: mapped, compatible, 6to4, Teredo or NAT64. */
  ghost predicate Embeds(o: Octets16, a: byte, b: byte, c: byte, d: byte) {
    || o == [0, 0, 0, 0, 0, 0, 0, 0, 0, 0, 0xff, 0xff, a, b, c, d]
    || o == [0, 0, 0, 0, 0, 0, 0, 0, 0, 0, 0, 0, a, b, c, d]
    || o[..6] == [0x20, 0x02, a, b, c, d]
    || (o[..4] == [0x20, 0x01, 0, 0] && o[12..] == [255 - a, 255 - b, 255 - c, 255 - d])
    || o == [0x00, 0x64, 0xff, 0x9b, 0, 0, 0, 0, 0, 0, 0, 0, a, b, c, d]
  }

  ghost predicate Native(o: Octets16) {
    forall a, b, c, d :: !Embeds(o, a, b, c, d)
  }

  /** IPv4 addresses share a class exactly when their first two octets agree. */
  lemma V4Class(x: Ip, y: Ip)
    requires x.V4? && y.V4?
    ensures PrefixOf(x) == PrefixOf(y) <==> x.a == y.a && x.b == y.b
  {
  }

  /** An IPv6 address that carries an IPv4 address is in that address's class. */
  lemma EmbeddedClass(o: Octets16, a: byte, b: byte, c: byte, d: byte)
    requires Embeds(o, a, b, c, d)
    ensures PrefixOf(V6(o)) == PrefixOf(V4(a, b, c, d))
  {
    EmbeddedOctets(o, a, b, c, d);
  }

  lemma EmbeddedOctets(o: Octets16, a: byte, b: byte, c: byte, d: byte)
    requires Embeds(o, a, b, c, d)
    ensures
      || (o[..10] == ZERO10 && ((o[10] == 0xff && o[11] == 0xff) || (o[10] == 0 && o[11] == 0)) && o[12] == a && o[13] == b)
      || (o[0] == 0x20 && o[1] == 0x02 && o[2] == a && o[3] == b)
      || (o[0] == 0x20 && o[1] == 0x01 && o[2] == 0 && o[3] == 0 && o[12] == 255 - a && o[13] == 255 - b)
      || (o[..12] == NAT64 && o[12] == a && o[13] == b)
  {
    if o[..6] == [0x20, 0x02, a, b, c, d] {
      assert o[..6][0] == o[0] && o[..6][1] == o[1] && o[..6][2] == o[2] && o[..6][3] == o[3];
    } else if o[..4] == [0x20, 0x01, 0, 0] {
      assert o[..4][0] == o[0] && o[..4][1] == o[1] && o[..4][2] == o[2] && o[..4][3] == o[3];
      assert o[12..][0] == o[12] && o[12..][1] == o[13];
    }
  }

  /** Any other IPv6 address is in the class of its first four octets, never in an IPv4 one. */
  lemma NativeClass(o: Octets16, y: Ip)
    requires Native(o)
    ensures PrefixOf(V6(o)) == PrefixOf(y) <==> y.V6? && Native(y.octets) && o[..4] == y.octets[..4]
  {
    NativePrefix(o);
    if y.V6? {
      if Native(y.octets) {
        NativePrefix(y.octets);
        assert o[..4] == [o[0], o[1], o[2], o[3]] && y.octets[..4] == [y.octets[0], y.octets[1], y.octets[2], y.octets[3]];
      } else {
        var a, b, c, d :| Embeds(y.octets, a, b, c, d);
        EmbeddedClass(y.octets, a, b, c, d);
      }
    }
  }

  lemma NativePrefix(o: Octets16)
    requires Native(o)
    ensures PrefixOf(V6(o)) == V6Prefix(o[0], o[1], o[2], o[3])
  {
    V4ClassEmbeds(o);
  }

  lemma V4ClassEmbeds(o: Octets16)
    ensures PrefixOf(V6(o)).V4Prefix? ==> exists a, b, c, d :: Embeds(o, a, b, c, d)
  {
    var tail := [o[12], o[13], o[14], o[15]];
    assert o == o[..10] + [o[10], o[11]] + tail && o == o[..12] + tail;
    if PrefixOf(V6(o)).V4Prefix? {
      if o[..10] == ZERO10 && ((o[10] == 0xff && o[11] == 0xff) || (o[10] == 0 && o[11] == 0)) {
        assert Embeds(o, o[12], o[13], o[14], o[15]);
      } else if o[0] == 0x20 && o[1] == 0x02 {
        assert o[..6] == [0x20, 0x02, o[2], o[3], o[4], o[5]];
        assert Embeds(o, o[2], o[3], o[4], o[5]);
      } else if o[0] == 0x20 && o[1] == 0x01 {
        assert o[..4] == [0x20, 0x01, 0, 0] && o[12..] == tail;
        assert Embeds(o, 255 - o[12], 255 - o[13], 255 - o[14], 255 - o[15]);
      } else {
        assert Embeds(o, o[12], o[13], o[14], o[15]);
      }
    }
  }
}
