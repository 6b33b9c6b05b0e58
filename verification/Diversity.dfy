/** Circuit diversity (src/mesh/sybil.rs, `validate_circuit_diversity`). */
module Diversity {
  import opened Prelude
  import opened Address

  datatype SybilError =
    | SubnetCollision(prefix: Prefix)
    | DuplicateNode(host: Host)
    | UnresolvableHost(host: Host)

  function HostPrefix(h: Host): Option<Prefix> {
    if h.Address? then Some(PrefixOf(h.ip)) else None
  }

  /** Every host is an address, and no two share a prefix. */
  predicate Diverse(hosts: seq<Host>) {
    && (forall i :: 0 <= i < |hosts| ==> HostPrefix(hosts[i]).Some?)
    && (forall i, j :: 0 <= i < j < |hosts| ==> HostPrefix(hosts[i]) != HostPrefix(hosts[j]))
  }

  /** What is reported about the first host that breaks diversity. */
  function ErrorAt(hosts: seq<Host>, k: nat): SybilError
    requires k < |hosts|
  {
    if hosts[k] in hosts[..k] then DuplicateNode(hosts[k])
    else if hosts[k].Name? then UnresolvableHost(hosts[k])
    else SubnetCollision(PrefixOf(hosts[k].ip))
  }

  /** Position `k` is the first at which diversity breaks. */
  ghost predicate BreaksAt(hosts: seq<Host>, k: nat) {
    k < |hosts| && Diverse(hosts[..k]) && !Diverse(hosts[..k + 1])
  }

  ghost predicate TakenBefore(hosts: seq<Host>, k: nat, p: Prefix)
    requires k <= |hosts|
  {
    exists i :: 0 <= i < k && HostPrefix(hosts[i]) == Some(p)
  }

  /** One more host keeps a prefix of the list diverse exactly when it is an address whose
      prefix is not taken. */
  lemma DiverseNext(hosts: seq<Host>, k: nat)
    requires k < |hosts| && Diverse(hosts[..k])
    ensures Diverse(hosts[..k + 1]) <==>
      hosts[k].Address? && !TakenBefore(hosts, k, PrefixOf(hosts[k].ip))
  {
  }

  lemma NotDiverse(hosts: seq<Host>, k: nat)
    requires k <= |hosts| && !Diverse(hosts[..k])
    ensures !Diverse(hosts)
  {
  }

  /** What a refusal says of the host at `k`: it occurs before, or is no address, or is an address
      of a class that is taken. */
  ghost predicate Explains(hosts: seq<Host>, k: nat, error: SybilError)
    requires k < |hosts|
  {
    match error
    case DuplicateNode(h) => h == hosts[k] && exists i :: 0 <= i < k && hosts[i] == h
    case UnresolvableHost(h) => h == hosts[k] && !h.Address? && forall i :: 0 <= i < k ==> hosts[i] != h
    case SubnetCollision(p) =>
      && hosts[k].Address? && PrefixOf(hosts[k].ip) == p && (forall i :: 0 <= i < k ==> hosts[i] != hosts[k])
      && exists i :: 0 <= i < k && hosts[i].Address? && PrefixOf(hosts[i].ip) == p
  }

  lemma ErrorExplains(hosts: seq<Host>, k: nat)
    requires BreaksAt(hosts, k)
    ensures Explains(hosts, k, ErrorAt(hosts, k))
  {
    DiverseNext(hosts, k);
    if hosts[k] in hosts[..k] {
      var i :| 0 <= i < k && hosts[..k][i] == hosts[k];
      assert hosts[i] == hosts[k];
    } else {
      forall i | 0 <= i < k ensures hosts[i] != hosts[k] { assert hosts[..k][i] == hosts[i]; }
    }
  }

  /** Accepts exactly the diverse circuits; a refusal names the first host that breaks
      diversity and why. */
  method ValidateCircuitDiversity(hosts: seq<Host>) returns (result: Result<(), SybilError>)
    ensures result.Ok? <==> Diverse(hosts)
    ensures result.Err? ==> exists k :: BreaksAt(hosts, k) && result.error == ErrorAt(hosts, k) && Explains(hosts, k, result.error)
  {
    var seenV4: seq<Prefix> := [];
    var seenV6: seq<Prefix> := [];
    var seenHosts: seq<Host> := [];
    for k := 0 to |hosts|
      invariant seenHosts == hosts[..k] && Diverse(hosts[..k])
      invariant forall p: Prefix :: p.V4Prefix? ==> (p in seenV4 <==> TakenBefore(hosts, k, p))
      invariant forall p: Prefix :: p.V6Prefix? ==> (p in seenV6 <==> TakenBefore(hosts, k, p))
    {
      var host := hosts[k];
      DiverseNext(hosts, k);
      if host in seenHosts {
        assert host.Address? ==> TakenBefore(hosts, k, PrefixOf(host.ip));
        NotDiverse(hosts, k + 1);
        ErrorExplains(hosts, k);
        return Err(DuplicateNode(host));
      }
      seenHosts := seenHosts + [host];
      match host {
        case Name(_, _) =>
          NotDiverse(hosts, k + 1);
          ErrorExplains(hosts, k);
          return Err(UnresolvableHost(host));
        case Address(ip, _) =>
          var prefix := PrefixOf(ip);
          if prefix in (if prefix.V4Prefix? then seenV4 else seenV6) {
            NotDiverse(hosts, k + 1);
            ErrorExplains(hosts, k);
            return Err(SubnetCollision(prefix));
          }
          TakenNext(hosts, k);
          if prefix.V4Prefix? {
            seenV4 := seenV4 + [prefix];
          } else {
            seenV6 := seenV6 + [prefix];
          }
      }
    }
    assert hosts[..|hosts|] == hosts;
    return Ok(());
  }

  lemma TakenNext(hosts: seq<Host>, k: nat)
    requires k < |hosts| && hosts[k].Address?
    ensures forall p :: TakenBefore(hosts, k + 1, p) <==> TakenBefore(hosts, k, p) || p == PrefixOf(hosts[k].ip)
  {
    assert HostPrefix(hosts[k]) == Some(PrefixOf(hosts[k].ip));
    forall p | TakenBefore(hosts, k, p) ensures TakenBefore(hosts, k + 1, p) {
      var i :| 0 <= i < k && HostPrefix(hosts[i]) == Some(p);
    }
  }

  /** Diversity does not depend on where a host stands: inserting one before the last. */
  lemma DiverseInsert(front: seq<Host>, m: Host, back: seq<Host>)
    ensures Diverse(front + [m] + back) <==>
      && Diverse(front + back) && HostPrefix(m).Some?
      && forall i :: 0 <= i < |front + back| ==> HostPrefix((front + back)[i]) != HostPrefix(m)
  {
    var all, rest, n := front + [m] + back, front + back, |front|;
    assert all[n] == m;
    assert forall i :: 0 <= i < n ==> all[i] == rest[i] == front[i];
    assert forall i :: n <= i < |rest| ==> all[i + 1] == rest[i];
    assert forall i :: n < i < |all| ==> all[i] == rest[i - 1];
    if Diverse(all) {
      forall i, j | 0 <= i < j < |rest| ensures HostPrefix(rest[i]) != HostPrefix(rest[j]) {
        assert HostPrefix(all[if i < n then i else i + 1]) != HostPrefix(all[if j < n then j else j + 1]);
      }
      forall i | 0 <= i < |rest| ensures HostPrefix(rest[i]).Some? && HostPrefix(rest[i]) != HostPrefix(m) {
        assert HostPrefix(all[if i < n then i else i + 1]).Some?;
      }
    }
  }
}
