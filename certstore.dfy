/**
 * `cert_store`: the certificates the user has chosen to trust and the
 * hosts they have accepted as insecure (no TLS), each kept for the
 * session or permanently. A host cannot be both trusted and insecure in
 * the same tier.
 */
module CertStore {
  import opened Common

  /** A trusted certificate: for `host:port`, the raw DER bytes, and whether it covers all its names. */
  datatype CertData = CertData(host: seq<char>, trustSans: bool, port: nat, data: seq<byte>)

  datatype HostPort = HostPort(host: seq<char>, port: nat)

  /**
   * What the store reads of a TLS session: the peer, its first
   * certificate's bytes, whether it has algorithm warnings, whether its
   * name mismatched, and whether the host is a DNS name rather than an
   * address (`fz::get_address_type(host) == unknown`).
   */
  datatype SessionInfo = SessionInfo(host: seq<char>, port: nat, data: seq<byte>, algorithmWarnings: bool,
                                     mismatchedHostname: bool, dnsName: bool)

  /** The certificate vouches for these bytes at this host and port. */
  predicate Vouches(cert: CertData, host: seq<char>, port: nat, data: seq<byte>, dnsName: bool, allowSans: bool)
  {
    cert.port == port && cert.data == data && (cert.host == host || (dnsName && allowSans && cert.trustSans))
  }

  predicate TrustedIn(certs: seq<CertData>, host: seq<char>, port: nat, data: seq<byte>, dnsName: bool, allowSans: bool)
  {
    data != [] && exists i :: 0 <= i < |certs| && Vouches(certs[i], host, port, data, dnsName, allowSans)
  }

  predicate For(cert: CertData, host: seq<char>, port: nat)
  {
    cert.host == host && cert.port == port
  }

  /** The certificates not for `host:port`, in their order (`remove_if` then `erase`). */
  function Without(certs: seq<CertData>, host: seq<char>, port: nat): (r: seq<CertData>)
    ensures forall c :: c in r <==> c in certs && !For(c, host, port)
    ensures |r| <= |certs|
    ensures (forall i :: 0 <= i < |certs| ==> !For(certs[i], host, port)) ==> r == certs
  {
    if certs == [] then []
    else if For(certs[0], host, port) then Without(certs[1..], host, port)
    else [certs[0]] + Without(certs[1..], host, port)
  }

  /** No trusted certificate is for a host marked insecure in the same tier. */
  predicate Exclusive(certs: seq<CertData>, hosts: set<HostPort>)
  {
    forall i :: 0 <= i < |certs| ==> HostPort(certs[i].host, certs[i].port) !in hosts
  }

  class Store {
    var trusted: seq<CertData>          // trustedCerts_
    var sessionTrusted: seq<CertData>   // sessionTrustedCerts_
    var insecure: set<HostPort>         // insecureHosts_
    var sessionInsecure: set<HostPort>  // sessionInsecureHosts_

    predicate Valid()
      reads this
    {
      Exclusive(trusted, insecure) && Exclusive(sessionTrusted, sessionInsecure)
    }

    constructor ()
      ensures Valid() && trusted == [] && sessionTrusted == [] && insecure == {} && sessionInsecure == {}
    {
      trusted, sessionTrusted := [], [];
      insecure, sessionInsecure := {}, {};
    }

    /**
     * `DoIsTrusted`: search `certs` for one with the same port and bytes
     * whose host matches, or that covers all names when the host is a DNS
     * name and names may be matched. Empty data is never trusted.
     */
    static method DoIsTrusted(host: seq<char>, port: nat, data: seq<byte>, certs: seq<CertData>, dnsName: bool,
                              allowSans: bool) returns (r: bool)
      ensures r <==> TrustedIn(certs, host, port, data, dnsName, allowSans)
    {
      if |data| == 0 {
        return false;
      }
      for i := 0 to |certs|
        invariant forall j :: 0 <= j < i ==> !Vouches(certs[j], host, port, data, dnsName, allowSans)
      {
        if port != certs[i].port {
          continue;
        }
        if certs[i].data != data {
          continue;
        }
        if host != certs[i].host {
          if !dnsName || !allowSans || !certs[i].trustSans {
            continue;
          }
        }
        return true;
      }
      return false;
    }

    /** `IsTrusted` for a host, port and certificate: the permanent list, then (unless `permanentOnly`) the session list. */
    method IsTrusted(host: seq<char>, port: nat, data: seq<byte>, permanentOnly: bool, dnsName: bool, allowSans: bool)
      returns (r: bool)
      ensures r <==> TrustedIn(trusted, host, port, data, dnsName, allowSans) ||
                     (!permanentOnly && TrustedIn(sessionTrusted, host, port, data, dnsName, allowSans))
    {
      r := DoIsTrusted(host, port, data, trusted, dnsName, allowSans);
      if !r && !permanentOnly {
        r := DoIsTrusted(host, port, data, sessionTrusted, dnsName, allowSans);
      }
    }

    /**
     * `IsTrusted` for a TLS session: never with algorithm warnings;
     * otherwise in either tier, matching other names only when the
     * session's name did not mismatch.
     */
    method IsTrustedSession(info: SessionInfo) returns (r: bool)
      ensures info.algorithmWarnings ==> !r
      ensures !info.algorithmWarnings ==>
        (r <==> TrustedIn(trusted, info.host, info.port, info.data, info.dnsName, !info.mismatchedHostname) ||
                TrustedIn(sessionTrusted, info.host, info.port, info.data, info.dnsName, !info.mismatchedHostname))
    {
      if info.algorithmWarnings {
        return false;
      }
      r := IsTrusted(info.host, info.port, info.data, false, info.dnsName, !info.mismatchedHostname);
    }

    /** `IsInsecure`: marked insecure permanently, or (unless `permanentOnly`) for the session. */
    method IsInsecure(host: seq<char>, port: nat, permanentOnly: bool) returns (r: bool)
      ensures r <==> HostPort(host, port) in insecure || (!permanentOnly && HostPort(host, port) in sessionInsecure)
    {
      var t := HostPort(host, port);
      if !permanentOnly && t in sessionInsecure {
        return true;
      }
      return t in insecure;
    }

    /** `HasCertificate`: some certificate of either tier is for `host:port`. */
    method HasCertificate(host: seq<char>, port: nat) returns (r: bool)
      ensures r <==> (exists i :: 0 <= i < |sessionTrusted| && For(sessionTrusted[i], host, port)) ||
                     (exists i :: 0 <= i < |trusted| && For(trusted[i], host, port))
    {
      for i := 0 to |sessionTrusted|
        invariant forall j :: 0 <= j < i ==> !For(sessionTrusted[j], host, port)
      {
        if sessionTrusted[i].host == host && sessionTrusted[i].port == port {
          return true;
        }
      }
      for i := 0 to |trusted|
        invariant forall j :: 0 <= j < i ==> !For(trusted[j], host, port)
      {
        if trusted[i].host == host && trusted[i].port == port {
          return true;
        }
      }
      return false;
    }

    /**
     * `SetInsecure`: drop the session's certificates for `host:port`; then
     * mark it insecure for the session, or permanently, dropping its
     * permanent certificates, unless it already is.
     */
    method SetInsecure(host: seq<char>, port: nat, permanent: bool)
      requires Valid()
      modifies this
      ensures Valid()
      ensures sessionTrusted == Without(old(sessionTrusted), host, port)
      ensures !permanent ==> sessionInsecure == old(sessionInsecure) + {HostPort(host, port)} &&
                             trusted == old(trusted) && insecure == old(insecure)
      ensures permanent ==> sessionInsecure == old(sessionInsecure) && HostPort(host, port) in insecure
      ensures permanent && HostPort(host, port) in old(insecure) ==> trusted == old(trusted) && insecure == old(insecure)
      ensures permanent && HostPort(host, port) !in old(insecure) ==>
        trusted == Without(old(trusted), host, port) && insecure == old(insecure) + {HostPort(host, port)}
    {
      MarkInsecureKeepsExclusive(sessionTrusted, sessionInsecure, host, port);
      sessionTrusted := Without(sessionTrusted, host, port);
      if !permanent {
        sessionInsecure := sessionInsecure + {HostPort(host, port)};
        return;
      }
      var isNew := DoSetInsecure(host, port);
      if !isNew {
        return;
      }
      MarkInsecureKeepsExclusive(trusted, insecure, host, port);
      trusted := Without(trusted, host, port);
      insecure := insecure + {HostPort(host, port)};
    }

    /** `DoSetInsecure`: the host is not yet permanently insecure. */
    method DoSetInsecure(host: seq<char>, port: nat) returns (r: bool)
      ensures r <==> HostPort(host, port) !in insecure
    {
      var already := IsInsecure(host, port, true);
      r := !already;
    }

    /**
     * `SetTrusted`: no longer insecure for the session; trust the
     * session's certificate for the session, or permanently unless the
     * same certificate already is (then the permanent insecure mark goes).
     */
    method SetTrusted(info: SessionInfo, permanent: bool, trustAllHostnames: bool)
      requires Valid()
      modifies this
      ensures Valid()
      ensures sessionInsecure == old(sessionInsecure) - {HostPort(info.host, info.port)}
      ensures !permanent ==>
        sessionTrusted == old(sessionTrusted) + [CertData(info.host, trustAllHostnames, info.port, info.data)] &&
        trusted == old(trusted) && insecure == old(insecure)
      ensures permanent ==> sessionTrusted == old(sessionTrusted)
      ensures permanent && TrustedIn(old(trusted), info.host, info.port, info.data, info.dnsName, false) ==>
        trusted == old(trusted) && insecure == old(insecure)
      ensures permanent && !TrustedIn(old(trusted), info.host, info.port, info.data, info.dnsName, false) ==>
        trusted == old(trusted) + [CertData(info.host, trustAllHostnames, info.port, info.data)] &&
        insecure == old(insecure) - {HostPort(info.host, info.port)}
    {
      var cert := CertData(info.host, trustAllHostnames, info.port, info.data);
      sessionInsecure := sessionInsecure - {HostPort(cert.host, cert.port)};
      if !permanent {
        sessionTrusted := sessionTrusted + [cert];
        return;
      }
      var isNew := DoSetTrusted(cert, info.dnsName);
      if !isNew {
        TrustedHostNotInsecure(trusted, insecure, info.host, info.port, info.data, info.dnsName);
        return;
      }
      insecure := insecure - {HostPort(cert.host, cert.port)};
      trusted := trusted + [cert];
    }

    /** `DoSetTrusted`: the certificate is not yet permanently trusted for exactly its host. */
    method DoSetTrusted(cert: CertData, dnsName: bool) returns (r: bool)
      ensures r <==> !TrustedIn(trusted, cert.host, cert.port, cert.data, dnsName, false)
    {
      var already := IsTrusted(cert.host, cert.port, cert.data, true, dnsName, false);
      r := !already;
    }
  }

  /**
   * In a tier that keeps the two apart, a host with a trusted certificate
   * (matched on its own name) is not marked insecure.
   */
  lemma TrustedHostNotInsecure(certs: seq<CertData>, hosts: set<HostPort>, host: seq<char>, port: nat, data: seq<byte>,
                               dnsName: bool)
    requires Exclusive(certs, hosts) && TrustedIn(certs, host, port, data, dnsName, false)
    ensures HostPort(host, port) !in hosts
  {
    var i :| 0 <= i < |certs| && Vouches(certs[i], host, port, data, dnsName, false);
    assert HostPort(certs[i].host, certs[i].port) == HostPort(host, port);
  }

  /**
   * Dropping a host's certificates and marking it insecure keeps a tier's
   * trusted certificates and insecure hosts apart.
   */
  lemma MarkInsecureKeepsExclusive(certs: seq<CertData>, hosts: set<HostPort>, host: seq<char>, port: nat)
    requires Exclusive(certs, hosts)
    ensures Exclusive(Without(certs, host, port), hosts + {HostPort(host, port)})
  {
    var r := Without(certs, host, port);
    forall i | 0 <= i < |r|
      ensures HostPort(r[i].host, r[i].port) !in hosts + {HostPort(host, port)}
    {
      assert r[i] in r;
      var j :| 0 <= j < |certs| && certs[j] == r[i];
    }
  }
}
