/** Which installed certificate serves a hostname. */
module CertificateMatch {
  import opened Text

  /** The hostname from its first dot on, if it has a dot. */
  function FromDot(hostname: string): string {
    hostname[Find(hostname, {'.'})..]
  }

  /** The reference answer: one keyed lookup for the name and one for its wildcard. */
  function Lookup(domains: set<string>, hostname: string): string {
    if hostname in domains then hostname
    else if FromDot(hostname) != "" && "*" + FromDot(hostname) in domains then "*" + FromDot(hostname)
    else ""
  }

  /** The test made on each installed domain. */
  predicate Covers(domain: string, hostname: string) {
    if |domain| >= 2 && domain[..2] == "*." then
      var suffix := domain[1..];
      if |hostname| >= |suffix| && hostname[|hostname| - |suffix|..] == suffix then
        var dot := Find(hostname, {'.'});
        dot != |hostname| && hostname[dot..] == suffix
      else false
    else false
  }

  class TLSManager<Certificate> {
    var certificates: map<string, Certificate>

    constructor (installed: map<string, Certificate>)
      ensures certificates == installed
    {
      certificates := installed;
    }

    /** The table is searched in an order that is not determined. */
    method MatchCertificate(hostname: string) returns (domain: string)
      ensures domain == Lookup(certificates.Keys, hostname)
    {
      hide Covers;
      if hostname in certificates {
        return hostname;
      }
      var left := certificates.Keys;
      while left != {}
        invariant left <= certificates.Keys
        invariant forall d :: d in certificates && d !in left ==> !Covers(d, hostname)
        decreases |left|
      {
        var d :| d in left;
        if Covers(d, hostname) {
          CoversOnlyOne(d, hostname);
          return d;
        }
        left := left - {d};
      }
      NoneCovers(certificates.Keys, hostname);
      return "";
    }

    /** Agrees with the search unless the name is empty and a certificate is installed for it. */
    method HasCertificateForDomain(domain: string) returns (has: bool)
      ensures has <==> domain in certificates || Lookup(certificates.Keys, domain) != ""
      ensures has != (Lookup(certificates.Keys, domain) != "") <==> domain == "" && "" in certificates
    {
      if domain in certificates {
        return true;
      }
      var matched := MatchCertificate(domain);
      return matched != "";
    }
  }

  /** Only one domain can pass the test, whatever is installed. */
  lemma CoversOnlyOne(domain: string, hostname: string)
    ensures Covers(domain, hostname) <==> FromDot(hostname) != "" && domain == "*" + FromDot(hostname)
  {
    var dot := Find(hostname, {'.'});
    var rest := hostname[dot..];
    if dot < |hostname| {
      var d := "*" + rest;
      assert d[1..] == rest && d[..2] == "*" + rest[..1] && rest[..1] == ".";
      assert hostname[|hostname| - |rest|..] == rest;
    }
    if Covers(domain, hostname) {
      assert domain == domain[..1] + domain[1..] && domain[..2][..1] == domain[..1];
    }
  }

  lemma NoneCovers(domains: set<string>, hostname: string)
    requires hostname !in domains && forall d :: d in domains ==> !Covers(d, hostname)
    ensures Lookup(domains, hostname) == ""
  {
    hide Covers;
    CoversOnlyOne("*" + FromDot(hostname), hostname);
  }

  /** A certificate for the very name wins; otherwise the one for its wildcard, if it is installed, and
      otherwise none. */
  lemma ExactNameWins(domains: set<string>, hostname: string)
    ensures var d := Lookup(domains, hostname);
            && (hostname in domains ==> d == hostname)
            && (hostname !in domains && (exists w :: w in domains && Covers(w, hostname)) ==>
                  d in domains && Covers(d, hostname))
            && (hostname !in domains && !(exists w :: w in domains && Covers(w, hostname)) ==> d == "")
  {
    hide Covers;
    forall w ensures Covers(w, hostname) <==> FromDot(hostname) != "" && w == "*" + FromDot(hostname) {
      CoversOnlyOne(w, hostname);
    }
  }

  lemma FromDotOf(part: string, rest: string)
    requires Avoids(part, {'.'})
    ensures FromDot(part + "." + rest) == "." + rest
  {
    assert part + "." + rest == part + ("." + rest);
    FindAt(part, "." + rest, {'.'});
  }

  lemma BeforeDot(hostname: string, rest: string) returns (part: string)
    requires FromDot(hostname) == "." + rest
    ensures Avoids(part, {'.'}) && hostname == part + "." + rest
  {
    hide Find;
    var dot := Find(hostname, {'.'});
    part := hostname[..dot];
    assert hostname == part + FromDot(hostname);
  }

  /** A wildcard domain covers exactly the names with one label, possibly empty, in place of the star. */
  lemma WildcardCoversOneLabel(rest: string, hostname: string)
    ensures Covers("*." + rest, hostname) <==>
              exists part :: Avoids(part, {'.'}) && hostname == part + "." + rest
  {
    hide Covers, FromDot, Avoids;
    CoversOnlyOne("*." + rest, hostname);
    assert ("*." + rest)[1..] == "." + rest && ("*" + FromDot(hostname))[1..] == FromDot(hostname);
    assert "*." + rest == "*" + ("." + rest);
    if Covers("*." + rest, hostname) {
      var part := BeforeDot(hostname, rest);
    }
    if part :| Avoids(part, {'.'}) && hostname == part + "." + rest {
      FromDotOf(part, rest);
    }
  }
}
