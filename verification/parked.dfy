// Parked-domain detection: a fixed set of parking name servers and a fixed
// list of IPv4 blocks that parking services answer from.

module Parked {
  import opened Wrappers
  import opened Text

  // ---------------------------------------------------------------------
  // Name servers
  // ---------------------------------------------------------------------

  /** The name servers (or their registrable domains) of parking services. */
  const ParkedNS: set<string> := {
      "above.com", "afternic.com", "alter.com",
      "bodis.com", "bookmyname.com", "brainydns.com",
      "brandbucket.com", "chookdns.com", "cnomy.com",
      "commonmx.com", "dan.com", "day.biz",
      "dingodns.com", "directnic.com", "dne.com",
      "dnslink.com", "dnsnuts.com", "dnsowl.com",
      "dnsspark.com", "domain-for-sale.at", "domain-for-sale.se",
      "domaincntrol.com", "domainhasexpired.com", "domainist.com",
      "domainmarket.com", "domainmx.com", "domainorderdns.nl",
      "domainparking.ru", "domainprofi.de", "domainrecover.com",
      "dsredirection.com", "dsredirects.com", "eftydns.com",
      "emailverification.info", "emu-dns.com", "expiereddnsmanager.com",
      "expirationwarning.net", "expired.uniregistry-dns.com", "fabulous.com",
      "failed-whois-verification.namecheap.com", "fastpark.net", "freenom.com",
      "gname.net", "hastydns.com", "hostresolver.com",
      "ibspark.com", "kirklanddc.com", "koaladns.com",
      "magpiedns.com", "malkm.com", "markmonitor.com",
      "mijndomein.nl", "milesmx.com", "mytrafficmanagement.com",
      "name.com", "namedynamics.net", "nameprovider.net",
      "ndsplitter.com", "ns01.cashparking.com", "ns02.cashparking.com",
      "ns1.domain-is-4-sale-at-domainmarket.com", "ns1.domain.io", "ns1.namefind.com",
      "ns1.park.do", "ns1.pql.net", "ns1.smartname.com",
      "ns1.sonexo.eu", "ns1.undeveloped.com", "ns2.domain.io",
      "ns2.domainmarket.com", "ns2.namefind.com", "ns2.park.do",
      "ns2.pql.net", "ns2.smartname.com", "ns2.sonexo.com",
      "ns2.undeveloped.com", "ns3.tppns.com", "ns4.tppns.com",
      "nsresolution.com", "one.com", "onlydomains.com",
      "panamans.com", "park1.encirca.net", "park2.encirca.net",
      "parkdns1.internetvikings.com", "parkdns2.internetvikings.com", "parking-page.net",
      "parking.namecheap.com", "parking1.ovh.net", "parking2.ovh.net",
      "parkingcrew.net", "parkingpage.namecheap.com", "parkingspa.com",
      "parklogic.com", "parktons.com", "perfectdomain.com",
      "quokkadns.com", "redirectdom.com", "redmonddc.com",
      "registrar-servers.com", "renewyourname.net", "rentondc.com",
      "rookdns.com", "rzone.de", "sav.com",
      "searchfusion.com", "searchreinvented.com", "securetrafficrouting.com",
      "sedo.com", "sedoparking.com", "smtmdns.com",
      "snparking.ru", "squadhelp.com", "sslparking.com",
      "tacomadc.com", "taipandns.com", "thednscloud.com",
      "torresdns.com", "trafficcontrolrouter.com", "trustednam.es",
      "uniregistrymarket.link", "verify-contact-details.namecheap.com", "voodoo.com",
      "weaponizedcow.com", "wombatdns.com", "wordpress.com",
      "www.undeveloped.com----type.in", "your-browser.this-domain.eu", "ztomy.com"
  }

  /** `publicsuffix.EffectiveTLDPlusOne`, which is not part of this model,
      is a parameter. The library rejects a name with an empty label, in
      particular one ending in a dot; `EtldSound` records that much. */
  type EtldPlusOne = string -> Result<string, string>

  ghost predicate EtldSound(etld: EtldPlusOne) {
    forall d :: d != [] && d[|d| - 1] == '.' ==> etld(d).Err?
  }

  /** `extractBaseDomain`: the registrable domain, or the input itself when
      the public-suffix lookup fails. */
  function ExtractBaseDomain(etld: EtldPlusOne, domain: string): (r: string)
    ensures etld(domain).Err? ==> r == domain
    ensures etld(domain).Ok? ==> r == etld(domain).value
  {
    match etld(domain)
    case Ok(base) => base
    case Err(_) => domain
  }

  /** The lookup `IsParkedDomainNS` performs, over a given set of names:
      one trailing dot is dropped, then the name or its registrable domain
      must be in the set. */
  function ParkedIn(names: set<string>, etld: EtldPlusOne, domain: string): bool {
    var d := TrimSuffix(domain, ".");
    ExtractBaseDomain(etld, d) in names || d in names
  }

  /** `IsParkedDomainNS`: the lookup over the parking name servers. */
  function IsParkedDomainNS(etld: EtldPlusOne, domain: string): bool {
    ParkedIn(ParkedNS, etld, domain)
  }

  /** A name without a trailing dot is looked up as it is. */
  lemma NoDotUntrimmed(domain: string)
    requires domain == [] || domain[|domain| - 1] != '.'
    ensures TrimSuffix(domain, ".") == domain
  {
    if domain != [] {
      assert domain[|domain| - 1..][0] == domain[|domain| - 1];
    }
  }

  /** A single trailing dot makes no difference. */
  lemma TrailingDotIgnored(names: set<string>, etld: EtldPlusOne, domain: string)
    requires domain == [] || domain[|domain| - 1] != '.'
    ensures ParkedIn(names, etld, domain + ".") == ParkedIn(names, etld, domain)
  {
    assert (domain + ".")[|domain|..] == ".";
    assert TrimSuffix(domain + ".", ".") == domain;
    NoDotUntrimmed(domain);
  }

  /** A listed name (listed without a trailing dot) is parked, with or
      without a trailing dot, whatever its registrable domain. */
  lemma ListedNameParked(names: set<string>, etld: EtldPlusOne, domain: string)
    requires domain == [] || domain[|domain| - 1] != '.'
    requires domain in names
    ensures ParkedIn(names, etld, domain)
    ensures ParkedIn(names, etld, domain + ".")
  {
    TrailingDotIgnored(names, etld, domain);
  }

  /** A name whose registrable domain is listed is parked. */
  lemma BaseDomainParked(names: set<string>, etld: EtldPlusOne, domain: string)
    requires domain == [] || domain[|domain| - 1] != '.'
    requires etld(domain).Ok? && etld(domain).value in names
    ensures ParkedIn(names, etld, domain)
    ensures ParkedIn(names, etld, domain + ".")
  {
    TrailingDotIgnored(names, etld, domain);
  }

  /** A name is parked only through the set: an unlisted name whose
      registrable domain is unlisted, or cannot be found, is not parked. */
  lemma UnlistedNotParked(names: set<string>, etld: EtldPlusOne, domain: string)
    requires domain == [] || domain[|domain| - 1] != '.'
    requires domain !in names
    requires etld(domain).Err? || etld(domain).value !in names
    ensures !ParkedIn(names, etld, domain)
    ensures !ParkedIn(names, etld, domain + ".")
  {
    TrailingDotIgnored(names, etld, domain);
  }

  /** Only one trailing dot is dropped: with two, the name that is looked
      up keeps a dot, on which the public-suffix lookup fails, so the name
      is parked only if the set lists it with its dot. */
  lemma DoubleDotKept(names: set<string>, etld: EtldPlusOne, domain: string)
    requires EtldSound(etld)
    ensures ParkedIn(names, etld, domain + "..") <==> domain + "." in names
  {
    assert (domain + "..")[|domain| + 1..] == ".";
    assert (domain + "..")[..|domain| + 1] == domain + ".";
    assert TrimSuffix(domain + "..", ".") == domain + ".";
    assert (domain + ".")[|domain|] == '.';
  }

  /** A host under a parking provider's domain is parked. */
  lemma SedoHostParked(etld: EtldPlusOne)
    requires etld("ns1.sedoparking.com") == Ok("sedoparking.com")
    ensures IsParkedDomainNS(etld, "ns1.sedoparking.com.")
  {
    assert "sedoparking.com" in ParkedNS;
    BaseDomainParked(ParkedNS, etld, "ns1.sedoparking.com");
    assert "ns1.sedoparking.com." == "ns1.sedoparking.com" + ".";
  }

  // ---------------------------------------------------------------------
  // Address blocks, per section 3.1 of RFC 4632
  // ---------------------------------------------------------------------

  datatype Family = V4 | V6

  function Width(f: Family): nat {
    if f.V4? then 32 else 128
  }

  function Pow2(n: nat): (r: nat)
    ensures r >= 1
  {
    if n == 0 then 1 else 2 * Pow2(n - 1)
  }

  /** An address as an unsigned number of its family's width. */
  datatype Address = Address(family: Family, value: nat)

  /** The number of addresses of a family, 2^32 or 2^128. */
  function Size(f: Family): nat {
    if f.V4? then 0x1_0000_0000 else 0x1_0000_0000_0000_0000_0000_0000_0000_0000
  }

  predicate ValidAddress(a: Address) {
    a.value < Size(a.family)
  }

  type IP = a: Address | ValidAddress(a) witness Address(V4, 0)

  /** A block: a base address and the number of leading bits that are fixed. */
  datatype Block = Block(base: IP, prefixLen: nat)

  predicate ValidBlock(b: Block) {
    b.prefixLen <= Width(b.base.family)
  }

  type Network = b: Block | ValidBlock(b) witness Block(Address(V4, 0), 0)

  /** The number of host bits, those the prefix leaves free. */
  function HostBits(n: Network): nat {
    Width(n.base.family) - n.prefixLen
  }

  /** An address is in a block when it has the block's family and the same
      leading `prefixLen` bits, i.e. the same quotient by 2^(host bits). */
  predicate InNetwork(n: Network, ip: IP) {
    ip.family == n.base.family
    && ip.value / Pow2(HostBits(n)) == n.base.value / Pow2(HostBits(n))
  }

  /** The lowest and highest addresses of a block. */
  function First(n: Network): int {
    (n.base.value / Pow2(HostBits(n))) * Pow2(HostBits(n))
  }

  function Last(n: Network): int {
    First(n) + Pow2(HostBits(n)) - 1
  }

  lemma {:induction false} DivWindow(v: nat, q: nat, k: int)
    requires q > 0
    ensures v / q == k <==> k * q <= v < k * q + q
  {
    var m := v / q;
    assert m * q <= v < m * q + q;
    if k * q <= v < k * q + q {
      assert (k - m) * q == k * q - m * q;
      ZeroFactor(k - m, q);
    }
  }

  lemma {:induction false} ZeroFactor(x: int, q: int)
    requires q > 0 && -q < x * q < q
    ensures x == 0
  {
    if x > 0 {
      MulLeft(1, x, q);
    } else if x < 0 {
      MulLeft(x, -1, q);
    }
  }

  lemma {:induction false} MulLeft(a: int, b: int, q: int)
    requires a <= b && q >= 0
    ensures a * q <= b * q
  {
    assert b * q - a * q == (b - a) * q;
  }

  /** Membership is the contiguous range [First, Last] of the family. */
  lemma InNetworkRange(n: Network, ip: IP)
    ensures InNetwork(n, ip) <==>
              ip.family == n.base.family && First(n) <= ip.value <= Last(n)
  {
    var q := Pow2(HostBits(n));
    var k := n.base.value / q;
    var v: nat := ip.value;
    var lo := k * q;
    assert First(n) == lo && Last(n) == lo + q - 1;
    assert InNetwork(n, ip) <==> ip.family == n.base.family && v / q == k;
    DivWindow(v, q, k);
    assert v / q == k <==> lo <= v <= lo + q - 1;
  }

  /** A full-length prefix holds exactly its own address. */
  lemma HostRoute(n: Network, ip: IP)
    requires n.prefixLen == Width(n.base.family)
    ensures InNetwork(n, ip) <==> ip == n.base
  {
  }

  /** A zero-length prefix holds every address of its family. */
  lemma DefaultRoute(n: Network, ip: IP)
    requires n.prefixLen == 0 && ip.family == n.base.family
    ensures InNetwork(n, ip)
  {
    PowWidth(ip.family);
  }

  lemma PowWidth(f: Family)
    ensures Pow2(Width(f)) == Size(f)
  {
    assert Pow2(8) == 256;
    Pow2Add(8, 8);
    assert Pow2(16) == 0x1_0000;
    Pow2Add(16, 16);
    assert Pow2(32) == 0x1_0000_0000;
    if f.V6? {
      Pow2Add(32, 32);
      assert Pow2(64) == 0x1_0000_0000_0000_0000;
      Pow2Add(64, 64);
    }
  }

  lemma {:induction false} Pow2Add(a: nat, b: nat)
    ensures Pow2(a + b) == Pow2(a) * Pow2(b)
    decreases a
  {
    if a > 0 {
      Pow2Add(a - 1, b);
    }
  }

  /** The address blocks of parking services, in the program's order. */
  const ParkedCIDRs: seq<string> := [
      "103.120.80.111/32", "103.139.0.32/32", "103.224.182.0/23", "103.224.212.0/23",
      "104.26.6.37/32", "104.26.7.37/32", "119.28.128.52/32", "121.254.178.252/32",
      "13.225.34.0/24", "13.227.219.0/24", "13.248.216.40/32", "135.148.9.101/32",
      "141.8.224.195/32", "158.247.7.206/32", "158.69.201.47/32", "159.89.244.183/32",
      "164.90.244.158/32", "172.67.70.191/32", "18.164.52.0/24", "185.134.245.113/32",
      "185.53.176.0/22", "188.93.95.11/32", "192.185.0.218/32", "192.64.147.0/24",
      "194.58.112.165/32", "194.58.112.174/32", "198.54.117.192/26", "199.191.50.0/24",
      "199.58.179.10/32", "199.59.240.0/22", "2.57.90.16/32", "204.11.56.0/23",
      "207.148.248.143/32", "207.148.248.145/32", "208.91.196.0/23", "208.91.196.46/32",
      "208.91.197.46/32", "208.91.197.91/32", "209.99.40.222/32", "209.99.64.0/24",
      "213.145.228.16/32", "213.171.195.105/32", "216.40.34.41/32", "217.160.141.142/32",
      "217.160.95.94/32", "217.26.48.101/32", "217.70.184.38/32", "217.70.184.50/32",
      "3.139.159.151/32", "3.234.55.179/32", "3.64.163.50/32", "31.186.11.254/32",
      "31.31.205.163/32", "34.102.136.180/32", "34.102.221.37/32", "34.98.99.30/32",
      "35.186.238.101/32", "35.227.197.36/32", "37.97.254.27/32", "43.128.56.249/32",
      "45.79.222.138/32", "45.88.202.115/32", "46.28.105.2/32", "46.30.211.38/32",
      "46.4.13.97/32", "46.8.8.100/32", "47.91.170.222/32", "5.9.161.60/32",
      "50.28.32.8/32", "52.128.23.153/32", "52.222.139.0/24", "52.222.149.0/24",
      "52.222.158.0/24", "52.222.174.0/24", "52.58.78.16/32", "52.60.87.163/32",
      "52.84.174.0/24", "62.149.128.40/32", "64.190.62.0/23", "64.70.19.203/32",
      "64.70.19.98/32", "66.81.199.0/24", "74.220.199.14/32", "74.220.199.15/32",
      "74.220.199.6/32", "74.220.199.8/32", "74.220.199.9/32", "75.2.115.196/32",
      "75.2.18.233/32", "75.2.26.18/32", "76.223.65.111/32", "78.47.145.38/32",
      "81.2.194.128/32", "88.198.29.97/32", "91.184.0.100/32", "91.195.240.0/23",
      "91.195.240.80/28", "93.191.168.52/32", "94.136.40.51/32", "95.217.58.108/32",
      "98.124.204.16/32", "99.83.154.118/32"
  ]

  /** `net.ParseIP` and `net.ParseCIDR`, which are not part of this model,
      are parameters; an unparsable text yields `None`. */
  type ParseIP = string -> Option<IP>
  type ParseCIDR = string -> Option<Network>

  /** `newParkedDomainChecker`: the blocks that parse, in list order; the
      others are skipped. */
  function Networks(parseCIDR: ParseCIDR, cidrs: seq<string>): (r: seq<Network>)
    ensures |r| <= |cidrs|
    ensures forall n :: n in r <==> exists i :: 0 <= i < |cidrs| && parseCIDR(cidrs[i]) == Some(n)
    decreases |cidrs|
  {
    if cidrs == [] then []
    else
      var rest := Networks(parseCIDR, cidrs[1..]);
      assert forall n :: n in rest <==> exists i :: 1 <= i < |cidrs| && parseCIDR(cidrs[i]) == Some(n) by {
        forall n
          ensures n in rest <==> exists i :: 1 <= i < |cidrs| && parseCIDR(cidrs[i]) == Some(n)
        {
          if exists i :: 1 <= i < |cidrs| && parseCIDR(cidrs[i]) == Some(n) {
            var i :| 1 <= i < |cidrs| && parseCIDR(cidrs[i]) == Some(n);
            assert cidrs[1..][i - 1] == cidrs[i];
          }
        }
      }
      match parseCIDR(cidrs[0])
      case Some(n) => [n] + rest
      case None => rest
  }

  /** A parse result that is a block holding the address. */
  predicate Covers(block: Option<Network>, ip: IP) {
    block.Some? && InNetwork(block.value, ip)
  }

  /** `IsParkedDomainIP`: false for an unparsable address, otherwise whether
      some listed block that parses holds it. */
  function IsParkedDomainIP(parseIP: ParseIP, parseCIDR: ParseCIDR, ipText: string): (r: bool)
    ensures parseIP(ipText).None? ==> !r
    ensures r <==> parseIP(ipText).Some?
                   && exists i :: 0 <= i < |ParkedCIDRs| && Covers(parseCIDR(ParkedCIDRs[i]), parseIP(ipText).value)
  {
    match parseIP(ipText)
    case None => false
    case Some(ip) =>
      var nets := Networks(parseCIDR, ParkedCIDRs);
      var found := exists k :: 0 <= k < |nets| && InNetwork(nets[k], ip);
      assert found <==> exists i :: 0 <= i < |ParkedCIDRs| && Covers(parseCIDR(ParkedCIDRs[i]), ip) by {
        if found {
          var k :| 0 <= k < |nets| && InNetwork(nets[k], ip);
          assert nets[k] in nets;
        }
        if exists i :: 0 <= i < |ParkedCIDRs| && Covers(parseCIDR(ParkedCIDRs[i]), ip) {
          var i :| 0 <= i < |ParkedCIDRs| && Covers(parseCIDR(ParkedCIDRs[i]), ip);
          var n := parseCIDR(ParkedCIDRs[i]).value;
          assert n in nets;
        }
      }
      found
  }

  /** The dotted-quad value a.b.c.d. */
  function Quad(a: nat, b: nat, c: nat, d: nat): nat {
    ((a * 256 + b) * 256 + c) * 256 + d
  }

  /** The last address of 103.224.182.0/23, the third listed block, is
      parked, given the parser's reading of the block and of the address. */
  lemma BlockEndParked(parseIP: ParseIP, parseCIDR: ParseCIDR)
    requires parseCIDR(ParkedCIDRs[2]) == Some(Block(Address(V4, Quad(103, 224, 182, 0)), 23))
    requires parseIP("103.224.183.255") == Some(Address(V4, Quad(103, 224, 183, 255)))
    ensures IsParkedDomainIP(parseIP, parseCIDR, "103.224.183.255")
  {
    var n: Network := Block(Address(V4, Quad(103, 224, 182, 0)), 23);
    var ip: IP := Address(V4, Quad(103, 224, 183, 255));
    assert Pow2(HostBits(n)) == 512 by {
      assert HostBits(n) == 9;
    }
    assert InNetwork(n, ip);
    assert Covers(parseCIDR(ParkedCIDRs[2]), ip);
  }
}
