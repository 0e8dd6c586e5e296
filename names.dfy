/**
 * Reverse name resolution for the live hosts. The `dns.reverse` call is the
 * oracle `lookup(k, ip)`: the reply to the k-th lookup of the fan-out, so two
 * lookups of one address may answer differently.
 */
module Names {
  import opened Seqs

  /** What one `dns.reverse` callback delivers: an error, or the names found. */
  datatype DnsReply = Failed | Resolved(hostnames: seq<string>)

  type NameMap = map<string, seq<string>>

  /**
   * The names the lookup promise settles with: on an error the first
   * `resolve([])` settles it and the following `resolve(hostnames)` is ignored.
   */
  function NamesOf(reply: DnsReply): seq<string>
  {
    match reply
    case Failed => []
    case Resolved(hostnames) => hostnames
  }

  /** getHostNamesForIp: the singleton object `{ [ip]: hostnames }`. */
  function HostNamesForIp(ip: string, reply: DnsReply): NameMap
  {
    map[ip := NamesOf(reply)]
  }

  /** `Promise.all(ips.map(getHostNamesForIp))`, by position. */
  function LookupAll(ips: seq<string>, lookup: (nat, string) -> DnsReply): seq<NameMap>
  {
    seq(|ips|, k requires 0 <= k < |ips| => HostNamesForIp(ips[k], lookup(k, ips[k])))
  }

  /** `output.reduce((acc, curr) => ({ ...acc, ...curr }), {})`: later keys override earlier ones. */
  function Merge(output: seq<NameMap>): NameMap
  {
    if |output| == 0 then map[] else Merge(output[..|output| - 1]) + output[|output| - 1]
  }

  /** getHostNamesForIps. */
  function HostNamesForIps(ips: seq<string>, lookup: (nat, string) -> DnsReply): NameMap
  {
    Merge(LookupAll(ips, lookup))
  }

  /**
   * Every address gets a key and nothing else does, however many lookups
   * fail; an address listed twice keeps the answer of its last lookup.
   */
  lemma {:induction false} HostNamesForIpsSpec(ips: seq<string>, lookup: (nat, string) -> DnsReply)
    ensures HostNamesForIps(ips, lookup).Keys == set ip | ip in ips
    ensures forall ip :: ip in ips ==>
      HostNamesForIps(ips, lookup)[ip] == NamesOf(lookup(LastIndexOf(ips, ip), ip))
  {
    if |ips| > 0 {
      var n := |ips| - 1;
      var init := ips[..n];
      HostNamesForIpsSpec(init, lookup);
      assert LookupAll(ips, lookup)[..n] == LookupAll(init, lookup);
      var m := HostNamesForIps(ips, lookup);
      assert m == HostNamesForIps(init, lookup) + map[ips[n] := NamesOf(lookup(n, ips[n]))];
      assert ips == init + [ips[n]];
      forall ip | ip in ips ensures m[ip] == NamesOf(lookup(LastIndexOf(ips, ip), ip)) {
        if ip != ips[n] {
          assert ip in init;
        }
      }
    }
  }

  /** A failed lookup of a single address gives that address with no names, not an error. */
  lemma FailedLookupGivesNoNames(ip: string, lookup: (nat, string) -> DnsReply)
    requires lookup(0, ip) == Failed
    ensures HostNamesForIps([ip], lookup) == map[ip := []]
  {
    HostNamesForIpsSpec([ip], lookup);
  }
}
