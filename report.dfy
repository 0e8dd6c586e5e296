/**
 * The scan run (`main` without its console output): derive the subnet from
 * the local address, sweep it, resolve names and scan ports of the live hosts,
 * and join everything into one report row per live host.
 */
module Report {
  import opened Wrappers
  import opened Seqs
  import opened Addresses
  import opened Sweep
  import opened Names
  import opened PortScan

  /** SCAN_PORT_MIN and SCAN_PORT_MAX of the run. */
  const ScanPortMin: int := 1
  const ScanPortMax: int := 1000

  datatype ReportRow = ReportRow(ip: string, hostnames: Option<seq<string>>, ports: Option<seq<int>>)

  /** A property read `m[k]`: `undefined` (None) when the key is missing. */
  function Get<K, V>(m: map<K, V>, k: K): Option<V>
  {
    if k in m then Some(m[k]) else None
  }

  /** `activeIps.map((ip) => ({ ip, hostnames: ipsToHostNames[ip], ports: ipsToOpenPorts[ip] }))`. */
  function ScanReport(activeIps: seq<string>, names: NameMap, ports: map<string, seq<int>>): seq<ReportRow>
  {
    seq(|activeIps|, i requires 0 <= i < |activeIps| =>
      ReportRow(activeIps[i], Get(names, activeIps[i]), Get(ports, activeIps[i])))
  }

  /**
   * main, given the local address the interface list would supply: one row
   * per live host of its subnet, in sweep order, none of whose fields is
   * missing; row i holds the names of the i-th lookup and the open ports of
   * the i-th host scan over `(ScanPortMin, ScanPortMax]`.
   */
  method ScanNetwork(address: string, alive: string -> bool, lookup: (nat, string) -> DnsReply,
                     open: (nat, string, int) -> bool)
    returns (report: seq<ReportRow>)
    ensures var active := Filter(Candidates(SubnetPrefix(address)), alive);
      |report| == |active| &&
      forall i :: 0 <= i < |report| ==>
        report[i] == ReportRow(active[i], Some(NamesOf(lookup(i, active[i]))),
                               Some(OpenPortsIn(active[i], ScanPortMin, ScanPortMax, Round(open, i))))
    ensures forall i :: 0 <= i < |report| ==>
      report[i].ip in Candidates(SubnetPrefix(address)) && alive(report[i].ip)
    ensures forall i, j :: 0 <= i < j < |report| ==> report[i].ip != report[j].ip
  {
    var currentSubnet := SubnetPrefix(address);
    ActiveIpsSpec(currentSubnet, alive);
    var activeIps := ActiveIps(currentSubnet, alive).value;
    var ipsToHostNames := HostNamesForIps(activeIps, lookup);
    var ipsToOpenPorts := OpenPortsForIps(activeIps, ScanPortMax, ScanPortMin, open);
    report := ScanReport(activeIps, ipsToHostNames, ipsToOpenPorts);
    JoinRows(activeIps, lookup, open, ipsToOpenPorts);
    forall i | 0 <= i < |report| ensures report[i].ip in Candidates(currentSubnet) && alive(report[i].ip) {
      assert report[i].ip == activeIps[i] && activeIps[i] in activeIps;
    }
  }

  /** The join reads every field from the two maps, keyed by row position since the hosts are distinct. */
  lemma JoinRows(activeIps: seq<string>, lookup: (nat, string) -> DnsReply, open: (nat, string, int) -> bool,
                 ports: map<string, seq<int>>)
    requires NoDuplicates(activeIps)
    requires ports.Keys == set ip | ip in activeIps
    requires forall ip :: ip in activeIps ==>
      ports[ip] == OpenPortsIn(ip, ScanPortMin, ScanPortMax, Round(open, LastIndexOf(activeIps, ip)))
    ensures forall i :: 0 <= i < |activeIps| ==>
      ScanReport(activeIps, HostNamesForIps(activeIps, lookup), ports)[i] ==
      ReportRow(activeIps[i], Some(NamesOf(lookup(i, activeIps[i]))),
                Some(OpenPortsIn(activeIps[i], ScanPortMin, ScanPortMax, Round(open, i))))
  {
    var names := HostNamesForIps(activeIps, lookup);
    HostNamesForIpsSpec(activeIps, lookup);
    forall i | 0 <= i < |activeIps|
      ensures ScanReport(activeIps, names, ports)[i] ==
        ReportRow(activeIps[i], Some(NamesOf(lookup(i, activeIps[i]))),
                  Some(OpenPortsIn(activeIps[i], ScanPortMin, ScanPortMax, Round(open, i))))
    {
      var ip := activeIps[i];
      LastIndexOfDistinct(activeIps, i);
      assert ip in activeIps;
      assert Get(names, ip) == Some(NamesOf(lookup(i, ip)));
      assert Get(ports, ip) == Some(OpenPortsIn(ip, ScanPortMin, ScanPortMax, Round(open, i)));
    }
  }
}
