/**
 * The subnet sweep: the 254 candidate host addresses of a subnet, one
 * liveness probe per candidate, and the filter that keeps the live ones.
 * The probe itself (a child `ping` process) is the oracle `alive`.
 */
module Sweep {
  import opened Wrappers
  import opened Seqs
  import opened Addresses

  /** Host ids run over 1 .. HostIdLimit - 1: the loop bound `i < 255`. */
  const HostIdLimit: nat := 255

  /** The address `${base}.${i}`. */
  function Candidate(base: string, i: nat): string
  {
    base + [Dot] + Decimal(i)
  }

  /** The candidate list, element k being host k + 1. */
  function Candidates(base: string): seq<string>
  {
    seq(HostIdLimit - 1, k requires 0 <= k < HostIdLimit - 1 => Candidate(base, k + 1))
  }

  /** getNetworkIpsByBase: the counting loop that pushes one address per host id. */
  method NetworkIpsByBase(base: string) returns (ips: seq<string>)
    ensures |ips| == 254
    ensures forall k :: 0 <= k < |ips| ==> ips[k] == Candidate(base, k + 1)
    ensures ips == Candidates(base)
  {
    ips := [];
    var i := 1;
    while i < HostIdLimit
      invariant 1 <= i <= HostIdLimit
      invariant |ips| == i - 1
      invariant forall k :: 0 <= k < |ips| ==> ips[k] == Candidate(base, k + 1)
    {
      ips := ips + [Candidate(base, i)];
      i := i + 1;
    }
  }

  /** The last field of a candidate reads back as its host id, whatever the base. */
  lemma CandidateHostId(base: string, i: nat)
    ensures Split(Candidate(base, i), Dot) == Split(base, Dot) + [Decimal(i)]
    ensures HostId(Candidate(base, i)) == Some(i)
  {
    SplitAppend(base, Decimal(i), Dot);
    SplitWithoutSeparator(Decimal(i), Dot);
    ParseDecimalOfDecimal(i);
  }

  /** The subnet prefix of a candidate of a three-field base is that base. */
  lemma SubnetPrefixOfCandidate(base: string, i: nat)
    requires |Split(base, Dot)| == 3
    ensures SubnetPrefix(Candidate(base, i)) == base
  {
    CandidateHostId(base, i);
    var fields := Split(base, Dot) + [Decimal(i)];
    assert Take(fields, 3) == Split(base, Dot);
    JoinSplit(base, Dot);
  }

  /**
   * The candidate list has 254 entries, entry k is host k + 1, no address
   * repeats, and the network (0) and broadcast (255) addresses are absent.
   */
  lemma CandidatesShape(base: string)
    ensures |Candidates(base)| == 254
    ensures forall k :: 0 <= k < 254 ==> HostId(Candidates(base)[k]) == Some(k + 1)
    ensures NoDuplicates(Candidates(base))
    ensures Candidate(base, 0) !in Candidates(base)
    ensures Candidate(base, 255) !in Candidates(base)
  {
    var c := Candidates(base);
    forall k | 0 <= k < 254 ensures HostId(c[k]) == Some(k + 1) {
      CandidateHostId(base, k + 1);
    }
    CandidateHostId(base, 0);
    CandidateHostId(base, 255);
  }

  datatype PingResult = PingResult(ip: string, alive: bool)

  /**
   * ping: an empty address is rejected (a caller error, not "unreachable");
   * otherwise the probe's outcome, with every probe failure already folded
   * into `alive(ip) == false` by the oracle.
   */
  function Ping(ip: string, alive: string -> bool): Result<PingResult, string>
  {
    if |ip| == 0 then Err("IP is required") else Ok(PingResult(ip, alive(ip)))
  }

  /** `Promise.all(ips.map(ping))`: results by position, rejected if any probe rejects. */
  function PingAll(ips: seq<string>, alive: string -> bool): Result<seq<PingResult>, string>
  {
    if |ips| == 0 then Ok([])
    else
      match Ping(ips[0], alive)
      case Err(e) => Err(e)
      case Ok(first) =>
        match PingAll(ips[1..], alive)
        case Err(e) => Err(e)
        case Ok(rest) => Ok([first] + rest)
  }

  /** `results.filter((result) => result.alive).map((result) => result.ip)`. */
  function AliveIps(results: seq<PingResult>): seq<string>
  {
    if |results| == 0 then []
    else (if results[0].alive then [results[0].ip] else []) + AliveIps(results[1..])
  }

  /** getActiveIps. */
  function ActiveIps(base: string, alive: string -> bool): Result<seq<string>, string>
  {
    match PingAll(Candidates(base), alive)
    case Err(e) => Err(e)
    case Ok(results) => Ok(AliveIps(results))
  }

  /** Promise.all rejects exactly when some address is empty; otherwise it keeps positions. */
  lemma {:induction false} PingAllSpec(ips: seq<string>, alive: string -> bool)
    ensures PingAll(ips, alive).Err? <==> exists i :: 0 <= i < |ips| && ips[i] == []
    ensures PingAll(ips, alive).Ok? ==>
      PingAll(ips, alive).value == seq(|ips|, k requires 0 <= k < |ips| => PingResult(ips[k], alive(ips[k])))
    ensures PingAll(ips, alive).Ok? ==> AliveIps(PingAll(ips, alive).value) == Filter(ips, alive)
  {
    if |ips| > 0 {
      PingAllSpec(ips[1..], alive);
      if ips[0] != [] && PingAll(ips[1..], alive).Ok? {
        var rest := PingAll(ips[1..], alive).value;
        var all := [PingResult(ips[0], alive(ips[0]))] + rest;
        assert all[1..] == rest;
      }
      if exists i :: 0 <= i < |ips| && ips[i] == [] {
        var i :| 0 <= i < |ips| && ips[i] == [];
        if i > 0 {
          assert ips[1..][i - 1] == [];
        }
      }
      if exists i :: 0 <= i < |ips[1..]| && ips[1..][i] == [] {
        var i :| 0 <= i < |ips[1..]| && ips[1..][i] == [];
        assert ips[i + 1] == [];
      }
    }
  }

  /** getActiveIps never rejects, since no candidate is empty, and filters the candidates by `alive`. */
  lemma ActiveIpsIsFilter(base: string, alive: string -> bool)
    ensures ActiveIps(base, alive) == Ok(Filter(Candidates(base), alive))
  {
    var c := Candidates(base);
    assert forall i :: 0 <= i < |c| ==> |c[i]| > 0;
    PingAllSpec(c, alive);
  }

  /**
   * getActiveIps never rejects (no candidate is empty) and yields exactly the
   * live candidates, in ascending host-id order, each at most once.
   */
  lemma ActiveIpsSpec(base: string, alive: string -> bool)
    ensures ActiveIps(base, alive) == Ok(Filter(Candidates(base), alive))
    ensures forall ip :: ip in ActiveIps(base, alive).value <==> ip in Candidates(base) && alive(ip)
    ensures IsSubsequence(ActiveIps(base, alive).value, Candidates(base))
    ensures NoDuplicates(ActiveIps(base, alive).value)
  {
    var c := Candidates(base);
    ActiveIpsIsFilter(base, alive);
    forall ip ensures ip in Filter(c, alive) <==> ip in c && alive(ip) {
      FilterMembership(c, alive, ip);
    }
    FilterIsSubsequence(c, alive);
    CandidatesShape(base);
    SubsequenceKeepsNoDuplicates(Filter(c, alive), c);
  }

  /** When only hosts .1 and .5 answer, the sweep reports exactly those two, in that order. */
  lemma ActiveIpsTwoHosts(base: string, alive: string -> bool)
    requires forall ip :: alive(ip) <==> ip == Candidate(base, 1) || ip == Candidate(base, 5)
    ensures ActiveIps(base, alive) == Ok([Candidate(base, 1), Candidate(base, 5)])
  {
    var c := Candidates(base);
    ActiveIpsIsFilter(base, alive);
    CandidateHostId(base, 1);
    CandidateHostId(base, 5);
    forall k | 0 <= k < |c| && k != 0 && k != 4 ensures !alive(c[k]) {
      CandidateHostId(base, k + 1);
    }
    FilterTwo(c, alive, 0, 4);
  }
}
