/**
 * The batched TCP connect scan of one host and the sequential scan of a host
 * list. The probe (`isPortOpen`: connect, then tear the socket down) is the
 * oracle `open(ip, port)`; for the host list, `open(k, ip, port)` is the
 * outcome during the scan of the k-th host.
 */
module PortScan {
  import opened Seqs

  /** `batchSize`: ports probed together before the next batch starts. */
  const BatchSize: nat := 3000

  type PortProbe = (string, int) -> bool

  datatype PortResult = PortResult(ip: string, port: int, isOpen: bool)

  /** One loop step: `port` is the loop variable, `end` is `endPort`; it probes `port + 1 .. end`. */
  datatype Batch = Batch(port: int, end: int)

  function Min(a: int, b: int): int
  {
    if a <= b then a else b
  }

  /** The open ports `p` with `lo < p <= hi`, ascending. */
  function OpenPortsIn(ip: string, lo: int, hi: int, open: PortProbe): seq<int>
    decreases hi - lo
  {
    if hi <= lo then [] else OpenPortsIn(ip, lo, hi - 1, open) + (if open(ip, hi) then [hi] else [])
  }

  /** The ports `lo + 1 .. hi`, ascending (empty when `hi <= lo`). */
  function PortsAbove(lo: int, hi: int): seq<int>
    decreases hi - lo
  {
    if hi <= lo then [] else PortsAbove(lo, hi - 1) + [hi]
  }

  /** The batches the loop runs from loop value `port` on. */
  function Plan(port: int, maxPort: int): seq<Batch>
    decreases maxPort - port
  {
    if port > maxPort then []
    else [Batch(port, Min(port + BatchSize, maxPort))] + Plan(port + BatchSize, maxPort)
  }

  /** `Array.from({ length: end - port }, (_, k) => k + port + 1)`. */
  function BatchPorts(b: Batch): seq<int>
    requires b.port <= b.end
  {
    seq(b.end - b.port, k requires 0 <= k < b.end - b.port => k + b.port + 1)
  }

  /** Every port the plan probes, batch after batch. */
  function Probed(plan: seq<Batch>): seq<int>
    requires forall i :: 0 <= i < |plan| ==> plan[i].port <= plan[i].end
  {
    if |plan| == 0 then [] else BatchPorts(plan[0]) + Probed(plan[1..])
  }

  /** `Promise.all(batch.map((port) => isPortOpen(ip, port)))`, by position. */
  function ProbeBatch(ip: string, ports: seq<int>, open: PortProbe): seq<PortResult>
  {
    seq(|ports|, k requires 0 <= k < |ports| => PortResult(ip, ports[k], open(ip, ports[k])))
  }

  /**
   * getOpenPortsForIp(ip, portMax, portMin). The result is the open ports
   * strictly above `portMin` and up to `portMax`; `batches` records the loop's
   * steps, which the lemmas about `Plan` describe.
   */
  method OpenPortsForIp(ip: string, portMax: int, portMin: int, open: PortProbe)
    returns (openPorts: seq<int>, ghost batches: seq<Batch>)
    ensures openPorts == OpenPortsIn(ip, portMin, portMax, open)
    ensures batches == Plan(portMin, portMax)
  {
    var maxPort := portMax;
    var minPort := portMin;
    openPorts := [];
    batches := [];
    var port := minPort;
    while port <= maxPort
      invariant minPort <= port
      invariant batches + Plan(port, maxPort) == Plan(minPort, maxPort)
      invariant openPorts == OpenPortsIn(ip, minPort, Min(port, maxPort), open)
    {
      var endPort := Min(port + BatchSize, maxPort);
      var batch := BatchPorts(Batch(port, endPort));
      var results := ProbeBatch(ip, batch, open);
      assert |results| == endPort - port;
      var i := 0;
      while i < |results|
        invariant 0 <= i <= |results|
        invariant openPorts == OpenPortsIn(ip, minPort, port + i, open)
      {
        assert results[i] == PortResult(ip, port + i + 1, open(ip, port + i + 1));
        if results[i].isOpen {
          openPorts := openPorts + [results[i].port];
        }
        assert openPorts == OpenPortsIn(ip, minPort, port + i + 1, open);
        i := i + 1;
      }
      assert Plan(port, maxPort) == [Batch(port, endPort)] + Plan(port + BatchSize, maxPort);
      batches := batches + [Batch(port, endPort)];
      port := port + BatchSize;
    }
  }

  /** Round k of the host-list scan: the probe outcomes while host k is scanned. */
  function Round(open: (nat, string, int) -> bool, k: nat): PortProbe
  {
    (ip: string, p: int) => open(k, ip, p)
  }

  /**
   * getOpenPortsForIps: hosts are scanned one after another in list order;
   * every address gets a key, and an address listed twice keeps the result of
   * its later scan.
   */
  method OpenPortsForIps(ips: seq<string>, portMax: int, portMin: int, open: (nat, string, int) -> bool)
    returns (openPortsByIp: map<string, seq<int>>)
    ensures openPortsByIp.Keys == set ip | ip in ips
    ensures forall ip :: ip in ips ==>
      openPortsByIp[ip] == OpenPortsIn(ip, portMin, portMax, Round(open, LastIndexOf(ips, ip)))
  {
    openPortsByIp := map[];
    var k := 0;
    while k < |ips|
      invariant 0 <= k <= |ips|
      invariant openPortsByIp.Keys == set ip | ip in ips[..k]
      invariant forall ip :: ip in ips[..k] ==>
        openPortsByIp[ip] == OpenPortsIn(ip, portMin, portMax, Round(open, LastIndexOf(ips[..k], ip)))
    {
      var ip := ips[k];
      var openPorts, _ := OpenPortsForIp(ip, portMax, portMin, Round(open, k));
      openPortsByIp := openPortsByIp[ip := openPorts];
      assert ips[..k + 1] == ips[..k] + [ip];
      assert ips[..k + 1][..k] == ips[..k];
      k := k + 1;
    }
    assert ips[..k] == ips;
  }

  /** The open ports up to `hi` are exactly the ports above `lo` that the probe reports open. */
  lemma {:induction false} OpenPortsMembership(ip: string, lo: int, hi: int, open: PortProbe, p: int)
    ensures p in OpenPortsIn(ip, lo, hi, open) <==> lo < p <= hi && open(ip, p)
    decreases hi - lo
  {
    if hi > lo {
      OpenPortsMembership(ip, lo, hi - 1, open, p);
    }
  }

  /** The open ports are listed in strictly ascending order. */
  lemma {:induction false} OpenPortsAscending(ip: string, lo: int, hi: int, open: PortProbe)
    ensures forall i, j :: 0 <= i < j < |OpenPortsIn(ip, lo, hi, open)| ==>
      OpenPortsIn(ip, lo, hi, open)[i] < OpenPortsIn(ip, lo, hi, open)[j]
    decreases hi - lo
  {
    if hi > lo {
      var init := OpenPortsIn(ip, lo, hi - 1, open);
      OpenPortsAscending(ip, lo, hi - 1, open);
      forall i | 0 <= i < |init| ensures init[i] < hi {
        OpenPortsMembership(ip, lo, hi - 1, open, init[i]);
      }
    }
  }

  /**
   * The accumulator only grows at its end: the open ports up to `hi` are the
   * open ports up to `mid` followed by those in `(mid, hi]`.
   */
  lemma {:induction false} OpenPortsSplit(ip: string, lo: int, mid: int, hi: int, open: PortProbe)
    requires lo <= mid <= hi
    ensures OpenPortsIn(ip, lo, hi, open) == OpenPortsIn(ip, lo, mid, open) + OpenPortsIn(ip, mid, hi, open)
    decreases hi - mid
  {
    if hi > mid {
      OpenPortsSplit(ip, lo, mid, hi - 1, open);
    }
  }

  /** The probe outcome for one host as a predicate on ports. */
  function OpenOn(ip: string, open: PortProbe): int -> bool
  {
    (p: int) => open(ip, p)
  }

  /** The open ports are the probed ports `lo + 1 .. hi`, in probe order, filtered by the probe. */
  lemma {:induction false} OpenPortsFilterProbed(ip: string, lo: int, hi: int, open: PortProbe)
    ensures OpenPortsIn(ip, lo, hi, open) == Filter(PortsAbove(lo, hi), OpenOn(ip, open))
    decreases hi - lo
  {
    if hi > lo {
      OpenPortsFilterProbed(ip, lo, hi - 1, open);
      FilterAppend(PortsAbove(lo, hi - 1), [hi], OpenOn(ip, open));
      assert Filter([hi], OpenOn(ip, open)) == if open(ip, hi) then [hi] else [];
    }
  }

  /** Scanning 1..100 of a host whose only listener is on port 50 finds exactly `[50]`. */
  lemma OnlyListenerFound(open: PortProbe)
    requires forall p :: open("127.0.0.1", p) <==> p == 50
    ensures OpenPortsIn("127.0.0.1", 1, 100, open) == [50]
  {
    var ip := "127.0.0.1";
    OpenPortsSplit(ip, 1, 50, 100, open);
    var below := OpenPortsIn(ip, 1, 49, open);
    var above := OpenPortsIn(ip, 50, 100, open);
    if |below| > 0 {
      OpenPortsMembership(ip, 1, 49, open, below[0]);
    }
    if |above| > 0 {
      OpenPortsMembership(ip, 50, 100, open, above[0]);
    }
    assert OpenPortsIn(ip, 1, 50, open) == below + [50];
  }

  lemma {:induction false} PortsAboveMembership(lo: int, hi: int, p: int)
    ensures p in PortsAbove(lo, hi) <==> lo < p <= hi
    decreases hi - lo
  {
    if hi > lo {
      PortsAboveMembership(lo, hi - 1, p);
    }
  }

  /**
   * The loop's batches: none when `portMin > portMax`; otherwise the first
   * starts at `portMin`, each starts where the previous ended, none holds more
   * than `BatchSize` ports, all but the last are full, and the last ends at
   * `portMax`.
   */
  lemma {:induction false} PlanShape(port: int, maxPort: int)
    ensures port > maxPort ==> Plan(port, maxPort) == []
    ensures port <= maxPort ==> |Plan(port, maxPort)| > 0
    ensures port <= maxPort ==> Plan(port, maxPort)[0].port == port
    ensures port <= maxPort ==> Plan(port, maxPort)[|Plan(port, maxPort)| - 1].end == maxPort
    ensures forall i :: 0 <= i < |Plan(port, maxPort)| ==>
      Plan(port, maxPort)[i].port <= Plan(port, maxPort)[i].end <= Plan(port, maxPort)[i].port + BatchSize
    ensures forall i :: 0 <= i < |Plan(port, maxPort)| - 1 ==>
      Plan(port, maxPort)[i].end == Plan(port, maxPort)[i].port + BatchSize &&
      Plan(port, maxPort)[i + 1].port == Plan(port, maxPort)[i].end
    decreases maxPort - port
  {
    if port <= maxPort {
      PlanShape(port + BatchSize, maxPort);
      var rest := Plan(port + BatchSize, maxPort);
      var plan := Plan(port, maxPort);
      assert plan[1..] == rest;
      forall i | 0 <= i < |plan| - 1
        ensures plan[i].end == plan[i].port + BatchSize && plan[i + 1].port == plan[i].end
      {
        if i > 0 {
          assert plan[i] == rest[i - 1] && plan[i + 1] == rest[i];
        }
      }
    }
  }

  /**
   * The number of batches is `(portMax - portMin) / BatchSize + 1`, and the
   * last one is empty exactly when `BatchSize` divides `portMax - portMin`
   * (then `port` reaches `portMax` itself and the loop runs once more).
   */
  lemma {:induction false} PlanCount(port: int, maxPort: int)
    requires port <= maxPort
    ensures |Plan(port, maxPort)| == (maxPort - port) / BatchSize + 1
    ensures var last := Plan(port, maxPort)[|Plan(port, maxPort)| - 1];
      last.port == last.end <==> (maxPort - port) % BatchSize == 0
    decreases maxPort - port
  {
    if port + BatchSize <= maxPort {
      PlanCount(port + BatchSize, maxPort);
      var d := maxPort - port;
      assert (d - BatchSize) / BatchSize == d / BatchSize - 1;
      assert (d - BatchSize) % BatchSize == d % BatchSize;
    }
  }

  /**
   * All batches together probe exactly `portMin + 1 .. portMax`, each port
   * once and in ascending order: `portMin` itself is never probed.
   */
  lemma {:induction false} PlanProbes(port: int, maxPort: int)
    ensures forall i :: 0 <= i < |Plan(port, maxPort)| ==> Plan(port, maxPort)[i].port <= Plan(port, maxPort)[i].end
    ensures Probed(Plan(port, maxPort)) == PortsAbove(port, maxPort)
    ensures forall p :: p in Probed(Plan(port, maxPort)) <==> port < p <= maxPort
    decreases maxPort - port
  {
    PlanShape(port, maxPort);
    if port <= maxPort {
      var end := Min(port + BatchSize, maxPort);
      PlanProbes(port + BatchSize, maxPort);
      assert Plan(port, maxPort)[1..] == Plan(port + BatchSize, maxPort);
      assert Probed(Plan(port + BatchSize, maxPort)) == PortsAbove(end, maxPort);
      PortsAboveAppend(port, end, maxPort);
      BatchPortsAbove(Batch(port, end));
    }
    forall p ensures p in Probed(Plan(port, maxPort)) <==> port < p <= maxPort {
      PortsAboveMembership(port, maxPort, p);
    }
  }

  lemma {:induction false} PortsAboveAppend(lo: int, mid: int, hi: int)
    requires lo <= mid <= hi
    ensures PortsAbove(lo, hi) == PortsAbove(lo, mid) + PortsAbove(mid, hi)
    decreases hi - mid
  {
    if hi > mid {
      PortsAboveAppend(lo, mid, hi - 1);
    }
  }

  lemma {:induction false} BatchPortsAbove(b: Batch)
    requires b.port <= b.end
    ensures BatchPorts(b) == PortsAbove(b.port, b.end)
    decreases b.end - b.port
  {
    if b.end > b.port {
      BatchPortsAbove(Batch(b.port, b.end - 1));
      assert BatchPorts(b) == BatchPorts(Batch(b.port, b.end - 1)) + [b.end];
    }
  }
}
