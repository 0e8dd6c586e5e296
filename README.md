# Local-subnet scanner: a verified model of its bookkeeping

The scanner takes the machine's IPv4 address, derives its /24 subnet prefix
(the first three dotted fields), probes the 254 host addresses `prefix.1` …
`prefix.254` for liveness, reverse-resolves the live hosts' names, scans each
live host's TCP ports batch by batch, and joins everything into one report row
per live host.

This project models the deterministic part of that pipeline in Dafny. The
three network probes are oracles passed in as functions:

- `alive(ip)`: the outcome of `ping` (the child `ping` process).
- `lookup(k, ip)`: the `dns.reverse` reply to the k-th lookup of the fan-out.
- `open(ip, port)`: the outcome of `isPortOpen`. For the host list it is
  `open(k, ip, port)`, the outcome during the scan of the k-th host.

Indexing the DNS and port oracles by position lets two lookups or scans of one
address answer differently. That is what makes "the later entry wins"
observable. `Promise.all(xs.map(f))` becomes a positional map: the source only
uses array positions, never completion order.

Modules:

- `Wrappers`: `Option` and `Result`.
- `Seqs`: filter, subsequence, no-duplicates and last-index facts.
- `Addresses`: `split('.')`, `join('.')`, decimal text, the subnet prefix and
  the host id.
- `Sweep`: `getNetworkIpsByBase` (an imperative loop), `ping` with its
  empty-address rejection, `Promise.all`, and `getActiveIps`.
- `Names`: `getHostNamesForIp` and the `reduce`/spread merge of
  `getHostNamesForIps`.
- `PortScan`: the batch loop of `getOpenPortsForIp` (an imperative loop with a
  recorded batch plan) and the host-by-host loop of `getOpenPortsForIps`.
- `Report`: `main` without its console output, with the report join.

The port scan does what the code does, not what its parameter names suggest.
`getOpenPortsForIp(ip, portMax, portMin)` probes exactly the ports `p` with
`portMin < p <= portMax`; the lower bound is never probed. The loop variable
steps by 3000 from `portMin` while `port <= portMax`. Each batch probes
`port + 1 .. min(port + 3000, portMax)`. When 3000 divides
`portMax - portMin`, the loop runs one last time with an empty batch. With the
run's bounds 1 and 1000, port 1 is never scanned, although the defaults
`portMin = 1` read as an inclusive range; the model follows the code.

## Model

| member | source | states |
|---|---|---|
| `Sweep.NetworkIpsByBase` | src/scan-with-ping.js:40-46 | the loop yields 254 addresses; entry k is `base + "." + (k + 1)` in decimal |
| `Sweep.CandidatesShape` | src/scan-with-ping.js:40-46 | 254 candidates; entry k has host id k + 1; no address repeats; `base.0` and `base.255` are absent |
| `Sweep.CandidateHostId` | src/scan-with-ping.js:43 | the dotted fields of `${base}.${i}` are those of `base` plus the decimal of `i`, and the last field reads back as `i`, whatever `base` is |
| `Addresses.ParseDecimalOfDecimal` | src/scan-with-ping.js:43 | the decimal text of a number reads back as that number, so distinct host ids give distinct addresses |
| `Addresses.SplitAppend` | src/scan-with-ping.js:13 | splitting `a + "." + b` at dots gives the fields of `a` followed by those of `b` |
| `Addresses.JoinSplit` | src/scan-with-ping.js:13 | joining the fields of `split('.')` with `.` gives the string back |
| `Addresses.SplitJoin` | src/scan-with-ping.js:13 | splitting a join of dot-free fields gives the fields back |
| `Addresses.SubnetPrefixFields` | src/scan-with-ping.js:13 | the subnet prefix is an initial part of the address, and its fields are exactly the address's first three fields (all of them when there are fewer) |
| `Sweep.SubnetPrefixOfCandidate` | src/scan-with-ping.js:13-14 | for a three-field base, the prefix derived from any candidate is that base again |
| `Sweep.PingAllSpec` | src/scan-with-ping.js:20-38 | `Promise.all` over `ping` rejects exactly when some address is empty; otherwise result k is `(ips[k], alive(ips[k]))`, and the live-ip filter equals filtering the addresses by `alive` |
| `Sweep.ActiveIpsIsFilter` | src/scan-with-ping.js:48-53 | getActiveIps never rejects and returns the candidates filtered by `alive` |
| `Sweep.ActiveIpsSpec` | src/scan-with-ping.js:48-53 | an address is in the result iff it is a candidate and alive; the result is a subsequence of the candidates (ascending host id); no address repeats |
| `Sweep.ActiveIpsTwoHosts` | src/scan-with-ping.js:48-53 | if only `.1` and `.5` answer, the result is exactly `[base.1, base.5]` in that order |
| `Names.HostNamesForIpsSpec` | src/scan-with-ping.js:55-83 | the merged map's keys are exactly the input addresses, however many lookups fail; each address maps to the names of its last lookup, and a failed lookup gives `[]` |
| `Names.FailedLookupGivesNoNames` | src/scan-with-ping.js:55-83 | `["1.2.3.4"]` with a failing lookup gives `{"1.2.3.4": []}`, not an error |
| `PortScan.OpenPortsForIp` | src/scan-with-ping.js:119-139 | the batch loop returns the open ports in `(portMin, portMax]` in ascending order; its batches are `Plan(portMin, portMax)` |
| `PortScan.OpenPortsMembership` | src/scan-with-ping.js:119-139 | p is in the result iff `portMin < p <= portMax` and the probe reports p open; `portMin >= portMax` gives `[]` |
| `PortScan.OpenPortsAscending` | src/scan-with-ping.js:127-136 | the result is strictly ascending |
| `PortScan.OpenPortsSplit` | src/scan-with-ping.js:123-136 | the accumulator only grows at its end: the open ports up to `hi` are those up to `mid` followed by those in `(mid, hi]` |
| `PortScan.OpenPortsFilterProbed` | src/scan-with-ping.js:127-136 | the result is the probed ports `portMin + 1 .. portMax`, in probe order, filtered by the probe |
| `PortScan.OnlyListenerFound` | src/scan-with-ping.js:119-139 | scanning `127.0.0.1` from 1 to 100 with a single listener on port 50 gives exactly `[50]` |
| `PortScan.PlanShape` | src/scan-with-ping.js:122-127 | no batches when `portMin > portMax`; otherwise the first starts at `portMin`, each next one starts where the previous ended, every batch holds at most 3000 ports, all but the last are full, and the last ends at `portMax` |
| `PortScan.PlanCount` | src/scan-with-ping.js:125-126 | there are `(portMax - portMin) / 3000 + 1` batches; the last is empty iff 3000 divides `portMax - portMin` |
| `PortScan.PlanProbes` | src/scan-with-ping.js:125-129 | the batches together probe `portMin + 1 .. portMax`, each port once and in order; `portMin` is never probed |
| `PortScan.OpenPortsForIps` | src/scan-with-ping.js:141-148 | the map's keys are exactly the input addresses; each maps to the scan result of its last occurrence's round, so a later scan of a repeated address overwrites the earlier one |
| `Report.JoinRows` | src/scan-with-ping.js:182-186 | for distinct addresses, row i holds address i, its looked-up names and its scanned ports, none of them `undefined` |
| `Report.ScanNetwork` | src/scan-with-ping.js:155-186 | the run yields one row per live candidate of the local subnet, in sweep order, with distinct live addresses; row i has the names of lookup i and the open ports in `(1, 1000]` of host scan i |
| `Seqs.LastIndexOf` | src/scan-with-ping.js:145 | the index it returns holds the address and no later entry does: the entry whose assignment survives |

## Left out

- `getNetworkInfo` (src/scan-with-ping.js:6-18) walks `os.networkInterfaces()`, which is operating-system I/O. `ScanNetwork` takes the local address as a parameter; only the prefix expression of line 13 is modelled. The crash when no interface qualifies is not modelled.
- `ping`'s `exec` of the `ping` binary (src/scan-with-ping.js:25-36) is a child process. Only its outcome is modelled, as `alive`. The rejection of an empty address (line 22) is modelled as an `Err` and proved unreachable for the sweep.
- `dns.reverse` (src/scan-with-ping.js:58) is network I/O and becomes the `lookup` oracle. Its error callback and the `catch` path both give `[]`, which `NamesOf(Failed)` covers.
- `isPortOpen` (src/scan-with-ping.js:85-117) opens a `net.Socket` with a 1000 ms timeout. Its outcome is the `open` oracle. That the socket is destroyed on every path needs the runtime and is not stated.
- `Promise.all` concurrency and async scheduling are modelled as a sequential positional map. The bound on probes in flight is kept only as the bound of 3000 ports per batch.
- Console logging and `console.table` (src/scan-with-ping.js:150-153, 159-189) are output only.
- src/config.js is not used by the scanning code, which hardcodes 1000 ms, 3000, and 1..1000.
- The default parameters `portMax = 65535, portMin = 1` of `getOpenPortsForIp` and `getOpenPortsForIps` do not appear, because every caller passes both bounds. The default `ips = []` of `getHostNamesForIps` needs no separate model: the empty list gives the empty map.
- Ports are modelled as `int`. Non-integer or `NaN` port arguments, which JavaScript numbers would allow, are not modelled.
- JavaScript objects are modelled as maps. Quirks of special keys such as `__proto__` and the key order of object enumeration are not modelled; the report follows `activeIps` order anyway.
- The report rows hold the raw name and port lists; how `console.table` renders an empty list is output formatting.
