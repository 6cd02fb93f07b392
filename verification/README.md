# Verified model of the eBPF user plane function

The repository is a 5G user plane function built from eBPF programs: an XDP
hook that classifies uplink GTP-U packets, a TC ingress hook that decides,
polices, meters and forwards them, a TC egress hook that encapsulates downlink
packets, and a Python agent that stands in for the PFCP control plane. This
project models the parts of it where correctness is hardest to see by reading,
and proves what the comments and the agent's documentation promise about them,
or shows exactly when the promise holds.

- **Policing.** The QER token bucket in both builds, with its 64-bit
  wrap-around, its truncating division, its one-second cap and its zero stamp
  for "never used". `TokenBucket`, `BucketRefinement` and `PerCpuBuckets` are
  about the default build, `SharedBucket`, `SharedBucketWindow`,
  `SharedBucketTight`, `SharedBucketPlain`, `SharedBucketExact` and
  `SharedRefinement` about the spin-locked one, where every interleaving of N
  CPUs that sample the clock, wait and lock is a run of a state machine.
  `QerState` has the two functions in the imperative form of the source.
- **Metering.** The URR counters with the race between lookup and `BPF_NOEXIST`
  insert as separate steps (`UrrRace`, `UrrAccounting`, `UrrLossTight`,
  `UrrPackets`, `UrrMaps`), and policing and metering composed (`PerCpuMetering`,
  `PerCpuMeteringPlain`, `SharedMetering`, `SharedMeteringLaws`,
  `SharedMeteringPlain`).
- **Transactional updates.** The 56-byte double-buffered bundle at byte level
  (`TcBundle`), under packets that look the whole value up at once
  (`BundleHistory`), and under packets that load it word by word while it is
  rewritten in place (`BundleWordReaders`, `BundleWordSafety`,
  `BundleTearing`).
- **Sessions.** The agent's commands as sequences of single map operations that
  may fail (`ControlPlane`, `Agent`), against packets that do one lookup per
  step (`Datapath`, `SessionRun`, `ZeroDowntime`, `SessionLog`,
  `SessionCommits`), and the per-stage counters of both hooks (`Metrics`,
  `Conservation`, `ConservationLaws`). `UplinkHooks` has the two uplink hooks as
  they run on one packet, and `UplinkSpec` their outcomes.
- **Packets.** The two ingress parsers, encapsulation and its inverse
  (`Frames`), the kinds of frames told from their bytes (`FrameClasses`), the
  egress hook on a packet buffer (`EgressHook`) and the header
  checksum (`Checksum`).
- **Netlink.** The attribute printer and the walking loop of the gtp5g client
  (`Netlink`, `NetlinkRoundTrip`, `NetlinkNesting`, `NetlinkBytes`,
  `GenlSocketState`).

Machine integers are subset types with their wrap-around written out. Clocks,
packet contents, LRU evictions, the results of `bpf_skb_adjust_room` and
`bpf_redirect`, and all scheduling are arbitrary inputs. `dafny verify
dfyconfig.toml` checks the whole project.

## Where the code and its comments differ

The model follows the code.

- `bpf/upf_tc.c:69-78` says that a stamp older than `last_ns` contributes no
  elapsed time. It contributes none itself, but line 86 stores it, so the time
  between the two stamps is refilled again by the next packet. The rate bound
  therefore carries the time spent waiting for the lock, and
  `SharedBucketTight.SharedRateBoundIsExact` shows runs that reach it: with
  8 * burst = mbr and burst * 8 * 10^9 < 2^64, n late CPUs let n + 2 bursts
  through in one second where the configured rate allows two. The aggregate rate
  that lines 47-50 promise holds for a rate-limited QER over every run of n CPUs
  if and only if n <= 1, or burst = 0, or mbr < 8
  (`SharedBucketPlain.PlainBoundExactlyWhen`); it also holds in every run whose
  lock order equals its sample order.
- `bpf/upf_tc.c:47-50` says that the two builds do the same arithmetic. They
  differ on a stamp older than the stored one: in the default build the
  subtraction wraps and the packet earns a whole second
  (`TokenBucket.OlderStampWraps`), in the shared build nothing
  (`TokenBucket.OlderStampEarnsNothing`).
- `bpf/upf_tc.c:119-120` says that the bucket saturates well before one second
  and that the cap bounds the multiplication. Unless one nanosecond of the rate
  earns more than the whole burst, that is true of a rate-limited QER with a
  positive burst exactly when 8 * burst <= mbr and mbr * 10^9 fits in 64 bits;
  beyond that it is true exactly when each wait of 1 ns to 1 s refills the whole
  burst in spite of the wrapping product (`BucketRefinement.AlwaysFills`,
  `BucketRefinement.RefinesExactlyWhen`). The rate bound itself survives a
  wrapping product.
- Metering after policing (`bpf/upf_tc.c:182-190`) does not make the report of a
  dedicated URR grow by at most the buckets' allowance over every window: a
  packet admitted before the window may be counted inside it. For a rate-limited
  QER it does so if and only if there are no CPUs, no burst, mbr < 8, or (default
  build) n * burst + 1 bytes no longer fit the counter
  (`PerCpuMeteringPlain.PlainAllowanceExactlyWhen`,
  `SharedMeteringPlain.PlainWindowExactlyWhen`). Adding the packets under way at
  the start of the window, and in the shared build the lock waits that end in it,
  gives a bound for every configuration. Since the start the plain bound holds
  in the default build; in the shared build it holds if and only if n <= 1,
  burst = 0 or mbr < 8
  (`SharedMeteringPlain.PlainReportExactlyWhen`).
- `bpf/upf_tc.c:151-154` describes the lost update as a race with another packet
  on the same CPU. Keys of the per-CPU hash are shared by all CPUs, so the race
  is with other CPUs; the stated bound, one packet per URR and CPU, holds, and
  the CPU that creates the key loses none.
- `bpf/upf_maps.h:88-90` calls the bundle an array element; the map is a hash
  (lines 284-293), whose updates replace the whole value. Both kinds of reader
  are covered.
- `loader/agent.py:229-232` removes the PDR it is given whatever other sessions
  use it. `ControlPlane.RemoveIsSafeExactlyWhen` gives the exact condition.
- `results_native/gtp5g_baseline/gtp5g_genl.py:150-152` reads two bytes of a
  family-id attribute even when its payload is empty. That is the one list of
  attributes the printer accepts and the loop cannot walk
  (`NetlinkRoundTrip.WalkReadsBack`).

## Model

A rate-limited QER is one with 0 < mbr; with mbr = 0 the code admits every packet
and no bucket is involved, which `QerState.QerMaps` states. The rows on buckets
and on metering behind them are about rate-limited QERs.

| member | source | states |
|---|---|---|
| TokenBucket.RefillAtMost | bpf/upf_tc.c:117-121 | one refill never adds more than the elapsed time earns, wrapped product or not |
| TokenBucket.NoOverflow | bpf/upf_tc.c:121-124 | from a bucket within its burst the token addition never wraps, and the result is the clamped sum |
| TokenBucket.AdmitOutcome | bpf/upf_tc.c:109-132 | what one call does, for every configuration, every bucket up to 2^32 tokens and every stamp, in numbers: full exactly when the time passed, cut to a second and its worth to 64 bits, covers what is missing, otherwise the whole bytes earned are added; the packet passes exactly if the level covers it, and then pays |
| TokenBucket.SharedAdmitOutcome | bpf/upf_tc.c:79-93 | the same for the critical section of the shared build, where only a later stamp earns |
| TokenBucket.OneSecondIsAll | bpf/upf_tc.c:117-120 | in both builds a packet later than a second after the last is answered as exactly one second after it |
| TokenBucket.OlderStampWraps | bpf/upf_tc.c:114-120 | default build: a stamp older than the stored one earns a whole second, unless its distance is within a second of 2^64 |
| TokenBucket.OlderStampEarnsNothing | bpf/upf_tc.c:69-86 | shared build: a stamp older than the stored one earns nothing, and is stored |
| TokenBucket.SharedCallExact | bpf/upf_tc.c:79-93 | exact account of one shared call that neither the cap, nor the 64-bit product, nor a full bucket clips: paid, left and truncated equal held and earned |
| TokenBucket.OneCallSpends | bpf/upf_tc.c:109-132 | one in-order call: bytes paid and tokens left are covered by tokens held and time passed |
| TokenBucket.RunSpends | bpf/upf_tc.c:109-132 | the same over any in-order run, and the stored stamp is the last one |
| TokenBucket.WindowBound | bpf/upf_tc.c:99-133 | every-window rate bound: from any bucket state and for any positive u64 rate, bytes admitted over a window are at most burst + floor(window * mbr / 8e9) |
| TokenBucket.WindowBoundIsExact | bpf/upf_tc.c:99-133 | for every rate and every wait of up to a second that earns a whole number k <= burst of bytes, some window attains the bound |
| TokenBucket.ExactAccount | bpf/upf_tc.c:117-132 | conservation for every configuration: over calls whose refills lose nothing to the one-second cap, to the 64-bit product or to a full bucket, paid, left and truncated amounts equal held and earned exactly, and truncation costs less than a byte per call |
| TokenBucket.RejectionIsDeserved | bpf/upf_tc.c:117-132 | for every configuration: a packet rejected k calls after the bucket was full, with none of the k refills clipped, implies admitted > burst + elapsed * mbr / 8e9 - k - pkt_len |
| TokenBucket.SizedNeverClips | bpf/upf_tc.c:118-124 | in such a configuration only a full bucket clips a refill |
| TokenBucket.SizedRejectionIsDeserved | bpf/upf_tc.c:117-132 | with 8 * burst <= mbr and mbr * 10^9 < 2^64 the same whenever none of the k calls found the bucket full |
| TokenBucket.OneBurstEver | bpf/upf_tc.c:109-132 | with no burst or a rate below a byte per second, a bucket gives its first burst and no more |
| QerState.QerMaps.constructor | bpf/upf_maps.h:246-281 | array maps start zeroed: every bucket unused, every QER unlimited |
| QerState.QerMaps.AdmitPerCpu | bpf/upf_tc.c:99-133 | the in-place function makes exactly the specified move on one bucket, admits unconditionally without a rate limit, and touches no other bucket |
| QerState.QerMaps.AdmitShared | bpf/upf_tc.c:51-97 | the same for the critical section of the shared build, with its guard against older stamps |
| BucketRefinement.RefillsAgree | bpf/upf_tc.c:117-125 | in a faithful configuration the capped u64 refill is the unbounded one |
| BucketRefinement.TracesAgree | bpf/upf_tc.c:109-132 | then every state and decision of every in-order run is the textbook bucket's |
| BucketRefinement.WrapBites | bpf/upf_tc.c:121 | a rate whose product wraps within a second has a wait after which the refill collapses |
| BucketRefinement.DivergingRun | bpf/upf_tc.c:117-132 | every unfaithful configuration has a two-packet run that the textbook bucket decides differently |
| BucketRefinement.RefinesExactlyWhen | bpf/upf_tc.c:117-126 | for every rate-limited QER, agreement on all in-order runs if and only if it is faithful; up to one burst per nanosecond that is 8 * burst <= mbr and mbr * 10^9 < 2^64, beyond it that every wait of up to a second refills the burst |
| SharedBucket.StepKeepsInv | bpf/upf_tc.c:61-97 | every step of every CPU keeps the lock, stamp, lateness and token accounts |
| SharedBucket.SkewIdentity | bpf/upf_tc.c:79-86 | admitted elapsed times = net advance of the stored stamp + lateness; lateness is at most the time waited for the lock |
| SharedBucket.SharedRateBound | bpf/upf_tc.c:51-97 | over every interleaving of N CPUs, admitted <= burst + (time since first use + lock waiting) * mbr / 8e9 |
| SharedBucket.SkewOnlyOutOfOrder | bpf/upf_tc.c:69-86 | lateness grows in a run if and only if some CPU enters with a stamp older than the stored one |
| SharedBucket.InOrderRateBound | bpf/upf_tc.c:69-86 | in a run, lateness is zero exactly when lock order matches sample order, and then the plain rate bound holds at its end |
| SharedBucketTight.SharedRateBoundIsExact | bpf/upf_tc.c:79-86 | for every n, every rate and every wait of up to a second that earns a whole number k <= burst of bytes, some run of n + 1 CPUs lasting just that wait admits burst + (n + 1) * k: the bound with waiting is attained, where the rate alone allows burst + k |
| SharedBucketPlain.PlainBoundExactlyWhen | bpf/upf_tc.c:47-97 | for every rate-limited QER the plain rate bound holds over every run of n CPUs if and only if n <= 1, or burst = 0, or mbr < 8 |
| SharedBucketPlain.Overshoots | bpf/upf_tc.c:61-86 | for every other n and configuration a run of three packets on two CPUs admits one byte more than the burst at its very first stamp |
| SharedBucketWindow.WindowRateBound | bpf/upf_tc.c:61-97 | the bound over any window from any reachable state, packets in progress included |
| SharedBucketExact.RunExact | bpf/upf_tc.c:61-97 | over any interleaving from a used bucket in which no entry is clipped, admitted + left + truncated = held + earned by the elapsed times the guard let through; truncation costs less than a byte per entry |
| SharedBucketExact.SharedRejectionIsDeserved | bpf/upf_tc.c:61-97 | a packet rejected k unclipped entries after the bucket was full, over any interleaving of N CPUs, implies admitted > burst + elapsed * mbr / 8e9 - k - pkt_len, where the elapsed times add up to the advance of the stored stamp and the lateness |
| SharedRefinement.RunsAgree | bpf/upf_tc.c:79-93 | in a faithful configuration every state and decision of every interleaving is that of the machine with a textbook bucket fed the guarded elapsed times |
| SharedRefinement.SharedRefinesExactlyWhen | bpf/upf_tc.c:79-93 | for every n and every configuration, the two machines make the same runs if and only if n = 0 or the configuration is faithful |
| PerCpuBuckets.EachCpuRunsAlone | bpf/upf_maps.h:62-75 | over any interleaving each CPU's bucket ends as its own single-bucket run, and the totals add up |
| PerCpuBuckets.NFoldBound | bpf/upf_tc.c:99-133 | N CPUs together admit at most N * (burst + window * mbr / 8e9) in every window |
| PerCpuTightness.NFoldIsTight | bpf/upf_maps.h:66-71 | for every N and every single-bucket run some run on N CPUs admits exactly N times as much |
| PerCpuTightness.NFoldBoundIsExact | bpf/upf_maps.h:66-71 | for every N, every rate and every wait of up to a second that earns a whole number k <= burst of bytes, some run on N CPUs admits exactly N * (burst + k), the N-fold bound |
| UrrAccounting.StepKeepsBalance | bpf/upf_tc.c:140-158 | per URR and CPU, metered = counted + lost + in flight after every step |
| UrrAccounting.StepKeepsStored | bpf/upf_tc.c:145-156 | the stored u64 counters are what was counted, modulo 2^64 |
| UrrAccounting.StepKeepsLossLimit | bpf/upf_tc.c:149-156 | only a CPU that missed a key before another created it can lose a packet, and then one |
| UrrAccounting.UninterruptedUpdate | bpf/upf_tc.c:145-156 | a lookup and commit with nothing in between leave exactly the counters of the in-place update |
| UrrAccounting.NeverBlocked | bpf/upf_tc.c:140-158 | no guard of the machine keeps a CPU from taking or finishing a packet |
| UrrAccounting.UrrConservation | bpf/upf_tc.c:140-158 | in every reachable state, bytes reported + lost + in flight = bytes metered for the id |
| UrrAccounting.UrrLossBound | bpf/upf_tc.c:151-154 | at most one packet lost per URR and CPU, at most N - 1 per URR |
| UrrPackets.UpdateMeters | bpf/upf_tc.c:140-158 | one uninterrupted update on every URR and CPU, in numbers: its own counters grow by the length and by one packet modulo 2^64, a new key starts from zero if fewer than 4096 are in use, nothing else changes |
| UrrPackets.SentIsAccountedFor | loader/agent.py:136-150 | in every reachable state, packets and bytes reported + lost + in flight are what the run sent to the URR |
| UrrLossTight.LossBoundIsExact | bpf/upf_tc.c:145-156 | for every N and every URR some run loses exactly N - 1 packets |
| UrrMaps.UrrMap.UrrUpdate | bpf/upf_tc.c:140-158 | the in-place update makes exactly the specified move, full map and id 0 included, and counts the update; `UrrPackets.UpdateMeters` says what the move is |
| UrrMaps.UrrMap.ReadUrr | loader/agent.py:136-150 | None exactly for an absent key, else the byte and packet sums over the CPUs |
| PerCpuMetering.ReportedWithinAllowance | bpf/upf_tc.c:182-190 | over any window of any run, the report of a URR dedicated to a QER grows by at most the packets in flight to the counters plus N times the bucket allowance |
| PerCpuMetering.RunsReach | bpf/upf_tc.c:182-190 | every run from fresh buckets and counters meets the premises of the bound |
| PerCpuMetering.ReportedSinceStart | bpf/upf_tc.c:182-190 | from the start on, the report stays within N times the bucket allowance |
| PerCpuMeteringPlain.PlainAllowanceExactlyWhen | bpf/upf_tc.c:182-190 | for every rate-limited QER, the report grows over every window of every run of n CPUs by at most n allowances if and only if n = 0, burst = 0, mbr < 8 or n * burst + 1 >= 2^64 |
| PerCpuMeteringPlain.InFlightIsNeeded | bpf/upf_tc.c:182-190 | for every other n and configuration some window of no length has the report grow by n bursts and a byte |
| SharedMeteringLaws.RunsReach | bpf/upf_tc.c:182-190 | after every run of the shared build, with anything happening between admission and counter lookup, admitted bytes = metered bytes + bytes admitted and not yet looked up |
| SharedMeteringLaws.NeverBlocked | bpf/upf_tc.c:64-158 | no guard of the machine keeps a packet from its lock, its critical section, its lookup or its write |
| SharedMeteringLaws.ReportedSinceFirstUse | loader/agent.py:136-150 | in the shared build the report never exceeds the shared bucket's bound with waiting since first use, over every interleaving of critical sections, lookups and writes |
| SharedMeteringLaws.ReportedWithinAllowance | bpf/upf_tc.c:182-190 | and over any window it grows by at most what was under way, looked up or not, plus the shared bucket's allowance |
| SharedMeteringPlain.PlainReportExactlyWhen | bpf/upf_tc.c:182-190 | for every rate-limited QER the report stays within burst + (time since first use) * mbr / 8e9 in every run of n CPUs if and only if n <= 1, burst = 0 or mbr < 8 |
| SharedMeteringPlain.Overshoots | bpf/upf_tc.c:182-190 | for every other n and configuration a run of two CPUs reports a byte more |
| SharedMeteringPlain.PlainWindowExactlyWhen | bpf/upf_tc.c:182-190 | for every rate-limited QER the report grows over every window by at most burst + window * mbr / 8e9 if and only if n = 0, burst = 0 or mbr < 8 |
| SharedMeteringPlain.UnderWayIsNeeded | bpf/upf_tc.c:182-190 | for every other n and configuration a packet under way makes the report outgrow some window of no length |
| TcBundle.PackAt | loader/agent.py:153-160 | each packed little-endian word is read back at its offset |
| TcBundle.PackUnpack | loader/agent.py:153-160 | packing is a bijection between u32 sequences and byte strings of whole words |
| TcBundle.BundleRoundTrip | bpf/upf_maps.h:102-115 | what the agent packs into 56 bytes is what the data path reads: flag and both slots |
| TcBundle.LiveBytes | bpf/upf_tc.c:282-283 | which bytes of the value a packet acts on: the little-endian words from offset 32 if byte 0 is odd, from offset 8 otherwise |
| TcBundle.ModifyIsRecordUpdate | loader/agent.py:188-215 | a modification raises exactly when the record update is out of range; its first write is invisible, its second makes exactly the update visible |
| TcBundle.ModifyFields | loader/agent.py:188-215 | field by field: a modification raises exactly when a given value does not fit 32 bits or the generation is 2^32 - 1; otherwise its second write shows each given field, each other field as it was and the next generation |
| TcBundle.ModificationsRefineRecord | loader/agent.py:169-215 | after any calls the stored bytes decode to the record with the same calls applied |
| TcBundle.OverridesFold | loader/agent.py:198-215 | n calls in range leave each field at the last value given for it, and the generation n higher |
| BundleHistory.DecisionsAreCommitted | bpf/upf_tc.c:272-283 | over all interleavings of installs, removals, modifications and packets, each decision is one committed tuple, a generation names one tuple per install, and generations never go back |
| BundleHistory.NeverBlocked | bpf/upf_tc.c:272-283 | no guard of the machine keeps a packet from its lookup or a modification from its next write |
| BundleWordSafety.StepKeepsInv | loader/agent.py:207-213 | each single-word write, in any order, keeps the live slot whole and every word an untouched reader holds in agreement with its tuple |
| BundleWordSafety.WordReadersSeeCommits | bpf/upf_tc.c:282-283 | every word a reader has loaded, whichever and in whatever order, belongs to the tuple committed when it read the flag, unless a later step 1 wrote its slot, which needs another commit first |
| BundleWordSafety.NeverBlocked | loader/agent.py:207-213 | a copy can always go on with any word not yet copied, and a reader can load any word of its slot |
| BundleTearing.OvertakenReaderTears | loader/agent.py:207-213 | the condition is needed: a reader overtaken by two modifications can hold a tuple nobody committed |
| Checksum.IpChecksum20 | bpf/upf_tc_egress.c:31-41 | the unrolled two-fold loop returns the complement of the one's-complement sum |
| Checksum.HeaderWords | bpf/upf_tc_egress.c:34-37 | the ten words of a header: even bytes once, odd bytes 256 times |
| Checksum.IpCsum | test/gtpu_blast.c:44-50 | so does the loop-until-no-carry version, for data of any length, on a 32-bit accumulator; both loops terminate |
| Checksum.FoldKeepsOnesSum | bpf/upf_tc_egress.c:38-39 | one fold keeps the residue modulo 0xffff and shrinks anything wider than 16 bits |
| Checksum.TwoFoldsSuffice | bpf/upf_tc_egress.c:38-39 | two folds finish on every 32-bit sum |
| Checksum.LoopFoldIsOnesSum | test/gtpu_blast.c:48 | the folding loop computes the one's-complement sum |
| Checksum.FixedFoldsEqualLoop | bpf/upf_tc_egress.c:34-40 | on every 20-byte header the two versions agree and the accumulator does not overflow |
| Checksum.StoredChecksumVerifies | bpf/upf_tc_egress.c:128-131 | a header carrying its checksum sums to 0xffff (section 2 of RFC 1071) |
| Checksum.ByteOrderIndependent | bpf/upf_tc_egress.c:31-41 | summing byte-swapped words gives the byte-swapped result |
| Checksum.VerifiesInNetworkOrder | bpf/upf_tc_egress.c:128-131 | a receiver that sums in network order accepts the header too |
| Frames.ParsersAgree | bpf/upf_xdp.c:24-80 | the XDP and TC parsers accept exactly the G-PDUs, described byte by byte, with the same TEID and the outer length that follows from the header length |
| Frames.EncapsulateThenDecapsulate | bpf/upf_tc_egress.c:59-146 | for every frame the egress hook wraps, both parsers recover the UE's TEID, stripping the computed length restores every byte, and a second egress pass leaves the frame alone |
| Frames.LengthFields | bpf/upf_tc_egress.c:116-144 | the IP, UDP and GTP lengths are right exactly when they fit 16 bits (section 3.1 of RFC 791, RFC 768, section 5.1 of 3GPP TS 29.281), and the checksum verifies in either byte order |
| Frames.EncapsulatedFrame | bpf/upf_tc_egress.c:86-144 | every byte of an encapsulated frame but the checksum: Ethernet header kept, outer IPv4 from the configured address to the gNB with TTL 64, UDP between ports 2152, GTP-U flags 0x30 and type 0xff with the UE's TEID, lengths cut to 16 bits, then the user's packet |
| FrameClasses.OneKind | bpf/upf_xdp.c:24-80 | every frame is of exactly one of six kinds told from its bytes: truncated, not IPv4 or not UDP, another port, short GTP-U, another message, G-PDU |
| FrameClasses.EgressByDestination | bpf/upf_tc_egress.c:49-77 | a frame is wrapped for a UE if and only if it is IPv4, is not UDP to 2152 and its destination bytes 30 to 33 are an address mapped to that UE; it counts as a miss if and only if no mapped address is its destination; every other frame is left alone |
| EgressHook.Skb.Grow | bpf/upf_tc_egress.c:86-93 | room after the Ethernet header with arbitrary content, or an untouched buffer |
| EgressHook.Skb.Shrink | bpf/upf_tc.c:169-173 | bytes dropped after the Ethernet header, or an untouched buffer |
| EgressHook.WriteOuter | bpf/upf_tc_egress.c:95-144 | field-by-field stores leave exactly the outer headers and change nothing else |
| EgressHook.Hook.TcEgress | bpf/upf_tc_egress.c:43-147 | verdict, counters and every byte of the frame in each case: not ours, unknown UE, refused room, grown packet not within data_end, encapsulated; `FrameClasses.EgressByDestination` and `Frames.EncapsulatedFrame` say which frames and which bytes these are |
| EgressHook.Hook.AddHeaders | bpf/upf_tc_egress.c:79-146 | configuration lookup, room, re-derived bounds and headers, with the counter and the frame each way out |
| Metrics.BumpsMoveTotals | bpf/upf_maps.h:329-333 | a hook's bumps on any CPU move the totals by exactly their number |
| Metrics.BumpsStore | bpf/upf_maps.h:309-333 | the stored u64 counters are the exact counts modulo 2^64 after any bumps |
| Metrics.ReadMetric | loader/agent.py:237-250 | the agent's total is the sum over the CPUs |
| Metrics.ReportIsExact | loader/agent.py:237-250 | the report is the exact total as long as no CPU has bumped the counter 2^64 times |
| ConservationLaws.AdvanceBumpsShare | bpf/upf_tc.c:164-321 | each step of either hook, whatever the maps hold, bumps exactly the counters its new stage owes, and a G-PDU of the XDP hook is never foreign to the TC hook |
| ConservationLaws.CountersBalance | bpf/upf_tc.c:222-321 | in every reachable state under arbitrary map writes: HIT = MISS_FAR + FAR_DROP + FAR_BUFFER + DECAP_ERR + QER_DROP + QER_PASS + undecided; QER_PASS = FAR_FORWARD + admitted; RX_GPDU = HIT + MISS_TEID + MISS_PDR + in the XDP hook; REDIRECT_ERR <= FAR_FORWARD |
| ControlPlane.ActKeepsResolving | loader/agent.py:218-232 | each single map operation, successful, failed or evicting, keeps every installed TEID resolving to a PDR and a bundle |
| ControlPlane.RemoveIsSafeExactlyWhen | loader/agent.py:229-232 | all three deletes keep that if and only if no other TEID uses the PDR |
| ControlPlane.InstallIsAllOrNothing | loader/agent.py:218-226 | a session becomes visible exactly when all six numbers fit 32 bits and both tables have the PDR or fewer than 4096 entries, and then with session, PDR entry and live bundle as given, field by field, generation 0; in no case is another PDR or any FAR touched |
| ControlPlane.ModifyOutcome | loader/agent.py:207-213 | an undisturbed modification leaves its second write and no other change |
| ControlPlane.ModifyVisible | loader/agent.py:188-215 | exactly when a modification goes ahead, and that packets then see the record update under the same keys |
| ZeroDowntime.EveryTeidResolves | bpf/upf_maps.h:225-293 | after every single operation of any sequence of commands, with full maps and evictions, every TEID resolves |
| ZeroDowntime.InstalledSessionsNeverMiss | bpf/upf_tc.c:266-281 | a packet misses TEID, PDR or bundle only if its session was absent, removed, evicted or redirected at some time since it arrived |
| ZeroDowntime.PdrMissedOnlyAfterDelete | bpf/upf_xdp.c:85-97 | a packet misses its PDR or bundle only if its session changed after the lookup that gave it the PDR id |
| SessionCommits.PacketsActOnCommits | loader/agent.py:163-232 | over all maps and sessions, each tuple a packet acts on was committed as one unit for the PDR it looked up, and successive lookups of a PDR never go back to an earlier commit |
| Agent.PfcpAgent.InstallSession | loader/agent.py:218-226 | the statements run the specified operations; success exactly under that condition, and then every field as given; failure exposes no TEID; every other PDR's entry and bundle unchanged either way |
| Agent.PfcpAgent.RemoveSession | loader/agent.py:229-232 | each of the three tables afterwards: without the key, and otherwise unchanged; numbers that do not fit 32 bits end the command before the deletes they are for |
| Agent.PrepareWrites | loader/agent.py:191-205 | the slot arithmetic on the looked-up bytes gives the two specified values |
| Agent.PfcpAgent.ModifyTcBundle | loader/agent.py:169-215 | raises exactly when it should and then writes nothing; else the live tuple is the record update, the generation is returned, and other keys are untouched |
| UplinkHooks.ParseGtpu | bpf/upf_tc.c:229-264 | the early returns compute the specified parse, and the outer length lies inside the frame |
| UplinkSpec.XdpRuns | bpf/upf_xdp.c:17-106 | for each kind of frame, the verdict and exactly the counters of the XDP hook; a G-PDU passes if and only if its TEID and then its PDR are installed |
| UplinkSpec.TcRuns | bpf/upf_tc.c:266-321 | the steps of the TC hook, run to the end on maps that stay as they are, give a verdict and counters if and only if they are those stated on the maps: no session, bundle or FAR passes and counts MISS_FAR; action 0 drops and counts FAR_DROP; action 2 drops and counts FAR_BUFFER; any other goes on |
| UplinkHooks.Upf.ParseXdp | bpf/upf_xdp.c:24-80 | the early returns compute the specified parse and count what it says |
| UplinkHooks.Upf.XdpUplink | bpf/upf_xdp.c:17-106 | verdict and exact counters for each kind of frame told from its bytes: truncated frames drop and count DROP_PARSE, foreign ones pass uncounted, other ports and messages pass as PASS_NONGTP and PASS_CTRL, G-PDUs pass exactly if TEID and PDR are installed |
| UplinkHooks.Upf.TcIngress | bpf/upf_tc.c:222-321 | in either build, on the maps: no session, bundle or FAR returns TC_ACT_OK with one MISS_FAR; action 0 TC_ACT_SHOT with one FAR_DROP; action 2 TC_ACT_SHOT with one FAR_BUFFER; any other action strips, polices, meters and redirects, with the counters of each way out; a packet that does not get there is unchanged and spends no token or usage |
| UplinkHooks.Upf.Decide | bpf/upf_tc.c:266-314 | the lookups from the session to the FAR's action, with the same four answers |
| UplinkHooks.Upf.Police | bpf/upf_tc.c:46-134 | the answer of the build at hand on one rate-limited bucket, and every other bucket untouched; an older stamp earns nothing in the shared build and a second's worth in the other |
| UplinkHooks.Upf.PoliceAndMeter | bpf/upf_tc.c:182-190 | in either build, accounting happens exactly when the bucket admits, with the same length |
| UplinkHooks.Upf.FarForwardPath | bpf/upf_tc.c:164-219 | strip, second far_table lookup, police, meter and redirect, each only if the one before succeeded |
| NetlinkRoundTrip.WalkReadsBack | results_native/gtp5g_baseline/gtp5g_genl.py:143-154 | walking the printed bytes of any list of attributes, wherever they lie, visits exactly those attributes in order and ends exactly at their end, if and only if the list does not end in an empty family id at the end of the buffer |
| NetlinkRoundTrip.StepsAligned | results_native/gtp5g_baseline/gtp5g_genl.py:146-154 | on any buffer the walk advances by multiples of four, stays below the end, and so terminates within a quarter as many turns as bytes |
| NetlinkRoundTrip.JoinAligned | results_native/gtp5g_baseline/gtp5g_genl.py:91-100 | any joined list of attributes is a whole number of four-byte words |
| NetlinkRoundTrip.ChildrenAligned | results_native/gtp5g_baseline/gtp5g_genl.py:99-100 | attributes inside an attribute keep its alignment, at any depth |
| NetlinkNesting.NestedStarts | results_native/gtp5g_baseline/gtp5g_genl.py:99-100 | a nested attribute needs no padding: its length word covers all of it |
| NetlinkNesting.NestedReadsBack | results_native/gtp5g_baseline/gtp5g_genl.py:99-100 | the same loop run inside a nested attribute visits exactly the children |
| NetlinkRoundTrip.ReplyResolves | results_native/gtp5g_baseline/gtp5g_genl.py:136-157 | a well-formed reply resolves to the last family id it announces, else to the id already held, else to "not found" |
| NetlinkBytes.PackedBytes | results_native/gtp5g_baseline/gtp5g_genl.py:91-96 | the bytes of a printed attribute: little-endian length and kind, payload, zeros up to a multiple of four; which attributes can be printed |
| NetlinkBytes.WalkedExactly | results_native/gtp5g_baseline/gtp5g_genl.py:143-154 | on any buffer, well-formed or not, there is exactly one walk by the bytes' own lengths rounded up to four, with its end (nothing left, a length below four, a read outside the buffer), and it is the loop's |
| NetlinkBytes.LastOneWins | results_native/gtp5g_baseline/gtp5g_genl.py:149-151 | the family id left after the turns is the one read last, or the one held if none was |
| NetlinkBytes.KernelErrors | results_native/gtp5g_baseline/gtp5g_genl.py:137-139 | a reply of type 2 that carries -e raises OSError(e), and the family id stays |
| NetlinkBytes.TruncatedReplies | results_native/gtp5g_baseline/gtp5g_genl.py:130-138 | a reply that ends inside its header or its error code raises, and the family id stays |
| NetlinkBytes.OtherReplies | results_native/gtp5g_baseline/gtp5g_genl.py:140-157 | any other reply is walked from byte 20 to the length in its first word, and answered by how the walk ends and the last id seen |
| GenlSocketState.GenlSocket.ResolveFamily | results_native/gtp5g_baseline/gtp5g_genl.py:136-157 | on any reply the loop gives the specified answer and leaves the specified family id, short replies and kernel errors included |

## Left out

- Kernel internals: each map lookup, update and delete is one atomic step with a stated capacity; RCU, map-pointer lifetimes and LRU victim selection are not modelled, evictions are arbitrary.
- What `far_table` and `qer_table` entries mean while they are edited in place: the bundle guarantees ids only (`bpf/upf_maps.h:97-101`). Bucket runs keep one QER configuration throughout.
- Concurrent control-plane writers: the agent runs one command at a time.
- QERs with mbr 0 in runs: the code never gives them a bucket; the methods of `QerState.QerMaps` state that they are admitted.
- `install_qer` and the other single-write installers of `loader/agent.py:106-133`: one packed value, one map update.
- Perf events, latency probes, `loader/bpf_syscall.py`, bpftool dumps, the HTTP and Prometheus endpoints, benchmarks, traffic generators apart from `ip_csum`, plots and results.
- Non-linear packets at parse time: parsers see the whole frame before data_end; only the egress hook's re-derived bounds are modelled as able to fail.
- GTP-U extension headers, IPv6 and fragments: the code strips exactly 8 GTP-U bytes and ignores the flags.
- UrrAccounting.UrrConservation: assumes at most MAX_URRS ids, no deletes and fewer than 2^64 bytes metered for the id; without the last the stored value is the count modulo 2^64 (`UrrAccounting.StepKeepsStored`).
- UrrMaps.UrrMap.ReadUrr: the dump of the map is one step, as seen by one reader; a dump that interleaves with updates is not modelled.
- Metrics.BumpsMoveTotals: speaks of exact counts; `Metrics.BumpsStore` and `Metrics.ReportIsExact` relate them to the 64-bit counters, as they do for `ConservationLaws.CountersBalance`.
- UplinkHooks.Upf.TcIngress: the hook runs with no other CPU in between; `ConservationLaws.CountersBalance`, `ZeroDowntime.InstalledSessionsNeverMiss` and `SessionCommits.PacketsActOnCommits` cover the interleavings.
- ZeroDowntime.InstalledSessionsNeverMiss: sessions are removed with a PDR that no other session uses, which `ControlPlane.RemoveIsSafeExactlyWhen` shows is needed.
- GenlSocketState.GenlSocket.ResolveFamily: begins at the received reply; sending the request and the text of the exceptions are not modelled. Native byte order is little-endian.
- ConservationLaws.CountersBalance: RX_TOTAL and the counters of packets that are not G-PDUs follow from `UplinkHooks.Upf.XdpUplink` packet by packet and are not summed over runs.
