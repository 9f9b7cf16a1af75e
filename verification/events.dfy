/** The recorded events, with the fields that detection and attribution read. */
module Events {

  datatype Option<+T> = None | Some(value: T)

  type Rank = nat

  datatype Event =
    | GPUMetric(ts: int, rank: Rank, utilization: real, memBandwidth: real, eccSBE: nat, eccDBE: nat,
                smClockMHz: real, throttleReasons: bv64, computeProcs: int)
    | NCCL(ts: int, rank: Rank, pg: string, seqId: nat, op: string, dur: int)
    | PCIe(ts: int, rank: Rank, readMBs: real, writeMBs: real)
    | NVLink(ts: int, rank: Rank, throughputGB: real)
    | Thermal(ts: int, rank: Rank, throttleActive: bool)

  /** NCCLCollectiveEvent: one rank's part of one collective. */
  type Collective = e: Event | e.NCCL? witness NCCL(0, 0, "", 0, "", 0)

  datatype GroupKey = GroupKey(pg: string, seqId: nat)

  type Group = map<Rank, Collective>

  type Groups = map<GroupKey, Group>

  /** math.Sqrt on a count. The library function is a parameter of the model; the proofs use no more
      of it than that it is positive on positive counts and never decreases. */
  type Root = f: nat -> real | RootLike(f) witness (n: nat) => n as real

  ghost predicate RootLike(f: nat -> real) {
    && (forall n: nat :: 0 < n ==> f(n) > 0.0)
    && (forall m: nat, n: nat :: m <= n ==> f(m) <= f(n))
  }

  datatype Config = Config(
    thresholdSigma: real,
    lookback: int,
    minRanks: int,
    blockSize: int,
    minHits: int,
    minHitFraction: real,
    jitterFloor: real,
    root: Root)

  function DefaultConfig(thresholdSigma: real, root: Root): Config {
    Config(thresholdSigma, 60_000_000_000, 2, 30, 2, 0.5, 0.05, root)
  }
}
