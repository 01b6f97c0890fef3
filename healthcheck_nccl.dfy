/** The collective-verification probe strategy (HealthcheckNCCL): topology
    validation, the host pairing that places each rank in a two-host group per
    side, the rendezvous store prefix, the per-side stream and process-group
    vectors that `setup` appends to, and the result check of one all-reduce.
    CUDA streams, the NCCL process group and the key-value store are opaque
    handles; the all-reduce result arrives as an input. */
module HealthcheckNccl {
  import opened Wrappers
  import Decimal
  import opened Arith

  // ---------------------------------------------------------------------------
  // C++ integer division and remainder (truncation toward zero)
  // ---------------------------------------------------------------------------

  function Abs(a: int): nat { if a < 0 then -a else a }

  /** `a / b` on C++ `int`: the quotient of the magnitudes, negated when the
      operands have opposite signs (truncation toward zero). */
  function CppDiv(a: int, b: int): int
    requires b != 0
  {
    if a >= 0 && b > 0 then a / b
    else if a >= 0 then -(a / -b)
    else if b > 0 then -((-a) / b)
    else (-a) / (-b)
  }

  /** `a % b` on C++ `int`: the remainder of the magnitudes, carrying the
      sign of the dividend. */
  function CppRem(a: int, b: int): int
    requires b != 0
  {
    if a >= 0 then a % Abs(b) else -((-a) % Abs(b))
  }

  /** The C++ rules: `(a / b) * b + a % b == a`, the remainder is smaller
      than the divisor in magnitude and never has the opposite sign of the
      dividend. */
  lemma CppRemSign(a: int, b: int)
    requires b != 0
    ensures a == b * CppDiv(a, b) + CppRem(a, b)
    ensures Abs(CppRem(a, b)) < Abs(b)
    ensures a >= 0 ==> CppRem(a, b) >= 0
    ensures a <= 0 ==> CppRem(a, b) <= 0
  {
    if a >= 0 && b > 0 {
    } else if a >= 0 {
      RemNegativeDivisor(a, b);
    } else if b > 0 {
      RemNegativeDividend(a, b);
    } else {
      RemBothNegative(a, b);
    }
  }

  lemma RemNegativeDivisor(a: int, b: int)
    requires a >= 0 && b < 0
    ensures a == b * CppDiv(a, b) + CppRem(a, b) && 0 <= CppRem(a, b) < -b
  {
    var q := a / -b;
    assert CppDiv(a, b) == -q && CppRem(a, b) == a % -b;
    NegSwap(b, q);
  }

  lemma RemNegativeDividend(a: int, b: int)
    requires a < 0 && b > 0
    ensures a == b * CppDiv(a, b) + CppRem(a, b) && -b < CppRem(a, b) <= 0
  {
    var q := -a / b;
    assert CppDiv(a, b) == -q && CppRem(a, b) == -(-a % b);
    NegSwap(b, q);
  }

  lemma RemBothNegative(a: int, b: int)
    requires a < 0 && b < 0
    ensures a == b * CppDiv(a, b) + CppRem(a, b) && b < CppRem(a, b) <= 0
  {
    var q := -a / -b;
    assert CppDiv(a, b) == q && CppRem(a, b) == -(-a % -b);
    NegSwap(b, q);
  }

  lemma NegSwap(x: int, y: int)
    ensures x * -y == -x * y == -(x * y)
  {
  }

  /** On non-negative operands the C++ operators agree with `/` and `%`. */
  lemma CppOnNonNegative(a: int, b: int)
    requires a >= 0 && b > 0
    ensures CppDiv(a, b) == a / b && CppRem(a, b) == a % b
  {
  }

  // ---------------------------------------------------------------------------
  // Topology validation (the constructor's three checks, in order)
  // ---------------------------------------------------------------------------

  datatype ConfigError =
    | WorldNotDivisible  // "World size must be divisible by local world size"
    | RankNotBelowWorld  // "Rank must be less than world size"
    | TooFewHosts        // "At least two hosts are required"

  /** The topology invariant of a constructed strategy. */
  predicate ValidTopology(rank: int, worldSize: int, localWorldSize: int)
    requires localWorldSize != 0
  {
    && CppRem(worldSize, localWorldSize) == 0
    && rank < worldSize
    && CppDiv(worldSize, localWorldSize) >= 2
  }

  /** The constructor's checks: the first failing one decides the error. */
  function CheckTopology(rank: int, worldSize: int, localWorldSize: int): (r: Outcome<ConfigError>)
    requires localWorldSize != 0
    ensures r.Pass? <==> ValidTopology(rank, worldSize, localWorldSize)
    ensures r == Fail(WorldNotDivisible) <==> CppRem(worldSize, localWorldSize) != 0
    ensures r == Fail(RankNotBelowWorld) <==>
              CppRem(worldSize, localWorldSize) == 0 && rank >= worldSize
    ensures r == Fail(TooFewHosts) <==>
              CppRem(worldSize, localWorldSize) == 0 && rank < worldSize &&
              CppDiv(worldSize, localWorldSize) < 2
  {
    if CppRem(worldSize, localWorldSize) != 0 then Fail(WorldNotDivisible)
    else if rank >= worldSize then Fail(RankNotBelowWorld)
    else if CppDiv(worldSize, localWorldSize) < 2 then Fail(TooFewHosts)
    else Pass
  }

  /** With a positive local world size, a valid topology leaves room for two
      full hosts, so `2 * localWorldSize` cannot exceed the world size (and
      hence cannot overflow a 32-bit `int` when the world size does not). */
  lemma ValidTopologyHasTwoHosts(rank: int, worldSize: int, localWorldSize: int)
    requires localWorldSize > 0
    requires ValidTopology(rank, worldSize, localWorldSize)
    ensures worldSize == localWorldSize * (worldSize / localWorldSize)
    ensures 2 * localWorldSize <= worldSize
  {
    CppRemSign(worldSize, localWorldSize);
    var h := CppDiv(worldSize, localWorldSize);
    assert worldSize == localWorldSize * h;
    assert localWorldSize * h >= localWorldSize * 2;
    CppOnNonNegative(worldSize, localWorldSize);
  }

  // ---------------------------------------------------------------------------
  // Host pairing computed by setup(side)
  // ---------------------------------------------------------------------------

  datatype Pairing = Pairing(hostRank: int, hostCount: int, group: int, groupSize: int, groupRank: int)

  /** `hostRank = rank / lws`, `hostCount = ws / lws`,
      `group = (hostRank + side) % hostCount / 2`, `groupSize = 2 * lws`,
      `groupRank = rank % groupSize`, all with C++ operators. */
  function PairingFor(rank: int, worldSize: int, localWorldSize: int, side: int): (p: Pairing)
    requires localWorldSize != 0 && CppDiv(worldSize, localWorldSize) != 0
    ensures p.groupSize == 2 * localWorldSize
    ensures rank >= 0 && localWorldSize > 0 && side >= 0 && ValidTopology(rank, worldSize, localWorldSize) ==>
              && 0 <= p.hostRank < p.hostCount
              && 0 <= p.groupRank < p.groupSize
              && 0 <= p.group <= (p.hostCount - 1) / 2
  {
    var hostRank := CppDiv(rank, localWorldSize);
    var hostCount := CppDiv(worldSize, localWorldSize);
    var group := CppDiv(CppRem(hostRank + side, hostCount), 2);
    var groupSize := 2 * localWorldSize;
    var groupRank := CppRem(rank, groupSize);
    PairingBoundsHold(rank, worldSize, localWorldSize, side, hostRank, hostCount, group, groupRank);
    Pairing(hostRank, hostCount, group, groupSize, groupRank)
  }

  lemma PairingBoundsHold(rank: int, worldSize: int, localWorldSize: int, side: int,
                          hostRank: int, hostCount: int, group: int, groupRank: int)
    requires localWorldSize != 0 && CppDiv(worldSize, localWorldSize) != 0
    requires hostRank == CppDiv(rank, localWorldSize) && hostCount == CppDiv(worldSize, localWorldSize)
    requires group == CppDiv(CppRem(hostRank + side, hostCount), 2)
    requires groupRank == CppRem(rank, 2 * localWorldSize)
    ensures rank >= 0 && localWorldSize > 0 && side >= 0 && ValidTopology(rank, worldSize, localWorldSize) ==>
              && 0 <= hostRank < hostCount
              && 0 <= groupRank < 2 * localWorldSize
              && 0 <= group <= (hostCount - 1) / 2
  {
    if rank >= 0 && localWorldSize > 0 && side >= 0 && ValidTopology(rank, worldSize, localWorldSize) {
      ValidTopologyHasTwoHosts(rank, worldSize, localWorldSize);
      CppOnNonNegative(rank, localWorldSize);
      CppOnNonNegative(worldSize, localWorldSize);
      CppOnNonNegative(rank, 2 * localWorldSize);
      DivMonotone(rank, worldSize, localWorldSize);
      CppOnNonNegative(hostRank + side, hostCount);
      CppOnNonNegative(CppRem(hostRank + side, hostCount), 2);
    }
  }

  lemma DivMonotone(a: int, b: int, d: int)
    requires 0 <= a < b && d > 0 && b % d == 0
    ensures a / d < b / d
  {
  }

  // ---------------------------------------------------------------------------
  // Group membership: even host counts pair hosts exactly, odd ones do not
  // ---------------------------------------------------------------------------

  /** Positive topology shape used by the membership lemmas. */
  predicate Hosts(worldSize: int, localWorldSize: int)
  {
    localWorldSize > 0 && worldSize % localWorldSize == 0 && worldSize / localWorldSize >= 2
  }

  lemma HostsValid(rank: int, worldSize: int, localWorldSize: int)
    requires Hosts(worldSize, localWorldSize) && 0 <= rank < worldSize
    ensures ValidTopology(rank, worldSize, localWorldSize)
    ensures CppDiv(worldSize, localWorldSize) == worldSize / localWorldSize >= 2
  {
    CppOnNonNegative(worldSize, localWorldSize);
  }

  /** The `group` of `PairingFor` on a positive topology, written with the
      mathematical operators (see `PairingMatchesGroupOf`). */
  function GroupOf(rank: int, worldSize: int, localWorldSize: int, side: int): int
    requires Hosts(worldSize, localWorldSize)
  {
    ((rank / localWorldSize + side) % (worldSize / localWorldSize)) / 2
  }

  /** The `groupRank` of `PairingFor` on a positive topology. */
  function GroupRankOf(rank: int, localWorldSize: int): int
    requires localWorldSize > 0
  {
    rank % (2 * localWorldSize)
  }

  lemma PairingMatchesGroupOf(rank: int, worldSize: int, localWorldSize: int, side: int)
    requires Hosts(worldSize, localWorldSize) && rank >= 0 && side >= 0
    ensures CppDiv(worldSize, localWorldSize) != 0
    ensures PairingFor(rank, worldSize, localWorldSize, side).group == GroupOf(rank, worldSize, localWorldSize, side)
    ensures PairingFor(rank, worldSize, localWorldSize, side).groupRank == GroupRankOf(rank, localWorldSize)
  {
    var L := localWorldSize;
    HostsValid(0, worldSize, L);
    var H := worldSize / L;
    CppOnNonNegative(rank, L);
    CppOnNonNegative(rank, 2 * L);
    CppOnNonNegative(rank / L + side, H);
    CppOnNonNegative((rank / L + side) % H, 2);
  }

  /** A rank's pairing in terms of its host `h` and local index `l`. */
  lemma PairingOfHost(worldSize: int, localWorldSize: int, side: int, h: int, l: int)
    requires Hosts(worldSize, localWorldSize) && 0 <= side
    requires 0 <= h < worldSize / localWorldSize && 0 <= l < localWorldSize
    ensures 0 <= h * localWorldSize + l < worldSize
    ensures GroupOf(h * localWorldSize + l, worldSize, localWorldSize, side) ==
              ((h + side) % (worldSize / localWorldSize)) / 2
    ensures GroupRankOf(h * localWorldSize + l, localWorldSize) == (h % 2) * localWorldSize + l
  {
    var L := localWorldSize;
    var H := worldSize / L;
    assert worldSize == L * H;
    MulMonotone(h + 1, H, L);
    assert h * L + l < (h + 1) * L;
    LocalSplit(h, l, L);
  }

  lemma LocalSplit(h: int, l: int, L: int)
    requires h >= 0 && L > 0 && 0 <= l < L
    ensures (h * L + l) / L == h
    ensures (h * L + l) % (2 * L) == (h % 2) * L + l
  {
    DivModUnique(h * L + l, L, h, l);
    var k, p := h / 2, h % 2;
    assert h * L == (2 * k + p) * L;
    MulDistrib(2 * k, p, L);
    assert (2 * k) * L == (2 * L) * k;
    assert p * L + l < 2 * L by {
      if p == 1 { assert p * L == L; } else { assert p * L == 0; }
    }
    DivModUnique(h * L + l, 2 * L, k, p * L + l);
  }

  /** Every rank decomposes into its host and its local index. */
  lemma HostOfRank(worldSize: int, localWorldSize: int, r: int)
    requires Hosts(worldSize, localWorldSize) && 0 <= r < worldSize
    ensures 0 <= r / localWorldSize < worldSize / localWorldSize
    ensures r == (r / localWorldSize) * localWorldSize + r % localWorldSize
  {
    DivMonotone(r, worldSize, localWorldSize);
  }

  /** With an even host count, the ranks of one `(side, group)` get distinct
      group ranks. */
  lemma {:induction false} EvenHostsGroupRankInjective(worldSize: int, localWorldSize: int, side: int, r1: int, r2: int)
    requires Hosts(worldSize, localWorldSize) && (worldSize / localWorldSize) % 2 == 0
    requires 0 <= side <= 1 && 0 <= r1 < worldSize && 0 <= r2 < worldSize
    requires GroupOf(r1, worldSize, localWorldSize, side) == GroupOf(r2, worldSize, localWorldSize, side)
    requires GroupRankOf(r1, localWorldSize) == GroupRankOf(r2, localWorldSize)
    ensures r1 == r2
  {
    var L := localWorldSize;
    var H := worldSize / L;
    HostOfRank(worldSize, L, r1);
    HostOfRank(worldSize, L, r2);
    var h1, l1 := r1 / L, r1 % L;
    var h2, l2 := r2 / L, r2 % L;
    PairingOfHost(worldSize, L, side, h1, l1);
    PairingOfHost(worldSize, L, side, h2, l2);
    ParityLocalSplit(h1 % 2, l1, h2 % 2, l2, L);
    SameGroupSameHost(H, side, h1, h2);
  }

  lemma ParityLocalSplit(p1: int, l1: int, p2: int, l2: int, L: int)
    requires 0 <= p1 <= 1 && 0 <= p2 <= 1 && 0 <= l1 < L && 0 <= l2 < L
    requires p1 * L + l1 == p2 * L + l2
    ensures p1 == p2 && l1 == l2
  {
    DivModUnique(p1 * L + l1, L, p1, l1);
    DivModUnique(p2 * L + l2, L, p2, l2);
  }

  /** Two hosts of one parity that land in one group are the same host. */
  lemma SameGroupSameHost(H: int, side: int, h1: int, h2: int)
    requires H >= 2 && H % 2 == 0 && 0 <= side <= 1 && 0 <= h1 < H && 0 <= h2 < H
    requires ((h1 + side) % H) / 2 == ((h2 + side) % H) / 2
    requires h1 % 2 == h2 % 2
    ensures h1 == h2
  {
    WrapOnce(h1 + side, H);
    WrapOnce(h2 + side, H);
  }

  /** A shift by at most one host wraps at most once. */
  lemma WrapOnce(x: int, H: int)
    requires H > 0 && 0 <= x <= H
    ensures x % H == if x < H then x else 0
  {
    if x < H { DivModUnique(x, H, 0, x); } else { DivModUnique(x, H, 1, 0); }
  }

  /** With an even number `H` of hosts, the host of parity `p` that the
      rotation by `side` puts into group `g`. */
  function HostOfGroup(H: int, side: int, g: int, p: int): (h: int)
    requires H % 2 == 0 && 0 <= side <= 1 && 0 <= g < H / 2 && 0 <= p <= 1
    ensures 0 <= h < H && h % 2 == p && ((h + side) % H) / 2 == g
  {
    var h := if side == 0 then 2 * g + p else if p == 0 then 2 * g else if g > 0 then 2 * g - 1 else H - 1;
    WrapOnce(h + side, H);
    h
  }

  /** With an even host count, every group rank `0 .. 2*lws-1` of every
      `(side, group)` is taken by some rank: the group holds exactly two
      hosts' worth of participants, as `groupSize = 2 * lws` assumes. */
  lemma EvenHostsGroupRankCover(worldSize: int, localWorldSize: int, side: int, g: int, q: int)
    requires Hosts(worldSize, localWorldSize) && (worldSize / localWorldSize) % 2 == 0
    requires 0 <= side <= 1 && 0 <= g < (worldSize / localWorldSize) / 2 && 0 <= q < 2 * localWorldSize
    ensures exists r :: 0 <= r < worldSize && GroupOf(r, worldSize, localWorldSize, side) == g &&
                        GroupRankOf(r, localWorldSize) == q
  {
    var L := localWorldSize;
    var H := worldSize / L;
    if q < L {
      var h := HostOfGroup(H, side, g, 0);
      CoverWitness(worldSize, L, side, h, q, h * L + q);
      assert (h % 2) * L + q == q by { assert (h % 2) * L == 0 * L == 0; }
    } else {
      var h := HostOfGroup(H, side, g, 1);
      CoverWitness(worldSize, L, side, h, q - L, h * L + (q - L));
      assert (h % 2) * L + (q - L) == q by { assert (h % 2) * L == 1 * L; }
    }
  }

  /** Rank `h * lws + l` lies in the group and at the group rank that its
      host `h` and local rank `l` give it. */
  lemma CoverWitness(worldSize: int, localWorldSize: int, side: int, h: int, l: int, r: int)
    requires Hosts(worldSize, localWorldSize) && 0 <= side
    requires 0 <= h < worldSize / localWorldSize && 0 <= l < localWorldSize && r == h * localWorldSize + l
    ensures 0 <= r < worldSize
    ensures GroupOf(r, worldSize, localWorldSize, side) == ((h + side) % (worldSize / localWorldSize)) / 2
    ensures GroupRankOf(r, localWorldSize) == (h % 2) * localWorldSize + l
  {
    PairingOfHost(worldSize, localWorldSize, side, h, l);
  }

  /** With an odd host count the pairing breaks on side 1: host 0 and the
      last host both land in group 0 with the same group ranks, e.g. ranks
      0 and 2 of a three-host, one-device-per-host job. */
  lemma OddHostsCollide(worldSize: int, localWorldSize: int)
    requires Hosts(worldSize, localWorldSize) && (worldSize / localWorldSize) % 2 == 1
    ensures var last := (worldSize / localWorldSize - 1) * localWorldSize;
            && 0 < last < worldSize
            && GroupOf(0, worldSize, localWorldSize, 1) == GroupOf(last, worldSize, localWorldSize, 1) == 0
            && GroupRankOf(0, localWorldSize) == GroupRankOf(last, localWorldSize) == 0
  {
    var L := localWorldSize;
    var H := worldSize / L;
    var last := (H - 1) * L;
    HostStart(H - 1, L);
    DivModUnique(0, L, 0, 0);
    DivModUnique(0, 2 * L, 0, 0);
    DivModUnique(1, H, 0, 1);
    DivModUnique(H, H, 1, 0);
    assert GroupOf(0, worldSize, L, 1) == 0;
    assert GroupOf(last, worldSize, L, 1) == 0;
    EvenHostStart(H - 1, (H - 1) / 2, L);
    LastHostBelow(worldSize, L, H);
  }

  /** Host `h` starts at rank `h * L`. */
  lemma HostStart(h: int, L: int)
    requires h >= 0 && L > 0
    ensures (h * L) / L == h && (h * L) % L == 0
  {
    DivModUnique(h * L, L, h, 0);
  }

  /** An even host starts at a multiple of the pair size `2L`. */
  lemma EvenHostStart(h: int, k: int, L: int)
    requires h == 2 * k && k >= 0 && L > 0
    ensures (h * L) % (2 * L) == 0
  {
    assert h * L == (2 * L) * k;
    DivModUnique(h * L, 2 * L, k, 0);
  }

  /** The last of `H >= 2` hosts starts strictly inside the world. */
  lemma LastHostBelow(worldSize: int, L: int, H: int)
    requires L > 0 && worldSize % L == 0 && H == worldSize / L && H >= 2
    ensures 0 < (H - 1) * L < worldSize
  {
    assert worldSize == L * H;
    MulDistrib(H - 1, 1, L);
    MulAtLeast(L, H - 1);
  }

  // ---------------------------------------------------------------------------
  // Rendezvous store prefix
  // ---------------------------------------------------------------------------

  /** `fmt::format("/healthcheck/{}/{}", side, group)`. */
  function StorePrefix(side: int, group: int): string
  {
    "/healthcheck/" + (Decimal.IntToString(side) + "/" + Decimal.IntToString(group))
  }

  /** Distinct `(side, group)` pairs rendezvous under distinct prefixes. */
  lemma StorePrefixInjective(s1: int, g1: int, s2: int, g2: int)
    requires StorePrefix(s1, g1) == StorePrefix(s2, g2)
    ensures s1 == s2 && g1 == g2
  {
    var head := "/healthcheck/";
    var t1 := Decimal.IntToString(s1) + "/" + Decimal.IntToString(g1);
    var t2 := Decimal.IntToString(s2) + "/" + Decimal.IntToString(g2);
    DropHead(head, t1);
    DropHead(head, t2);
    Decimal.IntToStringNoSlash(s1);
    Decimal.IntToStringNoSlash(s2);
    SplitAtSlash(Decimal.IntToString(s1), Decimal.IntToString(g1),
                 Decimal.IntToString(s2), Decimal.IntToString(g2));
    Decimal.IntToStringInjective(s1, s2);
    Decimal.IntToStringInjective(g1, g2);
  }

  lemma DropHead(head: string, t: string)
    ensures (head + t)[|head|..] == t
  {
  }

  lemma SplitAtSlash(a: string, b: string, c: string, d: string)
    requires '/' !in a && '/' !in c
    requires a + "/" + b == c + "/" + d
    ensures a == c && b == d
  {
    var x := a + "/" + b;
    assert x[|a|] == '/' && x[|c|] == '/';
    assert forall i :: 0 <= i < |a| ==> x[i] == a[i];
    assert forall i :: 0 <= i < |c| ==> x[i] == c[i];
    assert a == x[..|a|];
    assert c == x[..|c|];
    assert b == x[|a| + 1..];
    assert d == x[|c| + 1..];
  }

  // ---------------------------------------------------------------------------
  // The strategy object
  // ---------------------------------------------------------------------------

  /** A CUDA stream created for one side (the handle is opaque). */
  datatype Stream = Stream(handle: nat, device: int)

  /** A process group as constructed: its prefixed store, rank and size. */
  datatype ProcessGroup = ProcessGroup(storePrefix: string, groupRank: int, groupSize: int)

  datatype SetupError = RendezvousFailed

  datatype ProbeError =
    | SideNotSetUp      // std::out_of_range from vector::at
    | CollectiveRaised  // allreduce or wait raised
    | InvalidResults    // "Health check all reduce returned invalid results"

  /** What the all-reduce delivered: the reduced value or an exception. */
  datatype Collective = Reduced(value: int) | CollectiveError

  class HealthcheckNCCL {
    const rank: int
    const worldSize: int
    const localWorldSize: int
    const deviceIndex: int
    var streams: seq<Stream>
    var processGroups: seq<ProcessGroup>

    predicate Valid()
    {
      localWorldSize != 0 && ValidTopology(rank, worldSize, localWorldSize)
    }

    /** The process group that `setup(side)` constructs. */
    function GroupFor(side: int): (pg: ProcessGroup)
      requires Valid()
    {
      var p := PairingFor(rank, worldSize, localWorldSize, side);
      ProcessGroup(StorePrefix(side, p.group), p.groupRank, p.groupSize)
    }

    constructor (rank: int, worldSize: int, localWorldSize: int, deviceIndex: int)
      requires localWorldSize != 0 && ValidTopology(rank, worldSize, localWorldSize)
      ensures Valid()
      ensures this.rank == rank && this.worldSize == worldSize
      ensures this.localWorldSize == localWorldSize && this.deviceIndex == deviceIndex
      ensures streams == [] && processGroups == []
    {
      this.rank := rank;
      this.worldSize := worldSize;
      this.localWorldSize := localWorldSize;
      this.deviceIndex := deviceIndex;
      streams := [];
      processGroups := [];
    }

    /** The checking constructor: it raises the first failed check, otherwise
        it yields a strategy with no sides set up. */
    static method Create(rank: int, worldSize: int, localWorldSize: int, deviceIndex: int)
      returns (r: Result<HealthcheckNCCL, ConfigError>)
      requires localWorldSize != 0
      ensures r.Failure? <==> CheckTopology(rank, worldSize, localWorldSize).Fail?
      ensures r.Failure? ==> r.error == CheckTopology(rank, worldSize, localWorldSize).error
      ensures r.Success? ==> fresh(r.value) && r.value.Valid() &&
                             r.value.rank == rank && r.value.worldSize == worldSize &&
                             r.value.localWorldSize == localWorldSize &&
                             r.value.deviceIndex == deviceIndex &&
                             r.value.streams == [] && r.value.processGroups == []
    {
      var check := CheckTopology(rank, worldSize, localWorldSize);
      if check.Fail? {
        return Failure(check.error);
      }
      var h := new HealthcheckNCCL(rank, worldSize, localWorldSize, deviceIndex);
      return Success(h);
    }

    /** `setup(side)`: the new stream is appended first, then the process
        group, whose rendezvous may raise; in that case only the stream was
        appended. */
    method Setup(side: int, streamHandle: nat, rendezvousOk: bool) returns (o: Outcome<SetupError>)
      requires Valid()
      modifies this
      ensures streams == old(streams) + [Stream(streamHandle, deviceIndex)]
      ensures processGroups == if rendezvousOk then old(processGroups) + [GroupFor(side)]
                               else old(processGroups)
      ensures o == if rendezvousOk then Pass else Fail(RendezvousFailed)
    {
      var p := PairingFor(rank, worldSize, localWorldSize, side);
      var prefix := StorePrefix(side, p.group);
      streams := streams + [Stream(streamHandle, deviceIndex)];
      if !rendezvousOk {
        return Fail(RendezvousFailed);
      }
      processGroups := processGroups + [ProcessGroup(prefix, p.groupRank, p.groupSize)];
      return Pass;
    }

    /** `runHealthcheck(side)`: bounds-checked lookup of the side's stream and
        group, one all-reduce of a tensor of ones, and the check that the sum
        equals `2 * localWorldSize`. */
    method RunHealthcheck(side: int, collective: Collective) returns (o: Outcome<ProbeError>)
      ensures o.Pass? <==> 0 <= side < |streams| && side < |processGroups| &&
                           collective == Reduced(2 * localWorldSize)
      ensures o == Fail(SideNotSetUp) <==> !(0 <= side < |streams| && side < |processGroups|)
      ensures o == Fail(CollectiveRaised) <==>
                0 <= side < |streams| && side < |processGroups| && collective.CollectiveError?
      ensures o == Fail(InvalidResults) <==>
                0 <= side < |streams| && side < |processGroups| &&
                collective.Reduced? && collective.value != 2 * localWorldSize
    {
      if !(0 <= side < |streams|) {
        return Fail(SideNotSetUp);
      }
      var stream := streams[side];
      if !(side < |processGroups|) {
        return Fail(SideNotSetUp);
      }
      var pg := processGroups[side];
      match collective {
        case CollectiveError =>
          return Fail(CollectiveRaised);
        case Reduced(v) =>
          if v != 2 * localWorldSize {
            return Fail(InvalidResults);
          }
          return Pass;
      }
    }
  }
}
