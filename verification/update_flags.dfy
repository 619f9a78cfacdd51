/** The update flags of the three controllers, and how many different updates
    a queue can therefore hold. */
module UpdateFlags {
  import opened UpdateQueue

  datatype CAUpdate = CAUpdate(
    specUpdated: bool, caOverridesUpdated: bool, tlscaOverridesUpdated: bool, restartNeeded: bool,
    caCryptoUpdated: bool, caCryptoCreated: bool, renewTLSCert: bool, imagesUpdated: bool,
    fabricVersionUpdated: bool, caTagUpdated: bool)

  datatype PeerUpdate = PeerUpdate(
    specUpdated: bool, overridesUpdated: bool, tlsCertUpdated: bool, ecertUpdated: bool,
    peerTagUpdated: bool, restartNeeded: bool, ecertReenrollNeeded: bool, tlsReenrollNeeded: bool,
    ecertNewKeyReenroll: bool, tlscertNewKeyReenroll: bool, migrateToV2: bool, migrateToV24: bool,
    migrateToV25: bool, mspUpdated: bool, ecertEnroll: bool, tlscertEnroll: bool,
    upgradedbs: bool, tlsCertCreated: bool, ecertCreated: bool, nodeOUUpdated: bool,
    imagesUpdated: bool, fabricVersionUpdated: bool)

  datatype OrdererUpdate = OrdererUpdate(
    specUpdated: bool, statusUpdated: bool, overridesUpdated: bool, tlsCertUpdated: bool,
    ecertUpdated: bool, ordererTagUpdated: bool, restartNeeded: bool, ecertReenrollNeeded: bool,
    tlscertReenrollNeeded: bool, ecertNewKeyReenroll: bool, tlscertNewKeyReenroll: bool, deploymentUpdated: bool,
    mspUpdated: bool, ecertEnroll: bool, tlscertEnroll: bool, tlsCertCreated: bool,
    ecertCreated: bool, migrateToV2: bool, migrateToV24: bool, migrateToV25: bool,
    nodeOUUpdated: bool, imagesUpdated: bool, fabricVersionUpdated: bool)

  function CABits(u: CAUpdate): seq<bool> {
    [u.specUpdated, u.caOverridesUpdated, u.tlscaOverridesUpdated, u.restartNeeded, u.caCryptoUpdated, u.caCryptoCreated,
     u.renewTLSCert, u.imagesUpdated, u.fabricVersionUpdated, u.caTagUpdated]
  }

  function PeerBits(u: PeerUpdate): seq<bool> {
    [u.specUpdated, u.overridesUpdated, u.tlsCertUpdated, u.ecertUpdated, u.peerTagUpdated, u.restartNeeded,
     u.ecertReenrollNeeded, u.tlsReenrollNeeded, u.ecertNewKeyReenroll, u.tlscertNewKeyReenroll, u.migrateToV2, u.migrateToV24,
     u.migrateToV25, u.mspUpdated, u.ecertEnroll, u.tlscertEnroll, u.upgradedbs, u.tlsCertCreated,
     u.ecertCreated, u.nodeOUUpdated, u.imagesUpdated, u.fabricVersionUpdated]
  }

  function OrdererBits(u: OrdererUpdate): seq<bool> {
    [u.specUpdated, u.statusUpdated, u.overridesUpdated, u.tlsCertUpdated, u.ecertUpdated, u.ordererTagUpdated,
     u.restartNeeded, u.ecertReenrollNeeded, u.tlscertReenrollNeeded, u.ecertNewKeyReenroll, u.tlscertNewKeyReenroll, u.deploymentUpdated,
     u.mspUpdated, u.ecertEnroll, u.tlscertEnroll, u.tlsCertCreated, u.ecertCreated, u.migrateToV2,
     u.migrateToV24, u.migrateToV25, u.nodeOUUpdated, u.imagesUpdated, u.fabricVersionUpdated]
  }

  function Pow2(n: nat): (p: nat)
    ensures p > 0
  {
    if n == 0 then 1 else 2 * Pow2(n - 1)
  }

  lemma PowersOfTwo()
    ensures Pow2(10) == 1024 && Pow2(22) == 4_194_304 && Pow2(23) == 8_388_608
  {
    assert Pow2(5) == 32;
    assert Pow2(10) == 1024;
    assert Pow2(15) == 32768;
    assert Pow2(20) == 1_048_576;
  }

  function BitsToNat(bs: seq<bool>): (n: nat)
    ensures n < Pow2(|bs|)
  {
    if bs == [] then 0 else (if bs[0] then 1 else 0) + 2 * BitsToNat(bs[1..])
  }

  lemma {:induction false} BitsToNatInjective(bs: seq<bool>, cs: seq<bool>)
    requires |bs| == |cs| && BitsToNat(bs) == BitsToNat(cs)
    ensures bs == cs
  {
    if bs != [] {
      BitsToNatInjective(bs[1..], cs[1..]);
      assert bs == [bs[0]] + bs[1..] && cs == [cs[0]] + cs[1..];
    }
  }

  lemma {:induction false} Pigeonhole(q: seq<nat>, n: nat)
    requires Distinct(q) && forall i | 0 <= i < |q| :: q[i] < n
    ensures |q| <= n
  {
    if q == [] {
    } else if q[0] == n - 1 {
      Pigeonhole(q[1..], n - 1);
    } else if i :| 0 <= i < |q| && q[i] == n - 1 {
      Pigeonhole(q[..i] + q[i + 1..], n - 1);
    } else {
      Pigeonhole(q, n - 1);
    }
  }

  /** A duplicate-free queue of updates with `n` flags holds at most 2^n. */
  lemma FlagsBound<U>(q: seq<U>, bits: U -> seq<bool>, n: nat)
    requires Distinct(q)
    requires forall i | 0 <= i < |q| :: |bits(q[i])| == n
    requires forall i, j | 0 <= i < |q| && 0 <= j < |q| && bits(q[i]) == bits(q[j]) :: q[i] == q[j]
    ensures |q| <= Pow2(n)
  {
    var codes := seq(|q|, i requires 0 <= i < |q| => BitsToNat(bits(q[i])));
    forall i, j | 0 <= i < j < |q| ensures codes[i] != codes[j] {
      if codes[i] == codes[j] {
        BitsToNatInjective(bits(q[i]), bits(q[j]));
      }
    }
    Pigeonhole(codes, Pow2(n));
  }

  lemma CABitsInjective(u: CAUpdate, v: CAUpdate)
    requires CABits(u) == CABits(v)
    ensures u == v
  {
    assert forall i | 0 <= i < 10 :: CABits(u)[i] == CABits(v)[i];
  }

  lemma PeerBitsInjective(u: PeerUpdate, v: PeerUpdate)
    requires PeerBits(u) == PeerBits(v)
    ensures u == v
  {
    assert forall i | 0 <= i < 22 :: PeerBits(u)[i] == PeerBits(v)[i];
  }

  lemma OrdererBitsInjective(u: OrdererUpdate, v: OrdererUpdate)
    requires OrdererBits(u) == OrdererBits(v)
    ensures u == v
  {
    assert forall i | 0 <= i < 23 :: OrdererBits(u)[i] == OrdererBits(v)[i];
  }

  /** In every reachable state, a CA queue holds at most 2^10 updates ... */
  lemma CAQueueBounded(zero: CAUpdate, s: State<CAUpdate>, es: seq<Event<CAUpdate>>, name: string)
    requires AllDistinct(s) && Runs(zero, s, es)
    ensures |Queue(End(zero, s, es), name)| <= 1024
  {
    RunKeepsDistinct(zero, s, es);
    var q := Queue(End(zero, s, es), name);
    forall i, j | 0 <= i < |q| && 0 <= j < |q| && CABits(q[i]) == CABits(q[j]) ensures q[i] == q[j] {
      CABitsInjective(q[i], q[j]);
    }
    FlagsBound(q, CABits, 10);
    PowersOfTwo();
  }

  /** ... a peer queue at most 2^22 ... */
  lemma PeerQueueBounded(zero: PeerUpdate, s: State<PeerUpdate>, es: seq<Event<PeerUpdate>>, name: string)
    requires AllDistinct(s) && Runs(zero, s, es)
    ensures |Queue(End(zero, s, es), name)| <= 4_194_304
  {
    RunKeepsDistinct(zero, s, es);
    var q := Queue(End(zero, s, es), name);
    forall i, j | 0 <= i < |q| && 0 <= j < |q| && PeerBits(q[i]) == PeerBits(q[j]) ensures q[i] == q[j] {
      PeerBitsInjective(q[i], q[j]);
    }
    FlagsBound(q, PeerBits, 22);
    PowersOfTwo();
  }

  /** ... and an orderer queue at most 2^23. */
  lemma OrdererQueueBounded(zero: OrdererUpdate, s: State<OrdererUpdate>, es: seq<Event<OrdererUpdate>>, name: string)
    requires AllDistinct(s) && Runs(zero, s, es)
    ensures |Queue(End(zero, s, es), name)| <= 8_388_608
  {
    RunKeepsDistinct(zero, s, es);
    var q := Queue(End(zero, s, es), name);
    forall i, j | 0 <= i < |q| && 0 <= j < |q| && OrdererBits(q[i]) == OrdererBits(q[j]) ensures q[i] == q[j] {
      OrdererBitsInjective(q[i], q[j]);
    }
    FlagsBound(q, OrdererBits, 23);
    PowersOfTwo();
  }
}
