/** The upstream server's sessions, and shedding them when the node has more than its share. */
module Rebalance {
  import opened Strconv
  import opened GossipState
  import opened ClusterMap

  /** Reals stand for the program's floats. */
  datatype Config = Config(threshold: real, shedRate: real, minConns: nat)

  function Ceil(x: real): int {
    -((-x).Floor)
  }

  /** Go converts to an integer by rounding toward zero. */
  function Trunc(x: real): int {
    if x >= 0.0 then x.Floor else Ceil(x)
  }

  function Max(a: int, b: int): int {
    if a >= b then a else b
  }

  function Min(a: int, b: int): int {
    if a <= b then a else b
  }

  function Capped(shedding: real, limit: real): int {
    Trunc(if shedding > limit then Ceil(limit) as real else shedding)
  }

  /** How many sessions to shed, if any. With an average of 0 the balance is infinite: it is not below the
      threshold, and sheds at the rate, which is 0. */
  function Shedding(local: nat, avg: int, config: Config): Option<int> {
    if local == 0 || local < config.minConns then None
    else if avg == 0 then Some(0)
    else if Balance(local, avg) < config.threshold then None
    else Some(Capped(Excess(local, avg), Limit(avg, config)))
  }

  /** How far the node is over the average. */
  function Balance(local: nat, avg: int): real
    requires avg != 0
  {
    (local - avg) as real / avg as real
  }

  function Excess(local: nat, avg: int): real
    requires avg != 0
  {
    local as real * Balance(local, avg)
  }

  function Limit(avg: int, config: Config): real {
    avg as real * config.shedRate
  }

  /** How many are closed: at least one, however few there are to shed. */
  function Closing(local: nat, avg: int, config: Config): nat {
    match Shedding(local, avg, config)
    case None => 0
    case Some(n) => Min(local, Max(1, n))
  }

  class Server {
    const cluster: ClusterMap
    const config: Config
    var sessions: set<string>
    /** Every session closed so far; a session leaves `sessions` when its handler returns. */
    var closed: set<string>

    constructor (cluster: ClusterMap, config: Config)
      ensures this.cluster == cluster && this.config == config && sessions == {} && closed == {}
    {
      this.cluster, this.config := cluster, config;
      sessions, closed := {}, {};
    }

    method AddSession(sess: string)
      modifies this
      ensures sessions == old(sessions) + {sess} && closed == old(closed)
    {
      sessions := sessions + {sess};
    }

    method RemoveSession(sess: string)
      modifies this
      ensures sessions == old(sessions) - {sess} && closed == old(closed)
    {
      sessions := sessions - {sess};
    }

    /** Closes sessions: as many as asked for, but at least one and no more than there are. */
    method ShedSessions(n: int, ord: MapOrder) returns (shedding: set<string>)
      modifies this
      ensures sessions == old(sessions) && closed == old(closed) + shedding
      ensures shedding <= sessions && |shedding| == Min(|sessions|, Max(1, n))
    {
      shedding := FirstSessions(sessions, n, ord);
      closed := closed + shedding;
    }

    /** One rebalance closes what `Closing` says when there are other nodes, and nothing otherwise. */
    method Rebalance(ord: MapOrder) returns (shedding: set<string>)
      requires cluster.Valid()
      modifies this
      ensures sessions == old(sessions) && closed == old(closed) + shedding && shedding <= sessions
      ensures ActiveIDs(cluster.nodes) != {}
      ensures |shedding| == if |cluster.nodes| <= 1 then 0 else Closing(|sessions|, MeanConns(cluster.nodes), config)
    {
      var avgConns := cluster.AvgConns(ord);
      if |cluster.nodes| <= 1 {
        return {};
      }
      match Shedding(|sessions|, avgConns, config)
      case None => return {};
      case Some(n) => shedding := ShedSessions(n, ord);
    }
  }

  /** The loop appends before it checks, so it takes one session even when asked for none. */
  method FirstSessions(sessions: set<string>, n: int, ord: MapOrder) returns (shedding: set<string>)
    ensures shedding <= sessions && |shedding| == Min(|sessions|, Max(1, n))
  {
    shedding := {};
    var all := Range(ord, sessions);
    SeenAll(all, sessions);
    for i := 0 to |all|
      invariant shedding == Seen(all, i) && |shedding| == i && shedding <= sessions
      invariant i > 0 ==> i < n
    {
      SeenStep(all, i, sessions);
      shedding := shedding + {all[i]};
      assert |sessions| == |shedding| + |sessions - shedding|;
      if |shedding| >= n {
        break;
      }
    }
  }

  // ---------- Bounds ----------

  lemma CeilLeast(x: real, n: int)
    ensures x <= Ceil(x) as real
    ensures x <= n as real ==> Ceil(x) <= n
  {
  }

  lemma CappedBelow(shedding: real, limit: real)
    ensures Capped(shedding, limit) <= Max(0, Ceil(limit))
  {
    CeilLeast(limit, 0);
  }

  lemma SheddingBelow(local: nat, avg: int, config: Config)
    ensures var n := Shedding(local, avg, config);
      n.Some? ==> n.value <= Max(0, Ceil(avg as real * config.shedRate))
  {
    if avg != 0 {
      CappedBelow(Excess(local, avg), Limit(avg, config));
    }
  }

  /** The shed rate's share of the average, rounded up, but at least one. */
  function Cap(avg: int, config: Config): int {
    Max(1, Ceil(avg as real * config.shedRate))
  }

  /** For every average, even zero or negative, one rebalance closes at most the larger of one and the shed
      rate's share of the average, rounded up, and no more than are open. */
  lemma ShedBound(local: nat, avg: int, config: Config)
    ensures Closing(local, avg, config) <= local
    ensures Closing(local, avg, config) <= Cap(avg, config)
  {
    SheddingBelow(local, avg, config);
  }

  lemma DivLess(x: real, a: real, t: real)
    requires a > 0.0
    ensures x / a < t <==> x < t * a
  {
    var q := x / a;
    assert x == q * a;
    if q < t { assert q * a < t * a; } else { assert t * a <= q * a; }
  }

  /** A session is closed exactly when the node has sessions, as many as the minimum, and either the average is
      zero or the node is at the threshold above it. */
  lemma ShedsIff(local: nat, avg: nat, config: Config)
    ensures Closing(local, avg, config) > 0 <==>
      && local > 0 && local >= config.minConns
      && (avg == 0 || Overloaded(local, avg, config))
  {
    if avg > 0 { DivLess((local - avg) as real, avg as real, config.threshold); }
  }

  /** The node is at the threshold above the average, or over it. */
  predicate Overloaded(local: nat, avg: nat, config: Config) {
    local as real >= avg as real + config.threshold * avg as real
  }

  /** What is shed leaves the node at the average: the capped share fits in what the node has over it, or
      nothing is capped and the product of what it has and how far it is over rounds down to that. */
  predicate Spares(local: nat, avg: nat, config: Config)
    requires avg > 0
  {
    var over := local - avg;
    && over > 0
    && (|| Ceil(avg as real * config.shedRate) <= over
        || ((local * over) as real / avg as real <= avg as real * config.shedRate && over * over < avg))
  }

  lemma ProductAsReal(x: nat, y: nat)
    ensures (x * y) as real == x as real * y as real
  {
  }

  lemma SumOver(a: real, x: real, y: real)
    requires a > 0.0
    ensures (a * x + y) / a == x + y / a
  {
  }

  lemma TimesOver(x: real, y: real, a: real)
    requires a > 0.0
    ensures x * (y / a) == (x * y) / a
  {
  }

  lemma PositiveOver(x: real, a: real)
    requires a > 0.0 && x > 0.0
    ensures x / a > 0.0
  {
  }

  lemma Square(over: nat)
    requires over > 0
    ensures over * over > 0
  {
  }

  lemma Expand(local: nat, avg: nat, over: nat)
    requires local == avg + over
    ensures (local * over) as real == avg as real * over as real + (over * over) as real
  {
    assert local * over == avg * over + over * over;
    ProductAsReal(avg, over);
  }

  lemma ProductTimes(local: nat, avg: nat, over: nat)
    requires avg > 0 && local == avg + over
    ensures local as real * (over as real / avg as real) == (local * over) as real / avg as real
  {
    ProductAsReal(local, over);
    TimesOver(local as real, over as real, avg as real);
  }

  lemma ProductSplits(local: nat, avg: nat, over: nat)
    requires avg > 0 && local == avg + over
    ensures (local * over) as real / avg as real == over as real + (over * over) as real / avg as real
  {
    Expand(local, avg, over);
    SumOver(avg as real, over as real, (over * over) as real);
  }

  lemma PartOver(avg: nat, over: nat)
    requires avg > 0 && over > 0
    ensures var part := (over * over) as real / avg as real; part > 0.0 && (part < 1.0 <==> over * over < avg)
  {
    Square(over);
    PositiveOver((over * over) as real, avg as real);
    DivLess((over * over) as real, avg as real, 1.0);
  }

  lemma CappedFits(shedding: real, limit: real, over: nat, part: real)
    requires over > 0 && limit >= 0.0 && shedding == over as real + part && part > 0.0
    ensures Capped(shedding, limit) <= over <==> Ceil(limit) <= over || (shedding <= limit && part < 1.0)
  {
    CeilLeast(limit, over);
    if shedding > limit {
      assert Trunc(Ceil(limit) as real) == Ceil(limit);
    } else {
      assert Trunc(shedding) == shedding.Floor;
    }
  }

  lemma ProductOver(local: nat, avg: nat)
    requires avg > 0 && local > avg
    ensures var over := local - avg;
      && local as real * (over as real / avg as real) == (local * over) as real / avg as real
      && (local * over) as real / avg as real == over as real + (over * over) as real / avg as real
      && (over * over) as real / avg as real > 0.0
      && ((over * over) as real / avg as real < 1.0 <==> over * over < avg)
  {
    ProductTimes(local, avg, local - avg);
    ProductSplits(local, avg, local - avg);
    PartOver(avg, local - avg);
  }

  lemma ExcessSplits(local: nat, avg: nat)
    requires avg > 0 && local > avg
    ensures var over := local - avg;
      && Excess(local, avg) == (local * over) as real / avg as real
      && Excess(local, avg) == over as real + (over * over) as real / avg as real
  {
    ProductOver(local, avg);
  }

  lemma SheddingFitsIff(local: nat, avg: nat, config: Config)
    requires avg > 0 && local > avg && config.shedRate >= 0.0
    ensures var n := Shedding(local, avg, config);
      n.Some? ==> (n.value <= local - avg <==> Spares(local, avg, config))
  {
    var over := local - avg;
    ExcessSplits(local, avg);
    PartOver(avg, over);
    CappedFits(Excess(local, avg), Limit(avg, config), over, (over * over) as real / avg as real);
  }

  lemma FloorIs(x: real, q: int)
    requires q as real <= x < (q + 1) as real
    ensures x.Floor == q
  {
  }

  lemma QuotientAsReal(a: nat, b: nat)
    requires b > 0
    ensures (a as real / b as real).Floor == a / b
  {
    var q := a / b;
    assert a == q * b + a % b;
    assert q * b <= a < (q + 1) * b;
    ProductAsReal(q, b);
    ProductAsReal(q + 1, b);
    DivLess(a as real, b as real, (q + 1) as real);
    DivLess(a as real, b as real, q as real);
    FloorIs(a as real / b as real, q);
  }

  lemma OverLimit(x: real, a: real, limit: real)
    requires a > 0.0
    ensures x / a > limit <==> x > limit * a
    ensures x >= 0.0 <==> x / a >= 0.0
  {
    DivLess(-x, a, -limit);
    assert (-x) / a == -(x / a);
    DivLess(x, a, 0.0);
  }

  lemma CappedIs(shedding: real, limit: real, q: int)
    requires if shedding >= 0.0 then q == shedding.Floor else q <= 0
    ensures Max(1, Capped(shedding, limit)) == Max(1, if shedding > limit then Ceil(limit) else q)
  {
    if shedding > limit {
      assert Trunc(Ceil(limit) as real) == Ceil(limit);
    } else if shedding < 0.0 {
      CeilLeast(shedding, 0);
    }
  }

  lemma ExcessIs(local: nat, avg: nat)
    requires avg > 0
    ensures Excess(local, avg) == (local * (local - avg)) as real / avg as real
  {
    var over := local - avg;
    TimesOver(local as real, over as real, avg as real);
    assert (local * over) as real == local as real * over as real;
  }

  /** A fraction rounded down, unless it is over the limit, which is then rounded up. */
  function Share(product: int, avg: nat, limit: real): int
    requires avg > 0
  {
    if product as real > limit * avg as real then Ceil(limit) else product / avg
  }

  lemma ShareCapped(x: real, product: int, avg: nat, limit: real)
    requires avg > 0 && x == product as real / avg as real
    ensures Max(1, Capped(x, limit)) == Max(1, Share(product, avg, limit))
  {
    OverLimit(product as real, avg as real, limit);
    if product >= 0 { QuotientAsReal(product, avg); }
    CappedIs(x, limit, product / avg);
  }

  lemma ClosingIs(local: nat, avg: nat, config: Config)
    requires avg > 0 && Closing(local, avg, config) > 0
    ensures Closing(local, avg, config) == Min(local, Max(1, Capped(Excess(local, avg), Limit(avg, config))))
  {
  }

  /** The exact number closed, in integers: the product of what the node has and how far it is over the average,
      over the average and rounded down, unless that is over the shed rate's share of the average, which is then
      rounded up; at least one, and no more than are open. */
  lemma ClosesExactly(local: nat, avg: nat, config: Config)
    requires avg > 0 && local > 0 && local >= config.minConns && Overloaded(local, avg, config)
    ensures Closing(local, avg, config) == Min(local, Max(1, Share(local * (local - avg), avg, Limit(avg, config))))
  {
    ShedsIff(local, avg, config);
    ClosingIs(local, avg, config);
    ExcessIs(local, avg);
    ShareCapped(Excess(local, avg), local * (local - avg), avg, Limit(avg, config));
  }

  /** Exactly when a rebalance takes the node below the average. */
  lemma OvershootsIff(local: nat, avg: nat, config: Config)
    requires config.threshold >= 0.0 && config.shedRate >= 0.0
    ensures local >= avg && local - Closing(local, avg, config) < avg <==>
      && avg > 0 && local >= config.minConns && Overloaded(local, avg, config) && !Spares(local, avg, config)
  {
    ShedsIff(local, avg, config);
    if avg > 0 {
      if Overloaded(local, avg, config) { OverloadedIsAbove(local, avg, config); }
      if local > avg { SheddingFitsIff(local, avg, config); }
    }
  }

  lemma OverloadedIsAbove(local: nat, avg: nat, config: Config)
    requires config.threshold >= 0.0 && Overloaded(local, avg, config)
    ensures local >= avg
  {
    assert config.threshold * avg as real >= 0.0;
  }

  predicate Gentle(config: Config) {
    config.threshold > 0.0 && 0.0 <= config.shedRate <= config.threshold
  }

  lemma WithinExcess(local: nat, avg: nat, config: Config)
    requires avg > 0 && Gentle(config) && Overloaded(local, avg, config)
    ensures Spares(local, avg, config)
  {
    var limit, extra := avg as real * config.shedRate, config.threshold * avg as real;
    assert 0.0 < extra && limit <= extra;
    CeilLeast(limit, local - avg);
  }

  /** With a threshold above 0 and a shed rate up to the threshold, shedding does not take the node below the
      average. */
  lemma StaysAboveAverage(local: nat, avg: nat, config: Config)
    requires avg > 0 && Gentle(config) && Overloaded(local, avg, config)
    ensures local - Closing(local, avg, config) >= avg
  {
    OverloadedIsAbove(local, avg, config);
    WithinExcess(local, avg, config);
    OvershootsIff(local, avg, config);
  }

  /** A shed rate above the threshold can, both where it caps what is shed and where it does not. */
  lemma SheddingOvershoots()
    ensures Closing(14, 10, Config(0.2, 0.5, 0)) == 5 && Closing(14, 10, Config(0.2, 1.0, 0)) == 5
    ensures Closing(121, 100, Config(0.2, 1.0, 0)) == 25
  {
  }

  /** Rebalancing again and again with the same average. */
  function Settles(local: nat, avg: nat, config: Config): nat
    decreases local
  {
    var n := Closing(local, avg, config);
    if n == 0 || n > local then local else Settles(local - n, avg, config)
  }

  /** It ends: the node gets to where nothing is closed, and a node above the average stays there. */
  lemma {:induction false} RebalancingSettles(local: nat, avg: nat, config: Config)
    ensures Closing(Settles(local, avg, config), avg, config) == 0 && Settles(local, avg, config) <= local
    ensures avg > 0 && Gentle(config) && local >= avg ==>
      Settles(local, avg, config) >= avg
    decreases local
  {
    var n := Closing(local, avg, config);
    ShedBound(local, avg, config);
    if n > 0 {
      ShedsIff(local, avg, config);
      if avg > 0 && Gentle(config) { StaysAboveAverage(local, avg, config); }
      RebalancingSettles(local - n, avg, config);
    }
  }
}
