/** From silence to unreachable: the liveness check with the verdicts of the failure detector. */
module Liveness {
  import opened GossipState
  import Expiry
  import Detector = FailureDetector

  const SUSPICION_THRESHOLD := 20

  /** The detector suspects the node. */
  predicate Suspects(boot: int, size: nat, rs: Detector.Reports, id: string, now: int) {
    && id in rs && Detector.Level(boot, size, rs[id], now).Some?
    && Detector.Exceeds(Detector.Level(boot, size, rs[id], now).value, SUSPICION_THRESHOLD)
  }

  /** The verdicts are the detector's, for every node it is asked about. */
  ghost predicate Verdicts(s: State, boot: int, size: nat, rs: Detector.Reports, suspected: set<string>, now: int) {
    forall id :: id in s.nodes && id != s.localID && !s.nodes[id].left ==>
      (id in suspected <==> Suspects(boot, size, rs, id, now))
  }

  /** A node that was heard of every `p`, as often as the detector samples, and has not left is unreachable after a
      liveness check exactly when it has been silent for more than the threshold times `p`. */
  lemma SilentIsUnreachable(s: State, boot: int, size: nat, rs: Detector.Reports, suspected: set<string>, now: int,
                            ord: MapOrder, id: string, p: int)
    requires Verdicts(s, boot, size, rs, suspected, now) && id in s.nodes && id != s.localID && !s.nodes[id].left
    requires size >= 1 && id in rs && |rs[id]| > size && p > 0
    requires Detector.Positive(rs[id]) && Detector.Steady(rs[id], p)
    ensures var s' := UpdateLiveness(s, suspected, now, ord);
      && id in s'.nodes
      && (s'.nodes[id].unreachable <==> now - Detector.Last(rs[id]) > SUSPICION_THRESHOLD * p)
  {
    Detector.SteadyExceedsIff(boot, size, rs[id], now, p, SUSPICION_THRESHOLD);
    Expiry.VerdictsTaken(s, suspected, now, ord, id);
  }
}
