/**
 Node selection (internal/controller/scheduler): the candidate filter, the preferred node, and the
 round-robin strategy with its 64-bit counter.
 */
module Scheduler {
  import opened Wrappers

  datatype CachedNode = CachedNode(id: string, endpoint: string, diskAvailable: int, diskTotal: int, engines: seq<string>)

  datatype Candidate = Candidate(id: string, endpoint: string, diskAvailable: int, diskTotal: int, engines: seq<string>)

  /** An empty engine or preference stands for none; so does a size that is not positive. */
  datatype Request = Request(engine: string, estimatedSize: int, preferredNode: string)

  datatype Selection = Selection(nodeId: string, endpoint: string)

  // ---------- Round robin ----------

  const WRAP: nat := 0x1_0000_0000_0000_0000

  /** How often candidate k of n is picked by the m selections that start at a counter value. */
  function Picks(counter: nat, m: nat, n: nat, k: nat): nat
    requires n > 0
  {
    if m == 0 then 0 else Picks(counter, m - 1, n, k) + (if (counter + m - 1) % WRAP % n == k then 1 else 0)
  }

  /** How many numbers below x leave the remainder k. */
  function Below(x: nat, n: nat, k: nat): nat
    requires k < n
  {
    x / n + (if k < x % n then 1 else 0)
  }

  lemma OneMoreBelow(x: nat, n: nat, k: nat)
    requires k < n
    ensures Below(x + 1, n, k) == Below(x, n, k) + (if x % n == k then 1 else 0)
  {
    var q, r := x / n, x % n;
    assert x == n * q + r;
    if r + 1 < n {
      Quotient(x + 1, n, q, r + 1);
    } else {
      assert x + 1 == n * (q + 1);
      Quotient(x + 1, n, q + 1, 0);
    }
  }

  lemma MulOrder(n: nat, a: int, b: int)
    requires n > 0 && n * a < n * b
    ensures a < b
  {
  }

  lemma Quotient(x: nat, n: nat, q: int, r: nat)
    requires r < n && x == n * q + r
    ensures x / n == q && x % n == r
  {
    var a, b := x / n, x % n;
    assert x == n * a + b;
    assert n * (a + 1) == n * a + n && n * (q + 1) == n * q + n;
    MulOrder(n, q, a + 1);
    MulOrder(n, a, q + 1);
  }

  /** The wrap does not disturb the remainders. */
  lemma WrapKeepsRemainders(x: nat, n: nat)
    requires n > 0 && WRAP % n == 0
    ensures x % WRAP % n == x % n
  {
    var a, y, q := x / WRAP, x % WRAP, WRAP / n;
    assert x == WRAP * a + y && WRAP == n * q && y == n * (y / n) + y % n;
    assert x == n * (q * a) + n * (y / n) + y % n;
    assert n * (q * a) + n * (y / n) == n * (q * a + y / n);
    Quotient(x, n, q * a + y / n, y % n);
  }

  /** Without a wrap of the counter, selections count remainders. */
  lemma {:induction false} PicksCountRemainders(counter: nat, m: nat, n: nat, k: nat)
    requires k < n && (counter + m <= WRAP || WRAP % n == 0)
    ensures Picks(counter, m, n, k) == Below(counter + m, n, k) - Below(counter, n, k)
  {
    hide Below;
    if m > 0 {
      var x := counter + m - 1;
      PicksCountRemainders(counter, m - 1, n, k);
      OneMoreBelow(x, n, k);
      assert x % WRAP % n == x % n by { NoWrap(x, n); }
      assert Picks(counter, m, n, k) == Picks(counter, m - 1, n, k) + if x % n == k then 1 else 0;
    }
  }

  lemma NoWrap(x: nat, n: nat)
    requires n > 0 && (x < WRAP || WRAP % n == 0)
    ensures x % WRAP % n == x % n
  {
    if x >= WRAP {
      WrapKeepsRemainders(x, n);
    }
  }

  /** m/n, rounded down or up. */
  predicate Share(picks: nat, m: nat, n: nat)
    requires n > 0
  {
    m / n <= picks <= (m + n - 1) / n
  }

  /** Any m selections in a row pick each of n candidates its share, unless the counter wraps among them. */
  lemma Fair(counter: nat, m: nat, n: nat, k: nat)
    requires k < n && (counter + m <= WRAP || WRAP % n == 0)
    ensures Share(Picks(counter, m, n, k), m, n)
  {
    hide Picks, Below, Share;
    PicksCountRemainders(counter, m, n, k);
    BelowTimes(counter, n, k);
    BelowTimes(counter + m, n, k);
    Rounded(Picks(counter, m, n, k), m, n);
  }

  lemma BelowTimes(x: nat, n: nat, k: nat)
    requires k < n
    ensures x - k <= n * Below(x, n, k) < x - k + n
  {
    var q, r := x / n, x % n;
    assert x == n * q + r;
    assert n * (q + 1) == n * q + n;
  }

  lemma Rounded(p: nat, m: nat, n: nat)
    requires n > 0 && m - n < n * p < m + n
    ensures Share(p, m, n)
  {
    var q, c := m / n, (m + n - 1) / n;
    assert m == n * q + m % n && m + n - 1 == n * c + (m + n - 1) % n;
    assert n * (p + 1) == n * p + n && n * (c + 1) == n * c + n;
    MulOrder(n, q, p + 1);
    MulOrder(n, p, c + 1);
  }

  /** Over every stretch of selections the rotation is fair exactly when n divides 2^64. */
  lemma FairAcrossWrapExactly(n: nat)
    requires 0 < n < WRAP
    ensures (forall counter: nat, m: nat, k: nat :: k < n ==> Share(Picks(counter, m, n, k), m, n)) <==> WRAP % n == 0
  {
    hide Share, Picks;
    if WRAP % n == 0 {
      forall counter: nat, m: nat, k: nat | k < n ensures Share(Picks(counter, m, n, k), m, n) {
        Fair(counter, m, n, k);
      }
    } else {
      FirstPickedTwice(n);
    }
  }

  /** The first candidate comes twice within a round that wraps. */
  lemma FirstPickedTwice(n: nat)
    requires 0 < n < WRAP && WRAP % n != 0
    ensures var r := WRAP % n; !Share(Picks(WRAP - r, r + 1, n, 0), r + 1, n)
  {
    var q, r := WRAP / n, WRAP % n;
    assert WRAP == n * q + r;
    PicksCountRemainders(WRAP - r, r, n, 0);
    Quotient(WRAP - r, n, q, 0);
    Quotient(r + 1 + n - 1, n, 1, r);
    assert (WRAP - r + r) % WRAP % n == 0 by { Quotient(0, n, 0, 0); }
    assert Picks(WRAP - r, r + 1, n, 0) == Picks(WRAP - r, r, n, 0) + 1;
  }

  class RoundRobin {
    var counter: nat

    constructor ()
      ensures counter == 0
    {
      counter := 0;
    }

    method Select(candidates: seq<Candidate>) returns (picked: Candidate)
      requires 0 < |candidates| < WRAP && counter < WRAP
      modifies this
      ensures counter == (old(counter) + 1) % WRAP
      ensures picked == candidates[old(counter) % |candidates|]
    {
      counter := (counter + 1) % WRAP;
      var idx := (counter - 1) % WRAP;
      picked := candidates[idx % |candidates|];
    }
  }

  lemma NoPicks(counter: nat, n: nat)
    requires n > 0
    ensures forall k :: Picks(counter, 0, n, k) == 0
  {
  }

  lemma OnePick(counter: nat, m: nat, n: nat)
    requires n > 0 && counter + m < WRAP
    ensures forall k :: Picks(counter, m + 1, n, k) == Picks(counter, m, n, k) + (if (counter + m) % n == k then 1 else 0)
  {
    assert (counter + m) % WRAP == counter + m;
  }

  /** A run of selections from one list; `picks` counts the candidates picked. */
  method SelectMany(strategy: RoundRobin, candidates: seq<Candidate>, m: nat) returns (picks: seq<nat>)
    requires 0 < |candidates| < WRAP && strategy.counter + m < WRAP
    modifies strategy
    ensures strategy.counter == old(strategy.counter) + m && |picks| == |candidates|
    ensures forall k :: 0 <= k < |picks| ==> Share(picks[k], m, |candidates|)
  {
    hide Picks, Share;
    var n := |candidates|;
    ghost var start := strategy.counter;
    picks := seq(n, k => 0);
    NoPicks(start, n);
    for i := 0 to m
      invariant strategy.counter == start + i && |picks| == n
      invariant forall k :: 0 <= k < n ==> picks[k] == Picks(start, i, n, k)
    {
      var idx := strategy.counter % n;
      var _ := strategy.Select(candidates);
      picks := picks[idx := picks[idx] + 1];
      OnePick(start, i, n);
    }
    forall k | 0 <= k < n ensures Share(picks[k], m, n) {
      Fair(start, m, n, k);
    }
  }

  // ---------- Node selection ----------

  predicate Eligible(n: CachedNode, req: Request) {
    && (req.engine != "" ==> req.engine in n.engines)
    && (req.estimatedSize > 0 ==> n.diskAvailable >= req.estimatedSize)
  }

  function CandidateOf(n: CachedNode): Candidate {
    Candidate(n.id, n.endpoint, n.diskAvailable, n.diskTotal, n.engines)
  }

  /** The eligible nodes in their order. */
  function Candidates(nodes: seq<CachedNode>, req: Request): (r: seq<Candidate>)
    ensures forall c :: c in r <==> exists i :: 0 <= i < |nodes| && Eligible(nodes[i], req) && c == CandidateOf(nodes[i])
  {
    if nodes == [] then []
    else
      var last := nodes[|nodes| - 1];
      Candidates(nodes[..|nodes| - 1], req) + (if Eligible(last, req) then [CandidateOf(last)] else [])
  }

  /** The rotation follows the order of the nodes: a candidate's place is the number of candidates before it. */
  lemma {:induction false} CandidatesInOrder(nodes: seq<CachedNode>, req: Request, i: nat)
    requires i < |nodes|
    requires (req.engine == "" || req.engine in nodes[i].engines)
    requires (req.estimatedSize <= 0 || req.estimatedSize <= nodes[i].diskAvailable)
    ensures var c, place := Candidates(nodes, req), |Candidates(nodes[..i], req)|;
            place < |c| && c[place].id == nodes[i].id && c[place].endpoint == nodes[i].endpoint
    decreases |nodes|
  {
    var before := nodes[..|nodes| - 1];
    if i < |before| {
      assert before[..i] == nodes[..i];
      CandidatesInOrder(before, req, i);
    }
  }

  class Scheduler {
    const strategy: RoundRobin

    constructor (strategy: RoundRobin)
      ensures this.strategy == strategy
    {
      this.strategy := strategy;
    }

    /**
     None when no node is eligible. An eligible preferred node is taken without moving the rotation;
     otherwise the rotation's next candidate.
     */
    method SelectNode(nodes: seq<CachedNode>, req: Request) returns (selected: Option<Selection>)
      requires strategy.counter < WRAP && |nodes| < WRAP
      modifies strategy
      ensures selected.None? <==> forall i :: 0 <= i < |nodes| ==> !Eligible(nodes[i], req)
      ensures selected.Some? ==>
                exists i :: 0 <= i < |nodes| && Eligible(nodes[i], req) && selected.value == Selection(nodes[i].id, nodes[i].endpoint)
      ensures selected.Some? <==>
                exists i :: 0 <= i < |nodes| && (req.engine == "" || req.engine in nodes[i].engines)
                            && (req.estimatedSize <= 0 || req.estimatedSize <= nodes[i].diskAvailable)
      ensures selected.Some? ==>
                exists i :: 0 <= i < |nodes| && nodes[i].id == selected.value.nodeId
                            && nodes[i].endpoint == selected.value.endpoint
                            && (req.engine == "" || req.engine in nodes[i].engines)
                            && (req.estimatedSize <= 0 || req.estimatedSize <= nodes[i].diskAvailable)
      ensures var preferred := req.preferredNode != ""
                               && exists i :: 0 <= i < |nodes| && Eligible(nodes[i], req) && nodes[i].id == req.preferredNode;
              if preferred then selected.value.nodeId == req.preferredNode && strategy.counter == old(strategy.counter)
              else if selected.None? then strategy.counter == old(strategy.counter)
              else
                var c := Candidates(nodes, req);
                && c != [] && strategy.counter == (old(strategy.counter) + 1) % WRAP
                && selected.value.nodeId == c[old(strategy.counter) % |c|].id
    {
      var candidates := FindCandidates(nodes, req);
      if |candidates| == 0 {
        NoCandidates(nodes, req);
        return None;
      }
      assert candidates[0] in candidates;
      if req.preferredNode != "" {
        for i := 0 to |candidates|
          invariant strategy.counter == old(strategy.counter)
          invariant forall k :: 0 <= k < i ==> candidates[k].id != req.preferredNode
        {
          var c := candidates[i];
          if c.id == req.preferredNode {
            assert c in candidates;
            return Some(Selection(c.id, c.endpoint));
          }
        }
        PreferredIsCandidate(nodes, req);
      }
      var picked := strategy.Select(candidates);
      assert picked in candidates;
      return Some(Selection(picked.id, picked.endpoint));
    }

    method FindCandidates(nodes: seq<CachedNode>, req: Request) returns (candidates: seq<Candidate>)
      ensures candidates == Candidates(nodes, req) && |candidates| <= |nodes|
    {
      candidates := [];
      for i := 0 to |nodes|
        invariant candidates == Candidates(nodes[..i], req) && |candidates| <= i
      {
        assert nodes[..i + 1] == nodes[..i] + [nodes[i]];
        assert nodes[..i + 1][..i] == nodes[..i];
        var n := nodes[i];
        if req.engine != "" {
          var hasEngine := false;
          for k := 0 to |n.engines|
            invariant !hasEngine && req.engine !in n.engines[..k]
          {
            if n.engines[k] == req.engine {
              hasEngine := true;
              break;
            }
          }
          if !hasEngine {
            assert n.engines[..|n.engines|] == n.engines;
            continue;
          }
        }
        if req.estimatedSize > 0 && n.diskAvailable < req.estimatedSize {
          continue;
        }
        candidates := candidates + [CandidateOf(n)];
      }
      assert nodes[..|nodes|] == nodes;
    }
  }

  lemma NoCandidates(nodes: seq<CachedNode>, req: Request)
    requires Candidates(nodes, req) == []
    ensures forall i :: 0 <= i < |nodes| ==> !Eligible(nodes[i], req)
  {
    forall i | 0 <= i < |nodes| ensures !Eligible(nodes[i], req) {
      assert CandidateOf(nodes[i]) !in Candidates(nodes, req);
    }
  }

  lemma PreferredIsCandidate(nodes: seq<CachedNode>, req: Request)
    requires forall c :: c in Candidates(nodes, req) ==> c.id != req.preferredNode
    ensures forall i :: 0 <= i < |nodes| && Eligible(nodes[i], req) ==> nodes[i].id != req.preferredNode
  {
    forall i | 0 <= i < |nodes| && Eligible(nodes[i], req) ensures nodes[i].id != req.preferredNode {
      assert CandidateOf(nodes[i]) in Candidates(nodes, req);
    }
  }
}
