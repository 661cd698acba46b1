/** What room and service placement share: assignments with a fencing generation, and who hosts what. */
module Placements {
  import opened Prelude

  type NodeId = string

  const MIN_STALE_MILLIS: nat := 1_000
  const MAX_STALE_MILLIS: nat := 300_000

  datatype Placement = Placement(node: NodeId, generation: nat)

  /** Everything assigned to a node. */
  function Hosted<K(!new)>(placements: map<K, Placement>, node: NodeId): set<K> {
    set k | k in placements && placements[k].node == node
  }

  /** Assigning starts at generation 1 and raises it on every move. */
  function NextGeneration<K>(placements: map<K, Placement>, key: K): nat {
    if key in placements then placements[key].generation + 1 else 1
  }

  function Assign<K>(placements: map<K, Placement>, key: K, node: NodeId): map<K, Placement> {
    placements[key := Placement(node, NextGeneration(placements, key))]
  }

  /** Assigning a key that was not on the node adds one there and takes one from where it was. */
  lemma HostedAfterAssign<K(!new)>(placements: map<K, Placement>, key: K, node: NodeId, n: NodeId)
    requires key in placements ==> placements[key].node != node
    ensures |Hosted(Assign(placements, key, node), n)|
            == |Hosted(placements, n)| + (if n == node then 1 else 0)
               - (if key in Hosted(placements, n) then 1 else 0)
    ensures key in Hosted(placements, n) ==> |Hosted(placements, n)| > 0
  {
    var was, now := Hosted(placements, n), Hosted(Assign(placements, key, node), n);
    if n == node {
      assert now == was + {key};
    } else {
      assert now == was - {key};
    }
  }

  /** Raising the generation in place moves nothing. */
  lemma HostedAfterBump<K(!new)>(placements: map<K, Placement>, key: K, generation: nat, n: NodeId)
    requires key in placements
    ensures Hosted(placements[key := placements[key].(generation := generation)], n)
            == Hosted(placements, n)
  {
  }

  lemma HostedAfterRemove<K(!new)>(placements: map<K, Placement>, key: K, n: NodeId)
    requires key in placements
    ensures |Hosted(placements - {key}, n)|
            == |Hosted(placements, n)| - (if n == placements[key].node then 1 else 0)
    ensures n == placements[key].node ==> |Hosted(placements, n)| > 0
  {
    assert Hosted(placements - {key}, n) == Hosted(placements, n) - {key};
  }

  /** Ratios are ordered as their cross products. */
  lemma CrossMultiplied(p: nat, q: nat, m: nat, n: nat)
    requires q > 0 && n > 0
    ensures p as real / q as real < m as real / n as real <==> p * n < m * q
    ensures p as real / q as real == m as real / n as real <==> p * n == m * q
  {
    var x, y := p as real / q as real, m as real / n as real;
    var k := q as real * n as real;
    assert (p * n) as real == x * k && (m * q) as real == y * k;
    assert k > 0.0;
    if x < y { assert x * k < y * k; } else if x > y { assert x * k > y * k; }
  }

  /** Text in code-point order, the last tie-break of both schedulers. */
  predicate TextBefore(a: string, b: string) {
    b != [] && (a == [] || a[0] < b[0] || (a[0] == b[0] && TextBefore(a[1..], b[1..])))
  }

  lemma {:induction false} TextBeforeTransitive(a: string, b: string, c: string)
    requires TextBefore(a, b) && TextBefore(b, c)
    ensures TextBefore(a, c)
  {
    if a != [] && a[0] == b[0] == c[0] {
      TextBeforeTransitive(a[1..], b[1..], c[1..]);
    }
  }

  lemma {:induction false} TextBeforeTotal(a: string, b: string)
    ensures TextBefore(a, b) || a == b || TextBefore(b, a)
    ensures !(TextBefore(a, b) && TextBefore(b, a))
  {
    if a != [] && b != [] {
      TextBeforeTotal(a[1..], b[1..]);
      assert a == [a[0]] + a[1..] && b == [b[0]] + b[1..];
    }
  }
}
