/** How far a disseminated message still has to go: relayed paths grow by a node per hop. */
module PathHeights {
  import opened Counting
  import opened Dissemination

  /** The number of links, which bounds what one node sends on. */
  ghost function Links(neighbors: seq<seq<nat>>): nat {
    if neighbors == [] then 0 else Links(neighbors[..|neighbors| - 1]) + |neighbors[|neighbors| - 1]|
  }

  lemma {:induction false} DegreeBound(neighbors: seq<seq<nat>>, u: nat)
    requires u < |neighbors|
    ensures |neighbors[u]| <= Links(neighbors)
  {
    var k := |neighbors| - 1;
    if u < k {
      DegreeBound(neighbors[..k], u);
      assert neighbors[..k][u] == neighbors[u];
    }
  }

  lemma {:induction false} RelaysLength(self: nat, neighbors: seq<nat>, origin: nat, empty: bool, path: seq<nat>)
    ensures |Relays(self, neighbors, origin, empty, path)| <= |neighbors|
  {
    if neighbors != [] { RelaysLength(self, neighbors[..|neighbors| - 1], origin, empty, path); }
  }

  /** The nodes a message has seen when it is handled, the originator apart. */
  ghost function Span(origin: nat, m: Packet): set<nat> {
    (set x | x in Assembled(origin, m) + [m.to]) - {origin}
  }

  /** Messages to the originator come first, those from it next, the others by what they have not seen. */
  ghost function Height(n: nat, origin: nat, m: Packet): nat {
    if m.to == origin then n + 2
    else if m.from == origin then n + 1
    else if |Span(origin, m)| <= n then n - |Span(origin, m)|
    else 0
  }

  ghost predicate Known(n: nat, m: Packet) {
    m.from < n && m.to < n && forall i | 0 <= i < |m.path| :: m.path[i] < n
  }

  /** A relayed path has seen one more node. */
  lemma SpanGrows(n: nat, origin: nat, m: Packet, p: Packet)
    requires Known(n, m) && p.from == m.to && p.to != m.to && p.to < n && p.to != origin
    requires p.path == Assembled(origin, m) && p.to !in p.path
    ensures |Span(origin, m)| < |Span(origin, p)| <= n
  {
    var seen, more := Span(origin, m), Span(origin, p);
    assert p.to !in seen && p.to in more;
    forall x | x in seen ensures x in more {
      assert x in Assembled(origin, m) + [m.to];
    }
    SubsetCard(seen + {p.to}, more);
    SpanBound(n, origin, p);
  }

  lemma SpanBound(n: nat, origin: nat, p: Packet)
    requires Known(n, p)
    ensures |Span(origin, p)| <= n
  {
    assert forall x | x in Assembled(origin, p) + [p.to] :: x < n;
    assert Span(origin, p) <= Below(n);
    SubsetCard(Span(origin, p), Below(n));
  }

  lemma RelayIsLower(n: nat, origin: nat, m: Packet, p: Packet)
    requires Known(n, m) && p.from == m.to && p.to != m.to && p.to < n && p.to != origin
    requires p.path == Assembled(origin, m) && p.to !in p.path
    ensures Height(n, origin, p) < Height(n, origin, m)
  {
    SpanGrows(n, origin, m, p);
  }

  /** So has an empty path, if the originator or a message to it gave rise to it. */
  lemma FirstHopsAreHigh(n: nat, origin: nat, m: Packet, p: Packet)
    requires p.from == m.to && p.to != origin && (m.from == origin || m.to == origin)
    ensures m.from != m.to ==> Height(n, origin, p) < Height(n, origin, m)
  {
  }
}
