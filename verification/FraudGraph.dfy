/** The fraud-ring graph: MERGE-built edges, the three queries, and the score. */
module FraudGraph {
  import opened Prelude

  datatype Txn = Txn(id: string, card: string, merchant: string, device: string, ip: string)

  datatype Edge = Edge(from: string, to: string)

  /** MERGE keeps at most one edge per pair of nodes, so each relation is a set of edges.
      TRANSACTED_AT edges are created anew for every transaction. */
  datatype Graph = Graph(hasDevice: set<Edge>, hasIp: set<Edge>, transacted: seq<Txn>)

  const EMPTY := Graph({}, {}, [])

  function Add(g: Graph, t: Txn): Graph {
    Graph(g.hasDevice + {Edge(t.card, t.device)}, g.hasIp + {Edge(t.device, t.ip)}, g.transacted + [t])
  }

  function Build(txns: seq<Txn>): Graph {
    if txns == [] then EMPTY else Add(Build(txns[..|txns| - 1]), txns[|txns| - 1])
  }

  function Sources(edges: set<Edge>, to: string): set<string> {
    set e | e in edges && e.to == to :: e.from
  }

  function Targets(edges: set<Edge>, from: string): set<string> {
    set e | e in edges && e.from == from :: e.to
  }

  lemma MembersOf(edges: set<Edge>, x: string, y: string)
    ensures x in Sources(edges, y) <==> Edge(x, y) in edges
    ensures y in Targets(edges, x) <==> Edge(x, y) in edges
  {
  }

  /** Cards on a device, and devices on an address. */
  function CardsOn(g: Graph, device: string): set<string> { Sources(g.hasDevice, device) }

  function DevicesOn(g: Graph, ip: string): set<string> { Sources(g.hasIp, ip) }

  /** A match of the four-edge path card1 - device1 - ip - device2 - card2.  Within one match
      no relationship is used twice, and the query asks for two different cards. */
  predicate RingPath(g: Graph, card1: string, device1: string, ip: string, device2: string, card2: string) {
    && Edge(card1, device1) in g.hasDevice && Edge(device1, ip) in g.hasIp
    && Edge(device2, ip) in g.hasIp && Edge(card2, device2) in g.hasDevice
    && Edge(card1, device1) != Edge(card2, device2) && Edge(device1, ip) != Edge(device2, ip)
    && card1 != card2
  }

  ghost predicate Connected(g: Graph, card1: string, card2: string) {
    exists device1, ip, device2 :: RingPath(g, card1, device1, ip, device2, card2)
  }

  /** Two different devices with a common address. */
  predicate Linked(g: Graph, device1: string, device2: string) {
    device1 != device2 && Targets(g.hasIp, device1) * Targets(g.hasIp, device2) != {}
  }

  predicate LinkedToAny(g: Graph, devices: set<string>, device: string) {
    exists d | d in devices :: Linked(g, d, device)
  }

  /** The distinct cards the ring query returns, computed device by device. */
  function Ring(g: Graph, card: string): set<string> {
    set e | e in g.hasDevice && e.from != card && LinkedToAny(g, Targets(g.hasDevice, card), e.to) :: e.from
  }

  /** The computed ring is what the path pattern describes. */
  lemma RingExactly(g: Graph, card: string, other: string)
    ensures other in Ring(g, card) <==> Connected(g, card, other)
  {
    var own := Targets(g.hasDevice, card);
    if other in Ring(g, card) {
      var e :| e in g.hasDevice && e.from == other && LinkedToAny(g, own, e.to);
      var d :| d in own && Linked(g, d, e.to);
      var ip :| ip in Targets(g.hasIp, d) * Targets(g.hasIp, e.to);
      assert RingPath(g, card, d, ip, e.to, other);
    }
    if Connected(g, card, other) {
      var d1, ip, d2 :| RingPath(g, card, d1, ip, d2, other);
      ConnectedIsInRing(g, card, d1, ip, d2, other);
    }
  }

  lemma ConnectedIsInRing(g: Graph, card: string, d1: string, ip: string, d2: string, other: string)
    requires RingPath(g, card, d1, ip, d2, other)
    ensures other in Ring(g, card)
  {
    assert d1 in Targets(g.hasDevice, card) by { assert Edge(card, d1).to == d1; }
    assert ip in Targets(g.hasIp, d1) by { assert Edge(d1, ip).to == ip; }
    assert ip in Targets(g.hasIp, d2) by { assert Edge(d2, ip).to == ip; }
    assert ip in Targets(g.hasIp, d1) * Targets(g.hasIp, d2);
    assert Edge(other, d2).from == other;
  }

  // --- Scoring --------------------------------------------------------------------

  predicate Shared(g: Graph, t: Txn) { |CardsOn(g, t.device)| > 1 }

  predicate Clustered(g: Graph, t: Txn) { |DevicesOn(g, t.ip)| > 1 }

  predicate Ringed(g: Graph, t: Txn) { |Ring(g, t.card)| > 0 }

  function ScoreOf(shared: bool, clustered: bool, ringed: bool): real {
    MinReal(1.0, (if shared then 0.4 else 0.0) + (if clustered then 0.3 else 0.0) + if ringed then 0.5 else 0.0)
  }

  function Score(g: Graph, t: Txn): real { ScoreOf(Shared(g, t), Clustered(g, t), Ringed(g, t)) }

  // --- Reachable graphs -------------------------------------------------------------

  predicate Uses(t: Txn, card: string, device: string) { t.card == card && t.device == device }

  predicate Comes(t: Txn, device: string, ip: string) { t.device == device && t.ip == ip }

  predicate SomeUse(txns: seq<Txn>, card: string, device: string) {
    exists i | 0 <= i < |txns| :: Uses(txns[i], card, device)
  }

  predicate SomeCome(txns: seq<Txn>, device: string, ip: string) {
    exists i | 0 <= i < |txns| :: Comes(txns[i], device, ip)
  }

  /** Between `x` and `y` the graph has exactly the edges that some transaction names. */
  predicate EdgesAre(g: Graph, txns: seq<Txn>, x: string, y: string) {
    && (Edge(x, y) in g.hasDevice <==> SomeUse(txns, x, y))
    && (Edge(x, y) in g.hasIp <==> SomeCome(txns, x, y))
    && g.transacted == txns
  }

  lemma AddKeepsEdges(g: Graph, before: seq<Txn>, last: Txn, x: string, y: string)
    requires EdgesAre(g, before, x, y)
    ensures EdgesAre(Add(g, last), before + [last], x, y)
  {
    var txns := before + [last];
    assert txns[|before|] == last && forall i | 0 <= i < |before| :: txns[i] == before[i];
    assert SomeUse(txns, x, y) <==> SomeUse(before, x, y) || Uses(last, x, y);
    assert SomeCome(txns, x, y) <==> SomeCome(before, x, y) || Comes(last, x, y);
  }

  /** The edges of a reachable graph are exactly the pairs its transactions name. */
  lemma {:induction false} EdgesOfBuild(txns: seq<Txn>, x: string, y: string)
    ensures EdgesAre(Build(txns), txns, x, y)
  {
    if txns != [] {
      var before, last := txns[..|txns| - 1], txns[|txns| - 1];
      EdgesOfBuild(before, x, y);
      AddKeepsEdges(Build(before), before, last, x, y);
      assert before + [last] == txns;
    }
  }

  /** Adding transactions adds edges. */
  lemma BuildGrows(a: seq<Txn>, b: seq<Txn>)
    requires forall t | t in a :: t in b
    ensures Build(a).hasDevice <= Build(b).hasDevice && Build(a).hasIp <= Build(b).hasIp
  {
    forall e | e in Build(a).hasDevice ensures e in Build(b).hasDevice {
      EdgesOfBuild(a, e.from, e.to);
      EdgesOfBuild(b, e.from, e.to);
      var i :| 0 <= i < |a| && Uses(a[i], e.from, e.to);
      assert a[i] in b;
    }
    forall e | e in Build(a).hasIp ensures e in Build(b).hasIp {
      EdgesOfBuild(a, e.from, e.to);
      EdgesOfBuild(b, e.from, e.to);
      var i :| 0 <= i < |a| && Comes(a[i], e.from, e.to);
      assert a[i] in b;
    }
  }

  lemma MoreEdgesMoreRing(g: Graph, h: Graph, card: string)
    requires g.hasDevice <= h.hasDevice && g.hasIp <= h.hasIp
    ensures Ring(g, card) <= Ring(h, card)
  {
    forall c | c in Ring(g, card) ensures c in Ring(h, card) {
      RingExactly(g, card, c);
      var d1, ip, d2 :| RingPath(g, card, d1, ip, d2, c);
      assert RingPath(h, card, d1, ip, d2, c);
      RingExactly(h, card, c);
    }
  }

  lemma MoreEdgesMoreScore(g: Graph, h: Graph, t: Txn)
    requires g.hasDevice <= h.hasDevice && g.hasIp <= h.hasIp
    ensures Score(g, t) <= Score(h, t)
  {
    MoreEdgesMoreRing(g, h, t.card);
    SubsetSize(Ring(g, t.card), Ring(h, t.card));
    SubsetSize(CardsOn(g, t.device), CardsOn(h, t.device));
    SubsetSize(DevicesOn(g, t.ip), DevicesOn(h, t.ip));
  }

  /** For a fixed card, device and address the score never falls as transactions arrive. */
  lemma ScoreNeverFalls(txns: seq<Txn>, more: seq<Txn>, t: Txn)
    ensures Score(Build(txns), t) <= Score(Build(txns + more), t)
    ensures Ring(Build(txns), t.card) <= Ring(Build(txns + more), t.card)
  {
    BuildGrows(txns, txns + more);
    MoreEdgesMoreScore(Build(txns), Build(txns + more), t);
    MoreEdgesMoreRing(Build(txns), Build(txns + more), t.card);
  }

  /** Order and repetition of transactions do not matter to any edge, query or score. */
  lemma OrderAndRepetitionDoNotMatter(a: seq<Txn>, b: seq<Txn>, t: Txn)
    requires forall x :: x in a <==> x in b
    ensures Build(a).hasDevice == Build(b).hasDevice && Build(a).hasIp == Build(b).hasIp
    ensures Ring(Build(a), t.card) == Ring(Build(b), t.card) && Score(Build(a), t) == Score(Build(b), t)
  {
    BuildGrows(a, b);
    BuildGrows(b, a);
    MoreEdgesMoreScore(Build(a), Build(b), t);
    MoreEdgesMoreScore(Build(b), Build(a), t);
    MoreEdgesMoreRing(Build(a), Build(b), t.card);
    MoreEdgesMoreRing(Build(b), Build(a), t.card);
  }

  lemma RingIsSymmetric(g: Graph, a: string, b: string)
    ensures a in Ring(g, b) <==> b in Ring(g, a)
  {
    RingExactly(g, a, b);
    RingExactly(g, b, a);
    if Connected(g, a, b) {
      var d1, ip, d2 :| RingPath(g, a, d1, ip, d2, b);
      assert RingPath(g, b, d2, ip, d1, a);
    }
    if Connected(g, b, a) {
      var d1, ip, d2 :| RingPath(g, b, d1, ip, d2, a);
      assert RingPath(g, a, d2, ip, d1, b);
    }
  }

  lemma AnotherMember(s: set<string>, x: string) returns (y: string)
    requires |s| > 1
    ensures y in s && y != x
  {
    if s - {x} == {} { SubsetSize(s, {x}); }
    y :| y in s - {x};
  }

  /** A shared device and a clustered address together force a ring: in every graph that
      transactions can build, for every transaction that was just added. */
  lemma SharingAndClusterForceRing(txns: seq<Txn>, t: Txn)
    requires t in txns && Shared(Build(txns), t) && Clustered(Build(txns), t)
    ensures Ringed(Build(txns), t)
  {
    var g := Build(txns);
    EdgesOfBuild(txns, t.card, t.device);
    EdgesOfBuild(txns, t.device, t.ip);
    assert Uses(t, t.card, t.device) && Comes(t, t.device, t.ip);
    var other := AnotherMember(DevicesOn(g, t.ip), t.device);
    MembersOf(g.hasIp, other, t.ip);
    EdgesOfBuild(txns, other, t.ip);
    var i :| 0 <= i < |txns| && Comes(txns[i], other, t.ip);
    var first := txns[i];
    EdgesOfBuild(txns, first.card, other);
    assert Uses(first, first.card, other);
    if first.card != t.card {
      ConnectedIsInRing(g, t.card, t.device, t.ip, other, first.card);
    } else {
      var partner := AnotherMember(CardsOn(g, t.device), t.card);
      MembersOf(g.hasDevice, partner, t.device);
      ConnectedIsInRing(g, t.card, other, t.ip, t.device, partner);
    }
  }

  /** So of the eight sums the three signals could give, 0.7 never occurs, and the score is 1
      exactly when device and address both fire. */
  lemma PossibleScores(txns: seq<Txn>, t: Txn)
    requires t in txns
    ensures var s := Score(Build(txns), t);
            && (s == 0.0 || s == 0.3 || s == 0.4 || s == 0.5 || s == 0.8 || s == 0.9 || s == 1.0)
            && (s == 1.0 <==> Shared(Build(txns), t) && Clustered(Build(txns), t))
  {
    if Shared(Build(txns), t) && Clustered(Build(txns), t) { SharingAndClusterForceRing(txns, t); }
  }

  // --- The signals in terms of the transactions ---------------------------------------

  predicate SharesDevice(txns: seq<Txn>, t: Txn) {
    exists i | 0 <= i < |txns| :: txns[i].device == t.device && txns[i].card != t.card
  }

  predicate SharesAddress(txns: seq<Txn>, t: Txn) {
    exists i | 0 <= i < |txns| :: txns[i].ip == t.ip && txns[i].device != t.device
  }

  /** One step of the ring: two transactions name two different devices at one address. */
  predicate Bridged(txns: seq<Txn>, device1: string, device2: string) {
    device1 != device2 &&
    exists i, j | 0 <= i < |txns| && 0 <= j < |txns| ::
      txns[i].device == device1 && txns[j].device == device2 && txns[i].ip == txns[j].ip
  }

  /** Some transaction of the card and some transaction of another card are on bridged devices. */
  predicate InRing(txns: seq<Txn>, t: Txn) {
    exists i, j | 0 <= i < |txns| && 0 <= j < |txns| ::
      txns[i].card == t.card && txns[j].card != t.card && Bridged(txns, txns[i].device, txns[j].device)
  }

  lemma MoreThanOne(s: set<string>, x: string)
    requires x in s
    ensures |s| > 1 <==> exists y :: y in s && y != x
  {
    if |s| > 1 {
      var y := AnotherMember(s, x);
    }
    if y :| y in s && y != x {
      SubsetSize({x, y}, s);
    }
  }

  /** The queries answer with the cards, or devices, that some transaction names there. */
  lemma QueriesExactly(txns: seq<Txn>, card: string, device: string, ip: string)
    ensures card in CardsOn(Build(txns), device) <==> exists i :: 0 <= i < |txns| && txns[i].card == card && txns[i].device == device
    ensures device in DevicesOn(Build(txns), ip) <==> exists i :: 0 <= i < |txns| && txns[i].device == device && txns[i].ip == ip
  {
    var g := Build(txns);
    MembersOf(g.hasDevice, card, device);
    MembersOf(g.hasIp, device, ip);
    EdgesOfBuild(txns, card, device);
    EdgesOfBuild(txns, device, ip);
    if i :| 0 <= i < |txns| && txns[i].card == card && txns[i].device == device { assert Uses(txns[i], card, device); }
    if i :| 0 <= i < |txns| && txns[i].device == device && txns[i].ip == ip { assert Comes(txns[i], device, ip); }
  }

  lemma SharedExactly(txns: seq<Txn>, t: Txn)
    requires t in txns
    ensures Shared(Build(txns), t) <==> SharesDevice(txns, t)
  {
    var g := Build(txns);
    var cards := CardsOn(g, t.device);
    EdgesOfBuild(txns, t.card, t.device);
    assert Uses(t, t.card, t.device);
    MembersOf(g.hasDevice, t.card, t.device);
    MoreThanOne(cards, t.card);
    if card :| card in cards && card != t.card {
      MembersOf(g.hasDevice, card, t.device);
      EdgesOfBuild(txns, card, t.device);
      var i :| 0 <= i < |txns| && Uses(txns[i], card, t.device);
    }
    if i :| 0 <= i < |txns| && txns[i].device == t.device && txns[i].card != t.card {
      EdgesOfBuild(txns, txns[i].card, t.device);
      assert Uses(txns[i], txns[i].card, t.device);
      MembersOf(g.hasDevice, txns[i].card, t.device);
    }
  }

  lemma ClusteredExactly(txns: seq<Txn>, t: Txn)
    requires t in txns
    ensures Clustered(Build(txns), t) <==> SharesAddress(txns, t)
  {
    var g := Build(txns);
    var devices := DevicesOn(g, t.ip);
    EdgesOfBuild(txns, t.device, t.ip);
    assert Comes(t, t.device, t.ip);
    MembersOf(g.hasIp, t.device, t.ip);
    MoreThanOne(devices, t.device);
    if device :| device in devices && device != t.device {
      MembersOf(g.hasIp, device, t.ip);
      EdgesOfBuild(txns, device, t.ip);
      var i :| 0 <= i < |txns| && Comes(txns[i], device, t.ip);
    }
    if i :| 0 <= i < |txns| && txns[i].ip == t.ip && txns[i].device != t.device {
      EdgesOfBuild(txns, txns[i].device, t.ip);
      assert Comes(txns[i], txns[i].device, t.ip);
      MembersOf(g.hasIp, txns[i].device, t.ip);
    }
  }

  lemma RingPathOfTxns(txns: seq<Txn>, t: Txn, i: nat, j: nat)
    requires i < |txns| && j < |txns|
    requires txns[i].card == t.card && txns[j].card != t.card && Bridged(txns, txns[i].device, txns[j].device)
    ensures txns[j].card in Ring(Build(txns), t.card)
  {
    var d1, d2 := txns[i].device, txns[j].device;
    var p, q :| 0 <= p < |txns| && 0 <= q < |txns| && txns[p].device == d1 && txns[q].device == d2 && txns[p].ip == txns[q].ip;
    EdgesOfBuild(txns, t.card, d1);
    assert Uses(txns[i], t.card, d1);
    EdgesOfBuild(txns, d1, txns[p].ip);
    assert Comes(txns[p], d1, txns[p].ip);
    EdgesOfBuild(txns, d2, txns[p].ip);
    assert Comes(txns[q], d2, txns[p].ip);
    EdgesOfBuild(txns, txns[j].card, d2);
    assert Uses(txns[j], txns[j].card, d2);
    ConnectedIsInRing(Build(txns), t.card, d1, txns[p].ip, d2, txns[j].card);
  }

  lemma TxnsOfRingPath(txns: seq<Txn>, t: Txn, d1: string, ip: string, d2: string, other: string)
    requires RingPath(Build(txns), t.card, d1, ip, d2, other)
    ensures InRing(txns, t)
  {
    EdgesOfBuild(txns, t.card, d1);
    var i :| 0 <= i < |txns| && Uses(txns[i], t.card, d1);
    EdgesOfBuild(txns, d1, ip);
    var p :| 0 <= p < |txns| && Comes(txns[p], d1, ip);
    EdgesOfBuild(txns, d2, ip);
    var q :| 0 <= q < |txns| && Comes(txns[q], d2, ip);
    EdgesOfBuild(txns, other, d2);
    var j :| 0 <= j < |txns| && Uses(txns[j], other, d2);
    assert Bridged(txns, txns[i].device, txns[j].device);
  }

  lemma RingedExactly(txns: seq<Txn>, t: Txn)
    ensures Ringed(Build(txns), t) <==> InRing(txns, t)
  {
    var g := Build(txns);
    if Ringed(g, t) {
      var other :| other in Ring(g, t.card);
      RingExactly(g, t.card, other);
      var d1, ip, d2 :| RingPath(g, t.card, d1, ip, d2, other);
      TxnsOfRingPath(txns, t, d1, ip, d2, other);
    }
    if InRing(txns, t) {
      var i, j :| 0 <= i < |txns| && 0 <= j < |txns| && txns[i].card == t.card && txns[j].card != t.card
                  && Bridged(txns, txns[i].device, txns[j].device);
      RingPathOfTxns(txns, t, i, j);
    }
  }

  /** The score of a transaction that was added, without the graph: each signal says something
      about the transactions themselves. */
  lemma ScoreOfTransactions(txns: seq<Txn>, t: Txn)
    requires t in txns
    ensures Score(Build(txns), t) == ScoreOf(SharesDevice(txns, t), SharesAddress(txns, t), InRing(txns, t))
  {
    SharedExactly(txns, t);
    ClusteredExactly(txns, t);
    RingedExactly(txns, t);
  }

  /** What a score says of the three signals: whether other cards are on the device, other
      devices at the address, and other cards in the ring. */
  predicate ScoreSays(score: real, device: bool, address: bool, ring: bool) {
    && (score == 0.0 <==> !device && !address && !ring)
    && (score == 0.3 <==> !device && address && !ring)
    && (score == 0.4 <==> device && !address && !ring)
    && (score == 0.5 <==> !device && !address && ring)
    && (score == 0.8 <==> !device && address && ring)
    && (score == 0.9 <==> device && !address && ring)
    && (score == 1.0 <==> device && address)
  }

  /** In every reachable graph the score of an added transaction says exactly which signals the
      transactions give. */
  lemma ScoreSaysExactly(txns: seq<Txn>, t: Txn)
    requires t in txns
    ensures ScoreSays(Score(Build(txns), t), SharesDevice(txns, t), SharesAddress(txns, t), InRing(txns, t))
  {
    SharedExactly(txns, t);
    ClusteredExactly(txns, t);
    RingedExactly(txns, t);
    if SharesDevice(txns, t) && SharesAddress(txns, t) { SharingAndClusterForceRing(txns, t); }
  }

  function On(card: string, device: string, ip: string): Txn { Txn("", card, "", device, ip) }

  const PLAIN := On("a", "d", "i")

  lemma Witness(txns: seq<Txn>, t: Txn, s: real)
    requires t in txns && ScoreOf(SharesDevice(txns, t), SharesAddress(txns, t), InRing(txns, t)) == s
    ensures Occurs(s)
  {
    ScoreOfTransactions(txns, t);
  }

  /** Some added transaction gets the score. */
  ghost predicate Occurs(s: real) { exists txns: seq<Txn>, t: Txn :: t in txns && Score(Build(txns), t) == s }

  lemma SharedDeviceOccurs()
    ensures Occurs(0.0) && Occurs(0.4)
  {
    Witness([PLAIN], PLAIN, 0.0);
    var shared := [PLAIN, On("b", "d", "i")];
    assert shared[1].device == "d" && shared[1].card != "a";
    assert SharesDevice(shared, PLAIN) && !SharesAddress(shared, PLAIN) && !InRing(shared, PLAIN);
    Witness(shared, PLAIN, 0.4);
  }

  lemma SharedAddressOccurs()
    ensures Occurs(0.3)
  {
    var clustered := [PLAIN, On("a", "e", "i")];
    assert clustered[1].ip == "i" && clustered[1].device != "d";
    assert !SharesDevice(clustered, PLAIN) && SharesAddress(clustered, PLAIN) && !InRing(clustered, PLAIN);
    Witness(clustered, PLAIN, 0.3);
  }

  lemma BridgeHere(txns: seq<Txn>, t: Txn, i: nat, j: nat)
    requires i < |txns| && j < |txns| && txns[i].card == t.card && txns[j].card != t.card
    requires txns[i].device != txns[j].device && txns[i].ip == txns[j].ip
    ensures InRing(txns, t)
  {
    assert Bridged(txns, txns[i].device, txns[j].device);
  }

  const AWAY := On("a", "f", "j")

  lemma RingAloneOccurs()
    ensures Occurs(0.5)
  {
    var ringed := [PLAIN, On("b", "e", "i"), AWAY];
    BridgeHere(ringed, AWAY, 0, 1);
    assert AWAY == ringed[2] && !SharesDevice(ringed, AWAY) && !SharesAddress(ringed, AWAY);
    Witness(ringed, AWAY, 0.5);
  }

  lemma RingAtAddressOccurs()
    ensures Occurs(0.8)
  {
    var near := [PLAIN, On("b", "e", "i")];
    BridgeHere(near, PLAIN, 0, 1);
    assert near[1].ip == "i" && near[1].device != "d";
    assert !SharesDevice(near, PLAIN) && SharesAddress(near, PLAIN);
    Witness(near, PLAIN, 0.8);
  }

  lemma RingOnDeviceOccurs()
    ensures Occurs(0.9)
  {
    var both := [PLAIN, On("b", "e", "i"), AWAY, On("c", "f", "j")];
    BridgeHere(both, AWAY, 0, 1);
    assert AWAY == both[2] && both[3].device == "f" && both[3].card != "a";
    assert SharesDevice(both, AWAY) && !SharesAddress(both, AWAY);
    Witness(both, AWAY, 0.9);
  }

  lemma EverythingOccurs()
    ensures Occurs(1.0)
  {
    var all := [PLAIN, On("b", "d", "i"), On("c", "e", "i")];
    BridgeHere(all, PLAIN, 0, 2);
    assert all[1].device == "d" && all[1].card != "a" && all[2].ip == "i" && all[2].device != "d";
    assert SharesDevice(all, PLAIN) && SharesAddress(all, PLAIN);
    Witness(all, PLAIN, 1.0);
  }

  /** A score occurs exactly when it is one of seven: of the eight sums that three signals could
      give, 0.7 is the one that never does. */
  lemma ScoresExactly(s: real)
    ensures Occurs(s) <==> s in {0.0, 0.3, 0.4, 0.5, 0.8, 0.9, 1.0}
  {
    if Occurs(s) {
      var txns, t :| t in txns && Score(Build(txns), t) == s;
      PossibleScores(txns, t);
    }
    SharedDeviceOccurs();
    SharedAddressOccurs();
    RingAloneOccurs();
    RingAtAddressOccurs();
    RingOnDeviceOccurs();
    EverythingOccurs();
  }

  // --- The service in the form the program gives it ----------------------------------

  class Neo4jClient {
    var hasDevice: set<Edge>
    var hasIp: set<Edge>
    var transacted: seq<Txn>

    function Contents(): Graph
      reads this
    {
      Graph(hasDevice, hasIp, transacted)
    }

    constructor ()
      ensures Contents() == EMPTY
    {
      hasDevice, hasIp, transacted := {}, {}, [];
    }

    method AddTransactionToGraph(t: Txn)
      modifies this
      ensures Contents() == Add(old(Contents()), t)
    {
      hasDevice := hasDevice + {Edge(t.card, t.device)};
      hasIp := hasIp + {Edge(t.device, t.ip)};
      transacted := transacted + [t];
    }
  }

  datatype Pattern =
    | DeviceSharing(high: bool, entities: set<string>)
    | IpCluster(entities: set<string>)
    | IdentityRing(entities: set<string>)

  datatype Result = Result(score: real, patterns: seq<Pattern>, connectedEntities: nat)

  /** The patterns that accompany a score, in the order of the checks. */
  function PatternsOf(g: Graph, t: Txn): seq<Pattern> {
    var cards, devices, ring := CardsOn(g, t.device), DevicesOn(g, t.ip), Ring(g, t.card);
    var first := if |cards| > 1 then [DeviceSharing(|cards| > 3, cards + {t.device})] else [];
    var second := if |devices| > 1 then first + [IpCluster(devices + {t.ip})] else first;
    if |ring| > 0 then second + [IdentityRing(ring + {t.card})] else second
  }

  /** The pattern of each kind is there exactly when its signal fires, once, and names exactly
      the cards, devices or ring behind it with the entity asked for; a shared device is of
      high severity exactly from four cards on. */
  lemma PatternsExactly(g: Graph, t: Txn)
    ensures var ps, cards, devices, ring := PatternsOf(g, t), CardsOn(g, t.device), DevicesOn(g, t.ip), Ring(g, t.card);
            && (forall p | p in ps :: p.DeviceSharing? ==>
                  |cards| > 1 && p.entities == cards + {t.device} && (p.high <==> |cards| >= 4))
            && (forall p | p in ps :: p.IpCluster? ==> |devices| > 1 && p.entities == devices + {t.ip})
            && (forall p | p in ps :: p.IdentityRing? ==> |ring| > 0 && p.entities == ring + {t.card})
            && ((exists p | p in ps :: p.DeviceSharing?) <==> |cards| > 1)
            && ((exists p | p in ps :: p.IpCluster?) <==> |devices| > 1)
            && ((exists p | p in ps :: p.IdentityRing?) <==> |ring| > 0)
            && |ps| == (if |cards| > 1 then 1 else 0) + (if |devices| > 1 then 1 else 0) + (if |ring| > 0 then 1 else 0)
  {
    var cards, devices, ring := CardsOn(g, t.device), DevicesOn(g, t.ip), Ring(g, t.card);
    var ps := PatternsOf(g, t);
    if |cards| > 1 { assert DeviceSharing(|cards| > 3, cards + {t.device}) in ps; }
    if |devices| > 1 { assert IpCluster(devices + {t.ip}) in ps; }
    if |ring| > 0 { assert IdentityRing(ring + {t.card}) in ps; }
  }

  lemma BuildSnoc(past: seq<Txn>, t: Txn)
    ensures Build(past + [t]) == Add(Build(past), t) && t in past + [t]
  {
    assert (past + [t])[..|past|] == past;
  }

  /** The neighbourhood checks on a graph. */
  method Assess(g: Graph, t: Txn) returns (result: Result)
    ensures result.score == Score(g, t) && result.patterns == PatternsOf(g, t)
    ensures result.connectedEntities == |CardsOn(g, t.device)| + |DevicesOn(g, t.ip)|
  {
    var patterns: seq<Pattern>, score := [], 0.0;
    var cards := CardsOn(g, t.device);
    if |cards| > 1 {
      score := score + 0.4;
      patterns := patterns + [DeviceSharing(|cards| > 3, cards + {t.device})];
    }
    var devices := DevicesOn(g, t.ip);
    if |devices| > 1 {
      score := score + 0.3;
      patterns := patterns + [IpCluster(devices + {t.ip})];
    }
    var connected := Ring(g, t.card);
    if |connected| > 0 {
      score := score + 0.5;
      patterns := patterns + [IdentityRing(connected + {t.card})];
    }
    result := Result(MinReal(1.0, score), patterns, |cards| + |devices|);
  }

  /** The transaction is written before the graph is queried, so the queries see it.  When
      the write fails the caller gets the empty result.  A timestamp that does not convert
      raises before the write; a query that fails raises after it. */
  method AnalyzeGraph(client: Neo4jClient, t: Txn, stamped: bool, writable: bool, readable: bool, ghost past: seq<Txn>)
    returns (raised: bool, result: Result)
    requires client.Contents() == Build(past)
    modifies client
    ensures client.Contents() == if stamped && writable then Build(past + [t]) else Build(past)
    ensures raised <==> !stamped || (writable && !readable)
    ensures stamped && writable && readable ==>
              var g := Build(past + [t]);
              && result.score == Score(g, t) && result.patterns == PatternsOf(g, t)
              && result.connectedEntities == |CardsOn(g, t.device)| + |DevicesOn(g, t.ip)|
    ensures stamped && writable && readable ==>
              var txns := past + [t];
              ScoreSays(result.score, SharesDevice(txns, t), SharesAddress(txns, t), InRing(txns, t))
    ensures !(stamped && writable && readable) ==> result == Result(0.0, [], 0)
    ensures result.score != 0.7
  {
    if !stamped { return true, Result(0.0, [], 0); }
    if !writable { return false, Result(0.0, [], 0); }
    BuildSnoc(past, t);
    PossibleScores(past + [t], t);
    ScoreSaysExactly(past + [t], t);
    client.AddTransactionToGraph(t);
    if !readable { return true, Result(0.0, [], 0); }
    result := Assess(client.Contents(), t);
    raised := false;
  }
}
