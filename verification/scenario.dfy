/**
 * The "friends" network of the MLNetwork unit test
 * (multiplenetwork/test/testMLNetwork.cpp, lines 47-210), replayed on the
 * tables the network's operations leave: three actors, three layers of which
 * the third is directed and the second leads to it by directed edges, nine
 * nodes, six edges. The lemmas state what the test expects of them: every
 * addition succeeds and the duplicates are refused, the neighbour counts, and
 * the node and edge counts after erasing a node and an edge.
 */
module Scenario {
  import opened Errors
  import opened NetworkTables
  import Network
  import Attributes

  /** The actors a1, a2 and Matteo, under identifiers 1, 2 and 3. */
  function FriendsActors(): map<int, Actor>
  {
    map[1 := Actor(1, Some("a1")), 2 := Actor(2, Some("a2")), 3 := Actor(3, Some("Matteo"))]
  }

  /** The layers l1, l2 and Facebook, under identifiers 1, 2 and 3. */
  function FriendsLayers(): map<int, Layer>
  {
    map[1 := Layer(1, Some("l1")), 2 := Layer(2, Some("l2")), 3 := Layer(3, Some("Facebook"))]
  }

  /** Node 3 * (l - 1) + a is actor a on layer l, for actors and layers 1 to 3. */
  function FriendsNodes(): map<int, Node>
  {
    map[1 := Node(1, None, 1, 1), 2 := Node(2, None, 2, 1), 3 := Node(3, None, 3, 1),
        4 := Node(4, None, 1, 2), 5 := Node(5, None, 2, 2), 6 := Node(6, None, 3, 2),
        7 := Node(7, None, 1, 3), 8 := Node(8, None, 2, 3), 9 := Node(9, None, 3, 3)]
  }

  /** The edges e1 to e6. */
  function FriendsEdges(): map<int, Edge>
  {
    map[1 := Edge(1, 1, 2, false), 2 := Edge(2, 4, 5, false), 3 := Edge(3, 5, 6, false),
        4 := Edge(4, 7, 9, true), 5 := Edge(5, 9, 8, true), 6 := Edge(6, 6, 8, true)]
  }

  /**
   * The directionality left by add_layer(l1, false), add_layer(l2, false),
   * add_layer(Facebook, true) and set_directed(l2, Facebook, true) on a new network.
   */
  function FriendsDirections(): map<(int, int), bool>
  {
    map[][(1, 1) := false][(2, 2) := false][(3, 3) := true][(2, 3) := true]
  }

  /** The tables after the three add_actor calls. */
  function Actored(): Tables
  {
    WithActor(WithActor(WithActor(NoTables(), Some("a1")), Some("a2")), Some("Matteo"))
  }

  /** The tables after the three add_layer calls that follow. */
  function Peopled(): Tables
  {
    WithLayer(WithLayer(WithLayer(Actored(), Some("l1")), Some("l2")), Some("Facebook"))
  }

  /** The tables after the nine add_node calls, nodes without names. */
  function Noded(): Tables
  {
    var t := Peopled();
    var l1 := WithNode(WithNode(WithNode(t, None, 1, 1), None, 2, 1), None, 3, 1);
    var l2 := WithNode(WithNode(WithNode(l1, None, 1, 2), None, 2, 2), None, 3, 2);
    WithNode(WithNode(WithNode(l2, None, 1, 3), None, 2, 3), None, 3, 3)
  }

  /** The tables after the first two add_edge calls, on l1 and l2. */
  function TwoLinked(): Tables
  {
    var t := Noded();
    assert 1 in t.nodes.byId && 2 in t.nodes.byId && 4 in t.nodes.byId && 5 in t.nodes.byId;
    WithEdge(WithEdge(t, 1, 2, false), 4, 5, false)
  }

  /** The tables after the next two, on l2 and Facebook. */
  function FourLinked(): Tables
  {
    var t := TwoLinked();
    assert 5 in t.nodes.byId && 6 in t.nodes.byId && 7 in t.nodes.byId && 9 in t.nodes.byId;
    WithEdge(WithEdge(t, 5, 6, false), 7, 9, true)
  }

  /** The tables after all six add_edge calls. */
  function Friends(): Tables
  {
    var t := FourLinked();
    assert 6 in t.nodes.byId && 8 in t.nodes.byId && 9 in t.nodes.byId;
    WithEdge(WithEdge(t, 9, 8, true), 6, 8, true)
  }

  /**
   * Every add_actor and add_layer succeeds, as no name repeats, and a second
   * Matteo or a second Facebook is a duplicate: each already names an entry.
   */
  lemma PeopledTables()
    ensures Peopled().actors.byId == FriendsActors() && Peopled().layers.byId == FriendsLayers()
    ensures Peopled().nodes == NoTables().nodes && Peopled().edges == NoTables().edges
    ensures Peopled().actors.byId[3].name == Some("Matteo") && Peopled().layers.byId[3].name == Some("Facebook")
  {
  }

  /**
   * The second add_actor("Matteo") and add_layer("Facebook", false) find the
   * name taken, which is when AddActor and AddLayer refuse with DuplicateElement.
   */
  lemma DuplicatesRefused()
    ensures exists a :: a in Peopled().actors.byId && Peopled().actors.byId[a].name == Some("Matteo")
    ensures exists l :: l in Peopled().layers.byId && Peopled().layers.byId[l].name == Some("Facebook")
  {
    PeopledTables();
    assert 3 in Peopled().actors.byId && 3 in Peopled().layers.byId;
  }

  /** Every add_node succeeds, as its actor and layer exist, and the nodes are those of FriendsNodes. */
  lemma NodedTables()
    ensures Noded().nodes.byId == FriendsNodes() && Noded().nodes.maxId == 9
    ensures Noded().edges == NoTables().edges
  {
    PeopledTables();
  }

  /** What one add_edge of n1 and n2 leaves in the edge table and the endpoint index, u after t. */
  predicate Filed(t: Tables, u: Tables, n1: int, n2: int, directed: bool)
  {
    var id := t.edges.maxId + 1;
    && u.nodes == t.nodes && u.edges.maxId == id
    && u.edges.byId == t.edges.byId[id := Edge(id, n1, n2, directed)]
    && u.edges.adj.byNodes == if directed then t.edges.adj.byNodes[(n1, n2) := id]
                              else t.edges.adj.byNodes[(n1, n2) := id][(n2, n1) := id]
  }

  lemma EdgeFiled(t: Tables, n1: int, n2: int, directed: bool)
    requires n1 in t.nodes.byId && n2 in t.nodes.byId
    ensures Filed(t, WithEdge(t, n1, n2, directed), n1, n2, directed)
  {
  }

  /**
   * Six add_edge calls, as the test makes them, on tables holding no edge:
   * before each, no edge joins its two nodes (in either order, for the
   * undirected ones), and afterwards the edges are those of FriendsEdges.
   */
  lemma Linked(t0: Tables, t1: Tables, t2: Tables, t3: Tables, t4: Tables, t5: Tables, t6: Tables)
    requires t0.edges.maxId == 0 && t0.edges.byId == map[] && t0.edges.adj.byNodes == map[]
    requires Filed(t0, t1, 1, 2, false) && Filed(t1, t2, 4, 5, false) && Filed(t2, t3, 5, 6, false)
    requires Filed(t3, t4, 7, 9, true) && Filed(t4, t5, 9, 8, true) && Filed(t5, t6, 6, 8, true)
    ensures (1, 2) !in t0.edges.adj.byNodes && (2, 1) !in t0.edges.adj.byNodes
    ensures (4, 5) !in t1.edges.adj.byNodes && (5, 4) !in t1.edges.adj.byNodes
    ensures (5, 6) !in t2.edges.adj.byNodes && (6, 5) !in t2.edges.adj.byNodes
    ensures (7, 9) !in t3.edges.adj.byNodes && (9, 8) !in t4.edges.adj.byNodes && (6, 8) !in t5.edges.adj.byNodes
    ensures t6.nodes == t0.nodes && t6.edges.byId == FriendsEdges()
  {
  }

  /** Every add_edge of the test succeeds on the nine nodes, and the edges are those of FriendsEdges. */
  lemma FriendsTables()
    ensures Friends().nodes.byId == FriendsNodes() && Friends().edges.byId == FriendsEdges()
  {
    NodedTables();
    var t0 := Noded();
    var t1 := WithEdge(t0, 1, 2, false);
    EdgeFiled(t0, 1, 2, false);
    var t2 := WithEdge(t1, 4, 5, false);
    EdgeFiled(t1, 4, 5, false);
    var t3 := WithEdge(t2, 5, 6, false);
    EdgeFiled(t2, 5, 6, false);
    var t4 := WithEdge(t3, 7, 9, true);
    EdgeFiled(t3, 7, 9, true);
    var t5 := WithEdge(t4, 9, 8, true);
    EdgeFiled(t4, 9, 8, true);
    var t6 := WithEdge(t5, 6, 8, true);
    EdgeFiled(t5, 6, 8, true);
    Linked(t0, t1, t2, t3, t4, t5, t6);
  }

  /** The directedness each add_edge gave its edge is the one FriendsDirections sets for the layers of its ends. */
  lemma FriendsDirected()
    ensures forall e :: e in FriendsEdges() ==> FriendsEdges()[e].v1 in FriendsNodes() && FriendsEdges()[e].v2 in FriendsNodes()
    ensures forall e :: e in FriendsEdges() ==>
      FriendsEdges()[e].directed ==
        Network.DirectionOf(FriendsDirections(), FriendsNodes()[FriendsEdges()[e].v1].layer, FriendsNodes()[FriendsEdges()[e].v2].layer)
  {
  }

  /** get_actors and get_layers of the friends network: 3 entries each. */
  lemma PeopleCounts()
    ensures |FriendsActors()| == 3 && |FriendsLayers()| == 3
  {
  }

  /** get_nodes and get_edges of the friends network: 9 and 6 entries. */
  lemma FriendsCounts()
    ensures |FriendsNodes()| == 9 && |FriendsEdges()| == 6
  {
  }

  /** neighbors(n3v2, IN): only n3v0, by the directed e4. */
  lemma InNeighbours(r: set<int>)
    requires forall m :: m in r <==> exists e :: e in FriendsEdges() && Joins(FriendsEdges()[e], m, 9)
    ensures r == {7} && |r| == 1
  {
    assert Joins(FriendsEdges()[4], 7, 9);
  }

  /** neighbors(n3v2, OUT): only n3v1, by the directed e5. */
  lemma OutNeighbours(r: set<int>)
    requires forall m :: m in r <==> exists e :: e in FriendsEdges() && Joins(FriendsEdges()[e], 9, m)
    ensures r == {8} && |r| == 1
  {
    assert Joins(FriendsEdges()[5], 9, 8);
  }

  /** neighbors(n3v2, INOUT): n3v0 and n3v1. */
  lemma AllNeighbours(r: set<int>)
    requires forall m :: m in r <==>
      exists e :: e in FriendsEdges() && (Joins(FriendsEdges()[e], 9, m) || Joins(FriendsEdges()[e], m, 9))
    ensures r == {7, 8} && |r| == 2
  {
    assert Joins(FriendsEdges()[4], 7, 9) && Joins(FriendsEdges()[5], 9, 8);
  }

  /** neighbors(n2v1, OUT): n2v0 and n2v2, as the undirected e2 and e3 lead both ways. */
  lemma UndirectedOutNeighbours(r: set<int>)
    requires forall m :: m in r <==> exists e :: e in FriendsEdges() && Joins(FriendsEdges()[e], 5, m)
    ensures r == {4, 6} && |r| == 2
  {
    assert Joins(FriendsEdges()[2], 5, 4) && Joins(FriendsEdges()[3], 5, 6);
  }

  /** neighbors(n2v1, INOUT): n2v0 and n2v2 again. */
  lemma UndirectedAllNeighbours(r: set<int>)
    requires forall m :: m in r <==>
      exists e :: e in FriendsEdges() && (Joins(FriendsEdges()[e], 5, m) || Joins(FriendsEdges()[e], m, 5))
    ensures r == {4, 6} && |r| == 2
  {
    assert Joins(FriendsEdges()[2], 5, 4) && Joins(FriendsEdges()[3], 5, 6);
  }

  /**
   * erase(n3v2) leaves 8 nodes: EraseNode takes the node table t of the
   * friends network (FriendsTables) to t - {9}.
   */
  lemma NodeErased(t: Tables)
    requires t.nodes.byId == FriendsNodes()
    ensures |t.nodes.byId - {9}| == 8
  {
    var m := FriendsNodes() - {9};
    assert FriendsNodes().Keys == {1, 2, 3, 4, 5, 6, 7, 8, 9};
    assert m.Keys == FriendsNodes().Keys - {9} == {1, 2, 3, 4, 5, 6, 7, 8};
  }

  /** The edges left once erase(n3v2) has taken e4 and e5 with it. */
  function Survivors(): map<int, Edge>
  {
    map[1 := Edge(1, 1, 2, false), 2 := Edge(2, 4, 5, false), 3 := Edge(3, 5, 6, false), 6 := Edge(6, 6, 8, true)]
  }

  /**
   * erase(n3v2) takes exactly e4 and e5 with it: EraseNode leaves the edges
   * of the friends network that avoid node 9.
   */
  lemma EdgesErased(t: Tables)
    requires t.edges.byId == FriendsEdges()
    ensures EdgesAvoiding(t.edges.byId, 9) == Survivors()
  {
    var r := EdgesAvoiding(FriendsEdges(), 9);
    assert Incident(FriendsEdges()[4], 9) && Incident(FriendsEdges()[5], 9);
    assert r.Keys == Survivors().Keys;
  }

  /** erase(e3) then leaves 3 edges: EraseEdge removes e3 from what EraseNode left. */
  lemma SurvivorsCount(t: Tables)
    requires t.edges.byId == FriendsEdges()
    ensures |EdgesAvoiding(t.edges.byId, 9) - {3}| == 3
  {
    EdgesErased(t);
    assert Survivors() - {3} == map[1 := Edge(1, 1, 2, false), 2 := Edge(2, 4, 5, false), 6 := Edge(6, 6, 8, true)];
  }

  /**
   * The node part of the feature test, on the store node_features(l1) creates
   * on first use: a numeric weight and a string type are registered, node
   * n1v0 (id 1) is given weight 32.4 and type "pro", and reads them back.
   */
  method FriendsFeatures() returns (weight: Result<real>, kind: Result<string>)
    ensures weight == Success(32.4) && kind == Success("pro")
  {
    var nodes := new Attributes.AttributeStore();
    var added := nodes.Add("weight", Attributes.NumericType);
    added := nodes.Add("type", Attributes.StringType);
    var stored := nodes.SetNumeric(1, "weight", 32.4);
    stored := nodes.SetString(1, "type", "pro");
    weight := nodes.GetNumeric(1, "weight");
    kind := nodes.GetString(1, "type");
  }

  /**
   * The edge part of the feature test: edge_features(l1, l2), a store of its
   * own, accepts a numeric weight, and edge_features(l2, l1), another store,
   * has no attributes.
   */
  method FriendsEdgeFeatures() returns (edgeWeight: Outcome, forward: int, reverse: int)
    ensures edgeWeight == Pass && forward == 1 && reverse == 0
  {
    var edges := new Attributes.AttributeStore();
    edgeWeight := edges.Add("weight", Attributes.NumericType);
    forward := edges.NumAttributes();
    var back := new Attributes.AttributeStore();
    reverse := back.NumAttributes();
  }
}
