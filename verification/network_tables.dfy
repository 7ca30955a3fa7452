/**
 * The state of an MLNetwork (multiplenetwork/include/datastructures.h, lines
 * 863-900) as a value: the canonical tables of actors, layers, nodes and edges,
 * the largest identifier given out per kind, and the derived indexes. Every
 * id-sorted ObjectStore index is the set of identifiers it holds; entities
 * refer to one another by identifier where the library holds shared pointers.
 *
 * Consistent(t) says that the derived indexes agree with the tables; each
 * structural operation of the network is a function from tables to tables,
 * proved here to keep them consistent. Each index is handled by a lemma of its
 * own over plain maps, which needs only the facts about that index.
 */
module NetworkTables {
  import opened Errors

  /** A name given at creation; None stands for the default name of the unnamed overloads. */
  datatype Actor = Actor(id: int, name: Option<string>)
  datatype Layer = Layer(id: int, name: Option<string>)
  datatype Node = Node(id: int, name: Option<string>, actor: int, layer: int)
  datatype Edge = Edge(id: int, v1: int, v2: int, directed: bool)

  /** The edge touches node n. */
  predicate Incident(ed: Edge, n: int)
  {
    ed.v1 == n || ed.v2 == n
  }

  /** The edge leads from a to b: a directed edge one way, an undirected one either way. */
  predicate Joins(ed: Edge, a: int, b: int)
  {
    (ed.v1 == a && ed.v2 == b) || (!ed.directed && ed.v1 == b && ed.v2 == a)
  }

  /** The identifiers an index holds under key k; a key never filled holds none. */
  function Members<K>(idx: map<K, set<int>>, k: K): set<int>
  {
    if k in idx then idx[k] else {}
  }

  /** The index with x filed under k. */
  function AddTo<K(!new)>(idx: map<K, set<int>>, k: K, x: int): (r: map<K, set<int>>)
    ensures forall j, m {:trigger m in Members(r, j)} :: m in Members(r, j) <==> m in Members(idx, j) || (j == k && m == x)
  {
    idx[k := Members(idx, k) + {x}]
  }

  /** The index with x no longer filed under k. */
  function RemoveFrom<K(!new)>(idx: map<K, set<int>>, k: K, x: int): (r: map<K, set<int>>)
    ensures forall j, m {:trigger m in Members(r, j)} :: m in Members(r, j) <==> m in Members(idx, j) && (j != k || m != x)
  {
    idx[k := Members(idx, k) - {x}]
  }

  /** The index with nothing left under k. */
  function Cleared<K(!new)>(idx: map<K, set<int>>, k: K): (r: map<K, set<int>>)
    ensures forall j, m {:trigger m in Members(r, j)} :: m in Members(r, j) <==> m in Members(idx, j) && j != k
  {
    idx - {k}
  }

  /** A name index after an entity with identifier id is created under key k, if it has one. */
  function Bound<K>(idx: map<K, int>, k: Option<K>, id: int): map<K, int>
  {
    if k.Some? then idx[k.value := id] else idx
  }

  /** A name index after the entity with identifier id is erased: its key goes if it still leads to it. */
  function Unbound<K>(idx: map<K, int>, k: Option<K>, id: int): map<K, int>
  {
    if k.Some? && k.value in idx && idx[k.value] == id then idx - {k.value} else idx
  }

  /** The key of a node in nodes_by_layer_and_name: its layer and its name, when it has one. */
  function NameKey(v: Node): Option<(int, string)>
  {
    if v.name.Some? then Some((v.layer, v.name.value)) else None
  }

  /** The edges of a table that do not touch node n. */
  function EdgesAvoiding(edges: map<int, Edge>, n: int): (r: map<int, Edge>)
    ensures forall e :: e in r <==> e in edges && !Incident(edges[e], n)
    ensures forall e :: e in r ==> r[e] == edges[e]
  {
    map e | e in edges && !Incident(edges[e], n) :: edges[e]
  }

  /** Dropping an edge that touches n leaves the edges avoiding n as they were. */
  lemma AvoidingIncident(edges: map<int, Edge>, e: int, n: int)
    requires e in edges && Incident(edges[e], n)
    ensures EdgesAvoiding(edges - {e}, n) == EdgesAvoiding(edges, n)
  {
  }

  /** A table with no edge touching n avoids n already. */
  lemma AvoidingNone(edges: map<int, Edge>, n: int)
    requires forall e :: e in edges ==> !Incident(edges[e], n)
    ensures EdgesAvoiding(edges, n) == edges
  {
    var r := EdgesAvoiding(edges, n);
    forall e | e in edges
      ensures e in r
    {
      assert !Incident(edges[e], n);
    }
    assert r.Keys == edges.Keys;
  }

  /**
   * The indexes read from edge ends: edges_by_nodes, and neighbors_out,
   * neighbors_in and neighbors_all.
   */
  datatype Adjacency = Adjacency(byNodes: map<(int, int), int>, out: map<int, set<int>>,
                                 inn: map<int, set<int>>, all: map<int, set<int>>)

  /** The actors (actors, actors_by_name) and the largest actor identifier given out. */
  datatype ActorTab = ActorTab(maxId: int, byId: map<int, Actor>, byName: map<string, int>)

  /** The layers (layers, layers_by_name) and the largest layer identifier given out. */
  datatype LayerTab = LayerTab(maxId: int, byId: map<int, Layer>, byName: map<string, int>)

  /**
   * The nodes (nodes, nodes_by_layer_and_id, nodes_by_actor_and_id,
   * nodes_by_layer_and_name) and the largest node identifier given out.
   */
  datatype NodeTab = NodeTab(maxId: int, byId: map<int, Node>, byLayer: map<int, set<int>>, byActor: map<int, set<int>>,
                             byName: map<(int, string), int>)

  /**
   * The edges (edges, edges_by_layers_and_id, and the indexes read from edge
   * ends) and the largest edge identifier given out.
   */
  datatype EdgeTab = EdgeTab(maxId: int, byId: map<int, Edge>, byLayers: map<(int, int), set<int>>, adj: Adjacency)

  datatype Tables = Tables(actors: ActorTab, layers: LayerTab, nodes: NodeTab, edges: EdgeTab)

  /** Actors are stored under their identifiers, and the name index finds each named actor. */
  ghost predicate ActorTable(actors: map<int, Actor>, byName: map<string, int>, maxId: int)
  {
    && (forall a :: a in actors ==> actors[a].id == a && a <= maxId)
    && (forall nm {:trigger nm in byName} :: nm in byName ==> byName[nm] in actors && actors[byName[nm]].name == Some(nm))
    && (forall a :: a in actors && actors[a].name.Some? ==>
          actors[a].name.value in byName && byName[actors[a].name.value] == a)
  }

  /** Layers are stored under their identifiers, and the name index finds each named layer. */
  ghost predicate LayerTable(layers: map<int, Layer>, byName: map<string, int>, maxId: int)
  {
    && (forall l :: l in layers ==> layers[l].id == l && l <= maxId)
    && (forall nm {:trigger nm in byName} :: nm in byName ==> byName[nm] in layers && layers[byName[nm]].name == Some(nm))
    && (forall l :: l in layers && layers[l].name.Some? ==>
          layers[l].name.value in byName && byName[layers[l].name.value] == l)
  }

  /** Nodes are stored under their identifiers and stand for a live actor on a live layer. */
  ghost predicate NodeTable(nodes: map<int, Node>, actors: map<int, Actor>, layers: map<int, Layer>, maxId: int)
  {
    forall n :: n in nodes ==> nodes[n].id == n && n <= maxId && nodes[n].actor in actors && nodes[n].layer in layers
  }

  /**
   * nodes_by_layer_and_id and nodes_by_actor_and_id hold exactly the nodes of
   * each layer and of each actor; nodes_by_layer_and_name finds, for a layer
   * and a name, a node of that layer with that name.
   */
  ghost predicate NodeIndexes(nodes: map<int, Node>, byLayer: map<int, set<int>>, byActor: map<int, set<int>>,
                              byName: map<(int, string), int>)
  {
    && (forall l, n {:trigger n in Members(byLayer, l)} :: n in Members(byLayer, l) <==> n in nodes && nodes[n].layer == l)
    && (forall a, n {:trigger n in Members(byActor, a)} :: n in Members(byActor, a) <==> n in nodes && nodes[n].actor == a)
    && (forall k {:trigger k in byName} :: k in byName ==>
          byName[k] in nodes && NameKey(nodes[byName[k]]) == Some(k))
  }

  /** Edges are stored under their identifiers and join live nodes. */
  ghost predicate EdgeTable(edges: map<int, Edge>, nodes: map<int, Node>, maxId: int)
  {
    forall e :: e in edges ==> edges[e].id == e && e <= maxId && edges[e].v1 in nodes && edges[e].v2 in nodes
  }

  /**
   * edges_by_nodes: every edge is found from its ends, in both orders when it
   * is undirected, and every entry names an edge joining its key.
   */
  ghost predicate EndpointIndex(edges: map<int, Edge>, byNodes: map<(int, int), int>)
  {
    && (forall e :: e in edges ==>
          (edges[e].v1, edges[e].v2) in byNodes && byNodes[(edges[e].v1, edges[e].v2)] == e)
    && (forall e :: e in edges && !edges[e].directed ==>
          (edges[e].v2, edges[e].v1) in byNodes && byNodes[(edges[e].v2, edges[e].v1)] == e)
    && (forall k {:trigger k in byNodes} :: k in byNodes ==> byNodes[k] in edges && Joins(edges[byNodes[k]], k.0, k.1))
  }

  /** edges_by_layers_and_id holds exactly the edges from a layer to a layer. */
  ghost predicate LayerPairIndex(edges: map<int, Edge>, nodes: map<int, Node>, byLayers: map<(int, int), set<int>>)
  {
    forall k, e {:trigger e in Members(byLayers, k)} :: e in Members(byLayers, k) <==>
      e in edges && edges[e].v1 in nodes && edges[e].v2 in nodes &&
      k == (nodes[edges[e].v1].layer, nodes[edges[e].v2].layer)
  }

  /** neighbors_out: m is filed under n exactly when the pair (n, m) leads to an edge. */
  ghost predicate OutIndex(out: map<int, set<int>>, byNodes: map<(int, int), int>)
  {
    forall n, m {:trigger m in Members(out, n)} :: m in Members(out, n) <==> (n, m) in byNodes
  }

  /** neighbors_in: m is filed under n exactly when the pair (m, n) leads to an edge. */
  ghost predicate InIndex(inn: map<int, set<int>>, byNodes: map<(int, int), int>)
  {
    forall n, m {:trigger m in Members(inn, n)} :: m in Members(inn, n) <==> (m, n) in byNodes
  }

  /** neighbors_all: m is filed under n exactly when a pair of the two, in either order, leads to an edge. */
  ghost predicate AllIndex(all: map<int, set<int>>, byNodes: map<(int, int), int>)
  {
    forall n, m {:trigger m in Members(all, n)} :: m in Members(all, n) <==> (n, m) in byNodes || (m, n) in byNodes
  }

  /** neighbors_out, neighbors_in and neighbors_all read the endpoint index. */
  ghost predicate NeighborIndexes(adj: Adjacency)
  {
    OutIndex(adj.out, adj.byNodes) && InIndex(adj.inn, adj.byNodes) && AllIndex(adj.all, adj.byNodes)
  }

  /** Every derived index agrees with the canonical tables. */
  ghost predicate Consistent(t: Tables)
  {
    && ActorTable(t.actors.byId, t.actors.byName, t.actors.maxId)
    && LayerTable(t.layers.byId, t.layers.byName, t.layers.maxId)
    && NodeTable(t.nodes.byId, t.actors.byId, t.layers.byId, t.nodes.maxId)
    && NodeIndexes(t.nodes.byId, t.nodes.byLayer, t.nodes.byActor, t.nodes.byName)
    && EdgeTable(t.edges.byId, t.nodes.byId, t.edges.maxId)
    && EndpointIndex(t.edges.byId, t.edges.adj.byNodes)
    && LayerPairIndex(t.edges.byId, t.nodes.byId, t.edges.byLayers)
    && NeighborIndexes(t.edges.adj)
  }
  /** No edge of consistent tables touches a node they do not hold. */
  lemma AvoidingAbsent(t: Tables, n: int)
    requires Consistent(t) && n !in t.nodes.byId
    ensures EdgesAvoiding(t.edges.byId, n) == t.edges.byId
  {
    forall e | e in t.edges.byId
      ensures !Incident(t.edges.byId[e], n)
    {
    }
    AvoidingNone(t.edges.byId, n);
  }


  /** The tables of a network just created. */
  function NoTables(): Tables
  {
    Tables(ActorTab(0, map[], map[]), LayerTab(0, map[], map[]), NodeTab(0, map[], map[], map[], map[]),
           EdgeTab(0, map[], map[], Adjacency(map[], map[], map[], map[])))
  }

  lemma NoTablesConsistent()
    ensures Consistent(NoTables())
  {
  }

  // ---------------------------------------------------------------- actors and layers

  /** add_actor: the next identifier names a new actor, found by its name when it has one. */
  function WithActor(t: Tables, name: Option<string>): Tables
  {
    var id := t.actors.maxId + 1;
    t.(actors := ActorTab(id, t.actors.byId[id := Actor(id, name)], Bound(t.actors.byName, name, id)))
  }

  /** A name is in the actor name index exactly when some actor bears it. */
  lemma ActorNamed(t: Tables, nm: string)
    requires Consistent(t)
    ensures nm in t.actors.byName <==> exists a :: a in t.actors.byId && t.actors.byId[a].name == Some(nm)
  {
    if exists a :: a in t.actors.byId && t.actors.byId[a].name == Some(nm) {
      var a :| a in t.actors.byId && t.actors.byId[a].name == Some(nm);
      assert t.actors.byId[a].name.value == nm;
    }
  }

  lemma ActorTableGrows(actors: map<int, Actor>, byName: map<string, int>, maxId: int, name: Option<string>)
    requires ActorTable(actors, byName, maxId)
    requires name.Some? ==> name.value !in byName
    ensures maxId + 1 !in actors
    ensures ActorTable(actors[maxId + 1 := Actor(maxId + 1, name)], Bound(byName, name, maxId + 1), maxId + 1)
  {
  }

  /** Adding an actor under a fresh name keeps the tables consistent; u is the result. */
  lemma {:induction false} ActorAdded(t: Tables, name: Option<string>, u: Tables)
    requires Consistent(t)
    requires name.Some? ==> name.value !in t.actors.byName
    requires u == WithActor(t, name)
    ensures Consistent(u)
    ensures t.actors.maxId + 1 !in t.actors.byId
  {
    ActorTableGrows(t.actors.byId, t.actors.byName, t.actors.maxId, name);
    assert u.actors == ActorTab(t.actors.maxId + 1, t.actors.byId[t.actors.maxId + 1 := Actor(t.actors.maxId + 1, name)],
                              Bound(t.actors.byName, name, t.actors.maxId + 1));
  }

  /** add_layer: the next identifier names a new layer, found by its name when it has one. */
  function WithLayer(t: Tables, name: Option<string>): Tables
  {
    var id := t.layers.maxId + 1;
    t.(layers := LayerTab(id, t.layers.byId[id := Layer(id, name)], Bound(t.layers.byName, name, id)))
  }

  /** A name is in the layer name index exactly when some layer bears it. */
  lemma LayerNamed(t: Tables, nm: string)
    requires Consistent(t)
    ensures nm in t.layers.byName <==> exists l :: l in t.layers.byId && t.layers.byId[l].name == Some(nm)
  {
    if exists l :: l in t.layers.byId && t.layers.byId[l].name == Some(nm) {
      var l :| l in t.layers.byId && t.layers.byId[l].name == Some(nm);
      assert t.layers.byId[l].name.value == nm;
    }
  }

  lemma LayerTableGrows(layers: map<int, Layer>, byName: map<string, int>, maxId: int, name: Option<string>)
    requires LayerTable(layers, byName, maxId)
    requires name.Some? ==> name.value !in byName
    ensures maxId + 1 !in layers
    ensures LayerTable(layers[maxId + 1 := Layer(maxId + 1, name)], Bound(byName, name, maxId + 1), maxId + 1)
  {
  }

  /** Adding a layer under a fresh name keeps the tables consistent; u is the result. */
  lemma {:induction false} LayerAdded(t: Tables, name: Option<string>, u: Tables)
    requires Consistent(t)
    requires name.Some? ==> name.value !in t.layers.byName
    requires u == WithLayer(t, name)
    ensures Consistent(u)
    ensures t.layers.maxId + 1 !in t.layers.byId
  {
    LayerTableGrows(t.layers.byId, t.layers.byName, t.layers.maxId, name);
    assert u.layers == LayerTab(t.layers.maxId + 1, t.layers.byId[t.layers.maxId + 1 := Layer(t.layers.maxId + 1, name)],
                              Bound(t.layers.byName, name, t.layers.maxId + 1));
  }

  // ---------------------------------------------------------------- nodes

  /**
   * add_node: the next identifier names a new node of the actor on the layer;
   * it joins the layer's and the actor's index and, when named, takes the name
   * on its layer.
   */
  function WithNode(t: Tables, name: Option<string>, actor: int, layer: int): Tables
  {
    var id := t.nodes.maxId + 1;
    var v := Node(id, name, actor, layer);
    t.(nodes := NodeTab(id, t.nodes.byId[id := v], AddTo(t.nodes.byLayer, layer, id), AddTo(t.nodes.byActor, actor, id),
                        Bound(t.nodes.byName, NameKey(v), id)))
  }

  lemma NodeTableGrows(t: Tables, name: Option<string>, actor: int, layer: int)
    requires NodeTable(t.nodes.byId, t.actors.byId, t.layers.byId, t.nodes.maxId) && actor in t.actors.byId && layer in t.layers.byId
    ensures t.nodes.maxId + 1 !in t.nodes.byId
    ensures var u := WithNode(t, name, actor, layer); NodeTable(u.nodes.byId, u.actors.byId, u.layers.byId, u.nodes.maxId)
  {
  }

  lemma NodeIndexesGrow(t: Tables, name: Option<string>, actor: int, layer: int)
    requires NodeIndexes(t.nodes.byId, t.nodes.byLayer, t.nodes.byActor, t.nodes.byName) && t.nodes.maxId + 1 !in t.nodes.byId
    ensures var u := WithNode(t, name, actor, layer);
      NodeIndexes(u.nodes.byId, u.nodes.byLayer, u.nodes.byActor, u.nodes.byName)
  {
  }

  lemma EdgeEndsGrow(t: Tables, name: Option<string>, actor: int, layer: int)
    requires EdgeTable(t.edges.byId, t.nodes.byId, t.edges.maxId)
    ensures var u := WithNode(t, name, actor, layer); EdgeTable(u.edges.byId, u.nodes.byId, u.edges.maxId)
  {
  }

  /** Layer pairs of existing edges do not change when a node is added. */
  lemma {:induction false} LayerPairsKeep(t: Tables, name: Option<string>, actor: int, layer: int)
    requires LayerPairIndex(t.edges.byId, t.nodes.byId, t.edges.byLayers) && EdgeTable(t.edges.byId, t.nodes.byId, t.edges.maxId)
    requires t.nodes.maxId + 1 !in t.nodes.byId
    ensures var u := WithNode(t, name, actor, layer); LayerPairIndex(u.edges.byId, u.nodes.byId, u.edges.byLayers)
  {
    var u := WithNode(t, name, actor, layer);
    forall e | e in t.edges.byId
      ensures u.nodes.byId[t.edges.byId[e].v1] == t.nodes.byId[t.edges.byId[e].v1] && u.nodes.byId[t.edges.byId[e].v2] == t.nodes.byId[t.edges.byId[e].v2]
    {
    }
  }

  /** Adding a node of a live actor on a live layer keeps the tables consistent; u is the result. */
  lemma {:induction false} NodeAdded(t: Tables, name: Option<string>, actor: int, layer: int, u: Tables)
    requires Consistent(t) && actor in t.actors.byId && layer in t.layers.byId
    requires u == WithNode(t, name, actor, layer)
    ensures Consistent(u)
    ensures t.nodes.maxId + 1 !in t.nodes.byId
  {
    NodeTableGrows(t, name, actor, layer);
    NodeIndexesGrow(t, name, actor, layer);
    EdgeEndsGrow(t, name, actor, layer);
    LayerPairsKeep(t, name, actor, layer);
  }

  // ---------------------------------------------------------------- edges

  /** The adjacency indexes once the pair (a, b) leads to edge id: b follows a, a precedes b. */
  function Link(adj: Adjacency, a: int, b: int, id: int): Adjacency
  {
    Adjacency(adj.byNodes[(a, b) := id], AddTo(adj.out, a, b), AddTo(adj.inn, b, a), AddTo(AddTo(adj.all, a, b), b, a))
  }

  /**
   * The adjacency indexes once the pair (a, b) leads nowhere: b no longer
   * follows a, and the two stop being neighbours unless (b, a) still leads to an edge.
   */
  function Unlink(adj: Adjacency, a: int, b: int): Adjacency
  {
    var byNodes := adj.byNodes - {(a, b)};
    Adjacency(byNodes, RemoveFrom(adj.out, a, b), RemoveFrom(adj.inn, b, a),
              if (b, a) in byNodes then adj.all else RemoveFrom(RemoveFrom(adj.all, a, b), b, a))
  }

  /** The adjacency indexes once edge ed is added: linked one way, or both ways when undirected. */
  function Connected(adj: Adjacency, ed: Edge): Adjacency
  {
    if ed.directed then Link(adj, ed.v1, ed.v2, ed.id) else Link(Link(adj, ed.v1, ed.v2, ed.id), ed.v2, ed.v1, ed.id)
  }

  /** The adjacency indexes once edge ed is erased. */
  function Disconnected(adj: Adjacency, ed: Edge): Adjacency
  {
    if ed.directed then Unlink(adj, ed.v1, ed.v2) else Unlink(Unlink(adj, ed.v1, ed.v2), ed.v2, ed.v1)
  }

  lemma LinkOut(out: map<int, set<int>>, byNodes: map<(int, int), int>, a: int, b: int, id: int)
    requires OutIndex(out, byNodes)
    ensures OutIndex(AddTo(out, a, b), byNodes[(a, b) := id])
  {
  }

  lemma LinkIn(inn: map<int, set<int>>, byNodes: map<(int, int), int>, a: int, b: int, id: int)
    requires InIndex(inn, byNodes)
    ensures InIndex(AddTo(inn, b, a), byNodes[(a, b) := id])
  {
  }

  lemma LinkAll(all: map<int, set<int>>, byNodes: map<(int, int), int>, a: int, b: int, id: int)
    requires AllIndex(all, byNodes)
    ensures AllIndex(AddTo(AddTo(all, a, b), b, a), byNodes[(a, b) := id])
  {
  }

  lemma {:induction false} LinkKeeps(adj: Adjacency, a: int, b: int, id: int)
    requires NeighborIndexes(adj)
    ensures NeighborIndexes(Link(adj, a, b, id))
  {
    LinkOut(adj.out, adj.byNodes, a, b, id);
    LinkIn(adj.inn, adj.byNodes, a, b, id);
    LinkAll(adj.all, adj.byNodes, a, b, id);
  }

  lemma UnlinkOut(out: map<int, set<int>>, byNodes: map<(int, int), int>, a: int, b: int)
    requires OutIndex(out, byNodes)
    ensures OutIndex(RemoveFrom(out, a, b), byNodes - {(a, b)})
  {
  }

  lemma UnlinkIn(inn: map<int, set<int>>, byNodes: map<(int, int), int>, a: int, b: int)
    requires InIndex(inn, byNodes)
    ensures InIndex(RemoveFrom(inn, b, a), byNodes - {(a, b)})
  {
  }

  lemma {:induction false} UnlinkAll(all: map<int, set<int>>, byNodes: map<(int, int), int>, a: int, b: int)
    requires AllIndex(all, byNodes)
    ensures var byNodes' := byNodes - {(a, b)};
      AllIndex(if (b, a) in byNodes' then all else RemoveFrom(RemoveFrom(all, a, b), b, a), byNodes')
  {
    var byNodes' := byNodes - {(a, b)};
    if (b, a) !in byNodes' {
      var all' := RemoveFrom(RemoveFrom(all, a, b), b, a);
      forall n, m
        ensures m in Members(all', n) <==> (n, m) in byNodes' || (m, n) in byNodes'
      {
        assert m in Members(all, n) <==> (n, m) in byNodes || (m, n) in byNodes;
      }
    }
  }

  lemma {:induction false} UnlinkKeeps(adj: Adjacency, a: int, b: int)
    requires NeighborIndexes(adj)
    ensures NeighborIndexes(Unlink(adj, a, b))
  {
    UnlinkOut(adj.out, adj.byNodes, a, b);
    UnlinkIn(adj.inn, adj.byNodes, a, b);
    UnlinkAll(adj.all, adj.byNodes, a, b);
  }

  lemma {:induction false} ConnectedKeeps(adj: Adjacency, ed: Edge)
    requires NeighborIndexes(adj)
    ensures NeighborIndexes(Connected(adj, ed))
  {
    LinkKeeps(adj, ed.v1, ed.v2, ed.id);
    if !ed.directed {
      LinkKeeps(Link(adj, ed.v1, ed.v2, ed.id), ed.v2, ed.v1, ed.id);
    }
  }

  lemma {:induction false} DisconnectedKeeps(adj: Adjacency, ed: Edge)
    requires NeighborIndexes(adj)
    ensures NeighborIndexes(Disconnected(adj, ed))
  {
    UnlinkKeeps(adj, ed.v1, ed.v2);
    if !ed.directed {
      UnlinkKeeps(Unlink(adj, ed.v1, ed.v2), ed.v2, ed.v1);
    }
  }

  /**
   * add_edge: the next identifier names a new edge from n1 to n2; it joins
   * the index of its layer pair, is found from its ends (both orders when
   * undirected), and each end becomes a neighbour of the other in the
   * directions the edge leads.
   */
  function WithEdge(t: Tables, n1: int, n2: int, directed: bool): Tables
    requires n1 in t.nodes.byId && n2 in t.nodes.byId
  {
    var id := t.edges.maxId + 1;
    var ed := Edge(id, n1, n2, directed);
    t.(edges := EdgeTab(id, t.edges.byId[id := ed],
                        AddTo(t.edges.byLayers, (t.nodes.byId[n1].layer, t.nodes.byId[n2].layer), id),
                        Connected(t.edges.adj, ed)))
  }

  lemma EdgeTableGrows(t: Tables, n1: int, n2: int, directed: bool)
    requires EdgeTable(t.edges.byId, t.nodes.byId, t.edges.maxId) && n1 in t.nodes.byId && n2 in t.nodes.byId
    ensures t.edges.maxId + 1 !in t.edges.byId
    ensures var u := WithEdge(t, n1, n2, directed); EdgeTable(u.edges.byId, u.nodes.byId, u.edges.maxId)
  {
  }

  /** The endpoint index once edge ed is added: found from its ends, both ways when undirected. */
  function Attach(byNodes: map<(int, int), int>, ed: Edge): map<(int, int), int>
  {
    if ed.directed then byNodes[(ed.v1, ed.v2) := ed.id] else byNodes[(ed.v1, ed.v2) := ed.id][(ed.v2, ed.v1) := ed.id]
  }

  lemma ConnectedEnds(adj: Adjacency, ed: Edge)
    ensures Connected(adj, ed).byNodes == Attach(adj.byNodes, ed)
  {
  }

  lemma {:induction false} EndpointsGrow(t: Tables, n1: int, n2: int, directed: bool)
    requires EndpointIndex(t.edges.byId, t.edges.adj.byNodes) && n1 in t.nodes.byId && n2 in t.nodes.byId && t.edges.maxId + 1 !in t.edges.byId
    requires (n1, n2) !in t.edges.adj.byNodes && (!directed ==> (n2, n1) !in t.edges.adj.byNodes)
    ensures var u := WithEdge(t, n1, n2, directed); EndpointIndex(u.edges.byId, u.edges.adj.byNodes)
  {
    var ed := Edge(t.edges.maxId + 1, n1, n2, directed);
    var u := WithEdge(t, n1, n2, directed);
    ConnectedEnds(t.edges.adj, ed);
    assert u.edges.byId == t.edges.byId[ed.id := ed] && u.edges.adj.byNodes == Attach(t.edges.adj.byNodes, ed);
    forall e | e in u.edges.byId
      ensures (u.edges.byId[e].v1, u.edges.byId[e].v2) in u.edges.adj.byNodes && u.edges.adj.byNodes[(u.edges.byId[e].v1, u.edges.byId[e].v2)] == e
      ensures !u.edges.byId[e].directed ==>
                (u.edges.byId[e].v2, u.edges.byId[e].v1) in u.edges.adj.byNodes && u.edges.adj.byNodes[(u.edges.byId[e].v2, u.edges.byId[e].v1)] == e
    {
      if e != ed.id {
        assert (t.edges.byId[e].v1, t.edges.byId[e].v2) in t.edges.adj.byNodes;
      }
    }
    forall k | k in u.edges.adj.byNodes
      ensures u.edges.adj.byNodes[k] in u.edges.byId && Joins(u.edges.byId[u.edges.adj.byNodes[k]], k.0, k.1)
    {
      if k in t.edges.adj.byNodes && k != (n1, n2) && (directed || k != (n2, n1)) {
        assert u.edges.adj.byNodes[k] == t.edges.adj.byNodes[k] != ed.id;
      }
    }
  }

  lemma {:induction false} LayerPairsGrow(t: Tables, n1: int, n2: int, directed: bool)
    requires LayerPairIndex(t.edges.byId, t.nodes.byId, t.edges.byLayers) && n1 in t.nodes.byId && n2 in t.nodes.byId
    requires t.edges.maxId + 1 !in t.edges.byId
    ensures var u := WithEdge(t, n1, n2, directed); LayerPairIndex(u.edges.byId, u.nodes.byId, u.edges.byLayers)
  {
  }

  lemma {:induction false} NeighborsGrow(t: Tables, n1: int, n2: int, directed: bool)
    requires NeighborIndexes(t.edges.adj) && n1 in t.nodes.byId && n2 in t.nodes.byId
    ensures NeighborIndexes(WithEdge(t, n1, n2, directed).edges.adj)
  {
    ConnectedKeeps(t.edges.adj, Edge(t.edges.maxId + 1, n1, n2, directed));
  }

  /**
   * Adding an edge between two live nodes keeps the tables consistent, as
   * long as no edge joins them yet in a direction the new edge leads; u is the
   * result.
   */
  lemma {:induction false} EdgeAdded(t: Tables, n1: int, n2: int, directed: bool, u: Tables)
    requires Consistent(t) && n1 in t.nodes.byId && n2 in t.nodes.byId
    requires (n1, n2) !in t.edges.adj.byNodes && (!directed ==> (n2, n1) !in t.edges.adj.byNodes)
    requires u == WithEdge(t, n1, n2, directed)
    ensures Consistent(u)
    ensures t.edges.maxId + 1 !in t.edges.byId
  {
    EdgeTableGrows(t, n1, n2, directed);
    EndpointsGrow(t, n1, n2, directed);
    LayerPairsGrow(t, n1, n2, directed);
    NeighborsGrow(t, n1, n2, directed);
  }

  /**
   * erase(edge): the edge leaves the table, the index of its layer pair and
   * the endpoint index; each end stops being a neighbour of the other in the
   * directions it led, and in neither direction once no edge joins them.
   */
  function WithoutEdge(t: Tables, e: int): Tables
    requires e in t.edges.byId && t.edges.byId[e].v1 in t.nodes.byId && t.edges.byId[e].v2 in t.nodes.byId
  {
    var ed := t.edges.byId[e];
    t.(edges := t.edges.(byId := t.edges.byId - {e},
                         byLayers := RemoveFrom(t.edges.byLayers, (t.nodes.byId[ed.v1].layer, t.nodes.byId[ed.v2].layer), e),
                         adj := Disconnected(t.edges.adj, ed)))
  }

  /** Erasing edge ed drops from the endpoint index exactly the pairs the edge was filed under. */
  lemma DisconnectedPairs(adj: Adjacency, ed: Edge)
    ensures forall k :: k in Disconnected(adj, ed).byNodes <==>
              k in adj.byNodes && k != (ed.v1, ed.v2) && (ed.directed || k != (ed.v2, ed.v1))
    ensures forall k :: k in Disconnected(adj, ed).byNodes ==> Disconnected(adj, ed).byNodes[k] == adj.byNodes[k]
  {
  }

  lemma {:induction false} EndpointsShrink(edges: map<int, Edge>, byNodes: map<(int, int), int>, e: int, adj: Adjacency)
    requires EndpointIndex(edges, byNodes) && e in edges && byNodes == adj.byNodes
    ensures EndpointIndex(edges - {e}, Disconnected(adj, edges[e]).byNodes)
    ensures forall k :: k in Disconnected(adj, edges[e]).byNodes ==> Disconnected(adj, edges[e]).byNodes[k] != e
  {
    var ed := edges[e];
    var rest := edges - {e};
    var r := Disconnected(adj, ed).byNodes;
    DisconnectedPairs(adj, ed);
    forall e' | e' in rest
      ensures (rest[e'].v1, rest[e'].v2) in r && r[(rest[e'].v1, rest[e'].v2)] == e'
      ensures !rest[e'].directed ==> (rest[e'].v2, rest[e'].v1) in r && r[(rest[e'].v2, rest[e'].v1)] == e'
    {
      assert byNodes[(edges[e'].v1, edges[e'].v2)] == e';
      assert !edges[e'].directed ==> byNodes[(edges[e'].v2, edges[e'].v1)] == e';
    }
    forall k | k in r
      ensures r[k] in rest && Joins(rest[r[k]], k.0, k.1) && r[k] != e
    {
      assert byNodes[k] in edges && Joins(edges[byNodes[k]], k.0, k.1);
    }
  }

  lemma {:induction false} LayerPairsShrink(edges: map<int, Edge>, nodes: map<int, Node>, byLayers: map<(int, int), set<int>>,
                                            e: int)
    requires LayerPairIndex(edges, nodes, byLayers) && e in edges && edges[e].v1 in nodes && edges[e].v2 in nodes
    ensures LayerPairIndex(edges - {e}, nodes,
                           RemoveFrom(byLayers, (nodes[edges[e].v1].layer, nodes[edges[e].v2].layer), e))
  {
  }

  /** Erasing an edge keeps the tables consistent, and no pair of nodes leads to it any more; u is the result. */
  lemma {:induction false} EdgeRemoved(t: Tables, e: int, u: Tables)
    requires Consistent(t) && e in t.edges.byId
    requires u == WithoutEdge(t, e)
    ensures Consistent(u)
    ensures forall k :: k in u.edges.adj.byNodes ==> u.edges.adj.byNodes[k] != e
  {
    EndpointsShrink(t.edges.byId, t.edges.adj.byNodes, e, t.edges.adj);
    LayerPairsShrink(t.edges.byId, t.nodes.byId, t.edges.byLayers, e);
    DisconnectedKeeps(t.edges.adj, t.edges.byId[e]);
  }

  // ---------------------------------------------------------------- erasing nodes

  /**
   * erase(node), once no edge touches the node: the node leaves the table,
   * the indexes of its layer and actor, the name index when its name still
   * leads to it, and the neighbour indexes.
   */
  function WithoutNode(t: Tables, n: int): Tables
    requires n in t.nodes.byId
  {
    var v := t.nodes.byId[n];
    var adj := t.edges.adj;
    t.(nodes := t.nodes.(byId := t.nodes.byId - {n},
                         byLayer := RemoveFrom(t.nodes.byLayer, v.layer, n),
                         byActor := RemoveFrom(t.nodes.byActor, v.actor, n),
                         byName := Unbound(t.nodes.byName, NameKey(v), n)),
       edges := t.edges.(adj := adj.(out := Cleared(adj.out, n), inn := Cleared(adj.inn, n), all := Cleared(adj.all, n))))
  }

  lemma {:induction false} NodeIndexesShrink(nodes: map<int, Node>, byLayer: map<int, set<int>>, byActor: map<int, set<int>>,
                                             byName: map<(int, string), int>, n: int)
    requires NodeIndexes(nodes, byLayer, byActor, byName) && n in nodes
    ensures NodeIndexes(nodes - {n}, RemoveFrom(byLayer, nodes[n].layer, n), RemoveFrom(byActor, nodes[n].actor, n),
                        Unbound(byName, NameKey(nodes[n]), n))
  {
    var byName' := Unbound(byName, NameKey(nodes[n]), n);
    forall k | k in byName'
      ensures byName'[k] != n
    {
      assert k in byName && byName[k] == byName'[k];
      assert byName[k] == n ==> NameKey(nodes[n]) == Some(k);
    }
  }

  lemma {:induction false} LayerPairsAvoid(edges: map<int, Edge>, nodes: map<int, Node>, byLayers: map<(int, int), set<int>>,
                                           maxId: int, n: int)
    requires LayerPairIndex(edges, nodes, byLayers) && EdgeTable(edges, nodes, maxId)
    requires forall e :: e in edges ==> !Incident(edges[e], n)
    ensures LayerPairIndex(edges, nodes - {n}, byLayers)
  {
    forall e | e in edges
      ensures (nodes - {n})[edges[e].v1] == nodes[edges[e].v1] && (nodes - {n})[edges[e].v2] == nodes[edges[e].v2]
    {
      assert !Incident(edges[e], n);
    }
  }

  lemma {:induction false} NeighborsAvoid(edges: map<int, Edge>, adj: Adjacency, n: int)
    requires EndpointIndex(edges, adj.byNodes) && NeighborIndexes(adj)
    requires forall e :: e in edges ==> !Incident(edges[e], n)
    ensures NeighborIndexes(adj.(out := Cleared(adj.out, n), inn := Cleared(adj.inn, n), all := Cleared(adj.all, n)))
  {
    forall k | k in adj.byNodes
      ensures k.0 != n && k.1 != n
    {
      var e := adj.byNodes[k];
      assert e in edges && Joins(edges[e], k.0, k.1);
      assert !Incident(edges[e], n);
    }
  }

  /** Erasing a node that no edge touches keeps the tables consistent; u is the result. */
  lemma {:induction false} NodeRemoved(t: Tables, n: int, u: Tables)
    requires Consistent(t) && n in t.nodes.byId
    requires forall e :: e in t.edges.byId ==> !Incident(t.edges.byId[e], n)
    requires u == WithoutNode(t, n)
    ensures Consistent(u)
  {
    NodeIndexesShrink(t.nodes.byId, t.nodes.byLayer, t.nodes.byActor, t.nodes.byName, n);
    LayerPairsAvoid(t.edges.byId, t.nodes.byId, t.edges.byLayers, t.edges.maxId, n);
    NeighborsAvoid(t.edges.byId, t.edges.adj, n);
  }

  // ---------------------------------------------------------------- queries

  /** An entry of the node name index leads to a node of that layer bearing that name. */
  lemma NodeNamed(t: Tables, layer: int, nm: string)
    requires Consistent(t) && (layer, nm) in t.nodes.byName
    ensures t.nodes.byName[(layer, nm)] in t.nodes.byId
    ensures var v := t.nodes.byId[t.nodes.byName[(layer, nm)]];
      v.id == t.nodes.byName[(layer, nm)] && v.layer == layer && v.name == Some(nm)
  {
    var n := t.nodes.byName[(layer, nm)];
    assert NameKey(t.nodes.byId[n]) == Some((layer, nm));
  }

  /** The endpoint index holds a pair exactly when some edge joins it. */
  lemma {:induction false} ConnectedIffJoined(t: Tables, a: int, b: int)
    requires Consistent(t)
    ensures (a, b) in t.edges.adj.byNodes <==> exists e :: e in t.edges.byId && Joins(t.edges.byId[e], a, b)
  {
    if exists e :: e in t.edges.byId && Joins(t.edges.byId[e], a, b) {
      var e :| e in t.edges.byId && Joins(t.edges.byId[e], a, b);
      if t.edges.byId[e].v1 == a && t.edges.byId[e].v2 == b {
        assert (t.edges.byId[e].v1, t.edges.byId[e].v2) in t.edges.adj.byNodes;
      } else {
        assert (t.edges.byId[e].v2, t.edges.byId[e].v1) in t.edges.adj.byNodes;
      }
    }
    if (a, b) in t.edges.adj.byNodes {
      assert Joins(t.edges.byId[t.edges.adj.byNodes[(a, b)]], a, b);
    }
  }

  /** The neighbour indexes of n hold exactly the nodes some edge leads to from n, to n, or either. */
  lemma {:induction false} NeighborsJoined(t: Tables, n: int)
    requires Consistent(t)
    ensures forall m :: m in Members(t.edges.adj.out, n) <==> exists e :: e in t.edges.byId && Joins(t.edges.byId[e], n, m)
    ensures forall m :: m in Members(t.edges.adj.inn, n) <==> exists e :: e in t.edges.byId && Joins(t.edges.byId[e], m, n)
    ensures forall m :: m in Members(t.edges.adj.all, n) <==>
              exists e :: e in t.edges.byId && (Joins(t.edges.byId[e], n, m) || Joins(t.edges.byId[e], m, n))
  {
    forall m
      ensures (n, m) in t.edges.adj.byNodes <==> exists e :: e in t.edges.byId && Joins(t.edges.byId[e], n, m)
      ensures (m, n) in t.edges.adj.byNodes <==> exists e :: e in t.edges.byId && Joins(t.edges.byId[e], m, n)
    {
      ConnectedIffJoined(t, n, m);
      ConnectedIffJoined(t, m, n);
    }
  }
}
