/**
 * MLNetwork (multiplenetwork/include/datastructures.h, lines 573-902): actors,
 * layers, nodes (an actor on a layer) and edges between nodes, with the
 * derived indexes the class keeps next to its canonical tables, the
 * directionality of each pair of layers and the feature stores.
 *
 * The header declares the operations and the private state but not their
 * bodies, so the model is abstract state: the private maps and counters are
 * held together in the field tables, a NetworkTables.Tables value, and every
 * structural operation leaves exactly the tables that the matching function
 * of NetworkTables computes from the old ones.
 */
module Network {
  import opened Errors
  import Attributes
  import opened NetworkTables

  /** Edges are undirected unless a layer pair says otherwise. */
  const DEFAULT_EDGE_DIRECTIONALITY: bool := false

  /** The directionality a map of layer pairs gives edges from layer l1 to layer l2: the entry, or the default. */
  function DirectionOf(directionality: map<(int, int), bool>, l1: int, l2: int): bool
  {
    if (l1, l2) in directionality then directionality[(l1, l2)] else DEFAULT_EDGE_DIRECTIONALITY
  }

  /** edge_mode: which neighbours of a node to select. */
  const INOUT: int := 0
  const IN: int := 1
  const OUT: int := 2

  /** Every attribute of object oid in store s reads its default. */
  ghost predicate EraseRow(s: Attributes.AttributeStore, oid: int)
    reads s
  {
    && (forall n :: s.TypeOf(n) == Some(Attributes.StringType) ==> s.StringValue(oid, n) == Success(s.defaultString))
    && (forall n :: s.TypeOf(n) == Some(Attributes.NumericType) ==> s.NumericValue(oid, n) == Success(s.defaultNumeric))
  }

  /**
   * Across a step, store s keeps its registered attributes and defaults, and
   * every object outside gone reads the values it read before.
   */
  twostate predicate RowForgotten(s: Attributes.AttributeStore, oid: int)
    reads s
  {
    && s.attributeVector == old(s.attributeVector) && s.attributeIds == old(s.attributeIds)
    && s.defaultString == old(s.defaultString) && s.defaultNumeric == old(s.defaultNumeric)
    && s.stringAttribute == Attributes.Forget(old(s.stringAttribute), oid)
    && s.numericAttribute == Attributes.Forget(old(s.numericAttribute), oid)
  }

  /**
   * The layer pair whose store of edge features holds the row of edge e in
   * tables t: the layers of its two ends.
   */
  function EdgeKey(t: Tables, e: int): Option<(int, int)>
  {
    if e in t.edges.byId && t.edges.byId[e].v1 in t.nodes.byId && t.edges.byId[e].v2 in t.nodes.byId
    then Some((t.nodes.byId[t.edges.byId[e].v1].layer, t.nodes.byId[t.edges.byId[e].v2].layer))
    else None
  }

  /** Some element of a non-empty set. */
  method AnyOf(s: set<int>) returns (x: int)
    requires s != {}
    ensures x in s
  {
    if forall y :: y !in s {
      assert false;
    }
    x :| x in s;
  }

  class MLNetwork {
    /** The name given to create. */
    const name: string

    /**
     * The private tables of the network: the identifier counters, the actor,
     * layer, node and edge tables and every index derived from them.
     */
    var tables: Tables

    /** Directionality of the edges from a layer to a layer, where it was set. */
    var edgeDirectionality: map<(int, int), bool>

    /** Feature stores: one for actors, one for layers, one per layer and one per layer pair. */
    const actorAttributes: Attributes.AttributeStore
    const layerAttributes: Attributes.AttributeStore
    var nodeAttributes: map<int, Attributes.AttributeStore>
    var edgeAttributes: map<(int, int), Attributes.AttributeStore>

    /** The feature stores: actors', layers', and those created per layer and per layer pair. */
    ghost function Stores(): set<Attributes.AttributeStore>
      reads this`nodeAttributes, this`edgeAttributes
    {
      {actorAttributes, layerAttributes} + nodeAttributes.Values + edgeAttributes.Values
    }

    /** The store of edge features, if created, for the layers of the two ends of edge e. */
    ghost function RowStore(e: int): set<Attributes.AttributeStore>
      reads this
    {
      match EdgeKey(tables, e)
      case Some(k) => if k in edgeAttributes then {edgeAttributes[k]} else {}
      case None => {}
    }

    /** The store of node features, if created, for the layer of node n. */
    ghost function NodeRowStore(n: int): set<Attributes.AttributeStore>
      reads this
    {
      if n in tables.nodes.byId && tables.nodes.byId[n].layer in nodeAttributes
      then {nodeAttributes[tables.nodes.byId[n].layer]}
      else {}
    }

    /**
     * The store holding an edge's row is owned by the layer pair of its ends
     * alone: it is no other pair's store, no layer's and neither the actors'
     * nor the layers' store.
     */
    lemma RowStoreOwned(e: int)
      requires Separate()
      ensures RowStore(e) <= edgeAttributes.Values
      ensures actorAttributes !in RowStore(e) && layerAttributes !in RowStore(e)
      ensures RowStore(e) !! nodeAttributes.Values
      ensures forall k :: k in edgeAttributes && Some(k) != EdgeKey(tables, e) ==> edgeAttributes[k] !in RowStore(e)
    {
    }

    /**
     * The store holding a node's row is owned by the node's layer alone: it
     * is no other layer's store, no layer pair's and neither the actors' nor
     * the layers' store.
     */
    lemma NodeRowStoreOwned(n: int)
      requires Separate()
      ensures NodeRowStore(n) <= nodeAttributes.Values
      ensures actorAttributes !in NodeRowStore(n) && layerAttributes !in NodeRowStore(n)
      ensures NodeRowStore(n) !! edgeAttributes.Values
      ensures forall l :: l in nodeAttributes && (n !in tables.nodes.byId || l != tables.nodes.byId[n].layer) ==>
                nodeAttributes[l] !in NodeRowStore(n)
    {
    }

    /** Every feature store is a consistent Attributes.AttributeStore. */
    ghost predicate FeaturesValid()
      reads this`nodeAttributes, this`edgeAttributes, Stores()
    {
      && actorAttributes.Valid() && layerAttributes.Valid()
      && (forall l :: l in nodeAttributes ==> nodeAttributes[l].Valid())
      && (forall k :: k in edgeAttributes ==> edgeAttributes[k].Valid())
    }

    /**
     * The feature stores stay consistent across a step after which every store
     * is either s, left consistent, or an old store left alone.
     */
    twostate lemma StoresKept(new s: Attributes.AttributeStore)
      requires old(FeaturesValid())
      requires s.Valid()
      requires s != actorAttributes ==> unchanged(actorAttributes)
      requires s != layerAttributes ==> unchanged(layerAttributes)
      requires forall l :: l in old(nodeAttributes) && old(nodeAttributes)[l] != s ==> unchanged(old(nodeAttributes)[l])
      requires forall k :: k in old(edgeAttributes) && old(edgeAttributes)[k] != s ==> unchanged(old(edgeAttributes)[k])
      requires forall l :: l in nodeAttributes ==>
                 nodeAttributes[l] == s || (l in old(nodeAttributes) && nodeAttributes[l] == old(nodeAttributes)[l])
      requires forall k :: k in edgeAttributes ==>
                 edgeAttributes[k] == s || (k in old(edgeAttributes) && edgeAttributes[k] == old(edgeAttributes)[k])
      ensures FeaturesValid()
    {
    }

    /** The feature stores stay consistent across a step that leaves them, and the maps holding them, alone. */
    twostate lemma FeaturesKept()
      requires old(FeaturesValid())
      requires unchanged(this`nodeAttributes, this`edgeAttributes)
      requires unchanged(old(Stores()))
      ensures FeaturesValid()
    {
    }

    /** Every attribute of object oid in the feature store s reads its default again. */
    method ClearRow(s: Attributes.AttributeStore, oid: int)
      requires FeaturesValid() && s in Stores() && s.Valid()
      modifies s
      ensures FeaturesValid() && EraseRow(s, oid) && RowForgotten(s, oid)
      ensures unchanged(this)
    {
      s.Remove(oid);
      StoresKept(s);
    }

    /**
     * Every feature store belongs to one owner: the actors, the layers, one
     * layer or one layer pair.
     */
    ghost predicate Separate()
      reads this`nodeAttributes, this`edgeAttributes
    {
      && actorAttributes != layerAttributes
      && actorAttributes !in nodeAttributes.Values + edgeAttributes.Values
      && layerAttributes !in nodeAttributes.Values + edgeAttributes.Values
      && nodeAttributes.Values !! edgeAttributes.Values
      && (forall l, l' :: l in nodeAttributes && l' in nodeAttributes && l != l' ==> nodeAttributes[l] != nodeAttributes[l'])
      && (forall k, k' :: k in edgeAttributes && k' in edgeAttributes && k != k' ==> edgeAttributes[k] != edgeAttributes[k'])
    }

    ghost predicate Valid()
      reads this, Stores()
    {
      Consistent(tables) && FeaturesValid() && Separate()
    }

    /** is_directed: the directionality last set for edges from layer l1 to layer l2, or the default. */
    function Directed(l1: int, l2: int): (r: bool)
      reads this
      ensures (l1, l2) in edgeDirectionality ==> r == edgeDirectionality[(l1, l2)]
      ensures (l1, l2) !in edgeDirectionality ==> !r
    {
      DirectionOf(edgeDirectionality, l1, l2)
    }

    /**
     * What add_edge demands of its callers: no edge joins the two nodes yet,
     * in either order when the new edge would be undirected.
     */
    ghost predicate Unconnected(n1: int, n2: int)
      reads this
      requires n1 in tables.nodes.byId && n2 in tables.nodes.byId
    {
      && (n1, n2) !in tables.edges.adj.byNodes
      && (!Directed(tables.nodes.byId[n1].layer, tables.nodes.byId[n2].layer) ==> (n2, n1) !in tables.edges.adj.byNodes)
    }

    /** create: an empty network. */
    constructor (name: string)
      ensures Valid() && fresh(actorAttributes) && fresh(layerAttributes)
      ensures this.name == name && tables == NoTables()
      ensures edgeDirectionality == map[] && nodeAttributes == map[] && edgeAttributes == map[]
      ensures actorAttributes != layerAttributes
      ensures actorAttributes.attributeVector == [] && actorAttributes.attributeIds == map[]
      ensures actorAttributes.defaultNumeric == 0.0 && actorAttributes.defaultString == ""
      ensures layerAttributes.attributeVector == [] && layerAttributes.attributeIds == map[]
      ensures layerAttributes.defaultNumeric == 0.0 && layerAttributes.defaultString == ""
    {
      this.name := name;
      tables := NoTables();
      edgeDirectionality := map[];
      actorAttributes := new Attributes.AttributeStore();
      layerAttributes := new Attributes.AttributeStore();
      nodeAttributes, edgeAttributes := map[], map[];
      new;
      NoTablesConsistent();
      assert Stores() == {actorAttributes, layerAttributes};
    }

    /**
     * add_actor: a new actor under the next identifier. A name already given
     * to an actor is a DuplicateElement and changes nothing.
     */
    method AddActor(name: Option<string>) returns (r: Result<Actor>)
      requires Valid()
      modifies this`tables
      ensures Valid()
      ensures r.Failure? <==> name.Some? && exists a :: a in old(tables.actors.byId) && old(tables.actors.byId)[a].name == name
      ensures r.Failure? ==> r.error == DuplicateElement && unchanged(this)
      ensures r.Success? ==> r.value.id == old(tables.actors.maxId) + 1 && r.value.name == name && r.value.id !in old(tables.actors.byId)
      ensures r.Success? ==> tables == WithActor(old(tables), name)
    {
      if name.Some? {
        ActorNamed(tables, name.value);
        if name.value in tables.actors.byName {
          return Failure(DuplicateElement);
        }
      }
      ghost var t := tables;
      r := Success(Actor(tables.actors.maxId + 1, name));
      tables := WithActor(tables, name);
      FeaturesKept();
      ActorAdded(t, name, tables);
    }

    /** get_actor(id): the actor with that identifier, or None (NULL). */
    function GetActor(id: int): (r: Option<Actor>)
      reads this
      requires Consistent(tables)
      ensures r.Some? <==> id in tables.actors.byId
      ensures r.Some? ==> r.value == tables.actors.byId[id] && r.value.id == id
    {
      if id in tables.actors.byId then Some(tables.actors.byId[id]) else None
    }

    /** get_actor(name): the actor with that name, or None (NULL). */
    function GetActorNamed(name: string): (r: Option<Actor>)
      reads this
      requires Consistent(tables)
      ensures r.Some? <==> exists a :: a in tables.actors.byId && tables.actors.byId[a].name == Some(name)
      ensures r.Some? ==> r.value.id in tables.actors.byId && tables.actors.byId[r.value.id] == r.value && r.value.name == Some(name)
    {
      ActorNamed(tables, name);
      if name in tables.actors.byName then Some(tables.actors.byId[tables.actors.byName[name]]) else None
    }

    /** get_actors: all actors, keyed by identifier. */
    function GetActors(): (r: map<int, Actor>)
      reads this
      requires Consistent(tables)
      ensures forall a :: a in r <==> a in tables.actors.byId
      ensures forall a :: a in r ==> r[a].id == a && r[a] == tables.actors.byId[a]
    {
      tables.actors.byId
    }

    /**
     * add_layer: a new layer under the next identifier, whose own edges have
     * the given directionality. A name already given to a layer is a
     * DuplicateElement and changes nothing.
     */
    method AddLayer(name: Option<string>, directed: bool) returns (r: Result<Layer>)
      requires Valid()
      modifies this`tables, this`edgeDirectionality
      ensures Valid()
      ensures r.Failure? <==> name.Some? && exists l :: l in old(tables.layers.byId) && old(tables.layers.byId)[l].name == name
      ensures r.Failure? ==> r.error == DuplicateElement && unchanged(this)
      ensures r.Success? ==> r.value.id == old(tables.layers.maxId) + 1 && r.value.name == name && r.value.id !in old(tables.layers.byId)
      ensures r.Success? ==> tables == WithLayer(old(tables), name)
      ensures r.Success? ==> edgeDirectionality == old(edgeDirectionality)[(r.value.id, r.value.id) := directed]
    {
      if name.Some? {
        LayerNamed(tables, name.value);
        if name.value in tables.layers.byName {
          return Failure(DuplicateElement);
        }
      }
      ghost var t := tables;
      var id := tables.layers.maxId + 1;
      r := Success(Layer(id, name));
      tables := WithLayer(tables, name);
      edgeDirectionality := edgeDirectionality[(id, id) := directed];
      FeaturesKept();
      LayerAdded(t, name, tables);
    }

    /** set_directed: edges from layer l1 to layer l2 are directed or not; no other pair changes. */
    method SetDirected(l1: int, l2: int, directed: bool)
      requires Valid()
      modifies this`edgeDirectionality
      ensures Valid()
      ensures Directed(l1, l2) == directed
      ensures forall p, q :: (p, q) != (l1, l2) ==> Directed(p, q) == old(Directed(p, q))
    {
      edgeDirectionality := edgeDirectionality[(l1, l2) := directed];
      FeaturesKept();
    }

    /** get_layer(id): the layer with that identifier, or None (NULL). */
    function GetLayer(id: int): (r: Option<Layer>)
      reads this
      requires Consistent(tables)
      ensures r.Some? <==> id in tables.layers.byId
      ensures r.Some? ==> r.value == tables.layers.byId[id] && r.value.id == id
    {
      if id in tables.layers.byId then Some(tables.layers.byId[id]) else None
    }

    /** get_layer(name): the layer with that name, or None (NULL). */
    function GetLayerNamed(name: string): (r: Option<Layer>)
      reads this
      requires Consistent(tables)
      ensures r.Some? <==> exists l :: l in tables.layers.byId && tables.layers.byId[l].name == Some(name)
      ensures r.Some? ==> r.value.id in tables.layers.byId && tables.layers.byId[r.value.id] == r.value && r.value.name == Some(name)
    {
      LayerNamed(tables, name);
      if name in tables.layers.byName then Some(tables.layers.byId[tables.layers.byName[name]]) else None
    }

    /** get_layers: all layers, keyed by identifier. */
    function GetLayers(): (r: map<int, Layer>)
      reads this
      requires Consistent(tables)
      ensures forall l :: l in r <==> l in tables.layers.byId
      ensures forall l :: l in r ==> r[l].id == l && r[l] == tables.layers.byId[l]
    {
      tables.layers.byId
    }

    /**
     * add_node: a new node for an actor on a layer, under the next identifier.
     * An actor or layer not in the network is ElementNotFound and changes nothing.
     */
    method AddNode(name: Option<string>, actor: int, layer: int) returns (r: Result<Node>)
      requires Valid()
      modifies this`tables
      ensures Valid()
      ensures r.Failure? <==> actor !in old(tables.actors.byId) || layer !in old(tables.layers.byId)
      ensures r.Failure? ==> r.error == ElementNotFound && unchanged(this)
      ensures r.Success? ==> r.value.id == old(tables.nodes.maxId) + 1 && r.value.id !in old(tables.nodes.byId)
      ensures r.Success? ==> r.value.name == name && r.value.actor == actor && r.value.layer == layer
      ensures r.Success? ==> tables == WithNode(old(tables), name, actor, layer)
    {
      if actor !in tables.actors.byId || layer !in tables.layers.byId {
        return Failure(ElementNotFound);
      }
      ghost var t := tables;
      r := Success(Node(tables.nodes.maxId + 1, name, actor, layer));
      tables := WithNode(tables, name, actor, layer);
      FeaturesKept();
      NodeAdded(t, name, actor, layer, tables);
    }

    /** get_node(id): the node with that identifier, or None (NULL). */
    function GetNode(id: int): (r: Option<Node>)
      reads this
      requires Consistent(tables)
      ensures r.Some? <==> id in tables.nodes.byId
      ensures r.Some? ==> r.value == tables.nodes.byId[id] && r.value.id == id
      ensures r.Some? ==> r.value.actor in tables.actors.byId && r.value.layer in tables.layers.byId
    {
      if id in tables.nodes.byId then Some(tables.nodes.byId[id]) else None
    }

    /** get_node(name, layer): the node the name index holds for that layer and name, or None (NULL). */
    function GetNodeNamed(name: string, layer: int): (r: Option<Node>)
      reads this
      requires Consistent(tables)
      ensures r.Some? <==> (layer, name) in tables.nodes.byName
      ensures r.Some? ==> r.value.id in tables.nodes.byId && tables.nodes.byId[r.value.id] == r.value
      ensures r.Some? ==> r.value.layer == layer && r.value.name == Some(name)
    {
      if (layer, name) in tables.nodes.byName then
        NodeNamed(tables, layer, name);
        Some(tables.nodes.byId[tables.nodes.byName[(layer, name)]])
      else None
    }

    /** get_nodes: all nodes, keyed by identifier. */
    function GetNodes(): (r: map<int, Node>)
      reads this
      requires Consistent(tables)
      ensures forall n :: n in r <==> n in tables.nodes.byId
      ensures forall n :: n in r ==> r[n].id == n && r[n] == tables.nodes.byId[n]
    {
      tables.nodes.byId
    }

    /** get_nodes(layer): the nodes on a layer. */
    function GetNodesOnLayer(layer: int): (r: set<int>)
      reads this
      requires Consistent(tables)
      ensures forall n :: n in r <==> n in tables.nodes.byId && tables.nodes.byId[n].layer == layer
    {
      Members(tables.nodes.byLayer, layer)
    }

    /** get_nodes(actor): the nodes of an actor. */
    function GetNodesOfActor(actor: int): (r: set<int>)
      reads this
      requires Consistent(tables)
      ensures forall n :: n in r <==> n in tables.nodes.byId && tables.nodes.byId[n].actor == actor
    {
      Members(tables.nodes.byActor, actor)
    }

    /**
     * add_edge: a new edge from node1 to node2 under the next identifier,
     * directed as the pair of their layers says. A node not in the network is
     * ElementNotFound and changes nothing; two edges between the same nodes
     * are not allowed, so the pair must be unconnected.
     */
    method AddEdge(node1: int, node2: int) returns (r: Result<Edge>)
      requires Valid()
      requires node1 in tables.nodes.byId && node2 in tables.nodes.byId ==> Unconnected(node1, node2)
      modifies this`tables
      ensures Valid()
      ensures r.Failure? <==> node1 !in old(tables.nodes.byId) || node2 !in old(tables.nodes.byId)
      ensures r.Failure? ==> r.error == ElementNotFound && unchanged(this)
      ensures r.Success? ==> r.value.id !in old(tables.edges.byId)
      ensures r.Success? ==> r.value.id == old(tables.edges.maxId) + 1 && r.value.v1 == node1 && r.value.v2 == node2
      ensures r.Success? ==> r.value.directed == old(Directed(tables.nodes.byId[node1].layer, tables.nodes.byId[node2].layer))
      ensures r.Success? ==> tables == WithEdge(old(tables), node1, node2, r.value.directed)
    {
      if node1 !in tables.nodes.byId || node2 !in tables.nodes.byId {
        return Failure(ElementNotFound);
      }
      var directed := Directed(tables.nodes.byId[node1].layer, tables.nodes.byId[node2].layer);
      ghost var t := tables;
      r := Success(Edge(tables.edges.maxId + 1, node1, node2, directed));
      tables := WithEdge(tables, node1, node2, directed);
      FeaturesKept();
      EdgeAdded(t, node1, node2, directed, tables);
    }

    /** get_edge: the edge leading from node1 to node2, or None (NULL). */
    function GetEdge(node1: int, node2: int): (r: Option<Edge>)
      reads this
      requires Consistent(tables)
      ensures r.None? <==> forall e :: e in tables.edges.byId ==> !Joins(tables.edges.byId[e], node1, node2)
      ensures r.Some? ==> r.value.id in tables.edges.byId && tables.edges.byId[r.value.id] == r.value && Joins(r.value, node1, node2)
    {
      ConnectedIffJoined(tables, node1, node2);
      if (node1, node2) in tables.edges.adj.byNodes then Some(tables.edges.byId[tables.edges.adj.byNodes[(node1, node2)]]) else None
    }

    /** get_edges: all edges, keyed by identifier. */
    function GetEdges(): (r: map<int, Edge>)
      reads this
      requires Consistent(tables)
      ensures forall e :: e in r <==> e in tables.edges.byId
      ensures forall e :: e in r ==> r[e].id == e && r[e] == tables.edges.byId[e]
    {
      tables.edges.byId
    }

    /** get_edges(layer1, layer2): the edges from a node on layer1 to a node on layer2. */
    function GetEdgesBetween(layer1: int, layer2: int): (r: set<int>)
      reads this
      requires Consistent(tables)
      ensures forall e :: e in r <==>
        e in tables.edges.byId && tables.nodes.byId[tables.edges.byId[e].v1].layer == layer1 && tables.nodes.byId[tables.edges.byId[e].v2].layer == layer2
    {
      Members(tables.edges.byLayers, (layer1, layer2))
    }

    /**
     * neighbors: the nodes reached by an edge leaving the node (OUT), entering
     * it (IN) or either (INOUT); an undirected edge leads both ways. Any other
     * mode is WrongParameter.
     */
    function Neighbors(node: int, mode: int): (r: Result<set<int>>)
      reads this
      requires Consistent(tables)
      ensures r.Failure? <==> mode != INOUT && mode != IN && mode != OUT
      ensures r.Failure? ==> r.error == WrongParameter
      ensures r.Success? && mode == OUT ==> forall m :: m in r.value <==> exists e :: e in tables.edges.byId && Joins(tables.edges.byId[e], node, m)
      ensures r.Success? && mode == IN ==> forall m :: m in r.value <==> exists e :: e in tables.edges.byId && Joins(tables.edges.byId[e], m, node)
      ensures r.Success? && mode == INOUT ==> forall m :: m in r.value <==>
                exists e :: e in tables.edges.byId && (Joins(tables.edges.byId[e], node, m) || Joins(tables.edges.byId[e], m, node))
    {
      NeighborsJoined(tables, node);
      if mode == IN then Success(Members(tables.edges.adj.inn, node))
      else if mode == OUT then Success(Members(tables.edges.adj.out, node))
      else if mode == INOUT then Success(Members(tables.edges.adj.all, node))
      else Failure(WrongParameter)
    }

    /** The tables part of erase(edge): the edge leaves the table and every index. */
    method DropEdge(e: int)
      requires Valid() && e in tables.edges.byId
      modifies this
      ensures Valid()
      ensures tables == WithoutEdge(old(tables), e)
      ensures forall k :: k in tables.edges.adj.byNodes ==> tables.edges.adj.byNodes[k] != e
      ensures unchanged(this`edgeDirectionality, this`nodeAttributes, this`edgeAttributes)
    {
      ghost var t := tables;
      tables := WithoutEdge(tables, e);
      FeaturesKept();
      EdgeRemoved(t, e, tables);
    }

    /** The tables part of erase(node), once no edge touches the node: it leaves the table and every index. */
    method DropNode(n: int)
      requires Valid() && n in tables.nodes.byId
      requires forall e :: e in tables.edges.byId ==> !Incident(tables.edges.byId[e], n)
      modifies this
      ensures Valid()
      ensures tables == WithoutNode(old(tables), n)
      ensures unchanged(this`edgeDirectionality, this`nodeAttributes, this`edgeAttributes)
    {
      ghost var t := tables;
      tables := WithoutNode(tables, n);
      FeaturesKept();
      NodeRemoved(t, n, tables);
    }

    /**
     * erase(edge): the edge leaves the table and every index, and its row of
     * edge features reads the defaults again. An edge not in the network
     * changes nothing.
     */
    method EraseEdge(e: int)
      requires Valid()
      modifies this, RowStore(e)
      ensures Valid()
      ensures unchanged(actorAttributes, layerAttributes)
      ensures e !in old(tables.edges.byId) ==> unchanged(this)
      ensures e in old(tables.edges.byId) ==> tables == WithoutEdge(old(tables), e)
      ensures e in old(tables.edges.byId) ==> forall k :: k in tables.edges.adj.byNodes ==> tables.edges.adj.byNodes[k] != e
      ensures unchanged(this`edgeDirectionality, this`nodeAttributes, this`edgeAttributes)
      ensures e in old(tables.edges.byId) ==>
        var k := (old(tables.nodes.byId)[old(tables.edges.byId)[e].v1].layer, old(tables.nodes.byId)[old(tables.edges.byId)[e].v2].layer);
        k in edgeAttributes ==> EraseRow(edgeAttributes[k], e) && RowForgotten(edgeAttributes[k], e)
    {
      RowStoreOwned(e);
      if e !in tables.edges.byId {
        return;
      }
      var k := (tables.nodes.byId[tables.edges.byId[e].v1].layer, tables.nodes.byId[tables.edges.byId[e].v2].layer);
      if k in edgeAttributes {
        ClearRow(edgeAttributes[k], e);
      }
      DropEdge(e);
    }

    /**
     * The first half of erase(node): every edge touching node n is erased,
     * one at a time, and nothing else goes.
     */
    method EraseEdgesOf(n: int)
      requires Valid()
      modifies this, edgeAttributes.Values
      ensures Valid()
      ensures tables.actors == old(tables.actors) && tables.layers == old(tables.layers) && tables.nodes == old(tables.nodes)
      ensures tables.edges.byId == EdgesAvoiding(old(tables.edges.byId), n) && tables.edges.maxId == old(tables.edges.maxId)
      ensures unchanged(this`edgeDirectionality, this`nodeAttributes, this`edgeAttributes)
    {
      ghost var t := tables;
      var incident := set e | e in tables.edges.byId && Incident(tables.edges.byId[e], n);
      while incident != {}
        invariant Valid()
        invariant tables.actors == t.actors && tables.layers == t.layers && tables.nodes == t.nodes
        invariant tables.edges.maxId == t.edges.maxId
        invariant unchanged(this`edgeDirectionality, this`nodeAttributes, this`edgeAttributes)
        invariant forall e :: e in incident ==> e in tables.edges.byId && Incident(tables.edges.byId[e], n)
        invariant forall e :: e in tables.edges.byId && Incident(tables.edges.byId[e], n) ==> e in incident
        invariant EdgesAvoiding(tables.edges.byId, n) == EdgesAvoiding(t.edges.byId, n)
        decreases incident
      {
        var e := AnyOf(incident);
        ghost var before := tables.edges.byId;
        RowStoreOwned(e);
        EraseEdge(e);
        AvoidingIncident(before, e, n);
        incident := incident - {e};
      }
      AvoidingNone(tables.edges.byId, n);
    }

    /**
     * The table part of erase(node): every edge touching node n is erased,
     * then n leaves the table and every index.
     */
    method DropWithEdges(n: int)
      requires Valid() && n in tables.nodes.byId
      modifies this, edgeAttributes.Values
      ensures Valid()
      ensures unchanged(this`edgeDirectionality, this`nodeAttributes, this`edgeAttributes)
      ensures unchanged(nodeAttributes.Values)
      ensures tables.nodes.byId == old(tables.nodes.byId) - {n} && tables.nodes.maxId == old(tables.nodes.maxId)
      ensures tables.edges.byId == EdgesAvoiding(old(tables.edges.byId), n) && tables.edges.maxId == old(tables.edges.maxId)
      ensures tables.actors == old(tables.actors) && tables.layers == old(tables.layers)
    {
      EraseEdgesOf(n);
      DropNode(n);
    }

    /**
     * erase(node): every edge touching the node is erased first, then the node
     * leaves the table and every index, and its row of node features reads the
     * defaults again. A node not in the network changes nothing.
     */
    method EraseNode(n: int)
      requires Valid()
      modifies this, NodeRowStore(n), edgeAttributes.Values
      ensures Valid()
      ensures unchanged(this`edgeDirectionality, this`nodeAttributes, this`edgeAttributes)
      ensures n !in old(tables.nodes.byId) ==> unchanged(this) && unchanged(edgeAttributes.Values)
      ensures tables.nodes.byId == old(tables.nodes.byId) - {n} && tables.nodes.maxId == old(tables.nodes.maxId)
      ensures tables.edges.byId == EdgesAvoiding(old(tables.edges.byId), n) && tables.edges.maxId == old(tables.edges.maxId)
      ensures tables.actors == old(tables.actors) && tables.layers == old(tables.layers)
      ensures n in old(tables.nodes.byId) && old(tables.nodes.byId)[n].layer in nodeAttributes ==>
                EraseRow(nodeAttributes[old(tables.nodes.byId)[n].layer], n) &&
                RowForgotten(nodeAttributes[old(tables.nodes.byId)[n].layer], n)
      ensures unchanged(actorAttributes, layerAttributes)
    {
      NodeRowStoreOwned(n);
      if n !in tables.nodes.byId {
        AvoidingAbsent(tables, n);
        assert tables.nodes.byId - {n} == tables.nodes.byId;
        return;
      }
      var layer := tables.nodes.byId[n].layer;
      if layer in nodeAttributes {
        ClearRow(nodeAttributes[layer], n);
      }
      DropWithEdges(n);
    }

    /** actor_features: the store of actor features. */
    method ActorFeatures() returns (s: Attributes.AttributeStore)
      requires Valid()
      ensures s == actorAttributes && s.Valid()
    {
      s := actorAttributes;
    }

    /** layer_features: the store of layer features. */
    method LayerFeatures() returns (s: Attributes.AttributeStore)
      requires Valid()
      ensures s == layerAttributes && s.Valid()
    {
      s := layerAttributes;
    }

    /** node_features(layer): the store of the layer's node features, created empty on first use. */
    method NodeFeatures(layer: int) returns (s: Attributes.AttributeStore)
      requires Valid()
      modifies this`nodeAttributes
      ensures Valid() && s.Valid()
      ensures layer in old(nodeAttributes) ==> s == old(nodeAttributes)[layer] && unchanged(this)
      ensures layer !in old(nodeAttributes) ==> fresh(s) && nodeAttributes == old(nodeAttributes)[layer := s]
      ensures layer !in old(nodeAttributes) ==> s.attributeVector == [] && s.attributeIds == map[]
      ensures layer !in old(nodeAttributes) ==> s.defaultNumeric == 0.0 && s.defaultString == ""
    {
      if layer in nodeAttributes {
        s := nodeAttributes[layer];
      } else {
        s := new Attributes.AttributeStore();
        nodeAttributes := nodeAttributes[layer := s];
        StoresKept(s);
      }
    }

    /** edge_features(layer1, layer2): the store of features of edges between two layers, created empty on first use. */
    method EdgeFeatures(layer1: int, layer2: int) returns (s: Attributes.AttributeStore)
      requires Valid()
      modifies this`edgeAttributes
      ensures Valid() && s.Valid()
      ensures (layer1, layer2) in old(edgeAttributes) ==> s == old(edgeAttributes)[(layer1, layer2)] && unchanged(this)
      ensures (layer1, layer2) !in old(edgeAttributes) ==>
                fresh(s) && edgeAttributes == old(edgeAttributes)[(layer1, layer2) := s]
      ensures (layer1, layer2) !in old(edgeAttributes) ==> s.attributeVector == [] && s.attributeIds == map[]
      ensures (layer1, layer2) !in old(edgeAttributes) ==> s.defaultNumeric == 0.0 && s.defaultString == ""
    {
      if (layer1, layer2) in edgeAttributes {
        s := edgeAttributes[(layer1, layer2)];
      } else {
        s := new Attributes.AttributeStore();
        edgeAttributes := edgeAttributes[(layer1, layer2) := s];
        StoresKept(s);
      }
    }
  }
}
