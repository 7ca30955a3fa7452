# multinet data structures in Dafny

A model of the data structures of multinet's multilayer network library
(`multiplenetwork/include/datastructures.h`). The model covers three parts:

- **`ObjectStore<T>`.** An order-statistic skip list keyed by object
  identifier. Every id-sorted index of a network is one of these.
  - It is modelled as a class over an arena of entries. The header is handle
    0, and each entry has its key, payload, forward links and link lengths
    (spans).
  - The ghost state is the base-level path, the sorted key sequence `Keys` and
    the map `Contents`.
  - `contains`, `get`, `get_at_index`, `insert` and `erase` are the library's
    descent loops and splicing loops. Each is proved against the abstract
    sorted map, together with the span invariant: each link's length is the
    distance, in base-level positions, to the next tower of that level, or to
    one past the last entry.
  - The pure structural part is in module `SkipLayout`: the shape of a
    well-formed list, and the lemmas about splicing an entry in or out at one
    level.
- **`AttributeStore`.** The registry of named, typed attributes, with a value
  map per attribute and defaults. Its contracts follow the header's
  declarations and documentation (module `Attributes`).
- **`MLNetwork`.** Actors, layers, nodes (an actor on a layer) and edges,
  modelled at contract level.
  - The private tables and derived indexes form a value, `NetworkTables.Tables`.
  - `Consistent` states that every index agrees with the canonical tables:
    - nodes by layer, by actor, and by layer and name;
    - edges by layer pair and by node pair;
    - the out/in/all neighbour sets.
  - Each structural operation is a function from tables to tables, proved to
    keep them consistent.
  - Class `Network.MLNetwork` holds those tables, the layer-pair
    directionality and the feature stores. Its methods state the new tables
    in terms of those functions.

Module `Scenario` replays the "friends" network of
`multiplenetwork/test/testMLNetwork.cpp` on the tables and proves the counts
the test expects. The network's `name()` is the constant field `name`.

Errors the library throws (`ElementNotFoundException`,
`DuplicateElementException`, `OperationNotSupportedException`,
`WrongParameterException`) are the `Exception` values of a `Result` or
`Outcome` (module `Errors`). A NULL pointer result is `None`.

## Model

| member | source | states |
|---|---|---|
| ObjectStores.ObjectStore.constructor | multiplenetwork/include/datastructures.h:203-206 | a new store is a valid, empty skip list at level 0 |
| ObjectStores.ObjectStore.Size | multiplenetwork/include/datastructures.h:280-283 | size() is the number of stored identifiers |
| ObjectStores.ObjectStore.CountIsSize | multiplenetwork/include/datastructures.h:198-202 | num_entries, the key sequence and the stored map all have the same size |
| ObjectStores.ObjectStore.Contains | multiplenetwork/include/datastructures.h:285-295 | the descent answers true exactly when the identifier is stored |
| ObjectStores.ObjectStore.Get | multiplenetwork/include/datastructures.h:297-309 | the descent returns the stored payload of a present identifier and NULL (None) for an absent one |
| ObjectStores.ObjectStore.Descend | multiplenetwork/include/datastructures.h:347-356 | the descent records, per level, the last entry whose key is below v and the number of positions skipped to reach it |
| ObjectStores.ObjectStore.GetAtIndex | multiplenetwork/include/datastructures.h:311-324 | an out-of-range position is ElementNotFound; otherwise, by adding spans, the payload of the pos-th smallest identifier (0-based) |
| ObjectStores.ObjectStore.RankOf | multiplenetwork/include/datastructures.h:311-324 | the pos-th key has exactly pos stored keys below it, so position is rank |
| ObjectStores.ObjectStore.Insert | multiplenetwork/include/datastructures.h:337-390 | the stored map gains or overwrites v; for a present key, the level and key order are unchanged; for a new key, the level rises to the new tower's height if it is higher; the span invariant is kept; for a present key only the payload changes, and the links, spans, base path, payload array and count stay as they were |
| ObjectStores.ObjectStore.LinkNew | multiplenetwork/include/datastructures.h:358-386 | splicing a new entry at height lvl adds v to the map and sets the level to max(lvl, old level) |
| ObjectStores.ObjectStore.RaiseLevel | multiplenetwork/include/datastructures.h:362-368 | raising the level gives the header's new levels NULL links whose length reaches one past the end, and leaves the contents alone |
| ObjectStores.ObjectStore.AppendEntry | multiplenetwork/include/datastructures.h:369 | the new entry gets a fresh arena slot with an all-NULL tower of lvl + 1 links, and the list is untouched |
| ObjectStores.ObjectStore.LinkTower | multiplenetwork/include/datastructures.h:370-385 | after the per-level splice and the span increments above the tower, the list is valid and maps v to its payload |
| ObjectStores.ObjectStore.Erase | multiplenetwork/include/datastructures.h:392-424 | the stored map loses v and the level never grows; erasing an absent identifier changes nothing |
| ObjectStores.ObjectStore.Unlink | multiplenetwork/include/datastructures.h:409-417 | unlinking at every level leaves a well-formed list over the path without the erased entry |
| ObjectStores.ObjectStore.Shrink | multiplenetwork/include/datastructures.h:420-422 | lowering the level past empty top levels makes it 0 or a level the header still links at, and changes nothing else |
| ObjectStores.ObjectStore.Elements | multiplenetwork/include/datastructures.h:238-283 | walking from begin() along level 0 to NULL takes size() steps and visits every payload once, in strictly increasing key order |
| ObjectStores.ObjectStore.Begin | multiplenetwork/include/datastructures.h:238-241 | begin() points at the first position after the header |
| ObjectStores.ObjectStore.End | multiplenetwork/include/datastructures.h:243-246 | end() is the NULL iterator one past the last position |
| ObjectStores.Iterator.constructor | multiplenetwork/include/datastructures.h:253-255 | an iterator made from an entry of a valid store points at that entry, at its base-level position |
| ObjectStores.Iterator.Deref | multiplenetwork/include/datastructures.h:248-251 | dereferencing yields the payload of the key at the iterator's position |
| ObjectStores.Iterator.Next | multiplenetwork/include/datastructures.h:257-261 | prefix ++ advances one position and returns the advanced iterator |
| ObjectStores.Iterator.PostNext | multiplenetwork/include/datastructures.h:263-268 | postfix ++ advances one position and returns the old one |
| ObjectStores.Iterator.Equals | multiplenetwork/include/datastructures.h:270-278 | iterators are equal exactly when they point at the same entry, that is, at the same position of one store |
| ObjectStores.SortedCard | multiplenetwork/include/datastructures.h:198-202 | strictly increasing keys are distinct, so there are as many keys as entries |
| ObjectStores.InsertedIntact | multiplenetwork/include/datastructures.h:358-386 | linking a new entry at its sorted place keeps the whole invariant, over the key sequence with v inserted in order |
| ObjectStores.ErasedOrdered | multiplenetwork/include/datastructures.h:408-419 | unlinking the entry with key v leaves a well-formed list over the keys without v |
| SkipLayout.BaseLink | multiplenetwork/include/datastructures.h:181-195 | at level 0 every entry links to the next position (or NULL at the end) |
| SkipLayout.StepDown | multiplenetwork/include/datastructures.h:288-292 | a descent step that stops at a key not below v leaves no lower key reaching that level further on |
| SkipLayout.Crossing | multiplenetwork/include/datastructures.h:347-355 | a level-i link that starts at or before the insertion point, other than the predecessor's, ends at or before it |
| SkipLayout.PredecessorSpansGap | multiplenetwork/include/datastructures.h:371-378 | the predecessor's non-NULL link at level i passes beyond the insertion point |
| SkipLayout.SpliceAt | multiplenetwork/include/datastructures.h:370-382 | the level-i splice sets the new entry's length to the old length minus the offset (or to the distance to the end) and the predecessor's length to offset + 1, which keeps the span invariant at that level |
| SkipLayout.WidenAt | multiplenetwork/include/datastructures.h:383-385 | above the new tower, adding one to the predecessor's length keeps the span invariant at that level |
| SkipLayout.SplicedLinks | multiplenetwork/include/datastructures.h:370-385 | after every level is spliced or widened, the list is well formed over the order with the new entry inserted |
| SkipLayout.InsertedTight | multiplenetwork/include/datastructures.h:362-368 | after an insertion the current level is still in use |
| SkipLayout.RaiseLinks | multiplenetwork/include/datastructures.h:362-366 | raising the level with header lengths equal to the number of positions keeps the list well formed |
| SkipLayout.UnspliceAt | multiplenetwork/include/datastructures.h:409-416 | the level-i unlink gives the predecessor the sum of both lengths minus one, or shortens a link that passes over the entry by one, which keeps the span invariant at that level |
| SkipLayout.UnsplicedLinks | multiplenetwork/include/datastructures.h:409-417 | after every level is unlinked, the list is well formed over the order without the erased entry |
| SkipLayout.EmptyTopLevel | multiplenetwork/include/datastructures.h:420-422 | a NULL top header link means no tower reaches that level |
| SkipLayout.DropLevel | multiplenetwork/include/datastructures.h:420-422 | lowering the level past an empty top level keeps the list well formed |
| Attributes.TypeCode | multiplenetwork/include/datastructures.h:61-62 | STRING_TYPE is 0 and NUMERIC_TYPE is 1 |
| Attributes.NamesCard | multiplenetwork/include/datastructures.h:560-561 | distinct names in the metadata vector are as many as the vector's entries |
| Attributes.ForgetReads | multiplenetwork/include/datastructures.h:547-552 | after forgetting an object, it reads the default under every attribute of the map, and every other read is unchanged |
| Attributes.ForgetKeeps | multiplenetwork/include/datastructures.h:559-564 | dropping an object's values keeps the registry consistent |
| Attributes.FreshReads | multiplenetwork/include/datastructures.h:464-469 | a freshly registered attribute reads the default for every object, and every other read is unchanged |
| Attributes.StringRegistered | multiplenetwork/include/datastructures.h:559-564 | registering a new string attribute with an empty value map keeps vector, index and maps consistent |
| Attributes.NumericRegistered | multiplenetwork/include/datastructures.h:559-564 | the same for a numeric attribute |
| Attributes.OthersKept | multiplenetwork/include/datastructures.h:499-507 | registering one name leaves every other name's registered type unchanged |
| Attributes.AttributeStore.constructor | multiplenetwork/include/datastructures.h:555-557 | a new store has no attributes, every read is ElementNotFound, and the defaults are 0.0 and "" |
| Attributes.AttributeStore.RegisteredCount | multiplenetwork/include/datastructures.h:559-561 | the name index has exactly one entry per attribute |
| Attributes.AttributeStore.NumAttributes | multiplenetwork/include/datastructures.h:473-477 | the number of attributes, of all types |
| Attributes.AttributeStore.Attributes | multiplenetwork/include/datastructures.h:479-483 | the attributes in insertion order: entry i is registered at index i under its own type |
| Attributes.AttributeStore.AttributeAt | multiplenetwork/include/datastructures.h:485-490 | the attribute at a valid position, and NULL (None) outside 0..numAttributes()-1 |
| Attributes.AttributeStore.AttributeNamed | multiplenetwork/include/datastructures.h:492-497 | the attribute with that name and its type, or NULL exactly when none is registered |
| Attributes.AttributeStore.Add | multiplenetwork/include/datastructures.h:499-507 | an existing name is DuplicateElement and nothing changes; otherwise the attribute is appended with its type, every object reads the default, and no other attribute or value changes |
| Attributes.AttributeStore.RegisterString | multiplenetwork/include/datastructures.h:499-507 | registering a new string attribute appends it, gives every object the default string, and leaves the other names and numeric values alone |
| Attributes.AttributeStore.RegisterNumeric | multiplenetwork/include/datastructures.h:499-507 | the same for a numeric attribute |
| Attributes.AttributeStore.SetString | multiplenetwork/include/datastructures.h:509-517 | an unregistered name is ElementNotFound; a numeric attribute is OperationNotSupported, and both change nothing; otherwise only that (object, name) value becomes the given string; the registry and the defaults are unchanged in every case |
| Attributes.AttributeStore.SetNumeric | multiplenetwork/include/datastructures.h:519-527 | the same for numeric attributes, with a string attribute OperationNotSupported; the registry and the defaults are unchanged in every case |
| Attributes.AttributeStore.GetString | multiplenetwork/include/datastructures.h:529-536 | a name that is not a registered string attribute is ElementNotFound; otherwise the value set for the object, or the default string if none was set |
| Attributes.AttributeStore.GetNumeric | multiplenetwork/include/datastructures.h:538-545 | the same for numeric attributes, with the default for an unset object (following the class comment at 464-469) |
| Attributes.AttributeStore.Remove | multiplenetwork/include/datastructures.h:547-552 | afterwards every registered attribute of the object reads its default; other objects read as before, the registry and defaults are unchanged, and each value map is the old one with the object's entry dropped |
| NetworkTables.EdgesAvoiding | multiplenetwork/include/datastructures.h:790-795 | the edges that remain after erasing a node: exactly those not incident to it, unchanged |
| NetworkTables.AvoidingIncident | multiplenetwork/include/datastructures.h:790-795 | removing one incident edge does not change which edges remain |
| NetworkTables.AvoidingNone | multiplenetwork/include/datastructures.h:790-795 | with no incident edge left, nothing more is removed |
| NetworkTables.AddTo | multiplenetwork/include/datastructures.h:878-894 | adding an identifier to one key of a set-valued index adds exactly it there |
| NetworkTables.RemoveFrom | multiplenetwork/include/datastructures.h:878-894 | removing an identifier from one key of an index removes exactly it |
| NetworkTables.Cleared | multiplenetwork/include/datastructures.h:892-894 | dropping a key empties exactly that key's set |
| NetworkTables.NoTablesConsistent | multiplenetwork/include/datastructures.h:583-587 | the empty network's tables are consistent |
| NetworkTables.ActorNamed | multiplenetwork/include/datastructures.h:630-636 | a name is in the actor name index exactly when some actor has that name |
| NetworkTables.ActorTableGrows | multiplenetwork/include/datastructures.h:613-620 | the next actor identifier is unused, and adding the actor keeps the table and its name index consistent |
| NetworkTables.ActorAdded | multiplenetwork/include/datastructures.h:605-620 | add_actor keeps every table and index consistent |
| NetworkTables.LayerNamed | multiplenetwork/include/datastructures.h:683-689 | a name is in the layer name index exactly when some layer has that name |
| NetworkTables.LayerTableGrows | multiplenetwork/include/datastructures.h:666-673 | the next layer identifier is unused, and adding the layer keeps the table and its name index consistent |
| NetworkTables.LayerAdded | multiplenetwork/include/datastructures.h:644-673 | add_layer keeps every table and index consistent |
| NetworkTables.NodeTableGrows | multiplenetwork/include/datastructures.h:697-716 | the next node identifier is unused, and the new node refers to an existing actor and layer |
| NetworkTables.NodeIndexesGrow | multiplenetwork/include/datastructures.h:885-887 | the by-layer, by-actor and by-name node indexes follow the new node |
| NetworkTables.EdgeEndsGrow | multiplenetwork/include/datastructures.h:697-716 | adding a node keeps every edge's ends valid |
| NetworkTables.LayerPairsKeep | multiplenetwork/include/datastructures.h:890 | adding a node does not disturb the edges-by-layer-pair index |
| NetworkTables.NodeAdded | multiplenetwork/include/datastructures.h:697-716 | add_node keeps every table and index consistent |
| NetworkTables.LinkOut | multiplenetwork/include/datastructures.h:892 | a new endpoint pair adds its target to the source's out-neighbours |
| NetworkTables.LinkIn | multiplenetwork/include/datastructures.h:893 | a new endpoint pair adds its source to the target's in-neighbours |
| NetworkTables.LinkAll | multiplenetwork/include/datastructures.h:894 | a new endpoint pair makes each end a neighbour of the other |
| NetworkTables.LinkKeeps | multiplenetwork/include/datastructures.h:891-894 | linking a node pair keeps all three neighbour indexes in agreement with the node-pair index |
| NetworkTables.UnlinkOut | multiplenetwork/include/datastructures.h:892 | removing an endpoint pair removes the target from the source's out-neighbours |
| NetworkTables.UnlinkIn | multiplenetwork/include/datastructures.h:893 | removing an endpoint pair removes the source from the target's in-neighbours |
| NetworkTables.UnlinkAll | multiplenetwork/include/datastructures.h:894 | removing one direction keeps the all-neighbours set exactly the pairs left in either direction |
| NetworkTables.UnlinkKeeps | multiplenetwork/include/datastructures.h:891-894 | unlinking a node pair keeps the neighbour indexes in agreement |
| NetworkTables.ConnectedKeeps | multiplenetwork/include/datastructures.h:755-764 | filing an edge (both orders when undirected) keeps the neighbour indexes in agreement |
| NetworkTables.DisconnectedKeeps | multiplenetwork/include/datastructures.h:797-802 | unfiling an edge keeps the neighbour indexes in agreement |
| NetworkTables.EdgeTableGrows | multiplenetwork/include/datastructures.h:755-764 | the next edge identifier is unused, and the new edge joins existing nodes |
| NetworkTables.ConnectedEnds | multiplenetwork/include/datastructures.h:891 | filing an edge files its endpoint pairs, both orders when undirected |
| NetworkTables.EndpointsGrow | multiplenetwork/include/datastructures.h:755-764 | with no edge yet between the ends, the node-pair index maps exactly the pairs each edge joins to that edge |
| NetworkTables.LayerPairsGrow | multiplenetwork/include/datastructures.h:890 | the edges-by-layer-pair index gains the new edge under its ends' layers |
| NetworkTables.NeighborsGrow | multiplenetwork/include/datastructures.h:891-894 | the neighbour indexes follow the new edge |
| NetworkTables.EdgeAdded | multiplenetwork/include/datastructures.h:755-764 | add_edge on two existing, unconnected nodes keeps every table and index consistent |
| NetworkTables.DisconnectedPairs | multiplenetwork/include/datastructures.h:891 | unfiling an edge removes exactly its endpoint pairs and leaves the others mapped as before |
| NetworkTables.EndpointsShrink | multiplenetwork/include/datastructures.h:797-802 | after erasing an edge, the node-pair index still maps exactly the remaining edges, and none maps to the erased edge |
| NetworkTables.LayerPairsShrink | multiplenetwork/include/datastructures.h:797-802 | erasing an edge removes it from its layer pair's set only |
| NetworkTables.EdgeRemoved | multiplenetwork/include/datastructures.h:797-802 | erase(edge) keeps every table and index consistent, and no index still refers to the edge |
| NetworkTables.NodeIndexesShrink | multiplenetwork/include/datastructures.h:790-795 | erasing a node removes it from the by-layer, by-actor and by-name indexes |
| NetworkTables.LayerPairsAvoid | multiplenetwork/include/datastructures.h:790-795 | once no edge touches the node, dropping it keeps the layer-pair index |
| NetworkTables.NeighborsAvoid | multiplenetwork/include/datastructures.h:790-795 | once no edge touches the node, dropping its neighbour entries keeps the neighbour indexes |
| NetworkTables.AvoidingAbsent | multiplenetwork/include/datastructures.h:790-795 | in consistent tables no edge touches a node they do not hold, so erasing an absent node leaves the edges as they are |
| NetworkTables.NodeRemoved | multiplenetwork/include/datastructures.h:790-795 | erase(node) on a node without edges keeps every table and index consistent |
| NetworkTables.NodeNamed | multiplenetwork/include/datastructures.h:726-733 | a (layer, name) entry of the node name index is a node of that layer with that name |
| NetworkTables.ConnectedIffJoined | multiplenetwork/include/datastructures.h:891 | a node pair is in the index exactly when some edge joins the two, either way when undirected |
| NetworkTables.NeighborsJoined | multiplenetwork/include/datastructures.h:892-894 | the out, in and all neighbour sets are exactly the nodes some edge leads to, comes from, or either |
| Network.MLNetwork.constructor | multiplenetwork/include/datastructures.h:583-591 | a new network has the given name, empty tables, no directionality set, and two distinct, fresh actor and layer feature stores, each with no attributes and defaults 0.0 and "" |
| Network.MLNetwork.ClearRow | multiplenetwork/include/datastructures.h:797-802 | every attribute of the object reads its default afterwards; that store keeps its registry and defaults and its value maps only drop the object's entries, so other objects read as before (Attributes.ForgetReads); no other store and none of the network's own fields change |
| Network.MLNetwork.AddActor | multiplenetwork/include/datastructures.h:605-620 | fails with DuplicateElement exactly when the name is taken, changing nothing; otherwise the actor gets the next identifier and the tables become WithActor of the old ones |
| Network.MLNetwork.GetActor | multiplenetwork/include/datastructures.h:622-628 | the actor with that identifier, or NULL exactly when there is none |
| Network.MLNetwork.GetActorNamed | multiplenetwork/include/datastructures.h:630-636 | an actor with that name, or NULL exactly when there is none |
| Network.MLNetwork.GetActors | multiplenetwork/include/datastructures.h:638-642 | all actors, by identifier |
| Network.MLNetwork.AddLayer | multiplenetwork/include/datastructures.h:644-673 | fails with DuplicateElement exactly when the name is taken; otherwise the layer gets the next identifier, the tables become WithLayer of the old ones, and its intra-layer directionality is the one given |
| Network.MLNetwork.SetDirected | multiplenetwork/include/datastructures.h:651-658 | is_directed(l1, l2) becomes the value given, and every other ordered pair keeps its directionality |
| Network.MLNetwork.Directed | multiplenetwork/include/datastructures.h:660-664 | is_directed(l1, l2) is the value last set for that ordered pair, and undirected when none was set |
| Network.MLNetwork.GetLayer | multiplenetwork/include/datastructures.h:675-681 | the layer with that identifier, or NULL exactly when there is none |
| Network.MLNetwork.GetLayerNamed | multiplenetwork/include/datastructures.h:683-689 | a layer with that name, or NULL exactly when there is none |
| Network.MLNetwork.GetLayers | multiplenetwork/include/datastructures.h:691-695 | all layers, by identifier |
| Network.MLNetwork.AddNode | multiplenetwork/include/datastructures.h:697-716 | fails with ElementNotFound exactly when the actor or the layer is missing, changing nothing; otherwise the node gets the next identifier and the tables become WithNode of the old ones |
| Network.MLNetwork.GetNode | multiplenetwork/include/datastructures.h:718-724 | the node with that identifier, whose actor and layer exist, or NULL exactly when there is none |
| Network.MLNetwork.GetNodeNamed | multiplenetwork/include/datastructures.h:726-733 | a node of that layer with that name, or NULL exactly when the name index has none |
| Network.MLNetwork.GetNodes | multiplenetwork/include/datastructures.h:735-739 | all nodes, by identifier |
| Network.MLNetwork.GetNodesOnLayer | multiplenetwork/include/datastructures.h:741-746 | exactly the nodes on the layer |
| Network.MLNetwork.GetNodesOfActor | multiplenetwork/include/datastructures.h:748-753 | exactly the nodes of the actor |
| Network.MLNetwork.AddEdge | multiplenetwork/include/datastructures.h:755-764 | fails with ElementNotFound exactly when an end is missing; otherwise the edge gets the next identifier, takes its directedness from the layers of its ends, and the tables become WithEdge of the old ones |
| Network.MLNetwork.GetEdge | multiplenetwork/include/datastructures.h:766-773 | an edge that joins the two nodes, either way when undirected, or NULL exactly when none does |
| Network.MLNetwork.GetEdges | multiplenetwork/include/datastructures.h:775-779 | all edges, by identifier |
| Network.MLNetwork.GetEdgesBetween | multiplenetwork/include/datastructures.h:781-788 | exactly the edges whose first end is on layer A and whose second end is on layer B |
| Network.MLNetwork.Neighbors | multiplenetwork/include/datastructures.h:810-817 | OUT, IN and INOUT give exactly the nodes an edge leads to, comes from, or either, with an undirected edge leading both ways; any other mode is WrongParameter |
| Network.MLNetwork.DropEdge | multiplenetwork/include/datastructures.h:797-802 | the tables become WithoutEdge of the old ones, and no index refers to the edge |
| Network.MLNetwork.DropNode | multiplenetwork/include/datastructures.h:790-795 | for a node without edges, the tables become WithoutNode of the old ones |
| Network.MLNetwork.RowStoreOwned | multiplenetwork/include/datastructures.h:849-858 | in a valid network the store holding an edge's features belongs to its ends' layer pair alone: it is among the pair stores, is neither the actor nor the layer store, is no layer's store and no other pair's |
| Network.MLNetwork.NodeRowStoreOwned | multiplenetwork/include/datastructures.h:839-847 | in a valid network the store holding a node's features belongs to its layer alone: it is among the layer stores, is neither the actor nor the layer store, is no pair's store and no other layer's |
| Network.MLNetwork.EraseEdge | multiplenetwork/include/datastructures.h:797-802 | an absent edge changes nothing; otherwise the edge leaves every table and index, and its feature row in the store of its layer pair reads defaults while that store's other rows, registry and defaults are kept; the actor and layer stores are unchanged, and it modifies no store but that pair's, which Network.MLNetwork.RowStoreOwned shows is no other owner's |
| Network.MLNetwork.EraseEdgesOf | multiplenetwork/include/datastructures.h:790-795 | afterwards the edges are exactly the old ones not incident to the node, and nodes, actors and layers are unchanged |
| Network.MLNetwork.DropWithEdges | multiplenetwork/include/datastructures.h:790-795 | the table part of erase(node): the node and exactly the edges incident to it are gone, actors and layers stay, and no store of node features changes |
| Network.MLNetwork.EraseNode | multiplenetwork/include/datastructures.h:790-795 | the node and exactly the edges incident to it are gone, and an absent node changes neither the network nor any store of edge features; its feature row in its layer's store reads defaults while that store's other rows, registry and defaults are kept; the actor and layer stores are unchanged, and apart from the stores of edge features it modifies no store but its layer's, which Network.MLNetwork.NodeRowStoreOwned shows is no other owner's |
| Network.MLNetwork.ActorFeatures | multiplenetwork/include/datastructures.h:823-829 | the network's one actor feature store |
| Network.MLNetwork.LayerFeatures | multiplenetwork/include/datastructures.h:831-837 | the network's one layer feature store |
| Network.MLNetwork.NodeFeatures | multiplenetwork/include/datastructures.h:839-847 | the same store for every call with the same layer; the first call creates a fresh one with no attributes and defaults 0.0 and "" |
| Network.MLNetwork.EdgeFeatures | multiplenetwork/include/datastructures.h:849-858 | the same store for every call with the same ordered layer pair; the first call creates a fresh one with no attributes and defaults 0.0 and "" |
| Scenario.PeopledTables | multiplenetwork/test/testMLNetwork.cpp:51-88 | the three add_actor and three add_layer calls leave actors a1, a2 and Matteo and layers l1, l2 and Facebook |
| Scenario.DuplicatesRefused | multiplenetwork/test/testMLNetwork.cpp:64-100 | the second "Matteo" and the second "Facebook" find their names taken, which is when AddActor and AddLayer refuse |
| Scenario.PeopleCounts | multiplenetwork/test/testMLNetwork.cpp:56-88 | 3 actors and 3 layers |
| Scenario.NodedTables | multiplenetwork/test/testMLNetwork.cpp:102-122 | the nine add_node calls give nodes 1..9, node k being actor (k-1) mod 3 + 1 on layer (k-1) div 3 + 1 |
| Scenario.EdgeFiled | multiplenetwork/test/testMLNetwork.cpp:125-132 | one add_edge files the new edge under the next identifier and its endpoint pairs |
| Scenario.Linked | multiplenetwork/test/testMLNetwork.cpp:125-132 | no add_edge of the test finds its ends already joined, so each succeeds, and the six edges are e1..e6 |
| Scenario.FriendsTables | multiplenetwork/test/testMLNetwork.cpp:102-139 | the nine nodes and six edges of the test |
| Scenario.FriendsDirected | multiplenetwork/test/testMLNetwork.cpp:76-132 | each edge's directedness is the one set for the layers of its ends: e1..e3 undirected, e4..e6 directed |
| Scenario.FriendsCounts | multiplenetwork/test/testMLNetwork.cpp:114-139 | 9 nodes and 6 edges |
| Scenario.FriendsFeatures | multiplenetwork/test/testMLNetwork.cpp:142-150 | on the store node_features(l1) creates, after registering weight and type and setting 32.4 and "pro" for n1v0, both read back |
| Scenario.FriendsEdgeFeatures | multiplenetwork/test/testMLNetwork.cpp:146-161 | registering weight on the store edge_features(l1, l2) creates succeeds and leaves it with one attribute; the store for (l2, l1) has none |
| Scenario.InNeighbours | multiplenetwork/test/testMLNetwork.cpp:165-171 | neighbors(n3v2, IN) is {n3v0}: 1 node |
| Scenario.OutNeighbours | multiplenetwork/test/testMLNetwork.cpp:173-179 | neighbors(n3v2, OUT) is {n3v1}: 1 node |
| Scenario.AllNeighbours | multiplenetwork/test/testMLNetwork.cpp:181-187 | neighbors(n3v2, INOUT) is {n3v0, n3v1}: 2 nodes |
| Scenario.UndirectedOutNeighbours | multiplenetwork/test/testMLNetwork.cpp:189-195 | neighbors(n2v1, OUT) over undirected edges is {n2v0, n2v2}: 2 nodes |
| Scenario.UndirectedAllNeighbours | multiplenetwork/test/testMLNetwork.cpp:197-203 | neighbors(n2v1, INOUT) is {n2v0, n2v2}: 2 nodes |
| Scenario.NodeErased | multiplenetwork/test/testMLNetwork.cpp:207-208 | on the friends network's node table, erasing n3v2 (what EraseNode does to the table) leaves 8 nodes |
| Scenario.EdgesErased | multiplenetwork/test/testMLNetwork.cpp:207 | on the friends network's edge table, erasing n3v2 (what EraseNode does to the edges) takes exactly e4 and e5 with it |
| Scenario.SurvivorsCount | multiplenetwork/test/testMLNetwork.cpp:209-210 | on the friends network's edge table, erasing n3v2 and then e3 leaves 3 edges |

## Left out

- `random_utils::random_level` is not part of this model: the height of a new tower is the parameter `lvl` of `Insert`, anywhere in 0..MAX_LEVEL. The probability P is not modelled.
- Memory management is left out: `new`/`delete` of entries, the destructor and `shared_ptr` counting. Entries are arena slots, and an erased entry's slot stays in the arena unused. Entities refer to each other by identifier.
- Integer widths are not modelled. Identifiers, counts and spans are unbounded integers, and `long` overflow is not considered.
- `double` values are modelled as `real`. They are only stored and returned, never computed on.
- Iterator validity under concurrent mutation is not modelled; the library does not support it.
- `to_string`, `type_as_string`, the commented-out `print` and `Distance`, and `Path` are left out. They are output only, dead code or a declaration.
- Entity comparison operators are left out: the header shows no implementation. Entities are compared as values.
- `multiplenetwork/include/utils.h` is not part of this model: logging, CSV input, `mean`/`stdev` and set wrappers.
- Network.MLNetwork.AddEdge: a second edge between the same ends is a precondition, not an error case. The header says multiple edges are not allowed but names no exception for it.
- Erasing actors and layers is left out. The header does not provide these operations, and the test's `erase(a1)`/`erase(l1)` calls match no declaration.
- Network.MLNetwork: the bodies of the class are not in the header, so the network is abstract state. Each id-sorted `ObjectStore` index is modelled as the set of identifiers it holds, not as a skip list.
- Network.MLNetwork.AddActor: the default names of the unnamed `add_actor()`, `add_layer(directed)` and `add_node(actor, layer)` are modelled as no name (`None`), so a default name never collides.
- Network.MLNetwork.GetNodeNamed: when two nodes of a layer are given the same name, the name index keeps the newer one. The index is proved sound, not complete.
- Network.MLNetwork.NodeFeatures and Network.MLNetwork.EdgeFeatures create a store on first use. The header does not say when its per-layer stores come into being.
- Network.MLNetwork.EraseNode: it first erases the incident edges, one at a time, then the node. For the stores of edge features its contract says only what Network.MLNetwork.EraseEdgesOf says.
- Network.MLNetwork.EraseEdgesOf: its contract does not state that the erased edges' feature rows read defaults, or that the other rows of the stores of edge features are kept. It states only that no other feature store changes (its modifies clause). Each single step, Network.MLNetwork.EraseEdge, states both.
- Network.MLNetwork getters: the `get_*` and `neighbors` calls are functions returning maps and sets, not references to `ObjectStore`s.
- Attributes.AttributeStore.GetString and Attributes.AttributeStore.GetNumeric: reading a registered attribute of the other type is ElementNotFound. The header does not say what such a call does.
- Attributes.AttributeStore.GetNumeric follows the class comment: an object never set reads the default. It does not follow the `@throws` note on `getNumeric`, which speaks of a missing object.
- Scenario: the test's network is replayed on the tables the operations compute, not by calling the class's methods one by one. The feature part uses fresh stores, as `node_features(l1)`, `edge_features(l1, l2)` and `edge_features(l2, l1)` return them on first use.
