# GTpo `GenEdge` in Dafny

This project models `gtpo::GenEdge`, the edge record of GTpo, the generic graph
topology library inside QuickQanava. An edge links a source node to a
destination node. As a *restricted hyperedge* it can instead point at another
edge. It also keeps the hyperedges that point at it (`_inHEdges`) and their
source nodes (`_inHNodes`), a `serializable` metadata flag, and a
back-reference to the graph that owns it.

Files:

- `wrappers.dfy`: `Option`, which stands in for an empty `std::weak_ptr` or a
  null `Graph*`.
- `containers.dfy`: the sequence container policy (a `std::list` used as
  `EdgeContainer` / `NodeContainer`). Insertion appends. Removal erases the
  first matching element and keeps the other elements in order.
- `gen_edge.dfy`: the class `Edge.GenEdge`, with one mutable field per C++
  data member. It also holds `Sources` (the source node of each edge of a
  sequence) and the lemmas about the in-hyperedge bookkeeping.
- `edge_scenarios.dfy`: two client methods. They use the edge only through
  its contracts, as a graph would.

Modelling decisions:

- An edge is a Dafny object. Object identity is the identity that the C++
  code shares through `std::weak_ptr`. A null `GenEdge?` is an empty
  `std::weak_ptr`.
- Nodes and graphs are not part of this model, so they are identities
  (`NodeId`, `GraphId`). They are wrapped in `Option` wherever the C++
  reference may be empty.
- Each setter's `modifies` frame names the one field it writes, for example
  `this`src`. That frame is what states that every other field is left as it
  was. `SetSerializable` can therefore change nothing that a graph could be
  notified about.
- The doc comments on `_inHEdges` and `_inHNodes` say that `_inHNodes` holds
  the source nodes of the in-hyperedges. The model states this as
  `InHNodesAreSources`: the multiset of `inHNodes` equals the multiset of the
  sources of `inHEdges`.
  - It is a multiset equality, not a position-by-position one. Removing the
    first occurrence of a source node does not keep the two sequences aligned.
    For example, with edges `[e1, e2, e3]` whose sources are `[a, b, a]`,
    removing `e3` leaves the nodes `[b, a]`.
  - `InHNodesAreSourcesMembership` derives the set reading of the comment: a
    node is an in-hyper node exactly when it is the source of an in-hyperedge.
- `addInHEdge` and `removeInHEdge` are only declared in `gtpoGenEdge.h`.
  Their bodies are not part of this model. They are specified for the
  sequence policy:
  - `AddInHEdge` appends the edge and its current source.
  - `RemoveInHEdge` removes the first occurrence of the edge and the first
    occurrence of its source.
  - An edge that is not registered leaves both containers unchanged.
  - Both methods preserve `InHNodesAreSources`.
- `getInHDegree` returns `static_cast<int>(size())`. `SizeToInt` models that
  cast as a 32-bit two's-complement wrap.
- The destructor becomes `Teardown`. It returns whether the warning would be
  printed, and then clears the back-reference.

Facts about the code that the model keeps:

- `_dst` and `_hDst` are independent fields (GTpo/src/gtpoGenEdge.h:133,156).
  `GenEdge()` sets neither, each two-argument constructor sets one of them,
  and `setDst` / `setHDst` can make both non-empty.
- `setGraph` stores any `Graph*`, at any time.

## Model

| member | source | states |
|---|---|---|
| `Edge.GenEdge.constructor` | GTpo/src/gtpoGenEdge.h:84 | The default edge has no source, no destination node, no destination edge and no in-hyperedges. It is serializable and has no owning graph. |
| `Edge.GenEdge.WithDst` | GTpo/src/gtpoGenEdge.h:85-86 | `GenEdge(src, dst)` stores both endpoints and leaves the destination edge empty. It is serializable and has no owning graph. |
| `Edge.GenEdge.WithHDst` | GTpo/src/gtpoGenEdge.h:87-88 | `GenEdge(src, hDst)` stores the source and the destination edge and leaves the destination node empty. It is serializable and has no owning graph. |
| `Edge.GenEdge.Teardown` | GTpo/src/gtpoGenEdge.h:89-94 | The destructor warns exactly when the edge still has an owning graph. The back-reference is null afterwards. |
| `Edge.GenEdge.SetGraph` | GTpo/src/gtpoGenEdge.h:98-103 | `getGraph()` then returns the given graph. Only the back-reference changes. |
| `Edge.GenEdge.GetGraph` | GTpo/src/gtpoGenEdge.h:98-99 | Returns the `_graph` field; the constructors, `SetGraph` and `Teardown` state the owning graph through it. |
| `Edge.GenEdge.GetSerializable` | GTpo/src/gtpoGenEdge.h:111 | Returns the `_serializable` field; the constructors and `SetSerializable` state the flag through it. |
| `Edge.GenEdge.IsSerializable` | GTpo/src/gtpoGenEdge.h:113 | Defined as `getSerializable()`; the constructors and `SetSerializable` state the value both return. |
| `Edge.GenEdge.GetSrc` | GTpo/src/gtpoGenEdge.h:127-128 | Returns the `_src` field; the constructors and `SetSrc` state the source through it. |
| `Edge.GenEdge.GetDst` | GTpo/src/gtpoGenEdge.h:129-130 | Returns the `_dst` field; the constructors and `SetDst` state the destination node through it. |
| `Edge.GenEdge.GetHDst` | GTpo/src/gtpoGenEdge.h:144 | Returns the `_hDst` field; the constructors and `SetHDst` state the destination edge through it. |
| `Edge.GenEdge.GetInHEdges` | GTpo/src/gtpoGenEdge.h:145 | Returns the `_inHEdges` container; the constructors, `AddInHEdge` and `RemoveInHEdge` state the in-hyperedges through it. |
| `Edge.GenEdge.GetInHNodes` | GTpo/src/gtpoGenEdge.h:150 | Returns the `_inHNodes` container; the constructors, `AddInHEdge` and `RemoveInHEdge` state the in-hyper nodes through it. |
| `Edge.GenEdge.SetSerializable` | GTpo/src/gtpoGenEdge.h:114-118 | Both getters then return the given flag. Only the flag changes, so no topology change is made. |
| `Edge.GenEdge.SetSrc` | GTpo/src/gtpoGenEdge.h:125-132 | `getSrc()` then returns the given node, without re-validation. Only the source changes. |
| `Edge.GenEdge.SetDst` | GTpo/src/gtpoGenEdge.h:126-133 | `getDst()` then returns the given node. Only the destination node changes. |
| `Edge.GenEdge.SetHDst` | GTpo/src/gtpoGenEdge.h:143-156 | `getHDst()` then returns the given edge. Only the destination edge changes. |
| `Edge.SizeToInt` | GTpo/src/gtpoGenEdge.h:148 | The `int` cast of a size lies in the 32-bit range and is congruent to the size modulo 2^32. A size below 2^31 is kept as it is. |
| `Edge.GenEdge.GetInHDegree` | GTpo/src/gtpoGenEdge.h:148 | The in-hyper degree is a 32-bit `int`. While fewer than 2^31 in-hyperedges are registered, it is non-negative and equals their number. |
| `Edge.InHDegreeWrapsAtIntMax` | GTpo/src/gtpoGenEdge.h:148 | With 2^31 in-hyperedges the reported degree is -2^31. |
| `Edge.Sources` | GTpo/src/gtpoGenEdge.h:157-160 | The sources of a sequence of edges: one per edge, in the same order, each the edge's current `_src`. |
| `Edge.SourcesAppend` | GTpo/src/gtpoGenEdge.h:146-160 | Appending an edge adds exactly one copy of its source to the sources. |
| `Edge.SourcesRemoveFirst` | GTpo/src/gtpoGenEdge.h:147-160 | Removing the first occurrence of a registered edge removes exactly one copy of its source from the sources. |
| `Edge.RemovePreservesSources` | GTpo/src/gtpoGenEdge.h:147-160 | When `_inHNodes` matches the sources of `_inHEdges`, a registered edge's source is present in `_inHNodes`. Removing the edge from one container and its source from the other keeps them matching. |
| `Edge.GenEdge.InHNodesAreSources` | GTpo/src/gtpoGenEdge.h:157-160 | The multiset of `_inHNodes` equals the multiset of the sources of `_inHEdges`. |
| `Edge.GenEdge.AddInHEdge` | GTpo/src/gtpoGenEdge.h:146 | The edge is appended to `_inHEdges` and its source to `_inHNodes`. Both are then listed. The degree rises by one below 2^31 - 1. The `_inHNodes`/`_inHEdges` relation is preserved. |
| `Edge.GenEdge.RemoveInHEdge` | GTpo/src/gtpoGenEdge.h:147 | A registered edge loses its first occurrence in `_inHEdges`, and its source loses its first occurrence in `_inHNodes`. The degree drops by one while at most 2^31 - 1 in-hyperedges were registered. An unregistered edge changes nothing. The `_inHNodes`/`_inHEdges` relation is preserved. |
| `Edge.InHNodesAreSourcesMembership` | GTpo/src/gtpoGenEdge.h:157-160 | Under the relation, a node is in `_inHNodes` exactly when it is the source of some edge in `_inHEdges`. |
| `Containers.RemoveFirst` | GTpo/src/gtpoGenEdge.h:147 | Removing a present element shortens the container by one and takes exactly one copy of that element out. Removing an absent element leaves the container unchanged. |
| `Containers.RemoveFirstUndoesAppend` | GTpo/src/gtpoGenEdge.h:146-147 | Adding then removing an element restores the container's elements. When the element was absent before, it restores the exact sequence. |
| `EdgeScenarios.HyperEdgeRoundTrip` | GTpo/src/gtpoGenEdge.h:143-160 | A hyperedge from `c` onto the edge `a -> b` raises the host's degree from 0 to 1 and lists `c` as an in-hyper node. Removing the hyperedge reverts both. |
| `EdgeScenarios.TeardownReportsOwnedEdges` | GTpo/src/gtpoGenEdge.h:89-118 | Tearing down an edge that is still owned warns. Tearing down an edge whose back-reference was cleared first does not warn. The serializable flag reads back as set. |

## Left out

- `src/qanBottomRightResizer.cpp` is Qt Quick UI code: QML component creation, event filters, signal connections, mouse and hover handling, and `qreal` geometry. It contains no graph logic, and the Qt classes it depends on are not part of this model.
- The `std::shared_ptr` / `std::weak_ptr` / `enable_shared_from_this` lifetime mechanics are not modelled: reference counting, expiry and `lock()`. References are identities.
- The destructor's `std::cerr` output is modelled as the flag that `Teardown` returns, not as I/O.
- `Config::EdgeBase` and the container-policy types are defined outside `gtpoGenEdge.h` and are not part of this model. Only the sequence (`std::list`) policy is modelled. A set policy would drop duplicate insertions. Under a set policy, removing one of two in-hyperedges that share a source would also remove that shared source.
- The bodies of `addInHEdge` / `removeInHEdge` are not part of this model. The modelled behaviour is not shown by the code:
  - the append and remove-first behaviour;
  - the treatment of an unregistered edge as no change;
  - the absence of errors for an in-hyperedge with no source node.
- An empty `std::weak_ptr` argument to `addInHEdge` / `removeInHEdge` is not modelled: both methods take a non-null `GenEdge`.
- `GenGraph` insertion and removal, which call `setGraph` and maintain the cross-references, are not part of this model. So are the graph's behaviour notifications. `SetSerializable`'s frame shows only that it changes nothing but the flag.
- The non-const `getSrc()` / `getDst()` return mutable references, and the protected non-const `getInHEdges()` does too. Writes through those references are represented only by the setters and by `AddInHEdge` / `RemoveInHEdge`.
- The deleted copy constructor has no counterpart: Dafny objects are not copied.
- `GenGroupEdge` adds nothing to `GenEdge`, so it has no separate model.
- Edge.GenEdge.GetInHDegree: it is non-negative and equal to the container size only below 2^31 elements, because the C++ `static_cast<int>` of the size wraps. The cast is modelled as two's-complement wrap-around, which C++20 mandates and earlier compilers do in practice.
- Edge.GenEdge.SetSrc: it does not promise `InHNodesAreSources` for an edge that has this edge registered as an in-hyperedge. The C++ setter does not update the `_inHNodes` that recorded the old source.
- Access control is not modelled: `setGraph` is private with `GenGraph` as a friend (GTpo/src/gtpoGenEdge.h:72,100-101) and `getGraph` is protected (GTpo/src/gtpoGenEdge.h:97-99), but both are public in the model.
