# PATRICIA routing tables and a hop-by-hop router simulator, in Dafny

This project models a small IP routing simulator written in C. Its heart is a
PATRICIA trie, a compressed binary radix tree. The trie stores bit-string
prefixes, each with an opaque next hop, and answers longest-prefix-match
queries. Around it sits a simulator with four parts:

- it converts dotted IPv4 addresses and CIDR prefixes into bit strings;
- it keeps a registry of named routers, each with its own trie;
- it forwards a packet from router to router;
- it stops after at most 50 lookups.

The model is functional throughout:

- **Nodes.** A trie node (`Patricia.Node`) is an immutable datatype. It holds an
  edge label (`seq<bool>`), an optional next hop, and a `zero` and a `one`
  child slot.
- **Operations.**
  - `Patricia.Create` builds an empty trie.
  - `Patricia.CommonPrefix` measures the shared leading run of two bit strings.
  - `Patricia.Insert` and `Patricia.InsertAt` insert a prefix, splitting an edge
    through `Patricia.SplitAt`.
  - `Patricia.Walk` is the lookup descent.
  - The simulator's pieces are in `RouterSim`.
- **Shape invariant.** `Patricia.Valid` says:
  - the root edge is empty;
  - every other edge is non-empty;
  - each child sits in the slot named by the first bit of its edge.
- **Abstraction.** `Patricia.Abs` maps a trie to a finite routing table
  `map<seq<bool>, T>`. Each full prefix, the concatenated edges from the root,
  maps to the next hop stored there.
- **Reference.** `PrefixMaps.LongestMatch` is an independent definition of
  longest-prefix match on such a map.

The lookup exists twice, as one function `Patricia.Walk` with a flag:

- `Patricia.LookupAsWritten` follows the C code literally. When it leaves a
  node with an empty edge, it consumes the bit that chose the child.
- `Patricia.Lookup` leaves that bit in place. Insertion keeps the bit as the
  first bit of the child's edge, so this is the descent that insertion
  supports.

The corrected lookup is proved to compute the longest match. The literal one
is shown to miss a route; see "Findings".

The forwarding loop `RouterSim.Forward` has the lookup as a parameter
(`RouterSim.LookupFn`). Either lookup can be plugged in. Its contract is the
predicate `RouterSim.Journey`: the trace of routers visited and why the packet
stopped, each explained by the lookups along the way. `RouterSim.JourneyIsForward`
shows that this description pins the result down completely.

Files:

- `wrappers.dfy`: the `Option` type.
- `prefix_maps.dfy`: the longest-prefix-match reference on maps.
- `patricia.dfy`: the trie and its operations.
- `insert_proofs.dfy`: shape and table-update proofs for insertion.
- `lookup_proofs.dfy`: the lookup against the reference, and the literal
  lookup's defect.
- `table_proofs.dfy`: consequences for whole tables.
- `router_sim.dfy`: addresses, prefixes, the router registry and forwarding.
- `scenarios.dfy`: router A's table from the simulator's `main`, and the bit
  strings of its addresses and prefixes.
- `network.dfy`: the four routers of `main` and its three simulated packets,
  under both lookups.

## Model

| member | source | states |
|---|---|---|
| Patricia.CommonPrefix | PatriciaRounter/Sources/Patricia.c:45-49 | The result is at most the length of either string, both strings agree on their first `r` bits, and `r` is maximal: when both strings are longer, they differ at position `r`. |
| Patricia.CommonPrefixFrom | PatriciaRounter/Sources/Patricia.c:46-48 | Starting the scan at an index where the strings already agree, the scan stops at the maximal common length. |
| Patricia.Create | PatriciaRounter/Sources/Patricia.c:32-36 | A new tree has a root with an empty edge and satisfies the shape invariant, and its routing table is empty. |
| Patricia.SetHop | PatriciaRounter/Sources/Patricia.c:108-112 | At the node where the key ends, the result is 0 exactly when a next hop is already there, and then the node is unchanged. Otherwise the result is 1 and only the next hop is set. |
| Patricia.SplitAt | PatriciaRounter/Sources/Patricia.c:65-88 | The branch point keeps the first `cp` bits of the edge and loses the next hop. The old node, with the rest of the edge, sits in the slot of the edge's bit `cp`; the other slot is empty. |
| Patricia.InsertAt | PatriciaRounter/Sources/Patricia.c:58-149 | The status is 0 or 1, and status 0 leaves the subtree unchanged. |
| Patricia.Insert | PatriciaRounter/Sources/Patricia.c:58-149 | The status is 0 or 1, and status 0 leaves the trie unchanged. |
| Patricia.Walk | PatriciaRounter/Sources/Patricia.c:152-173 | The descent returns the default it was given or a next hop stored in the subtree it starts from, never nothing in place of a default; without a node it returns the default. |
| Patricia.LookupAsWritten | PatriciaRounter/Sources/Patricia.c:151-173 | With a next hop at the root, the literal lookup always returns some next hop. |
| Patricia.Lookup | PatriciaRounter/Sources/Patricia.c:151-173 | With a next hop at the root, the corrected lookup always returns some next hop. |
| InsertProofs.StoredExtends | PatriciaRounter/Headers/Patricia.h:6-12 | Every full prefix stored below a node extends the node's own full prefix. |
| InsertProofs.SlotPrefixes | PatriciaRounter/Headers/Patricia.h:10-11 | In a well-formed node, every prefix stored under the `zero` slot continues the node's prefix with a 0 bit, and every prefix under the `one` slot continues it with a 1 bit. |
| InsertProofs.SplitAtKeepsShape | PatriciaRounter/Sources/Patricia.c:65-88 | After a split, the node keeps the common part of the edge and stays well formed. The split-off child has a non-empty edge and sits in the slot of its first bit, so the fallback at lines 85-88 is unreachable. The opposite slot stays free for the new leaf. |
| InsertProofs.SplitAtKeepsStored | PatriciaRounter/Sources/Patricia.c:68-80 | A split changes no stored prefix. The old next hop and the old children stay under the same full prefixes. |
| InsertProofs.SplitKeyNotStored | PatriciaRounter/Sources/Patricia.c:64-65 | A key that leaves a node's edge before its end is not a stored prefix below that node. |
| InsertProofs.InsertAtSplit | PatriciaRounter/Sources/Patricia.c:65-103 | The split branch always succeeds and adds exactly the new key. In particular, the `return 0` at line 94 is unreachable. |
| InsertProofs.SplitEndsAtKey | PatriciaRounter/Sources/Patricia.c:90-96 | When the key ends at the split point, giving the branch point the next hop adds exactly the key to the table of the split node. |
| InsertProofs.SplitBranchesOff | PatriciaRounter/Sources/Patricia.c:97-103 | When the key goes on past the split point, the new leaf in the free slot adds exactly the key to the table of the split node. |
| InsertProofs.InsertAtHere | PatriciaRounter/Sources/Patricia.c:108-112 | Ending at a node succeeds exactly when its prefix was not stored, and then adds exactly that prefix. |
| InsertProofs.InsertAtKeepsShape | PatriciaRounter/Sources/Patricia.c:115-146 | Insertion below a well-formed node keeps it well formed. An empty edge stays empty, a non-empty edge keeps its first bit, and new leaves land in the slot of their first bit. |
| InsertProofs.InsertAtDescend | PatriciaRounter/Sources/Patricia.c:114-127 | Descending into an existing child has the same effect on the table as inserting into that child. |
| InsertProofs.InsertAtUpdatesStored | PatriciaRounter/Sources/Patricia.c:58-149 | Insertion below a node succeeds exactly when the full key was not yet stored. On success, the table below the node becomes the old one plus `key := hop`, and nothing else changes. |
| InsertProofs.InsertKeepsValid | PatriciaRounter/Sources/Patricia.c:82-84 | Insertion keeps the trie valid: the root edge stays empty and each child stays in the slot of its first edge bit. |
| InsertProofs.InsertUpdatesTable | PatriciaRounter/Sources/Patricia.c:58-149 | On a valid trie, insert returns 1 exactly when the key is new, and then the routing table becomes the old table plus `key := hop`. It returns 0 exactly when the key is already stored, and then the trie is unchanged. |
| PrefixMaps.MatchLen | PatriciaRounter/Sources/Patricia.c:151 | Finds the length of the longest stored prefix of the key up to a bound: that prefix is in the table and no longer one within the bound is. |
| LookupProofs.MismatchStoresNothing | PatriciaRounter/Sources/Patricia.c:159-160 | When an edge runs past the key or differs from it, no prefix of the key is stored below that node, so stopping there loses nothing. |
| LookupProofs.MatchedNodeOwn | PatriciaRounter/Sources/Patricia.c:161-162 | After a fully matched edge, the node's own next hop, if any, is the longest match so far. |
| LookupProofs.ChildSlotDecides | PatriciaRounter/Sources/Patricia.c:164 | A bit string that continues a node's full prefix with bit `b` is stored below the node exactly when it is stored in the child in slot `b`, with the same next hop. |
| LookupProofs.MatchedNodeChildKeys | PatriciaRounter/Sources/Patricia.c:163-164 | Beyond a matched edge, the prefixes of the key stored below the node are exactly those stored in the child chosen by the next key bit, with the same next hops. |
| LookupProofs.MatchedNodeChild | PatriciaRounter/Sources/Patricia.c:161-164 | Beyond a matched edge, searching below the node is searching the child chosen by the next key bit, with the best answer up to the end of the edge as the default. |
| LookupProofs.MatchedNodeStep | PatriciaRounter/Sources/Patricia.c:157-164 | One step of the descent preserves the longest-match answer. |
| LookupProofs.WalkStep | PatriciaRounter/Sources/Patricia.c:156-170 | Without the extra increment, the empty-edge and non-empty-edge branches of the descent coincide. |
| LookupProofs.WalkIsBest | PatriciaRounter/Sources/Patricia.c:152-173 | The corrected descent from any well-formed subtree returns the longest stored prefix's next hop, or the best hop seen so far. |
| LookupProofs.LookupIsLongestMatch | PatriciaRounter/Sources/Patricia.c:151-173 | On a valid trie, the corrected lookup equals the independent longest-prefix match over the routing table. |
| LookupProofs.BumpUnusedBelowRoot | PatriciaRounter/Sources/Patricia.c:165-170 | Below the root every edge is non-empty, so the two descents agree there. |
| LookupProofs.LookupAsWrittenSkipsBranchBit | PatriciaRounter/Sources/Patricia.c:164-169 | The literal lookup matches the child's prefixes as if they started one bit later, which misaligns them with the key. The corrected lookup matches them in place. |
| LookupProofs.StoredRebase | PatriciaRounter/Headers/Patricia.h:6-12 | A prefix stored below a node under full prefix `p + q` extends `p`, and is stored under `q` once `p` is cut off. |
| LookupProofs.RootHopIsDefaultRoute | PatriciaRounter/Sources/Patricia.c:155 | In a valid trie the empty prefix is in the table exactly when the root has a next hop, and that next hop is the default the lookup starts from. |
| LookupProofs.ShiftedMatch | PatriciaRounter/Sources/Patricia.c:164-169 | A prefix the literal lookup matches in the child of the root is, after the bit that chose the child, a stored prefix that repeats that bit. |
| LookupProofs.AsWrittenFallsBack | PatriciaRounter/Sources/Patricia.c:152-173 | When no stored prefix starts with the key's first bit and equals the key read from its second bit, the literal lookup returns only the default route, or no hop without one. |
| TableProofs.FreshTrieFindsNothing | PatriciaRounter/Sources/Patricia.c:32-36 | Both lookups on a fresh tree return no next hop. |
| TableProofs.LookupFindsStoredKey | PatriciaRounter/Sources/Patricia.c:151-173 | A key that is itself a stored prefix resolves to its own next hop. |
| TableProofs.DuplicateKeepsFirst | PatriciaRounter/Sources/Patricia.c:108-112 | Inserting the same prefix twice reports 0 the second time, keeps the first next hop, and leaves the trie unchanged. |
| TableProofs.DefaultRouteFallback | PatriciaRounter/Sources/Patricia.c:131-134 | The empty prefix stored at the root is the default route for keys with no longer stored prefix. |
| TableProofs.SameTableSameLookups | PatriciaRounter/Sources/Patricia.c:151-173 | Lookups depend only on the routing table a valid trie represents, not on its shape. |
| TableProofs.InsertNew | PatriciaRounter/Sources/Patricia.c:58-149 | Inserting a new prefix gives a valid trie whose table gained exactly that binding. |
| TableProofs.InsertTwoNew | PatriciaRounter/Sources/Patricia.c:58-149 | Two successive new insertions bind both keys. |
| TableProofs.InsertOrderIrrelevant | PatriciaRounter/Sources/Patricia.c:58-149 | Two distinct new prefixes inserted in either order give tries that answer every lookup alike. |
| TableProofs.BindingsContents | PatriciaRounter/Sources/Patricia.c:58-149 | For pairs with distinct prefixes, the table they describe binds every pair's prefix to its next hop and nothing else. |
| TableProofs.InsertAllTable | PatriciaRounter/Sources/Patricia.c:58-149 | Inserting distinct new prefixes one after the other gives a valid trie whose table is the old one plus exactly those bindings. |
| TableProofs.DistinctKeysPermuted | PatriciaRounter/Sources/Patricia.c:58-149 | Any reordering of pairs with distinct prefixes still has distinct prefixes. |
| TableProofs.PermutedBindings | PatriciaRounter/Sources/Patricia.c:58-149 | Any two orderings of the same pairs with distinct prefixes describe the same table. |
| TableProofs.InsertAllOrderIrrelevant | PatriciaRounter/Sources/Patricia.c:58-173 | Inserting any set of distinct new prefixes, in any two orders, gives tries that answer every lookup alike. |
| TableProofs.LongestStoredPrefixWins | PatriciaRounter/Sources/Patricia.c:151-173 | When the key's first `len` bits are stored and no longer prefix of the key is, the lookup returns that prefix's next hop. |
| TableProofs.NoStoredPrefixNoRoute | PatriciaRounter/Sources/Patricia.c:151-173 | When no prefix of the key is stored, not even the empty one, the lookup returns no next hop. |
| RouterSim.Ipv4ToBits | PatriciaRounter/Sources/RoteadorSim.c:11-20 | An address is always exactly 32 bits. |
| RouterSim.Ipv4RoundTrip | PatriciaRounter/Sources/RoteadorSim.c:14-18 | The 32-bit value of four octets is below 2^32, and reading its 32 bits back big-endian gives the value. |
| RouterSim.FromBitsOf | PatriciaRounter/Sources/RoteadorSim.c:15-18 | For any value below 2^n, reading back its n extracted bits gives the value. |
| RouterSim.BitsOfPrefix | PatriciaRounter/Sources/RoteadorSim.c:15-18 | The first k of n extracted bits are the bits of the value shifted right by n-k. |
| RouterSim.BitsOfByHalving | PatriciaRounter/Sources/RoteadorSim.c:16 | The mask test `v & (1 << k)` gives the same bits as repeated halving. |
| RouterSim.BitsOfConcat | PatriciaRounter/Sources/RoteadorSim.c:14 | The shifted-and-ORed fields give the concatenation of their bit strings, provided the low field fits its width. |
| RouterSim.Ipv4Octets | PatriciaRounter/Sources/RoteadorSim.c:14-18 | The 32 bits of an address are the 8 bits of each octet, in order. |
| RouterSim.ParsePrefix | PatriciaRounter/Sources/RoteadorSim.c:23-32 | The prefix has exactly `plen` bits and the output length is `plen`. The bits are the first `plen` bits of the address, and they read back to the address shifted right by `32 - plen`. |
| RouterSim.TopBitsReadBack | PatriciaRounter/Sources/RoteadorSim.c:30 | The first k bits of an n-bit value read back to its top k bits. |
| RouterSim.TopBitsFit | PatriciaRounter/Sources/RoteadorSim.c:30 | The top k bits of an n-bit value fit in k bits. |
| RouterSim.FindRouterFrom | PatriciaRounter/Sources/RoteadorSim.c:45-48 | The search from index `i` finds the first router at or after `i` with the name. It finds none exactly when no router from `i` on has it. |
| RouterSim.FindRouter | PatriciaRounter/Sources/RoteadorSim.c:44-49 | Finds the first router with the given name, and finds none exactly when no router has it. |
| RouterSim.NextRouter | PatriciaRounter/Sources/RoteadorSim.c:69-82 | The packet moves on exactly when the lookup gives a next hop that is not LOCAL and names a known router. The router moved to is the first with the looked-up name. |
| RouterSim.Forward | PatriciaRounter/Sources/RoteadorSim.c:66-96 | The result is a journey: at most the allowed number of lookups, and exactly that many when it hits the limit. The trace starts at the current router, and each step moves to the router named by the previous lookup, never to itself. Each stopping outcome names the last router and comes with its reason: no route, LOCAL, an unknown name, or a self-loop. The hop limit is reported only when even the last lookup moved the packet on. |
| RouterSim.JourneyTail | PatriciaRounter/Sources/RoteadorSim.c:66-96 | A journey of more than one router is its first router followed by a journey, one lookup shorter, from the router that lookup names. |
| RouterSim.JourneysOfOne | PatriciaRounter/Sources/RoteadorSim.c:72-91 | Two journeys that stop at the first router are the same journey. |
| RouterSim.JourneyUnique | PatriciaRounter/Sources/RoteadorSim.c:66-96 | Two journeys from the same router, for the same address, limit and lookup, are equal. |
| RouterSim.JourneyIsForward | PatriciaRounter/Sources/RoteadorSim.c:66-96 | Every journey is the forwarding loop's result, so the journey conditions determine the loop completely. |
| RouterSim.RoutePacket | PatriciaRounter/Sources/RoteadorSim.c:55-97 | Nothing is routed exactly when no router has the source name. Otherwise the packet starts at the first router with that name and makes between 1 and 50 lookups, and the result is a journey for the 32 bits of the destination address. |
| RouterSim.TwoCycleExhaustsHops | PatriciaRounter/Sources/RoteadorSim.c:88-96 | Two routers that forward to each other are not caught as a loop. The packet bounces until the hop limit runs out. |
| RouterSim.SelfLoopDetected | PatriciaRounter/Sources/RoteadorSim.c:88-91 | A router that forwards to itself is reported as a loop at the first lookup. |
| Scenarios.Net10Addresses | PatriciaRounter/Sources/RoteadorSim.c:128 | The prefix 10.0.0.0/8 is the bits 00001010, and address 10.1.2.3 continues them with a 0 bit. |
| Scenarios.AsWrittenMissesNet10 | PatriciaRounter/Sources/Patricia.c:164-169 | Take a table holding only 10.0.0.0/8 -> B. The literal lookup finds no route for 10.1.2.3, while the corrected lookup answers B. |
| Scenarios.ParsedIsAddressPrefix | PatriciaRounter/Sources/RoteadorSim.c:23-32 | A parsed prefix is the first `plen` bits of the address, which are the four octets' 8 bits each, in order. |
| Scenarios.Net192168Prefix | PatriciaRounter/Sources/RoteadorSim.c:131 | Parsing 192.168.0.0/16 gives the 16 bits of 192 and 168. |
| Scenarios.Net1921681Prefix | PatriciaRounter/Sources/RoteadorSim.c:139 | Parsing 192.168.1.0/24 gives those 16 bits followed by the 8 bits of 1. |
| Scenarios.Net17216Prefix | PatriciaRounter/Sources/RoteadorSim.c:154 | Parsing 172.16.0.0/12 gives the 8 bits of 172 and the top 4 bits of 16. |
| Scenarios.DefaultPrefix | PatriciaRounter/Sources/RoteadorSim.c:134 | Parsing 0.0.0.0/0 gives the empty prefix. |
| Scenarios.TableAParsed | PatriciaRounter/Sources/RoteadorSim.c:127-135 | Router A's trie is exactly what `main`'s three insertions of the parsed prefixes build. |
| Scenarios.TableAContents | PatriciaRounter/Sources/RoteadorSim.c:127-135 | Router A's trie is valid. It holds exactly 10.0.0.0/8 -> B, 192.168.0.0/16 -> C and the default route -> B. |
| Scenarios.Address1921685 | PatriciaRounter/Sources/RoteadorSim.c:182 | 192.168.1.5 lies in 192.168.1.0/24. |
| Scenarios.Address10123 | PatriciaRounter/Sources/RoteadorSim.c:183 | 10.1.2.3 lies in 10.0.0.0/8, and its ninth bit is 0. |
| Scenarios.Address172165 | PatriciaRounter/Sources/RoteadorSim.c:184 | 172.16.5.4 lies in 172.16.0.0/12. |
| Scenarios.TableASends1921681 | PatriciaRounter/Sources/RoteadorSim.c:131-132 | Any trie holding router A's table sends every address in 192.168.1.0/24 to C. |
| Scenarios.TableASends10 | PatriciaRounter/Sources/RoteadorSim.c:128-129 | Any trie holding router A's table sends every address in 10.0.0.0/8 to B. |
| Scenarios.TableASendsDefault | PatriciaRounter/Sources/RoteadorSim.c:134-135 | Any trie holding router A's table sends every address outside 10.0.0.0/8 and 192.168.0.0/16 to B. |
| Scenarios.TableAPrivate | PatriciaRounter/Sources/RoteadorSim.c:131-132 | With the corrected lookup, router A sends 192.168.1.5 to C. |
| Scenarios.TableANet10 | PatriciaRounter/Sources/RoteadorSim.c:128-129 | With the corrected lookup, router A sends 10.1.2.3 to B. |
| Scenarios.TableADefault | PatriciaRounter/Sources/RoteadorSim.c:134-135 | With the corrected lookup, router A sends 8.8.8.8 to B by the default route. |
| Network.TableBParsed | PatriciaRounter/Sources/RoteadorSim.c:138-147 | Router B's trie is exactly what `main`'s three insertions of the parsed prefixes build. |
| Network.TableCParsed | PatriciaRounter/Sources/RoteadorSim.c:150-159 | Router C's trie is exactly what `main`'s three insertions of the parsed prefixes build. |
| Network.TableDParsed | PatriciaRounter/Sources/RoteadorSim.c:162-164 | Router D's trie is exactly what `main`'s insertion of the parsed prefix builds. |
| Network.TableBContents | PatriciaRounter/Sources/RoteadorSim.c:138-147 | Router B's trie is valid and holds exactly 192.168.1.0/24 -> LOCAL, 10.0.0.0/8 -> C and the default route -> C. |
| Network.TableCContents | PatriciaRounter/Sources/RoteadorSim.c:150-159 | Router C's trie is valid and holds exactly 10.0.0.0/8 -> D, 172.16.0.0/12 -> LOCAL and the default route -> D. |
| Network.TableDContents | PatriciaRounter/Sources/RoteadorSim.c:162-164 | Router D's trie is valid and holds exactly 10.0.0.0/8 -> LOCAL, with no default route. |
| Network.RoutersAreMainNetwork | PatriciaRounter/Sources/RoteadorSim.c:104-164 | The registry of `main` is routers A, B, C and D in that order, each with the table just stated. |
| Network.RouterIndices | PatriciaRounter/Sources/RoteadorSim.c:44-49 | In that registry, the names A, B, C and D are found at positions 0 to 3. |
| Network.AsWrittenDefaults | PatriciaRounter/Sources/Patricia.c:152-173 | On a table of two routes and a default, the literal lookup returns the default when neither route matches the key read from its second bit. |
| Network.AsWrittenFindsNothing | PatriciaRounter/Sources/Patricia.c:152-173 | On a table of one non-empty route, the literal lookup returns nothing when the route does not match the key read from its second bit. |
| Network.AsWrittenAtA | PatriciaRounter/Sources/Patricia.c:164-169 | With the literal lookup, router A sends all three simulated destinations to B, its default. |
| Network.AsWrittenAtB | PatriciaRounter/Sources/Patricia.c:164-169 | With the literal lookup, router B sends all three simulated destinations to C, its default, even 192.168.1.5, for which it holds a LOCAL route. |
| Network.AsWrittenAtC | PatriciaRounter/Sources/Patricia.c:164-169 | With the literal lookup, router C sends all three simulated destinations to D, its default, even 172.16.5.4, for which it holds a LOCAL route. |
| Network.AsWrittenAtD | PatriciaRounter/Sources/Patricia.c:164-169 | With the literal lookup, router D finds no route for any of the three, even 10.1.2.3, for which it holds a LOCAL route. |
| Network.TableBSends | PatriciaRounter/Sources/RoteadorSim.c:142-147 | With the corrected lookup, router B sends addresses in 10.0.0.0/8 and in 172.16.0.0/12 to C. |
| Network.TableCSends | PatriciaRounter/Sources/RoteadorSim.c:150-159 | With the corrected lookup, router C sends 192.168.1.0/24 and 10.0.0.0/8 to D, and delivers 172.16.0.0/12 locally. |
| Network.TableDSends | PatriciaRounter/Sources/RoteadorSim.c:162-164 | With the corrected lookup, router D delivers 10.0.0.0/8 locally and has no route for 192.168.1.0/24. |
| Network.PathABCD | PatriciaRounter/Sources/RoteadorSim.c:66-96 | When A, B and C pass the packet on to B, C and D, it ends at D: dropped when D has no route, delivered when D's hop is LOCAL. |
| Network.PathACD | PatriciaRounter/Sources/RoteadorSim.c:66-96 | When A sends to C, C to D, and D has no route, the packet is dropped at D after visiting A, C and D. |
| Network.PathABC | PatriciaRounter/Sources/RoteadorSim.c:66-96 | When A sends to B, B to C, and C's hop is LOCAL, the packet is delivered at C. |
| Network.AsWrittenJourney | PatriciaRounter/Sources/RoteadorSim.c:181-184 | With the literal lookup, every one of the three simulated packets goes A, B, C, D and is dropped at D. |
| Network.Journey1921681 | PatriciaRounter/Sources/RoteadorSim.c:182 | With the corrected lookup, a packet for 192.168.1.0/24 from A goes A, C, D and is dropped at D. |
| Network.Journey10 | PatriciaRounter/Sources/RoteadorSim.c:183 | With the corrected lookup, a packet for 10.0.0.0/8 from A goes A, B, C, D and is delivered at D. |
| Network.Journey17216 | PatriciaRounter/Sources/RoteadorSim.c:184 | With the corrected lookup, a packet for 172.16.0.0/12 from A goes A, B, C and is delivered at C. |
| Network.SimulatedPrivate | PatriciaRounter/Sources/RoteadorSim.c:182 | The first simulation, 192.168.1.5 from A: the corrected lookup drops it at D after A, C, D, not the A, B, LOCAL of the comment. The literal lookup drops it at D after A, B, C, D. |
| Network.SimulatedNet10 | PatriciaRounter/Sources/RoteadorSim.c:183 | The second simulation, 10.1.2.3 from A: the corrected lookup delivers it at D after A, B, C, D, as the comment says. The literal lookup drops it at D. |
| Network.SimulatedNet17216 | PatriciaRounter/Sources/RoteadorSim.c:184 | The third simulation, 172.16.5.4 from A: the corrected lookup delivers it at C after A, B, C, as the comment says. The literal lookup drops it at D after A, B, C, D. |

## Left out

- Memory management is not modelled: `malloc`/`free`, the string copies, node teardown and `destruirPatricia`. Immutable datatypes make ownership moot.
- Printing is not modelled: the tree dump and every `printf` of the forwarding loop. The loop returns an `Outcome` and the trace of routers instead.
- Text parsing is not modelled. The `sscanf` calls are replaced by octets and a prefix length passed in already parsed.
- Bits are `bool`. The source's '0'/'1' characters, and its reading of any character other than '0' as 1, are not modelled.
- Next-hop strings are opaque tokens. Only equality with "LOCAL" and with router names matters.
- Router names are not truncated to the source's 32-byte array.
- RouterSim.Ipv4ToBits: octets are taken as values below 256. The `unsigned` shifts and their wrap-around for larger `%u` input are not modelled.
- RouterSim.ParsePrefix: requires `plen <= 32`. The source copies `plen` bytes without checking, so a negative or larger length is undefined behaviour there.
- Patricia.InsertAt: the branch for a node with an empty edge (lines 129-147 of Patricia.c) is merged with the full-match branch (lines 104-128). An empty edge matches with a common length of 0, so both take the same steps. The impossible `pos > nbits` check at line 107 disappears.
- The comments beside `main`'s three simulations (RoteadorSim.c lines 182-184) are not all met. With the corrected lookup, the second and third paths come out as commented, A → B → C → D → LOCAL and A → B → C → LOCAL (`Network.SimulatedNet10`, `Network.SimulatedNet17216`). The first does not: router A holds 192.168.0.0/16 -> C, so 192.168.1.5 goes A → C → D and is dropped at D, not A → B → LOCAL (`Network.SimulatedPrivate`). The table as written is modelled, not the one the comment may have had in mind. With the literal lookup, all three packets go A → B → C → D and are dropped at D (`Network.AsWrittenJourney`).

## Findings

| source | as written | input that shows it | evidently intended | confidence | as-written member | corrected member |
|---|---|---|---|---|---|---|
| PatriciaRounter/Sources/Patricia.c:169 | After leaving a node with an empty edge, the lookup advances `pos` past the bit that chose the child. Insertion keeps that bit as the first bit of the child's edge (lines 136-141), so the child's edge is compared one bit too late. In a trie built by insertion only the root has an empty edge (`Patricia.Valid`), so every lookup of a non-empty key is affected at its first step. | A table holding only 10.0.0.0/8 -> B, looked up with 10.1.2.3: the edge `00001010` is compared with key bits 1-8, `00010100`, and the lookup returns NULL. | The longest-prefix match: B. With that lookup, `main`'s second and third simulations follow the commented paths (`Network.SimulatedNet10`, `Network.SimulatedNet17216`); with the literal one, every simulated packet is dropped at D (`Network.AsWrittenJourney`). | not executed | Scenarios.AsWrittenMissesNet10 | LookupProofs.LookupIsLongestMatch |
