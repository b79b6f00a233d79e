/** The PATRICIA (compressed binary radix) trie of the router: bit-string
    prefixes with an opaque next hop each, edge-splitting insertion and a
    longest-prefix-match walk. A bit is a `bool` (`true` is the character '1'),
    a NULL pointer is `None`, and a next hop is an opaque value of type `T`. */
module Patricia {
  import opened Wrappers

  /** One node: the label of the edge leading into it (`edgeLen` is `|edge|`),
      the next hop when a stored prefix ends here, and the child slots taken
      when the next bit is 0 (`zero`) or 1 (`one`). */
  datatype Node<T> = Node(edge: seq<bool>, hop: Option<T>, zero: Option<Node<T>>, one: Option<Node<T>>)

  /** A trie owns its root node, whose edge is empty. */
  datatype Trie<T> = Trie(root: Node<T>)

  /** The slot a bit selects. */
  function ChildAt<T>(n: Node<T>, b: bool): Option<Node<T>>
  {
    if b then n.one else n.zero
  }

  /** `n` with the slot for bit `b` replaced by `c`. */
  function WithChild<T>(n: Node<T>, b: bool, c: Option<Node<T>>): Node<T>
  {
    if b then n.(one := c) else n.(zero := c)
  }

  /** A fresh node without children, holding `edge` and `hop`. */
  function NewNode<T>(edge: seq<bool>, hop: Option<T>): Node<T>
  {
    Node(edge, hop, None, None)
  }

  // ---------------------------------------------------------------------------
  // Shape invariants and the abstract map
  // ---------------------------------------------------------------------------

  /** A child sits in slot `b` only if its edge is non-empty and starts with `b`. */
  predicate SlotOk<T>(c: Option<Node<T>>, b: bool)
  {
    c.Some? ==> |c.value.edge| > 0 && c.value.edge[0] == b
  }

  /** Every child below `c` is in the slot of its first edge bit (and so has a
      non-empty edge). */
  predicate WellFormed<T>(c: Option<Node<T>>)
  {
    match c
    case None => true
    case Some(n) =>
      SlotOk(n.zero, false) && SlotOk(n.one, true) && WellFormed(n.zero) && WellFormed(n.one)
  }

  /** The shape invariants of a whole trie: an empty root edge, and every other
      node reached through the slot of its first edge bit. */
  predicate Valid<T>(t: Trie<T>)
  {
    t.root.edge == [] && WellFormed(Some(t.root))
  }

  /** The stored prefixes below `c`, whose parent sits at full prefix `p`:
      each node with a next hop contributes its full prefix (the concatenation
      of the edges from the root) mapped to that hop. */
  function Stored<T>(c: Option<Node<T>>, p: seq<bool>): map<seq<bool>, T>
  {
    match c
    case None => map[]
    case Some(n) =>
      var q := p + n.edge;
      (if n.hop.Some? then map[q := n.hop.value] else map[]) + Stored(n.zero, q) + Stored(n.one, q)
  }

  /** The routing table a trie represents: full prefix to next hop. */
  function Abs<T>(t: Trie<T>): map<seq<bool>, T>
  {
    Stored(Some(t.root), [])
  }

  // ---------------------------------------------------------------------------
  // Operations
  // ---------------------------------------------------------------------------

  /** A new, empty trie: a root with an empty edge, no next hop and no children. */
  function Create<T>(): (t: Trie<T>)
    ensures Valid(t)
    ensures Abs(t) == map[]
  {
    Trie(NewNode([], None))
  }

  /** The number of leading bits `s1` and `s2` share, counted from `i` on. */
  function CommonPrefixFrom(s1: seq<bool>, s2: seq<bool>, i: nat): (r: nat)
    requires i <= |s1| && i <= |s2| && s1[..i] == s2[..i]
    ensures i <= r <= |s1| && r <= |s2|
    ensures s1[..r] == s2[..r]
    ensures r < |s1| && r < |s2| ==> s1[r] != s2[r]
    decreases |s1| - i
  {
    if i < |s1| && i < |s2| && s1[i] == s2[i] then
      assert s1[..i + 1] == s1[..i] + [s1[i]] && s2[..i + 1] == s2[..i] + [s2[i]];
      CommonPrefixFrom(s1, s2, i + 1)
    else i
  }

  /** The length of the leading run two bit strings share: at most the
      shorter length, equal up to it, and maximal. */
  function CommonPrefix(s1: seq<bool>, s2: seq<bool>): (r: nat)
    ensures r <= |s1| && r <= |s2|
    ensures s1[..r] == s2[..r]
    ensures r < |s1| && r < |s2| ==> s1[r] != s2[r]
  {
    CommonPrefixFrom(s1, s2, 0)
  }

  /** Stores `v` at a node where the whole key has been consumed: refused
      (status 0, nothing changes) when the node already has a next hop. */
  function SetHop<T>(n: Node<T>, v: T): (r: (int, Node<T>))
    ensures r.0 == 1 <==> n.hop.None?
    ensures r.0 == 0 ==> r.1 == n
    ensures r.0 == 1 ==> r.1 == n.(hop := Some(v))
  {
    if n.hop.Some? then (0, n) else (1, n.(hop := Some(v)))
  }

  /** Splits the edge of `n` after `cp` bits: `n` becomes a branch point with
      the first `cp` bits of the edge, no next hop, and one child that keeps
      the rest of the edge, the old next hop and the old children. (The source
      copies the common part from the key; the two are equal.) */
  function SplitAt<T>(n: Node<T>, cp: nat): (r: Node<T>)
    requires cp < |n.edge|
    ensures r.edge == n.edge[..cp] && r.hop.None?
    ensures ChildAt(r, n.edge[cp]).Some? && ChildAt(r, !n.edge[cp]).None?
    ensures ChildAt(r, n.edge[cp]).value == n.(edge := n.edge[cp..])
  {
    var child := Node(n.edge[cp..], n.hop, n.zero, n.one);
    // cp < edgeLen, so the fallback for an empty remainder cannot run.
    assert |child.edge| > 0;
    WithChild(NewNode(n.edge[..cp], None), child.edge[0], Some(child))
  }

  /** Inserts the rest `k` of a key at node `n`, returning the status (1 on
      success, 0 for a prefix that already has a next hop) and the new node. */
  function InsertAt<T>(n: Node<T>, k: seq<bool>, v: T): (r: (int, Node<T>))
    ensures r.0 == 0 || r.0 == 1
    ensures r.0 == 0 ==> r.1 == n
    decreases n
  {
    // An empty edge is consumed at once; the source's separate branch for it
    // behaves exactly like a fully matched edge with cp = 0.
    var cp := if |n.edge| > 0 then CommonPrefix(n.edge, k) else 0;
    if cp < |n.edge| then
      // The key leaves the edge after cp bits: split, then attach the key.
      var branch := SplitAt(n, cp);
      if cp == |k| then
        // The branch point had its next hop just cleared: never a duplicate.
        (1, branch.(hop := Some(v)))
      else
        (1, WithChild(branch, k[cp], Some(NewNode(k[cp..], Some(v)))))
    else
      // cp <= |k|, so the "position beyond the key" check cannot fire.
      var rest := k[cp..];
      if |rest| == 0 then SetHop(n, v)
      else
        match ChildAt(n, rest[0])
        case None => (1, WithChild(n, rest[0], Some(NewNode(rest, Some(v)))))
        case Some(c) =>
          var r := InsertAt(c, rest, v);
          (r.0, WithChild(n, rest[0], Some(r.1)))
  }

  /** Inserts prefix `key` with next hop `v`: status 1 and the extended trie,
      or status 0 and the same trie when `key` already has a next hop. */
  function Insert<T>(t: Trie<T>, key: seq<bool>, v: T): (r: (int, Trie<T>))
    ensures r.0 == 0 || r.0 == 1
    ensures r.0 == 0 ==> r.1 == t
  {
    var r := InsertAt(t.root, key, v);
    (r.0, Trie(r.1))
  }

  /** The next hops stored anywhere in slot `c`. */
  function HopsIn<T>(c: Option<Node<T>>): set<T>
    decreases c
  {
    match c
    case None => {}
    case Some(n) => (if n.hop.Some? then {n.hop.value} else {}) + HopsIn(n.zero) + HopsIn(n.one)
  }

  /** The lookup walk from slot `c`, `pos` bits of `key` consumed and `best`
      the deepest next hop seen so far. Each edge must match the key bit for
      bit; a matching node's next hop replaces `best`. With `bump`, crossing
      an empty edge also consumes the bit that chose the child, as the
      source does; without it that bit stays in place, since insertion keeps
      it as the first bit of the child's edge. */
  function Walk<T>(c: Option<Node<T>>, key: seq<bool>, pos: nat, best: Option<T>, bump: bool): (r: Option<T>)
    requires pos <= |key|
    ensures r == best || (r.Some? && r.value in HopsIn(c))
    ensures c.None? ==> r == best
    decreases c
  {
    match c
    case None => best
    case Some(n) =>
      if |n.edge| > 0 then
        if pos + |n.edge| > |key| then best
        else if n.edge != key[pos..pos + |n.edge|] then best
        else
          var pos' := pos + |n.edge|;
          var best' := if n.hop.Some? then n.hop else best;
          if pos' == |key| then best'
          else Walk(ChildAt(n, key[pos']), key, pos', best', bump)
      else
        var best' := if n.hop.Some? then n.hop else best;
        if pos == |key| then best'
        else Walk(ChildAt(n, key[pos]), key, if bump then pos + 1 else pos, best', bump)
  }

  /** The lookup as written: the root's next hop is the default, and the bit
      that leaves the root is consumed before the child's edge is compared. */
  function LookupAsWritten<T>(t: Trie<T>, key: seq<bool>): (r: Option<T>)
    ensures t.root.hop.Some? ==> r.Some?
  {
    Walk(Some(t.root), key, 0, t.root.hop, true)
  }

  /** The lookup with the branching bit left in place: the longest-prefix match. */
  function Lookup<T>(t: Trie<T>, key: seq<bool>): (r: Option<T>)
    ensures t.root.hop.Some? ==> r.Some?
  {
    Walk(Some(t.root), key, 0, t.root.hop, false)
  }
}
