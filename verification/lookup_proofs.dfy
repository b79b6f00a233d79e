/** The lookup walk against the longest-prefix-match reference. */
module LookupProofs {
  import opened Wrappers
  import opened PrefixMaps
  import opened Patricia
  import opened InsertProofs

  /** When the edge of `n` does not match the key at `pos` (too few bits
      left, or a differing bit), no prefix of the key is stored below `n`. */
  lemma MismatchStoresNothing<T>(n: Node<T>, key: seq<bool>, pos: nat)
    requires pos <= |key|
    requires pos + |n.edge| > |key| || n.edge != key[pos..pos + |n.edge|]
    ensures forall j :: 0 <= j <= |key| ==> key[..j] !in Stored(Some(n), key[..pos])
  {
    var p := key[..pos];
    StoredExtends(Some(n), p);
    forall j | 0 <= j <= |key|
      ensures !(p + n.edge <= key[..j])
    {
      if pos + |n.edge| <= j {
        assert key[..j][pos..pos + |n.edge|] == key[pos..pos + |n.edge|];
        assert (p + n.edge)[pos..] == n.edge;
      }
    }
  }

  /** At a node whose whole edge matched the key, the only prefix of the key
      up to the end of that edge stored below the node is the node's own,
      so the best answer up to there is its next hop, if any. */
  lemma MatchedNodeOwn<T>(n: Node<T>, key: seq<bool>, pos: nat, best: Option<T>)
    requires WellFormed(Some(n))
    requires pos + |n.edge| <= |key| && n.edge == key[pos..pos + |n.edge|]
    ensures var pos' := pos + |n.edge|;
      Best(Stored(Some(n), key[..pos]), key, pos', best) == if n.hop.Some? then n.hop else best
  {
    var pos' := pos + |n.edge|;
    var e := key[..pos'];
    assert key[..pos] + n.edge == e;
    var m := Stored(Some(n), key[..pos]);
    SlotPrefixes(n, e, false);
    SlotPrefixes(n, e, true);
    StoredExtends(Some(n), key[..pos]);
    assert forall j :: 0 <= j < pos' ==> key[..j] !in m;
    assert e in m <==> n.hop.Some?;
    assert n.hop.Some? ==> m[e] == n.hop.value;
    if n.hop.None? {
      BestNone(m, key, pos', best);
    }
  }

  /** A bit string that continues a node's full prefix `p + n.edge` with bit
      `b` is stored below the node exactly when it is stored in the child in
      slot `b`, and with the same next hop. */
  lemma ChildSlotDecides<T>(n: Node<T>, p: seq<bool>, b: bool, k: seq<bool>)
    requires WellFormed(Some(n))
    requires |k| > |p + n.edge| && k[|p + n.edge|] == b
    ensures var m := Stored(Some(n), p);
      var s := Stored(ChildAt(n, b), p + n.edge);
      && (k in m <==> k in s)
      && (k in m ==> m[k] == s[k])
  {
    var e := p + n.edge;
    var own: map<seq<bool>, T> := if n.hop.Some? then map[e := n.hop.value] else map[];
    assert Stored(Some(n), p) == own + Stored(n.zero, e) + Stored(n.one, e);
    assert k !in own;
    SlotPrefixes(n, e, !b);
  }

  /** The child in slot `key[pos']` below a node whose full prefix is
      `key[..pos']` stores no prefix of the key ending at or before `pos'`. */
  lemma ChildHasNoShortPrefix<T>(n: Node<T>, key: seq<bool>, pos': nat)
    requires WellFormed(Some(n))
    requires pos' < |key|
    ensures NoneUpTo(Stored(ChildAt(n, key[pos']), key[..pos']), key, pos')
  {
    SlotPrefixes(n, key[..pos'], key[pos']);
  }

  /** Beyond the end of a matched edge, the prefixes of the key stored below
      the node are exactly those stored in the child in the slot of the next
      key bit, with the same next hops. */
  lemma MatchedNodeChildKeys<T>(n: Node<T>, key: seq<bool>, pos: nat)
    requires WellFormed(Some(n))
    requires pos + |n.edge| < |key| && n.edge == key[pos..pos + |n.edge|]
    ensures var pos' := pos + |n.edge|;
      AgreeAfter(Stored(Some(n), key[..pos]), Stored(ChildAt(n, key[pos']), key[..pos']), key, pos')
  {
    var pos' := pos + |n.edge|;
    var e := key[..pos'];
    assert key[..pos] + n.edge == e;
    var m := Stored(Some(n), key[..pos]);
    var s := Stored(ChildAt(n, key[pos']), e);
    forall j | pos' < j <= |key|
      ensures key[..j] in m <==> key[..j] in s
    {
      ChildSlotDecides(n, key[..pos], key[pos'], key[..j]);
    }
    forall j | pos' < j <= |key| && key[..j] in m
      ensures m[key[..j]] == s[key[..j]]
    {
      ChildSlotDecides(n, key[..pos], key[pos'], key[..j]);
    }
  }

  /** Beyond the end of a matched edge, the search below the node continues
      as the search in the child in the slot of the next key bit, with the
      best answer up to the end of the edge as its default. */
  lemma MatchedNodeChild<T>(n: Node<T>, key: seq<bool>, pos: nat, best: Option<T>)
    requires WellFormed(Some(n))
    requires pos + |n.edge| < |key| && n.edge == key[pos..pos + |n.edge|]
    ensures var pos' := pos + |n.edge|;
      var m := Stored(Some(n), key[..pos]);
      Best(m, key, |key|, best) == Best(Stored(ChildAt(n, key[pos']), key[..pos']), key, |key|, Best(m, key, pos', best))
  {
    var pos' := pos + |n.edge|;
    var m := Stored(Some(n), key[..pos]);
    MatchedNodeChildKeys(n, key, pos);
    ChildHasNoShortPrefix(n, key, pos');
    BestHandOver(m, Stored(ChildAt(n, key[pos']), key[..pos']), key, pos', best);
  }

  /** The step at a node whose whole edge matched the key: its next hop (if
      any) becomes the best answer so far, and the rest of the search only
      concerns the child in the slot of the next key bit. */
  lemma MatchedNodeStep<T>(n: Node<T>, key: seq<bool>, pos: nat, best: Option<T>)
    requires WellFormed(Some(n))
    requires pos + |n.edge| <= |key| && n.edge == key[pos..pos + |n.edge|]
    ensures var pos' := pos + |n.edge|;
      var best' := if n.hop.Some? then n.hop else best;
      var m := Stored(Some(n), key[..pos]);
      && (pos' == |key| ==> Best(m, key, |key|, best) == best')
      && (pos' < |key| ==>
            Best(m, key, |key|, best) == Best(Stored(ChildAt(n, key[pos']), key[..pos']), key, |key|, best'))
  {
    MatchedNodeOwn(n, key, pos, best);
    if pos + |n.edge| < |key| {
      MatchedNodeChild(n, key, pos, best);
    }
  }

  /** One step of the walk without the extra bit consumption, with the
      empty and non-empty edge cases of the walk folded into one: a
      mismatching edge ends the walk with `best`, a matching one moves past
      the edge and takes the node's next hop if it has one. */
  lemma WalkStep<T>(n: Node<T>, key: seq<bool>, pos: nat, best: Option<T>)
    requires pos <= |key|
    ensures var pos' := pos + |n.edge|;
      var best' := if n.hop.Some? then n.hop else best;
      Walk(Some(n), key, pos, best, false) ==
        if pos' > |key| || n.edge != key[pos..pos'] then best
        else if pos' == |key| then best'
        else Walk(ChildAt(n, key[pos']), key, pos', best', false)
  {
    if |n.edge| == 0 {
      assert n.edge == key[pos..pos];
    }
  }

  /** The walk without the extra bit consumption computes, below any
      well-formed slot, the longest-prefix match among the prefixes stored
      there, falling back to `best`. */
  lemma {:induction false} WalkIsBest<T>(c: Option<Node<T>>, key: seq<bool>, pos: nat, best: Option<T>)
    requires pos <= |key|
    requires WellFormed(c)
    ensures Walk(c, key, pos, best, false) == Best(Stored(c, key[..pos]), key, |key|, best)
    decreases c
  {
    match c
    case None =>
      BestNone(map[], key, |key|, best);
    case Some(n) =>
      WalkStep(n, key, pos, best);
      if pos + |n.edge| > |key| || n.edge != key[pos..pos + |n.edge|] {
        MismatchStoresNothing(n, key, pos);
        BestNone(Stored(c, key[..pos]), key, |key|, best);
      } else {
        MatchedNodeStep(n, key, pos, best);
        var pos' := pos + |n.edge|;
        if pos' < |key| {
          var best' := if n.hop.Some? then n.hop else best;
          WalkIsBest(ChildAt(n, key[pos']), key, pos', best');
        }
      }
  }

  /** The corrected lookup returns the next hop of the longest stored prefix
      of the key, or `None` when no prefix (not even the empty one) is stored. */
  lemma LookupIsLongestMatch<T>(t: Trie<T>, key: seq<bool>)
    requires Valid(t)
    ensures Lookup(t, key) == LongestMatch(Abs(t), key)
  {
    WalkIsBest(Some(t.root), key, 0, t.root.hop);
    var m := Abs(t);
    assert key[..0] == [];
    if t.root.hop.Some? {
      assert [] + t.root.edge == [];
      assert key[..0] in m;
      BestIgnoresDefault(m, key, |key|, t.root.hop, None);
    }
  }

  /** Below the root every node has a non-empty edge, so the extra bit
      consumption of the walk as written never happens there. */
  lemma {:induction false} BumpUnusedBelowRoot<T>(c: Option<Node<T>>, key: seq<bool>, pos: nat, best: Option<T>)
    requires pos <= |key|
    requires WellFormed(c)
    requires c.Some? ==> |c.value.edge| > 0
    ensures Walk(c, key, pos, best, true) == Walk(c, key, pos, best, false)
    decreases c
  {
    match c
    case None =>
    case Some(n) =>
      var pos' := pos + |n.edge|;
      if pos' <= |key| && n.edge == key[pos..pos'] && pos' < |key| {
        var best' := if n.hop.Some? then n.hop else best;
        BumpUnusedBelowRoot(ChildAt(n, key[pos']), key, pos', best');
      }
  }

  /** Both walks leave the root through the slot of the key's first bit. The
      corrected one then matches the prefixes stored there against the key;
      the walk as written matches them one bit too late, against the key with
      its first bit repeated, because the child's edge still holds that bit. */
  lemma {:induction false} LookupAsWrittenSkipsBranchBit<T>(t: Trie<T>, key: seq<bool>)
    requires Valid(t)
    ensures |key| == 0 ==> Lookup(t, key) == t.root.hop && LookupAsWritten(t, key) == t.root.hop
    ensures |key| > 0 ==>
      var below := ChildAt(t.root, key[0]);
      && Lookup(t, key) == Best(Stored(below, []), key, |key|, t.root.hop)
      && LookupAsWritten(t, key) == Best(Stored(below, key[..1]), key, |key|, t.root.hop)
  {
    if |key| > 0 {
      var below := ChildAt(t.root, key[0]);
      assert WellFormed(below);
      BumpUnusedBelowRoot(below, key, 1, t.root.hop);
      WalkIsBest(below, key, 1, t.root.hop);
      WalkIsBest(below, key, 0, t.root.hop);
      assert key[..0] == [];
    }
  }

  /** A prefix stored below a base `p + q` is `p` followed by a prefix stored
      below the base `q`. */
  lemma {:induction false} StoredRebase<T>(c: Option<Node<T>>, p: seq<bool>, q: seq<bool>, k: seq<bool>)
    requires k in Stored(c, p + q)
    ensures p <= k && k[|p|..] in Stored(c, q)
    decreases c
  {
    match c
    case None =>
    case Some(n) =>
      var e, e' := p + q + n.edge, q + n.edge;
      assert e == p + e';
      if k in Stored(n.zero, e) {
        StoredRebase(n.zero, p, e', k);
      } else if k in Stored(n.one, e) {
        StoredRebase(n.one, p, e', k);
      } else {
        assert k == e && k[|p|..] == e';
      }
  }

  /** In a valid trie the root's next hop is the default route: it is there
      exactly when the empty prefix is stored, and it is what that prefix
      maps to. */
  lemma RootHopIsDefaultRoute<T>(t: Trie<T>)
    requires Valid(t)
    ensures [] in Abs(t) <==> t.root.hop.Some?
    ensures t.root.hop.Some? ==> Abs(t)[[]] == t.root.hop.value
  {
    SlotPrefixes(t.root, [], false);
    SlotPrefixes(t.root, [], true);
    assert [] + t.root.edge == [];
  }

  /** A prefix of the key stored in the root's slot for the key's first bit,
      but rebased one bit deeper, is the key's first bit repeated followed by
      a stored prefix of the key from its second bit on. */
  lemma ShiftedMatch<T>(t: Trie<T>, key: seq<bool>, j: nat)
    requires Valid(t) && 0 < |key| && j <= |key|
    ensures key[..j] in Stored(ChildAt(t.root, key[0]), key[..1]) ==>
              1 < j && key[1..j] in Abs(t) && key[1] == key[0]
  {
    var below := ChildAt(t.root, key[0]);
    if key[..j] in Stored(below, key[..1]) {
      assert key[..1] + [] == key[..1];
      StoredRebase(below, key[..1], [], key[..j]);
      assert key[..j][1..] == key[1..j];
      SlotPrefixes(t.root, [], key[0]);
      assert [] + t.root.edge == [];
    }
  }

  /** The lookup as written falls back to the root's next hop, the default
      route, unless some stored prefix starting with the key's first bit
      matches the key from its second bit on. */
  lemma AsWrittenFallsBack<T>(t: Trie<T>, key: seq<bool>)
    requires Valid(t) && |key| > 0
    requires forall s :: s in Abs(t) && 0 < |s| < |key| && s[0] == key[0] ==> s != key[1..|s| + 1]
    ensures LookupAsWritten(t, key) == t.root.hop
    ensures LookupAsWritten(t, key) == if [] in Abs(t) then Some(Abs(t)[[]]) else None
  {
    var below := ChildAt(t.root, key[0]);
    RootHopIsDefaultRoute(t);
    LookupAsWrittenSkipsBranchBit(t, key);
    forall j | 0 <= j <= |key|
      ensures key[..j] !in Stored(below, key[..1])
    {
      ShiftedMatch(t, key, j);
    }
    BestNone(Stored(below, key[..1]), key, |key|, t.root.hop);
  }
}
