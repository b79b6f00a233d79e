/** What insertion does to the shape of the trie and to the routing table it
    represents. */
module InsertProofs {
  import opened Wrappers
  import opened Patricia

  /** Every prefix stored below a node extends the node's full prefix. */
  lemma {:induction false} StoredExtends<T>(c: Option<Node<T>>, p: seq<bool>)
    ensures forall q :: q in Stored(c, p) ==> c.Some? && p + c.value.edge <= q
  {
    match c
    case None =>
    case Some(n) =>
      var e := p + n.edge;
      StoredExtends(n.zero, e);
      StoredExtends(n.one, e);
      forall q | q in Stored(c, p)
        ensures e <= q
      {
        if q in Stored(n.zero, e) {
          assert e <= e + n.zero.value.edge;
        } else if q in Stored(n.one, e) {
          assert e <= e + n.one.value.edge;
        }
      }
  }

  /** In a well-formed node, every prefix stored in slot `b` is longer than
      the node's full prefix `q` and carries `b` right after it. */
  lemma SlotPrefixes<T>(n: Node<T>, q: seq<bool>, b: bool)
    requires WellFormed(Some(n))
    ensures forall s :: s in Stored(ChildAt(n, b), q) ==> |s| > |q| && s[|q|] == b && s[..|q|] == q
  {
    var slot := ChildAt(n, b);
    assert SlotOk(slot, b);
    StoredExtends(slot, q);
    forall s | s in Stored(slot, q)
      ensures |s| > |q| && s[|q|] == b && s[..|q|] == q
    {
      var e := q + slot.value.edge;
      assert e <= s;
      assert s[..|q|] == e[..|q|];
      assert s[|q|] == e[|q|] == slot.value.edge[0];
    }
  }

  /** Inserting keeps the shape invariants: the node keeps an empty edge if
      it had one, otherwise a non-empty edge with the same first bit, and
      every child stays in the slot of its first bit. The key rest `k` must
      start with the node's first edge bit, as the parent chose it by that bit. */
  lemma {:induction false} InsertAtKeepsShape<T>(n: Node<T>, k: seq<bool>, v: T)
    requires WellFormed(Some(n))
    requires |n.edge| > 0 ==> |k| > 0 && k[0] == n.edge[0]
    ensures var r := InsertAt(n, k, v);
      && WellFormed(Some(r.1))
      && (|n.edge| == 0 ==> r.1.edge == [])
      && (|n.edge| > 0 ==> |r.1.edge| > 0 && r.1.edge[0] == n.edge[0])
  {
    var cp := if |n.edge| > 0 then CommonPrefix(n.edge, k) else 0;
    if cp < |n.edge| {
      assert cp > 0;
      SplitAtKeepsShape(n, cp);
    } else {
      var rest := k[cp..];
      if |rest| > 0 {
        match ChildAt(n, rest[0])
        case None =>
        case Some(c) =>
          InsertAtKeepsShape(c, rest, v);
      }
    }
  }

  /** Splitting an edge changes no stored prefix: the old next hop and
      children move below the branch point under the same full prefixes. */
  lemma SplitAtKeepsStored<T>(n: Node<T>, p: seq<bool>, cp: nat)
    requires cp < |n.edge|
    ensures Stored(Some(SplitAt(n, cp)), p) == Stored(Some(n), p)
  {
    var child := Node(n.edge[cp..], n.hop, n.zero, n.one);
    var q := p + n.edge[..cp];
    assert q + child.edge == p + n.edge by {
      assert n.edge == n.edge[..cp] + n.edge[cp..];
    }
    assert Stored(Some(child), q) == Stored(Some(n), p);
    if child.edge[0] {
      assert Stored(Some(SplitAt(n, cp)), p) == map[] + Stored(None, q) + Stored(Some(child), q);
    } else {
      assert Stored(Some(SplitAt(n, cp)), p) == map[] + Stored(Some(child), q) + Stored(None, q);
    }
  }

  /** Splitting keeps the shape: the branch point has edge `n.edge[..cp]` and
      its only child sits in the slot of the child's first bit. */
  lemma SplitAtKeepsShape<T>(n: Node<T>, cp: nat)
    requires cp < |n.edge|
    requires WellFormed(Some(n))
    ensures SplitAt(n, cp).edge == n.edge[..cp]
    ensures WellFormed(Some(SplitAt(n, cp)))
    ensures ChildAt(SplitAt(n, cp), !n.edge[cp]).None?
  {
    var child := Node(n.edge[cp..], n.hop, n.zero, n.one);
    assert WellFormed(Some(child));
  }

  /** A node's own full prefix is not stored in either of its children. */
  lemma OwnPrefixNotBelow<T>(n: Node<T>, e: seq<bool>)
    requires WellFormed(Some(n))
    ensures e !in Stored(n.zero, e) && e !in Stored(n.one, e)
  {
    SlotPrefixes(n, e, false);
    SlotPrefixes(n, e, true);
  }

  /** Updating the left operand of a union whose right operand lacks `x`. */
  lemma UnionUpdateLeft<K, V>(a: map<K, V>, b: map<K, V>, x: K, v: V)
    requires x !in b
    ensures a[x := v] + b == (a + b)[x := v]
  {
  }

  /** Updating the right operand of a union. */
  lemma UnionUpdateRight<K, V>(a: map<K, V>, b: map<K, V>, x: K, v: V)
    ensures a + b[x := v] == (a + b)[x := v]
  {
  }

  /** The split case: a key that leaves the edge of `n` after `cp` bits is
      not stored below `n`, and the split adds exactly `p + k := v`. */
  lemma InsertAtSplit<T>(n: Node<T>, p: seq<bool>, k: seq<bool>, v: T)
    requires WellFormed(Some(n))
    requires |n.edge| > 0 && CommonPrefix(n.edge, k) < |n.edge|
    ensures var r := InsertAt(n, k, v);
      && r.0 == 1
      && p + k !in Stored(Some(n), p)
      && Stored(Some(r.1), p) == Stored(Some(n), p)[p + k := v]
  {
    var cp := CommonPrefix(n.edge, k);
    SplitKeyNotStored(n, p, k);
    SplitAtKeepsStored(n, p, cp);
    SplitAtKeepsShape(n, cp);
    if cp == |k| {
      SplitEndsAtKey(n, p, k, v);
    } else {
      SplitBranchesOff(n, p, k, v);
    }
  }

  /** The split when the key ends at the split point: the branch point gets
      the next hop. */
  lemma SplitEndsAtKey<T>(n: Node<T>, p: seq<bool>, k: seq<bool>, v: T)
    requires |n.edge| > 0 && CommonPrefix(n.edge, k) < |n.edge|
    requires CommonPrefix(n.edge, k) == |k|
    requires p + k !in Stored(Some(SplitAt(n, |k|)), p)
    ensures var r := InsertAt(n, k, v);
      Stored(Some(r.1), p) == Stored(Some(SplitAt(n, |k|)), p)[p + k := v]
  {
    var cp := |k|;
    var branch := SplitAt(n, cp);
    var q := p + k[..cp];
    assert q == p + k by { assert k[..cp] == k; }
    assert branch.edge == k;
    var z, o := Stored(branch.zero, q), Stored(branch.one, q);
    assert Stored(Some(branch), p) == map[] + z + o;
    var r := InsertAt(n, k, v);
    assert r.1 == branch.(hop := Some(v));
    assert Stored(Some(r.1), p) == map[][q := v] + z + o;
    UnionUpdateLeft(map[], z, q, v);
    UnionUpdateLeft(map[] + z, o, q, v);
  }

  /** The split when the key goes on past the split point: a new leaf takes
      the slot the old edge does not use. */
  lemma SplitBranchesOff<T>(n: Node<T>, p: seq<bool>, k: seq<bool>, v: T)
    requires |n.edge| > 0 && CommonPrefix(n.edge, k) < |n.edge|
    requires CommonPrefix(n.edge, k) < |k|
    requires var cp := CommonPrefix(n.edge, k);
      && SplitAt(n, cp).edge == k[..cp]
      && ChildAt(SplitAt(n, cp), k[cp]).None?
      && p + k !in Stored(Some(SplitAt(n, cp)), p)
    ensures var r := InsertAt(n, k, v);
      Stored(Some(r.1), p) == Stored(Some(SplitAt(n, CommonPrefix(n.edge, k))), p)[p + k := v]
  {
    var cp := CommonPrefix(n.edge, k);
    var branch := SplitAt(n, cp);
    var q := p + k[..cp];
    var z, o := Stored(branch.zero, q), Stored(branch.one, q);
    assert Stored(Some(branch), p) == map[] + z + o;
    var r := InsertAt(n, k, v);
    assert q + k[cp..] == p + k;
    var leaf := NewNode(k[cp..], Some(v));
    assert r.1 == WithChild(branch, k[cp], Some(leaf));
    assert Stored(Some(leaf), q) == map[][p + k := v];
    if k[cp] {
      assert o == map[];
      assert Stored(Some(r.1), p) == map[] + z + o[p + k := v];
      UnionUpdateRight(map[] + z, o, p + k, v);
    } else {
      assert z == map[];
      assert Stored(Some(r.1), p) == map[] + z[p + k := v] + o;
      UnionUpdateRight(map[], z, p + k, v);
      UnionUpdateLeft(map[] + z, o, p + k, v);
    }
  }

  /** A key that leaves the edge of `n` before its end is not stored below `n`. */
  lemma SplitKeyNotStored<T>(n: Node<T>, p: seq<bool>, k: seq<bool>)
    requires |n.edge| > 0 && CommonPrefix(n.edge, k) < |n.edge|
    ensures p + k !in Stored(Some(n), p)
  {
    var cp := CommonPrefix(n.edge, k);
    StoredExtends(Some(n), p);
    assert !(p + n.edge <= p + k) by {
      if cp < |k| {
        assert (p + n.edge)[|p| + cp] != (p + k)[|p| + cp];
      }
    }
  }

  /** The case where the edge of `n` is consumed whole and the key ends
      there: the next hop is set unless one is already stored. */
  lemma InsertAtHere<T>(n: Node<T>, p: seq<bool>, v: T)
    requires WellFormed(Some(n))
    ensures var r := SetHop(n, v);
      && (r.0 == 1 <==> p + n.edge !in Stored(Some(n), p))
      && (r.0 == 1 ==> Stored(Some(r.1), p) == Stored(Some(n), p)[p + n.edge := v])
  {
    var e := p + n.edge;
    OwnPrefixNotBelow(n, e);
    if n.hop.None? {
      var m: map<seq<bool>, T> := map[];
      var z, o := Stored(n.zero, e), Stored(n.one, e);
      assert Stored(Some(n), p) == m + z + o;
      assert Stored(Some(n.(hop := Some(v))), p) == m[e := v] + z + o;
      UnionUpdateLeft(m, z, e, v);
      UnionUpdateLeft(m + z, o, e, v);
    }
  }

  /** Inserting below a well-formed node whose parent sits at full prefix `p`
      acts on the stored prefixes like a map insertion of `p + k`: it
      succeeds exactly when `p + k` was not stored, and then adds `p + k := v`
      and nothing else. */
  lemma {:induction false} InsertAtUpdatesStored<T>(n: Node<T>, p: seq<bool>, k: seq<bool>, v: T)
    requires WellFormed(Some(n))
    ensures var r := InsertAt(n, k, v);
      && (r.0 == 1 <==> p + k !in Stored(Some(n), p))
      && (r.0 == 1 ==> Stored(Some(r.1), p) == Stored(Some(n), p)[p + k := v])
    decreases n, 1
  {
    var cp := if |n.edge| > 0 then CommonPrefix(n.edge, k) else 0;
    if cp < |n.edge| {
      InsertAtSplit(n, p, k, v);
    } else {
      var e := p + n.edge;
      assert n.edge == k[..cp];
      var rest := k[cp..];
      assert e + rest == p + k;
      if |rest| == 0 {
        assert e == p + k;
        assert InsertAt(n, k, v) == SetHop(n, v);
        InsertAtHere(n, p, v);
      } else {
        InsertAtDescend(n, p, k, v);
      }
    }
  }

  /** The case where the edge of `n` is consumed whole and key bits remain:
      the insertion goes into the slot of the next bit. */
  lemma {:induction false} InsertAtDescend<T>(n: Node<T>, p: seq<bool>, k: seq<bool>, v: T)
    requires WellFormed(Some(n))
    requires |n.edge| < |k| && n.edge == k[..|n.edge|]
    ensures var r := InsertAt(n, k, v);
      && (r.0 == 1 <==> p + k !in Stored(Some(n), p))
      && (r.0 == 1 ==> Stored(Some(r.1), p) == Stored(Some(n), p)[p + k := v])
    decreases n, 0
  {
    var cp := |n.edge|;
    assert cp == if |n.edge| > 0 then CommonPrefix(n.edge, k) else 0;
    var e := p + n.edge;
    var rest := k[cp..];
    assert e + rest == p + k;
    var b := rest[0];
    assert (p + k)[|e|] == b;
    var own := if n.hop.Some? then map[e := n.hop.value] else map[];
    var z, o := Stored(n.zero, e), Stored(n.one, e);
    assert Stored(Some(n), p) == own + z + o;
    SlotPrefixes(n, e, !b);
    assert p + k !in Stored(ChildAt(n, !b), e);
    assert p + k !in own;
    var r := InsertAt(n, k, v);
    match ChildAt(n, b)
    case None =>
      assert Stored(Some(NewNode(rest, Some(v))), e) == map[][p + k := v];
      assert Stored(ChildAt(n, b), e) == map[];
      DescendResult(n, p, k, v, Stored(ChildAt(n, b), e), Stored(Some(NewNode(rest, Some(v))), e));
    case Some(c) =>
      InsertAtUpdatesStored(c, e, rest, v);
      var sub := InsertAt(c, rest, v);
      assert r == (sub.0, WithChild(n, b, Some(sub.1)));
      if sub.0 == 1 {
        DescendResult(n, p, k, v, Stored(Some(c), e), Stored(Some(sub.1), e));
      }
  }

  /** Replacing the child in the slot of the key's next bit by one whose
      stored prefixes gained `p + k := v` adds exactly that entry. */
  lemma DescendResult<T>(n: Node<T>, p: seq<bool>, k: seq<bool>, v: T,
                         before: map<seq<bool>, T>, after: map<seq<bool>, T>)
    requires WellFormed(Some(n))
    requires |n.edge| < |k| && n.edge == k[..|n.edge|]
    requires before == Stored(ChildAt(n, k[|n.edge|]), p + n.edge)
    requires after == before[p + k := v]
    ensures forall c' :: Stored(c', p + n.edge) == after ==>
      Stored(Some(WithChild(n, k[|n.edge|], c')), p) == Stored(Some(n), p)[p + k := v]
  {
    var e := p + n.edge;
    var b := k[|n.edge|];
    assert e + k[|n.edge|..] == p + k;
    assert (p + k)[|e|] == b;
    var own := if n.hop.Some? then map[e := n.hop.value] else map[];
    SlotPrefixes(n, e, !b);
    assert p + k !in Stored(ChildAt(n, !b), e);
    forall c' | Stored(c', e) == after
      ensures Stored(Some(WithChild(n, b, c')), p) == Stored(Some(n), p)[p + k := v]
    {
      if b {
        assert Stored(Some(WithChild(n, b, c')), p) == own + Stored(n.zero, e) + before[p + k := v];
        UnionUpdateRight(own + Stored(n.zero, e), before, p + k, v);
      } else {
        assert Stored(Some(WithChild(n, b, c')), p) == own + before[p + k := v] + Stored(n.one, e);
        UnionUpdateRight(own, before, p + k, v);
        UnionUpdateLeft(own + before, Stored(n.one, e), p + k, v);
      }
    }
  }

  /** Insertion keeps a valid trie valid. */
  lemma InsertKeepsValid<T>(t: Trie<T>, key: seq<bool>, v: T)
    requires Valid(t)
    ensures Valid(Insert(t, key, v).1)
  {
    InsertAtKeepsShape(t.root, key, v);
  }

  /** On a valid trie, insertion is a map insertion on the routing table: it
      succeeds exactly when `key` has no next hop yet and then binds `key` to
      `v`, changing nothing else; a duplicate leaves the trie unchanged. */
  lemma InsertUpdatesTable<T>(t: Trie<T>, key: seq<bool>, v: T)
    requires Valid(t)
    ensures var r := Insert(t, key, v);
      && (r.0 == 1 <==> key !in Abs(t))
      && (r.0 == 1 ==> Abs(r.1) == Abs(t)[key := v])
      && (r.0 == 0 ==> r.1 == t)
  {
    InsertAtUpdatesStored(t.root, [], key, v);
    assert [] + key == key;
  }
}
