/** Consequences for whole routing tables: what a sequence of insertions
    followed by lookups observes. */
module TableProofs {
  import opened Wrappers
  import opened PrefixMaps
  import opened Patricia
  import opened InsertProofs
  import opened LookupProofs

  /** A fresh trie answers every lookup with no next hop. */
  lemma FreshTrieFindsNothing<T>(key: seq<bool>)
    ensures Lookup(Create<T>(), key) == None
    ensures LookupAsWritten(Create<T>(), key) == None
  {
  }

  /** A key that is itself a stored prefix resolves to its own next hop. */
  lemma LookupFindsStoredKey<T>(t: Trie<T>, key: seq<bool>)
    requires Valid(t)
    requires key in Abs(t)
    ensures Lookup(t, key) == Some(Abs(t)[key])
  {
    LookupIsLongestMatch(t, key);
    assert key[..|key|] == key;
  }

  /** Inserting the same prefix twice keeps the first next hop: the second
      insertion reports 0 and leaves the trie as it was. */
  lemma DuplicateKeepsFirst<T>(t: Trie<T>, key: seq<bool>, v1: T, v2: T)
    requires Valid(t)
    requires key !in Abs(t)
    ensures var r1 := Insert(t, key, v1);
      var r2 := Insert(r1.1, key, v2);
      && r1.0 == 1 && r2.0 == 0 && r2.1 == r1.1
      && Lookup(r2.1, key) == Some(v1)
  {
    var r1 := Insert(t, key, v1);
    InsertUpdatesTable(t, key, v1);
    InsertKeepsValid(t, key, v1);
    InsertUpdatesTable(r1.1, key, v2);
    LookupFindsStoredKey(r1.1, key);
  }

  /** The empty prefix is the default route: inserted into a table holding
      no non-empty prefix of `key`, it is what `key` resolves to. */
  lemma DefaultRouteFallback<T>(t: Trie<T>, key: seq<bool>, v: T)
    requires Valid(t)
    requires [] !in Abs(t)
    requires forall j :: 0 < j <= |key| ==> key[..j] !in Abs(t)
    ensures var r := Insert(t, [], v); r.0 == 1 && Lookup(r.1, key) == Some(v)
  {
    var r := Insert(t, [], v);
    InsertUpdatesTable(t, [], v);
    InsertKeepsValid(t, [], v);
    LookupIsLongestMatch(r.1, key);
    assert key[..0] == [];
    assert forall j :: 0 < j <= |key| ==> key[..j] != [];
  }

  /** Lookups depend only on the routing table a valid trie represents. */
  lemma SameTableSameLookups<T>(ta: Trie<T>, tb: Trie<T>)
    requires Valid(ta) && Valid(tb) && Abs(ta) == Abs(tb)
    ensures forall key :: Lookup(ta, key) == Lookup(tb, key)
  {
    forall key
      ensures Lookup(ta, key) == Lookup(tb, key)
    {
      LookupIsLongestMatch(ta, key);
      LookupIsLongestMatch(tb, key);
    }
  }

  /** Inserting a new prefix into a valid trie gives a valid trie whose
      table gained exactly that binding. */
  lemma InsertNew<T>(t: Trie<T>, key: seq<bool>, v: T)
    requires Valid(t) && key !in Abs(t)
    ensures Valid(Insert(t, key, v).1) && Abs(Insert(t, key, v).1) == Abs(t)[key := v]
  {
    InsertUpdatesTable(t, key, v);
    InsertKeepsValid(t, key, v);
  }

  /** Inserting two distinct new prefixes one after the other binds both. */
  lemma InsertTwoNew<T>(t: Trie<T>, k1: seq<bool>, v1: T, k2: seq<bool>, v2: T)
    requires Valid(t)
    requires k1 != k2 && k1 !in Abs(t) && k2 !in Abs(t)
    ensures var t12 := Insert(Insert(t, k1, v1).1, k2, v2).1;
      Valid(t12) && Abs(t12) == Abs(t)[k1 := v1][k2 := v2]
  {
    InsertNew(t, k1, v1);
    InsertNew(Insert(t, k1, v1).1, k2, v2);
  }

  /** Bindings of two distinct keys can be made in either order. */
  lemma UpdatesCommute<K, V>(m: map<K, V>, k1: K, v1: V, k2: K, v2: V)
    requires k1 != k2
    ensures m[k1 := v1][k2 := v2] == m[k2 := v2][k1 := v1]
  {
  }

  /** Two distinct new prefixes inserted in either order give tries that
      answer every lookup alike. */
  lemma InsertOrderIrrelevant<T>(t: Trie<T>, k1: seq<bool>, v1: T, k2: seq<bool>, v2: T)
    requires Valid(t)
    requires k1 != k2 && k1 !in Abs(t) && k2 !in Abs(t)
    ensures var t12 := Insert(Insert(t, k1, v1).1, k2, v2).1;
      var t21 := Insert(Insert(t, k2, v2).1, k1, v1).1;
      forall key :: Lookup(t12, key) == Lookup(t21, key)
  {
    InsertTwoNew(t, k1, v1, k2, v2);
    InsertTwoNew(t, k2, v2, k1, v1);
    UpdatesCommute(Abs(t), k1, v1, k2, v2);
    SameTableSameLookups(Insert(Insert(t, k1, v1).1, k2, v2).1, Insert(Insert(t, k2, v2).1, k1, v1).1);
  }

  /** Inserts the prefixes of `ks` one after the other, first to last. */
  function InsertAll<T>(t: Trie<T>, ks: seq<(seq<bool>, T)>): Trie<T>
    decreases |ks|
  {
    if |ks| == 0 then t else InsertAll(Insert(t, ks[0].0, ks[0].1).1, ks[1..])
  }

  /** The routing table the pairs of `ks` describe. */
  function Bindings<T>(ks: seq<(seq<bool>, T)>): map<seq<bool>, T>
    decreases |ks|
  {
    if |ks| == 0 then map[] else Bindings(ks[1..])[ks[0].0 := ks[0].1]
  }

  /** No prefix occurs twice in `ks`. */
  predicate DistinctKeys<T>(ks: seq<(seq<bool>, T)>)
  {
    forall i, j :: 0 <= i < j < |ks| ==> ks[i].0 != ks[j].0
  }

  /** The pairs after the first still have distinct prefixes. */
  lemma DistinctTail<T>(ks: seq<(seq<bool>, T)>)
    requires |ks| > 0 && DistinctKeys(ks)
    ensures DistinctKeys(ks[1..])
  {
    var rest := ks[1..];
    forall i, j | 0 <= i < j < |rest| ensures rest[i].0 != rest[j].0 {
      assert rest[i] == ks[i + 1] && rest[j] == ks[j + 1];
    }
  }

  /** The first prefix is not bound again by the pairs after it. */
  lemma FirstKeyNotBoundLater<T>(ks: seq<(seq<bool>, T)>)
    requires |ks| > 0 && DistinctKeys(ks)
    ensures ks[0].0 !in Bindings(ks[1..])
  {
    var rest := ks[1..];
    DistinctTail(ks);
    BindingsContents(rest);
    forall p | p in rest ensures p.0 != ks[0].0 {
      var i :| 0 <= i < |rest| && rest[i] == p;
      assert ks[i + 1] == p;
    }
  }

  /** Binding `k` before or after a union with a table that lacks `k` is the same. */
  lemma UpdateThenUnion<K, V>(m: map<K, V>, b: map<K, V>, k: K, v: V)
    requires k !in b
    ensures m[k := v] + b == m + b[k := v]
  {
  }

  /** With distinct prefixes, the table binds exactly the pairs of `ks`. */
  lemma {:induction false} BindingsContents<T>(ks: seq<(seq<bool>, T)>)
    requires DistinctKeys(ks)
    ensures forall p :: p in ks ==> p.0 in Bindings(ks) && Bindings(ks)[p.0] == p.1
    ensures forall k :: k in Bindings(ks) ==> exists p :: p in ks && p.0 == k
    decreases |ks|
  {
    if |ks| > 0 {
      var rest := ks[1..];
      DistinctTail(ks);
      BindingsContents(rest);
      forall p | p in ks
        ensures p.0 in Bindings(ks) && Bindings(ks)[p.0] == p.1
      {
        if p != ks[0] {
          var i :| 0 <= i < |ks| && ks[i] == p;
          assert i > 0 && rest[i - 1] == p;
        }
      }
      forall k | k in Bindings(ks)
        ensures exists p :: p in ks && p.0 == k
      {
        if k != ks[0].0 {
          assert k in Bindings(rest);
          var p :| p in rest && p.0 == k;
          assert p in ks;
        }
      }
    }
  }

  /** Inserting distinct new prefixes one after the other gives a valid trie
      whose table gained exactly their bindings, and each insertion reports 1. */
  lemma {:induction false} InsertAllTable<T>(t: Trie<T>, ks: seq<(seq<bool>, T)>)
    requires Valid(t) && DistinctKeys(ks)
    requires forall i :: 0 <= i < |ks| ==> ks[i].0 !in Abs(t)
    ensures Valid(InsertAll(t, ks)) && Abs(InsertAll(t, ks)) == Abs(t) + Bindings(ks)
    decreases |ks|
  {
    if |ks| > 0 {
      var k, v, rest := ks[0].0, ks[0].1, ks[1..];
      InsertNew(t, k, v);
      var t1 := Insert(t, k, v).1;
      DistinctTail(ks);
      forall i | 0 <= i < |rest| ensures rest[i].0 !in Abs(t1) {
        assert rest[i] == ks[i + 1];
      }
      InsertAllTable(t1, rest);
      FirstKeyNotBoundLater(ks);
      UpdateThenUnion(Abs(t), Bindings(rest), k, v);
    }
  }

  /** With distinct prefixes, each pair occurs at most once. */
  lemma {:induction false} PairsOnce<T>(ks: seq<(seq<bool>, T)>, p: (seq<bool>, T))
    requires DistinctKeys(ks)
    ensures multiset(ks)[p] <= 1
    decreases |ks|
  {
    if |ks| > 0 {
      var rest := ks[1..];
      assert ks == [ks[0]] + rest;
      DistinctTail(ks);
      PairsOnce(rest, p);
      if ks[0] == p {
        forall i | 0 <= i < |rest| ensures rest[i] != p {
          assert rest[i] == ks[i + 1];
        }
      }
    }
  }

  /** A pair at two positions occurs at least twice. */
  lemma PairTwice<T>(ks: seq<(seq<bool>, T)>, i: nat, j: nat)
    requires i < j < |ks| && ks[i] == ks[j]
    ensures multiset(ks)[ks[i]] >= 2
  {
    assert ks == ks[..j] + [ks[j]] + ks[j + 1..];
    assert ks[..j][i] == ks[i];
  }

  /** Reordering pairs with distinct prefixes keeps them distinct. */
  lemma DistinctKeysPermuted<T>(ks1: seq<(seq<bool>, T)>, ks2: seq<(seq<bool>, T)>)
    requires DistinctKeys(ks1) && multiset(ks1) == multiset(ks2)
    ensures DistinctKeys(ks2)
  {
    forall i, j | 0 <= i < j < |ks2| ensures ks2[i].0 != ks2[j].0 {
      assert ks2[i] in multiset(ks1) && ks2[j] in multiset(ks1);
      if ks2[i] == ks2[j] {
        PairTwice(ks2, i, j);
        PairsOnce(ks1, ks2[i]);
      } else {
        var a :| 0 <= a < |ks1| && ks1[a] == ks2[i];
        var b :| 0 <= b < |ks1| && ks1[b] == ks2[j];
        assert a != b;
      }
    }
  }

  /** Two orderings of the same pairs with distinct prefixes describe the
      same table. */
  lemma PermutedBindings<T>(ks1: seq<(seq<bool>, T)>, ks2: seq<(seq<bool>, T)>)
    requires DistinctKeys(ks1) && multiset(ks1) == multiset(ks2)
    ensures DistinctKeys(ks2) && Bindings(ks1) == Bindings(ks2)
  {
    DistinctKeysPermuted(ks1, ks2);
    BindingsContents(ks1);
    BindingsContents(ks2);
    forall p ensures p in ks1 <==> p in ks2 {
      assert p in ks1 <==> p in multiset(ks1);
      assert p in ks2 <==> p in multiset(ks2);
    }
  }

  /** Distinct new prefixes inserted in any order give tries that answer
      every lookup alike: only the set of pairs matters. */
  lemma InsertAllOrderIrrelevant<T>(t: Trie<T>, ks1: seq<(seq<bool>, T)>, ks2: seq<(seq<bool>, T)>)
    requires Valid(t) && DistinctKeys(ks1) && multiset(ks1) == multiset(ks2)
    requires forall i :: 0 <= i < |ks1| ==> ks1[i].0 !in Abs(t)
    ensures forall key :: Lookup(InsertAll(t, ks1), key) == Lookup(InsertAll(t, ks2), key)
  {
    PermutedBindings(ks1, ks2);
    forall i | 0 <= i < |ks2| ensures ks2[i].0 !in Abs(t) {
      assert ks2[i] in multiset(ks1);
      var m :| 0 <= m < |ks1| && ks1[m] == ks2[i];
    }
    InsertAllTable(t, ks1);
    InsertAllTable(t, ks2);
    SameTableSameLookups(InsertAll(t, ks1), InsertAll(t, ks2));
  }

  /** The longest stored prefix of the key decides the lookup. */
  lemma LongestStoredPrefixWins<T>(t: Trie<T>, key: seq<bool>, len: nat)
    requires Valid(t) && len <= |key|
    requires key[..len] in Abs(t)
    requires forall j :: len < j <= |key| ==> key[..j] !in Abs(t)
    ensures Lookup(t, key) == Some(Abs(t)[key[..len]])
  {
    LookupIsLongestMatch(t, key);
    BestAtLongest(Abs(t), key, |key|, len, None);
  }

  /** A key with no stored prefix, not even the empty one, has no route. */
  lemma NoStoredPrefixNoRoute<T>(t: Trie<T>, key: seq<bool>)
    requires Valid(t)
    requires forall j :: 0 <= j <= |key| ==> key[..j] !in Abs(t)
    ensures Lookup(t, key) == None
  {
    LookupIsLongestMatch(t, key);
    BestNone(Abs(t), key, |key|, None);
  }
}
