/** Longest-prefix match, stated directly on a finite map from bit strings to
    values. This is the reference the trie lookup is compared against. */
module PrefixMaps {
  import opened Wrappers

  /** The length of the longest stored prefix `key[..l]` with `l <= i`, or -1
      when none of `key[..0]`, ..., `key[..i]` is a key of `m`. */
  function MatchLen<T>(m: map<seq<bool>, T>, key: seq<bool>, i: nat): (l: int)
    requires i <= |key|
    ensures -1 <= l <= i
    ensures l >= 0 ==> key[..l] in m
    ensures forall j :: l < j <= i ==> key[..j] !in m
  {
    if key[..i] in m then i
    else if i == 0 then -1
    else MatchLen(m, key, i - 1)
  }

  /** The value stored at the longest prefix `key[..l]` with `l <= i`, or
      `dflt` when no such prefix is stored. */
  function Best<T>(m: map<seq<bool>, T>, key: seq<bool>, i: nat, dflt: Option<T>): Option<T>
    requires i <= |key|
  {
    var l := MatchLen(m, key, i);
    if l < 0 then dflt else Some(m[key[..l]])
  }

  /** Longest-prefix match of a whole key: the value of the longest stored
      prefix of `key`, or `None`. */
  function LongestMatch<T>(m: map<seq<bool>, T>, key: seq<bool>): Option<T>
  {
    Best(m, key, |key|, None)
  }

  /** When no prefix up to `i` is stored, the search falls back to `dflt`. */
  lemma BestNone<T>(m: map<seq<bool>, T>, key: seq<bool>, i: nat, dflt: Option<T>)
    requires i <= |key|
    requires forall j :: 0 <= j <= i ==> key[..j] !in m
    ensures Best(m, key, i, dflt) == dflt
  {
  }

  /** Once the empty prefix is stored the default can never be reached. */
  lemma BestIgnoresDefault<T>(m: map<seq<bool>, T>, key: seq<bool>, i: nat, d1: Option<T>, d2: Option<T>)
    requires i <= |key|
    requires key[..0] in m
    ensures Best(m, key, i, d1) == Best(m, key, i, d2)
  {
  }

  /** Two maps that agree on every prefix `key[..j]` with `lo < j <= i`, and
      whose searches agree up to `lo`, agree up to `i`. */
  lemma {:induction false} BestAgree<T>(m1: map<seq<bool>, T>, m2: map<seq<bool>, T>, key: seq<bool>,
                                        lo: nat, i: nat, d1: Option<T>, d2: Option<T>)
    requires lo <= i <= |key|
    requires forall j :: lo < j <= i ==> (key[..j] in m1 <==> key[..j] in m2)
    requires forall j :: lo < j <= i && key[..j] in m1 ==> m1[key[..j]] == m2[key[..j]]
    requires Best(m1, key, lo, d1) == Best(m2, key, lo, d2)
    ensures Best(m1, key, i, d1) == Best(m2, key, i, d2)
  {
    if i > lo && key[..i] !in m1 {
      BestAgree(m1, m2, key, lo, i - 1, d1, d2);
    }
  }

  /** No prefix `key[..j]` with `j <= q` is a key of `s`. */
  ghost predicate NoneUpTo<T>(s: map<seq<bool>, T>, key: seq<bool>, q: nat)
    requires q <= |key|
  {
    forall j :: 0 <= j <= q ==> key[..j] !in s
  }

  /** `m` and `s` hold the same prefixes `key[..j]` with `q < j`, with the
      same values. */
  ghost predicate AgreeAfter<T>(m: map<seq<bool>, T>, s: map<seq<bool>, T>, key: seq<bool>, q: nat)
  {
    && (forall j :: q < j <= |key| ==> (key[..j] in m <==> key[..j] in s))
    && (forall j :: q < j <= |key| && key[..j] in m ==> m[key[..j]] == s[key[..j]])
  }

  /** Handing the search over from `m` to `s` after `q` bits: when `s` holds
      no prefix of length up to `q` and agrees with `m` beyond it, searching
      `m` is searching `s` with the answer of `m` up to `q` as default. */
  lemma BestHandOver<T>(m: map<seq<bool>, T>, s: map<seq<bool>, T>, key: seq<bool>, q: nat, d: Option<T>)
    requires q <= |key|
    requires NoneUpTo(s, key, q) && AgreeAfter(m, s, key, q)
    ensures Best(m, key, |key|, d) == Best(s, key, |key|, Best(m, key, q, d))
  {
    BestNone(s, key, q, Best(m, key, q, d));
    BestAgree(m, s, key, q, |key|, d, Best(m, key, q, d));
  }

  /** The search up to `i` returns the value of the longest stored prefix
      `key[..len]`, whatever the default. */
  lemma BestAtLongest<T>(m: map<seq<bool>, T>, key: seq<bool>, i: nat, len: nat, dflt: Option<T>)
    requires len <= i <= |key|
    requires key[..len] in m
    requires forall j :: len < j <= i ==> key[..j] !in m
    ensures Best(m, key, i, dflt) == Some(m[key[..len]])
  {
  }
}
