/** Concrete routing tables from the simulator's own scenario. */
module Scenarios {
  import opened Wrappers
  import opened Patricia
  import opened RouterSim
  import opened InsertProofs
  import opened LookupProofs
  import opened TableProofs

  /** The bits of 10.0.0.0/8. */
  const Net10: seq<bool> := [false, false, false, false, true, false, true, false]

  lemma Octet10Bits()
    ensures BitsOf(10, 8) == Net10
  {
    BitsOfByHalving(10, 8);
  }

  /** Prefix 10.0.0.0/8 is `Net10`, and address 10.1.2.3 starts with `Net10`
      followed by a 0 bit. */
  lemma Net10Addresses()
    ensures ParsePrefix(10, 0, 0, 0, 8).0 == Net10
    ensures Ipv4ToBits(10, 1, 2, 3)[..9] == Net10 + [false]
  {
    Octet10Bits();
    Ipv4Octets(10, 0, 0, 0);
    Ipv4Octets(10, 1, 2, 3);
    assert BitsOf(1, 8)[0] == false by { assert Shr(1, 7) == Shr(0, 6) == 0; }
  }

  /** The trie of a table holding only 10.0.0.0/8 -> B: one leaf in the
      zero slot of the root. */
  lemma Net10Trie()
    ensures Insert(Create(), Net10, "B") == (1, Trie(Node([], None, Some(Node(Net10, Some("B"), None, None)), None)))
  {
  }

  /** On that trie, any key starting with `Net10` then 0 finds no route with
      the lookup as written, but B with the corrected lookup. */
  lemma Net10Lookups(key: seq<bool>)
    requires |key| == 32 && key[..9] == Net10 + [false]
    ensures var t := Trie(Node([], None, Some(Node(Net10, Some("B"), None, None)), None));
      LookupAsWritten(t, key) == None && Lookup(t, key) == Some("B")
  {
    assert key[0] == false && key[8] == false;
    assert key[..8] == Net10;
    assert key[1..9] != Net10 by { assert key[5] != Net10[4]; }
  }

  /** A table holding only 10.0.0.0/8 -> B: the lookup as written finds no
      route for 10.1.2.3, although 10.0.0.0/8 is a prefix of it; the
      corrected lookup answers B. */
  lemma AsWrittenMissesNet10()
    ensures var t := Insert(Create(), ParsePrefix(10, 0, 0, 0, 8).0, "B").1;
      var key := Ipv4ToBits(10, 1, 2, 3);
      LookupAsWritten(t, key) == None && Lookup(t, key) == Some("B")
  {
    Net10Addresses();
    Net10Trie();
    Net10Lookups(Ipv4ToBits(10, 1, 2, 3));
  }

  /** The bits of 192.168.0.0/16. */
  const Net192168: seq<bool> :=
    [true, true, false, false, false, false, false, false, true, false, true, false, true, false, false, false]

  /** The bits of 192.168.1.0/24. */
  const Net1921681: seq<bool> := Net192168 + [false, false, false, false, false, false, false, true]

  /** The bits of 172.16.0.0/12. */
  const Net17216: seq<bool> := [true, false, true, false, true, true, false, false, false, false, false, true]

  lemma Octet192Bits()
    ensures BitsOf(192, 8) == Net192168[..8]
  {
    BitsOfByHalving(192, 8);
  }

  lemma Octet168Bits()
    ensures BitsOf(168, 8) == Net192168[8..]
  {
    BitsOfByHalving(168, 8);
  }

  lemma Octet1Bits()
    ensures BitsOf(1, 8) == Net1921681[16..]
  {
    var one := [false, false, false, false, false, false, false, true];
    assert Net1921681[16..] == one by {
      assert |Net192168| == 16;
    }
    assert BitsOf(1, 8) == one by {
      BitsOfByHalving(1, 8);
    }
  }

  lemma Octet172Bits()
    ensures BitsOf(172, 8) == Net17216[..8]
  {
    BitsOfByHalving(172, 8);
  }

  lemma Octet16Bits()
    ensures BitsOf(16, 8)[..4] == Net17216[8..]
  {
    BitsOfByHalving(16, 8);
  }

  lemma Octet8Bits()
    ensures BitsOf(8, 8) == [false, false, false, false, true, false, false, false]
  {
    BitsOfByHalving(8, 8);
  }

  /** A parsed prefix is the first `plen` bits of its address. */
  lemma ParsedIsAddressPrefix(a: Octet, b: Octet, c: Octet, d: Octet, plen: nat)
    requires plen <= 32
    ensures ParsePrefix(a, b, c, d, plen).0 == Ipv4ToBits(a, b, c, d)[..plen]
    ensures ParsePrefix(a, b, c, d, plen).0 == (BitsOf(a, 8) + BitsOf(b, 8) + BitsOf(c, 8) + BitsOf(d, 8))[..plen]
  {
    Ipv4Octets(a, b, c, d);
  }

  /** The three other prefixes of the simulator's tables parse to the
      constants above, and 0.0.0.0/0 to the empty prefix. */
  lemma Net192168Prefix()
    ensures ParsePrefix(192, 168, 0, 0, 16).0 == Net192168
  {
    ParsedIsAddressPrefix(192, 168, 0, 0, 16);
    Octet192Bits();
    Octet168Bits();
  }

  lemma Net1921681Prefix()
    ensures ParsePrefix(192, 168, 1, 0, 24).0 == Net1921681
  {
    ParsedIsAddressPrefix(192, 168, 1, 0, 24);
    Octet192Bits();
    Octet168Bits();
    Octet1Bits();
  }

  lemma Net17216Prefix()
    ensures ParsePrefix(172, 16, 0, 0, 12).0 == Net17216
  {
    ParsedIsAddressPrefix(172, 16, 0, 0, 12);
    Octet172Bits();
    Octet16Bits();
  }

  lemma DefaultPrefix()
    ensures ParsePrefix(0, 0, 0, 0, 0).0 == []
  {
  }

  /** Router A's routes: 10.0.0.0/8 -> B, 192.168.0.0/16 -> C and the
      default route -> B. */
  const TableARoutes: map<seq<bool>, string> := map[Net10 := "B", Net192168 := "C", [] := "B"]

  /** Router A's table, inserted in `main`'s order. */
  function TableA(): Trie<string>
  {
    var t1 := Insert(Create(), Net10, "B").1;
    var t2 := Insert(t1, Net192168, "C").1;
    Insert(t2, [], "B").1
  }

  /** `TableA` is what `main`'s three insertions of parsed prefixes build. */
  lemma TableAParsed()
    ensures var t1 := Insert(Create(), ParsePrefix(10, 0, 0, 0, 8).0, "B").1;
      var t2 := Insert(t1, ParsePrefix(192, 168, 0, 0, 16).0, "C").1;
      TableA() == Insert(t2, ParsePrefix(0, 0, 0, 0, 0).0, "B").1
  {
    Net10Addresses();
    Net192168Prefix();
    DefaultPrefix();
  }

  /** Router A's trie is valid and holds exactly its three routes. */
  lemma TableAContents()
    ensures Valid(TableA()) && Abs(TableA()) == TableARoutes
  {
    var t0: Trie<string> := Create();
    InsertNew(t0, Net10, "B");
    var t1 := Insert(t0, Net10, "B").1;
    assert Net192168 != Net10;
    InsertNew(t1, Net192168, "C");
    var t2 := Insert(t1, Net192168, "C").1;
    InsertNew(t2, [], "B");
  }

  /** Addresses in 192.168.1.0/24, such as 192.168.1.5. */
  predicate In1921681(key: seq<bool>)
  {
    |key| == 32 && key[..24] == Net1921681
  }

  /** Addresses in 10.0.0.0/8. */
  predicate In10(key: seq<bool>)
  {
    |key| == 32 && key[..8] == Net10
  }

  /** Addresses in the lower half of 10.0.0.0/8, 10.0.0.0/9, such as 10.1.2.3. */
  predicate In10Low(key: seq<bool>)
  {
    |key| == 32 && key[..9] == Net10 + [false]
  }

  /** Addresses in 172.16.0.0/12, such as 172.16.5.4. */
  predicate In17216(key: seq<bool>)
  {
    |key| == 32 && key[..12] == Net17216
  }

  lemma Address1921685()
    ensures In1921681(Ipv4ToBits(192, 168, 1, 5))
  {
    Ipv4Octets(192, 168, 1, 5);
    Octet192Bits();
    Octet168Bits();
    Octet1Bits();
  }

  lemma Address10123()
    ensures In10(Ipv4ToBits(10, 1, 2, 3)) && In10Low(Ipv4ToBits(10, 1, 2, 3))
  {
    Net10Addresses();
    var key := Ipv4ToBits(10, 1, 2, 3);
    assert key[..8] == key[..9][..8];
  }

  lemma Address172165()
    ensures In17216(Ipv4ToBits(172, 16, 5, 4))
  {
    Ipv4Octets(172, 16, 5, 4);
    Octet172Bits();
    Octet16Bits();
  }

  /** A table holding router A's routes sends 192.168.1.0/24 to C
      (192.168.0.0/16). */
  lemma TableASends1921681(t: Trie<string>, key: seq<bool>)
    requires Valid(t) && Abs(t) == TableARoutes && In1921681(key)
    ensures Lookup(t, key) == Some("C")
  {
    assert key[..16] == Net192168;
    LongestStoredPrefixWins(t, key, 16);
  }

  /** ... and 10.0.0.0/8 to B. */
  lemma TableASends10(t: Trie<string>, key: seq<bool>)
    requires Valid(t) && Abs(t) == TableARoutes && In10(key)
    ensures Lookup(t, key) == Some("B")
  {
    assert key[..8] == Net10;
    assert key[0] != Net192168[0];
    LongestStoredPrefixWins(t, key, 8);
  }

  /** ... and an address under neither, such as 8.8.8.8, to B by the default
      route. */
  lemma TableASendsDefault(t: Trie<string>, key: seq<bool>)
    requires Valid(t) && Abs(t) == TableARoutes
    requires !(Net10 <= key) && !(Net192168 <= key)
    ensures Lookup(t, key) == Some("B")
  {
    assert key[..0] == [];
    forall j | 0 < j <= |key|
      ensures key[..j] !in Abs(t)
    {
      assert key[..j] != Net10 && key[..j] != Net192168;
    }
    LongestStoredPrefixWins(t, key, 0);
  }

  /** Router A sends 192.168.1.5 to C. */
  lemma TableAPrivate()
    ensures Lookup(TableA(), Ipv4ToBits(192, 168, 1, 5)) == Some("C")
  {
    TableAContents();
    Address1921685();
    TableASends1921681(TableA(), Ipv4ToBits(192, 168, 1, 5));
  }

  /** Router A sends 10.1.2.3 to B. */
  lemma TableANet10()
    ensures Lookup(TableA(), Ipv4ToBits(10, 1, 2, 3)) == Some("B")
  {
    TableAContents();
    Address10123();
    TableASends10(TableA(), Ipv4ToBits(10, 1, 2, 3));
  }

  /** Router A sends 8.8.8.8 to B by the default route. */
  lemma TableADefault()
    ensures Lookup(TableA(), Ipv4ToBits(8, 8, 8, 8)) == Some("B")
  {
    TableAContents();
    Octet8Bits();
    var k := Ipv4ToBits(8, 8, 8, 8);
    Ipv4Octets(8, 8, 8, 8);
    assert k[6] != Net10[6] && k[0] != Net192168[0];
    TableASendsDefault(TableA(), k);
  }
}
