/** The simulator's four-router network and the three packets it routes:
    each packet's journey under the corrected lookup and under the lookup as
    written. */
module Network {
  import opened Wrappers
  import opened Patricia
  import opened RouterSim
  import opened LookupProofs
  import opened TableProofs
  import opened Scenarios

  // ---------------------------------------------------------------------------
  // Routers B, C and D
  // ---------------------------------------------------------------------------

  /** Router B's routes: 192.168.1.0/24 -> LOCAL, 10.0.0.0/8 -> C and the
      default route -> C. */
  const TableBRoutes: map<seq<bool>, string> := map[Net1921681 := Local, Net10 := "C", [] := "C"]

  /** Router C's routes: 10.0.0.0/8 -> D, 172.16.0.0/12 -> LOCAL and the
      default route -> D. */
  const TableCRoutes: map<seq<bool>, string> := map[Net10 := "D", Net17216 := Local, [] := "D"]

  /** Router D's only route: 10.0.0.0/8 -> LOCAL. */
  const TableDRoutes: map<seq<bool>, string> := map[Net10 := Local]

  /** Router B's table, inserted in `main`'s order. */
  function TableB(): Trie<string>
  {
    var t1 := Insert(Create(), Net1921681, Local).1;
    var t2 := Insert(t1, Net10, "C").1;
    Insert(t2, [], "C").1
  }

  /** Router C's table, inserted in `main`'s order. */
  function TableC(): Trie<string>
  {
    var t1 := Insert(Create(), Net10, "D").1;
    var t2 := Insert(t1, Net17216, Local).1;
    Insert(t2, [], "D").1
  }

  /** Router D's table. */
  function TableD(): Trie<string>
  {
    Insert(Create(), Net10, Local).1
  }

  /** The tables are what `main`'s insertions of parsed prefixes build. */
  lemma TableBParsed()
    ensures var t1 := Insert(Create(), ParsePrefix(192, 168, 1, 0, 24).0, Local).1;
      var t2 := Insert(t1, ParsePrefix(10, 0, 0, 0, 8).0, "C").1;
      TableB() == Insert(t2, ParsePrefix(0, 0, 0, 0, 0).0, "C").1
  {
    Net1921681Prefix();
    Net10Addresses();
    DefaultPrefix();
  }

  lemma TableCParsed()
    ensures var t1 := Insert(Create(), ParsePrefix(10, 0, 0, 0, 8).0, "D").1;
      var t2 := Insert(t1, ParsePrefix(172, 16, 0, 0, 12).0, Local).1;
      TableC() == Insert(t2, ParsePrefix(0, 0, 0, 0, 0).0, "D").1
  {
    Net10Addresses();
    Net17216Prefix();
    DefaultPrefix();
  }

  lemma TableDParsed()
    ensures TableD() == Insert(Create(), ParsePrefix(10, 0, 0, 0, 8).0, Local).1
  {
    Net10Addresses();
  }

  lemma TableBContents()
    ensures Valid(TableB()) && Abs(TableB()) == TableBRoutes
  {
    var t0: Trie<string> := Create();
    InsertNew(t0, Net1921681, Local);
    var t1 := Insert(t0, Net1921681, Local).1;
    assert Net10 != Net1921681;
    InsertNew(t1, Net10, "C");
    var t2 := Insert(t1, Net10, "C").1;
    InsertNew(t2, [], "C");
  }

  lemma TableCContents()
    ensures Valid(TableC()) && Abs(TableC()) == TableCRoutes
  {
    var t0: Trie<string> := Create();
    InsertNew(t0, Net10, "D");
    var t1 := Insert(t0, Net10, "D").1;
    assert Net17216 != Net10;
    InsertNew(t1, Net17216, Local);
    var t2 := Insert(t1, Net17216, Local).1;
    InsertNew(t2, [], "D");
  }

  lemma TableDContents()
    ensures Valid(TableD()) && Abs(TableD()) == TableDRoutes
  {
    InsertNew(Create(), Net10, Local);
  }

  /** The network of `main`: routers A, B, C and D, in that order. */
  function Routers(): seq<Router>
  {
    [Router("A", TableA()), Router("B", TableB()), Router("C", TableC()), Router("D", TableD())]
  }

  /** Four routers named A, B, C and D, in that order, holding `main`'s routes. */
  predicate IsMainNetwork(rs: seq<Router>)
  {
    && |rs| == 4
    && rs[0].name == "A" && rs[1].name == "B" && rs[2].name == "C" && rs[3].name == "D"
    && Valid(rs[0].table) && Abs(rs[0].table) == TableARoutes
    && Valid(rs[1].table) && Abs(rs[1].table) == TableBRoutes
    && Valid(rs[2].table) && Abs(rs[2].table) == TableCRoutes
    && Valid(rs[3].table) && Abs(rs[3].table) == TableDRoutes
  }

  /** `Routers` is such a network. */
  lemma RoutersAreMainNetwork()
    ensures IsMainNetwork(Routers())
  {
    TableAContents();
    TableBContents();
    TableCContents();
    TableDContents();
  }

  lemma RouterIndices(rs: seq<Router>)
    requires IsMainNetwork(rs)
    ensures FindRouter(rs, "A") == Some(0)
    ensures FindRouter(rs, "B") == Some(1)
    ensures FindRouter(rs, "C") == Some(2)
    ensures FindRouter(rs, "D") == Some(3)
  {
  }

  // ---------------------------------------------------------------------------
  // What each router answers
  // ---------------------------------------------------------------------------

  /** The lookup as written does not match the stored prefix `s` when
      reading the key from its second bit on. */
  predicate ShiftedMiss(s: seq<bool>, key: seq<bool>)
  {
    !(0 < |s| < |key| && s[0] == key[0] && s == key[1..|s| + 1])
  }

  /** A table of two prefixes and a default route that the lookup as
      written misses gives the default route. */
  lemma AsWrittenDefaults(t: Trie<string>, key: seq<bool>, k1: seq<bool>, v1: string, k2: seq<bool>, v2: string, d: string)
    requires Valid(t) && |key| > 0 && Abs(t) == map[k1 := v1, k2 := v2, [] := d]
    requires ShiftedMiss(k1, key) && ShiftedMiss(k2, key)
    ensures LookupAsWritten(t, key) == Some(d)
  {
    AsWrittenFallsBack(t, key);
  }

  /** A table of one prefix, without a default route, that the lookup as
      written misses gives no route. */
  lemma AsWrittenFindsNothing(t: Trie<string>, key: seq<bool>, k1: seq<bool>, v1: string)
    requires Valid(t) && |key| > 0 && Abs(t) == map[k1 := v1] && k1 != []
    requires ShiftedMiss(k1, key)
    ensures LookupAsWritten(t, key) == None
  {
    AsWrittenFallsBack(t, key);
  }

  /** Router A with the lookup as written: every one of the three packets
      falls back to the default route B, because no stored prefix matches
      the address from its second bit on. */
  lemma AsWrittenAtA(t: Trie<string>, key: seq<bool>)
    requires Valid(t) && Abs(t) == TableARoutes
    requires In1921681(key) || In10Low(key) || In17216(key)
    ensures LookupAsWritten(t, key) == Some("B")
  {
    if In1921681(key) {
      assert key[2] != Net192168[1];
      AsWrittenDefaults(t, key, Net10, "B", Net192168, "C", "B");
    } else if In10Low(key) {
      assert key[4] != Net10[3];
      AsWrittenDefaults(t, key, Net10, "B", Net192168, "C", "B");
    } else {
      assert key[4] != Net192168[3];
      AsWrittenDefaults(t, key, Net10, "B", Net192168, "C", "B");
    }
  }

  /** Router B with the lookup as written: all three fall back to C. */
  lemma AsWrittenAtB(t: Trie<string>, key: seq<bool>)
    requires Valid(t) && Abs(t) == TableBRoutes
    requires In1921681(key) || In10Low(key) || In17216(key)
    ensures LookupAsWritten(t, key) == Some("C")
  {
    if In1921681(key) {
      assert key[2] != Net1921681[1];
      AsWrittenDefaults(t, key, Net1921681, Local, Net10, "C", "C");
    } else if In10Low(key) {
      assert key[4] != Net10[3];
      AsWrittenDefaults(t, key, Net1921681, Local, Net10, "C", "C");
    } else {
      assert key[4] != Net1921681[3];
      AsWrittenDefaults(t, key, Net1921681, Local, Net10, "C", "C");
    }
  }

  /** Router C with the lookup as written: all three fall back to D. */
  lemma AsWrittenAtC(t: Trie<string>, key: seq<bool>)
    requires Valid(t) && Abs(t) == TableCRoutes
    requires In1921681(key) || In10Low(key) || In17216(key)
    ensures LookupAsWritten(t, key) == Some("D")
  {
    if In1921681(key) {
      assert key[3] != Net17216[2];
      AsWrittenDefaults(t, key, Net10, "D", Net17216, Local, "D");
    } else if In10Low(key) {
      assert key[4] != Net10[3];
      AsWrittenDefaults(t, key, Net10, "D", Net17216, Local, "D");
    } else {
      assert key[2] != Net17216[1];
      AsWrittenDefaults(t, key, Net10, "D", Net17216, Local, "D");
    }
  }

  /** Router D with the lookup as written: no route for any of the three. */
  lemma AsWrittenAtD(t: Trie<string>, key: seq<bool>)
    requires Valid(t) && Abs(t) == TableDRoutes
    requires In1921681(key) || In10Low(key) || In17216(key)
    ensures LookupAsWritten(t, key) == None
  {
    if In10Low(key) {
      assert key[4] != Net10[3];
      AsWrittenFindsNothing(t, key, Net10, Local);
    } else {
      assert key[0] != Net10[0];
      AsWrittenFindsNothing(t, key, Net10, Local);
    }
  }

  /** Router B sends 10.0.0.0/8 to C (and 172.16.0.0/12 to C by default). */
  lemma TableBSends(t: Trie<string>, key: seq<bool>)
    requires Valid(t) && Abs(t) == TableBRoutes
    requires In10(key) || In17216(key)
    ensures Lookup(t, key) == Some("C")
  {
    if In10(key) {
      assert key[..8] == Net10;
      assert key[0] != Net1921681[0];
      LongestStoredPrefixWins(t, key, 8);
    } else {
      assert key[..0] == [];
      assert key[0] != Net10[0] && key[1] != Net1921681[1];
      LongestStoredPrefixWins(t, key, 0);
    }
  }

  /** Router C sends 10.0.0.0/8 to D, 192.168.1.0/24 to D by default, and
      delivers 172.16.0.0/12 itself. */
  lemma TableCSends(t: Trie<string>, key: seq<bool>)
    requires Valid(t) && Abs(t) == TableCRoutes
    requires In1921681(key) || In10(key) || In17216(key)
    ensures In1921681(key) ==> Lookup(t, key) == Some("D")
    ensures In10(key) ==> Lookup(t, key) == Some("D")
    ensures In17216(key) ==> Lookup(t, key) == Some(Local)
  {
    if In1921681(key) {
      assert key[..0] == [];
      assert key[0] == Net1921681[0] && key[1] == Net1921681[1];
      assert Net1921681[0] && Net1921681[1];
      assert key[0] != Net10[0] && key[1] != Net17216[1];
      LongestStoredPrefixWins(t, key, 0);
    } else if In10(key) {
      assert key[..8] == Net10;
      assert key[0] != Net17216[0];
      LongestStoredPrefixWins(t, key, 8);
    } else {
      assert key[0] != Net10[0];
      LongestStoredPrefixWins(t, key, 12);
    }
  }

  /** Router D delivers 10.0.0.0/8 and has no route for 192.168.1.0/24. */
  lemma TableDSends(t: Trie<string>, key: seq<bool>)
    requires Valid(t) && Abs(t) == TableDRoutes
    requires In1921681(key) || In10(key)
    ensures In10(key) ==> Lookup(t, key) == Some(Local)
    ensures In1921681(key) ==> Lookup(t, key) == None
  {
    if In10(key) {
      assert key[..8] == Net10;
      LongestStoredPrefixWins(t, key, 8);
    } else {
      assert key[0] != Net10[0];
      NoStoredPrefixNoRoute(t, key);
    }
  }

  // ---------------------------------------------------------------------------
  // The three simulated packets
  // ---------------------------------------------------------------------------

  /** A packet that router A sends to B, B to C and C to D, in a network
      where those names are routers 1, 2 and 3, ends at D's own answer. */
  lemma PathABCD(rs: seq<Router>, key: seq<bool>, lookup: LookupFn)
    requires |rs| == 4
    requires FindRouter(rs, "B") == Some(1) && FindRouter(rs, "C") == Some(2) && FindRouter(rs, "D") == Some(3)
    requires lookup(rs[0].table, key) == Some("B")
    requires lookup(rs[1].table, key) == Some("C")
    requires lookup(rs[2].table, key) == Some("D")
    requires lookup(rs[3].table, key).None? || lookup(rs[3].table, key) == Some(Local)
    ensures lookup(rs[3].table, key).None? ==> Forward(rs, 0, key, MaxHops, lookup) == (NoRoute(3), [0, 1, 2, 3])
    ensures lookup(rs[3].table, key) == Some(Local) ==>
              Forward(rs, 0, key, MaxHops, lookup) == (Delivered(3), [0, 1, 2, 3])
  {
    var path := [0, 1, 2, 3];
    assert Passes(rs, path[2..], key, lookup);
    assert Passes(rs, path[1..], key, lookup);
    assert Passes(rs, path, key, lookup);
    var r := (if lookup(rs[3].table, key).None? then NoRoute(3) else Delivered(3), path);
    JourneyIsForward(rs, 0, key, MaxHops, lookup, r);
  }

  /** A packet that router A sends to C and C to D ends at D's own answer. */
  lemma PathACD(rs: seq<Router>, key: seq<bool>, lookup: LookupFn)
    requires |rs| == 4
    requires FindRouter(rs, "C") == Some(2) && FindRouter(rs, "D") == Some(3)
    requires lookup(rs[0].table, key) == Some("C")
    requires lookup(rs[2].table, key) == Some("D")
    requires lookup(rs[3].table, key).None?
    ensures Forward(rs, 0, key, MaxHops, lookup) == (NoRoute(3), [0, 2, 3])
  {
    var path := [0, 2, 3];
    assert Passes(rs, path[1..], key, lookup);
    assert Passes(rs, path, key, lookup);
    JourneyIsForward(rs, 0, key, MaxHops, lookup, (NoRoute(3), path));
  }

  /** A packet that router A sends to B and B to C, which delivers it. */
  lemma PathABC(rs: seq<Router>, key: seq<bool>, lookup: LookupFn)
    requires |rs| == 4
    requires FindRouter(rs, "B") == Some(1) && FindRouter(rs, "C") == Some(2)
    requires lookup(rs[0].table, key) == Some("B")
    requires lookup(rs[1].table, key) == Some("C")
    requires lookup(rs[2].table, key) == Some(Local)
    ensures Forward(rs, 0, key, MaxHops, lookup) == (Delivered(2), [0, 1, 2])
  {
    var path := [0, 1, 2];
    assert Passes(rs, path[1..], key, lookup);
    assert Passes(rs, path, key, lookup);
    JourneyIsForward(rs, 0, key, MaxHops, lookup, (Delivered(2), path));
  }

  /** With the lookup as written, a packet for any of the three addresses
      passes A, B, C and D, where it finds no route. */
  lemma AsWrittenJourney(rs: seq<Router>, key: seq<bool>)
    requires IsMainNetwork(rs)
    requires In1921681(key) || In10Low(key) || In17216(key)
    ensures Forward(rs, 0, key, MaxHops, LookupAsWritten) == (NoRoute(3), [0, 1, 2, 3])
  {
    RouterIndices(rs);
    AsWrittenAtA(rs[0].table, key);
    AsWrittenAtB(rs[1].table, key);
    AsWrittenAtC(rs[2].table, key);
    AsWrittenAtD(rs[3].table, key);
    PathABCD(rs, key, LookupAsWritten);
  }

  /** With the corrected lookup, a packet for 192.168.1.0/24 goes from A to
      C (192.168.0.0/16), from C to D (default route), and D has no route. */
  lemma Journey1921681(rs: seq<Router>, key: seq<bool>)
    requires IsMainNetwork(rs)
    requires In1921681(key)
    ensures Forward(rs, 0, key, MaxHops, Lookup) == (NoRoute(3), [0, 2, 3])
  {
    RouterIndices(rs);
    TableASends1921681(rs[0].table, key);
    TableCSends(rs[2].table, key);
    TableDSends(rs[3].table, key);
    PathACD(rs, key, Lookup);
  }

  /** With the corrected lookup, a packet for 10.0.0.0/8 goes A, B, C, D and
      is delivered at D. */
  lemma Journey10(rs: seq<Router>, key: seq<bool>)
    requires IsMainNetwork(rs)
    requires In10(key)
    ensures Forward(rs, 0, key, MaxHops, Lookup) == (Delivered(3), [0, 1, 2, 3])
  {
    RouterIndices(rs);
    TableASends10(rs[0].table, key);
    TableBSends(rs[1].table, key);
    TableCSends(rs[2].table, key);
    TableDSends(rs[3].table, key);
    PathABCD(rs, key, Lookup);
  }

  /** With the corrected lookup, a packet for 172.16.0.0/12 goes A, B, C,
      by default routes, and is delivered at C. */
  lemma Journey17216(rs: seq<Router>, key: seq<bool>)
    requires IsMainNetwork(rs)
    requires In17216(key)
    ensures Forward(rs, 0, key, MaxHops, Lookup) == (Delivered(2), [0, 1, 2])
  {
    RouterIndices(rs);
    assert key[0] != Net10[0] && key[1] != Net192168[1];
    TableASendsDefault(rs[0].table, key);
    TableBSends(rs[1].table, key);
    TableCSends(rs[2].table, key);
    PathABC(rs, key, Lookup);
  }

  /** `main`'s first packet, 192.168.1.5 from A: with the corrected lookup
      it goes A, C, D and is dropped at D; as written it goes A, B, C, D and
      is dropped at D. The comment beside it promises A, B, LOCAL. */
  lemma SimulatedPrivate()
    ensures RoutePacket(Routers(), "A", 192, 168, 1, 5, Lookup) == (NoRoute(3), [0, 2, 3])
    ensures RoutePacket(Routers(), "A", 192, 168, 1, 5, LookupAsWritten) == (NoRoute(3), [0, 1, 2, 3])
  {
    RoutersAreMainNetwork();
    RouterIndices(Routers());
    Address1921685();
    Journey1921681(Routers(), Ipv4ToBits(192, 168, 1, 5));
    AsWrittenJourney(Routers(), Ipv4ToBits(192, 168, 1, 5));
  }

  /** `main`'s second packet, 10.1.2.3 from A: with the corrected lookup it
      goes A, B, C, D and is delivered at D, as the comment beside it says;
      as written it is dropped at D. */
  lemma SimulatedNet10()
    ensures RoutePacket(Routers(), "A", 10, 1, 2, 3, Lookup) == (Delivered(3), [0, 1, 2, 3])
    ensures RoutePacket(Routers(), "A", 10, 1, 2, 3, LookupAsWritten) == (NoRoute(3), [0, 1, 2, 3])
  {
    RoutersAreMainNetwork();
    RouterIndices(Routers());
    Address10123();
    Journey10(Routers(), Ipv4ToBits(10, 1, 2, 3));
    AsWrittenJourney(Routers(), Ipv4ToBits(10, 1, 2, 3));
  }

  /** `main`'s third packet, 172.16.5.4 from A: with the corrected lookup it
      goes A, B, C and is delivered at C, as the comment beside it says; as
      written it goes on to D and is dropped there. */
  lemma SimulatedNet17216()
    ensures RoutePacket(Routers(), "A", 172, 16, 5, 4, Lookup) == (Delivered(2), [0, 1, 2])
    ensures RoutePacket(Routers(), "A", 172, 16, 5, 4, LookupAsWritten) == (NoRoute(3), [0, 1, 2, 3])
  {
    RoutersAreMainNetwork();
    RouterIndices(Routers());
    Address172165();
    Journey17216(Routers(), Ipv4ToBits(172, 16, 5, 4));
    AsWrittenJourney(Routers(), Ipv4ToBits(172, 16, 5, 4));
  }
}
