/** The routing simulator around the trie: IPv4 addresses as 32-bit strings,
    CIDR prefixes, the router registry, and the hop-by-hop forwarding loop. */
module RouterSim {
  import opened Wrappers
  import opened Patricia

  /** An address octet as read by `%u` and fitting in a byte. */
  type Octet = x: nat | x < 256

  function Pow2(n: nat): (r: nat)
    ensures r >= 1
  {
    if n == 0 then 1 else 2 * Pow2(n - 1)
  }

  /** The 32-bit value `(a << 24) | (b << 16) | (c << 8) | d`; with every
      octet below 256 the four fields do not overlap, so the OR is a sum. */
  function Ipv4Value(a: Octet, b: Octet, c: Octet, d: Octet): nat
  {
    a * 16777216 + b * 65536 + c * 256 + d
  }

  /** `v` shifted right by `k` bits, `v >> k`: `k` halvings. */
  function Shr(v: nat, k: nat): nat
  {
    if k == 0 then v else Shr(v / 2, k - 1)
  }

  /** Bit `k` of `v`, counted from the least significant end: the test
      `v & (1 << k)` of the conversion loop. */
  function Bit(v: nat, k: nat): bool
  {
    Shr(v, k) % 2 == 1
  }

  /** The `n`-bit value `v` as bits, most significant first. */
  function BitsOf(v: nat, n: nat): (bits: seq<bool>)
    ensures |bits| == n
  {
    seq(n, i requires 0 <= i < n => Bit(v, n - 1 - i))
  }

  /** An IPv4 address as its 32 bits, most significant first. */
  function Ipv4ToBits(a: Octet, b: Octet, c: Octet, d: Octet): (bits: seq<bool>)
    ensures |bits| == 32
  {
    BitsOf(Ipv4Value(a, b, c, d), 32)
  }

  /** Reads a bit string back as a big-endian number. */
  function FromBits(s: seq<bool>): nat
  {
    if |s| == 0 then 0 else 2 * FromBits(s[..|s| - 1]) + (if s[|s| - 1] then 1 else 0)
  }

  /** Dropping the last bit of an `n`-bit string is halving its value. */
  lemma BitsOfInit(v: nat, n: nat)
    requires n > 0
    ensures BitsOf(v, n)[..n - 1] == BitsOf(v / 2, n - 1)
  {
    forall i | 0 <= i < n - 1
      ensures BitsOf(v, n)[i] == BitsOf(v / 2, n - 1)[i]
    {
      assert Bit(v, n - 1 - i) == Bit(v / 2, n - 2 - i);
    }
  }

  /** Reading back the bits of a value that fits in `n` bits gives the value. */
  lemma {:induction false} FromBitsOf(v: nat, n: nat)
    requires v < Pow2(n)
    ensures FromBits(BitsOf(v, n)) == v
  {
    if n > 0 {
      BitsOfInit(v, n);
      FromBitsOf(v / 2, n - 1);
      assert BitsOf(v, n)[n - 1] == Bit(v, 0);
    }
  }

  /** The first `k` bits of an `n`-bit value are the bits of its top part. */
  lemma {:induction false} BitsOfPrefix(v: nat, n: nat, k: nat)
    requires k <= n
    ensures BitsOf(v, n)[..k] == BitsOf(Shr(v, n - k), k)
  {
    if k < n {
      BitsOfInit(v, n);
      BitsOfPrefix(v / 2, n - 1, k);
      calc {
        BitsOf(v, n)[..k];
        BitsOf(v, n)[..n - 1][..k];
        BitsOf(v / 2, n - 1)[..k];
        BitsOf(Shr(v / 2, n - 1 - k), k);
      }
    }
  }

  /** The address value fits in 32 bits, and its bits read back to it. */
  lemma Ipv4RoundTrip(a: Octet, b: Octet, c: Octet, d: Octet)
    ensures Ipv4Value(a, b, c, d) < Pow2(32)
    ensures FromBits(Ipv4ToBits(a, b, c, d)) == Ipv4Value(a, b, c, d)
  {
    assert Pow2(32) == 4294967296 by {
      assert Pow2(8) == 256;
      assert Pow2(16) == 65536;
      assert Pow2(24) == 16777216;
    }
    FromBitsOf(Ipv4Value(a, b, c, d), 32);
  }

  /** The `n` low bits of `v` by repeated halving, most significant first. */
  function ToBits(v: nat, n: nat): seq<bool>
  {
    if n == 0 then [] else ToBits(v / 2, n - 1) + [v % 2 == 1]
  }

  /** The bit tests of the conversion loop agree with repeated halving. */
  lemma {:induction false} BitsOfByHalving(v: nat, n: nat)
    ensures BitsOf(v, n) == ToBits(v, n)
  {
    if n > 0 {
      BitsOfInit(v, n);
      BitsOfByHalving(v / 2, n - 1);
      assert BitsOf(v, n) == BitsOf(v, n)[..n - 1] + [Bit(v, 0)];
    }
  }

  /** A value with `hi` above `m` low bits `lo` is written as the bits of
      `hi` followed by the bits of `lo`. */
  lemma {:induction false} BitsOfConcat(hi: nat, n: nat, lo: nat, m: nat)
    requires lo < Pow2(m)
    ensures BitsOf(hi * Pow2(m) + lo, n + m) == BitsOf(hi, n) + BitsOf(lo, m)
  {
    var v := hi * Pow2(m) + lo;
    if m == 0 {
      assert v == hi;
    } else {
      var h := hi * Pow2(m - 1) + lo / 2;
      assert hi * Pow2(m) == 2 * (hi * Pow2(m - 1));
      assert v == 2 * h + lo % 2;
      assert v / 2 == h;
      assert v % 2 == lo % 2;
      BitsOfInit(v, n + m);
      BitsOfInit(lo, m);
      BitsOfConcat(hi, n, lo / 2, m - 1);
      calc {
        BitsOf(v, n + m);
        BitsOf(v, n + m)[..n + m - 1] + [Bit(v, 0)];
        BitsOf(h, n + m - 1) + [Bit(lo, 0)];
        BitsOf(hi, n) + BitsOf(lo / 2, m - 1) + [Bit(lo, 0)];
        BitsOf(hi, n) + (BitsOf(lo, m)[..m - 1] + [Bit(lo, 0)]);
        BitsOf(hi, n) + BitsOf(lo, m);
      }
    }
  }

  /** The 32 bits of an address are the 8 bits of each octet in order. */
  lemma Ipv4Octets(a: Octet, b: Octet, c: Octet, d: Octet)
    ensures Ipv4ToBits(a, b, c, d) == BitsOf(a, 8) + BitsOf(b, 8) + BitsOf(c, 8) + BitsOf(d, 8)
  {
    assert Pow2(8) == 256;
    assert Pow2(16) == 65536;
    BitsOfConcat(a, 8, b, 8);
    var ab := a * 256 + b;
    BitsOfConcat(ab, 16, c, 8);
    var abc := ab * 256 + c;
    BitsOfConcat(abc, 24, d, 8);
    assert Ipv4Value(a, b, c, d) == abc * 256 + d;
  }

  /** A CIDR prefix `a.b.c.d/plen` as its first `plen` bits and its length.
      The source copies `plen` bytes, so `plen` must be within 0..32. */
  function ParsePrefix(a: Octet, b: Octet, c: Octet, d: Octet, plen: nat): (r: (seq<bool>, nat))
    requires plen <= 32
    ensures r.1 == plen && |r.0| == plen
    ensures r.0 <= Ipv4ToBits(a, b, c, d)
    ensures FromBits(r.0) == Shr(Ipv4Value(a, b, c, d), 32 - plen)
  {
    Ipv4RoundTrip(a, b, c, d);
    TopBitsReadBack(Ipv4Value(a, b, c, d), 32, plen);
    (Ipv4ToBits(a, b, c, d)[..plen], plen)
  }

  /** The first `k` bits of an `n`-bit value read back to its top part. */
  lemma TopBitsReadBack(v: nat, n: nat, k: nat)
    requires k <= n && v < Pow2(n)
    ensures FromBits(BitsOf(v, n)[..k]) == Shr(v, n - k)
  {
    var w := Shr(v, n - k);
    BitsOfPrefix(v, n, k);
    assert BitsOf(v, n)[..k] == BitsOf(w, k);
    TopBitsFit(v, n, k);
    assert w < Pow2(k);
    FromBitsOf(w, k);
  }

  /** The top `k` bits of a value below `2^n` form a value below `2^k`. */
  lemma {:induction false} TopBitsFit(v: nat, n: nat, k: nat)
    requires k <= n && v < Pow2(n)
    ensures Shr(v, n - k) < Pow2(k)
  {
    if k < n {
      TopBitsFit(v / 2, n - 1, k);
    }
  }

  // ---------------------------------------------------------------------------
  // Routers and forwarding
  // ---------------------------------------------------------------------------

  /** A router: its name and its own routing table. */
  datatype Router = Router(name: string, table: Trie<string>)

  /** The next hop that means "deliver here". */
  const Local: string := "LOCAL"

  /** The forwarding loop gives up after this many lookups. */
  const MaxHops: nat := 50

  /** The first router from index `i` on named `name` (the loop of the
      registry search, as an index instead of a pointer). */
  function FindRouterFrom(routers: seq<Router>, name: string, i: nat): (r: Option<nat>)
    requires i <= |routers|
    ensures r.Some? ==> i <= r.value < |routers| && routers[r.value].name == name
    ensures r.Some? ==> forall j :: i <= j < r.value ==> routers[j].name != name
    ensures r.None? <==> forall j :: i <= j < |routers| ==> routers[j].name != name
    decreases |routers| - i
  {
    if i == |routers| then None
    else if routers[i].name == name then Some(i)
    else FindRouterFrom(routers, name, i + 1)
  }

  /** The first router named `name`, or `None` when no router has that name. */
  function FindRouter(routers: seq<Router>, name: string): (r: Option<nat>)
    ensures r.Some? ==> r.value < |routers| && routers[r.value].name == name
    ensures r.Some? ==> forall j :: 0 <= j < r.value ==> routers[j].name != name
    ensures r.None? <==> forall j :: 0 <= j < |routers| ==> routers[j].name != name
  {
    FindRouterFrom(routers, name, 0)
  }

  /** How a packet's journey ends; `at` is the router that made the last lookup. */
  datatype Outcome =
    | SourceNotFound                       // no router has the source name
    | NoRoute(at: nat)                     // the lookup found no next hop
    | Delivered(at: nat)                   // the next hop is LOCAL
    | UnknownNextHop(at: nat, hop: string) // the next hop names no router
    | LoopDetected(at: nat)                // the next hop is the router itself
    | HopLimitExceeded                     // MaxHops lookups without an end

  /** A lookup function for one routing table and a 32-bit destination. */
  type LookupFn = (Trie<string>, seq<bool>) -> Option<string>

  /** The router the packet moves to from router `i`, if it moves at all. */
  function NextRouter(routers: seq<Router>, i: nat, dst: seq<bool>, lookup: LookupFn): (r: Option<nat>)
    requires i < |routers|
    ensures r.Some? <==> (var nh := lookup(routers[i].table, dst);
                          nh.Some? && nh.value != Local && FindRouter(routers, nh.value).Some?)
    ensures r.Some? ==> r.value < |routers| && routers[r.value].name != Local
                        && lookup(routers[i].table, dst) == Some(routers[r.value].name)
    ensures r.Some? ==> forall j :: 0 <= j < r.value ==> routers[j].name != routers[r.value].name
  {
    match lookup(routers[i].table, dst)
    case None => None
    case Some(nh) => if nh == Local then None else FindRouter(routers, nh)
  }

  /** The packet leaves router `i` for a different router. */
  predicate Moves(routers: seq<Router>, i: nat, dst: seq<bool>, lookup: LookupFn)
    requires i < |routers|
  {
    var next := NextRouter(routers, i, dst, lookup);
    next.Some? && next.value != i
  }

  /** Each router of `path` but the last moved the packet on to the router
      after it. */
  predicate Passes(routers: seq<Router>, path: seq<nat>, dst: seq<bool>, lookup: LookupFn)
    decreases |path|
  {
    |path| > 1 ==>
      && path[0] < |routers|
      && NextRouter(routers, path[0], dst, lookup) == Some(path[1]) && path[1] != path[0]
      && Passes(routers, path[1..], dst, lookup)
  }

  /** `r` tells a journey of at most `hops` lookups from router `cur`: the
      routers consulted, each one moving the packet on to the next, and an
      outcome that the last of them explains. The hop limit is only reached
      when every one of the `hops` lookups moved the packet on. */
  predicate Journey(routers: seq<Router>, cur: nat, dst: seq<bool>, hops: nat, lookup: LookupFn,
                    r: (Outcome, seq<nat>))
  {
    && !r.0.SourceNotFound?
    && |r.1| <= hops
    && (|r.1| > 0 ==> r.1[0] == cur)
    && (forall i :: 0 <= i < |r.1| ==> r.1[i] < |routers|)
    && Passes(routers, r.1, dst, lookup)
    && (r.0.HopLimitExceeded? ==> |r.1| == hops && (hops > 0 ==> Moves(routers, r.1[hops - 1], dst, lookup)))
    && (!r.0.HopLimitExceeded? ==> |r.1| > 0 && r.0.at == r.1[|r.1| - 1])
    && (r.0.NoRoute? ==> lookup(routers[r.0.at].table, dst).None?)
    && (r.0.Delivered? ==> lookup(routers[r.0.at].table, dst) == Some(Local))
    && (r.0.UnknownNextHop? ==>
          && lookup(routers[r.0.at].table, dst) == Some(r.0.hop)
          && r.0.hop != Local && FindRouter(routers, r.0.hop).None?)
    && (r.0.LoopDetected? ==> NextRouter(routers, r.0.at, dst, lookup) == Some(r.0.at))
  }

  /** The forwarding loop from router `cur` with `hops` lookups left: the
      outcome and the routers whose tables were consulted, in order. */
  function Forward(routers: seq<Router>, cur: nat, dst: seq<bool>, hops: nat, lookup: LookupFn): (r: (Outcome, seq<nat>))
    requires cur < |routers|
    ensures Journey(routers, cur, dst, hops, lookup, r)
    decreases hops
  {
    if hops == 0 then (HopLimitExceeded, [])
    else
      match lookup(routers[cur].table, dst)
      case None => (NoRoute(cur), [cur])
      case Some(nh) =>
        if nh == Local then (Delivered(cur), [cur])
        else
          match FindRouter(routers, nh)
          case None => (UnknownNextHop(cur, nh), [cur])
          case Some(next) =>
            if next == cur then (LoopDetected(cur), [cur])
            else
              var rest := Forward(routers, next, dst, hops - 1, lookup);
              (rest.0, [cur] + rest.1)
  }

  /** A journey whose first router moved the packet on continues as a
      journey from the next router. */
  lemma JourneyTail(routers: seq<Router>, cur: nat, dst: seq<bool>, hops: nat, lookup: LookupFn,
                    r: (Outcome, seq<nat>))
    requires cur < |routers| && hops > 0 && |r.1| > 1
    requires Journey(routers, cur, dst, hops, lookup, r)
    ensures NextRouter(routers, cur, dst, lookup) == Some(r.1[1])
    ensures r.1[1] < |routers| && r == (r.0, [cur] + r.1[1..])
    ensures Journey(routers, r.1[1], dst, hops - 1, lookup, (r.0, r.1[1..]))
  {
    assert r.1 == [cur] + r.1[1..];
    assert r == (r.0, r.1);
  }

  /** Journeys from the same router either both end at it or both move on:
      an outcome at a router rules out that its lookup moved the packet on. */
  lemma JourneysAgreeOnLength(routers: seq<Router>, cur: nat, dst: seq<bool>, hops: nat, lookup: LookupFn,
                              r1: (Outcome, seq<nat>), r2: (Outcome, seq<nat>))
    requires cur < |routers| && hops > 0
    requires Journey(routers, cur, dst, hops, lookup, r1)
    requires Journey(routers, cur, dst, hops, lookup, r2)
    ensures |r1.1| <= 1 <==> |r2.1| <= 1
  {
  }

  /** Two journeys that end at their first router are the same: the one
      lookup there fixes the outcome. */
  lemma JourneysOfOne(routers: seq<Router>, cur: nat, dst: seq<bool>, hops: nat, lookup: LookupFn,
                      r1: (Outcome, seq<nat>), r2: (Outcome, seq<nat>))
    requires cur < |routers| && hops > 0 && |r1.1| <= 1 && |r2.1| <= 1
    requires Journey(routers, cur, dst, hops, lookup, r1)
    requires Journey(routers, cur, dst, hops, lookup, r2)
    ensures r1 == r2
  {
    assert r1.1 == r2.1 == [cur];
    assert r1 == (r1.0, r1.1) && r2 == (r2.0, r2.1);
  }

  /** A journey is determined by where it starts and how many lookups it may
      make: no two different results satisfy `Journey`. */
  lemma {:induction false} JourneyUnique(routers: seq<Router>, cur: nat, dst: seq<bool>, hops: nat, lookup: LookupFn,
                                         r1: (Outcome, seq<nat>), r2: (Outcome, seq<nat>))
    requires cur < |routers|
    requires Journey(routers, cur, dst, hops, lookup, r1)
    requires Journey(routers, cur, dst, hops, lookup, r2)
    ensures r1 == r2
    decreases hops
  {
    if hops == 0 {
      assert r1 == (r1.0, r1.1) && r2 == (r2.0, r2.1);
    } else {
      JourneysAgreeOnLength(routers, cur, dst, hops, lookup, r1, r2);
      if |r1.1| <= 1 {
        JourneysOfOne(routers, cur, dst, hops, lookup, r1, r2);
      } else {
        JourneyTail(routers, cur, dst, hops, lookup, r1);
        JourneyTail(routers, cur, dst, hops, lookup, r2);
        JourneyUnique(routers, r1.1[1], dst, hops - 1, lookup, (r1.0, r1.1[1..]), (r2.0, r2.1[1..]));
      }
    }
  }

  /** The forwarding loop's result is the only journey there is. */
  lemma JourneyIsForward(routers: seq<Router>, cur: nat, dst: seq<bool>, hops: nat, lookup: LookupFn,
                         r: (Outcome, seq<nat>))
    requires cur < |routers|
    requires Journey(routers, cur, dst, hops, lookup, r)
    ensures r == Forward(routers, cur, dst, hops, lookup)
  {
    JourneyUnique(routers, cur, dst, hops, lookup, r, Forward(routers, cur, dst, hops, lookup));
  }

  /** Routes a packet for address `a.b.c.d` from the router named `src`:
      nothing happens without such a router; otherwise at most `MaxHops`
      lookups for the address's 32 bits, starting at the first router with
      that name. */
  function RoutePacket(routers: seq<Router>, src: string, a: Octet, b: Octet, c: Octet, d: Octet,
                       lookup: LookupFn): (r: (Outcome, seq<nat>))
    ensures r.0.SourceNotFound? <==> FindRouter(routers, src).None?
    ensures r.0.SourceNotFound? ==> r.1 == []
    ensures !r.0.SourceNotFound? ==>
              && 0 < |r.1| <= MaxHops && r.1[0] < |routers| && routers[r.1[0]].name == src
              && (forall j :: 0 <= j < r.1[0] ==> routers[j].name != src)
              && Journey(routers, r.1[0], Ipv4ToBits(a, b, c, d), MaxHops, lookup, r)
  {
    match FindRouter(routers, src)
    case None => (SourceNotFound, [])
    case Some(i) => Forward(routers, i, Ipv4ToBits(a, b, c, d), MaxHops, lookup)
  }

  /** Only a direct self-loop is caught: two routers that forward to each
      other bounce the packet until the hop limit runs out. */
  lemma {:induction false} TwoCycleExhaustsHops(routers: seq<Router>, i: nat, j: nat, dst: seq<bool>, hops: nat, lookup: LookupFn)
    requires i < |routers| && j < |routers| && i != j
    requires NextRouter(routers, i, dst, lookup) == Some(j)
    requires NextRouter(routers, j, dst, lookup) == Some(i)
    ensures Forward(routers, i, dst, hops, lookup).0 == HopLimitExceeded
    decreases hops
  {
    if hops > 0 {
      TwoCycleExhaustsHops(routers, j, i, dst, hops - 1, lookup);
    }
  }

  /** A router that forwards to itself is reported at the first lookup. */
  lemma SelfLoopDetected(routers: seq<Router>, i: nat, dst: seq<bool>, hops: nat, lookup: LookupFn)
    requires i < |routers| && hops > 0
    requires NextRouter(routers, i, dst, lookup) == Some(i)
    ensures Forward(routers, i, dst, hops, lookup) == (LoopDetected(i), [i])
  {
  }
}
