/**
 * The fixed universe of traded pairs and the asset list derived from it
 * (GetTopTier50CryptocurrencyList, GetUniqueAssetsFromSymbols).
 */
module Symbols {
  import opened Strings

  /** The quote part every pair of the universe ends in. */
  const QuoteSuffix: string := "-BRL"
  const QuoteCurrency: string := "BRL"

  predicate NoDup<T(==)>(s: seq<T>)
  {
    forall i, j :: 0 <= i < j < |s| ==> s[i] != s[j]
  }

  /** The pair of a base asset: the asset followed by the quote suffix. */
  function Pair(base: string): string
  {
    base + QuoteSuffix
  }

  /** The pairs of a list of base assets, in the same order. */
  function Pairs(bases: seq<string>): (r: seq<string>)
    ensures |r| == |bases|
    ensures forall i :: 0 <= i < |r| ==> r[i] == Pair(bases[i])
  {
    seq(|bases|, i requires 0 <= i < |bases| => Pair(bases[i]))
  }

  // The five tiers of the list, in their order, each written as its base
  // assets; every literal of the list is such a base followed by "-BRL".

  /** Blue chips. */
  function Tier1Bases(): seq<string>
  {
    ["BTC", "ETH", "SOL", "ADA", "AVAX", "MATIC", "DOT", "BNB", "ATOM", "NEAR"]
  }

  /** Established altcoins. */
  function Tier2Bases(): seq<string>
  {
    ["USDT", "USDC", "XRP", "DOGE", "LTC", "BCH", "LINK", "UNI", "TRX", "FIL"]
  }

  /** DeFi and smart-contract platforms. */
  function Tier3Bases(): seq<string>
  {
    ["AAVE", "MKR", "SNX", "SAND", "MANA", "COMP", "CRV", "SUSHI", "ENJ", "1INCH"]
  }

  /** DeFi and utility. */
  function Tier4Bases(): seq<string>
  {
    ["GRT", "YFI", "BAL", "REN", "ZRX", "OMG", "LRC", "STORJ", "BAND", "KNC"]
  }

  /** Promising altcoins. */
  function Tier5Bases(): seq<string>
  {
    ["FTM", "ALGO", "EGLD", "HBAR", "XTZ", "ONE", "AR", "KSM", "WAVES", "ZIL"]
  }

  function TopTierBases(): seq<string>
  {
    Tier1Bases() + Tier2Bases() + Tier3Bases() + Tier4Bases() + Tier5Bases()
  }

  /** The symbols every collection is restricted to. */
  function GetTopTier50CryptocurrencyList(): (r: seq<string>)
    ensures |r| == 50
  {
    Pairs(TopTierBases())
  }

  /** A pair of the universe: a non-empty base asset without '-', then the quote suffix. */
  predicate IsBrlPair(s: string)
  {
    |s| > |QuoteSuffix| && EndsWith(s, QuoteSuffix) && '-' !in BaseAsset(s)
  }

  /** The part of a pair before its quote suffix. */
  function BaseAsset(s: string): string
    requires |s| >= |QuoteSuffix|
  {
    s[..|s| - |QuoteSuffix|]
  }

  /** A base asset: non-empty and free of '-'. */
  predicate IsAsset(b: string)
  {
    b != "" && '-' !in b
  }

  predicate Disjoint(a: seq<string>, b: seq<string>)
  {
    forall x, y :: x in a && y in b ==> x != y
  }

  /** Pair and BaseAsset are inverse on assets, and pair distinct assets to distinct symbols. */
  lemma PairOfAsset(b: string, c: string)
    requires IsAsset(b)
    ensures IsBrlPair(Pair(b)) && BaseAsset(Pair(b)) == b
    ensures Pair(b) == Pair(c) ==> b == c
  {
    var s := Pair(b);
    assert s[..|b|] == b;
    assert s[|s| - |QuoteSuffix|..] == QuoteSuffix;
    if Pair(b) == Pair(c) {
      assert |c| == |b|;
      assert Pair(c)[..|c|] == c;
    }
  }

  // Each tier has distinct base assets; the tiers share none. Stated tier by
  // tier to keep each proof small.

  lemma Tier1Assets() ensures NoDup(Tier1Bases()) && forall b :: b in Tier1Bases() ==> IsAsset(b)
  {
    var t := Tier1Bases();
    forall i, j | 0 <= i < j < |t| ensures t[i] != t[j] {
      if i == 0 {} else if i == 1 {} else if i == 2 {} else if i == 3 {} else if i == 4 {}
      else if i == 5 {} else if i == 6 {} else if i == 7 {} else if i == 8 {}
    }
  }

  lemma Tier2Assets() ensures NoDup(Tier2Bases()) && forall b :: b in Tier2Bases() ==> IsAsset(b)
  {
    var t := Tier2Bases();
    forall i, j | 0 <= i < j < |t| ensures t[i] != t[j] {
      if i == 0 {} else if i == 1 {} else if i == 2 {} else if i == 3 {} else if i == 4 {}
      else if i == 5 {} else if i == 6 {} else if i == 7 {} else if i == 8 {}
    }
  }

  lemma Tier3Assets() ensures NoDup(Tier3Bases()) && forall b :: b in Tier3Bases() ==> IsAsset(b)
  {
    var t := Tier3Bases();
    forall i, j | 0 <= i < j < |t| ensures t[i] != t[j] {
      if i == 0 {} else if i == 1 {} else if i == 2 {} else if i == 3 {} else if i == 4 {}
      else if i == 5 {} else if i == 6 {} else if i == 7 {} else if i == 8 {}
    }
  }

  lemma Tier4Assets() ensures NoDup(Tier4Bases()) && forall b :: b in Tier4Bases() ==> IsAsset(b)
  {
    var t := Tier4Bases();
    forall i, j | 0 <= i < j < |t| ensures t[i] != t[j] {
      if i == 0 {} else if i == 1 {} else if i == 2 {} else if i == 3 {} else if i == 4 {}
      else if i == 5 {} else if i == 6 {} else if i == 7 {} else if i == 8 {}
    }
  }

  lemma Tier5Assets() ensures NoDup(Tier5Bases()) && forall b :: b in Tier5Bases() ==> IsAsset(b)
  {
    var t := Tier5Bases();
    forall i, j | 0 <= i < j < |t| ensures t[i] != t[j] {
      if i == 0 {} else if i == 1 {} else if i == 2 {} else if i == 3 {} else if i == 4 {}
      else if i == 5 {} else if i == 6 {} else if i == 7 {} else if i == 8 {}
    }
  }

  lemma Tiers12Disjoint() ensures Disjoint(Tier1Bases(), Tier2Bases())
  {
    var t := Tier1Bases();
    forall i | 0 <= i < |t| ensures t[i] !in Tier2Bases() {
      if i == 0 {} else if i == 1 {} else if i == 2 {} else if i == 3 {} else if i == 4 {}
      else if i == 5 {} else if i == 6 {} else if i == 7 {} else if i == 8 {}
    }
  }

  lemma Tiers13Disjoint() ensures Disjoint(Tier1Bases(), Tier3Bases())
  {
    var t := Tier1Bases();
    forall i | 0 <= i < |t| ensures t[i] !in Tier3Bases() {
      if i == 0 {} else if i == 1 {} else if i == 2 {} else if i == 3 {} else if i == 4 {}
      else if i == 5 {} else if i == 6 {} else if i == 7 {} else if i == 8 {}
    }
  }

  lemma Tiers14Disjoint() ensures Disjoint(Tier1Bases(), Tier4Bases())
  {
    var t := Tier1Bases();
    forall i | 0 <= i < |t| ensures t[i] !in Tier4Bases() {
      if i == 0 {} else if i == 1 {} else if i == 2 {} else if i == 3 {} else if i == 4 {}
      else if i == 5 {} else if i == 6 {} else if i == 7 {} else if i == 8 {}
    }
  }

  lemma Tiers15Disjoint() ensures Disjoint(Tier1Bases(), Tier5Bases())
  {
    var t := Tier1Bases();
    forall i | 0 <= i < |t| ensures t[i] !in Tier5Bases() {
      if i == 0 {} else if i == 1 {} else if i == 2 {} else if i == 3 {} else if i == 4 {}
      else if i == 5 {} else if i == 6 {} else if i == 7 {} else if i == 8 {}
    }
  }

  lemma Tiers23Disjoint() ensures Disjoint(Tier2Bases(), Tier3Bases())
  {
    var t := Tier2Bases();
    forall i | 0 <= i < |t| ensures t[i] !in Tier3Bases() {
      if i == 0 {} else if i == 1 {} else if i == 2 {} else if i == 3 {} else if i == 4 {}
      else if i == 5 {} else if i == 6 {} else if i == 7 {} else if i == 8 {}
    }
  }

  lemma Tiers24Disjoint() ensures Disjoint(Tier2Bases(), Tier4Bases())
  {
    var t := Tier2Bases();
    forall i | 0 <= i < |t| ensures t[i] !in Tier4Bases() {
      if i == 0 {} else if i == 1 {} else if i == 2 {} else if i == 3 {} else if i == 4 {}
      else if i == 5 {} else if i == 6 {} else if i == 7 {} else if i == 8 {}
    }
  }

  lemma Tiers25Disjoint() ensures Disjoint(Tier2Bases(), Tier5Bases())
  {
    var t := Tier2Bases();
    forall i | 0 <= i < |t| ensures t[i] !in Tier5Bases() {
      if i == 0 {} else if i == 1 {} else if i == 2 {} else if i == 3 {} else if i == 4 {}
      else if i == 5 {} else if i == 6 {} else if i == 7 {} else if i == 8 {}
    }
  }

  lemma Tiers34Disjoint() ensures Disjoint(Tier3Bases(), Tier4Bases())
  {
    var t := Tier3Bases();
    forall i | 0 <= i < |t| ensures t[i] !in Tier4Bases() {
      if i == 0 {} else if i == 1 {} else if i == 2 {} else if i == 3 {} else if i == 4 {}
      else if i == 5 {} else if i == 6 {} else if i == 7 {} else if i == 8 {}
    }
  }

  lemma Tiers35Disjoint() ensures Disjoint(Tier3Bases(), Tier5Bases())
  {
    var t := Tier3Bases();
    forall i | 0 <= i < |t| ensures t[i] !in Tier5Bases() {
      if i == 0 {} else if i == 1 {} else if i == 2 {} else if i == 3 {} else if i == 4 {}
      else if i == 5 {} else if i == 6 {} else if i == 7 {} else if i == 8 {}
    }
  }

  lemma Tiers45Disjoint() ensures Disjoint(Tier4Bases(), Tier5Bases())
  {
    var t := Tier4Bases();
    forall i | 0 <= i < |t| ensures t[i] !in Tier5Bases() {
      if i == 0 {} else if i == 1 {} else if i == 2 {} else if i == 3 {} else if i == 4 {}
      else if i == 5 {} else if i == 6 {} else if i == 7 {} else if i == 8 {}
    }
  }


  lemma {:induction false} NoDupConcat(a: seq<string>, b: seq<string>)
    requires NoDup(a) && NoDup(b) && Disjoint(a, b)
    ensures NoDup(a + b)
  {
    var c := a + b;
    forall i, j | 0 <= i < j < |c| ensures c[i] != c[j] {
      if j >= |a| && i < |a| {
        assert c[i] in a && c[j] in b;
      } else if i >= |a| {
        assert c[i] == b[i - |a|] && c[j] == b[j - |a|];
      }
    }
  }

  lemma DisjointConcat(a: seq<string>, b: seq<string>, c: seq<string>)
    requires Disjoint(a, c) && Disjoint(b, c)
    ensures Disjoint(a + b, c)
  {
  }

  /** The 50 base assets are distinct, each non-empty and free of '-'. */
  lemma TopTierBasesShape()
    ensures |TopTierBases()| == 50
    ensures NoDup(TopTierBases())
    ensures forall b :: b in TopTierBases() ==> IsAsset(b)
  {
    Tier1Assets(); Tier2Assets(); Tier3Assets(); Tier4Assets(); Tier5Assets();
    Tiers12Disjoint(); Tiers13Disjoint(); Tiers14Disjoint(); Tiers15Disjoint(); Tiers23Disjoint();
    Tiers24Disjoint(); Tiers25Disjoint(); Tiers34Disjoint(); Tiers35Disjoint(); Tiers45Disjoint();
    var t12 := Tier1Bases() + Tier2Bases();
    NoDupConcat(Tier1Bases(), Tier2Bases());
    DisjointConcat(Tier1Bases(), Tier2Bases(), Tier3Bases());
    var t123 := t12 + Tier3Bases();
    NoDupConcat(t12, Tier3Bases());
    DisjointConcat(Tier1Bases(), Tier2Bases(), Tier4Bases());
    DisjointConcat(t12, Tier3Bases(), Tier4Bases());
    var t1234 := t123 + Tier4Bases();
    NoDupConcat(t123, Tier4Bases());
    DisjointConcat(Tier1Bases(), Tier2Bases(), Tier5Bases());
    DisjointConcat(t12, Tier3Bases(), Tier5Bases());
    DisjointConcat(t123, Tier4Bases(), Tier5Bases());
    NoDupConcat(t1234, Tier5Bases());
  }

  /** The pairs of distinct assets are distinct pairs of the universe. */
  lemma PairsShape(bases: seq<string>)
    requires NoDup(bases) && forall b :: b in bases ==> IsAsset(b)
    ensures NoDup(Pairs(bases))
    ensures forall s :: s in Pairs(bases) ==> IsBrlPair(s)
  {
    var ps := Pairs(bases);
    forall i | 0 <= i < |ps| ensures IsBrlPair(ps[i]) {
      assert bases[i] in bases;
      PairOfAsset(bases[i], bases[i]);
    }
    forall i, j | 0 <= i < j < |ps| ensures ps[i] != ps[j] {
      assert bases[i] in bases;
      PairOfAsset(bases[i], bases[j]);
    }
  }

  /** The universe holds 50 distinct pairs, each a base asset followed by "-BRL". */
  lemma TopTier50Shape()
    ensures |GetTopTier50CryptocurrencyList()| == 50
    ensures NoDup(GetTopTier50CryptocurrencyList())
    ensures forall s :: s in GetTopTier50CryptocurrencyList() ==> IsBrlPair(s)
  {
    TopTierBasesShape();
    PairsShape(TopTierBases());
  }

  // ----- Assets ------------------------------------------------------------------

  /** Distinct(): the first occurrence of every element, in order. */
  function Distinct(s: seq<string>): (r: seq<string>)
    ensures NoDup(r)
    ensures forall x :: x in r <==> x in s
    ensures |r| <= |s|
  {
    if s == [] then []
    else
      var d := Distinct(s[..|s| - 1]);
      var last := s[|s| - 1];
      assert forall x :: x in s <==> x in s[..|s| - 1] || x == last by {
        assert s == s[..|s| - 1] + [last];
      }
      if last in d then d else d + [last]
  }

  /** A list without repetitions is its own Distinct(). */
  lemma {:induction false} DistinctOfNoDup(s: seq<string>)
    requires NoDup(s)
    ensures Distinct(s) == s
  {
    if s != [] {
      var init := s[..|s| - 1];
      DistinctOfNoDup(init);
      assert s[|s| - 1] !in init;
      assert s == init + [s[|s| - 1]];
    }
  }

  /** Select(s => s.Replace("-BRL", "")). */
  function StripAll(symbols: seq<string>): (r: seq<string>)
    ensures |r| == |symbols|
    ensures forall i :: 0 <= i < |r| ==> r[i] == RemoveAll(symbols[i], QuoteSuffix)
  {
    seq(|symbols|, i requires 0 <= i < |symbols| => RemoveAll(symbols[i], QuoteSuffix))
  }

  /**
   * GetUniqueAssetsFromSymbols: every "-BRL" occurrence of every symbol is
   * removed, and repeated results are kept once, in order of first appearance.
   */
  function GetUniqueAssetsFromSymbols(symbols: seq<string>): (assets: seq<string>)
    ensures NoDup(assets)
    ensures forall a :: a in assets <==> exists i :: 0 <= i < |symbols| && a == RemoveAll(symbols[i], QuoteSuffix)
    ensures |assets| <= |symbols|
  {
    var stripped := StripAll(symbols);
    assert forall a :: a in stripped <==> exists i :: 0 <= i < |symbols| && a == RemoveAll(symbols[i], QuoteSuffix) by {
      forall a ensures a in stripped ==> exists i :: 0 <= i < |symbols| && a == RemoveAll(symbols[i], QuoteSuffix) {
        if a in stripped {
          var i :| 0 <= i < |stripped| && stripped[i] == a;
        }
      }
    }
    Distinct(stripped)
  }

  /** A leading character other than '-' is never part of a removed "-BRL". */
  lemma RemoveAllKeepsLeadingChar(c: char, u: string)
    requires c != '-'
    ensures RemoveAll([c] + u, QuoteSuffix) == [c] + RemoveAll(u, QuoteSuffix)
  {
    var s := [c] + u;
    assert s[1..] == u;
    if |s| < |QuoteSuffix| {
      assert RemoveAll(u, QuoteSuffix) == u;
    } else {
      assert s[..|QuoteSuffix|][0] == c;
    }
  }

  /** Removing every "-BRL" from text that starts with a '-'-free part leaves that part in front. */
  lemma {:induction false} RemoveAllKeepsDashFreePrefix(b: string, t: string)
    requires '-' !in b
    decreases |b|
    ensures RemoveAll(b + t, QuoteSuffix) == b + RemoveAll(t, QuoteSuffix)
  {
    if b == [] {
      assert b + t == t;
    } else {
      var c, rest, removed := b[0], b[1..], RemoveAll(t, QuoteSuffix);
      assert b == [c] + rest;
      assert b + t == [c] + (rest + t);
      RemoveAllKeepsDashFreePrefix(rest, t);
      RemoveAllKeepsLeadingChar(c, rest + t);
      assert [c] + (rest + removed) == b + removed;
    }
  }

  /** For a symbol made from an asset, the Replace yields exactly that asset. */
  lemma PairStripsToBase(b: string)
    requires IsAsset(b)
    ensures RemoveAll(Pair(b), QuoteSuffix) == b
  {
    RemoveAllKeepsDashFreePrefix(b, QuoteSuffix);
    assert QuoteSuffix[..|QuoteSuffix|] == QuoteSuffix && QuoteSuffix[|QuoteSuffix|..] == [];
    assert RemoveAll(QuoteSuffix, QuoteSuffix) == [];
  }

  /** For any pair of the universe, the Replace yields its base asset. */
  lemma BrlPairStripsToBase(s: string)
    requires IsBrlPair(s)
    ensures RemoveAll(s, QuoteSuffix) == BaseAsset(s)
  {
    var b := BaseAsset(s);
    assert s == b + s[|s| - |QuoteSuffix|..];
    assert s == Pair(b);
    PairStripsToBase(b);
  }

  /** The symbols of distinct assets give back exactly those assets, in order. */
  lemma AssetsOfPairs(bases: seq<string>)
    requires NoDup(bases) && forall b :: b in bases ==> IsAsset(b)
    ensures GetUniqueAssetsFromSymbols(Pairs(bases)) == bases
  {
    var stripped := StripAll(Pairs(bases));
    forall i | 0 <= i < |bases| ensures stripped[i] == bases[i] {
      assert bases[i] in bases;
      PairStripsToBase(bases[i]);
    }
    assert stripped == bases;
    DistinctOfNoDup(bases);
  }

  /** The 50 pairs give the 50 distinct base assets, in list order. */
  lemma TopTier50Assets()
    ensures GetUniqueAssetsFromSymbols(GetTopTier50CryptocurrencyList()) == TopTierBases()
    ensures |GetUniqueAssetsFromSymbols(GetTopTier50CryptocurrencyList())| == 50
  {
    TopTierBasesShape();
    AssetsOfPairs(TopTierBases());
  }

  /** Replace drops a repeated suffix too, not only the trailing one. */
  lemma ReplaceDropsRepeatedSuffix()
    ensures RemoveAll("BTC-BRL-BRL", QuoteSuffix) == "BTC"
  {
    RemoveAllKeepsDashFreePrefix("BTC", "-BRL-BRL");
    assert "BTC" + "-BRL-BRL" == "BTC-BRL-BRL";
    var t := "-BRL-BRL";
    assert t[..4] == QuoteSuffix && t[4..] == QuoteSuffix;
    assert RemoveAll(QuoteSuffix, QuoteSuffix) == [] by {
      assert QuoteSuffix[..4] == QuoteSuffix && QuoteSuffix[4..] == [];
    }
  }

  /** Replace drops an occurrence at the front too. */
  lemma ReplaceDropsLeadingSuffix()
    ensures RemoveAll("-BRLETH", QuoteSuffix) == "ETH"
  {
    var s := "-BRLETH";
    assert s[..4] == QuoteSuffix && s[4..] == "ETH";
    RemoveAllKeepsDashFreePrefix("ETH", []);
    assert "ETH" + [] == "ETH";
  }

  /** Of three symbols, two that strip to the same text give one asset. */
  lemma FirstTwoStripEqually(a: string, b: string, c: string, x: string, y: string)
    requires RemoveAll(a, QuoteSuffix) == x && RemoveAll(b, QuoteSuffix) == x
    requires RemoveAll(c, QuoteSuffix) == y && x != y
    ensures GetUniqueAssetsFromSymbols([a, b, c]) == [x, y]
  {
    var stripped := StripAll([a, b, c]);
    assert stripped == [x, x, y];
    assert [x, x, y][..2] == [x, x] && [x, x][..1] == [x] && [x][..0] == [];
    assert Distinct([x]) == [x];
    assert Distinct([x, x]) == [x];
  }

  /** Symbols that strip to the same text give one asset. */
  lemma EqualStripsKeptOnce()
    ensures GetUniqueAssetsFromSymbols(["BTC-BRL", "BTC-BRL-BRL", "ETH"]) == ["BTC", "ETH"]
  {
    PairStripsToBase("BTC");
    assert Pair("BTC") == "BTC-BRL";
    ReplaceDropsRepeatedSuffix();
    RemoveAllKeepsDashFreePrefix("ETH", []);
    assert "ETH" + [] == "ETH";
    FirstTwoStripEqually("BTC-BRL", "BTC-BRL-BRL", "ETH", "BTC", "ETH");
  }
}
