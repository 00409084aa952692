/** What `extract_positions` promises, proved about its functional specification
    `Positions.Extract`. */
module Properties {
  import opened Wrappers
  import opened Text
  import opened Positions
  import opened Sequences

  // ---------------------------------------------------------------------------
  // Every stage only appends, so everything distributes over concatenation.

  lemma {:induction false} TokenSitesAppend(protocolName: string, item: Item, a: seq<Token>, b: seq<Token>)
    ensures TokenSites(protocolName, item, a + b) == TokenSites(protocolName, item, a) + TokenSites(protocolName, item, b)
  {
    if a != [] {
      ConcatTail(a, b);
      TokenSitesAppend(protocolName, item, a[1..], b);
    } else {
      ConcatEmpty(a, b);
    }
  }

  lemma {:induction false} ItemSitesAppend(protocolName: string, a: seq<Item>, b: seq<Item>)
    ensures ItemSites(protocolName, a + b) == ItemSites(protocolName, a) + ItemSites(protocolName, b)
  {
    if a != [] {
      ConcatTail(a, b);
      ItemSitesAppend(protocolName, a[1..], b);
    } else {
      ConcatEmpty(a, b);
    }
  }

  lemma {:induction false} SitesAppend(a: seq<Protocol>, b: seq<Protocol>)
    ensures Sites(a + b) == Sites(a) + Sites(b)
  {
    if a != [] {
      ConcatTail(a, b);
      SitesAppend(a[1..], b);
    } else {
      ConcatEmpty(a, b);
    }
  }

  lemma {:induction false} PositionsOfAppend(a: seq<Site>, b: seq<Site>)
    ensures PositionsOf(a + b) == PositionsOf(a) + PositionsOf(b)
  {
    if a != [] {
      ConcatTail(a, b);
      PositionsOfAppend(a[1..], b);
    } else {
      ConcatEmpty(a, b);
    }
  }

  lemma {:induction false} StakingSitesAppend(a: seq<Site>, b: seq<Site>)
    ensures StakingSites(a + b) == StakingSites(a) + StakingSites(b)
  {
    if a != [] {
      ConcatTail(a, b);
      StakingSitesAppend(a[1..], b);
    } else {
      ConcatEmpty(a, b);
    }
  }

  /** Extracting from two protocol lists one after the other gives the
      component-wise concatenation of the two extractions. */
  lemma ExtractAppend(a: seq<Protocol>, b: seq<Protocol>)
    ensures Extract(a + b).staking == Extract(a).staking + Extract(b).staking
    ensures Extract(a + b).allPositions == Extract(a).allPositions + Extract(b).allPositions
  {
    SitesAppend(a, b);
    StakingSitesAppend(Sites(a), Sites(b));
    PositionsOfAppend(Sites(a), Sites(b));
    PositionsOfAppend(StakingSites(Sites(a)), StakingSites(Sites(b)));
  }

  // ---------------------------------------------------------------------------
  // Absent or empty parts contribute nothing.

  /** An empty protocol list yields two empty lists. */
  lemma ExtractEmpty()
    ensures Extract([]) == Extraction([], [])
  {
  }

  /** A protocol without (or with an empty) `portfolio_item_list` contributes nothing. */
  lemma ProtocolWithoutItems(p: Protocol, rest: seq<Protocol>)
    requires p.portfolioItemList.None? || p.portfolioItemList == Some([])
    ensures Extract([p] + rest) == Extract(rest)
  {
    ConcatTail([p], rest);
    SingletonTail(p);
    assert ItemSites(ProtocolName(p), Items(p)) == [];
    assert Sites([p] + rest) == Sites(rest);
  }

  /** An item without `detail`, or whose detail has no or an empty
      `supply_token_list`, contributes nothing: dropping it from its protocol
      leaves the extraction unchanged. */
  lemma ItemWithoutTokens(p: Protocol, q: Protocol, before: seq<Item>, item: Item, after: seq<Item>)
    requires item.detail.None? || item.detail.value.supplyTokenList.None? || item.detail.value.supplyTokenList == Some([])
    requires p.name == q.name && Items(p) == before + [item] + after && Items(q) == before + after
    ensures Extract([p]) == Extract([q])
  {
    assert SupplyTokens(item) == [];
    DropEmptyItem(ProtocolName(p), before, item, after);
    SingleProtocolSites(p);
    SingleProtocolSites(q);
  }

  lemma DropEmptyItem(protocolName: string, before: seq<Item>, item: Item, after: seq<Item>)
    requires SupplyTokens(item) == []
    ensures ItemSites(protocolName, before + [item] + after) == ItemSites(protocolName, before + after)
  {
    ItemSitesAppend(protocolName, before + [item], after);
    ItemSitesAppend(protocolName, before, [item]);
    SingleItemSites(protocolName, item);
    ItemSitesAppend(protocolName, before, after);
  }

  lemma SingleItemSites(protocolName: string, item: Item)
    ensures ItemSites(protocolName, [item]) == TokenSites(protocolName, item, SupplyTokens(item))
  {
    SingletonTail(item);
  }

  lemma SingleProtocolSites(p: Protocol)
    ensures Sites([p]) == ItemSites(ProtocolName(p), Items(p))
  {
    SingletonTail(p);
  }

  // ---------------------------------------------------------------------------
  // One record per supply token, in protocol -> item -> token order.

  /** `all_positions` holds exactly as many records as there are supply tokens. */
  lemma AllPositionsCount(protocols: seq<Protocol>)
    ensures |Extract(protocols).allPositions| == TokenCount(protocols)
  {
  }

  /** Where the records of item `j` of protocol `i` start in `all_positions`:
      after every token of the earlier protocols and of the earlier items. */
  function Offset(protocols: seq<Protocol>, i: nat, j: nat): nat
    requires i < |protocols| && j <= |Items(protocols[i])|
  {
    TokenCount(protocols[..i]) + ItemsTokenCount(Items(protocols[i])[..j])
  }

  lemma {:induction false} ItemsTokenCountAppend(a: seq<Item>, b: seq<Item>)
    ensures ItemsTokenCount(a + b) == ItemsTokenCount(a) + ItemsTokenCount(b)
  {
    if a != [] {
      ConcatTail(a, b);
      ItemsTokenCountAppend(a[1..], b);
    } else {
      ConcatEmpty(a, b);
    }
  }

  lemma {:induction false} TokenCountAppend(a: seq<Protocol>, b: seq<Protocol>)
    ensures TokenCount(a + b) == TokenCount(a) + TokenCount(b)
  {
    if a != [] {
      ConcatTail(a, b);
      TokenCountAppend(a[1..], b);
    } else {
      ConcatEmpty(a, b);
    }
  }

  lemma ItemsPrefixCount(items: seq<Item>, j: nat)
    requires j < |items|
    ensures ItemsTokenCount(items[..j + 1]) == ItemsTokenCount(items[..j]) + |SupplyTokens(items[j])|
    ensures ItemsTokenCount(items[..j + 1]) <= ItemsTokenCount(items)
  {
    PrefixSnoc(items, j);
    ItemsTokenCountAppend(items[..j], [items[j]]);
    SingletonTail(items[j]);
    PrefixSuffix(items, j + 1);
    ItemsTokenCountAppend(items[..j + 1], items[j + 1..]);
  }

  lemma ItemsPrefixMonotone(items: seq<Item>, j1: nat, j2: nat)
    requires j1 <= j2 <= |items|
    ensures ItemsTokenCount(items[..j1]) <= ItemsTokenCount(items[..j2])
  {
    PrefixSplit(items, j1, j2);
    ItemsTokenCountAppend(items[..j1], items[j1..j2]);
  }

  lemma ProtocolsPrefixCount(protocols: seq<Protocol>, i: nat)
    requires i < |protocols|
    ensures TokenCount(protocols[..i + 1]) == TokenCount(protocols[..i]) + ItemsTokenCount(Items(protocols[i]))
  {
    PrefixSnoc(protocols, i);
    TokenCountAppend(protocols[..i], [protocols[i]]);
    SingletonTail(protocols[i]);
  }

  lemma ProtocolsPrefixMonotone(protocols: seq<Protocol>, i1: nat, i2: nat)
    requires i1 <= i2 <= |protocols|
    ensures TokenCount(protocols[..i1]) <= TokenCount(protocols[..i2])
  {
    PrefixSplit(protocols, i1, i2);
    TokenCountAppend(protocols[..i1], protocols[i1..i2]);
  }

  /** A valid (protocol, item, token) index triple. */
  ghost predicate IsTokenIndex(protocols: seq<Protocol>, i: nat, j: nat, t: nat) {
    i < |protocols| && j < |Items(protocols[i])| && t < |SupplyTokens(Items(protocols[i])[j])|
  }

  /** The sites of the items before `j`, of item `j`, and of the items after it. */
  lemma ItemSitesSplit(protocolName: string, items: seq<Item>, j: nat)
    requires j < |items|
    ensures ItemSites(protocolName, items)
         == ItemSites(protocolName, items[..j]) + TokenSites(protocolName, items[j], SupplyTokens(items[j]))
          + ItemSites(protocolName, items[j + 1..])
  {
    SplitAt(items, j);
    ItemSitesAppend(protocolName, items[..j], items[j..]);
  }

  /** The sites of the protocols before `i`, of protocol `i`, and of those after it. */
  lemma SitesSplit(protocols: seq<Protocol>, i: nat)
    requires i < |protocols|
    ensures Sites(protocols)
         == Sites(protocols[..i]) + ItemSites(ProtocolName(protocols[i]), Items(protocols[i])) + Sites(protocols[i + 1..])
  {
    SplitAt(protocols, i);
    SitesAppend(protocols[..i], protocols[i..]);
  }

  lemma ItemSitesAt(protocolName: string, items: seq<Item>, j: nat, t: nat)
    requires j < |items| && t < |SupplyTokens(items[j])|
    ensures ItemsTokenCount(items[..j]) + t < |ItemSites(protocolName, items)|
    ensures ItemSites(protocolName, items)[ItemsTokenCount(items[..j]) + t]
         == Site(protocolName, items[j], SupplyTokens(items[j])[t])
  {
    ItemSitesSplit(protocolName, items, j);
    IndexInMiddle(ItemSites(protocolName, items[..j]), TokenSites(protocolName, items[j], SupplyTokens(items[j])),
                  ItemSites(protocolName, items[j + 1..]), t);
  }

  /** The site of token `t` of item `j` of protocol `i` sits at `Offset(i, j) + t`. */
  lemma SiteAt(protocols: seq<Protocol>, i: nat, j: nat, t: nat)
    requires IsTokenIndex(protocols, i, j, t)
    ensures Offset(protocols, i, j) + t < |Sites(protocols)|
    ensures Sites(protocols)[Offset(protocols, i, j) + t]
         == Site(ProtocolName(protocols[i]), Items(protocols[i])[j], SupplyTokens(Items(protocols[i])[j])[t])
  {
    var p := protocols[i];
    SitesSplit(protocols, i);
    ItemSitesAt(ProtocolName(p), Items(p), j, t);
    IndexInMiddle(Sites(protocols[..i]), ItemSites(ProtocolName(p), Items(p)), Sites(protocols[i + 1..]),
                  ItemsTokenCount(Items(p)[..j]) + t);
  }


  /** Record `Offset(i, j) + t` of `all_positions` is the one built from token `t`
      of item `j` of protocol `i`, and its staking flag is that item's classification. */
  lemma RecordAt(protocols: seq<Protocol>, i: nat, j: nat, t: nat)
    requires IsTokenIndex(protocols, i, j, t)
    ensures Offset(protocols, i, j) + t < |Extract(protocols).allPositions|
    ensures Extract(protocols).allPositions[Offset(protocols, i, j) + t]
         == MakePosition(ProtocolName(protocols[i]), Items(protocols[i])[j], SupplyTokens(Items(protocols[i])[j])[t])
    ensures StakingMask(Sites(protocols))[Offset(protocols, i, j) + t] == IsStaking(Items(protocols[i])[j])
  {
    SiteAt(protocols, i, j, t);
  }

  /** Index triples in lexicographic order. */
  ghost predicate LexLess(i1: nat, j1: nat, t1: nat, i2: nat, j2: nat, t2: nat) {
    i1 < i2 || (i1 == i2 && (j1 < j2 || (j1 == j2 && t1 < t2)))
  }

  /** Records appear in protocol -> item -> token source order: a token that comes
      earlier in the input gets a strictly smaller position in `all_positions`
      (so distinct tokens also get distinct records). */
  lemma RecordsInSourceOrder(protocols: seq<Protocol>, i1: nat, j1: nat, t1: nat, i2: nat, j2: nat, t2: nat)
    requires IsTokenIndex(protocols, i1, j1, t1) && IsTokenIndex(protocols, i2, j2, t2)
    requires LexLess(i1, j1, t1, i2, j2, t2)
    ensures Offset(protocols, i1, j1) + t1 < Offset(protocols, i2, j2) + t2
  {
    var items1 := Items(protocols[i1]);
    ItemsPrefixCount(items1, j1);
    if i1 < i2 {
      ProtocolsPrefixCount(protocols, i1);
      ProtocolsPrefixMonotone(protocols, i1 + 1, i2);
    } else if j1 < j2 {
      ItemsPrefixMonotone(items1, j1 + 1, j2);
    }
  }

  // ---------------------------------------------------------------------------
  // The staking list is the order-preserving selection of flagged records.

  lemma {:induction false} StakingSitesSelect(sites: seq<Site>)
    ensures PositionsOf(StakingSites(sites)) == Select(PositionsOf(sites), StakingMask(sites))
  {
    if sites != [] {
      StakingSitesSelect(sites[1..]);

      PositionsOfAppend(if IsStaking(sites[0].item) then [sites[0]] else [], StakingSites(sites[1..]));
    }
  }

  /** `staking` consists of exactly the records of `all_positions` whose item is
      classified as staking, in the same order: the very records, not copies that
      differ. */
  lemma StakingIsSelection(protocols: seq<Protocol>)
    ensures |StakingMask(Sites(protocols))| == |Extract(protocols).allPositions|
    ensures Extract(protocols).staking == Select(Extract(protocols).allPositions, StakingMask(Sites(protocols)))
  {
    StakingSitesSelect(Sites(protocols));
  }

  lemma {:induction false} SelectMembers<T>(xs: seq<T>, mask: seq<bool>)
    requires |mask| == |xs|
    ensures forall x :: x in Select(xs, mask) ==> x in xs
  {
    if xs != [] {
      SelectMembers(xs[1..], mask[1..]);
    }
  }

  /** Every staking record is also a record of `all_positions`, and there are
      never more staking records than records. */
  lemma StakingWithinAll(protocols: seq<Protocol>)
    ensures |Extract(protocols).staking| <= |Extract(protocols).allPositions|
    ensures forall x :: x in Extract(protocols).staking ==> x in Extract(protocols).allPositions
  {
    StakingIsSelection(protocols);
    SelectMembers(Extract(protocols).allPositions, StakingMask(Sites(protocols)));
  }

  // ---------------------------------------------------------------------------
  // The classification rule.

  /** An item is staking iff "staked" occurs anywhere in its lower-cased name
      (an absent name counts as ""), or one of its tags lower-cases to exactly
      "staked". */
  lemma IsStakingIff(item: Item)
    ensures IsStaking(item) <==>
      || (exists i :: OccursAt(Lower(item.name.GetOr("")), "staked", i))
      || (exists k :: 0 <= k < |item.detailTypes.GetOr([])| && Lower(item.detailTypes.GetOr([])[k]) == "staked")
  {
    ContainsIff(Lower(item.name.GetOr("")), StakedTag);
    assert IsStaking(item) <==> Contains(Lower(item.name.GetOr("")), "staked") || StakedTag in LoweredDetailTypes(item);
    var tags := item.detailTypes.GetOr([]);
    if StakedTag in LowerAll(tags) {
      var k :| 0 <= k < |tags| && LowerAll(tags)[k] == StakedTag;
      assert Lower(tags[k]) == "staked";
    } else {
      forall k | 0 <= k < |tags| ensures Lower(tags[k]) != "staked" {
        assert LowerAll(tags)[k] == Lower(tags[k]);
      }
    }
  }
}
