/** `extract_positions` as the source writes it: two lists filled by `append`
    inside three nested loops, proved equal to the functional specification
    `Positions.Extract`. */
module Extractor {
  import opened Text
  import opened Positions
  import opened Properties
  import opened Sequences

  method ExtractPositions(protocols: seq<Protocol>) returns (staking: seq<Position>, allPositions: seq<Position>)
    ensures Extraction(staking, allPositions) == Extract(protocols)
  {
    staking, allPositions := [], [];
    ghost var visited: seq<Site> := [];
    for i := 0 to |protocols|
      invariant visited == Sites(protocols[..i])
      invariant allPositions == PositionsOf(visited)
      invariant staking == PositionsOf(StakingSites(visited))
    {
      var protocol := protocols[i];
      var protocolName := protocol.name.GetOr(UnknownProtocol);
      var items := protocol.portfolioItemList.GetOr([]);
      assert protocolName == ProtocolName(protocol) && items == Items(protocol);
      ghost var beforeProtocol := visited;
      for j := 0 to |items|
        invariant visited == beforeProtocol + ItemSites(protocolName, items[..j])
        invariant allPositions == PositionsOf(visited)
        invariant staking == PositionsOf(StakingSites(visited))
      {
        var item := items[j];
        var itemName := Lower(item.name.GetOr(""));
        var detailTypes := LowerAll(item.detailTypes.GetOr([]));
        var supplyTokens := match item.detail case None => [] case Some(d) => d.supplyTokenList.GetOr([]);
        assert supplyTokens == SupplyTokens(item);
        assert (Contains(itemName, StakedTag) || StakedTag in detailTypes) == IsStaking(item);
        ghost var beforeItem := visited;
        for k := 0 to |supplyTokens|
          invariant visited == beforeItem + TokenSites(protocolName, item, supplyTokens[..k])
          invariant allPositions == PositionsOf(visited)
          invariant staking == PositionsOf(StakingSites(visited))
        {
          var token := supplyTokens[k];
          var position := MakePosition(protocolName, item, token);
          allPositions := allPositions + [position];
          if Contains(itemName, StakedTag) || StakedTag in detailTypes {
            staking := staking + [position];
          }
          ghost var site := Site(protocolName, item, token);
          VisitSite(visited, site);
          TokenSitesSnoc(protocolName, item, supplyTokens, k);
          ConcatAssoc(beforeItem, TokenSites(protocolName, item, supplyTokens[..k]), [site]);
          visited := visited + [site];
        }
        ItemSitesSnoc(protocolName, items, j);
        PrefixAll(supplyTokens);
        ConcatAssoc(beforeProtocol, ItemSites(protocolName, items[..j]), TokenSites(protocolName, item, supplyTokens));
      }
      SitesSnoc(protocols, i);
      PrefixAll(items);
    }
    PrefixAll(protocols);
  }

  /** Appending one site appends its record to `all_positions`, and to
      `staking` exactly when its item is classified as staking. */
  lemma VisitSite(visited: seq<Site>, s: Site)
    ensures PositionsOf(visited + [s]) == PositionsOf(visited) + [PositionOf(s)]
    ensures PositionsOf(StakingSites(visited + [s]))
         == PositionsOf(StakingSites(visited)) + (if IsStaking(s.item) then [PositionOf(s)] else [])
  {
    PositionsOfAppend(visited, [s]);
    StakingSitesAppend(visited, [s]);
    SingletonTail(s);
    var tail := if IsStaking(s.item) then [s] else [];
    assert StakingSites([s]) == tail;
    PositionsOfAppend(StakingSites(visited), tail);
  }

  lemma TokenSitesSnoc(protocolName: string, item: Item, tokens: seq<Token>, k: nat)
    requires k < |tokens|
    ensures TokenSites(protocolName, item, tokens[..k + 1])
         == TokenSites(protocolName, item, tokens[..k]) + [Site(protocolName, item, tokens[k])]
  {
    PrefixSnoc(tokens, k);
    TokenSitesAppend(protocolName, item, tokens[..k], [tokens[k]]);
  }

  lemma ItemSitesSnoc(protocolName: string, items: seq<Item>, j: nat)
    requires j < |items|
    ensures ItemSites(protocolName, items[..j + 1])
         == ItemSites(protocolName, items[..j]) + TokenSites(protocolName, items[j], SupplyTokens(items[j]))
  {
    PrefixSnoc(items, j);
    ItemSitesAppend(protocolName, items[..j], [items[j]]);
    SingleItemSites(protocolName, items[j]);
  }

  lemma SitesSnoc(protocols: seq<Protocol>, i: nat)
    requires i < |protocols|
    ensures Sites(protocols[..i + 1])
         == Sites(protocols[..i]) + ItemSites(ProtocolName(protocols[i]), Items(protocols[i]))
  {
    PrefixSnoc(protocols, i);
    SitesAppend(protocols[..i], [protocols[i]]);
    SingleProtocolSites(protocols[i]);
  }
}
