/** The provider's response as typed records, the flat position records derived
    from it, and the functional specification of `extract_positions`.

    An absent JSON key is `None`; the defaults the source substitutes for absent
    keys are applied by the accessor functions below, exactly where the source
    calls `dict.get` with a default. */
module Positions {
  import opened Wrappers
  import opened Text

  datatype Token = Token(symbol: Option<string>, amount: Option<real>, price: Option<real>)
  datatype Detail = Detail(supplyTokenList: Option<seq<Token>>)
  datatype Item = Item(name: Option<string>, detailTypes: Option<seq<string>>, detail: Option<Detail>)
  datatype Protocol = Protocol(name: Option<string>, portfolioItemList: Option<seq<Item>>)

  /** One flat record; `token` is `None` where the source stores Python's `None`. */
  datatype Position = Position(protocol: string, category: string, token: Option<string>,
                               amount: real, usdValue: real)

  /** The two lists `extract_positions` returns, in the order it returns them. */
  datatype Extraction = Extraction(staking: seq<Position>, allPositions: seq<Position>)

  const UnknownProtocol := "Unknown Protocol"
  const OtherCategory := "Other"
  const StakedTag := "staked"

  function ProtocolName(p: Protocol): (r: string)
    ensures p.name.Some? ==> r == p.name.value
    ensures p.name.None? ==> r == UnknownProtocol
  {
    p.name.GetOr(UnknownProtocol)
  }

  function Items(p: Protocol): (r: seq<Item>)
    ensures p.portfolioItemList.Some? ==> r == p.portfolioItemList.value
    ensures p.portfolioItemList.None? ==> r == []
  {
    p.portfolioItemList.GetOr([])
  }

  /** `item.get("detail", {}).get("supply_token_list", [])`. */
  function SupplyTokens(item: Item): (r: seq<Token>)
    ensures item.detail.Some? && item.detail.value.supplyTokenList.Some? ==> r == item.detail.value.supplyTokenList.value
    ensures item.detail.None? || item.detail.value.supplyTokenList.None? ==> r == []
  {
    match item.detail
    case None => []
    case Some(d) => d.supplyTokenList.GetOr([])
  }

  /** The raw (not lower-cased) item name, or "Other". */
  function Category(item: Item): (r: string)
    ensures item.name.Some? ==> r == item.name.value
    ensures item.name.None? ==> r == OtherCategory
  {
    item.name.GetOr(OtherCategory)
  }

  /** `item.get("name", "").lower()`. */
  function LoweredName(item: Item): (r: string)
    ensures item.name.None? ==> r == ""
    ensures item.name.Some? ==> |r| == |item.name.value|
    ensures item.name.Some? ==> forall i :: 0 <= i < |r| ==> r[i] == AsciiLower(item.name.value[i])
  {
    Lower(item.name.GetOr(""))
  }

  /** `[t.lower() for t in item.get("detail_types", [])]`. */
  function LoweredDetailTypes(item: Item): (r: seq<string>)
    ensures item.detailTypes.None? ==> r == []
    ensures item.detailTypes.Some? ==> |r| == |item.detailTypes.value|
    ensures item.detailTypes.Some? ==> forall k :: 0 <= k < |r| ==> r[k] == Lower(item.detailTypes.value[k])
  {
    LowerAll(item.detailTypes.GetOr([]))
  }

  /** The staking test of `extract_positions` (checker.py:52): a substring test on the name, a membership test on the tags. */
  predicate IsStaking(item: Item)
    ensures item.name.None? && item.detailTypes.None? ==> !IsStaking(item)
    ensures item.name.Some? && Contains(Lower(item.name.value), StakedTag) ==> IsStaking(item)
    ensures item.detailTypes.Some? && StakedTag in LowerAll(item.detailTypes.value) ==> IsStaking(item)
  {
    Contains(LoweredName(item), StakedTag) || StakedTag in LoweredDetailTypes(item)
  }

  /** The record built for one token of one item. */
  function MakePosition(protocolName: string, item: Item, token: Token): (r: Position)
    ensures r.protocol == protocolName && r.token == token.symbol
    ensures token.amount.None? ==> r.amount == 0.0 && r.usdValue == 0.0
    ensures token.price.None? ==> r.usdValue == 0.0
  {
    var amount := token.amount.GetOr(0.0);
    Position(protocolName, Category(item), token.symbol, amount, amount * token.price.GetOr(0.0))
  }

  /** The field values of a record: the protocol name as given, the raw item
      name or "Other", the symbol (possibly absent), the amount or 0, and a USD
      value that is amount times price when both are present and 0 when either
      is missing. */
  lemma MakePositionFields(protocolName: string, item: Item, token: Token)
    ensures var r := MakePosition(protocolName, item, token);
      && r.protocol == protocolName && r.token == token.symbol
      && r.category == (if item.name.Some? then item.name.value else "Other")
      && r.amount == (if token.amount.Some? then token.amount.value else 0.0)
      && (token.amount.None? || token.price.None? ==> r.usdValue == 0.0)
      && (token.amount.Some? && token.price.Some? ==> r.usdValue == token.amount.value * token.price.value)
  {
  }

  // ---------------------------------------------------------------------------
  // Sites: every (protocol, item, token) triple, in the order the loops visit them.

  datatype Site = Site(protocolName: string, item: Item, token: Token)

  function TokenSites(protocolName: string, item: Item, tokens: seq<Token>): (r: seq<Site>)
    ensures |r| == |tokens|
    ensures forall k :: 0 <= k < |tokens| ==> r[k] == Site(protocolName, item, tokens[k])
  {
    if tokens == [] then [] else [Site(protocolName, item, tokens[0])] + TokenSites(protocolName, item, tokens[1..])
  }

  /** The sites the item loop visits: one per supply token of each item. */
  function ItemSites(protocolName: string, items: seq<Item>): (r: seq<Site>)
    ensures |r| == ItemsTokenCount(items)
  {
    if items == [] then []
    else TokenSites(protocolName, items[0], SupplyTokens(items[0])) + ItemSites(protocolName, items[1..])
  }

  /** The sites the protocol loop visits: one per supply token of each item of each protocol. */
  function Sites(protocols: seq<Protocol>): (r: seq<Site>)
    ensures |r| == TokenCount(protocols)
  {
    if protocols == [] then []
    else ItemSites(ProtocolName(protocols[0]), Items(protocols[0])) + Sites(protocols[1..])
  }

  function ItemsTokenCount(items: seq<Item>): nat {
    if items == [] then 0 else |SupplyTokens(items[0])| + ItemsTokenCount(items[1..])
  }

  /** Sum of all supply-token-list lengths. */
  function TokenCount(protocols: seq<Protocol>): nat {
    if protocols == [] then 0 else ItemsTokenCount(Items(protocols[0])) + TokenCount(protocols[1..])
  }

  function PositionOf(s: Site): Position {
    MakePosition(s.protocolName, s.item, s.token)
  }

  function PositionsOf(sites: seq<Site>): (r: seq<Position>)
    ensures |r| == |sites|
    ensures forall k :: 0 <= k < |sites| ==> r[k] == PositionOf(sites[k])
  {
    if sites == [] then [] else [PositionOf(sites[0])] + PositionsOf(sites[1..])
  }

  /** The sites whose item is classified as staking, in order. */
  function StakingSites(sites: seq<Site>): (r: seq<Site>)
    ensures |r| <= |sites|
    ensures forall k :: 0 <= k < |r| ==> IsStaking(r[k].item)
  {
    if sites == [] then []
    else (if IsStaking(sites[0].item) then [sites[0]] else []) + StakingSites(sites[1..])
  }

  /** The functional specification of `extract_positions`. */
  function Extract(protocols: seq<Protocol>): (r: Extraction)
    ensures |r.allPositions| == |Sites(protocols)|
    ensures |r.staking| <= |r.allPositions|
  {
    var sites := Sites(protocols);
    Extraction(PositionsOf(StakingSites(sites)), PositionsOf(sites))
  }

  // ---------------------------------------------------------------------------
  // Selecting the elements of a sequence under a mask of the same length.

  function Select<T>(xs: seq<T>, mask: seq<bool>): (r: seq<T>)
    requires |mask| == |xs|
    ensures |r| <= |xs|
  {
    if xs == [] then [] else (if mask[0] then [xs[0]] else []) + Select(xs[1..], mask[1..])
  }

  /** Per site, whether its record goes into the staking list. */
  function StakingMask(sites: seq<Site>): (r: seq<bool>)
    ensures |r| == |sites|
    ensures forall k :: 0 <= k < |sites| ==> r[k] == IsStaking(sites[k].item)
  {
    if sites == [] then [] else [IsStaking(sites[0].item)] + StakingMask(sites[1..])
  }
}
