# DeBank staking checker — a Dafny model of its core

The program asks the DeBank portfolio service for one wallet's DeFi protocol
list and prints two views of it: every supply-token position, and the staking
positions among them. This project models the two pieces of logic in
`checker.py` that do not depend on the network or the console, and proves what
they promise:

- **the address check** `is_valid_eth_address`, the regular expression
  `^0x[a-fA-F0-9]{40}$` applied with `re.match` (module `Address`);
- **the position extractor** `extract_positions`, which walks protocols, their
  portfolio items and each item's supply tokens, builds one flat record per
  token with defaults for absent keys, appends every record to
  `all_positions` and the records of staking items to `staking` (modules
  `Positions`, `Properties`, `Extractor`).

The provider's JSON becomes typed records (`Positions.Protocol`, `Item`,
`Detail`, `Token`). Every key the source reads with `dict.get` becomes an
`Option` field. The source's defaults are applied where the source applies them:
"Unknown Protocol", "Other", `""` for the lower-cased name, an empty `detail`,
empty lists, and 0.

The extractor is modelled twice:

- `Extractor.ExtractPositions` is the source's three nested loops over value
  sequences.
- `Positions.Extract` is the recursive specification. `Positions.Sites`
  enumerates every (protocol, item, token) triple in visiting order.
  `all_positions` is the record of each site, and `staking` is the records of
  the sites whose item is classified as staking.

The method is proved equal to `Extract`, and the properties below are proved of
`Extract`.

Modules: `Wrappers` (Option), `Text` (ASCII lower-casing, Python's substring
`in`), `Sequences` (generic slicing facts used by the proofs), `Address`,
`Positions`, `Properties`, `Extractor`, `Scenarios` (concrete inputs).

Two details of the code are easy to misread:

- The staking test on `checker.py:52` is a substring test on the lower-cased
  item name but exact list membership on the lower-cased `detail_types`. A tag
  qualifies only if it lower-cases to exactly `staked`, so an item named
  "Liquidity Pool" tagged `staked_reward` is not staking
  (`Scenarios.OtherTagsDoNotClassify`).
- The regular expression's `$` also matches before one final newline, so
  `"0x" + 40 hex digits + "\n"` is accepted (`Address.AcceptsAndRefuses`).
  `main` strips its input first, so this case does not arise there.

## Model

| member | source | states |
|---|---|---|
| `Address.IsValidEthAddress` | checker.py:6-7 | `re.match(r'^0x[a-fA-F0-9]{40}$', …)`: a valid address starts with lower-case `0x` and has length 42, or 43 (the final newline `$` tolerates); fully characterised by `Address.IsValidEthAddressIff` |
| `Address.MatchHexDigits` | checker.py:7 | the `[a-fA-F0-9]{n}` part of the pattern: on success it has consumed exactly the first n characters and returns the rest; fully characterised by `Address.MatchHexDigitsIff` |
| `Text.Contains` | checker.py:52 | Python's substring `in`: a contained needle is no longer than the string, and the empty needle is in every string; characterised by `Text.ContainsIff` |
| `Positions.ProtocolName` | checker.py:32 | `protocol.get("name", "Unknown Protocol")`: the name when present, "Unknown Protocol" when absent |
| `Positions.Items` | checker.py:33 | `protocol.get("portfolio_item_list", [])`: the list when present, empty when absent |
| `Positions.LoweredName` | checker.py:36 | `item.get("name", "").lower()`: "" when absent, otherwise the name's length with each character lower-cased |
| `Positions.LoweredDetailTypes` | checker.py:37 | the tag list comprehension: empty when absent, otherwise one lower-cased tag per tag, at the same index |
| `Positions.SupplyTokens` | checker.py:40 | `item.get("detail", {}).get("supply_token_list", [])`: the token list when both keys are present, empty when either is absent |
| `Positions.Category` | checker.py:44 | `item.get("name", "Other")`: the raw name when present, "Other" when absent |
| `Wrappers.Option.GetOr` | checker.py:32-47 | `dict.get(key, default)`: the stored value when the key is present, the default when it is absent |
| `Address.IsHexDigit` | checker.py:7 | the class `[a-fA-F0-9]`; no hex digit is the newline `$` tolerates or the `x` of the prefix; enumerated by `Address.IsHexDigitIff` |
| `Address.IsHexDigitIff` | checker.py:7 | a character is in the class iff it is one of the twenty-two listed digits and letters |
| `Address.MatchesEnd` | checker.py:7 | Python's `$` after the digits: what remains is at most one character, and that character is a newline |
| `Text.AsciiLower` | checker.py:36-37 | per-character `.lower()`: 'A'..'Z' move up by 32, every other character is unchanged, and no result is an upper-case ASCII letter |
| `Positions.ItemSites` | checker.py:35-41 | the item loop visits one site per supply token of its items; located by `Properties.ItemSitesAt`, concatenated by `Properties.ItemSitesAppend` |
| `Positions.Sites` | checker.py:31-41 | the protocol loop visits exactly `TokenCount` sites; located by `Properties.SiteAt`, concatenated by `Properties.SitesAppend` |
| `Positions.StakingSites` | checker.py:52-53 | the `if … staking.append` filter keeps no more sites than it is given, and only sites whose item is staking; shown to be the masked selection by `Properties.StakingSitesSelect`, concatenated by `Properties.StakingSitesAppend` |
| `Positions.MakePosition` | checker.py:42-47 | the record carries the protocol name and the symbol as given; a missing amount gives amount 0 and value 0, a missing price gives value 0 (the full field list is `Positions.MakePositionFields`) |
| `Positions.IsStaking` | checker.py:52 | an item with neither name nor tags is not staking; "staked" in the lower-cased name, or a tag lower-casing to "staked", each make it staking (both directions in `Properties.IsStakingIff`) |
| `Positions.Extract` | checker.py:27-55 | the functional specification of the extractor: one record per visited token in `all_positions`, and no more staking records than records; the loops are proved equal to it by `Extractor.ExtractPositions` |
| `Address.MatchHexDigitsIff` | checker.py:7 | `[a-fA-F0-9]{n}` matches iff the first n characters exist and are all hex digits, and it leaves exactly the rest unconsumed |
| `Address.IsValidEthAddressIff` | checker.py:6-7 | an address is valid iff it starts with lower-case `0x`, characters 2..41 are hex digits, and it has length 42, or length 43 with a final `\n` (Python `$`) |
| `Address.ValidWithoutNewline` | checker.py:6-7 | for input without a newline: valid iff length 42, prefix `0x` and forty hex digits |
| `Address.AcceptsAndRefuses` | checker.py:7 | `0x` + 40 hex digits is accepted, with or without one trailing newline; `0X…`, 39 digits, 41 digits and two trailing newlines are refused |
| `Address.RefusesNonHex` | checker.py:7 | any non-hex character among positions 2..41 makes the address invalid |
| `Text.Lower` | checker.py:36 | `.lower()` keeps the length and lower-cases each character (ASCII only) |
| `Text.LowerAll` | checker.py:37 | the tag list comprehension keeps the length and lower-cases each tag at its position |
| `Text.ContainsIff` | checker.py:52 | Python's `"staked" in item_name` holds iff the needle occurs at some offset of the string |
| `Text.MissingCharNotContained` | checker.py:52 | a needle with a character the string lacks is not contained in it |
| `Positions.MakePositionFields` | checker.py:42-48 | a record carries the protocol name, the raw item name or "Other", the symbol (possibly absent) and the amount or 0; its USD value is amount × price when both are present and 0 when either is missing |
| `Positions.TokenSites` | checker.py:41-48 | visiting an item's tokens yields one site per token, in token order, each with that protocol name and item |
| `Positions.PositionsOf` | checker.py:42-49 | one record per site, at the same index, built from that site |
| `Positions.StakingMask` | checker.py:52 | the per-record staking flag is the classification of that record's item |
| `Extractor.ExtractPositions` | checker.py:27-55 | the nested loops with `append` return exactly `(staking, all_positions)` of the functional specification `Extract` |
| `Extractor.VisitSite` | checker.py:49-53 | appending a site appends its record to `all_positions`, and to `staking` exactly when its item is staking |
| `Properties.ExtractAppend` | checker.py:31-53 | extraction distributes over concatenation of protocol lists, component-wise for both lists |
| `Properties.ExtractEmpty` | checker.py:28-29 | an empty protocol list yields two empty lists |
| `Properties.ProtocolWithoutItems` | checker.py:33 | a protocol with no or an empty `portfolio_item_list` contributes nothing |
| `Properties.ItemWithoutTokens` | checker.py:40 | an item with no `detail`, or no or an empty `supply_token_list`, contributes nothing |
| `Properties.AllPositionsCount` | checker.py:41-49 | `all_positions` has exactly as many records as there are supply tokens in all items of all protocols |
| `Properties.RecordAt` | checker.py:31-53 | the record at `Offset(i, j) + t` is the one built from token t of item j of protocol i, and its staking flag is item j's classification, so all tokens of one item are classified alike |
| `Properties.RecordsInSourceOrder` | checker.py:31-49 | a token earlier in protocol → item → token order has a strictly smaller record index, so records are in source order and distinct tokens have distinct records |
| `Properties.SiteAt` | checker.py:31-41 | the site at `Offset(i, j) + t` is token t of item j of protocol i |
| `Properties.StakingIsSelection` | checker.py:49-53 | `staking` is the order-preserving selection of the records of `all_positions` whose flag is set: the same records, in the same relative order |
| `Properties.StakingWithinAll` | checker.py:49-53 | every staking record is a record of `all_positions`, and there are no more of them |
| `Properties.IsStakingIff` | checker.py:36-37 | an item is staking iff "staked" occurs in its lower-cased name (absent name = "") or some tag lower-cases to exactly "staked" |
| `Properties.SitesAppend` | checker.py:31 | the protocol loop only appends: sites distribute over concatenation |
| `Properties.ItemSitesAppend` | checker.py:35 | the item loop only appends: sites distribute over concatenation |
| `Properties.ItemSitesAt` | checker.py:35-41 | the site at `ItemsTokenCount(items[..j]) + t` of the item loop is token t of item j |
| `Properties.StakingSitesSelect` | checker.py:49-53 | the records of the staking sites are the records of all sites selected by the staking mask |
| `Properties.StakingSitesAppend` | checker.py:52-53 | the staking filter distributes over concatenation |
| `Properties.TokenCountAppend` | checker.py:31-41 | token counts add up over concatenated protocol lists |
| `Scenarios.NameClassifies` | checker.py:36 | "Staked ETH 2.0" and "Restaked Pool" are staking by name |
| `Scenarios.UpperCaseTagClassifies` | checker.py:37 | a tag "STAKED" classifies the item after lower-casing |
| `Scenarios.OtherTagsDoNotClassify` | checker.py:52 | "Liquidity Pool" tagged `staked_reward` and "Lending" tagged `collateral` are not staking |
| `Scenarios.NoNameNoTags` | checker.py:36-37 | an item with neither a name nor tags is not staking |
| `Scenarios.LidoScenario` | checker.py:27-55 | one Lido item "Staked ETH" tagged `staked` with 2.5 stETH at 3000 gives the same single record, worth 7500, in both lists |
| `Scenarios.DefaultsScenario` | checker.py:32-47 | absent names give "Unknown Protocol" and "Other"; an amount of 10 without a price is worth 0; a missing amount gives amount 0 |

## Left out

- `fetch_portfolio` (checker.py:9-25): an HTTP GET through `requests` with exception swallowing and a diagnostic print. This is network I/O. Its result is any `seq<Protocol>`. The empty list it returns on failure is covered by `Properties.ExtractEmpty`.
- `main` (checker.py:57-81): console prompt, `.strip()`, printing and the `:.4f`/`:.2f` formatting. This is I/O and presentation.
- The API key constant (checker.py:4): configuration with no behaviour.
- Floating point: amounts, prices and `amount * price` are Dafny `real`, so the product is exact (no IEEE-754 rounding).
- `Text.Lower`: models ASCII lower-casing only; Python's full Unicode case mapping is not modelled.
- Malformed JSON shapes are excluded by the typed records: a non-list where a list is expected, a non-string tag, and a key present with `null`. For most keys a `null` makes the source fail (`None.lower()`, iterating `None`, `None.get`, `None * price`). Two keys do not: a `null` `symbol` behaves exactly like an absent one, and the model's `Option` covers it; a `null` protocol `name` gives a record whose `protocol` is `None`, printed as "None". That case is not modelled, because `Position.protocol` is a `string` and cannot hold `None`.
- Object identity: the source appends the same dict object to both lists. The model has value semantics, so "the same record" is stated as equality (`Properties.StakingIsSelection`).
