/** Concrete inputs: the classification rule and the end-to-end behaviour on
    small responses. */
module Scenarios {
  import opened Wrappers
  import opened Text
  import opened Positions
  import opened Properties

  /** "staked" anywhere in the lower-cased name classifies the item, whatever its
      tags: "Staked ETH 2.0" at the start, "Restaked Pool" in the middle. */
  lemma NameClassifies(item: Item, name: string)
    requires item.name == Some(name)
    requires name == "Staked ETH 2.0" || name == "Restaked Pool"
    ensures IsStaking(item)
  {
    var l := Lower(name);
    var at := if name == "Staked ETH 2.0" then 0 else 2;
    assert l[at] == 's' && l[at + 1] == 't' && l[at + 2] == 'a' && l[at + 3] == 'k' && l[at + 4] == 'e' && l[at + 5] == 'd';
    assert OccursAt(l, StakedTag, at);
    ContainsIff(l, StakedTag);
  }

  /** A tag spelled "staked" in any letter case classifies the item. */
  lemma UpperCaseTagClassifies(item: Item)
    requires item.detailTypes == Some(["STAKED"])
    ensures IsStaking(item)
  {
    var upper := Lower("STAKED");
    assert upper[0] == 's' && upper[1] == 't' && upper[2] == 'a' && upper[3] == 'k' && upper[4] == 'e' && upper[5] == 'd';
    assert LowerAll(["STAKED"])[0] == StakedTag;
  }

  /** A tag classifies only when it lower-cases to exactly "staked": an item named
      "Liquidity Pool" tagged "staked_reward" is not staking, nor is "Lending"
      tagged "collateral". */
  lemma OtherTagsDoNotClassify(item: Item, name: string, tag: string)
    requires item.name == Some(name) && item.detailTypes == Some([tag])
    requires (name == "Liquidity Pool" && tag == "staked_reward") || (name == "Lending" && tag == "collateral")
    ensures !IsStaking(item)
  {
    assert |Lower(tag)| != |StakedTag|;
    assert LowerAll([tag]) == [Lower(tag)];
    WithoutKNoStaked(name);
  }

  /** An item with neither a name nor tags is not staking. */
  lemma NoNameNoTags(item: Item)
    requires item.name.None? && item.detailTypes.None?
    ensures !IsStaking(item)
  {
    assert !Contains("", StakedTag);
  }

  /** A name with no 'k' or 'K' cannot contain "staked" once lower-cased. */
  lemma WithoutKNoStaked(name: string)
    requires forall i :: 0 <= i < |name| ==> name[i] != 'k' && name[i] != 'K'
    ensures !Contains(Lower(name), StakedTag)
  {
    assert StakedTag[3] == 'k';
    MissingCharNotContained(Lower(name), StakedTag, 'k');
  }

  /** One Lido protocol with one staked item holding 2.5 stETH at 3000: one
      record, worth 7500, in both lists. */
  lemma LidoScenario()
    ensures Extract([Protocol(Some("Lido"), Some([Item(Some("Staked ETH"), Some(["staked"]),
                      Some(Detail(Some([Token(Some("stETH"), Some(2.5), Some(3000.0))]))))]))])
         == Extraction([Position("Lido", "Staked ETH", Some("stETH"), 2.5, 7500.0)],
                       [Position("Lido", "Staked ETH", Some("stETH"), 2.5, 7500.0)])
  {
    var token := Token(Some("stETH"), Some(2.5), Some(3000.0));
    var item := Item(Some("Staked ETH"), Some(["staked"]), Some(Detail(Some([token]))));
    var p := Protocol(Some("Lido"), Some([item]));
    SingleProtocolSites(p);
    SingleItemSites("Lido", item);
    assert LowerAll(["staked"])[0] == Lower(StakedTag);
    assert Lower(StakedTag) == StakedTag;
    assert IsStaking(item);
    var site := Site("Lido", item, token);
    assert Sites([p]) == [site];
    assert StakingSites([site]) == [site];
  }

  /** An amount without a price is worth 0, not the amount; a missing amount is 0;
      absent protocol and item names give the placeholders. */
  lemma DefaultsScenario()
    ensures Extract([Protocol(None, Some([Item(None, None,
                      Some(Detail(Some([Token(None, Some(10.0), None), Token(Some("X"), None, Some(4.0))]))))]))])
         == Extraction([], [Position("Unknown Protocol", "Other", None, 10.0, 0.0),
                            Position("Unknown Protocol", "Other", Some("X"), 0.0, 0.0)])
  {
    var t1, t2 := Token(None, Some(10.0), None), Token(Some("X"), None, Some(4.0));
    var item := Item(None, None, Some(Detail(Some([t1, t2]))));
    var p := Protocol(None, Some([item]));
    SingleProtocolSites(p);
    SingleItemSites(UnknownProtocol, item);
    assert !Contains("", StakedTag);
    assert !IsStaking(item);
    var s1, s2 := Site(UnknownProtocol, item, t1), Site(UnknownProtocol, item, t2);
    assert Sites([p]) == [s1, s2];
    assert StakingSites([s1, s2]) == [] by {
      assert [s1, s2][1..] == [s2];
      assert StakingSites([s2]) == [] by { assert [s2][1..] == []; }
    }
  }
}
