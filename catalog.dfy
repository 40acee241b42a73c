/** Views of the whole catalog: the distinct set names and rarities offered by the
    filter controls, and the grouping of the catalog into per-rarity buckets. */
module Catalog {
  import opened Cards
  import opened Sequences

  function SetNames(cards: seq<Card>): (r: seq<string>)
    ensures |r| == |cards| && forall i :: 0 <= i < |cards| ==> r[i] == cards[i].setName
  {
    seq(|cards|, i requires 0 <= i < |cards| => cards[i].setName)
  }

  function Rarities(cards: seq<Card>): (r: seq<string>)
    ensures |r| == |cards| && forall i :: 0 <= i < |cards| ==> r[i] == cards[i].rarity
  {
    seq(|cards|, i requires 0 <= i < |cards| => cards[i].rarity)
  }

  lemma RaritiesAppend(cards: seq<Card>, c: Card)
    ensures Rarities(cards + [c]) == Rarities(cards) + [c.rarity]
  {
  }

  /** `uniqueSets`: the set-filter options. */
  function UniqueSets(cards: seq<Card>): seq<string>
  {
    Distinct(SetNames(cards))
  }

  /** `uniqueRarities`: the rarity-filter options, whatever rarities occur. */
  function UniqueRarities(cards: seq<Card>): seq<string>
  {
    Distinct(Rarities(cards))
  }

  /** The set-filter options hold every set name of the catalog exactly once, and
      nothing else, in the order the names first occur. */
  lemma SetOptions(cards: seq<Card>)
    ensures NoDuplicates(UniqueSets(cards))
    ensures forall s :: s in UniqueSets(cards) <==> exists i :: 0 <= i < |cards| && cards[i].setName == s
    ensures forall i, j :: 0 <= i < j < |UniqueSets(cards)| ==>
              FirstIndex(SetNames(cards), UniqueSets(cards)[i])
                < FirstIndex(SetNames(cards), UniqueSets(cards)[j])
  {
    var names := SetNames(cards);
    DistinctOrder(names);
    forall s | s in UniqueSets(cards)
      ensures exists i :: 0 <= i < |cards| && cards[i].setName == s
    {
      var i := FirstIndex(names, s);
      assert cards[i].setName == s;
    }
    forall i | 0 <= i < |cards|
      ensures cards[i].setName in UniqueSets(cards)
    {
      assert names[i] == cards[i].setName;
    }
  }

  /** The rarity-filter options hold every rarity of the catalog exactly once, and
      nothing else, in the order the rarities first occur. */
  lemma RarityOptions(cards: seq<Card>)
    ensures NoDuplicates(UniqueRarities(cards))
    ensures forall r :: r in UniqueRarities(cards) <==> exists i :: 0 <= i < |cards| && cards[i].rarity == r
    ensures forall i, j :: 0 <= i < j < |UniqueRarities(cards)| ==>
              FirstIndex(Rarities(cards), UniqueRarities(cards)[i])
                < FirstIndex(Rarities(cards), UniqueRarities(cards)[j])
  {
    var rars := Rarities(cards);
    DistinctOrder(rars);
    forall r | r in UniqueRarities(cards)
      ensures exists i :: 0 <= i < |cards| && cards[i].rarity == r
    {
      var i := FirstIndex(rars, r);
      assert cards[i].rarity == r;
    }
    forall i | 0 <= i < |cards|
      ensures cards[i].rarity in UniqueRarities(cards)
    {
      assert rars[i] == cards[i].rarity;
    }
  }

  /** The bucket of one rarity: the cards of that rarity, in catalog order. */
  function CardsOfRarity(cards: seq<Card>, rarity: string): (r: seq<Card>)
    ensures |r| <= |cards|
    ensures forall c :: c in r ==> c.rarity == rarity
    ensures forall i :: 0 <= i < |cards| && cards[i].rarity == rarity ==> cards[i] in r
    ensures IsSubsequence(r, cards)
  {
    if cards == [] then []
    else
      var init, last := cards[..|cards| - 1], cards[|cards| - 1];
      var b := CardsOfRarity(init, rarity);
      assert cards == init + [last];
      SubsequenceExtend(b, init, last);
      if last.rarity == rarity then b + [last] else b
  }

  /** The bucket is the catalog filtered by rarity, so it keeps every copy of each
      card of that rarity and no copy of any other card. */
  lemma {:induction false} CardsOfRarityIsFilter(cards: seq<Card>, rarity: string)
    ensures CardsOfRarity(cards, rarity) == Keep(cards, (c: Card) => c.rarity == rarity)
    ensures forall c :: multiset(CardsOfRarity(cards, rarity))[c]
                        == if c.rarity == rarity then multiset(cards)[c] else 0
  {
    if cards != [] {
      CardsOfRarityIsFilter(cards[..|cards| - 1], rarity);
    }
  }

  lemma CardsOfRarityAppend(cards: seq<Card>, c: Card, rarity: string)
    ensures CardsOfRarity(cards + [c], rarity)
         == CardsOfRarity(cards, rarity) + (if c.rarity == rarity then [c] else [])
  {
    assert (cards + [c])[..|cards|] == cards;
  }

  /** A rarity that no card has gets an empty bucket. */
  lemma {:induction false} NoCardsOfAbsentRarity(cards: seq<Card>, r: string)
    requires r !in Rarities(cards)
    ensures CardsOfRarity(cards, r) == []
  {
    if cards != [] {
      var init := cards[..|cards| - 1];
      assert cards == init + [cards[|cards| - 1]];
      RaritiesAppend(init, cards[|cards| - 1]);
      NoCardsOfAbsentRarity(init, r);
    }
  }

  /** The grouping loop of the render body: walk the catalog once, creating the
      bucket of a rarity on its first card and appending each card to its bucket.
      The result has a bucket for exactly the occurring rarities, each holding the
      cards of that rarity in catalog order. */
  method GroupByRarity(cards: seq<Card>) returns (groups: map<string, seq<Card>>)
    ensures forall r :: r in groups <==> r in Rarities(cards)
    ensures forall r :: r in groups ==> groups[r] == CardsOfRarity(cards, r)
  {
    groups := map[];
    for i := 0 to |cards|
      invariant forall r :: r in groups <==> r in Rarities(cards[..i])
      invariant forall r :: r in groups ==> groups[r] == CardsOfRarity(cards[..i], r)
    {
      var card := cards[i];
      assert cards[..i + 1] == cards[..i] + [card];
      RaritiesAppend(cards[..i], card);
      forall r
        ensures CardsOfRarity(cards[..i + 1], r)
             == CardsOfRarity(cards[..i], r) + (if card.rarity == r then [card] else [])
      {
        CardsOfRarityAppend(cards[..i], card, r);
      }
      if card.rarity !in groups {
        NoCardsOfAbsentRarity(cards[..i], card.rarity);
        groups := groups[card.rarity := []];
      }
      groups := groups[card.rarity := groups[card.rarity] + [card]];
    }
    assert cards[..|cards|] == cards;
  }

  /** Every card lands in exactly the bucket of its own rarity. */
  lemma GroupingIsExact(cards: seq<Card>, i: nat, r: string)
    requires i < |cards|
    ensures cards[i] in CardsOfRarity(cards, cards[i].rarity)
    ensures cards[i] in CardsOfRarity(cards, r) ==> r == cards[i].rarity
  {
  }

  /** The sum of the bucket sizes of the rarities `ks`. */
  function BucketSizes(cards: seq<Card>, ks: seq<string>): nat
  {
    if ks == [] then 0
    else BucketSizes(cards, ks[..|ks| - 1]) + |CardsOfRarity(cards, ks[|ks| - 1])|
  }

  lemma {:induction false} BucketSizesAddCard(cards: seq<Card>, c: Card, ks: seq<string>)
    requires NoDuplicates(ks)
    ensures BucketSizes(cards + [c], ks) == BucketSizes(cards, ks) + (if c.rarity in ks then 1 else 0)
  {
    if ks != [] {
      var init, k := ks[..|ks| - 1], ks[|ks| - 1];
      assert ks == init + [k];
      assert NoDuplicates(init) && k !in init by {
        forall i | 0 <= i < |init| ensures init[i] == ks[i] { }
      }
      BucketSizesAddCard(cards, c, init);
      CardsOfRarityAppend(cards, c, k);
      assert c.rarity in ks <==> c.rarity in init || c.rarity == k;
    }
  }

  /** The buckets of the distinct rarities together hold the whole catalog. */
  lemma {:induction false} BucketSizesSumToCatalog(cards: seq<Card>)
    ensures BucketSizes(cards, UniqueRarities(cards)) == |cards|
  {
    if cards != [] {
      var init, c := cards[..|cards| - 1], cards[|cards| - 1];
      assert cards == init + [c];
      BucketSizesSumToCatalog(init);
      var d := UniqueRarities(init);
      RaritiesAppend(init, c);
      BucketSizesAddCard(init, c, d);
      if c.rarity !in d {
        assert UniqueRarities(cards) == d + [c.rarity];
        assert c.rarity !in Rarities(init);
        NoCardsOfAbsentRarity(init, c.rarity);
        assert (d + [c.rarity])[..|d|] == d;
      }
    }
  }
}
