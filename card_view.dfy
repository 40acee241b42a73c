/** The derived view the render body computes from the catalog and the filter state:
    for each rarity of a fixed order, its bucket sorted by collector number, filtered
    by the four filter controls, with its owned count; empty results are not shown. */
module CardView {
  import opened Wrappers
  import opened OwnershipMaps
  import opened Cards
  import opened Sequences
  import opened Catalog
  import opened CollectorSort
  import opened StableSort

  datatype OwnershipFilter = All | OwnedOnly | MissingOnly

  /** The filter controls: search text, ownership, and the selected rarity and set
      name, where the option value `"all"` selects everything. */
  datatype Filters = Filters(search: string, ownership: OwnershipFilter, rarity: string, setName: string)

  function LowerChar(c: char): char
  {
    if 'A' <= c <= 'Z' then (c as int - 'A' as int + 'a' as int) as char else c
  }

  /** `toLowerCase`, on ASCII letters. */
  function Lower(s: string): (r: string)
    ensures |r| == |s| && forall i :: 0 <= i < |s| ==> r[i] == LowerChar(s[i])
  {
    if s == [] then [] else [LowerChar(s[0])] + Lower(s[1..])
  }

  /** `hay.includes(needle)`: `needle` occurs in `hay` at some position. */
  predicate Includes(hay: string, needle: string)
    decreases |hay|
  {
    if needle <= hay then true
    else if hay == [] then false
    else Includes(hay[1..], needle)
  }

  /** `needle` sits in `hay` starting at index `i`. */
  predicate OccursAt(hay: string, needle: string, i: int)
  {
    0 <= i <= |hay| - |needle| && needle == hay[i..i + |needle|]
  }

  lemma {:induction false} IncludesIffOccurs(hay: string, needle: string)
    ensures Includes(hay, needle) <==> exists i :: OccursAt(hay, needle, i)
    decreases |hay|
  {
    if Includes(hay, needle) {
      IncludesHasOccurrence(hay, needle);
    }
    if exists i :: OccursAt(hay, needle, i) {
      var i :| OccursAt(hay, needle, i);
      OccurrenceIsIncluded(hay, needle, i);
    }
  }

  lemma {:induction false} IncludesHasOccurrence(hay: string, needle: string)
    requires Includes(hay, needle)
    ensures exists i :: OccursAt(hay, needle, i)
    decreases |hay|
  {
    if needle <= hay {
      assert OccursAt(hay, needle, 0);
    } else {
      IncludesHasOccurrence(hay[1..], needle);
      var i :| OccursAt(hay[1..], needle, i);
      assert hay[1..][i..i + |needle|] == hay[i + 1..i + 1 + |needle|];
      assert OccursAt(hay, needle, i + 1);
    }
  }

  lemma {:induction false} OccurrenceIsIncluded(hay: string, needle: string, i: int)
    requires OccursAt(hay, needle, i)
    ensures Includes(hay, needle)
    decreases |hay|
  {
    if !(needle <= hay) {
      assert i != 0;
      assert hay[i..i + |needle|] == hay[1..][i - 1..i - 1 + |needle|];
      OccurrenceIsIncluded(hay[1..], needle, i - 1);
    }
  }

  predicate NameMatches(card: Card, search: string)
  {
    Includes(Lower(card.name), Lower(search))
  }

  predicate OwnershipMatches(filter: OwnershipFilter, isOwned: bool)
  {
    || filter == All
    || (filter == OwnedOnly && isOwned)
    || (filter == MissingOnly && !isOwned)
  }

  predicate RarityMatches(card: Card, selected: string)
  {
    selected == "all" || card.rarity == selected
  }

  predicate SetMatches(card: Card, selected: string)
  {
    selected == "all" || card.setName == selected
  }

  /** The filter predicate: the conjunction of the four controls. */
  predicate Passes(card: Card, filters: Filters, owned: map<string, bool>)
  {
    && NameMatches(card, filters.search)
    && OwnershipMatches(filters.ownership, Truthy(owned, card.id))
    && RarityMatches(card, filters.rarity)
    && SetMatches(card, filters.setName)
  }

  /** `filteredGroup`: the cards of the sorted bucket that pass the filter, in order. */
  function FilterGroup(group: seq<Card>, filters: Filters, owned: map<string, bool>): (r: seq<Card>)
    ensures forall c :: c in r <==> c in group && Passes(c, filters, owned)
    ensures forall c :: multiset(r)[c] == if Passes(c, filters, owned) then multiset(group)[c] else 0
    ensures IsSubsequence(r, group)
  {
    Keep(group, c => Passes(c, filters, owned))
  }

  /** `ownedCount`: how many of the cards are owned. */
  function OwnedCount(cards: seq<Card>, owned: map<string, bool>): (n: nat)
    ensures n <= |cards|
    ensures (forall c :: c in cards ==> Truthy(owned, c.id)) ==> n == |cards|
    ensures (forall c :: c in cards ==> !Truthy(owned, c.id)) ==> n == 0
  {
    if cards == [] then 0
    else
      var init, last := cards[..|cards| - 1], cards[|cards| - 1];
      assert cards == init + [last];
      OwnedCount(init, owned) + (if Truthy(owned, last.id) then 1 else 0)
  }

  /** The count is additive over concatenation and a single card counts exactly when
      it is owned, so it is the number of positions holding an owned card. */
  lemma {:induction false} OwnedCountAdditive(a: seq<Card>, b: seq<Card>, owned: map<string, bool>)
    ensures OwnedCount(a + b, owned) == OwnedCount(a, owned) + OwnedCount(b, owned)
    ensures |b| == 1 ==> OwnedCount(b, owned) == if Truthy(owned, b[0].id) then 1 else 0
    decreases |b|
  {
    if b != [] {
      var init, last := b[..|b| - 1], b[|b| - 1];
      assert a + b == (a + init) + [last];
      assert (a + b)[..|a + b| - 1] == a + init;
      OwnedCountAdditive(a, init, owned);
    } else {
      assert a + b == a;
    }
  }

  /** Under the `owned` filter every shown card counts; under `missing` none does. */
  lemma OwnedCountUnderOwnershipFilter(group: seq<Card>, filters: Filters, owned: map<string, bool>)
    ensures filters.ownership == OwnedOnly ==>
              OwnedCount(FilterGroup(group, filters, owned), owned) == |FilterGroup(group, filters, owned)|
    ensures filters.ownership == MissingOnly ==>
              OwnedCount(FilterGroup(group, filters, owned), owned) == 0
  {
  }

  /** The rarities the grid shows, in the order it shows them. */
  const RarityOrder: seq<string> := ["common", "uncommon", "rare", "mythic", "special"]

  /** One rarity heading of the grid, with the cards under it and its owned count. */
  datatype Section = Section(rarity: string, cards: seq<Card>, ownedCount: nat)

  /** The section of one rarity: none when the catalog has no card of that rarity
      (its bucket is missing) or when nothing passes the filter. */
  function SectionOf(cards: seq<Card>, rarity: string, filters: Filters, owned: map<string, bool>): Option<Section>
  {
    if rarity !in Rarities(cards) then None
    else
      var shown := FilterGroup(SortBucket(CardsOfRarity(cards, rarity)), filters, owned);
      if shown == [] then None else Some(Section(rarity, shown, OwnedCount(shown, owned)))
  }

  /** The headings a section result contributes: its section, or nothing. */
  function Present(o: Option<Section>): seq<Section>
  {
    match o
    case Some(s) => [s]
    case None => []
  }

  /** The headings the grid shows for a list of rarities, each rarity mapped to its
      section (or to none) by `sectionOf`. */
  function Collect(rarities: seq<string>, sectionOf: string -> Option<Section>): seq<Section>
  {
    if rarities == [] then []
    else Collect(rarities[..|rarities| - 1], sectionOf) + Present(sectionOf(rarities[|rarities| - 1]))
  }

  /** The section of each rarity, for a given catalog and filter state. */
  function SectionFor(cards: seq<Card>, filters: Filters, owned: map<string, bool>): string -> Option<Section>
  {
    rarity => SectionOf(cards, rarity, filters, owned)
  }

  /** The whole grid. */
  function View(cards: seq<Card>, filters: Filters, owned: map<string, bool>): seq<Section>
  {
    Collect(RarityOrder, SectionFor(cards, filters, owned))
  }

  lemma CollectSnoc(rarities: seq<string>, rarity: string, sectionOf: string -> Option<Section>)
    ensures Collect(rarities + [rarity], sectionOf) == Collect(rarities, sectionOf) + Present(sectionOf(rarity))
  {
    assert (rarities + [rarity])[..|rarities|] == rarities;
  }

  /** One bucket of the render body: copied into an array, sorted in place and
      filtered. */
  method ShowBucket(group: seq<Card>, filters: Filters, owned: map<string, bool>) returns (shown: seq<Card>)
    ensures shown == FilterGroup(SortBucket(group), filters, owned)
  {
    var bucket := new Card[|group|](k requires 0 <= k < |group| => group[k]);
    assert bucket[..] == group;
    SortInPlace(bucket, CollectorKey);
    shown := FilterGroup(bucket[..], filters, owned);
  }

  /** The render body: group the catalog, then for each rarity in order sort and
      filter its bucket and count the owned cards, skipping missing and empty
      results. */
  method BuildView(cards: seq<Card>, filters: Filters, owned: map<string, bool>) returns (view: seq<Section>)
    ensures view == View(cards, filters, owned)
  {
    var groups := GroupByRarity(cards);
    var order := RarityOrder;
    ghost var sectionOf := SectionFor(cards, filters, owned);
    view := [];
    for i := 0 to |order|
      invariant view == Collect(order[..i], sectionOf)
    {
      var rarity := order[i];
      assert order[..i + 1] == order[..i] + [rarity];
      CollectSnoc(order[..i], rarity, sectionOf);
      assert sectionOf(rarity) == SectionOf(cards, rarity, filters, owned);
      if rarity in groups {
        var shown := ShowBucket(groups[rarity], filters, owned);
        if shown != [] {
          view := view + [Section(rarity, shown, OwnedCount(shown, owned))];
        }
      }
    }
    assert order[..|order|] == order;
  }

  /** The rarity headings of a view, top to bottom. */
  function Headings(view: seq<Section>): (hs: seq<string>)
    ensures |hs| == |view| && forall i :: 0 <= i < |view| ==> hs[i] == view[i].rarity
  {
    seq(|view|, i requires 0 <= i < |view| => view[i].rarity)
  }

  /** A card appears under some heading of the view. */
  predicate Shown(view: seq<Section>, c: Card)
  {
    exists s :: s in view && c in s.cards
  }

  /** A section function that heads each section with its own rarity, never
      returns an empty section and never counts more cards than it holds. */
  ghost predicate WellShaped(sectionOf: string -> Option<Section>)
  {
    forall r :: sectionOf(r).Some? ==>
      sectionOf(r).value.rarity == r && sectionOf(r).value.cards != []
      && sectionOf(r).value.ownedCount <= |sectionOf(r).value.cards|
  }

  lemma HeadingsSnoc(v: seq<Section>, sec: Section)
    ensures Headings(v + [sec]) == Headings(v) + [sec.rarity]
  {
  }

  /** With such a function, every section shown is the section of its own heading. */
  lemma {:induction false} CollectFromSections(rarities: seq<string>, sectionOf: string -> Option<Section>)
    requires WellShaped(sectionOf)
    ensures forall s :: s in Collect(rarities, sectionOf) ==> sectionOf(s.rarity) == Some(s)
  {
    if rarities != [] {
      var init, last := rarities[..|rarities| - 1], rarities[|rarities| - 1];
      CollectFromSections(init, sectionOf);
      CollectSnoc(init, last, sectionOf);
      assert rarities == init + [last];
    }
  }

  /** With such a function, the headings follow the order of the rarity list. */
  lemma {:induction false} CollectHeadings(rarities: seq<string>, sectionOf: string -> Option<Section>)
    requires WellShaped(sectionOf)
    ensures IsSubsequence(Headings(Collect(rarities, sectionOf)), rarities)
  {
    if rarities != [] {
      var init, last := rarities[..|rarities| - 1], rarities[|rarities| - 1];
      assert rarities == init + [last];
      CollectHeadings(init, sectionOf);
      var v := Collect(init, sectionOf);
      CollectSnoc(init, last, sectionOf);
      SubsequenceExtend(Headings(v), init, last);
      if sectionOf(last).Some? {
        var sec := sectionOf(last).value;
        assert Collect(rarities, sectionOf) == v + [sec];
        HeadingsSnoc(v, sec);
      } else {
        assert Collect(rarities, sectionOf) == v;
      }
    }
  }

  /** With such a function, every heading is non-empty with a count no larger than
      its card count. */
  lemma {:induction false} CollectSections(rarities: seq<string>, sectionOf: string -> Option<Section>)
    requires WellShaped(sectionOf)
    ensures forall s :: s in Collect(rarities, sectionOf) ==> s.cards != [] && s.ownedCount <= |s.cards|
  {
    if rarities != [] {
      var init, last := rarities[..|rarities| - 1], rarities[|rarities| - 1];
      CollectSections(init, sectionOf);
      CollectSnoc(init, last, sectionOf);
      assert rarities == init + [last];
    }
  }

  /** The section result holds the card. */
  predicate Holds(o: Option<Section>, c: Card)
  {
    o.Some? && c in o.value.cards
  }

  /** Some listed rarity's section holds the card. */
  ghost predicate HeldBySome(rarities: seq<string>, sectionOf: string -> Option<Section>, c: Card)
  {
    exists i :: 0 <= i < |rarities| && Holds(sectionOf(rarities[i]), c)
  }

  lemma ShownAppend(v: seq<Section>, w: seq<Section>, c: Card)
    ensures Shown(v + w, c) <==> Shown(v, c) || Shown(w, c)
  {
    if Shown(v + w, c) {
      var s :| s in v + w && c in s.cards;
      assert s in v || s in w;
    }
    if Shown(v, c) {
      var s :| s in v && c in s.cards;
      assert s in v + w;
    }
    if Shown(w, c) {
      var s :| s in w && c in s.cards;
      assert s in v + w;
    }
  }

  lemma ShownPresent(o: Option<Section>, c: Card)
    ensures Shown(Present(o), c) <==> Holds(o, c)
  {
    if o.Some? {
      assert o.value in Present(o);
    }
  }

  lemma HeldBySnoc(rarities: seq<string>, rarity: string, sectionOf: string -> Option<Section>, c: Card)
    ensures HeldBySome(rarities + [rarity], sectionOf, c) <==>
              HeldBySome(rarities, sectionOf, c) || Holds(sectionOf(rarity), c)
  {
    var all := rarities + [rarity];
    if HeldBySome(all, sectionOf, c) {
      var i :| 0 <= i < |all| && Holds(sectionOf(all[i]), c);
      if i < |rarities| {
        assert all[i] == rarities[i];
      }
    }
    if HeldBySome(rarities, sectionOf, c) {
      var i :| 0 <= i < |rarities| && Holds(sectionOf(rarities[i]), c);
      assert all[i] == rarities[i];
    }
    if Holds(sectionOf(rarity), c) {
      assert all[|rarities|] == rarity;
    }
  }

  /** A card is under some heading exactly when some listed rarity's section holds it. */
  lemma {:induction false} CollectShows(rarities: seq<string>, sectionOf: string -> Option<Section>, c: Card)
    ensures Shown(Collect(rarities, sectionOf), c) <==> HeldBySome(rarities, sectionOf, c)
  {
    if rarities != [] {
      var init, last := rarities[..|rarities| - 1], rarities[|rarities| - 1];
      assert rarities == init + [last];
      CollectShows(init, sectionOf, c);
      CollectSnoc(init, last, sectionOf);
      ShownAppend(Collect(init, sectionOf), Present(sectionOf(last)), c);
      ShownPresent(sectionOf(last), c);
      HeldBySnoc(init, last, sectionOf, c);
    }
  }

  /** The section of one rarity holds exactly the catalog's cards of that rarity
      that pass the filter; it exists only when there is one, and its count is
      at most its length. */
  lemma SectionOfContents(cards: seq<Card>, rarity: string, filters: Filters, owned: map<string, bool>, c: Card)
    ensures (SectionOf(cards, rarity, filters, owned).Some? && c in SectionOf(cards, rarity, filters, owned).value.cards)
            <==> (c in cards && c.rarity == rarity && Passes(c, filters, owned))
  {
    if rarity in Rarities(cards) {
      var bucket := CardsOfRarity(cards, rarity);
      SortBucketProperties(bucket);
      SubsequenceElements(bucket, cards);
      assert c in SortBucket(bucket) <==> c in multiset(SortBucket(bucket));
      if c in cards && c.rarity == rarity {
        var i :| 0 <= i < |cards| && cards[i] == c;
        assert c in bucket;
      }
    }
  }

  lemma SectionOfShape(cards: seq<Card>, rarity: string, filters: Filters, owned: map<string, bool>)
    ensures SectionOf(cards, rarity, filters, owned).Some? ==>
              var s := SectionOf(cards, rarity, filters, owned).value;
              s.rarity == rarity && s.cards != [] && s.ownedCount <= |s.cards|
  {
  }

  /** The grid: each rarity of the fixed order at most once and in that order,
      every heading non-empty with an owned count no larger than its card count,
      and a card under some heading iff it is in the catalog, has one of the
      five rarities and passes the filter. A card of any other rarity is never
      shown. */
  lemma ViewProperties(cards: seq<Card>, filters: Filters, owned: map<string, bool>, c: Card)
    ensures IsSubsequence(Headings(View(cards, filters, owned)), RarityOrder)
    ensures forall s :: s in View(cards, filters, owned) ==> s.cards != [] && s.ownedCount <= |s.cards|
    ensures Shown(View(cards, filters, owned), c) <==>
              c in cards && c.rarity in RarityOrder && Passes(c, filters, owned)
    ensures forall s :: s in View(cards, filters, owned) ==> SectionOf(cards, s.rarity, filters, owned) == Some(s)
  {
    var sectionOf := SectionFor(cards, filters, owned);
    forall r
      ensures sectionOf(r) == SectionOf(cards, r, filters, owned)
      ensures sectionOf(r).Some? ==>
        sectionOf(r).value.rarity == r && sectionOf(r).value.cards != []
        && sectionOf(r).value.ownedCount <= |sectionOf(r).value.cards|
    {
      SectionOfShape(cards, r, filters, owned);
    }
    CollectHeadings(RarityOrder, sectionOf);
    CollectFromSections(RarityOrder, sectionOf);
    CollectSections(RarityOrder, sectionOf);
    CollectShows(RarityOrder, sectionOf, c);
    if c in cards && c.rarity in RarityOrder && Passes(c, filters, owned) {
      var i :| 0 <= i < |RarityOrder| && RarityOrder[i] == c.rarity;
      SectionOfContents(cards, RarityOrder[i], filters, owned, c);
    }
    if Shown(View(cards, filters, owned), c) {
      var i :| 0 <= i < |RarityOrder| && Holds(sectionOf(RarityOrder[i]), c);
      SectionOfContents(cards, RarityOrder[i], filters, owned, c);
    }
  }

  /** A single-card catalog whose card passes the filter has that card's section. */
  lemma SingleCardSection(c: Card, filters: Filters, owned: map<string, bool>)
    requires Passes(c, filters, owned)
    ensures SectionOf([c], c.rarity, filters, owned) == Some(Section(c.rarity, [c], if Truthy(owned, c.id) then 1 else 0))
  {
    assert Rarities([c]) == [c.rarity];
    assert CardsOfRarity([c], c.rarity) == [c];
    assert SortByKey([c][..0], CollectorKey) == [];
    assert SortByKey([c], CollectorKey) == Insert([], c, CollectorKey);
    assert SortBucket([c]) == [c];
    assert FilterGroup([c], filters, owned) == [c];
    assert OwnedCount([c], owned) == (if Truthy(owned, c.id) then 1 else 0);
  }

  /** A single-card catalog has no section for any other rarity. */
  lemma SingleCardOtherRarity(c: Card, rarity: string, filters: Filters, owned: map<string, bool>)
    requires rarity != c.rarity
    ensures SectionOf([c], rarity, filters, owned) == None
  {
    assert Rarities([c]) == [c.rarity];
  }

  /** When only one rarity has a section, a list without that rarity shows nothing. */
  lemma {:induction false} CollectWithout(rarities: seq<string>, rarity: string, sectionOf: string -> Option<Section>)
    requires rarity !in rarities
    requires forall r :: r != rarity ==> sectionOf(r) == None
    ensures Collect(rarities, sectionOf) == []
  {
    if rarities != [] {
      var init, last := rarities[..|rarities| - 1], rarities[|rarities| - 1];
      assert rarities == init + [last];
      CollectWithout(init, rarity, sectionOf);
    }
  }

  /** When only one rarity has a section, a list holding it once shows that section
      alone. */
  lemma {:induction false} CollectOnly(rarities: seq<string>, rarity: string, sectionOf: string -> Option<Section>)
    requires rarity in rarities && NoDuplicates(rarities)
    requires forall r :: r != rarity ==> sectionOf(r) == None
    ensures Collect(rarities, sectionOf) == Present(sectionOf(rarity))
  {
    var init, last := rarities[..|rarities| - 1], rarities[|rarities| - 1];
    assert rarities == init + [last];
    if last == rarity {
      assert rarity !in init;
      CollectWithout(init, rarity, sectionOf);
    } else {
      CollectOnly(init, rarity, sectionOf);
    }
  }

  lemma RarityOrderIsDistinct()
    ensures NoDuplicates(RarityOrder)
  {
  }

  /** A catalog of a single card that passes the filter and has one of the five
      rarities shows one heading, its rarity, with that card and a count of 1 or
      0 as it is owned or not. */
  lemma SingleCardView(c: Card, filters: Filters, owned: map<string, bool>)
    requires c.rarity in RarityOrder && Passes(c, filters, owned)
    ensures View([c], filters, owned) == [Section(c.rarity, [c], if Truthy(owned, c.id) then 1 else 0)]
  {
    var sectionOf := SectionFor([c], filters, owned);
    SingleCardSection(c, filters, owned);
    forall r | r != c.rarity
      ensures sectionOf(r) == None
    {
      SingleCardOtherRarity(c, r, filters, owned);
    }
    RarityOrderIsDistinct();
    CollectOnly(RarityOrder, c.rarity, sectionOf);
  }

  const Cloud: Card := Card("cloud-id", "Cloud", "Final Fantasy", "fin", "015", "mythic", "normal",
                            None, None, None, None, None)

  /** A case-insensitive search for "clo" finds "Cloud". */
  lemma SearchFindsCloud()
    ensures NameMatches(Cloud, "clo")
  {
    assert Lower("Cloud") == "cloud";
    assert Lower("clo") == "clo";
    assert "clo" <= "cloud";
  }

  /** A single mythic card found by its search text: unowned it shows under
      "mythic" with a count of 0 of 1; after its checkbox is toggled, the stored
      map holds it as owned and the count is 1 of 1. */
  lemma OwnershipScenario()
    ensures View([Cloud], Filters("clo", All, "all", "all"), map[]) == [Section("mythic", [Cloud], 0)]
    ensures Toggle(map[], Cloud.id) == map[Cloud.id := true]
    ensures View([Cloud], Filters("clo", All, "all", "all"), Toggle(map[], Cloud.id)) == [Section("mythic", [Cloud], 1)]
  {
    var f := Filters("clo", All, "all", "all");
    SearchFindsCloud();
    SingleCardView(Cloud, f, map[]);
    SingleCardView(Cloud, f, Toggle(map[], Cloud.id));
  }
}
