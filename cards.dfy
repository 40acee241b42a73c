/** The card records the catalog holds, and the per-card image and face choices the
    grid and the detail view make from them. */
module Cards {
  import opened Wrappers
  import opened OwnershipMaps

  /** One printed side of a double-faced card. */
  datatype CardFace = CardFace(
    name: string,
    image: string,
    manaCost: Option<string>,
    typeLine: Option<string>,
    oracleText: Option<string>)

  /** A card as the catalog delivers it; `image` is `image_uris.normal`. */
  datatype Card = Card(
    id: string,
    name: string,
    setName: string,
    setCode: string,
    collectorNumber: string,
    rarity: string,
    layout: string,
    image: Option<string>,
    faces: Option<seq<CardFace>>,
    typeLine: Option<string>,
    manaCost: Option<string>,
    oracleText: Option<string>)

  /** JavaScript truthiness of an optional string: present and non-empty. */
  predicate IsTruthy(s: Option<string>)
  {
    s.Some? && s.value != ""
  }

  /** Which face the grid shows: the back face (index 1) exactly when the card is flipped. */
  function FaceIndex(flipped: map<string, bool>, id: string): (k: nat)
    ensures k == 1 <==> Truthy(flipped, id)
    ensures k <= 1
  {
    if Truthy(flipped, id) then 1 else 0
  }

  /** The image of face `k`, or the empty string when the card has no such face. */
  function FaceImage(faces: seq<CardFace>, k: nat): string
  {
    if k < |faces| then faces[k].image else ""
  }

  /** `getImageUrl`: the card's own image when it has one; otherwise the image of the
      face selected by the flip map, or the empty string when there is no such face. */
  function GetImageUrl(card: Card, flipped: map<string, bool>): (url: string)
    ensures || url == ""
            || (IsTruthy(card.image) && url == card.image.value)
            || (card.faces.Some? && exists i :: 0 <= i < |card.faces.value| && url == card.faces.value[i].image)
  {
    if IsTruthy(card.image) then card.image.value
    else if card.faces.Some? then FaceImage(card.faces.value, FaceIndex(flipped, card.id))
    else ""
  }

  /** A card-level image always wins, whatever the flip state. */
  lemma CardImageWins(card: Card, flipped: map<string, bool>)
    requires IsTruthy(card.image)
    ensures GetImageUrl(card, flipped) == card.image.value
  {
  }

  /** Without a card-level image, face 1 is shown exactly when the card is flipped and
      face 0 otherwise; a missing face, or no faces at all, gives the empty string. */
  lemma FaceSelection(card: Card, flipped: map<string, bool>)
    requires !IsTruthy(card.image)
    ensures card.faces.None? ==> GetImageUrl(card, flipped) == ""
    ensures card.faces.Some? ==>
      GetImageUrl(card, flipped) ==
        var k := if Truthy(flipped, card.id) then 1 else 0;
        if k < |card.faces.value| then card.faces.value[k].image else ""
  {
  }

  /** The flip button is shown for `transform` cards with exactly two faces. */
  predicate ShowFlipButton(card: Card)
  {
    card.layout == "transform" && card.faces.Some? && |card.faces.value| == 2
  }

  /** The flip button's caption: it offers the front face while the back face is
      shown, and the back face otherwise. */
  function FlipButtonLabel(flipped: map<string, bool>, id: string): string
  {
    if Truthy(flipped, id) then "Ver cara frontal" else "Ver cara trasera"
  }

  /** The flip button appears on `transform` cards with exactly two faces, and it
      keeps the promise of its caption: pressing it shows the front face (face 0)
      when the caption offers the front, and the back face (face 1) otherwise. */
  lemma FlipButtonKeepsPromise(card: Card, flipped: map<string, bool>)
    requires ShowFlipButton(card) && !IsTruthy(card.image)
    ensures |card.faces.value| == 2
    ensures FlipButtonLabel(flipped, card.id) in {"Ver cara frontal", "Ver cara trasera"}
    ensures FlipButtonLabel(flipped, card.id) == "Ver cara frontal" ==>
              GetImageUrl(card, Toggle(flipped, card.id)) == card.faces.value[0].image
    ensures FlipButtonLabel(flipped, card.id) == "Ver cara trasera" ==>
              GetImageUrl(card, Toggle(flipped, card.id)) == card.faces.value[1].image
  {
    FlipSwapsFace(card, flipped);
  }

  /** The detail view shows every face side by side for `transform` cards with faces,
      and the grid image otherwise. */
  function DetailImages(card: Card, flipped: map<string, bool>): seq<string>
  {
    if card.layout == "transform" && card.faces.Some? then
      seq(|card.faces.value|, i requires 0 <= i < |card.faces.value| => card.faces.value[i].image)
    else
      [GetImageUrl(card, flipped)]
  }

  /** Pressing the flip button of a two-faced card without a card-level image swaps
      the grid image between its two faces. */
  lemma FlipSwapsFace(card: Card, flipped: map<string, bool>)
    requires ShowFlipButton(card) && !IsTruthy(card.image)
    ensures var fs := card.faces.value;
            GetImageUrl(card, Toggle(flipped, card.id)) ==
              if Truthy(flipped, card.id) then fs[0].image else fs[1].image
    ensures var fs := card.faces.value;
            GetImageUrl(card, flipped) ==
              if Truthy(flipped, card.id) then fs[1].image else fs[0].image
  {
    ToggleFlipsOnlyItsKey(flipped, card.id, card.id);
  }

  /** Flipping one card changes no other card's grid image, and flipping it twice
      restores its own. */
  lemma FlipIsLocal(card: Card, flipped: map<string, bool>, id: string)
    ensures card.id != id ==> GetImageUrl(card, Toggle(flipped, id)) == GetImageUrl(card, flipped)
    ensures GetImageUrl(card, Toggle(Toggle(flipped, id), id)) == GetImageUrl(card, flipped)
  {
    ToggleFlipsOnlyItsKey(flipped, id, card.id);
    ToggleTwiceRestoresTruthiness(flipped, id);
  }

  /** The flip state never changes what the detail view shows for a card whose faces
      it lays out side by side. */
  lemma DetailIgnoresFlip(card: Card, f1: map<string, bool>, f2: map<string, bool>)
    requires card.layout == "transform" && card.faces.Some?
    ensures DetailImages(card, f1) == DetailImages(card, f2)
    ensures |DetailImages(card, f1)| == |card.faces.value|
  {
  }
}
