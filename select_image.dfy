/** The image picker screen: a tile of the six bundled pictures, or a photo
    from the device gallery, handed back to the add screen through its
    `onSelectImage` callback before going back. */
module SelectImage {
  import opened Wrappers
  import opened Text
  import opened Images
  import opened AddMoment

  /** The picker's own `predefinedImages` array, one entry per tile. */
  const Tiles: seq<ImageSource> := [
    Bundled("placeholder_image.png"),
    Bundled("placeholder_image2.png"),
    Bundled("placeholder_image3.png"),
    Bundled("placeholder_image4.png"),
    Bundled("placeholder_image5.png"),
    Bundled("placeholder_image6.png")
  ]

  /** What a handler does, in order: call `onSelectImage`, or `navigation.goBack()`. */
  datatype Effect = OnSelectImage(image: SelectedImage) | GoBack

  /** One image-library asset and the library's response. */
  datatype PickedAsset = PickedAsset(uri: Option<string>)
  datatype PickerResponse = PickerResponse(assets: Option<seq<PickedAsset>>)

  /** The selection for tile `index`: id `predefined_{index + 1}` and the tile's picture. */
  function PredefinedChoice(index: nat): (img: SelectedImage)
    requires index < |Tiles|
    ensures img.Predefined? && img.source == Tiles[index]
    ensures img.id == PredefinedPrefix + Decimal(index + 1)
  {
    Predefined(PredefinedPrefix + Decimal(index + 1), Tiles[index])
  }

  /** `handleSelectPredefined(index)`; the list renders only the six tiles. */
  function HandleSelectPredefined(index: nat): seq<Effect>
    requires index < |Tiles|
  {
    [OnSelectImage(PredefinedChoice(index)), GoBack]
  }

  /** The URI `handleOpenGallery` accepts: the first asset's, when there is a
      first asset and its URI is a non-empty string. */
  function PickedUri(response: PickerResponse): (u: Option<string>)
    ensures u.Some? <==>
      response.assets.Some? && |response.assets.value| > 0
      && response.assets.value[0].uri.Some? && response.assets.value[0].uri.value != ""
    ensures u.Some? ==> u.value == response.assets.value[0].uri.value
  {
    match response.assets
    case None => None
    case Some(assets) =>
      if |assets| > 0 && assets[0].uri.Some? && assets[0].uri.value != "" then assets[0].uri else None
  }

  /** The image-library callback of `handleOpenGallery`. */
  function HandleGalleryResponse(response: PickerResponse): seq<Effect> {
    match PickedUri(response)
    case None => []
    case Some(uri) => [OnSelectImage(UriImage(uri)), GoBack]
  }

  /** A handler's effects are one `onSelectImage` call followed by going back. */
  predicate SelectsOnceThenGoesBack(effects: seq<Effect>) {
    |effects| == 2 && effects[0].OnSelectImage? && effects[1] == GoBack
  }

  /** Every tile's id is the catalog key of the same picture, so the add
      screen recognises it and the selection survives saving and editing. */
  lemma PredefinedChoiceIsCatalogEntry(index: nat)
    requires index < |Tiles|
    ensures PredefinedChoice(index).id in Catalog
    ensures Catalog[PredefinedChoice(index).id] == Tiles[index]
    ensures Recoverable(PredefinedChoice(index))
    ensures Decode(Encode(Some(PredefinedChoice(index)))) == Some(PredefinedChoice(index))
  {
    var k := index + 1;
    assert Decimal(k) == [DigitChar(k)];
    var img := PredefinedChoice(index);
    if index == 0 { assert img.id == "predefined_1"; }
    else if index == 1 { assert img.id == "predefined_2"; }
    else if index == 2 { assert img.id == "predefined_3"; }
    else if index == 3 { assert img.id == "predefined_4"; }
    else if index == 4 { assert img.id == "predefined_5"; }
    else { assert img.id == "predefined_6"; }
    DecodeEncode(img);
  }

  /** Different tiles emit different ids. */
  lemma PredefinedChoiceInjective(i: nat, j: nat)
    requires i < |Tiles| && j < |Tiles|
    ensures PredefinedChoice(i).id == PredefinedChoice(j).id <==> i == j
  {
    var p := PredefinedPrefix;
    if PredefinedChoice(i).id == PredefinedChoice(j).id {
      assert Decimal(i + 1) == PredefinedChoice(i).id[|p|..];
      assert Decimal(j + 1) == PredefinedChoice(j).id[|p|..];
      DecimalInjective(i + 1, j + 1);
    }
  }

  /** Choosing a tile selects exactly once and goes back. */
  lemma TileSelectsOnce(index: nat)
    requires index < |Tiles|
    ensures SelectsOnceThenGoesBack(HandleSelectPredefined(index))
    ensures HandleSelectPredefined(index)[0].image == PredefinedChoice(index)
  {
  }

  /** A gallery response selects exactly once and goes back when it carries a
      usable URI, handing over that URI; a cancelled or empty response does
      nothing at all, not even going back. */
  lemma GalleryGuard(response: PickerResponse)
    ensures PickedUri(response).Some? ==>
      SelectsOnceThenGoesBack(HandleGalleryResponse(response))
      && HandleGalleryResponse(response)[0].image == UriImage(PickedUri(response).value)
    ensures PickedUri(response).None? ==> HandleGalleryResponse(response) == []
  {
  }

  /** A picked photo is stored and decoded back as the same selection unless
      its URI coincides with a catalog id. */
  lemma GalleryChoiceRecoverable(response: PickerResponse)
    requires PickedUri(response).Some? && PickedUri(response).value !in Catalog
    ensures Recoverable(HandleGalleryResponse(response)[0].image)
  {
  }
}
