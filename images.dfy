/** Image references: the bundled catalog of six predefined illustrations and
    the resolver the list and detail screens use to turn a stored image value
    into something the `Image` component can draw. */
module Images {
  import opened Wrappers

  /** A drawable source: a bundled asset file (`require(...)`) or a `{ uri }` object. */
  datatype ImageSource = Bundled(file: string) | UriObject(uri: string)

  /** A JavaScript value in an image slot: `null` or `undefined`, a string
      token, or a source object that was already resolved. */
  datatype ImageValue = Nil | Str(text: string) | Src(source: ImageSource)

  /** JavaScript truthiness of an image value: the empty string is falsy. */
  predicate Truthy(v: ImageValue) {
    match v
    case Nil => false
    case Str(t) => t != ""
    case Src(_) => true
  }

  /** The default picture; the same file also backs `predefined_1`. */
  const Placeholder := Bundled("placeholder_image.png")

  const PredefinedPrefix := "predefined_"

  /** The `predefinedImages` object shared by the add, list and detail screens. */
  const Catalog: map<string, ImageSource> := map[
    "predefined_1" := Bundled("placeholder_image.png"),
    "predefined_2" := Bundled("placeholder_image2.png"),
    "predefined_3" := Bundled("placeholder_image3.png"),
    "predefined_4" := Bundled("placeholder_image4.png"),
    "predefined_5" := Bundled("placeholder_image5.png"),
    "predefined_6" := Bundled("placeholder_image6.png")
  ]

  /** A stored token (`string | null`) seen as an image value. */
  function Token(t: Option<string>): ImageValue {
    match t
    case None => Nil
    case Some(s) => Str(s)
  }

  /** `renderImageSource(image)` of the list and detail screens: falsy values
      give the placeholder, a string starting with `predefined_` is looked up
      in the catalog (`undefined` when it is not a key), any other string
      becomes `{ uri }`, and anything else is passed through. */
  function Resolve(v: ImageValue): (r: ImageValue)
    ensures !r.Str?
    ensures r == Nil <==> v.Str? && PredefinedPrefix <= v.text && v.text !in Catalog
    ensures !Truthy(v) ==> r == Src(Placeholder)
    ensures v.Str? && v.text in Catalog ==> r == Src(Catalog[v.text])
    ensures v.Str? && v.text != "" && !(PredefinedPrefix <= v.text) ==> r == Src(UriObject(v.text))
    ensures v.Src? ==> r == v
  {
    if !Truthy(v) then Src(Placeholder)
    else match v
      case Str(t) =>
        if PredefinedPrefix <= t then (if t in Catalog then Src(Catalog[t]) else Nil)
        else Src(UriObject(t))
      case _ => v
  }

  /** Every catalog key carries the `predefined_` prefix, so the prefix test
      never sends a catalog key down the `{ uri }` branch. */
  lemma CatalogKeysArePrefixed(k: string)
    requires k in Catalog
    ensures PredefinedPrefix <= k
  {
  }

  /** Resolving a second time changes nothing, except that an unknown
      `predefined_` token, which first resolves to `undefined`, then falls back
      to the placeholder. */
  lemma ResolveTwice(v: ImageValue)
    ensures Resolve(Resolve(v)) == (if Resolve(v) == Nil then Src(Placeholder) else Resolve(v))
  {
  }

  /** The three kinds of token resolve to three different sources. */
  lemma ThreeKindsDiffer()
    ensures Resolve(Nil) == Src(Placeholder)
    ensures Resolve(Str("predefined_3")) == Src(Bundled("placeholder_image3.png"))
    ensures Resolve(Str("file:///photo.jpg")) == Src(UriObject("file:///photo.jpg"))
  {
    assert !(PredefinedPrefix <= "file:///photo.jpg") by {
      assert "file:///photo.jpg"[0] != PredefinedPrefix[0];
    }
  }

  /** A `predefined_` string outside the catalog resolves to `undefined`, even
      when it was meant as a file name; a URI cannot be told apart from a
      catalog id by its shape alone. */
  lemma UnknownPredefinedIsUndefined()
    ensures Resolve(Str("predefined_9")) == Nil
    ensures Resolve(Str("predefined_photo.jpg")) == Nil
  {
    assert PredefinedPrefix <= "predefined_9";
    assert PredefinedPrefix <= "predefined_photo.jpg";
  }

  /** The catalog entry `predefined_1` and the placeholder are the same picture. */
  lemma FirstPredefinedIsPlaceholder()
    ensures Resolve(Str("predefined_1")) == Resolve(Nil)
  {
  }
}
