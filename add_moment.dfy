/** The add/edit screen: its form state, the image selection and how it is
    stored as a token, the validation guard, and `handleSave`, which reads the
    whole collection, appends or edits one record and writes it all back. */
module AddMoment {
  import opened Wrappers
  import opened Text
  import opened Images
  import opened Records

  const Yellow := "#F6D600"
  const Cyan := "#00F0FF"

  /** `SelectedImageType`: a catalog picture with its id and source, or a picked file. */
  datatype SelectedImage = Predefined(id: string, source: ImageSource) | UriImage(uri: string)

  /** The screen's form state, one component per `useState`. */
  datatype Form = Form(
    title: string,
    date: int,
    time: int,
    note: string,
    textColor: string,
    selectedImage: Option<SelectedImage>)

  /** The values `handleSave` writes into a record, besides its id. */
  datatype Fields = Fields(
    title: string,
    date: int,
    time: int,
    note: string,
    textColor: string,
    image: Option<string>)

  datatype SaveOutcome = ValidationError | SaveError | Saved

  /** The colour swatch's `onPress`: yellow becomes cyan, anything else becomes yellow. */
  function Toggled(c: string): (r: string)
    ensures r == Yellow || r == Cyan
    ensures r != c
  {
    if c == Yellow then Cyan else Yellow
  }

  /** Toggling twice restores exactly the two accent colours. */
  lemma ToggleTwice(c: string)
    ensures Toggled(Toggled(c)) == c <==> c == Yellow || c == Cyan
  {
  }

  /** How `handleSave` stores a selection: the catalog id, the file URI, or `null`. */
  function Encode(sel: Option<SelectedImage>): (t: Option<string>)
    ensures t.None? <==> sel.None?
    ensures sel.Some? && sel.value.Predefined? ==> t == Some(sel.value.id)
    ensures sel.Some? && sel.value.UriImage? ==> t == Some(sel.value.uri)
  {
    match sel
    case None => None
    case Some(Predefined(id, _)) => Some(id)
    case Some(UriImage(uri)) => Some(uri)
  }

  /** The initial selection built from a stored token: a falsy token gives no
      selection, a catalog key gives that catalog picture, and any other string
      is taken as a file URI. */
  function Decode(token: Option<string>): (sel: Option<SelectedImage>)
    ensures sel.None? <==> token.None? || token == Some("")
    ensures sel.Some? && sel.value.Predefined? ==> sel.value.id in Catalog && sel.value.source == Catalog[sel.value.id]
  {
    match token
    case None => None
    case Some(t) =>
      if t == "" then None
      else if t in Catalog then Some(Predefined(t, Catalog[t]))
      else Some(UriImage(t))
  }

  /** Decoding a stored token and encoding it again gives the token back; only
      the falsy empty string comes back as `null`. */
  lemma EncodeDecode(token: Option<string>)
    ensures Encode(Decode(token)) == (if token == Some("") then None else token)
  {
  }

  /** A selection survives being stored and decoded again exactly when it is
      a genuine catalog entry, or a non-empty URI that does not coincide with
      a catalog id. */
  predicate Recoverable(sel: SelectedImage) {
    match sel
    case Predefined(id, source) => id in Catalog && source == Catalog[id]
    case UriImage(uri) => uri != "" && uri !in Catalog
  }

  lemma DecodeEncode(sel: SelectedImage)
    ensures Decode(Encode(Some(sel))) == Some(sel) <==> Recoverable(sel)
  {
  }

  /** The preview's `renderImageSource`: the placeholder without a selection,
      the catalog source, or `{ uri }`. */
  function RenderSelected(sel: Option<SelectedImage>): (r: ImageSource)
    ensures sel.None? ==> r == Placeholder
    ensures sel.Some? && sel.value.Predefined? ==> r == sel.value.source
    ensures sel.Some? && sel.value.UriImage? ==> r == UriObject(sel.value.uri)
  {
    match sel
    case None => Placeholder
    case Some(Predefined(_, source)) => source
    case Some(UriImage(uri)) => UriObject(uri)
  }

  /** The edit screen previews a stored token as the list draws it, except for
      a `predefined_` string outside the catalog: the list draws nothing for
      it while the edit screen takes it for a file URI. */
  lemma {:induction false} PreviewMatchesList(token: Option<string>)
    ensures Resolve(Token(token)) == Src(RenderSelected(Decode(token)))
        <==> !(token.Some? && PredefinedPrefix <= token.value && token.value !in Catalog)
  {
    if token.Some? && token.value in Catalog {
      CatalogKeysArePrefixed(token.value);
    }
  }

  /** `isFormValid`: a title or a note with a non-whitespace character, or an image. */
  predicate IsFormValid(f: Form) {
    !IsBlank(f.title) || !IsBlank(f.note) || f.selectedImage.Some?
  }

  /** The validity test agrees with the screen's `title.trim() || note.trim() ||
      selectedImage`: a form is rejected exactly when both texts trim to the
      empty string and no image is selected. */
  lemma FormValidIffTrimmed(f: Form)
    ensures IsFormValid(f) <==> Trim(f.title) != "" || Trim(f.note) != "" || f.selectedImage.Some?
  {
  }

  /** The form the screen opens with: the fields of `momentData` when editing,
      otherwise an empty title and note, `now` for date and time, yellow text
      and no image. */
  function InitialForm(momentData: Option<Moment>, now: int): (f: Form)
    ensures momentData.None? ==> f == Form("", now, now, "", Yellow, None)
    ensures momentData.Some? ==> f.title == momentData.value.title && f.note == momentData.value.note
    ensures momentData.Some? ==> f.date == momentData.value.date && f.time == momentData.value.time
    ensures momentData.Some? && momentData.value.textColor != "" ==> f.textColor == momentData.value.textColor
    ensures momentData.Some? && momentData.value.textColor == "" ==> f.textColor == Yellow
    ensures momentData.Some? ==>
      Encode(f.selectedImage) == (if momentData.value.image == Some("") then None else momentData.value.image)
    ensures f.textColor != ""
  {
    match momentData
    case None => Form("", now, now, "", Yellow, None)
    case Some(m) =>
      Form(m.title, m.date, m.time, m.note,
           if m.textColor == "" then Yellow else m.textColor,
           Decode(m.image))
  }

  /** What `handleSave` writes: trimmed title and note and the encoded image. */
  function Payload(f: Form): (p: Fields)
    ensures p.title == Trim(f.title) && p.note == Trim(f.note)
    ensures p.image == Encode(f.selectedImage)
    ensures p.date == f.date && p.time == f.time && p.textColor == f.textColor
  {
    Fields(Trim(f.title), f.date, f.time, Trim(f.note), f.textColor, Encode(f.selectedImage))
  }

  /** The record the create path appends. */
  function NewMoment(id: string, p: Fields): Moment {
    Moment(id, p.title, p.date, p.time, p.note, p.textColor, p.image)
  }

  /** `{ ...m, title, date, time, note, textColor, image }`: every written
      field replaced, the id kept. */
  function Overwrite(m: Moment, p: Fields): (r: Moment)
    ensures r.id == m.id && r == NewMoment(m.id, p)
  {
    m.(title := p.title, date := p.date, time := p.time, note := p.note,
       textColor := p.textColor, image := p.image)
  }

  /** The edit path's callback `m => m.id === id ? { ...m, ... } : m`. */
  function Edited(m: Moment, id: string, p: Fields): (r: Moment)
    ensures r.id == m.id
    ensures m.id == id ==> r == Overwrite(m, p)
    ensures m.id != id ==> r == m
  {
    if m.id == id then Overwrite(m, p) else m
  }

  /** The edit path's `moments.map(...)`: records whose id matches are
      overwritten, every other record is left as it was, and the length and
      the ids do not change. */
  function ReplaceById(ms: seq<Moment>, id: string, p: Fields): (r: seq<Moment>)
    ensures |r| == |ms|
    ensures forall i :: 0 <= i < |ms| ==> r[i] == Edited(ms[i], id, p)
  {
    if ms == [] then []
    else
      var tail := ReplaceById(ms[1..], id, p);
      assert forall i :: 1 <= i < |ms| ==> ms[1..][i - 1] == ms[i];
      [Edited(ms[0], id, p)] + tail
  }

  /** Editing an id that no record has writes the collection back unchanged. */
  lemma EditUnknownIdIsNoop(ms: seq<Moment>, id: string, p: Fields)
    requires id !in Ids(ms)
    ensures ReplaceById(ms, id, p) == ms
  {
    assert forall i :: 0 <= i < |ms| ==> ms[i].id == Ids(ms)[i];
  }

  /** Saving the same edit twice is the same as saving it once. */
  lemma EditIdempotent(ms: seq<Moment>, id: string, p: Fields)
    ensures ReplaceById(ReplaceById(ms, id, p), id, p) == ReplaceById(ms, id, p)
  {
  }

  /** The collection `handleSave` reads before changing it: the parsed array,
      `[]` when the key is absent or the value is not an array, and nothing
      when `JSON.parse` throws. */
  function ExistingMoments(slot: Stored): (r: Option<seq<Moment>>)
    ensures r.None? <==> slot.Malformed?
    ensures slot.Arr? ==> r == Some(slot.items)
    ensures slot.Absent? || slot.NonArray? ==> r == Some([])
  {
    match slot
    case Absent => Some([])
    case Malformed => None
    case NonArray => Some([])
    case Arr(items) => Some(items)
  }

  /** The id of the record being edited: only when the screen was opened in
      edit mode with the record's data. */
  function EditTarget(editMode: bool, momentData: Option<Moment>): Option<string> {
    if editMode && momentData.Some? then Some(momentData.value.id) else None
  }

  /** The collection `handleSave` writes: the edited collection, or the read
      collection with one new record appended. */
  function AfterSave(base: seq<Moment>, target: Option<string>, newId: string, p: Fields): seq<Moment> {
    match target
    case Some(id) => ReplaceById(base, id, p)
    case None => base + [NewMoment(newId, p)]
  }

  /** Creating appends exactly one record, carrying the new id and the written
      fields, after the untouched earlier records. */
  lemma CreateAppendsOne(base: seq<Moment>, newId: string, p: Fields)
    ensures var r := AfterSave(base, None, newId, p);
      |r| == |base| + 1 && r[..|base|] == base && r[|base|] == NewMoment(newId, p)
  {
  }

  /** Ids stay unique through a create with a fresh id and through any edit. */
  lemma SaveKeepsIdsUnique(base: seq<Moment>, target: Option<string>, newId: string, p: Fields)
    requires UniqueIds(base)
    requires target.None? ==> newId !in Ids(base)
    ensures UniqueIds(AfterSave(base, target, newId, p))
  {
    var r := AfterSave(base, target, newId, p);
    if target.None? {
      forall i, j | 0 <= i < j < |r|
        ensures r[i].id != r[j].id
      {
        if j == |base| {
          assert base[i].id == Ids(base)[i];
        }
      }
    }
  }

  class AddMomentScreen {
    const editMode: bool
    const momentData: Option<Moment>
    var title: string
    var date: int
    var time: int
    var note: string
    var textColor: string
    var selectedImage: Option<SelectedImage>

    function CurrentForm(): Form
      reads this
    {
      Form(title, date, time, note, textColor, selectedImage)
    }

    /** Opening the screen with route params `{ editMode, momentData }` at instant `now`. */
    constructor (editMode: bool, momentData: Option<Moment>, now: int)
      ensures this.editMode == editMode && this.momentData == momentData
      ensures CurrentForm() == InitialForm(momentData, now)
    {
      this.editMode := editMode;
      this.momentData := momentData;
      var f := InitialForm(momentData, now);
      title, date, time, note, textColor, selectedImage :=
        f.title, f.date, f.time, f.note, f.textColor, f.selectedImage;
    }

    /** The title input's `onChangeText`. */
    method SetTitle(t: string)
      modifies this
      ensures CurrentForm() == old(CurrentForm()).(title := t)
    {
      title := t;
    }

    /** The note input's `onChangeText`. */
    method SetNote(t: string)
      modifies this
      ensures CurrentForm() == old(CurrentForm()).(note := t)
    {
      note := t;
    }

    /** A date confirmed in the date picker. */
    method SetDate(d: int)
      modifies this
      ensures CurrentForm() == old(CurrentForm()).(date := d)
    {
      date := d;
    }

    /** A time confirmed in the time picker. */
    method SetTime(t: int)
      modifies this
      ensures CurrentForm() == old(CurrentForm()).(time := t)
    {
      time := t;
    }

    /** The colour swatch's `onPress`. */
    method ToggleTextColor()
      modifies this
      ensures CurrentForm() == old(CurrentForm()).(textColor := Toggled(old(textColor)))
    {
      textColor := Toggled(textColor);
    }

    /** `handleSelectedImageChange`, called back by the image picker screen. */
    method HandleSelectedImageChange(img: SelectedImage)
      modifies this
      ensures CurrentForm() == old(CurrentForm()).(selectedImage := Some(img))
    {
      selectedImage := Some(img);
    }

    /** `handleSave`. An invalid form is rejected before storage is touched; a
        stored value that does not parse, or a failing write, raises a save
        error and leaves storage as it was; otherwise the edited or extended
        collection replaces the stored one. `newId` is `Date.now().toString()`
        and `writeSucceeds` is whether `setItem` resolves. */
    method HandleSave(storage: Storage, newId: string, writeSucceeds: bool) returns (outcome: SaveOutcome)
      modifies storage
      ensures unchanged(this)
      ensures outcome == ValidationError <==> !IsFormValid(old(CurrentForm()))
      ensures outcome == Saved <==>
        IsFormValid(old(CurrentForm())) && !old(storage.slot).Malformed? && writeSucceeds
      ensures outcome == Saved ==> storage.slot == Arr(AfterSave(
        ExistingMoments(old(storage.slot)).value, EditTarget(editMode, momentData), newId, Payload(old(CurrentForm()))))
      ensures outcome != Saved ==> storage.slot == old(storage.slot)
    {
      var form := CurrentForm();
      if !IsFormValid(form) {
        return ValidationError;
      }
      var fields := Payload(form);
      var existing := ExistingMoments(storage.slot);
      if existing.None? {
        return SaveError;
      }
      var moments := AfterSave(existing.value, EditTarget(editMode, momentData), newId, fields);
      if !writeSucceeds {
        return SaveError;
      }
      storage.SetItem(moments);
      outcome := Saved;
    }
  }
}
