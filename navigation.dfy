/** Properties of the flows between screens: a card opens the detail screen,
    whose Edit button opens the add screen on the same record, whose save the
    list then loads; and the day count shown on a card against the one shown
    on the detail screen. */
module Navigation {
  import opened Wrappers
  import opened Text
  import opened JsMath
  import opened Images
  import opened Records
  import opened AddMoment
  import opened MomentDetails
  import opened Home

  /** The detail screen hands the edit screen the very record the card was
      built from, original image token included. */
  lemma HandoffRestoresRecord(item: Moment, now: int)
    ensures EditHandoff(CardFor(item, now).route) == item
  {
  }

  /** The detail screen draws the card's picture, except that an unknown
      `predefined_` token, which the card draws as nothing, becomes the
      placeholder there. */
  lemma DetailsImageMatchesCard(item: Moment, now: int)
    ensures var c := CardFor(item, now);
      Resolve(c.route.image) == (if c.image == Nil then Src(Placeholder) else c.image)
  {
    ResolveTwice(Token(item.image));
  }

  /** A record as `handleSave` leaves it: trimmed title and note, a colour,
      and no empty-string image token. */
  predicate WrittenBySave(m: Moment) {
    m.title == Trim(m.title) && m.note == Trim(m.note) && m.textColor != "" && m.image != Some("")
  }

  /** Every record the create path writes from a form with a colour and a
      non-empty image token has that shape. */
  lemma SavedRecordIsNormal(newId: string, f: Form)
    requires f.textColor != "" && Encode(f.selectedImage) != Some("")
    ensures WrittenBySave(NewMoment(newId, Payload(f)))
  {
    TrimIdempotent(f.title);
    TrimIdempotent(f.note);
  }

  /** Opening a saved record from its card, pressing Edit and saving without
      changing anything writes back the collection it came from. */
  lemma ReopenAndSaveIsNoop(base: seq<Moment>, item: Moment, now: int, later: int, newId: string)
    requires UniqueIds(base) && item in base && WrittenBySave(item)
    ensures var momentData := EditHandoff(CardFor(item, now).route);
      AfterSave(base, EditTarget(true, Some(momentData)), newId, Payload(InitialForm(Some(momentData), later))) == base
  {
    var momentData := EditHandoff(CardFor(item, now).route);
    HandoffRestoresRecord(item, now);
    assert momentData == item;
    var p := Payload(InitialForm(Some(item), later));
    ReopenedPayload(item, later);
    forall i | 0 <= i < |base| && base[i].id == item.id
      ensures Overwrite(base[i], p) == base[i]
    {
      SameIdSameRecord(base, i, item);
    }
    EditFixpoint(base, item.id, p);
    assert EditTarget(true, Some(momentData)) == Some(item.id);
  }

  /** The edit screen opened on a saved record writes that record's own fields back. */
  lemma ReopenedPayload(item: Moment, later: int)
    requires WrittenBySave(item)
    ensures Overwrite(item, Payload(InitialForm(Some(item), later))) == item
  {
    var f := InitialForm(Some(item), later);
    assert f == Form(item.title, item.date, item.time, item.note, item.textColor, Decode(item.image));
    EncodeDecode(item.image);
    var p := Payload(f);
    assert p == Fields(item.title, item.date, item.time, item.note, item.textColor, item.image);
  }

  /** In a collection with unique ids, a member is the only record with its id. */
  lemma SameIdSameRecord(base: seq<Moment>, i: nat, item: Moment)
    requires UniqueIds(base) && item in base && i < |base| && base[i].id == item.id
    ensures base[i] == item
  {
    var k :| 0 <= k < |base| && base[k] == item;
  }

  /** An edit that rewrites every matching record to itself changes nothing. */
  lemma EditFixpoint(base: seq<Moment>, id: string, p: Fields)
    requires forall i :: 0 <= i < |base| && base[i].id == id ==> Overwrite(base[i], p) == base[i]
    ensures ReplaceById(base, id, p) == base
  {
  }

  /** Saving a new moment and loading the list shows the earlier records
      followed by exactly one new record with the written fields. */
  lemma CreateThenLoad(slot: Stored, newId: string, f: Form)
    requires !slot.Malformed?
    ensures var base := ExistingMoments(slot).value;
      Loaded(Arr(AfterSave(base, None, newId, Payload(f)))) == Loaded(slot) + [NewMoment(newId, Payload(f))]
  {
  }

  /** A card counts whole days truncated toward zero from `date - now`, the
      detail screen floors `now - date`: they agree for moments in the past,
      and for a future moment not a whole number of days away the detail
      screen shows one day more than the card, with a minus sign. */
  lemma {:induction false} CardAndDetailsDays(item: Moment, now: int)
    ensures var days := CalculateTime(now, item.date).days; var c: int := CardFor(item, now).counter;
      && (item.date <= now ==> days == c)
      && (item.date > now && (item.date - now) % MsPerDay == 0 ==> days == -c)
      && (item.date > now && (item.date - now) % MsPerDay != 0 ==> days == -c - 1)
  {
    var a := item.date - now;
    DetailsDays(now, item.date);
    var t := TruncDiv(a, MsPerDay);
    assert CardFor(item, now).counter == if t < 0 then -t else t;
    FloorOfNegation(a, MsPerDay);
  }

  /** The detail screen's day count is a single floor of `now - date`. */
  lemma DetailsDays(now: int, date: int)
    ensures CalculateTime(now, date).days == (now - date) / MsPerDay
  {
    NestedFloorsCollapse(now - date);
  }

  /** The detail screen's Delete hands the card's record id to
      `handleDeleteMoment`; with unique ids exactly that record disappears. */
  lemma DeleteFromDetails(ms: seq<Moment>, item: Moment, now: int)
    requires UniqueIds(ms) && item in ms
    ensures var rest := RemoveId(ms, CardFor(item, now).route.moment.id);
      item !in rest && |rest| == |ms| - 1
  {
    DeleteRemovesExactly(ms, item.id, item);
    var k :| 0 <= k < |ms| && ms[k] == item;
    assert Ids(ms)[k] == item.id;
    DeleteRemovesOne(ms, item.id);
  }
}
