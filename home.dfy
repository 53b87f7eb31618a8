/** The list screen: loading the collection (failing open to `[]`), deleting
    a record by id, the All / Days Until / Days Since tabs, and the per-card
    day counter and picture. */
module Home {
  import opened JsMath
  import opened Seqs
  import opened Images
  import opened Records
  import opened MomentDetails

  datatype Tab = All | DaysUntil | DaysSince

  const FutureColour := "#00AEEF"
  const PastColour := "#F7931E"

  /** `dayjs(date).diff(now, 'day')`: whole days from `now` to `date`,
      truncated toward zero. */
  function DayDiff(date: int, now: int): (d: int)
    ensures d >= 0 <==> date > now - MsPerDay
  {
    TruncDiv(date - now, MsPerDay)
  }

  /** The filter callback of `getFilteredMoments` for a day difference. */
  predicate InTab(tab: Tab, diff: int) {
    match tab
    case All => true
    case DaysUntil => diff >= 0
    case DaysSince => diff < 0
  }

  /** That callback on records, with one `now` for the whole pass. */
  function TabTest(tab: Tab, now: int): Moment -> bool {
    (m: Moment) => InTab(tab, DayDiff(m.date, now))
  }

  /** `getFilteredMoments`: the collection itself on the All tab, otherwise
      the records whose day difference the tab accepts. */
  function FilteredMoments(ms: seq<Moment>, tab: Tab, now: int): seq<Moment> {
    if tab == All then ms else Filter(ms, TabTest(tab, now))
  }

  /** The All tab shows the collection itself, in the same order. */
  lemma AllTabIsIdentity(ms: seq<Moment>, now: int)
    ensures FilteredMoments(ms, All, now) == ms
  {
  }

  /** A tab shows exactly the records it classifies as its own. */
  lemma TabMembership(ms: seq<Moment>, tab: Tab, now: int, m: Moment)
    ensures m in FilteredMoments(ms, tab, now) <==> m in ms && InTab(tab, DayDiff(m.date, now))
  {
    if tab != All {
      FilterMembership(ms, TabTest(tab, now), m);
    }
  }

  /** A tab keeps its records in their original order. */
  lemma TabIsSubsequence(ms: seq<Moment>, tab: Tab, now: int)
    ensures IsSubsequence(FilteredMoments(ms, tab, now), ms)
  {
    if tab == All {
      SubsequenceReflexive(ms);
    } else {
      FilterIsSubsequence(ms, TabTest(tab, now));
    }
  }

  lemma {:induction false} SubsequenceReflexive(ms: seq<Moment>)
    ensures IsSubsequence(ms, ms)
  {
    if ms != [] {
      SubsequenceReflexive(ms[1..]);
    }
  }

  /** With one `now`, the Days Until and Days Since tabs share no record and,
      interleaved back in order, reproduce the collection exactly. */
  lemma UntilSincePartition(ms: seq<Moment>, now: int)
    ensures var until, since := FilteredMoments(ms, DaysUntil, now), FilteredMoments(ms, DaysSince, now);
      && Interleave(Flags(ms, TabTest(DaysUntil, now)), until, since) == ms
      && |until| + |since| == |ms|
      && forall m :: m in until ==> m !in since
  {
    FilterPartition(ms, TabTest(DaysUntil, now), TabTest(DaysSince, now));
    forall m | m in FilteredMoments(ms, DaysUntil, now)
      ensures m !in FilteredMoments(ms, DaysSince, now)
    {
      TabMembership(ms, DaysUntil, now, m);
      TabMembership(ms, DaysSince, now, m);
    }
  }

  /** What `loadMoments` puts on screen: the stored array, or `[]` when the
      key is absent, the value does not parse, or it is not an array. */
  function Loaded(slot: Stored): (ms: seq<Moment>)
    ensures slot.Arr? ==> ms == slot.items
    ensures !slot.Arr? ==> ms == []
  {
    match slot
    case Arr(items) => items
    case _ => []
  }

  function OtherId(id: string): Moment -> bool {
    (m: Moment) => m.id != id
  }

  /** `moments.filter(m => m.id !== id)`. */
  function RemoveId(ms: seq<Moment>, id: string): seq<Moment> {
    Filter(ms, OtherId(id))
  }

  /** Deleting removes every record with the id and keeps all others, in order. */
  lemma DeleteRemovesExactly(ms: seq<Moment>, id: string, m: Moment)
    ensures m in RemoveId(ms, id) <==> m in ms && m.id != id
    ensures IsSubsequence(RemoveId(ms, id), ms)
  {
    FilterMembership(ms, OtherId(id), m);
    FilterIsSubsequence(ms, OtherId(id));
  }

  /** Deleting an id no record has leaves the collection unchanged, so a
      second delete of the same id changes nothing. */
  lemma DeleteAbsentIsNoop(ms: seq<Moment>, id: string)
    requires id !in Ids(ms)
    ensures RemoveId(ms, id) == ms
  {
    assert forall i :: 0 <= i < |ms| ==> ms[i].id == Ids(ms)[i];
    FilterKeepsAll(ms, OtherId(id));
  }

  lemma DeleteIdempotent(ms: seq<Moment>, id: string)
    ensures RemoveId(RemoveId(ms, id), id) == RemoveId(ms, id)
  {
    FilterIdempotent(ms, OtherId(id));
  }

  /** With unique ids, deleting a present id removes exactly one record. */
  lemma {:induction false} DeleteRemovesOne(ms: seq<Moment>, id: string)
    requires UniqueIds(ms) && id in Ids(ms)
    ensures |RemoveId(ms, id)| == |ms| - 1
  {
    assert ms == [ms[0]] + ms[1..];
    assert Ids(ms) == [ms[0].id] + Ids(ms[1..]);
    if ms[0].id == id {
      assert id !in Ids(ms[1..]) by {
        forall i | 0 <= i < |ms| - 1 ensures Ids(ms[1..])[i] != id {
          assert ms[1..][i] == ms[i + 1];
        }
      }
      DeleteAbsentIsNoop(ms[1..], id);
    } else {
      assert UniqueIds(ms[1..]) by {
        forall i, j | 0 <= i < j < |ms| - 1 ensures ms[1..][i].id != ms[1..][j].id {
          assert ms[1..][i] == ms[i + 1] && ms[1..][j] == ms[j + 1];
        }
      }
      DeleteRemovesOne(ms[1..], id);
    }
  }

  /** One card of the list. */
  datatype Card = Card(counter: nat, badgeColour: string, image: ImageValue, route: DetailsParams)

  /** `renderMoment`: the day counter `Math.abs(diffDays)`, the badge colour
      chosen by `diffDays >= 0`, the resolved picture, and the route params
      for the detail screen. */
  function CardFor(item: Moment, now: int): Card {
    var diffDays := DayDiff(item.date, now);
    var imageSource := Resolve(Token(item.image));
    Card(if diffDays < 0 then -diffDays else diffDays,
         if diffDays >= 0 then FutureColour else PastColour,
         imageSource,
         DetailsParams(item, imageSource, item.image))
  }

  /** The counter is the number of whole days between the moment and now, and
      the badge shows the future colour exactly for records of the Days Until
      tab. */
  lemma CardCounter(item: Moment, now: int)
    ensures var c := CardFor(item, now); var gap := if item.date >= now then item.date - now else now - item.date;
      && c.counter * MsPerDay <= gap < (c.counter + 1) * MsPerDay
      && (c.badgeColour == FutureColour <==> InTab(DaysUntil, DayDiff(item.date, now)))
  {
    var a := item.date - now;
    if a < 0 {
      assert TruncDiv(a, MsPerDay) == -((-a) / MsPerDay);
    }
  }

  /** The list screen's state: the loaded collection and the active tab,
      over the shared storage entry. */
  class HomeScreen {
    var moments: seq<Moment>
    var activeTab: Tab
    const storage: Storage

    constructor (storage: Storage)
      ensures this.storage == storage && moments == [] && activeTab == All
    {
      this.storage := storage;
      moments := [];
      activeTab := All;
    }

    /** `loadMoments`, run whenever the screen gains focus; it never fails. */
    method LoadMoments()
      modifies this
      ensures moments == Loaded(storage.slot) && activeTab == old(activeTab)
    {
      moments := Loaded(storage.slot);
    }

    /** A tab button's `onPress`. */
    method SetActiveTab(tab: Tab)
      modifies this
      ensures activeTab == tab && moments == old(moments)
    {
      activeTab := tab;
    }

    /** `handleDeleteMoment(id)`: the shown collection loses the record, and
        the result is written back unless `setItem` fails, which is only logged. */
    method HandleDeleteMoment(id: string, writeSucceeds: bool)
      modifies this, storage
      ensures moments == RemoveId(old(moments), id) && activeTab == old(activeTab)
      ensures storage.slot == if writeSucceeds then Arr(moments) else old(storage.slot)
    {
      var updatedMoments := RemoveId(moments, id);
      moments := updatedMoments;
      if writeSucceeds {
        storage.SetItem(updatedMoments);
      }
    }

    /** What the list shows at instant `now`. */
    function Visible(now: int): (r: seq<Moment>)
      reads this
      ensures IsSubsequence(r, moments)
    {
      TabIsSubsequence(moments, activeTab, now);
      FilteredMoments(moments, activeTab, now)
    }
  }
}
