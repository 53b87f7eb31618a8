/** The moment record, the persisted value under the `saved_moments` key and
    the storage cell that holds it. */
module Records {
  import opened Wrappers

  /** One moment as the add screen writes it. Instants (`date`, `time`) are
      milliseconds since the epoch; `image` is the stored token: a catalog id,
      a picked file URI, or `null`. */
  datatype Moment = Moment(
    id: string,
    title: string,
    date: int,
    time: int,
    note: string,
    textColor: string,
    image: Option<string>)

  /** What reading and parsing the `saved_moments` key yields: the key is
      absent (or holds the empty string), `JSON.parse` throws, the parsed value
      is not an array, or it is an array of moments. */
  datatype Stored = Absent | Malformed | NonArray | Arr(items: seq<Moment>)

  /** The ids of a collection, in order. */
  function Ids(ms: seq<Moment>): (r: seq<string>)
    ensures |r| == |ms| && forall i :: 0 <= i < |ms| ==> r[i] == ms[i].id
  {
    if ms == [] then [] else [ms[0].id] + Ids(ms[1..])
  }

  /** No two records of the collection share an id. */
  predicate UniqueIds(ms: seq<Moment>) {
    forall i, j :: 0 <= i < j < |ms| ==> ms[i].id != ms[j].id
  }

  /** The AsyncStorage entry under `saved_moments`. */
  class Storage {
    var slot: Stored

    constructor (initial: Stored)
      ensures slot == initial
    {
      slot := initial;
    }

    /** `AsyncStorage.setItem(STORAGE_KEY, JSON.stringify(ms))`: the whole
        collection replaces whatever was stored. */
    method SetItem(ms: seq<Moment>)
      modifies this
      ensures slot == Arr(ms)
    {
      slot := Arr(ms);
    }
  }
}
