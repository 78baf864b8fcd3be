/** The wardrobe list of apps/wardrobe-app/WardrobeApp.tsx: the in-memory `clothing` state, its
    app-scoped `clothing` entry, the add/edit/delete/mark-worn handlers and the filtered, sorted view. */
module WardrobeApp {
  import opened Wrappers
  import opened WardrobeTypes
  import Text
  import Collections

  /** The three orders the list can be shown in. */
  datatype SortMode = ByName | ByWornCount | ByLastWorn

  /** The time of the last `wornAt` entry, or 0 for a piece never worn. `timeOf` stands for
      `new Date(s).getTime()`. */
  function LastWornTime(c: ClothingPiece, timeOf: string -> int): (t: int)
    ensures |c.wornAt| == 0 ==> t == 0
    ensures |c.wornAt| > 0 ==> t == timeOf(c.wornAt[|c.wornAt| - 1])
  {
    if |c.wornAt| > 0 then timeOf(c.wornAt[|c.wornAt| - 1]) else 0
  }

  /** `le(a, b)` when the comparator of the mode puts `a` no later than `b`. */
  function Precedes(mode: SortMode, timeOf: string -> int): (ClothingPiece, ClothingPiece) -> bool
  {
    match mode
    case ByName => (a: ClothingPiece, b: ClothingPiece) => Text.StrLe(a.name, b.name)
    case ByWornCount => (a: ClothingPiece, b: ClothingPiece) => |a.wornAt| >= |b.wornAt|
    case ByLastWorn => (a: ClothingPiece, b: ClothingPiece) => LastWornTime(a, timeOf) >= LastWornTime(b, timeOf)
  }

  /** Every comparator orders the pieces consistently, so the sort is well defined. */
  lemma PrecedesIsPreorder(mode: SortMode, timeOf: string -> int)
    ensures Collections.TotalPreorder(Precedes(mode, timeOf))
  {
    var le := Precedes(mode, timeOf);
    if mode == ByName {
      forall a, b ensures le(a, b) || le(b, a) {
        Text.StrLeTotal(a.name, b.name);
      }
      forall a, b, c | le(a, b) && le(b, c) ensures le(a, c) {
        Text.StrLeTransitive(a.name, b.name, c.name);
      }
    }
  }

  /** The filter: the weather must be among the piece's weathers and the type must match, each only
      when that filter is set. */
  predicate PassesFilters(c: ClothingPiece, filterWeather: Option<WeatherType>, filterType: Option<ClothingType>)
  {
    && (filterWeather.Some? ==> filterWeather.value in c.weather)
    && (filterType.Some? ==> c.clothingType == filterType.value)
  }

  /** `filteredClothing`: the pieces that pass the filters, sorted by the chosen mode. */
  function FilteredClothing(clothing: seq<ClothingPiece>, filterWeather: Option<WeatherType>,
                            filterType: Option<ClothingType>, mode: SortMode, timeOf: string -> int)
    : (r: seq<ClothingPiece>)
    ensures forall c :: c in r <==> c in clothing && PassesFilters(c, filterWeather, filterType)
    ensures multiset(r) == multiset(Collections.Filter(clothing, c => PassesFilters(c, filterWeather, filterType)))
    ensures Collections.SortedBy(r, Precedes(mode, timeOf))
    ensures forall p :: (Collections.Filter(r, Collections.Tied(Precedes(mode, timeOf), p))
      == Collections.Filter(Collections.Filter(clothing, c => PassesFilters(c, filterWeather, filterType)),
                            Collections.Tied(Precedes(mode, timeOf), p)))
  {
    PrecedesIsPreorder(mode, timeOf);
    var kept := Collections.Filter(clothing, c => PassesFilters(c, filterWeather, filterType));
    Collections.SortByStable(kept, Precedes(mode, timeOf));
    var r := Collections.SortBy(kept, Precedes(mode, timeOf));
    assert forall c :: c in r <==> c in multiset(kept);
    r
  }

  /** With no filter set every piece is shown, each as often as it is stored. */
  lemma NoFiltersShowAll(clothing: seq<ClothingPiece>, mode: SortMode, timeOf: string -> int)
    ensures multiset(FilteredClothing(clothing, None, None, mode, timeOf)) == multiset(clothing)
  {
    Collections.FilterAll(clothing, c => PassesFilters(c, None, None));
  }

  /** Sorted by worn count, the counts never increase along the list. */
  lemma WornCountNonIncreasing(clothing: seq<ClothingPiece>, filterWeather: Option<WeatherType>,
                               filterType: Option<ClothingType>, timeOf: string -> int)
    ensures var r := FilteredClothing(clothing, filterWeather, filterType, ByWornCount, timeOf);
      forall i, j :: 0 <= i < j < |r| ==> |r[i].wornAt| >= |r[j].wornAt|
  {
  }

  /** Sorted by last worn, the last-worn times never increase, a piece never worn counting as 0. */
  lemma LastWornNonIncreasing(clothing: seq<ClothingPiece>, filterWeather: Option<WeatherType>,
                              filterType: Option<ClothingType>, timeOf: string -> int)
    ensures var r := FilteredClothing(clothing, filterWeather, filterType, ByLastWorn, timeOf);
      forall i, j :: 0 <= i < j < |r| ==> LastWornTime(r[i], timeOf) >= LastWornTime(r[j], timeOf)
  {
  }

  /** The new piece `handleAddClothing` builds: the draft with `Date.now().toString()` as its id. */
  function NewPiece(item: ClothingDraft, now: nat): (c: ClothingPiece)
    ensures c.id == Text.DecimalString(now)
    ensures c.name == item.name && c.weather == item.weather && c.image == item.image
    ensures c.wornAt == item.wornAt && c.clothingType == item.clothingType
  {
    ClothingPiece(Text.DecimalString(now), item.name, item.weather, item.image, item.wornAt, item.clothingType)
  }

  /** The piece an edit stores: the draft as it is; without an id it matches no stored piece. */
  function Edited(item: ClothingDraft, id: string): ClothingPiece
  {
    ClothingPiece(id, item.name, item.weather, item.image, item.wornAt, item.clothingType)
  }

  predicate IdMatches(c: ClothingPiece, id: Option<string>)
  {
    id.Some? && c.id == id.value
  }

  /** The wardrobe app's state: the list shown and the app's stored `clothing` entry. */
  class Wardrobe {
    var clothing: seq<ClothingPiece>
    var stored: Stored<seq<ClothingPiece>>

    constructor (stored: Stored<seq<ClothingPiece>>)
      ensures clothing == [] && this.stored == stored
    {
      clothing := [];
      this.stored := stored;
    }

    /** `loadClothing`: a decoded entry replaces the list; a missing or unparseable one leaves it. */
    method Load()
      modifies this
      ensures stored == old(stored)
      ensures old(stored).Decoded? ==> clothing == old(stored).value
      ensures !old(stored).Decoded? ==> clothing == old(clothing)
    {
      if stored.Decoded? {
        clothing := stored.value;
      }
    }

    /** `saveClothing`: the state and the stored entry both take the new list. */
    method Save(updated: seq<ClothingPiece>)
      modifies this
      ensures clothing == updated && stored == Decoded(updated)
    {
      clothing := updated;
      stored := Decoded(updated);
    }

    /** `handleAddClothing`: one new piece at the end, the others as they were. */
    method Add(item: ClothingDraft, now: nat)
      modifies this
      ensures clothing == old(clothing) + [NewPiece(item, now)]
      ensures stored == Decoded(clothing)
    {
      Save(clothing + [NewPiece(item, now)]);
    }

    /** `handleEditClothing`: every piece with the draft's id is replaced by it; the length, the order
        and every other piece stay. */
    method Edit(item: ClothingDraft)
      modifies this
      ensures |clothing| == |old(clothing)|
      ensures forall i :: 0 <= i < |clothing| ==>
        clothing[i] == if IdMatches(old(clothing)[i], item.id) then Edited(item, item.id.value) else old(clothing)[i]
      ensures item.id.None? ==> clothing == old(clothing)
      ensures stored == Decoded(clothing)
    {
      var replacement := Edited(item, item.id.GetOr(""));
      var updated := Collections.UpdateWhere(clothing, c => IdMatches(c, item.id), _ => replacement);
      if item.id.None? {
        Collections.UpdateWhereNone(clothing, c => IdMatches(c, item.id), _ => replacement);
      }
      Save(updated);
    }

    /** `handleDeleteClothing`: the pieces with the id go, the rest keep their order. */
    method Delete(id: string)
      modifies this
      ensures clothing == Collections.Filter(old(clothing), (c: ClothingPiece) => c.id != id)
      ensures forall c :: c in clothing <==> c in old(clothing) && c.id != id
      ensures Collections.Subsequence(clothing, old(clothing))
      ensures stored == Decoded(clothing)
    {
      Save(Collections.Filter(clothing, (c: ClothingPiece) => c.id != id));
    }

    /** `handleMarkWorn`: each piece with the id gets the current time appended to `wornAt`, with every
        other field and every other piece unchanged. */
    method MarkWorn(id: string, nowIso: string)
      modifies this
      ensures |clothing| == |old(clothing)|
      ensures forall i :: 0 <= i < |clothing| ==>
        if old(clothing)[i].id == id
        then clothing[i] == old(clothing)[i].(wornAt := old(clothing)[i].wornAt + [nowIso])
        else clothing[i] == old(clothing)[i]
      ensures stored == Decoded(clothing)
    {
      Save(Collections.UpdateWhere(clothing, (c: ClothingPiece) => c.id == id, (c: ClothingPiece) => c.(wornAt := c.wornAt + [nowIso])));
    }
  }

  /** A list saved by one mount of the app is the list the next mount loads. */
  method SaveThenReload(items: seq<ClothingPiece>, previous: Stored<seq<ClothingPiece>>)
    returns (loaded: seq<ClothingPiece>)
    ensures loaded == items
  {
    var first := new Wardrobe(previous);
    first.Load();
    first.Save(items);
    var second := new Wardrobe(first.stored);
    second.Load();
    loaded := second.clothing;
  }

  /** Marking a piece worn adds exactly one entry to its count and leaves the other counts alone. */
  lemma MarkWornCounts(clothing: seq<ClothingPiece>, id: string, nowIso: string, i: int)
    requires 0 <= i < |clothing|
    ensures var r := Collections.UpdateWhere(clothing, (c: ClothingPiece) => c.id == id, (c: ClothingPiece) => c.(wornAt := c.wornAt + [nowIso]));
      |r[i].wornAt| == |clothing[i].wornAt| + (if clothing[i].id == id then 1 else 0)
  {
  }
}
