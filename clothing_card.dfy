/** The wear statistics apps/wardrobe-app/ClothingCard.tsx shows for a piece. */
module ClothingCard {
  import opened Wrappers
  import opened WardrobeTypes
  import Text
  import Calendar

  /** `lastWorn`: the entry appended last, which need not be the latest time. */
  function LastWorn(c: ClothingPiece): (r: Option<string>)
    ensures r.None? <==> |c.wornAt| == 0
    ensures r.Some? ==> r.value == c.wornAt[|c.wornAt| - 1]
  {
    if |c.wornAt| > 0 then Some(c.wornAt[|c.wornAt| - 1]) else None
  }

  /** `daysSinceWorn`: whole days from the last entry to `now`, rounded down, none when never worn.
      `timeOf` stands for `getTime()` of the parsed entry. */
  function DaysSinceWorn(c: ClothingPiece, now: int, timeOf: string -> int): (r: Option<int>)
    ensures r.None? <==> |c.wornAt| == 0
    ensures r.Some? ==>
      var elapsed := now - timeOf(c.wornAt[|c.wornAt| - 1]);
      r.value * Calendar.DAY_MS <= elapsed < (r.value + 1) * Calendar.DAY_MS
  {
    match LastWorn(c)
    case None => None
    case Some(last) => Some((now - timeOf(last)) / Calendar.DAY_MS)
  }

  /** A piece worn less than a day ago shows zero days. */
  lemma DaysSinceWornSameDay(c: ClothingPiece, now: int, timeOf: string -> int)
    requires |c.wornAt| > 0
    requires 0 <= now - timeOf(c.wornAt[|c.wornAt| - 1]) < Calendar.DAY_MS
    ensures DaysSinceWorn(c, now, timeOf) == Some(0)
  {
  }

  /** A piece whose last wear is dated in the future shows a negative number of days. */
  lemma DaysSinceWornFuture(c: ClothingPiece, now: int, timeOf: string -> int)
    requires |c.wornAt| > 0 && timeOf(c.wornAt[|c.wornAt| - 1]) > now
    ensures DaysSinceWorn(c, now, timeOf).Some? && DaysSinceWorn(c, now, timeOf).value < 0
  {
  }

  /** The "Worn: n times" line. */
  function WornLabel(c: ClothingPiece): (line: string)
    ensures exists digits :: line == "Worn: " + digits + " times" && digits == Text.DecimalString(|c.wornAt|)
  {
    "Worn: " + Text.DecimalString(|c.wornAt|) + " times"
  }

  /** The number on the line reads back as the count of `wornAt` entries. */
  lemma WornLabelCount(c: ClothingPiece)
    ensures var line := WornLabel(c);
      var digits := line[6..|line| - 6];
      (forall i :: 0 <= i < |digits| ==> Text.IsDigit(digits[i])) && Text.DecimalValue(digits) == |c.wornAt|
  {
    var line := WornLabel(c);
    assert line[6..|line| - 6] == Text.DecimalString(|c.wornAt|);
    Text.DecimalRoundTrip(|c.wornAt|);
  }
}
