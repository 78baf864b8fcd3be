/** What apps/wardrobe-app/FitCard.tsx derives from a fit: the pieces it shows, the last-worn label and
    the item count. */
module FitCard {
  import opened Wrappers
  import opened WardrobeTypes
  import Text
  import Collections

  /** `clothing.find(c => c.id === id)`: the first piece with the id. */
  function Find(clothing: seq<ClothingPiece>, id: string): (r: Option<ClothingPiece>)
    ensures r.None? <==> forall c :: c in clothing ==> c.id != id
    ensures r.Some? ==> r.value in clothing && r.value.id == id
    ensures r.Some? ==> exists k :: FirstWithId(clothing, id, k) && clothing[k] == r.value
  {
    if clothing == [] then None
    else if clothing[0].id == id then Some(clothing[0])
    else
      var r := Find(clothing[1..], id);
      assert forall c :: c in clothing[1..] ==> c in clothing;
      if r.Some? then FindShift(clothing, id, r.value); r else r
  }

  lemma FindShift(clothing: seq<ClothingPiece>, id: string, c: ClothingPiece)
    requires clothing != [] && clothing[0].id != id
    requires exists k :: FirstWithId(clothing[1..], id, k) && clothing[1..][k] == c
    ensures exists k :: FirstWithId(clothing, id, k) && clothing[k] == c
  {
    var k :| FirstWithId(clothing[1..], id, k) && clothing[1..][k] == c;
    forall j | 0 <= j < k + 1 ensures clothing[j].id != id {
      if j > 0 { assert clothing[j] == clothing[1..][j - 1]; }
    }
    assert FirstWithId(clothing, id, k + 1);
  }

  /** `k` is the position of the first piece with the id. */
  predicate FirstWithId(clothing: seq<ClothingPiece>, id: string, k: int)
  {
    0 <= k < |clothing| && clothing[k].id == id && forall j :: 0 <= j < k ==> clothing[j].id != id
  }

  /** The ids of a sequence of pieces, in order. */
  function IdSeq(s: seq<ClothingPiece>): (ids: seq<string>)
    ensures |ids| == |s| && forall i :: 0 <= i < |s| ==> ids[i] == s[i].id
  {
    if s == [] then [] else [s[0].id] + IdSeq(s[1..])
  }

  /** The clothing ids of a sequence of positions, in order. */
  function PositionIdSeq(s: seq<FitClothingPosition>): (ids: seq<string>)
    ensures |ids| == |s| && forall i :: 0 <= i < |s| ==> ids[i] == s[i].clothingId
  {
    if s == [] then [] else [s[0].clothingId] + PositionIdSeq(s[1..])
  }

  /** `fitClothing`: each position resolved to its piece, positions whose piece is gone dropped. */
  function FitClothing(positions: seq<FitClothingPosition>, clothing: seq<ClothingPiece>)
    : (r: seq<ClothingPiece>)
    ensures |r| <= |positions|
    ensures forall c :: c in r ==> c in clothing
    ensures Collections.Subsequence(IdSeq(r), PositionIdSeq(positions))
    ensures forall p :: p in positions && Find(clothing, p.clothingId).Some? ==> Find(clothing, p.clothingId).value in r
    ensures (forall p :: p in positions ==> Find(clothing, p.clothingId).Some?) ==> |r| == |positions|
  {
    if positions == [] then []
    else
      var rest := FitClothing(positions[1..], clothing);
      assert forall p :: p in positions ==> p == positions[0] || p in positions[1..];
      assert PositionIdSeq(positions) == [positions[0].clothingId] + PositionIdSeq(positions[1..]);
      match Find(clothing, positions[0].clothingId)
      case Some(c) =>
        assert IdSeq([c] + rest) == [c.id] + IdSeq(rest);
        [c] + rest
      case None =>
        SubsequenceWeaken(IdSeq(rest), PositionIdSeq(positions[1..]), positions[0].clothingId);
        rest
  }

  lemma SubsequenceWeaken(r: seq<string>, s: seq<string>, x: string)
    requires Collections.Subsequence(r, s)
    ensures Collections.Subsequence(r, [x] + s)
  {
    assert ([x] + s)[1..] == s;
  }

  /** `lastWorn`: "Never" for a fit never worn; otherwise the formatted last entry. `dateLabel` stands for
      `new Date(s).toLocaleDateString()`. */
  function LastWornLabel(fit: Fit, dateLabel: string -> string): (text: string)
    ensures |fit.wornAt| == 0 ==> text == "Never"
    ensures |fit.wornAt| > 0 ==> text == dateLabel(fit.wornAt[|fit.wornAt| - 1])
  {
    if |fit.wornAt| > 0 then dateLabel(fit.wornAt[|fit.wornAt| - 1]) else "Never"
  }

  /** "n item" or "n items": the plural ending is left off exactly when the count is one. */
  function ItemLabel(count: nat): (text: string)
    ensures text == Text.DecimalString(count) + " item" + (if count == 1 then "" else "s")
    ensures text[|text| - 1] == 's' <==> count != 1
  {
    Text.DecimalString(count) + " item" + (if count != 1 then "s" else "")
  }
}
