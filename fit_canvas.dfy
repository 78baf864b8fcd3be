/** The position bookkeeping of apps/wardrobe-app/FitCanvas.tsx: reconciling positions with the
    selection, the drag and transform updates, the selected node, and the resize bound. */
module FitCanvas {
  import opened Wrappers
  import opened WardrobeTypes
  import Collections

  const DEFAULT_SIZE: real := 150.0
  const MIN_SIZE: real := 5.0

  /** The natural size of a loaded image. */
  datatype ImageSize = ImageSize(width: nat, height: nat)

  function Min(a: real, b: real): real { if a <= b then a else b }
  function Max(a: real, b: real): real { if a >= b then a else b }

  /** `n || 1` on an image dimension. */
  function OrOne(n: nat): (r: real)
    ensures r > 0.0
    ensures n != 0 ==> r == n as real
  {
    if n == 0 then 1.0 else n as real
  }

  /** The position given to the piece at `index` of the selection when it first appears. */
  function DefaultPosition(item: ClothingPiece, index: nat, images: map<string, ImageSize>)
    : (p: FitClothingPosition)
    ensures p.clothingId == item.id
    ensures p.x == p.y == 50.0 + 20.0 * index as real && p.rotation == 0.0
    ensures item.id !in images ==> p.width == DEFAULT_SIZE && p.height == DEFAULT_SIZE
    ensures item.id in images ==>
      && p.width == Min(DEFAULT_SIZE, images[item.id].width as real)
      && p.height == (p.width / OrOne(images[item.id].width)) * OrOne(images[item.id].height)
  {
    var offset := 50.0 + 20.0 * index as real;
    if item.id in images then
      var img := images[item.id];
      var width := Min(DEFAULT_SIZE, img.width as real);
      FitClothingPosition(item.id, offset, offset, width, (width / OrOne(img.width)) * OrOne(img.height), 0.0)
    else
      FitClothingPosition(item.id, offset, offset, DEFAULT_SIZE, DEFAULT_SIZE, 0.0)
  }

  /** The positions the `forEach` pushes: one default for every selected piece, at its index, whose id
      had no position. */
  function Additions(selected: seq<ClothingPiece>, existing: set<string>, images: map<string, ImageSize>)
    : (adds: seq<FitClothingPosition>)
    ensures forall p :: p in adds ==> p.clothingId in ClothingIds(selected) && p.clothingId !in existing
  {
    if selected == [] then []
    else
      var n := |selected| - 1;
      assert forall c :: c in selected[..n] ==> c in selected;
      var before := Additions(selected[..n], existing, images);
      if selected[n].id in existing then before else before + [DefaultPosition(selected[n], n, images)]
  }

  /** Every selected piece without a position gets the default for its index. */
  lemma {:induction false} AdditionsComplete(selected: seq<ClothingPiece>, existing: set<string>,
                                             images: map<string, ImageSize>, i: int)
    requires 0 <= i < |selected| && selected[i].id !in existing
    ensures DefaultPosition(selected[i], i, images) in Additions(selected, existing, images)
    decreases |selected|
  {
    var n := |selected| - 1;
    if i < n {
      assert selected[..n][i] == selected[i];
      AdditionsComplete(selected[..n], existing, images, i);
    }
  }

  /** Nothing is added when every selected piece already has a position. */
  lemma {:induction false} AdditionsEmpty(selected: seq<ClothingPiece>, existing: set<string>,
                                          images: map<string, ImageSize>)
    requires forall c :: c in selected ==> c.id in existing
    ensures Additions(selected, existing, images) == []
    decreases |selected|
  {
    if selected != [] {
      var n := |selected| - 1;
      assert forall c :: c in selected[..n] ==> c in selected;
      AdditionsEmpty(selected[..n], existing, images);
    }
  }

  predicate Kept(p: FitClothingPosition, selectedIds: set<string>)
  {
    p.clothingId in selectedIds
  }

  /** The reconciliation effect: existing positions, the defaults pushed for new pieces, then those of
      deselected pieces dropped. The result is reported only when its length differs from the old one. */
  method Reconcile(positions: seq<FitClothingPosition>, selected: seq<ClothingPiece>,
                   images: map<string, ImageSize>)
    returns (reconciled: seq<FitClothingPosition>, reported: Option<seq<FitClothingPosition>>)
    ensures reconciled == Collections.Filter(positions + Additions(selected, PositionIds(positions), images),
                                             p => Kept(p, ClothingIds(selected)))
    ensures reported.Some? <==> |reconciled| != |positions|
    ensures reported.Some? ==> reported.value == reconciled
  {
    var existingIds := PositionIds(positions);
    var newPositions := positions;
    var index := 0;
    while index < |selected|
      invariant 0 <= index <= |selected|
      invariant newPositions == positions + Additions(selected[..index], existingIds, images)
    {
      var item := selected[index];
      assert selected[..index + 1][..index] == selected[..index];
      if item.id !in existingIds {
        newPositions := newPositions + [DefaultPosition(item, index, images)];
      }
      index := index + 1;
    }
    assert selected[..index] == selected;
    var selectedIds := ClothingIds(selected);
    reconciled := Collections.Filter(newPositions, p => Kept(p, selectedIds));
    if |reconciled| != |positions| {
      reported := Some(reconciled);
    } else {
      reported := None;
    }
  }

  /** After reconciliation the positions refer to exactly the selected pieces. */
  lemma ReconciledIds(positions: seq<FitClothingPosition>, selected: seq<ClothingPiece>,
                      images: map<string, ImageSize>)
    ensures var r := Collections.Filter(positions + Additions(selected, PositionIds(positions), images),
                                        p => Kept(p, ClothingIds(selected)));
      PositionIds(r) == ClothingIds(selected)
  {
    var existing := PositionIds(positions);
    var all := positions + Additions(selected, existing, images);
    var r := Collections.Filter(all, p => Kept(p, ClothingIds(selected)));
    forall id | id in ClothingIds(selected) ensures id in PositionIds(r) {
      var i :| 0 <= i < |selected| && selected[i].id == id;
      if id in existing {
        var p :| p in positions && p.clothingId == id;
        assert p in all && p in r;
      } else {
        var p := DefaultPosition(selected[i], i, images);
        AdditionsComplete(selected, existing, images, i);
        assert p in all && p in r;
      }
    }
  }

  /** The surviving old positions come first, unchanged and in their order, then the new defaults. */
  lemma ReconciledKeepsExisting(positions: seq<FitClothingPosition>, selected: seq<ClothingPiece>,
                                images: map<string, ImageSize>)
    ensures var adds := Additions(selected, PositionIds(positions), images);
      Collections.Filter(positions + adds, p => Kept(p, ClothingIds(selected)))
      == Collections.Filter(positions, p => Kept(p, ClothingIds(selected))) + adds
  {
    var adds := Additions(selected, PositionIds(positions), images);
    var keep := p => Kept(p, ClothingIds(selected));
    Collections.FilterConcat(positions, adds, keep);
    assert forall i :: 0 <= i < |adds| ==> adds[i] in adds;
    Collections.FilterAll(adds, keep);
  }

  /** With the selection unchanged, reconciling a second time changes and reports nothing. */
  lemma ReconcileStable(positions: seq<FitClothingPosition>, selected: seq<ClothingPiece>,
                        images: map<string, ImageSize>)
    requires PositionIds(positions) == ClothingIds(selected)
    ensures Collections.Filter(positions + Additions(selected, PositionIds(positions), images),
                               p => Kept(p, ClothingIds(selected))) == positions
  {
    var adds := Additions(selected, PositionIds(positions), images);
    AdditionsEmpty(selected, PositionIds(positions), images);
    assert positions + adds == positions;
    assert forall i :: 0 <= i < |positions| ==> positions[i] in positions;
    Collections.FilterAll(positions, p => Kept(p, ClothingIds(selected)));
  }

  // ---------------------------------------------------------------------------
  // Updates from the stage
  // ---------------------------------------------------------------------------

  /** `handleDragEnd`: the dragged piece's position moves to where the node was dropped; every other
      field and every other position stays. */
  function DragEnd(positions: seq<FitClothingPosition>, clothingId: string, x: real, y: real)
    : (r: seq<FitClothingPosition>)
    ensures |r| == |positions|
    ensures forall i :: 0 <= i < |r| ==>
      && r[i].clothingId == positions[i].clothingId
      && r[i].width == positions[i].width && r[i].height == positions[i].height
      && r[i].rotation == positions[i].rotation
      && (positions[i].clothingId == clothingId ==> r[i].x == x && r[i].y == y)
      && (positions[i].clothingId != clothingId ==> r[i] == positions[i])
  {
    Collections.UpdateWhere(positions, (p: FitClothingPosition) => p.clothingId == clothingId,
                            (p: FitClothingPosition) => p.(x := x, y := y))
  }

  /** The transformed Konva node: its position, unscaled size, rotation and the scale the drag applied. */
  datatype NodeState = NodeState(x: real, y: real, width: real, height: real, rotation: real,
                                 scaleX: real, scaleY: real)

  /** `handleTransformEnd`: the scale is folded into the size, never below 5, for the transformed piece;
      every other position stays. */
  function TransformEnd(positions: seq<FitClothingPosition>, clothingId: string, node: NodeState)
    : (r: seq<FitClothingPosition>)
    ensures |r| == |positions|
    ensures forall i :: 0 <= i < |r| ==>
      && r[i].clothingId == positions[i].clothingId
      && (positions[i].clothingId == clothingId ==>
            && r[i].x == node.x && r[i].y == node.y && r[i].rotation == node.rotation
            && r[i].width == Max(MIN_SIZE, node.width * node.scaleX)
            && r[i].height == Max(MIN_SIZE, node.height * node.scaleY)
            && r[i].width >= MIN_SIZE && r[i].height >= MIN_SIZE)
      && (positions[i].clothingId != clothingId ==> r[i] == positions[i])
  {
    Collections.UpdateWhere(positions, (p: FitClothingPosition) => p.clothingId == clothingId,
                            (p: FitClothingPosition) => p.(x := node.x, y := node.y,
                                                          width := Max(MIN_SIZE, node.width * node.scaleX),
                                                          height := Max(MIN_SIZE, node.height * node.scaleY),
                                                          rotation := node.rotation))
  }

  /** `handleSelect`: clicking the selected piece deselects it; clicking another selects that one. */
  function Select(selectedId: Option<string>, clothingId: string): (r: Option<string>)
    ensures selectedId == Some(clothingId) ==> r == None
    ensures selectedId != Some(clothingId) ==> r == Some(clothingId)
  {
    if selectedId == Some(clothingId) then None else Some(clothingId)
  }

  /** Clicking a piece twice leaves nothing selected. */
  lemma SelectTwice(selectedId: Option<string>, clothingId: string)
    requires selectedId != Some(clothingId)
    ensures Select(Select(selectedId, clothingId), clothingId) == None
  {
  }

  /** `handleStageClick`: a click on the empty stage clears the selection; one on a node leaves it. */
  function StageClick(selectedId: Option<string>, onEmptyStage: bool): (r: Option<string>)
    ensures onEmptyStage ==> r == None
    ensures !onEmptyStage ==> r == selectedId
  {
    if onEmptyStage then None else selectedId
  }

  /** A box the transformer proposes. */
  datatype Box = Box(x: real, y: real, width: real, height: real, rotation: real)

  /** `boundBoxFunc`: a resize below 5 in either dimension is refused and the old box kept. */
  function BoundBox(oldBox: Box, newBox: Box): (r: Box)
    ensures newBox.width < MIN_SIZE || newBox.height < MIN_SIZE ==> r == oldBox
    ensures newBox.width >= MIN_SIZE && newBox.height >= MIN_SIZE ==> r == newBox
  {
    if newBox.width < MIN_SIZE || newBox.height < MIN_SIZE then oldBox else newBox
  }

  /** Starting from a box at least 5 by 5, any sequence of resizes keeps it so. */
  lemma {:induction false} BoundBoxKeepsMinimum(start: Box, proposals: seq<Box>)
    requires start.width >= MIN_SIZE && start.height >= MIN_SIZE
    ensures var b := ApplyResizes(start, proposals); b.width >= MIN_SIZE && b.height >= MIN_SIZE
    decreases |proposals|
  {
    if proposals != [] {
      BoundBoxKeepsMinimum(BoundBox(start, proposals[0]), proposals[1..]);
    }
  }

  /** The box after the transformer has offered each proposal in turn. */
  function ApplyResizes(start: Box, proposals: seq<Box>): Box
    decreases |proposals|
  {
    if proposals == [] then start else ApplyResizes(BoundBox(start, proposals[0]), proposals[1..])
  }
}
