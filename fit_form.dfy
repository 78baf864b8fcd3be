/** The fit form of apps/wardrobe-app/FitForm.tsx: the selection of pieces, the checks `handleSubmit`
    makes, the copy of the decoded snapshot into bytes, and the fit record it hands on. */
module FitForm {
  import opened Wrappers
  import opened WardrobeTypes
  import Text
  import Collections

  newtype byte = x: int | 0 <= x < 256

  const NAME_MISSING := "Please enter a name for the fit"
  const NOTHING_SELECTED := "Please select at least one clothing item"
  const CANVAS_NOT_READY := "Canvas not ready. Please try again."

  /** `selectedClothing`: the pieces whose ids are selected, in wardrobe order. */
  function SelectedClothing(clothing: seq<ClothingPiece>, selected: set<string>): (r: seq<ClothingPiece>)
    ensures forall c :: c in r <==> c in clothing && c.id in selected
    ensures Collections.Subsequence(r, clothing)
  {
    Collections.Filter(clothing, (c: ClothingPiece) => c.id in selected)
  }

  /** `toggleClothing`: the selection's symmetric difference with `{id}`. */
  function ToggleClothing(selected: set<string>, id: string): (r: set<string>)
    ensures forall x :: x in r <==> (x in selected) != (x == id)
  {
    if id in selected then selected - {id} else selected + {id}
  }

  lemma ToggleClothingTwice(selected: set<string>, id: string)
    ensures ToggleClothing(ToggleClothing(selected, id), id) == selected
  {
  }

  /** The selection a form opens with: the ids of the edited fit's positions, or none. */
  function InitialSelection(fit: Option<Fit>): (r: set<string>)
    ensures fit.None? ==> r == {}
    ensures fit.Some? ==> r == PositionIds(fit.value.clothingPositions)
  {
    if fit.Some? then PositionIds(fit.value.clothingPositions) else {}
  }

  // ---------------------------------------------------------------------------
  // The snapshot bytes
  // ---------------------------------------------------------------------------

  /** What assigning each char code to a `Uint8Array` element stores: the code modulo 256. */
  function Bytes(binary: string): (r: seq<byte>)
    ensures |r| == |binary|
    ensures forall i :: 0 <= i < |binary| ==> r[i] as int == (binary[i] as int) % 256
  {
    if binary == [] then [] else [((binary[0] as int) % 256) as byte] + Bytes(binary[1..])
  }

  /** Reading bytes back as one char per byte, as `atob` produces them. */
  function Latin1(bytes: seq<byte>): (s: string)
    ensures |s| == |bytes|
    ensures forall i :: 0 <= i < |bytes| ==> s[i] as int == bytes[i] as int
  {
    if bytes == [] then [] else [(bytes[0] as int) as char] + Latin1(bytes[1..])
  }

  /** `atob` yields chars below 256, and for those the copy loses nothing. */
  lemma BytesRoundTrip(binary: string)
    requires forall i :: 0 <= i < |binary| ==> (binary[i] as int) < 256
    ensures Latin1(Bytes(binary)) == binary
  {
    var bytes := Bytes(binary);
    var back := Latin1(bytes);
    forall i | 0 <= i < |binary| ensures back[i] == binary[i] {
      ByteOfSmallCode(binary[i], bytes[i]);
    }
  }

  /** A char code below 256 is stored unchanged. */
  lemma ByteOfSmallCode(c: char, b: byte)
    requires (c as int) < 256 && b as int == (c as int) % 256
    ensures b as int == c as int
  {
  }

  /** The copy loop: `bytes[i] = binaryString.charCodeAt(i)` for every index. */
  method CopyBytes(binary: string) returns (bytes: array<byte>)
    ensures bytes.Length == |binary|
    ensures bytes[..] == Bytes(binary)
  {
    bytes := new byte[|binary|];
    var i := 0;
    while i < |binary|
      invariant 0 <= i <= |binary|
      invariant bytes[..i] == Bytes(binary)[..i]
    {
      bytes[i] := ((binary[i] as int) % 256) as byte;
      assert bytes[..i + 1] == bytes[..i] + [bytes[i]];
      assert Bytes(binary)[..i + 1] == Bytes(binary)[..i] + [Bytes(binary)[i]];
      i := i + 1;
    }
    assert bytes[..] == bytes[..i];
  }

  // ---------------------------------------------------------------------------
  // Submitting
  // ---------------------------------------------------------------------------

  /** The preview image's name: the edited fit's id when it has a non-empty one, the clock otherwise. */
  function PreviewName(fit: Option<Fit>, now: nat): (name: string)
    ensures fit.Some? && fit.value.id != "" ==> name == "fit-preview-" + fit.value.id + ".png"
    ensures fit.None? || fit.value.id == "" ==> name == "fit-preview-" + Text.DecimalString(now) + ".png"
  {
    var imageId := if fit.Some? && fit.value.id != "" then fit.value.id else Text.DecimalString(now);
    "fit-preview-" + imageId + ".png"
  }

  /** `fitData`: an edit keeps every field of the old fit but the name, positions and preview; a new fit
      has no wear and is created now. */
  function FitRecord(fit: Option<Fit>, name: string, positions: seq<FitClothingPosition>,
                     imageName: string, nowIso: string): (d: FitDraft)
    ensures d.name == Text.Trim(name) && d.clothingPositions == positions && d.previewImage == imageName
    ensures fit.Some? ==>
      d.id == Some(fit.value.id) && d.wornAt == fit.value.wornAt && d.createdAt == fit.value.createdAt
    ensures fit.None? ==> d.id == None && d.wornAt == [] && d.createdAt == nowIso
  {
    match fit
    case Some(f) => FitDraft(Some(f.id), Text.Trim(name), positions, imageName, f.wornAt, f.createdAt)
    case None => FitDraft(None, Text.Trim(name), positions, imageName, [], nowIso)
  }

  /** How a submission ends: the browser refusing it, an alert before anything is written, a failure caught while producing or
      saving the preview, or the saved preview and the record handed to `onSave`. */
  datatype Outcome =
    | Blocked
    | Rejected(message: string)
    | Failed
    | Saved(record: FitDraft, imageName: string, bytes: seq<byte>)

  /** Submitting the form. The name input is `required`, so with an empty name the browser does not fire
      `onSubmit`; a name of spaces passes that check and reaches `handleSubmit`, which trims it.
      `canvasReady` says whether the canvas handle is set, `binary` is the decoded snapshot (none when
      producing or decoding it threw), `saveSucceeds` whether `save_image` resolved. */
  method Submit(fit: Option<Fit>, name: string, selected: set<string>, positions: seq<FitClothingPosition>,
                canvasReady: bool, binary: Option<string>, saveSucceeds: bool, now: nat, nowIso: string)
    returns (outcome: Outcome)
    ensures name == "" <==> outcome == Blocked
    ensures name != "" && Text.Trim(name) == "" ==> outcome == Rejected(NAME_MISSING)
    ensures Text.Trim(name) != "" && selected == {} ==> outcome == Rejected(NOTHING_SELECTED)
    ensures Text.Trim(name) != "" && selected != {} && !canvasReady ==> outcome == Rejected(CANVAS_NOT_READY)
    ensures Text.Trim(name) != "" && selected != {} && canvasReady && (binary.None? || !saveSucceeds)
      ==> outcome == Failed
    ensures outcome.Saved? <==> Text.Trim(name) != "" && selected != {} && canvasReady && binary.Some? && saveSucceeds
    ensures outcome.Saved? ==>
      && outcome.imageName == PreviewName(fit, now)
      && outcome.bytes == Bytes(binary.value)
      && outcome.record == FitRecord(fit, name, positions, PreviewName(fit, now), nowIso)
  {
    if name == "" {
      return Blocked;
    }
    if Text.Trim(name) == "" {
      return Rejected(NAME_MISSING);
    }
    if |selected| == 0 {
      return Rejected(NOTHING_SELECTED);
    }
    if !canvasReady {
      return Rejected(CANVAS_NOT_READY);
    }
    if binary.None? {
      return Failed;
    }
    var bytes := CopyBytes(binary.value);
    var imageName := PreviewName(fit, now);
    if !saveSucceeds {
      return Failed;
    }
    outcome := Saved(FitRecord(fit, name, positions, imageName, nowIso), imageName, bytes[..]);
  }
}
