/** The clothing form of apps/wardrobe-app/ClothingForm.tsx: its initial fields, the weather toggle,
    the stored image's name, and the record `handleSubmit` hands on. */
module ClothingForm {
  import opened Wrappers
  import opened WardrobeTypes
  import Text
  import Collections

  /** The form's fields. */
  datatype FormState = FormState(name: string, weather: seq<WeatherType>, clothingType: ClothingType, image: string)

  /** The fields a form opens with: those of the piece being edited, or the blank defaults. */
  function InitialForm(clothing: Option<ClothingPiece>): (f: FormState)
    ensures clothing.None? ==> f == FormState("", [], Top, "")
    ensures clothing.Some? ==>
      && f.name == clothing.value.name && f.weather == clothing.value.weather
      && f.clothingType == clothing.value.clothingType && f.image == clothing.value.image
  {
    match clothing
    case None => FormState("", [], Top, "")
    case Some(c) => FormState(c.name, c.weather, c.clothingType, c.image)
  }

  /** `toggleWeather`: the weather leaves the selection when present, and joins it at the end otherwise. */
  function ToggleWeather(f: FormState, w: WeatherType): (g: FormState)
    ensures w in g.weather <==> w !in f.weather
    ensures forall v :: v != w ==> (v in g.weather <==> v in f.weather)
    ensures w !in f.weather ==> g.weather == f.weather + [w]
    ensures g.name == f.name && g.clothingType == f.clothingType && g.image == f.image
  {
    f.(weather := Collections.Toggle(f.weather, w))
  }

  /** Toggling the same weather twice gives back the same selection, as a set. */
  lemma ToggleWeatherTwice(f: FormState, w: WeatherType)
    ensures forall v :: v in ToggleWeather(ToggleWeather(f, w), w).weather <==> v in f.weather
  {
  }

  // ---------------------------------------------------------------------------
  // The image name: `clothing-${Date.now()}-${file.name.replace(/\.[^/.]+$/, "")}.png`
  // ---------------------------------------------------------------------------

  /** The regular expression `\.[^/.]+$` matches at `k`: a dot followed, up to the end, by at least one
      character and neither a slash nor another dot. */
  predicate ExtensionAt(s: string, k: int)
  {
    && 0 <= k < |s| - 1
    && s[k] == '.'
    && forall j :: k < j < |s| ==> s[j] != '/' && s[j] != '.'
  }

  /** The expression matches at one position at most. */
  lemma ExtensionUnique(s: string, k1: int, k2: int)
    requires ExtensionAt(s, k1) && ExtensionAt(s, k2)
    ensures k1 == k2
  {
  }

  /** Where the scan back from `j` meets the match, if any; nothing after `j` is a slash or a dot. */
  function ScanBack(s: string, j: int): (k: Option<nat>)
    requires -1 <= j < |s|
    requires forall m :: j < m < |s| ==> s[m] != '/' && s[m] != '.'
    ensures k.Some? ==> ExtensionAt(s, k.value)
    ensures k.None? ==> forall i :: 0 <= i <= j ==> !ExtensionAt(s, i)
    decreases j + 1
  {
    if j < 0 then None
    else if s[j] == '.' then (if j < |s| - 1 then Some(j) else None)
    else if s[j] == '/' then None
    else ScanBack(s, j - 1)
  }

  /** Where the extension of a file name starts, if it has one. */
  function ExtensionStart(s: string): (k: Option<nat>)
    ensures k.Some? ==> ExtensionAt(s, k.value)
    ensures k.None? ==> forall i :: !ExtensionAt(s, i)
  {
    ScanBack(s, |s| - 1)
  }

  /** `name.replace(/\.[^/.]+$/, "")`: the name without its final extension. */
  function StripExtension(name: string): (stem: string)
    ensures forall k :: ExtensionAt(name, k) ==> stem == name[..k]
    ensures (forall k :: !ExtensionAt(name, k)) ==> stem == name
    ensures |stem| <= |name| && stem == name[..|stem|]
  {
    match ExtensionStart(name)
    case Some(k) =>
      forall k' | ExtensionAt(name, k') ensures k' == k {
        ExtensionUnique(name, k, k');
      }
      name[..k]
    case None => name
  }

  /** A stem followed by an extension loses exactly that extension. */
  lemma StripAddedExtension(stem: string, ext: string)
    requires |ext| > 0 && forall j :: 0 <= j < |ext| ==> ext[j] != '/' && ext[j] != '.'
    ensures StripExtension(stem + "." + ext) == stem
  {
    var name := stem + "." + ext;
    assert ExtensionAt(name, |stem|) by {
      forall j | |stem| < j < |name| ensures name[j] != '/' && name[j] != '.' {
        assert name[j] == ext[j - |stem| - 1];
      }
    }
    assert name[..|stem|] == stem;
  }

  /** A name whose last dot is followed by nothing, or by a slash, keeps every character. */
  lemma StripWithoutExtension(name: string)
    requires forall j :: 0 <= j < |name| && name[j] == '.' ==> j == |name| - 1 || exists m :: j < m < |name| && name[m] == '/'
    ensures StripExtension(name) == name
  {
  }

  /** The name under which the processed image is saved. */
  function ImageName(now: nat, fileName: string): (r: string)
    ensures r == "clothing-" + Text.DecimalString(now) + "-" + StripExtension(fileName) + ".png"
    ensures |r| >= 15 && r[..9] == "clothing-" && r[|r| - 4..] == ".png"
  {
    "clothing-" + Text.DecimalString(now) + "-" + StripExtension(fileName) + ".png"
  }

  // ---------------------------------------------------------------------------
  // Submitting
  // ---------------------------------------------------------------------------

  /** How a submission ends: the browser refuses it, `handleSubmit` alerts, or the record goes to `onSave`. */
  datatype Submission =
    | Blocked
    | Alerted(message: string)
    | Saved(draft: ClothingDraft)

  /** Submitting the form. The name input is `required`, so with an empty name the browser does not fire
      `onSubmit` at all. Otherwise `handleSubmit` runs: without an image it alerts and saves nothing;
      otherwise the record carries the edited piece's id when it has one, and its `wornAt`, or no wear for
      a new piece. */
  function Submit(editing: Option<ClothingPiece>, f: FormState): (r: Submission)
    ensures f.name == "" <==> r.Blocked?
    ensures r.Alerted? <==> f.name != "" && f.image == ""
    ensures r.Alerted? ==> r.message == "Please upload an image"
    ensures r.Saved? ==>
      && r.draft.name == f.name && r.draft.name != "" && r.draft.weather == f.weather
      && r.draft.clothingType == f.clothingType && r.draft.image == f.image && r.draft.image != ""
      && (r.draft.id.Some? <==> editing.Some? && editing.value.id != "")
      && (r.draft.id.Some? ==> r.draft.id.value == editing.value.id)
      && r.draft.wornAt == (if editing.Some? then editing.value.wornAt else [])
  {
    if f.name == "" then Blocked
    else if f.image == "" then Alerted("Please upload an image")
    else
      var id := if editing.Some? && editing.value.id != "" then Some(editing.value.id) else None;
      var wornAt := if editing.Some? then editing.value.wornAt else [];
      Saved(ClothingDraft(id, f.name, f.weather, f.image, wornAt, f.clothingType))
  }

  /** Submitting an unchanged edit form gives back the piece it was opened with; a piece without a name
      cannot be submitted again until one is typed. */
  lemma EditRoundTrip(c: ClothingPiece)
    requires c.image != "" && c.id != ""
    ensures Submit(Some(c), InitialForm(Some(c)))
      == if c.name == "" then Blocked
         else Saved(ClothingDraft(Some(c.id), c.name, c.weather, c.image, c.wornAt, c.clothingType))
  {
  }
}
