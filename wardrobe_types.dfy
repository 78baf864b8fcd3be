/** The records of apps/wardrobe-app/types.ts, and the fit records FitForm and FitCanvas build. */
module WardrobeTypes {
  import opened Wrappers

  datatype WeatherType = Hot | Warm | Cool | Cold | Rainy | Snowy
  datatype ClothingType = Top | Bottom | Dress | Outerwear | Shoes | Accessory

  /** A piece of clothing; `wornAt` holds ISO 8601 timestamps, oldest first as they were appended. */
  datatype ClothingPiece = ClothingPiece(
    id: string,
    name: string,
    weather: seq<WeatherType>,
    image: string,
    wornAt: seq<string>,
    clothingType: ClothingType)

  /** What the clothing form hands to `onSave`: a piece whose `id` is present only when editing. */
  datatype ClothingDraft = ClothingDraft(
    id: Option<string>,
    name: string,
    weather: seq<WeatherType>,
    image: string,
    wornAt: seq<string>,
    clothingType: ClothingType)

  /** Where one piece sits on the fit canvas. */
  datatype FitClothingPosition = FitClothingPosition(
    clothingId: string,
    x: real,
    y: real,
    width: real,
    height: real,
    rotation: real)

  /** An outfit: its pieces' positions, the name of its preview image, and when it was worn. */
  datatype Fit = Fit(
    id: string,
    name: string,
    clothingPositions: seq<FitClothingPosition>,
    previewImage: string,
    wornAt: seq<string>,
    createdAt: string)

  /** What the fit form hands to `onSave`: a fit whose `id` is present only when editing. */
  datatype FitDraft = FitDraft(
    id: Option<string>,
    name: string,
    clothingPositions: seq<FitClothingPosition>,
    previewImage: string,
    wornAt: seq<string>,
    createdAt: string)

  /** The ids of a sequence of pieces. */
  function ClothingIds(s: seq<ClothingPiece>): (ids: set<string>)
    ensures forall c :: c in s ==> c.id in ids
    ensures forall id :: id in ids ==> exists c :: c in s && c.id == id
  {
    set c | c in s :: c.id
  }

  /** The clothing ids a sequence of positions refers to. */
  function PositionIds(s: seq<FitClothingPosition>): (ids: set<string>)
    ensures forall p :: p in s ==> p.clothingId in ids
    ensures forall id :: id in ids ==> exists p :: p in s && p.clothingId == id
  {
    set p | p in s :: p.clothingId
  }
}
