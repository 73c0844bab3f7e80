/** Shapes shared by every part of the reel editor: the records of types.ts
    and the fixed option lists of constants.ts (whose contents are data). */
module Types {

  /** A value that may be absent (`T | null`, `T | undefined`). */
  datatype Option<T> = None | Some(value: T)

  /** A chapter of the catalogue. */
  datatype Surah = Surah(
    number: int,
    name: string,
    englishName: string,
    englishNameTranslation: string,
    numberOfAyahs: int,
    revelationType: string)

  /** One verse as the verse API returns it; `audio` is the URL of its recitation. */
  datatype Ayah = Ayah(
    number: int,
    text: string,
    numberInSurah: int,
    juz: int,
    manzil: int,
    page: int,
    ruku: int,
    hizbQuarter: int,
    sajda: bool,
    audio: Option<string>,
    audioSecondary: Option<seq<string>>)

  /** A narrator; `kind` is the record's `type` field (a Dafny keyword). */
  datatype Reciter = Reciter(
    identifier: string,
    name: string,
    englishName: string,
    format: string,
    kind: string)

  datatype BackgroundType = Image | Video | Color

  datatype LogoPosition = TopRight | TopLeft | BottomRight | BottomLeft {
    /** The string the position stands for in the application state. */
    function Key(): string {
      match this
      case TopRight => "top-right"
      case TopLeft => "top-left"
      case BottomRight => "bottom-right"
      case BottomLeft => "bottom-left"
    }
  }

  /** Everything the user configures in the sidebar. */
  datatype AppState = AppState(
    surah: Option<Surah>,
    startAyah: int,
    endAyah: int,
    reciter: Reciter,
    backgroundType: BackgroundType,
    backgroundValue: string,
    logoUrl: Option<string>,
    logoPosition: LogoPosition,
    fontSize: int,
    textColor: string)

  /** The option lists of constants.ts: the reciters and the stock backgrounds. */
  datatype Catalog = Catalog(
    reciters: seq<Reciter>,
    images: seq<string>,
    videos: seq<string>,
    colors: seq<string>)
  {
    /** Every background list has a first element to fall back on. */
    predicate Valid() {
      |images| > 0 && |videos| > 0 && |colors| > 0
    }

    /** The stock backgrounds offered for a background type. */
    function Choices(t: BackgroundType): seq<string> {
      match t
      case Image => images
      case Video => videos
      case Color => colors
    }
  }
}
