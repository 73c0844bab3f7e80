/** The sidebar's change handlers. Each one hands the state setter an update that
    copies the previous state and replaces a few fields; here each update is a
    function from the previous AppState to the next one. */
module ConfigSidebar {
  import opened Types

  /** The first element satisfying `p`, as `Array.prototype.find` returns it. */
  function FindFirst<T>(xs: seq<T>, p: T -> bool): (r: Option<T>)
    ensures r.None? <==> forall i :: 0 <= i < |xs| ==> !p(xs[i])
    ensures r.Some? ==> exists i :: 0 <= i < |xs| && xs[i] == r.value && p(r.value) && forall j :: 0 <= j < i ==> !p(xs[j])
  {
    if xs == [] then None
    else if p(xs[0]) then Some(xs[0])
    else
      var r := FindFirst(xs[1..], p);
      assert r.Some? ==> exists i :: 0 <= i < |xs[1..]| && xs[1..][i] == r.value && p(r.value) && forall j :: 0 <= j < i ==> !p(xs[1..][j]);
      assert r.Some? ==> exists i :: 1 <= i < |xs| && xs[i] == r.value && p(r.value) && forall j :: 0 <= j < i ==> !p(xs[j]) by {
        if r.Some? {
          var i :| 0 <= i < |xs[1..]| && xs[1..][i] == r.value && p(r.value) && forall j :: 0 <= j < i ==> !p(xs[1..][j]);
          assert xs[i + 1] == r.value;
          forall j | 0 <= j < i + 1 ensures !p(xs[j]) {
            if j > 0 { assert xs[j] == xs[1..][j - 1]; }
          }
        }
      }
      r
  }

  /** Math.min on two integers. */
  function Min(a: int, b: int): int {
    if a <= b then a else b
  }

  /** The chapter with the chosen number; `choice` is `parseInt` of the option's value,
      None for the placeholder option (`parseInt('')` is NaN, which matches nothing). */
  function FindSurah(surahs: seq<Surah>, choice: Option<int>): (r: Option<Surah>)
    ensures r.None? <==> choice.None? || forall i :: 0 <= i < |surahs| ==> surahs[i].number != choice.value
    ensures r.Some? ==> choice.Some? && r.value in surahs && r.value.number == choice.value
  {
    match choice
    case None => None
    case Some(n) => FindFirst(surahs, (s: Surah) => s.number == n)
  }

  /** Choosing a chapter selects it with the default range 1 .. min(5, its verse count). */
  function SelectSurah(prev: AppState, surahs: seq<Surah>, choice: Option<int>): (next: AppState)
    ensures choice.None? || (forall i :: 0 <= i < |surahs| ==> surahs[i].number != choice.value) ==> next == prev
    ensures choice.Some? && (exists i :: 0 <= i < |surahs| && surahs[i].number == choice.value) ==>
      && next.surah.Some? && next.surah.value in surahs && next.surah.value.number == choice.value
      && next.startAyah == 1 && next.endAyah == Min(5, next.surah.value.numberOfAyahs)
      && next.(surah := prev.surah, startAyah := prev.startAyah, endAyah := prev.endAyah) == prev
  {
    match FindSurah(surahs, choice)
    case Some(s) => prev.(surah := Some(s), startAyah := 1, endAyah := Min(5, s.numberOfAyahs))
    case None => prev
  }

  /** Of several chapters with the chosen number, the first one in the list is selected. */
  lemma SelectSurahTakesFirst(prev: AppState, surahs: seq<Surah>, n: int, k: nat)
    requires k < |surahs| && surahs[k].number == n
    requires forall j :: 0 <= j < k ==> surahs[j].number != n
    ensures SelectSurah(prev, surahs, Some(n)).surah == Some(surahs[k])
  {
    var r := FindFirst(surahs, (s: Surah) => s.number == n);
    var i :| 0 <= i < |surahs| && surahs[i] == r.value && r.value.number == n && forall j :: 0 <= j < i ==> surahs[j].number != n;
    assert i == k;
  }

  /** A chapter with at least one verse gets a non-empty range that lies inside it and spans at most five verses. */
  lemma SelectSurahRangeValid(prev: AppState, surahs: seq<Surah>, choice: Option<int>)
    requires choice.Some? && exists i :: 0 <= i < |surahs| && surahs[i].number == choice.value
    ensures var next := SelectSurah(prev, surahs, choice);
      next.surah.Some? &&
      (next.surah.value.numberOfAyahs >= 1 ==>
        1 <= next.startAyah <= next.endAyah <= next.surah.value.numberOfAyahs && next.endAyah <= 5)
  {
  }

  /** Typing a start verse; the browser's `min`/`max` limits are not enforced on the value. */
  function SetStartAyah(prev: AppState, v: int): (next: AppState)
    ensures next.startAyah == v && next.(startAyah := prev.startAyah) == prev
  {
    prev.(startAyah := v)
  }

  /** Typing an end verse. */
  function SetEndAyah(prev: AppState, v: int): (next: AppState)
    ensures next.endAyah == v && next.(endAyah := prev.endAyah) == prev
  {
    prev.(endAyah := v)
  }

  /** Choosing a reciter by identifier from the list of reciters. */
  function SelectReciter(prev: AppState, reciters: seq<Reciter>, identifier: string): (next: AppState)
    ensures (forall i :: 0 <= i < |reciters| ==> reciters[i].identifier != identifier) ==> next == prev
    ensures (exists i :: 0 <= i < |reciters| && reciters[i].identifier == identifier) ==>
      && next.reciter in reciters && next.reciter.identifier == identifier
      && next.(reciter := prev.reciter) == prev
  {
    match FindFirst(reciters, (r: Reciter) => r.identifier == identifier)
    case Some(r) => prev.(reciter := r)
    case None => prev
  }

  /** Of several reciters with the identifier, the first one in the list is selected. */
  lemma SelectReciterTakesFirst(prev: AppState, reciters: seq<Reciter>, identifier: string, k: nat)
    requires k < |reciters| && reciters[k].identifier == identifier
    requires forall j :: 0 <= j < k ==> reciters[j].identifier != identifier
    ensures SelectReciter(prev, reciters, identifier).reciter == reciters[k]
  {
    var r := FindFirst(reciters, (r: Reciter) => r.identifier == identifier);
    var i :| 0 <= i < |reciters| && reciters[i] == r.value && r.value.identifier == identifier && forall j :: 0 <= j < i ==> reciters[j].identifier != identifier;
    assert i == k;
  }

  /** `String.prototype.startsWith`, character by character. */
  function StartsWith(s: string, prefix: string): (b: bool)
    ensures b <==> |prefix| <= |s| && s[..|prefix|] == prefix
  {
    if prefix == [] then true
    else if s == [] then false
    else
      var rest := StartsWith(s[1..], prefix[1..]);
      assert |prefix| <= |s| ==> (s[..|prefix|] == prefix <==> s[0] == prefix[0] && s[1..][..|prefix| - 1] == prefix[1..]) by {
        if |prefix| <= |s| && s[0] == prefix[0] && s[1..][..|prefix| - 1] == prefix[1..] {
          assert s[..|prefix|] == [s[0]] + s[1..][..|prefix| - 1];
          assert prefix == [prefix[0]] + prefix[1..];
        }
      }
      s[0] == prefix[0] && rest
  }

  /** An uploaded file is shown as a video exactly when its MIME type starts with "video/",
      and as an image otherwise. */
  function BackgroundTypeOf(mimeType: string): (t: BackgroundType)
    ensures t == Video <==> |mimeType| >= 6 && mimeType[..6] == "video/"
    ensures t != Color
  {
    if StartsWith(mimeType, "video/") then Video else Image
  }

  /** A file picked in an upload control: its MIME type and the object URL made for it. */
  datatype Upload = Upload(mimeType: string, objectUrl: string)

  /** Uploading a background; nothing happens when no file was picked. */
  function UploadBackground(prev: AppState, file: Option<Upload>): (next: AppState)
    ensures file.None? ==> next == prev
    ensures file.Some? ==>
      && next.backgroundValue == file.value.objectUrl
      && (next.backgroundType == Video <==> |file.value.mimeType| >= 6 && file.value.mimeType[..6] == "video/")
      && next.backgroundType != Color
      && next.(backgroundType := prev.backgroundType, backgroundValue := prev.backgroundValue) == prev
  {
    match file
    case None => prev
    case Some(f) => prev.(backgroundType := BackgroundTypeOf(f.mimeType), backgroundValue := f.objectUrl)
  }

  /** Uploading a channel logo; nothing happens when no file was picked. */
  function UploadLogo(prev: AppState, file: Option<Upload>): (next: AppState)
    ensures file.None? ==> next == prev
    ensures file.Some? ==> next.logoUrl == Some(file.value.objectUrl) && next.(logoUrl := prev.logoUrl) == prev
  {
    match file
    case None => prev
    case Some(f) => prev.(logoUrl := Some(f.objectUrl))
  }

  /** The image / video / colour toggle selects the type and the first stock background of that type. */
  function ChooseBackgroundType(prev: AppState, catalog: Catalog, t: BackgroundType): (next: AppState)
    requires catalog.Valid()
    ensures next.backgroundType == t
    ensures next.backgroundValue in catalog.Choices(t) && next.backgroundValue == catalog.Choices(t)[0]
    ensures next.(backgroundType := prev.backgroundType, backgroundValue := prev.backgroundValue) == prev
  {
    prev.(backgroundType := t, backgroundValue := catalog.Choices(t)[0])
  }

  /** Picking a stock background, or a colour from the colour input. */
  function PickBackgroundValue(prev: AppState, v: string): (next: AppState)
    ensures next.backgroundValue == v && next.(backgroundValue := prev.backgroundValue) == prev
  {
    prev.(backgroundValue := v)
  }

  function SetLogoPosition(prev: AppState, pos: LogoPosition): (next: AppState)
    ensures next.logoPosition == pos && next.(logoPosition := prev.logoPosition) == prev
  {
    prev.(logoPosition := pos)
  }

  function SetFontSize(prev: AppState, size: int): (next: AppState)
    ensures next.fontSize == size && next.(fontSize := prev.fontSize) == prev
  {
    prev.(fontSize := size)
  }

  function SetTextColor(prev: AppState, color: string): (next: AppState)
    ensures next.textColor == color && next.(textColor := prev.textColor) == prev
  {
    prev.(textColor := color)
  }

  /** One user action on the sidebar, with the value the control delivers. */
  datatype Event =
    | SurahChosen(choice: Option<int>)
    | StartAyahEntered(start: int)
    | EndAyahEntered(end: int)
    | ReciterChosen(identifier: string)
    | BackgroundTypeChosen(t: BackgroundType)
    | BackgroundValuePicked(value: string)
    | BackgroundUploaded(bg: Option<Upload>)
    | LogoUploaded(logo: Option<Upload>)
    | LogoPositionChosen(pos: LogoPosition)
    | FontSizeChosen(size: int)
    | TextColorChosen(color: string)

  /** The update the sidebar hands to the state setter for an event. */
  function Handle(prev: AppState, surahs: seq<Surah>, catalog: Catalog, e: Event): (next: AppState)
    requires catalog.Valid()
    ensures !e.ReciterChosen? ==> next.reciter == prev.reciter
    ensures !(e.SurahChosen? || e.StartAyahEntered? || e.EndAyahEntered?) ==>
      next.surah == prev.surah && next.startAyah == prev.startAyah && next.endAyah == prev.endAyah
    ensures !(e.BackgroundTypeChosen? || e.BackgroundValuePicked? || e.BackgroundUploaded?) ==>
      next.backgroundType == prev.backgroundType && next.backgroundValue == prev.backgroundValue
    ensures !e.LogoUploaded? ==> next.logoUrl == prev.logoUrl
    ensures !e.LogoPositionChosen? ==> next.logoPosition == prev.logoPosition
    ensures !e.FontSizeChosen? ==> next.fontSize == prev.fontSize
    ensures !e.TextColorChosen? ==> next.textColor == prev.textColor
  {
    match e
    case SurahChosen(choice) => SelectSurah(prev, surahs, choice)
    case StartAyahEntered(v) => SetStartAyah(prev, v)
    case EndAyahEntered(v) => SetEndAyah(prev, v)
    case ReciterChosen(id) => SelectReciter(prev, catalog.reciters, id)
    case BackgroundTypeChosen(t) => ChooseBackgroundType(prev, catalog, t)
    case BackgroundValuePicked(v) => PickBackgroundValue(prev, v)
    case BackgroundUploaded(f) => UploadBackground(prev, f)
    case LogoUploaded(f) => UploadLogo(prev, f)
    case LogoPositionChosen(pos) => SetLogoPosition(prev, pos)
    case FontSizeChosen(size) => SetFontSize(prev, size)
    case TextColorChosen(c) => SetTextColor(prev, c)
  }

  /** Only choosing a reciter can change the reciter, and the new one is a listed reciter. */
  lemma OnlyReciterChoiceChangesReciter(prev: AppState, surahs: seq<Surah>, catalog: Catalog, e: Event)
    requires catalog.Valid()
    requires Handle(prev, surahs, catalog, e).reciter != prev.reciter
    ensures e.ReciterChosen?
    ensures Handle(prev, surahs, catalog, e).reciter in catalog.reciters
  {
  }

  /** The background type changes only through the type toggle or an upload, and an
      upload never selects the colour type. */
  lemma BackgroundTypeChanges(prev: AppState, surahs: seq<Surah>, catalog: Catalog, e: Event)
    requires catalog.Valid()
    requires Handle(prev, surahs, catalog, e).backgroundType != prev.backgroundType
    ensures e.BackgroundTypeChosen? || e.BackgroundUploaded?
    ensures e.BackgroundUploaded? ==> Handle(prev, surahs, catalog, e).backgroundType != Color
  {
  }
}
