# Quran reel editor: playback controller, verse list builder and sidebar handlers

The repository is a browser editor that previews a short vertical "reel": a range
of verses of one chapter, recited by a chosen reciter, over an image, video or
colour background with a channel logo. Three pieces of it hold logic, and this
Dafny project models them and proves their properties.

- **Playback controller** (`video_preview.dfy`, module `VideoPreview`). The
  preview component keeps three state variables: whether the recitation plays,
  the index of the active verse, and the progress of the active verse's audio.
  Audio events and buttons update them. The class `Player` holds these fields,
  the length of the verse list it shows, and the play state of the background
  video. It has one method per transition: reset, `ended`, `timeupdate`,
  play/pause, restart and background-video sync. Each method is specified by a
  pure transition function on the `Playback` record (`Ended`, `TimeUpdate`,
  `Toggle`, `Restart`, `SyncBackgroundVideo`). The lemmas are proved about those
  functions. The main invariant is that the active index is a valid position (or
  0 for an empty list). `Player.Valid()` states it and every method keeps it.
- **Verse list builder** (`quran_service.dfy`, module `QuranService`). The text
  edition and the reciter's audio edition of a chapter are zipped by position. A
  missing audio entry becomes `""`. The result is filtered to the requested
  verse numbers. The two HTTP responses are `Option` inputs, and `None` means a
  response without data.
- **Sidebar handlers** (`config_sidebar.dfy`, module `ConfigSidebar`). Every
  control hands the state setter a copy of the previous `AppState` with some
  fields replaced. Each handler is a function `AppState -> AppState`. `Handle`
  dispatches a sidebar `Event` to its handler.
- `types.dfy` (module `Types`) holds the records of `types.ts`. It also holds
  `Catalog`, the option lists of `constants.ts`, whose contents are treated as
  opaque data.

Points about the code that the model keeps as they are:
- The progress is a percentage, `currentTime / duration * 100`, and the code does
  not clamp it. The model proves the bound 0..100 only when the position lies
  within the duration (`TimeUpdateBounds`).
- The verse range is not clamped before filtering. An inverted or out-of-chapter
  range just selects fewer verses (`FilterRangeInverted`, `FilterRangeConsecutive`).
- The play/pause button has two guards in the code. It is disabled for an empty
  list. It also does nothing while no audio element is mounted, which is the
  case while the list is loading. `Toggle` models both guards.

## Model

| member | source | states |
|---|---|---|
| `VideoPreview.Player.constructor` | components/VideoPreview.tsx:12-17 | The component mounts paused at verse 0 with progress 0, an empty list and the background video not playing. |
| `VideoPreview.Player.Reset` | components/VideoPreview.tsx:22-34 | When a new list arrives or the reciter changes, the state becomes (paused, 0, 0) whatever it was before. The new length is adopted, the index stays valid and the background video flag is untouched. |
| `VideoPreview.Player.HandleEnded` | components/VideoPreview.tsx:41-48 | The `ended` event moves the state to `Ended` of the old state. The list length and the background video are unchanged, and the index stays valid. |
| `VideoPreview.Player.HandleTimeUpdate` | components/VideoPreview.tsx:50-54 | The `timeupdate` event moves the state to `TimeUpdate` of the old state, position and duration. The index stays valid. |
| `VideoPreview.Player.TogglePlay` | components/VideoPreview.tsx:91-100 | A click moves the state to `Toggle`: the play flag flips only when the list is non-empty and an audio element is mounted. |
| `VideoPreview.Player.RestartPlayback` | components/VideoPreview.tsx:297-303 | Restart moves the state to `Restart` of the old state: paused at verse 0, with the progress kept. |
| `VideoPreview.Player.SyncBackground` | components/VideoPreview.tsx:71-79 | The sync effect sets the background-video flag as `SyncBackgroundVideo` says. It changes nothing else. |
| `VideoPreview.SyncBackgroundVideo` | components/VideoPreview.tsx:71-79 | With a mounted video background, the video's play state after the sync equals the playing flag. Otherwise it stays what it was. |
| `VideoPreview.GetLogoClass` | components/VideoPreview.tsx:137-145 | Any string other than the four position keys gets the top-right classes `top-6 right-6`. |
| `VideoPreview.LogoClassDistinct` | components/VideoPreview.tsx:139-142 | The four logo positions map to four different class strings. |
| `VideoPreview.LogoClassPlacement` | components/VideoPreview.tsx:139-142 | The class starts with `bottom-20` exactly for the two bottom positions and with `top-6` exactly for the two top ones. It ends with `left-6` exactly for the two left positions and with `right-6` exactly for the two right ones. |
| `VideoPreview.Ended` | components/VideoPreview.tsx:41-48 | An `ended` event keeps a valid index valid and never starts playback. It leaves the progress unchanged. |
| `VideoPreview.TimeUpdate` | components/VideoPreview.tsx:50-54 | A time update never changes the playing flag or the index. With a known non-zero duration d the new progress p satisfies p·d = currentTime·100. Otherwise the progress is kept. |
| `VideoPreview.Toggle` | components/VideoPreview.tsx:91-99 | The toggle never changes the index or the progress. The playing flag changes exactly when the list is non-empty and an audio element is mounted. |
| `VideoPreview.Restart` | components/VideoPreview.tsx:297-299 | Restart gives the reset state in every field except the progress, which it keeps. |
| `VideoPreview.EndedAdvances` | components/VideoPreview.tsx:42-43 | Before the last verse, `ended` moves to index + 1. The playing flag and the progress are unchanged. |
| `VideoPreview.EndedWraps` | components/VideoPreview.tsx:44-47 | At the last verse, `ended` goes back to index 0 and pauses. The progress is kept. |
| `VideoPreview.TransitionsKeepIndexValid` | components/VideoPreview.tsx:22-54 | Reset, `ended`, `timeupdate`, toggle and restart each keep the active index valid for the list length. |
| `VideoPreview.EndedTimesKeepsIndexValid` | components/VideoPreview.tsx:41-48 | Any number of `ended` events in a row keeps the index valid. |
| `VideoPreview.EndedTimesAdvance` | components/VideoPreview.tsx:41-48 | While verses remain, k `ended` events advance the index by k. The playing flag does not change. |
| `VideoPreview.EndedCycle` | components/VideoPreview.tsx:41-48 | From verse 0 of a list of n ≥ 1 verses, exactly n `ended` events return to verse 0, paused. Every shorter run is still on verse k with the playing flag unchanged. |
| `VideoPreview.TimeUpdateProgress` | components/VideoPreview.tsx:50-54 | With a known non-zero duration d, the new progress p satisfies p·d = currentTime·100. With a zero or unknown duration the state is unchanged. Only the progress ever changes. |
| `VideoPreview.TimeUpdateBounds` | components/VideoPreview.tsx:52 | When 0 ≤ currentTime ≤ duration, the progress lies in 0..100. It is 100 exactly at the end. |
| `VideoPreview.ToggleFlips` | components/VideoPreview.tsx:91-99 | The toggle flips only the playing flag when it can act, and otherwise does nothing. Two toggles cancel out. |
| `VideoPreview.RestartIsResetKeepingProgress` | components/VideoPreview.tsx:297-302 | Restart equals the reset state except that it keeps the progress. It is idempotent. |
| `QuranService.AudioAt` | services/quranService.ts:51 | Position i gets audio verse i's reference when that entry exists and has one, and `""` otherwise. |
| `QuranService.Merge` | services/quranService.ts:49-52 | The merged list is as long as the text list. Entry i keeps every field of text verse i except the audio. The audio is audio verse i's reference when that entry exists and has one, else `""`. |
| `QuranService.FilterRange` | services/quranService.ts:55 | The result is no longer than the input. Every returned verse comes from the input and has start ≤ numberInSurah ≤ end. |
| `QuranService.FilterRangeKeeps` | services/quranService.ts:55 | Every input verse in range is returned, so membership is an equivalence. |
| `QuranService.FilterRangeAppend` | services/quranService.ts:55 | The filter of a concatenation is the concatenation of the filters, so the original order is kept. |
| `QuranService.FilterRangeNone` | services/quranService.ts:55 | A list with no verse in range filters to the empty list. |
| `QuranService.FilterRangeAll` | services/quranService.ts:55 | A list with every verse in range filters to itself. |
| `QuranService.FilterRangeInverted` | services/quranService.ts:55 | If start > end the result is empty. |
| `QuranService.FilterRangeConsecutive` | services/quranService.ts:55 | Take verses numbered consecutively from `first` and a range inside the chapter. The result is exactly the slice at positions start−first .. end−first. |
| `QuranService.SevenVersesTwoToFour` | services/quranService.ts:55 | Verses numbered 1..7 with range [2, 4] give three verses, numbered 2, 3 and 4. |
| `QuranService.FetchAyahsWithAudio` | services/quranService.ts:43-55 | If either response has no data the result is empty. The result is never longer than the text list. Every returned verse is in range and carries an audio string, which is `""` when the audio edition has none. |
| `QuranService.FetchMembership` | services/quranService.ts:49-55 | With both responses present, a verse is returned exactly when it is some text verse i carrying audio i's reference and its number is in range. |
| `QuranService.FetchConsecutive` | services/quranService.ts:43-55 | Take a chapter numbered 1..n and a range inside it. The result has end − start + 1 verses. Verse k is text verse start−1+k with the audio of the same position. |
| `ConfigSidebar.FindFirst` | components/ConfigSidebar.tsx:66 | The result is absent exactly when no element matches. Otherwise it is a matching element with no match before it. |
| `ConfigSidebar.FindSurah` | components/ConfigSidebar.tsx:66 | No chapter is found exactly when the placeholder option is chosen or no listed chapter has the chosen number. A found chapter is listed and has that number. |
| `ConfigSidebar.SelectSurah` | components/ConfigSidebar.tsx:65-68 | No match, or the placeholder option, leaves the state unchanged. A match selects a listed chapter with that number and sets start 1 and end min(5, its verse count). All other fields are unchanged. |
| `ConfigSidebar.SelectSurahTakesFirst` | components/ConfigSidebar.tsx:66 | The first listed chapter with the chosen number is the one selected. |
| `ConfigSidebar.SelectSurahRangeValid` | components/ConfigSidebar.tsx:67 | For a chapter with at least one verse, the new range satisfies 1 ≤ start ≤ end ≤ verse count and end ≤ 5. |
| `ConfigSidebar.SetStartAyah` | components/ConfigSidebar.tsx:87 | Typing a start verse changes only `startAyah`. |
| `ConfigSidebar.SetEndAyah` | components/ConfigSidebar.tsx:98 | Typing an end verse changes only `endAyah`. |
| `ConfigSidebar.SelectReciter` | components/ConfigSidebar.tsx:115-118 | An unknown identifier leaves the state unchanged. Otherwise the reciter becomes a listed reciter with that identifier and nothing else changes. |
| `ConfigSidebar.SelectReciterTakesFirst` | components/ConfigSidebar.tsx:116 | The first listed reciter with the identifier is the one selected. |
| `ConfigSidebar.StartsWith` | components/ConfigSidebar.tsx:35 | The string starts with the prefix exactly when its first |prefix| characters equal the prefix. |
| `ConfigSidebar.BackgroundTypeOf` | components/ConfigSidebar.tsx:35 | The type is video exactly when the MIME type starts with `video/`. Otherwise it is image, never colour. |
| `ConfigSidebar.UploadBackground` | components/ConfigSidebar.tsx:30-37 | With no file the state is unchanged. Otherwise the value becomes the object URL, and the type is video exactly for a `video/` MIME type, else image. Only those two fields change. |
| `ConfigSidebar.UploadLogo` | components/ConfigSidebar.tsx:22-28 | With no file the state is unchanged. Otherwise only the logo URL changes, to the object URL. |
| `ConfigSidebar.ChooseBackgroundType` | components/ConfigSidebar.tsx:136-148 | A type toggle sets the type and sets the value to the first stock background of that type. Only those two fields change. |
| `ConfigSidebar.PickBackgroundValue` | components/ConfigSidebar.tsx:161 | Picking a background changes only the background value. |
| `ConfigSidebar.SetLogoPosition` | components/ConfigSidebar.tsx:238 | Picking a logo position changes only `logoPosition`. |
| `ConfigSidebar.SetFontSize` | components/ConfigSidebar.tsx:261 | The font-size slider changes only `fontSize`. |
| `ConfigSidebar.SetTextColor` | components/ConfigSidebar.tsx:271 | A text-colour button changes only `textColor`. |
| `ConfigSidebar.Handle` | components/ConfigSidebar.tsx:22-271 | Each sidebar event leaves every field it does not address unchanged. Only the reciter choice touches the reciter. Only the chapter choice and the two range inputs touch the chapter and the range. Only the type toggle, a value pick or an upload touches the background. The logo upload, the logo position, the font size and the text colour are each touched only by their own control. |
| `ConfigSidebar.OnlyReciterChoiceChangesReciter` | components/ConfigSidebar.tsx:115-118 | Of all sidebar events, only choosing a reciter can change the reciter, and the new reciter is a listed one. |
| `ConfigSidebar.BackgroundTypeChanges` | components/ConfigSidebar.tsx:35-36 | Only the type toggle or an upload changes the background type, and an upload never selects colour. |

## Left out

- The HTTP requests, `response.json()` and the `try`/`catch` in `fetchAyahsWithAudio` are not modelled. The two responses are `Option` inputs. A response whose data is present but has no verse list also ends in the `catch` with an empty result, and `None` covers that case too.
- `fetchSurahs` (services/quranService.ts:4-13) is a network call that falls back to an empty list on failure. It is not modelled, and the surah list is a parameter.
- The `limit` and `offset` values (services/quranService.ts:29-31) are computed but never used.
- `parseInt` can produce NaN. Only the surah placeholder option (`''`) is modelled this way, as `None`. The start, end and font-size inputs are modelled as integers, so NaN typed into them is not modelled.
- Progress uses exact `real` arithmetic, not IEEE doubles. An infinite duration (live streams) is not modelled. An unknown (NaN) duration is `None`.
- `audio.play()`, `audio.pause()`, the rejected-play `.catch`, and the play effect that restarts audio when the index changes (components/VideoPreview.tsx:64-68) are browser media side effects. Only the playing flags are modelled.
- The auto-scroll effect, `scrollTo`, `scrollIntoView` and the `currentTime` assignments on media elements are DOM side effects and are not modelled.
- Whether an audio or video element is mounted depends on the rendered markup. It enters the model as the parameters `audioMounted` and `videoMounted`.
- React may render once between a list replacement and the reset effect, with the old index into the new list. The model's `Reset` adopts the new length and resets in one step.
- Sharing, copying the link, the share modal and the export button are thin wrappers around browser calls (`window.open`, clipboard, `alert`, `setTimeout`) and are not modelled.
- The asynchronous orchestration in App.tsx (`handleGeneratePreview`, the reciter re-fetch effect, and stale responses overwriting newer ones) is event-loop concurrency and is not modelled. App's initial state is not modelled either.
- The contents of constants.ts (reciters, URLs, colours) are data. The lists enter as a `Catalog` whose three background lists are non-empty.
- JSX markup and styling are not modelled, apart from the strings `getLogoClass` returns.
