# Sadaqah Jariyah Radio — a verified model of the player core

Sadaqah Jariyah Radio is a browser audio player for Quran recitations. This
project models its core in Dafny:

- **The surah catalog** (`Surahs`, `src/data/surahs.js`). It has 114 entries,
  each with an id, number, name and Arabic placeholder name. Ten of them have a
  recording: surahs 1–9 and surah 112.
- **Clip file names** (`ClipParser`, `src/utils/clipParser.js`). A clip named
  `<ReciterToken>_<range>.mp3` is parsed into a reciter label and a verse
  range. The label comes from two regular-expression replacements, which insert
  spaces at word boundaries.
- **The clips manifest** (`ClipsManifest`, `src/data/clipsManifest.js`). It
  turns the clip files listed for a surah into playable audio options.
- **The verse-range grammar** (`VerseRanges`). A range `"start-end"` names the
  inclusive verses from `start` to `end`. The verse panel's `parseRange` and the
  build script's `getVerseNumbersFromRange` implement it with the same guards
  and the same push loop, which is modelled once as the method `ParseRange`.
- **The verse panel** (`VersesDisplay`, `src/components/VersesDisplay.jsx`).
  Given the current surah and audio option, it decides which verses to list.
- **Reciter descriptions** (`ReciterDescriptions`,
  `src/data/reciterDescriptions.js`).
- **The verse build script** (`FetchVerses`, `scripts/fetchVersesFromAPI.js`).
  It collects, per surah, the verses covered by clip files on disk. It then
  takes their texts from the Quran.com API answer and renders them as a
  JavaScript module. The directory listing and the API answers are inputs.
  Sets are distinct lists in insertion order, as JavaScript `Set`s are. An
  object's key list (`Object.keys`) is a distinct list of its keys in no
  promised order; the script sorts it before use. The text is built up step
  by step, as in the script.
- **The player** (`App`, `src/App.jsx`). The class `App.Player` holds the
  component's state: `currentSurah`, `isPlaying`, `progress`, `duration` and
  the audio element's `src`. Each handler is a method proved against a pure
  transition on `PlayerState`.
  - The cyclic "nearest surah with a recording" search is written once, as
    `App.CyclicSearch`. `handleNext`, `handlePrevious`, the `ended` listener
    and the two arrow keys all reach it through `App.Player.MoveTo`.
  - A `play()` call's success is a boolean parameter.
  - A change of the current surah runs the source effect: the new `src`,
    progress 0, and playback attempted.

What the player's code does and does not do:

- The code has no loop mode, no auto-advance preference, no listening-time
  accumulator and no preferred-reciter resolution, so none is modelled.
- `ended` always searches forward.
- `error` only clears `isPlaying`.

## Model

| member | source | states |
|---|---|---|
| Strings.StripSuffix | src/utils/clipParser.js:10 | `replace(/\.mp3$/, '')` removes one trailing extension and leaves any other name unchanged |
| Strings.SplitCount | src/utils/clipParser.js:13-14 | `split('_')` yields one more piece than there are separators |
| Strings.SplitJoin | src/utils/clipParser.js:13 | joining the split pieces with the separator restores the string |
| Strings.SplitTwo | src/utils/clipParser.js:13-18 | `a_b` with no `_` in `a` or `b` splits into exactly `[a, b]` |
| Strings.SplitTwoPieces | src/utils/clipParser.js:13-18 | two pieces means the string is `piece0 + sep + piece1`, neither piece holding `sep` |
| Strings.DecimalStringValue | src/data/surahs.js:34 | a number's decimal rendering reads back as that number, with no leading zero |
| Strings.ParseIntDigitPrefix | src/components/VersesDisplay.jsx:11-12 | `parseInt(s, 10)` reads the leading digits and ignores what follows a non-digit |
| Strings.ParseIntDecimal | src/components/VersesDisplay.jsx:11-12 | a rendered number followed by non-digits parses back to the number |
| Strings.IncreasingUnique | scripts/fetchVersesFromAPI.js:79-82 | an ascending list is determined by its elements, so the sorted array of a set is unique |
| ClipParser.SpaceCamelIsCamel | src/utils/clipParser.js:24 | the left-to-right replacement of `([a-z])([A-Z])` inserts a space at every lower-to-upper boundary |
| ClipParser.FormatReciterIsSpaced | src/utils/clipParser.js:23-25 | the two replacements together equal the reference reading: one space before each boundary capital |
| ClipParser.FormatReciterOnlyAddsSpaces | src/utils/clipParser.js:23-25 | formatting only inserts spaces: removing spaces from the label and from the token gives the same text |
| ClipParser.SpaceCamelWordThenCapital | src/utils/clipParser.js:24 | a word ending in a lower-case letter followed by a capital gets exactly one space between them |
| ClipParser.SpaceCamelNoBoundary | src/utils/clipParser.js:24 | without a lower-to-upper boundary the first replacement changes nothing |
| ClipParser.SpaceAcronymNoCapitalPair | src/utils/clipParser.js:25 | without two adjacent capitals the second replacement changes nothing |
| ClipParser.SpaceAcronymPlainWord | src/utils/clipParser.js:25 | a run without adjacent capitals and not ending in one passes the second replacement unchanged |
| ClipParser.ParseClipFilename | src/utils/clipParser.js:8-32 | a parsed name's display name is `reciter (range)` and its range holds no `_` |
| ClipParser.ParseFailsIffNotOneUnderscore | src/utils/clipParser.js:10-16 | parsing returns null exactly when the name, less one `.mp3`, does not hold exactly one `_` |
| ClipParser.ParseSuccessShape | src/utils/clipParser.js:13-31 | on success the stem is `token_range`, with the range verbatim and the reciter the formatted token |
| ClipParser.ParseComposedName | src/utils/clipParser.js:8-31 | round trip: parsing `token_range.mp3` gives back the range and the formatted token |
| ClipParser.DoubledExtensionStaysInRange | src/utils/clipParser.js:10 | only one trailing `.mp3` is removed; a second one stays in the range |
| ClipParser.FormatShiekhMagdiOsman | src/utils/clipParser.js:20-25 | `ShiekhMagdiOsman` is formatted as `Shiekh Magdi Osman` |
| ClipParser.FormatStranger | src/utils/clipParser.js:23-25 | `Stranger` is left unchanged |
| ClipParser.ParseShiekhMagdiOsmanExample | src/utils/clipParser.js:3-7 | the documented example parses to reciter `Shiekh Magdi Osman` and range `1-6` |
| ClipParser.CreateClipAudioOption | src/utils/clipParser.js:54-68 | null exactly when the name does not parse; otherwise the parsed fields, `isClip`, and the URL `baseUrl + "audio_files/clips/" + folder + "/" + filename`, which ends in `/filename` |
| ClipParser.LoadClipsForSurah | src/utils/clipParser.js:38-49 | the placeholder loader always returns no clips |
| ClipsManifest.ClipOptions | src/data/clipsManifest.js:24-35 | mapping and filtering never yields more options than entries |
| ClipsManifest.GetClipsForSurah | src/data/clipsManifest.js:20-36 | a surah missing from the manifest gets no clips (`\|\| []`); otherwise at most one option per entry |
| ClipsManifest.KeptIndices | src/data/clipsManifest.js:35 | the positions kept by `filter(Boolean)` are ascending, in range, and exactly those of parsable names |
| ClipsManifest.ClipOptionsKeepOrder | src/data/clipsManifest.js:24-35 | the k-th option is built from the k-th parsable entry, in manifest order |
| ClipsManifest.GetClipsForSurahOptions | src/data/clipsManifest.js:20-36 | every returned option has the parsed fields, `isClip`, and the URL `base + audio_files/clips/folder/filename` |
| ClipsManifest.Surah109Clips | src/data/clipsManifest.js:9-11 | surah 109 has one clip, by Shiekh Magdi Osman, covering verses 1-6 |
| ClipsManifest.Surah112Clips | src/data/clipsManifest.js:12-14 | surah 112 has one clip, by Stranger, covering verses 1-4 |
| VerseRanges.ParseRange | src/components/VersesDisplay.jsx:6-21 | the push loop returns exactly the verses the range denotes |
| VerseRanges.RangeVersesShape | src/components/VersesDisplay.jsx:6-21 | an accepted range gives `start..end` ascending by one with `end-start+1` numbers; a rejected one gives `[]` |
| VerseRanges.NotOneDashRejected | src/components/VersesDisplay.jsx:8-9 | a range without exactly one `-` yields no verses |
| VerseRanges.NumericPrefixAccepted | src/components/VersesDisplay.jsx:11-14 | each bound is read by `parseInt`, so `"1a-3b"` reads as 1 to 3 |
| VerseRanges.RangeRoundTrip | src/components/VersesDisplay.jsx:6-21 | `"<start>-<end>"` with `1 <= start <= end` denotes exactly `start..end` |
| VerseRanges.BadBoundsRejected | src/components/VersesDisplay.jsx:14 | an inverted range or a start of 0 yields no verses |
| VersesDisplay.WithText | src/components/VersesDisplay.jsx:29-34 | the filtered list is never longer than the range |
| VersesDisplay.WithTextSound | src/components/VersesDisplay.jsx:29-34 | every listed verse comes from the range and carries its non-empty stored text |
| VersesDisplay.WithTextComplete | src/components/VersesDisplay.jsx:29-34 | every verse of the range with a text is listed |
| VersesDisplay.WithTextOrdered | src/components/VersesDisplay.jsx:28-34 | filtering keeps ascending verse order |
| VersesDisplay.VisibleVersesNoneIff | src/components/VersesDisplay.jsx:23-38 | the panel renders nothing exactly when surah, option or range is missing, or no verse of the range has a text |
| VersesDisplay.VisibleVersesContents | src/components/VersesDisplay.jsx:28-38 | when shown, the panel lists exactly the range's verses with text, each with that text, ascending |
| Surahs.Catalog | src/data/surahs.js:19-40 | the catalog has 114 entries |
| Surahs.NameTableSize | src/data/surahs.js:4-17 | the name table has one name per surah |
| Surahs.CatalogEntry | src/data/surahs.js:31-39 | entry i is surah i+1 with the i-th name, the Arabic placeholder and no extra clips |
| Surahs.CatalogAudio | src/data/surahs.js:24-29 | a surah has a recording exactly when its number is at most 9 or is 112, at the corresponding URL |
| Surahs.HasAudioAt | src/data/surahs.js:24-29 | position i has a recording exactly when i <= 8 or i == 111 |
| Surahs.PlayableCount | src/data/surahs.js:24-29 | exactly ten surahs are playable: positions 0-8 and 111 |
| Surahs.FindIndexById | src/App.jsx:105 | `findIndex` returns the first position holding the id, or -1 exactly when none does |
| Surahs.CatalogFindIndex | src/App.jsx:105 | catalog ids are distinct and surah `id` sits at position `id - 1` |
| ReciterDescriptions.GetReciterDescription | src/data/reciterDescriptions.js:18-21 | the corrected lookup (own entries only) always returns a non-empty description |
| ReciterDescriptions.DescriptionOf | src/data/reciterDescriptions.js:20 | a table key gets its own entry, which is non-empty, so the `\|\|` fallback never fires for it |
| ReciterDescriptions.TableValuesNonEmpty | src/data/reciterDescriptions.js:4-11 | every table entry is a non-empty string |
| ReciterDescriptions.DescriptionCases | src/data/reciterDescriptions.js:18-21 | falsy name gives the "no description" text, a key its entry, any other name the generic text |
| ReciterDescriptions.ManifestReciterDescribed | src/data/reciterDescriptions.js:8-9 | the labels the parser gives the manifest's clips have their own descriptions |
| ReciterDescriptions.GetReciterDescriptionAsWritten | src/data/reciterDescriptions.js:18-21 | the lookup as written; any string it returns is non-empty |
| ReciterDescriptions.ConstructorNameReturnsFunction | src/data/reciterDescriptions.js:20 | as written, the name `constructor` returns an inherited member instead of a description |
| ReciterDescriptions.AsWrittenAgreesOffPrototype | src/data/reciterDescriptions.js:18-21 | away from `Object.prototype` member names, the lookup as written and the corrected one agree |
| FetchVerses.ClipRangeAgreesWithParser | scripts/fetchVersesFromAPI.js:11-18 | the script's `parseRange(filename)` fails on the same names as the player's parser and yields the same range |
| FetchVerses.GetVerseNumbersFromRange | scripts/fetchVersesFromAPI.js:21-36 | the script's expansion is the same range grammar as the panel's |
| FetchVerses.FolderNumberCases | scripts/fetchVersesFromAPI.js:55-58 | `<number>-<rest>` folders are numbered by that number; names not starting with a digit are skipped |
| FetchVerses.Mp3Files | scripts/fetchVersesFromAPI.js:60-61 | a file is kept exactly when it is listed and ends in `.mp3` |
| FetchVerses.FilesVersesMembers | scripts/fetchVersesFromAPI.js:69-75 | a folder's verses are those of the ranges of its files |
| FetchVerses.VerseSetsKeys | scripts/fetchVersesFromAPI.js:54-67 | a surah gets an entry exactly when some numbered folder for it holds an `.mp3` file |
| FetchVerses.VerseSetsMembers | scripts/fetchVersesFromAPI.js:54-76 | a surah's verses are exactly those covered by the `.mp3` files of its folders |
| FetchVerses.AddFolderStep | scripts/fetchVersesFromAPI.js:63-75 | one folder adds its files' verses to its surah's entry and nothing else |
| FetchVerses.SetAdd | scripts/fetchVersesFromAPI.js:73 | `Set.add` keeps the elements distinct and adds exactly one value |
| FetchVerses.AddVerses | scripts/fetchVersesFromAPI.js:72-73 | adding a range's verses one by one yields the union, without duplicates |
| FetchVerses.CollectFolder | scripts/fetchVersesFromAPI.js:54-76 | one folder of the loop keeps each surah's `Set` holding exactly the verses of the folders seen so far, with the object's keys listed once each |
| FetchVerses.AddFiles | scripts/fetchVersesFromAPI.js:69-75 | the files loop adds exactly the verses of the files' ranges |
| FetchVerses.Insert | scripts/fetchVersesFromAPI.js:81 | inserting into an ascending list keeps it ascending and adds exactly one element |
| FetchVerses.SortNumbers | scripts/fetchVersesFromAPI.js:81 | `sort((a, b) => a - b)` of a set gives its elements in ascending order |
| FetchVerses.ExtractVerseRanges | scripts/fetchVersesFromAPI.js:39-85 | the result has one ascending, duplicate-free list per surah with clips, holding exactly the verses its clips cover |
| FetchVerses.FetchVersesForChapter | scripts/fetchVersesFromAPI.js:88-120 | the loop over the API's verses builds the chapter map element by element |
| FetchVerses.ChapterMapKeys | scripts/fetchVersesFromAPI.js:102-112 | verse n is in the chapter map exactly when some element has a key naming verse n > 0 and a text |
| FetchVerses.ChapterMapValue | scripts/fetchVersesFromAPI.js:104-112 | the stored text is that of the last element naming the verse, and is non-empty |
| FetchVerses.VerseKeyRoundTrip | scripts/fetchVersesFromAPI.js:107 | the key `"<chapter>:<verse>"` is read as its verse number |
| FetchVerses.PickFromApi | scripts/fetchVersesFromAPI.js:130-139 | a requested verse gets the API's text when an element names it, else the `""` placeholder |
| FetchVerses.FetchVersesForSurah | scripts/fetchVersesFromAPI.js:123-145 | every requested number becomes a key, holding the picked text |
| FetchVerses.Escape | scripts/fetchVersesFromAPI.js:200 | escaping adds exactly one character per double quote |
| FetchVerses.EscapeRoundTrip | scripts/fetchVersesFromAPI.js:200 | unescaping the escaped text gives the original text back |
| FetchVerses.EscapedQuotesArePreceded | scripts/fetchVersesFromAPI.js:200 | every double quote in the escaped text is preceded by a backslash |
| FetchVerses.RenderLines | scripts/fetchVersesFromAPI.js:197-202 | one line per verse number, in order, with the escaped text; the text is their concatenation |
| FetchVerses.RenderSurah | scripts/fetchVersesFromAPI.js:191-204 | a surah's block lists its verses ascending with escaped texts; the text is header, lines and footer |
| FetchVerses.FetchAll | scripts/fetchVersesFromAPI.js:165-175 | exactly the surahs with a non-empty list are fetched, each with all its needed verses |
| FetchVerses.RenderNext | scripts/fetchVersesFromAPI.js:190-204 | one rendering step appends the surah's block exactly when it was fetched with verses |
| FetchVerses.RenderAll | scripts/fetchVersesFromAPI.js:190-204 | the blocks are in ascending surah order, one per fetched surah with verses, and the text is their concatenation |
| FetchVerses.RebuildVerses | scripts/fetchVersesFromAPI.js:148-204 | the generated module lists, ascending, exactly the surahs whose clips name a verse, each with its needed verses ascending and their escaped API texts or `""` |
| App.Along | src/App.jsx:107-112 | a position k steps round the list is a valid index |
| App.Step | src/App.jsx:107-125 | one step of either search (`(i + 1) % n`, or `n - 1` from 0 and `i - 1` otherwise) stays in range |
| App.StepAlong | src/App.jsx:107-112 | a step from offset k lands on offset k + 1, in either direction |
| App.AlongLap | src/App.jsx:109-112 | going n more steps round the list comes back to the same position |
| App.Covers | src/App.jsx:107-112 | every position is reached at some offset between 1 and n |
| App.ScanSound | src/App.jsx:107-115 | a successful scan stops at a playable offset with none before it; a failed one saw none |
| App.CyclicSearch | src/App.jsx:107-115 | the search loop finds exactly the specified target |
| App.TargetIsNearest | src/App.jsx:107-115 | the target is the nearest playable surah after the current one, wrapping and possibly the current one; none exactly when nothing is playable |
| App.PreviousUndoesNext | src/App.jsx:103-131 | from the surah the forward search reaches, the backward search returns to the playable start |
| App.NextUndoesPrevious | src/App.jsx:103-131 | from the surah the backward search reaches, the forward search returns to the playable start |
| App.Navigate | src/App.jsx:103-116 | next and previous keep the player consistent |
| App.CurrentIndex | src/App.jsx:105 | the current surah is found in the catalog |
| App.FindOwnIndex | src/App.jsx:105 | with distinct ids, `findIndex` by a surah's id returns that surah's own position |
| App.NoCurrentNoChange | src/App.jsx:88-143 | with no current surah, play/pause, next, previous and every key change nothing |
| App.TransitionsKeepConsistent | src/App.jsx:29-86 | every transition keeps the current surah a catalog entry with a recording, loaded into the audio element |
| App.NavigateMovesToNearest | src/App.jsx:103-116 | navigation always ends on the nearest playable surah; moving to another one loads it, rewinds and starts playback; staying changes nothing |
| App.PreviousAfterNext | src/App.jsx:103-131 | previous after next, and next after previous, return the player to the surah it was on |
| App.EndedStopsOrMovesOn | src/App.jsx:37-53 | after `ended` the player is stopped and rewound unless it moved to another surah, which then starts; the only playable surah is not replayed |
| App.KeyDownCases | src/App.jsx:134-189 | text-field keys are ignored; space and the arrows are prevented and act as play/pause, next and previous; other keys change nothing |
| App.CatalogNavigation | src/App.jsx:107-130 | on the real catalog next goes 9→112 and 112→1, previous goes 1→112 and 112→9 |
| App.Player.constructor | src/App.jsx:9-15 | the player starts with no surah, stopped, at 0 |
| App.Player.SetCurrentSurah | src/App.jsx:68-80 | setting a different surah loads its recording, rewinds and attempts playback; setting the same one changes nothing |
| App.Player.HandleSurahSelect | src/App.jsx:82-86 | a surah without a recording is ignored; otherwise it becomes current |
| App.Player.HandlePlayPause | src/App.jsx:88-101 | pauses when playing, else attempts playback; nothing happens without a current surah |
| App.Player.MoveTo | src/App.jsx:103-131 | finding the current index, searching in the given direction and selecting the result navigates as `Navigate` specifies and keeps the player valid |
| App.Player.HandleNext | src/App.jsx:103-116 | moves to the nearest playable surah forward |
| App.Player.HandlePrevious | src/App.jsx:118-131 | moves to the nearest playable surah backward |
| App.Player.OnEnded | src/App.jsx:37-53 | stops, rewinds and moves forward |
| App.Player.OnError | src/App.jsx:55-57 | only clears `isPlaying` |
| App.Player.OnTimeUpdate | src/App.jsx:33-35 | progress takes the element's current time |
| App.Player.OnLoadedMetadata | src/App.jsx:29-31 | duration takes the element's duration |
| App.Player.HandleKeyDown | src/App.jsx:133-193 | dispatches keys as the listener does and reports whether the default action was prevented |

## Left out

- Browser and Node I/O are outside the model: the `Audio` element, `fetch`, `fs`, `path`, `setTimeout` delays, `console` output and `document.title`. The directory listing and the API answers are parameters of the build script.
- `BASE_URL` (`import.meta.env.BASE_URL`) is a parameter `baseUrl`.
- Promise timing of `play()` is not modelled. Its outcome is the parameter `playOk`, and the model shows the state after the promise settles.
- `currentTime` and `duration` are opaque `real` values assigned by the listeners. Floating point is not modelled.
- React scheduling is not modelled. `currentSurahRef` is taken to be in sync with `currentSurah`. The source effect runs when the surah changes to a different value; setting the same surah again bails out, as React does for an identical object.
- The mount step that creates the audio element, and the cleanup that pauses it, are not modelled. The handlers assume the element exists, which it does from the first effect on.
- App.Player.HandleSurahSelect requires a catalog entry, because the library only offers catalog entries. An entry from outside the catalog would make the later `findIndex` return -1.
- FetchVerses.ExtractVerseRanges, FetchVerses.FetchVersesForSurah, FetchVerses.CollectFolder: the key list they return promises no order. JavaScript's `Object.keys` lists these integer keys in ascending order, but the script sorts them again before use, so the output does not depend on that order.
- FetchVerses.RebuildVerses covers the per-surah blocks. The fixed file header and the exported helper functions written around them are constant text and are left out.
- FetchVerses.FetchVersesForChapter: an HTTP error or a thrown exception returns `{}`. That is modelled as a chapter with no verses in the API answer.
- Number precision is not modelled: JavaScript numbers above 2^53 lose precision in `parseInt`, and the model's integers are unbounded.
- Rendering (JSX markup, Tailwind classes), `src/components/Balcony.jsx`, `src/components/SurahLibrary.jsx`, `src/utils/supabase.js` and `vite.config.js` are not part of this model.
- Loop mode, listening-time statistics, persisted preferences and preferred-reciter resolution are not in the code, so they are not modelled.

## Findings

| source | as written | input that shows it | evidently intended | confidence | as-written member | corrected member |
|---|---|---|---|---|---|---|
| src/data/reciterDescriptions.js:20 | `reciterDescriptions[reciterName] \|\| generic` reads any property, including members inherited from `Object.prototype` | a clip named `constructor_1-3.mp3` gives the reciter label `constructor`; the lookup returns the `Object` function instead of a description | only the table's own entries are consulted, so unknown names get the generic sentence | not executed | ReciterDescriptions.GetReciterDescriptionAsWritten, shown by ReciterDescriptions.ConstructorNameReturnsFunction | ReciterDescriptions.GetReciterDescription |
