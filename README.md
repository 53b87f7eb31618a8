# Moments: a Dafny model of the moment store and the date-delta engine

The app records dated personal events ("moments") and shows, for each one, how
many days are left until it or have passed since it. This project models the
logic behind its four screens:

- **Add/edit screen** (`AddMoment`). The form state includes the image
  selection and the accent colour toggle. The validation guard rejects a form
  with a blank title, a blank note and no image. Saving reads the whole
  persisted collection, then either appends one new record or rewrites the
  records whose id matches, and writes the whole collection back.
- **List screen** (`Home`). Loading fails open to `[]`. Deleting by id keeps
  the order of the remaining records. The All / Days Until / Days Since tabs
  classify records by a whole-day difference truncated toward zero. Each card
  shows a day counter, a badge colour and a picture.
- **Detail screen** (`MomentDetails`). One millisecond difference `now - date`
  gives elapsed days (nested floors), approximate months and a zero-padded
  `HH:MM:SS` remainder, recomputed on every tick. The Edit button hands the
  record's image token back to the add screen.
- **Image picker** (`SelectImage`). A tile gives the token `predefined_{i+1}`.
  A gallery response is used only when it carries a usable URI.

Shared pieces:

- `Images`: the six-entry bundled catalog and the string-prefix resolver.
- `Records`: the record type, the outcome of reading and parsing the
  `saved_moments` key (`Absent | Malformed | NonArray | Arr`) and the storage
  cell.
- `Text`: `String.prototype.trim` with the ECMAScript whitespace set, and the
  decimal rendering of integers.
- `JsMath`: truncating division and JavaScript's sign-of-dividend `%`.
- `Seqs`: `Array.prototype.filter` with subsequence, membership and partition
  facts.
- `Navigation`: the flows between screens. A card opens the detail screen,
  Edit reopens the same record, saving is followed by a load, and a delete
  starts on the detail screen. This module also compares the card's day count
  with the detail screen's.

Conventions:

- Instants are integer milliseconds.
- dayjs's `diff(now, 'day')` is `(date - now) / 86400000` truncated toward
  zero.
- The detail screen's `Math.floor` is Dafny's `/` with a positive divisor.
- `Math.floor(totalDays / 30.44)` is the exact rational `(25 * totalDays) / 761`.
- Side effects are parameters. `Date.now().toString()` is the `newId`
  parameter. Whether `AsyncStorage.setItem` resolves is the `writeSucceeds`
  parameter. A picker's callback and `navigation.goBack()` are returned as a
  list of effects.

Three points where the code's behaviour differs from what one might expect
of the app; the model follows the code:

- Editing an id that no record has does not raise a not-found error.
  `handleSave` writes the collection back unchanged and navigates home
  (`AddMoment.EditUnknownIdIsNoop`).
- Catalog pictures and picked files are not told apart by a tagged value. They
  are told apart by the token's shape: the add screen checks catalog-key
  membership and the list and detail screens check the `predefined_` prefix.
  `AddMoment.DecodeEncode`, `AddMoment.PreviewMatchesList` and
  `Images.UnknownPredefinedIsUndefined` state where that is ambiguous.
- The list and the detail screen use opposite signs and different rounding
  for the day count (`Navigation.CardAndDetailsDays`). For a future moment the
  detail screen shows negative values and clock fields such as `0-1`
  (`MomentDetails.OneMillisecondAhead`).

## Model

| member | source | states |
|---|---|---|
| `Text.SkipForward` | src/screens/AddMomentScreen.tsx:116 | the scan from the front stops at the first non-whitespace character, and everything skipped is whitespace |
| `Text.SkipBackward` | src/screens/AddMomentScreen.tsx:116 | the scan from the back stops after the last non-whitespace character, and everything skipped is whitespace |
| `Text.Trim` | src/screens/AddMomentScreen.tsx:63 | `trim()` is empty exactly when the string is blank, has no whitespace at either end, and is the infix of the input whose surroundings are all whitespace |
| `Text.TrimIdempotent` | src/screens/AddMomentScreen.tsx:116-119 | trimming an already trimmed title or note changes nothing |
| `Text.Decimal` | src/screens/SelectImageScreen.tsx:38 | `${n}` is a digit string that reads back as `n`, has no leading zero, and is one digit exactly for `n < 10` |
| `Text.LeadingZero` | src/screens/MomentDetailsScreen.tsx:100 | a `0` put before a digit string does not change the number it denotes |
| `Text.DecimalInjective` | src/screens/SelectImageScreen.tsx:38 | two numbers render to the same decimal string exactly when they are equal |
| `JsMath.TruncDiv` | src/screens/HomeScreen.tsx:118 | the day difference truncated toward zero is non-negative exactly when the dividend exceeds minus one divisor, and non-positive exactly when it is below one divisor |
| `JsMath.Rem` | src/screens/MomentDetailsScreen.tsx:96-98 | JavaScript `%`: dividend = divisor * truncated quotient + remainder, the remainder in `0..d-1` for non-negative and in `-(d-1)..0` for negative dividends |
| `JsMath.NestedFloor` | src/screens/MomentDetailsScreen.tsx:88-91 | two successive `Math.floor` divisions equal one floor division by the product, for negative dividends too |
| `JsMath.TruncVersusFloor` | src/screens/HomeScreen.tsx:143 | truncation equals floor for non-negative dividends and for exact multiples, and is one more than floor for other negative dividends |
| `JsMath.FloorOfNegation` | src/screens/MomentDetailsScreen.tsx:86-91 | flooring `-a` gives the negated truncation of `a` when `a` is not positive or a multiple of the divisor, and one less otherwise |
| `Seqs.Filter` | src/screens/HomeScreen.tsx:117-122 | `filter` returns no more elements than it got, all of them accepted by the callback |
| `Seqs.FilterIsSubsequence` | src/screens/HomeScreen.tsx:102 | a filter's result is an order-preserving subsequence of its input |
| `Seqs.FilterMembership` | src/screens/HomeScreen.tsx:117 | a value is in a filter's result exactly when it is in the input and the callback accepts it |
| `Seqs.FilterKeepsAll` | src/screens/HomeScreen.tsx:102 | a filter whose callback accepts every element returns the input unchanged |
| `Seqs.FilterIdempotent` | src/screens/HomeScreen.tsx:102 | filtering twice with the same callback equals filtering once |
| `Seqs.Flags` | src/screens/HomeScreen.tsx:117-122 | one verdict per element, position by position |
| `Seqs.FilterPartition` | src/screens/HomeScreen.tsx:116-122 | two filters with opposite verdicts interleave back into the input exactly, and their sizes add up to the input's |
| `Images.Resolve` | src/screens/HomeScreen.tsx:125-138 | falsy values give the placeholder, catalog keys their picture, other `predefined_` strings `undefined`, other strings `{uri}`, objects pass through; never a bare string |
| `Images.CatalogKeysArePrefixed` | src/screens/AddMomentScreen.tsx:27-34 | every catalog key starts with `predefined_` |
| `Images.ResolveTwice` | src/screens/MomentDetailsScreen.tsx:37-48 | resolving an already resolved value changes nothing except that `undefined` becomes the placeholder |
| `Images.ThreeKindsDiffer` | src/screens/HomeScreen.tsx:126-134 | `null`, `predefined_3` and `file:///photo.jpg` resolve to the placeholder, catalog picture 3 and a `{uri}` source |
| `Images.UnknownPredefinedIsUndefined` | src/screens/HomeScreen.tsx:131-132 | `predefined_9` and a file named `predefined_photo.jpg` both resolve to `undefined` |
| `Images.FirstPredefinedIsPlaceholder` | src/screens/HomeScreen.tsx:26-33 | catalog entry `predefined_1` is the same picture as the placeholder |
| `Records.Ids` | src/screens/HomeScreen.tsx:245 | the id of each record, in order |
| `Records.Storage.constructor` | src/screens/HomeScreen.tsx:24 | the storage entry starts with the given value |
| `Records.Storage.SetItem` | src/screens/AddMomentScreen.tsx:138 | a write replaces the stored value with the whole collection |
| `AddMoment.Toggled` | src/screens/AddMomentScreen.tsx:312 | the toggle always yields yellow or cyan and always changes the colour |
| `AddMoment.ToggleTwice` | src/screens/AddMomentScreen.tsx:312 | toggling twice is the identity exactly on the two accent colours |
| `AddMoment.Encode` | src/screens/AddMomentScreen.tsx:97-104 | a catalog selection is stored as its id, a picked file as its URI, and no selection as `null` |
| `AddMoment.Decode` | src/screens/AddMomentScreen.tsx:48-58 | a falsy token gives no selection; a decoded catalog selection carries a catalog key and that key's picture |
| `AddMoment.EncodeDecode` | src/screens/AddMomentScreen.tsx:48-58 | decoding then encoding returns the token, except the empty string which comes back as `null` |
| `AddMoment.DecodeEncode` | src/screens/AddMomentScreen.tsx:97-104 | encoding then decoding returns the selection exactly when it is a genuine catalog entry or a non-empty URI that is not a catalog key |
| `AddMoment.RenderSelected` | src/screens/AddMomentScreen.tsx:146-157 | the preview is the placeholder without a selection, the catalog picture for a catalog selection and `{uri}` for a picked file |
| `AddMoment.PreviewMatchesList` | src/screens/AddMomentScreen.tsx:146-157 | the edit preview and the list draw a token alike exactly unless it is a `predefined_` string outside the catalog |
| `AddMoment.FormValidIffTrimmed` | src/screens/AddMomentScreen.tsx:63 | "the title or the note has a non-whitespace character, or an image is selected" agrees with the screen's test that the trimmed title or the trimmed note is non-empty or an image is selected |
| `AddMoment.InitialForm` | src/screens/AddMomentScreen.tsx:41-58 | a new moment opens empty at `now` in yellow with no image; an edited one opens with its title, note, date and time, its colour or yellow when that is empty, and a selection that stores back as its image token (`""` as `null`) |
| `AddMoment.Payload` | src/screens/AddMomentScreen.tsx:115-121 | the saved title and note are the trimmed inputs, the image is the encoded selection, date, time and colour are copied |
| `AddMoment.Overwrite` | src/screens/AddMomentScreen.tsx:114-122 | `{...m, ...}` keeps the id and sets every written field |
| `AddMoment.Edited` | src/screens/AddMomentScreen.tsx:113-123 | the map callback keeps the id, overwrites a record with the edited id and returns any other record as it was |
| `AddMoment.ReplaceById` | src/screens/AddMomentScreen.tsx:112-124 | the edit keeps the length and applies the callback to each record in place |
| `AddMoment.EditUnknownIdIsNoop` | src/screens/AddMomentScreen.tsx:111-124 | editing an id no record has returns the collection unchanged |
| `AddMoment.EditIdempotent` | src/screens/AddMomentScreen.tsx:112-124 | applying the same edit twice equals applying it once |
| `AddMoment.ExistingMoments` | src/screens/AddMomentScreen.tsx:107-109 | the read collection is the parsed array, `[]` for an absent key or non-array value, and missing exactly when parsing throws |
| `AddMoment.CreateAppendsOne` | src/screens/AddMomentScreen.tsx:125-135 | creating appends exactly one record, with the new id and written fields, after the untouched earlier records |
| `AddMoment.SaveKeepsIdsUnique` | src/screens/AddMomentScreen.tsx:127 | ids stay unique through a create with a fresh id and through any edit |
| `AddMoment.AddMomentScreen.constructor` | src/screens/AddMomentScreen.tsx:41-58 | the screen's state starts as the initial form for its route params |
| `AddMoment.AddMomentScreen.SetTitle` | src/screens/AddMomentScreen.tsx:228 | only the title changes |
| `AddMoment.AddMomentScreen.SetNote` | src/screens/AddMomentScreen.tsx:323 | only the note changes |
| `AddMoment.AddMomentScreen.SetDate` | src/screens/AddMomentScreen.tsx:159-171 | only the date changes |
| `AddMoment.AddMomentScreen.SetTime` | src/screens/AddMomentScreen.tsx:173-184 | only the time changes |
| `AddMoment.AddMomentScreen.ToggleTextColor` | src/screens/AddMomentScreen.tsx:312 | only the colour changes, to its toggled value |
| `AddMoment.AddMomentScreen.HandleSelectedImageChange` | src/screens/AddMomentScreen.tsx:87-89 | only the selection changes, to the picked image |
| `AddMoment.AddMomentScreen.HandleSave` | src/screens/AddMomentScreen.tsx:91-144 | the form is left as it was; rejected exactly when the form is invalid; saved exactly when valid, parseable and written; then storage holds the edited or extended collection, otherwise storage is unchanged |
| `SelectImage.PredefinedChoice` | src/screens/SelectImageScreen.tsx:35-40 | tile `i` selects the id `predefined_` + `${i+1}` with the tile's picture |
| `SelectImage.PickedUri` | src/screens/SelectImageScreen.tsx:46 | a URI is accepted exactly when there is a first asset with a non-empty URI, and it is that URI |
| `SelectImage.PredefinedChoiceIsCatalogEntry` | src/screens/SelectImageScreen.tsx:18-25 | every tile's id is a catalog key for the same picture, so the selection survives saving and decoding |
| `SelectImage.PredefinedChoiceInjective` | src/screens/SelectImageScreen.tsx:38 | different tiles emit different ids |
| `SelectImage.TileSelectsOnce` | src/screens/SelectImageScreen.tsx:35-42 | choosing a tile calls `onSelectImage` once with that tile's selection, then goes back |
| `SelectImage.GalleryGuard` | src/screens/SelectImageScreen.tsx:44-54 | a usable response selects its URI once and goes back; any other response does nothing, not even going back |
| `SelectImage.GalleryChoiceRecoverable` | src/screens/SelectImageScreen.tsx:47-50 | a picked photo whose URI is not a catalog key survives saving and decoding |
| `MomentDetails.FormatTime` | src/screens/MomentDetailsScreen.tsx:100 | values 0..99 become two digits that read back as the value; negative values start with `0-` |
| `MomentDetails.NestedFloorsCollapse` | src/screens/MomentDetailsScreen.tsx:88-91 | total seconds, minutes, hours and days are single floors of the millisecond difference, also when it is negative |
| `MomentDetails.ClockFieldsInRange` | src/screens/MomentDetailsScreen.tsx:96-98 | for a past moment the hours are 0..23, minutes and seconds 0..59, and days, hours, minutes and seconds add up to the total seconds |
| `MomentDetails.MonthsBracketDays` | src/screens/MomentDetailsScreen.tsx:93 | months is the number of whole 30.44-day months in the elapsed days |
| `MomentDetails.ClockShape` | src/screens/MomentDetailsScreen.tsx:100-105 | for a past moment the time string is eight characters `HH:MM:SS` whose fields read back as hours, minutes and seconds |
| `MomentDetails.WholeDaysShowMidnight` | src/screens/MomentDetailsScreen.tsx:96-105 | a difference that is a whole number of days, past or future, shows `00:00:00` |
| `MomentDetails.NinetyDaysAgo` | src/screens/MomentDetailsScreen.tsx:83-107 | a moment exactly ninety days ago shows 90 days, 2 months and `00:00:00` |
| `MomentDetails.OneMillisecondAhead` | src/screens/MomentDetailsScreen.tsx:86-105 | a moment one millisecond ahead shows -1 days, -1 months and `0-1:0-1:0-1` |
| `MomentDetails.EditHandoff` | src/screens/MomentDetailsScreen.tsx:227-236 | the edit screen gets the same record with only the image replaced: a string image is kept as is, any other image is replaced by `imageSourceKey` |
| `MomentDetails.DetailsScreen.constructor` | src/screens/MomentDetailsScreen.tsx:53-57 | the shown difference starts as 0 days, 0 months, `00:00:00` |
| `MomentDetails.DetailsScreen.Tick` | src/screens/MomentDetailsScreen.tsx:83-110 | each tick sets the state from `now` and the moment's date alone, nothing carried over |
| `MomentDetails.DetailsScreen.ShownImage` | src/screens/MomentDetailsScreen.tsx:183 | a picture that is not a bare string is always drawn as a source |
| `Home.DayDiff` | src/screens/HomeScreen.tsx:118 | the day difference is non-negative exactly when the date is less than one whole day before now |
| `Home.AllTabIsIdentity` | src/screens/HomeScreen.tsx:115 | the All tab returns the collection itself |
| `Home.TabMembership` | src/screens/HomeScreen.tsx:114-123 | a tab shows exactly the records of the collection it classifies as its own |
| `Home.TabIsSubsequence` | src/screens/HomeScreen.tsx:114-123 | every tab keeps its records in their original order |
| `Home.SubsequenceReflexive` | src/screens/HomeScreen.tsx:115 | a collection is a subsequence of itself |
| `Home.UntilSincePartition` | src/screens/HomeScreen.tsx:116-122 | with one `now`, Days Until and Days Since share no record, their sizes add up, and interleaved in order they give back the collection |
| `Home.Loaded` | src/screens/HomeScreen.tsx:54-67 | loading yields the stored array, and `[]` for an absent key, a parse failure or a non-array value |
| `Home.DeleteRemovesExactly` | src/screens/HomeScreen.tsx:102 | after delete a record remains exactly when it was there with another id, in the original order |
| `Home.DeleteAbsentIsNoop` | src/screens/HomeScreen.tsx:100-104 | deleting an absent id leaves the collection unchanged |
| `Home.DeleteIdempotent` | src/screens/HomeScreen.tsx:100-104 | deleting the same id twice equals deleting it once |
| `Home.DeleteRemovesOne` | src/screens/HomeScreen.tsx:102 | with unique ids, deleting a present id removes exactly one record |
| `Home.CardCounter` | src/screens/HomeScreen.tsx:141-171 | the counter is the number of whole days between date and now, and the badge is the future colour exactly for Days Until records |
| `Home.HomeScreen.constructor` | src/screens/HomeScreen.tsx:47-48 | the list starts empty on the All tab |
| `Home.HomeScreen.LoadMoments` | src/screens/HomeScreen.tsx:54-67 | the shown collection becomes the loaded one; the tab is kept |
| `Home.HomeScreen.SetActiveTab` | src/screens/HomeScreen.tsx:219 | only the tab changes |
| `Home.HomeScreen.HandleDeleteMoment` | src/screens/HomeScreen.tsx:100-108 | the shown collection loses the id's records and is written back unless the write fails |
| `Home.HomeScreen.Visible` | src/screens/HomeScreen.tsx:244 | the list shows an order-preserving subsequence of the loaded collection |
| `Navigation.HandoffRestoresRecord` | src/screens/MomentDetailsScreen.tsx:230-235 | the edit screen receives exactly the record the card was built from, original image token included |
| `Navigation.DetailsImageMatchesCard` | src/screens/MomentDetailsScreen.tsx:183 | the detail screen draws the card's picture, or the placeholder where the card draws nothing |
| `Navigation.SavedRecordIsNormal` | src/screens/AddMomentScreen.tsx:126-134 | a created record has a trimmed title and note, a colour and no empty image token |
| `Navigation.ReopenedPayload` | src/screens/AddMomentScreen.tsx:43-58 | the edit screen opened on a saved record writes back that record's own fields |
| `Navigation.ReopenAndSaveIsNoop` | src/screens/AddMomentScreen.tsx:111-124 | opening a saved record from its card, pressing Edit and saving unchanged writes back the same collection |
| `Navigation.SameIdSameRecord` | src/screens/AddMomentScreen.tsx:113 | with unique ids, the only record with a member's id is that member |
| `Navigation.EditFixpoint` | src/screens/AddMomentScreen.tsx:112-124 | an edit that rewrites each matching record to itself changes nothing |
| `Navigation.CreateThenLoad` | src/screens/HomeScreen.tsx:54-67 | after a create, loading shows the earlier records followed by exactly the one new record |
| `Navigation.DetailsDays` | src/screens/MomentDetailsScreen.tsx:86-91 | the detail screen's day count is one floor division of `now - date` by a day |
| `Navigation.CardAndDetailsDays` | src/screens/MomentDetailsScreen.tsx:86-91 | the card and detail day counts agree for past moments; a future moment that is not a whole number of days away shows one day more, negated, on the detail screen |
| `Navigation.DeleteFromDetails` | src/screens/MomentDetailsScreen.tsx:125 | Delete on the detail screen removes exactly the card's record |

Several functions carry no contract of their own and are specified by the rows above:
`Home.FilteredMoments` by `TabMembership`, `TabIsSubsequence`, `AllTabIsIdentity` and `UntilSincePartition`;
`Home.RemoveId` by `DeleteRemovesExactly`, `DeleteAbsentIsNoop`, `DeleteIdempotent` and `DeleteRemovesOne`;
`Home.CardFor` by `CardCounter`, `CardAndDetailsDays` and `HandoffRestoresRecord`;
`MomentDetails.Split`, `MomentDetails.Clock` and `MomentDetails.CalculateTime` by `NestedFloorsCollapse`, `ClockFieldsInRange`, `MonthsBracketDays`, `ClockShape`, `WholeDaysShowMidnight`, `NinetyDaysAgo`, `OneMillisecondAhead` and `DetailsDays`;
`AddMoment.IsFormValid` by `FormValidIffTrimmed`;
`AddMoment.AfterSave`, `AddMoment.EditTarget` and `AddMoment.NewMoment` by `CreateAppendsOne`, `SaveKeepsIdsUnique`, `EditUnknownIdIsNoop` and `HandleSave`;
`SelectImage.HandleSelectPredefined` and `SelectImage.HandleGalleryResponse` by `TileSelectsOnce` and `GalleryGuard`;
`Text.IntToString` by `Decimal` and `FormatTime`.

## Left out

- AsyncStorage and JSON text are not modelled. The stored value is the
  outcome of reading and parsing the key. Records are assumed to have the
  shape `handleSave` writes, so a record with missing or ill-typed fields,
  or with fields beyond the seven written ones, is not represented.
- Dates are integer milliseconds. ISO-8601 strings, `new Date(...)`, dayjs
  parsing, and the display formats (`toDateString`, `toLocaleTimeString`,
  `format`) are not modelled.
- dayjs's time-zone offset correction in `diff` is ignored. Around a
  daylight-saving change the day difference can differ by that offset.
- `Math.floor(diff / 1000)` is modelled as exact integer floor division.
  Float rounding would only matter far beyond realistic dates.
- `Math.floor(totalDays / 30.44)` uses the exact rational 25/761. The model takes
  the rational as exact over the range of valid dates; the float division
  itself is not modelled.
- `moderateScale` and `verticalScale` are float layout arithmetic.
- The 1 Hz `setInterval`, its cleanup, `useFocusEffect` and `useIsFocused`
  are not modelled. Each run of `calculateTime` is one `Tick` and each focus
  is one `LoadMoments`.
- `renderValue` and the `timeView` switch are display state: they choose
  which of the three values is shown.
- The date and time picker widgets, `launchImageLibrary`, `Share`,
  `Linking.openURL` and the navigation calls are foreign or platform calls.
  The model keeps only the values they deliver and, on the picker screen,
  the callback and go-back effects.
- `Date.now()` ids are not guaranteed unique. The id is a parameter, and
  uniqueness is proved only when it is fresh
  (`AddMoment.SaveKeepsIdsUnique`).
- The lost-update race is not modelled. `handleDeleteMoment` writes its
  captured list, and overlapping saves each read and write the whole
  collection. Both are concurrency concerns outside this sequential model.
- AddMoment.Decode: `predefinedImages[token]` also finds property names
  inherited from `Object.prototype`, such as `constructor`. The model looks
  up own catalog keys only.
- The screens' `console.log` and `Alert.alert` calls are not modelled. Their
  outcome appears only as `SaveOutcome` values.
- Animations, `StyleSheet`, the empty-list picture, and the share and terms
  menu are presentation only.
- The onboarding, loading, stories and story-detail screens are
  presentation only and are not part of this model.
