# ISS sighting notifier: a verified model of the app's core

The app lists upcoming International Space Station sightings for the user's
location and lets the user set a reminder for each. This project models, in
Dafny, the logic of `App.js` behind that:

- the choice of the spotthestation location nearest to the user;
- the feed pipeline of `fetchLocationSightings`, which
  - keeps the items titled "ISS Sighting",
  - parses each description into a key/value object,
  - keeps the sightings longer than one minute and dated after the moment 24 hours before the fetch, future ones included,
  - merges in the notification flag stored for each sighting;
- `getData`, which reads a stored flag;
- the `PassesList` screen state, with `toggleNotificationForSighting` and `storeData`.

The JavaScript built-ins that this logic relies on are modelled with their
ECMAScript semantics, in the parts the app uses:
- `indexOf`, `includes`, `split`, `join` and `replace` with a string pattern;
- `trim`, and string-to-number conversion (section 7.1.4.1 of ECMA-262);
- `Array.prototype.filter`, `map` and a stable `sort`.

Files (one module each):

- `wrappers.dfy`: `Option` and `Result`.
- `js_strings.dfy`: the string built-ins, with split/join and replace laws.
- `js_numbers.dfy`: string-to-number conversion of decimal literals and the comparison `> 1`.
- `seqs.dfy`: `filter` and `map`, and the fusion laws that turn a chain of them into one pass.
- `description.dfy`: the description parser.
- `storage.dfy`: `getData` and the store of flags.
- `feed.dfy`: the pipeline and its properties.
- `stations.dfy`: the nearest-station choice.
- `passes_list.dfy`: the screen's state as a class, with the toggle.

`Feed.Pipeline` takes the description parser and the duration test as
parameters, so its properties hold for any parser and test.
`Feed.FetchSightings` applies it to `Description.ParseDescription` and
`Feed.DurationQualifies`, the app's own parser and test.

Three behaviours of the code that the model keeps:

- **Missing Duration.** A record with no Duration is not dropped: `e.Duration.replace` throws a TypeError inside the XML parser's callback (App.js:85). The promise then never resolves and the screen is never updated. `Feed.Pipeline` therefore returns `Failure(MissingDuration)` for the whole feed, and `PassesList.FetchLocationSightings` leaves the state as it was.
- **No items.** A feed whose channel has no `<item>` element has no `item` list, and `.filter` on it throws (App.js:64-66), with the same outcome. `Feed.FetchSightings` returns `Failure(NoItems)` for it.
- **Keys of spaces.** A key made of spaces is kept: the filter compares the untrimmed key with `''` (App.js:75).

## Model

| member | source | states |
|---|---|---|
| JsStrings.IndexOfFrom | App.js:66 | the index found is an occurrence of the pattern at or after the start, and no earlier index from the start holds one; None only when there is none at all |
| JsStrings.Includes | App.js:66 | no contract of its own: `includes` is `indexOf` finding a match; `IncludesIff` states what that means |
| JsStrings.IncludesIff | App.js:66 | `includes` holds exactly when the pattern occurs at some index |
| JsStrings.IndexOfFirstMatch | App.js:73 | an occurrence with no earlier occurrence is the index `indexOf` returns |
| JsStrings.Split | App.js:72 | a split yields at least one piece and at most one more than the string's length |
| JsStrings.CutAtMatch | App.js:72 | a string is the part before an occurrence, the occurrence, and the part after it |
| JsStrings.JoinSplit | App.js:72 | joining the pieces of a split with the separator gives back the original string |
| JsStrings.SplitPiecesExcludeSeparator | App.js:72 | no piece of a split contains the separator |
| JsStrings.SplitJoin | App.js:72-74 | for a separator whose first character does not occur again in it, splitting the join of separator-free pieces gives back the pieces |
| JsStrings.ReplaceFirst | App.js:73 | no contract of its own: `replace` with a string pattern swaps the first occurrence found by `indexOf`; `ReplaceFirstLength`, `RemoveLeading` and `RemoveFirstOccurrence` state its effect |
| JsStrings.ReplaceFirstLength | App.js:85 | `replace` leaves a string without the pattern unchanged, and otherwise trades the pattern's length for the replacement's |
| JsStrings.RemoveLeading | App.js:73 | `replace` of a pattern the string starts with leaves the rest of the string |
| JsStrings.FirstOccurrenceAfter | App.js:85 | an occurrence preceded by no copy of the pattern's first character is the first occurrence |
| JsStrings.RemoveFirstOccurrence | App.js:85 | `replace` removes only the first occurrence and keeps what surrounds it |
| JsStrings.AbsentForLackOfRoom | App.js:85 | a pattern whose first character occurs only where the pattern no longer fits does not occur |
| JsStrings.TrimStart | App.js:85 | leading trim removes a prefix made only of white space, and what remains does not start with white space |
| JsStrings.TrimEnd | App.js:85 | trailing trim removes a suffix made only of white space, and what remains does not end with white space |
| JsStrings.Trim | App.js:85 | what `trim` leaves neither starts nor ends with white space, and is empty exactly when the string is all white space |
| JsNumbers.DigitsValue | App.js:85 | a run of decimal digits has a value below 10 to the power of its length |
| JsNumbers.Show | App.js:85 | a number's decimal spelling is a non-empty run of digits whose value is the number |
| JsNumbers.UnsignedDecimal | App.js:85 | an unsigned literal never reads as a negative value or as negative infinity |
| JsNumbers.ToNumber | App.js:85 | no contract of its own: StringToNumber of a trimmed string with an optional sign; `BlankIsZero`, `DigitsConvert`, `DecimalConverts` and `StrayCharacterConverts` state its values |
| JsNumbers.BlankIsZero | App.js:85 | a string of white space only, the empty string included, converts to 0 |
| JsNumbers.GreaterThanOne | App.js:85 | no contract of its own: the comparison `> 1` on a converted number; `GreaterThanOneValue` states what it compares |
| JsNumbers.GreaterThanOneValue | App.js:85 | `> 1` is false for NaN, true exactly for positive infinity among the infinities, and for a finite number true exactly when its exact value exceeds one |
| JsNumbers.DigitsConvert | App.js:85 | digits surrounded by white space convert to the integer they spell |
| JsNumbers.DecimalConverts | App.js:85 | `whole.fraction` surrounded by white space converts to the exact value whole-and-fraction over 10 to the power of the fraction's length |
| JsNumbers.UnsignedStray | App.js:85 | an unsigned literal that holds a character other than a digit or `.` reads as NaN |
| JsNumbers.StrayCharacterConverts | App.js:85 | after trimming, a literal starting with a digit that holds a character other than a digit or `.` converts to NaN |
| Seqs.Filter | App.js:66 | `filter` keeps at most the input's elements, and every element kept passes the test |
| Seqs.FilterKeeps | App.js:66 | every element that passes the test is kept |
| Seqs.FilterKeptFromInput | App.js:66 | every element kept is an element of the input |
| Seqs.FilterOriginsSpec | App.js:64-89 | the kept elements come from strictly increasing positions of the input, each passing the test, so a filter never reorders |
| Seqs.MapOfMap | App.js:68-70 | two maps in a row are one map by the composition |
| Seqs.FilterOfMap | App.js:85-89 | filtering after a map is mapping after filtering by the composed test |
| Seqs.FilterOfFilter | App.js:85-89 | two filters in a row are one filter by the conjunction of the tests |
| Seqs.FilterExtensional | App.js:64-99 | filters whose tests agree on every element keep the same elements |
| Seqs.FilterAppend | App.js:64-99 | filtering a concatenation concatenates the filtered parts |
| Description.Fields | App.js:73-74 | a piece cut at `: ` yields at least one field |
| Description.Collect | App.js:77-81 | the object built by the fold has exactly the entries' keys |
| Description.CollectLastWins | App.js:77-81 | a key's value is the value of its last entry |
| Description.ParseDescription | App.js:70-83 | the parsed object never has the empty key |
| Description.LineTextOneLine | App.js:72 | the text of a well-formed line holds no line break |
| Description.LineHasNoPairSeparator | App.js:72 | a line's text, with or without the leading indentation, holds no pair separator |
| Description.LineUnindented | App.js:73 | removing the first indentation from a piece leaves the line's text |
| Description.LineFields | App.js:72-74 | one `key: value` line, with or without the leading indentation, holds no pair separator and is read back as its key and value |
| Description.RenderedFields | App.js:72-74 | the pieces of a description built from well-formed lines, cut at `: `, are exactly the lines' keys and values |
| Description.ParseRenderedCollects | App.js:70-83 | parsing a description built from well-formed lines folds exactly its lines' entries |
| Description.ParseRendered | App.js:70-83 | parsing a description built from well-formed lines gives exactly the lines' keys, each with its last line's value |
| Storage.GetData | App.js:19-32 | `getData` yields `null` exactly when the read fails, and `true` exactly when `true` is stored |
| Storage.NotificationFlag | App.js:19-31 | `getData(...) \|\| false` is true exactly when `true` is stored; an absent key and a failed read both give false |
| Storage.StoredFlag | App.js:96 | the flag merged in is true exactly when the key is in the store with value true |
| Storage.StoreThenRead | App.js:199-203 | a flag written under a key is read back under that key; other keys read as before |
| Feed.SightingKey | App.js:96 | no contract of its own: the `Date Time` key, built as `e.Date + ' ' + e.Time`, a missing field reading as "undefined"; `StoredFlagRoundTrip` and `ToggledEntries` state what it keys |
| Feed.DurationQualifies | App.js:85 | no contract of its own: the duration test; `WholeMinutes`, `BareMinutes`, `FractionalMinutes` and `SingularMinute` give its value on the spellings a duration takes |
| Feed.IsRecent | App.js:89 | no contract of its own: a record passes the date test when its Date is present and `inWindow` holds of it, `inWindow` being true of every date after the moment 24 hours before the fetch, future dates included |
| Feed.FilterByDuration | App.js:85 | the duration filter succeeds exactly when every record has a Duration, and then keeps exactly the records whose duration passes the test, in order |
| Feed.Pipeline | App.js:64-99 | the only error the chain raises is a missing Duration, and it never yields more records than there are sighting items; `PipelineIsOnePass` states its content |
| Feed.FetchSightings | App.js:64-99 | a channel without items fails with `NoItems`; otherwise the fetch fails exactly when some item titled "ISS Sighting" has no Duration |
| Feed.PipelineFailsIff | App.js:64-99 | the pipeline throws exactly when some item titled "ISS Sighting" has no Duration |
| Feed.PipelineIsOnePass | App.js:64-99 | when it succeeds, the whole chain equals one filter (sighting title, long enough, recent) followed by one map building each record with its stored flag |
| Feed.PipelineInFeedOrder | App.js:64-99 | every record comes from an item whose title holds "ISS Sighting" and that passed every test, built from that item, at strictly increasing item positions |
| Feed.PipelineRecordsQualify | App.js:85-96 | every record has a qualifying duration, is within the window, and carries the flag stored under its `Date Time` key |
| Feed.NonSightingsIgnored | App.js:66 | removing the items whose title lacks "ISS Sighting" beforehand changes nothing, whatever their descriptions hold |
| Feed.StoredFlagRoundTrip | App.js:92-99 | after a flag is written under a key, every record with that key gets that flag and other records keep their stored flags |
| Feed.StripWords | App.js:85 | the two replacements strip a leading "For" and the first following "minutes" around a part without `m` |
| Feed.QualifiesByMiddle | App.js:85 | such a duration qualifies exactly when the part between "For" and "minutes" converts to a number above one |
| Feed.WholeMinutes | App.js:85 | "For n minutes" qualifies exactly when n > 1 |
| Feed.BareMinutes | App.js:85 | "n minutes", the spelling the feed uses and the list shows after "For" (App.js:263, 272), qualifies exactly when n > 1 |
| Feed.DecimalHasNoM | App.js:85 | a decimal number between spaces holds no `m`, so "minutes" is found after it |
| Feed.FractionalMiddle | App.js:85 | "For n.f minutes" is compared by the number " n.f " |
| Feed.FractionalMinutes | App.js:85 | "For n.f minutes" qualifies exactly when the decimal n.f exceeds one |
| Feed.QualifiesWithoutMinutes | App.js:85 | a duration holding no "minutes" is compared by what follows "For" |
| Feed.NoMinutesInSingular | App.js:85 | a number followed by the singular "minute" holds no "minutes" |
| Feed.SingularMiddle | App.js:85 | "For n minute" is compared by the number " n minute" |
| Feed.SingularIsNaN | App.js:85 | " n minute" converts to NaN |
| Feed.SingularMinute | App.js:85 | "For n minute" never qualifies, whatever n is |
| Stations.LocationKey | App.js:136-138 | no contract of its own: the key `Country_State_City` a station's feed file is named by; `LocationKeySplits` and `LocationKeyDistinguishes` state what it keeps |
| Stations.LocationKeySplits | App.js:136-138 | for names without `_`, splitting the key at `_` gives back the country, state and city |
| Stations.LocationKeyDistinguishes | App.js:136-138 | stations whose names hold no `_` share a key exactly when their country, state and city agree |
| Stations.Insert | App.js:146 | insertion lengthens the list by one |
| Stations.InsertPermutes | App.js:146 | insertion adds exactly the one entry and loses none |
| Stations.InsertHead | App.js:146 | the inserted entry goes first exactly when it is no farther than the old first entry |
| Stations.SortByDist | App.js:146 | the sort keeps the length |
| Stations.SortPermutes | App.js:146 | the sort is a permutation of its input |
| Stations.InsertSorted | App.js:146 | inserting into a list sorted by distance keeps it sorted |
| Stations.SortSorted | App.js:146 | the sorted list is ordered by distance, nearest first |
| Stations.SortHeadIsFirstNearest | App.js:146 | the first entry of the sorted list is the earliest input entry at the smallest distance |
| Stations.NearestLocation | App.js:132-149 | the choice fails exactly when the table is empty |
| Stations.NearestIsFirstClosest | App.js:132-149 | the chosen key is `Country_State_City` of a station no farther than any other and strictly nearer than every earlier one |
| Stations.UniqueNearestChosen | App.js:132-149 | a station strictly nearer than every other is the one chosen |
| PassesListScreen.FlipTwice | App.js:221 | flipping keeps the properties, changes the flag, and flipping again gives back the sighting |
| PassesListScreen.Toggled | App.js:224-231 | toggling keeps the length of the list and every entry's `Date Time` key |
| PassesListScreen.ToggledEntries | App.js:221-231 | toggling keeps the length, flips the pressed entry, replaces exactly the entries with the same `Date Time` key by it, and leaves the others unchanged |
| PassesListScreen.ToggleKeepsConsistent | App.js:221-234 | after toggling and saving the new flag, every sighting's flag is again the one stored under its key |
| PassesListScreen.ToggleTwice | App.js:221-231 | toggling the same sighting twice restores the list when the entries sharing its key are copies of it |
| PassesListScreen.ToggleReversesReminder | App.js:212-221 | pressing the same bell twice asks first for one request and then for the opposite one, under the same key |
| PassesListScreen.PassesList.constructor | App.js:37-46 | the screen starts loading, at location "unknown", with nothing loaded and the store as given |
| PassesListScreen.PassesList.ResolveLocation | App.js:132-152 | the current location becomes the nearest station's key; with an empty table nothing changes |
| PassesListScreen.PassesList.FetchLocationSightings | App.js:48-107 | on success the sightings become the pipeline's records and loading ends; on a thrown error, a missing item list included, nothing changes; the sightings agree with the store afterwards |
| PassesListScreen.PassesList.StoreData | App.js:195-208 | the item's flag is saved under its `Date Time` key; a failed write leaves the store as it was |
| PassesListScreen.PassesList.ToggleNotificationForSighting | App.js:210-236 | the right reminder is requested, the list becomes the toggled list, the new flag is saved, and the list and the store still agree unless the write failed |

## Left out

- The network fetch of the feed and the XML-to-object conversion (App.js:52-55) are I/O and a foreign library. The model starts from the channel's item list, `None` when the channel has no `<item>`, each item with its title and description text.
- An item without a `title` or `description` array would throw. The model's items always have both.
- The date test (App.js:89) depends on the clock and on JavaScript's date parsing. It is the parameter `inWindow` over the Date text, true of a date later than 24 hours before the fetch, which every future date is. A missing Date is an invalid date, which fails the comparison, and is dropped.
- `geolib.getDistance` (App.js:143) is floating-point geodesy in a foreign library. It is the parameter `distance`, an integer number of metres for each coordinate.
- The geolocation and permission requests, the alert on a geolocation error, and the `currentLatitude`/`currentLongitude` display fields are platform services, not modelled.
- The reminder scheduling and cancelling through the notification centre, and the `moment` fire-date arithmetic, are platform services. The model returns the request as a `Reminder` value.
- The key-value store is a map passed in. The model does not capture the asynchrony of its reads and writes, or the `Promise.all` that waits for the reads. A failed write is the `saved` parameter.
- React rendering, navigation, themes and styles are not modelled. `setState` is modelled as an immediate assignment.
- `PassesList.constructor`: the source's initial state has no `sightings` field at all. The model starts it as the empty list, which the screen renders the same way.
- `PassesList.ToggleNotificationForSighting`: the source mutates the pressed record object in place, and that object is shared by the list entries that replace it. The model works on values, which gives the same list after each toggle.
- `JsNumbers.ToNumber`: literals with an exponent (`1e3`) and the `0x`/`0o`/`0b` forms read as NaN here, where JavaScript reads numbers. Values are exact decimals, without double rounding.
- `Feed.Pipeline`: a description key named `hasSetNotification` is overwritten by the flag in the source. The model keeps the flag beside the parsed object.
- `Description.ParseDescription`: a key such as `__proto__` has special meaning on a JavaScript object. The model treats it as an ordinary key.
- `Stations.SortByDist`: only the first entry's place among equal distances is stated, which is all the app reads. Full stability of the order is not stated.
- `Feed.Pipeline`: the flag reads of a load never fail in the model; each goes through `ReadStore`. In the source a read that throws makes `getData` return `null`, so the sighting gets false even when true is stored (App.js:28-31, 96). Only `GetData` and `NotificationFlag` model that failed read.
- `JsStrings.SplitJoin`: proved only for separators whose first character does not occur again in them, not for every separator without a border. Both separators the parser uses, the line break with indentation and `: `, are of that kind.
