# vlille — a Dafny model of the VLille station client

The vlille gem reads the public feeds of Lille's VLille bike-sharing network.
A `VLille` container loads the station list, which gives the map-centering
hints and one marker per station. It builds one `VLilleStation` per marker. A
station can then load its own detail record: address, bike and dock counts,
status code, payment terminal, and a French "last updated" phrase such as
"6 heure(s) 4 minute(s) 2 secondes". The station turns that phrase into a
timestamp.

The model has six modules:

- `Wrappers` holds `Option`, which stands for Ruby's `nil`.
- `RubyString` models Ruby's `String#to_i` as `ToI`. It also has `Decimal`
  and `IntString`, which print numbers and are used to state round trips.
- `UpdateTime` models the `lastupd` pattern.
  - A matcher (`NumberAt`, `MatchSeconds`, `MatchMinutes`, `MatchHours`,
    `MatchAt`, `Attempts`, `FirstSome`, `FirstMatch`) follows the
    regular-expression engine: leftmost start, greedy optional groups.
    `Attempts` lists the outcome at every start position in order, and
    `FirstSome` takes the first match among them.
  - The matcher is proved sound and complete against an independent grammar
    of phrases (`Render`, `PhraseAt`).
  - `LastUpdate` computes the stored timestamp, or -1 when nothing matches.
- `Station` holds the feed records, the status and payment mappings, and
  the class `VLilleStation`. The class has constant identity fields and
  mutable detail fields.
- `Network` holds the class `VLille`, with its station sequence and hints.
  It also has `FindStation` and the `Array#find` scan behind it.
  Its invariant `Valid()` says:
  - the three hints are set and cleared together;
  - stations exist only once the hints are set;
  - no station object appears twice.

  The constructor, `Reset` and `Load` establish it.
- `Scenario` replays the expectations of the parsing test on the model.

The HTTP requests are replaced by parameters:

- the already-parsed station list (`StationList`);
- a function from station id to detail record (`fetch`), which stands for
  the `borne` query;
- the current time, which stands for `Time.now.to_i`. A single station's `Load`
  takes it as `now`. The container's `Load` takes `clock`, where `clock(i)` is
  the reading taken while the station built from the i-th marker loads, so
  each station gets its own reading, as in the source.

## Model

| member | source | states |
|---|---|---|
| RubyString.ToI | lib/vlille.rb:112 | `String#to_i`: `nil` reads as 0, text whose first character is not whitespace, a sign or a digit reads as 0, and text that starts with a digit never reads negative; ToIOfNumber, ToIOfNegativeNumber, ToIOfPositiveNumber and ToIOfNoNumber give its exact value for whitespace, an optional sign, digits and any rest, and ToIRoundTrip shows it inverts `to_s` |
| RubyString.ToIRoundTrip | lib/vlille.rb:112 | `to_i` of any integer's decimal text, signed or not, gives back that integer |
| RubyString.ToIOfNumber | lib/vlille.rb:133-134 | leading whitespace is skipped, and the leading digit run gives the value whatever follows it |
| RubyString.ToIOfNegativeNumber | lib/vlille.rb:145 | a leading minus sign negates the value of the digit run after it |
| RubyString.ToIOfNonNumeric | lib/vlille.rb:145 | text that starts with neither whitespace, a sign nor a digit reads as 0 |
| RubyString.ToIOfPositiveNumber | lib/vlille.rb:145 | a leading plus sign after any whitespace is skipped, and the digit run after it gives the value; with no digits the value is 0 |
| RubyString.ToIOfNoNumber | lib/vlille.rb:145 | text with no number to read (whitespace, at most one sign, then no digit, including the empty text) reads as 0 |
| RubyString.DecimalValue | lib/vlille.rb:112 | the decimal rendering of n has the digit value n: `DigitsValue` undoes `Decimal` |
| UpdateTime.MatchAt | lib/vlille.rb:136 | the pattern anchored at one position, built from NumberAt, MatchHours, MatchMinutes and MatchSeconds: a match starts at a digit, and its captures have a shape the pattern allows; MatchAtSound and MatchAtComplete prove it agrees exactly with the phrase grammar |
| UpdateTime.FirstSome | lib/vlille.rb:137 | the index returned is at or after the start, and the outcome there is a match with the captures returned |
| UpdateTime.FirstSomeNotAfter | lib/vlille.rb:137 | a match at any index from the start on means a match is found at that index or before it |
| UpdateTime.FirstMatch | lib/vlille.rb:137 | the position the search returns lies in the text, and the pattern matches there with the captures returned |
| UpdateTime.FirstMatchNotAfter | lib/vlille.rb:137 | if the pattern matches at any position, the search finds a match at that position or earlier, so the match found is the leftmost |
| UpdateTime.MatchAtSound | lib/vlille.rb:136 | whatever the matcher reports at a position is a phrase of the grammar there |
| UpdateTime.MatchAtComplete | lib/vlille.rb:136 | wherever a phrase of the grammar occurs, the matcher finds exactly that phrase; the longest alternative wins |
| UpdateTime.FirstMatchFindsPhrase | lib/vlille.rb:136-138 | the text matches exactly when it holds some phrase of the grammar |
| UpdateTime.FirstMatchOfLeftmostPhrase | lib/vlille.rb:136-137 | with a phrase at q and no phrase before q, the search returns q and that phrase's captures |
| UpdateTime.LastUpdateOfLeftmostPhrase | lib/vlille.rb:136-140 | the stored timestamp is `now` minus the leftmost phrase's duration, and never later than `now` |
| UpdateTime.SecondsAgo | lib/vlille.rb:139 | the duration of well-formed captures is never negative; SecondsAgoOf gives its value |
| UpdateTime.LastUpdate | lib/vlille.rb:136-143 | a missing `lastupd` gives -1, and every other result is -1 or at most `now`; LastUpdateOfLeftmostPhrase and LastUpdateSentinel give its value in both cases |
| UpdateTime.SecondsAgoOf | lib/vlille.rb:139 | the duration is H*3600 + M*60 + S, an absent hours or minutes group counts as 0, and the duration is never negative |
| UpdateTime.LastUpdateSentinel | lib/vlille.rb:137-143 | a missing `lastupd`, or one that holds no phrase, gives -1 |
| UpdateTime.LastUpdateNotAfterNow | lib/vlille.rb:138-140 | whenever the text matches, the timestamp is at most `now` |
| UpdateTime.NoMatchWithoutDigit | lib/vlille.rb:136 | no match can start where there is no digit |
| UpdateTime.LastUpdateHoursWithoutMinutes | lib/vlille.rb:136 | an hours count with no minutes count after it takes no part: "H heure(s) S secondes" is S seconds ago |
| UpdateTime.LastUpdateLoneHours | lib/vlille.rb:136-140 | "6 heure(s) 2 secondes" gives `now - 2` |
| UpdateTime.LastUpdateSecondsOnly | test/test_vlille.rb:47 | "2 secondes" gives `now - 2` |
| UpdateTime.LastUpdateFullPhrase | test/test_vlille.rb:59 | "6 heure(s) 4 minute(s) 2 secondes" gives `now - 21842` |
| Station.StatusOf | lib/vlille.rb:145-149 | a missing status, or one whose first character is not whitespace, a sign or a digit, is working; StatusWithoutNumber extends this to every status with no number, and StatusOfCode states the result for every numeric code |
| Station.ParseDetail | lib/vlille.rb:132-155 | the values a detail load stores: the address is copied, a missing status is working, payment is available exactly for `AVEC_TPE`, a missing `lastupd` gives -1, and the timestamp is -1 or at most `now`; CountsOfDetail gives the counts |
| Station.StatusOfCode | lib/vlille.rb:145-149 | a numeric status code reads as working exactly when it is 0 |
| Station.StatusWithoutNumber | lib/vlille.rb:145-149 | a missing status reads as working, and so does every status with no number to read: whitespace, at most one sign, then no digit (the empty text, `" "`, `"-"`, `"N/A"`) |
| Station.PaymentOf | lib/vlille.rb:151-155 | the terminal is available exactly when `paiement` is the text `AVEC_TPE`; a missing value is unavailable |
| Station.CountsOfDetail | lib/vlille.rb:133-134 | the bike and dock counts are the numbers the record gives |
| Station.VLilleStation.constructor | lib/vlille.rb:111-123 | id is `to_i` of the marker id, and name, lat and lng come from the marker; all six detail fields are `nil` |
| Station.VLilleStation.Load | lib/vlille.rb:126-156 | the six detail fields are overwritten from the record fetched by this station's id; status, counts, payment and timestamp are then non-`nil` |
| Network.FirstWithId | lib/vlille.rb:59-61 | returns the index of the first station with the id, or none exactly when no station has it |
| Network.FirstWithIdOfMember | lib/vlille.rb:58-62 | when ids are unique, looking up a station's own id finds that station |
| Network.NoStationBeforeLoad | lib/vlille.rb:24-26 | a valid container whose hints are unset holds no station, so every lookup finds nothing |
| Network.NewStation | lib/vlille.rb:49-52 | the station is new and built from its marker; with `load_details` it holds its parsed record, without it it has no details |
| Network.VLille.constructor | lib/vlille.rb:24-26 | a new container has no stations and `nil` hints |
| Network.VLille.Reset | lib/vlille.rb:65-70 | from any state, reset leaves no stations and `nil` hints |
| Network.VLille.Load | lib/vlille.rb:29-55 | the old stations are dropped and the hints are set; there is one new station per marker, in feed order, built from that marker; with `load_details` each one holds its record parsed at its own clock reading, without it none has details |
| Network.VLille.FindStation | lib/vlille.rb:58-62 | returns a station exactly when one has the id; it is the first such station in list order; the container is only read |
| Scenario.DetailsOfStation1 | test/test_vlille.rb:42-47 | the detail record of station 1 parses to the address, status, counts, payment and timestamp the test expects |
| Scenario.DetailsOfStation10 | test/test_vlille.rb:54-59 | the detail record of station 10 parses to the address, status, counts, payment and timestamp the test expects |
| Scenario.LoadTestFeed | test/test_vlille.rb:20-34 | loading the two-marker list with details gives the expected hints, two stations in order, and their expected details |
| Scenario.ParsingScenario | test/test_vlille.rb:37-59 | looking up ids 1 and 10 finds the two stations with the names, positions and details the test expects; id 2 finds nothing |

## Left out

- HTTP transport: `post`, `base_uri` and the query parameters are replaced by the `StationList` and `fetch` parameters.
- XML parsing and the choice of parser: the feed arrives already parsed. This also drops the quirk where a one-marker list parses as a hash rather than an array.
- `to_f` on the coordinates and the zoom level: they are `real` values that are copied through unchanged.
- `Time.now` is a parameter: `now` for one station, `clock(i)` for the i-th station of a container load. The model does not require the readings to increase from one station to the next.
- Failed requests: a fetch that fails in the middle of a load, and the partial state it leaves, are not modelled.
- RubyString.ToI: the model reads digits only. Ruby's `to_i` also accepts `_` between digits and a `0d` prefix after the sign; neither occurs in the feed's numbers.
- The comments on `status` and `payment` mention a value `:unknown`, but no code assigns it. Before a load those fields are `nil`, which the model uses.
- Station.VLilleStation.Load: the address is copied from the record as it is, so a record without `adress` leaves it `nil`. The other five detail fields are always non-`nil` after a load.
- Station.StatusOf: its own contract covers `nil` and text whose first character is not whitespace, a sign or a digit; the remaining texts with no number (leading whitespace or a lone sign) are covered by `StatusWithoutNumber`, and numeric codes by `StatusOfCode`.
- Network.VLille.Load: a station list with no markers makes the source fail (`nil.each` at lib/vlille.rb:48) after the hints are set; the model treats it as an empty, successful load.
- Network.VLille.Reset: idempotence is not a separate lemma. The postcondition fixes the whole state whatever the state before, so two resets leave the same state as one.
- The live connectivity test is not modelled. The parsing test's XML stub files are not part of this model either. The detail records in `Scenario` are rebuilt from the test's assertions, and station 10's payment text is taken to be some value other than `AVEC_TPE`.
