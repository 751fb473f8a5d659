# SOS emergency contacts, modelled in Dafny

This project models the core of the SOS Android app. The app finds the
user's country from GPS coordinates and shows the emergency numbers for that
country, so that one tap can dial them. The model covers:

- **Country detection** (`country_detector.dfy`, module `CountryDetection`).
  `CountryDetector` keeps a table of bounding boxes, one box per
  country. It scans them in `HashMap` iteration order. The answer is the
  first box holding the point, with bounds inclusive. A box whose minimum
  longitude is above its maximum wraps across the antimeridian. When no box
  holds the point, a chain of regional boxes names a representative country,
  or "Unknown". The table is written out box by box, so the lemmas about
  Berlin, Singapore and an out-of-range point are about the shipped data.
  The scan order is a parameter: any permutation of the table.
- **Contacts** (`emergency_contact.dfy`, module `ContactModel`).
  `EmergencyContact` is a class with four nullable number fields. It has
  getters that fall back to 112, validity, the primary number and `equals`.
- **Loading and lookup** (`contacts_manager.dfy`, module `ContactsManager`).
  `EmergencyContactsManager` fills its map from the contacts asset and looks
  a country up. The lookup tries the name as given, then `_` replaced by a
  space, then a space replaced by `_`, then a case-insensitive scan over the
  keys. It also answers `hasCountry`, the count of loaded countries, and the
  regional defaults.
- **The contacts screen** (`contacts_activity.dfy`, module
  `ContactsActivity`). `EmergencyContactsActivity` does the following:
  - sanitises country names, phone numbers and search queries;
  - builds one row per asset entry in a loop that stops at the first entry
    that is not an object;
  - sorts the rows by name, ignoring case;
  - filters them by a query.
- **The list adapter** (`contact_adapter.dfy`, module `ContactAdapter`).
  This covers the number pattern `^\+?[0-9\s\-\(\)]{3,20}$`, the cleaning of
  display text, the text of a row, the number handed to the dialler, and
  the item count.
- **Helpers.** `java_strings.dfy` (module `JavaStrings`) gives the Java string
  operations the core relies on: `trim`, character-class `replaceAll`,
  `replace`, `substring`, `toLowerCase`, `compareToIgnoreCase` and
  `contains`. `parsed_asset.dfy` (module `ParsedAsset`) is the contacts
  asset after JSON parsing.

Java's `null` is modelled as `Option.None`.

Where the repository's unit tests disagree with the code, the model follows
the code. The lemmas below show the disagreements:

- `DigitRunIsValid`: numbers of 16 and 20 digits are valid.
- `LettersAreDeletedForDialling` and `MarkupIsDeletedForDialling`: "call911"
  and "911<script>" are dialled as "911", not rejected.
- `CommandTextIsDialled`: "911; rm -rf /" is dialled as "911  - ", not
  rejected.
- `MarkupIsShown`: display text only deletes control characters, so
  "Country<script>alert('xss')</script>" is shown whole.

The loader in the activity and the adapter use different number rules. A
number such as "(+123" is stored by the loader and then shown as "N/A" by
the adapter (`MisplacedPlusStoredButHidden`).

## Model

| member | source | states |
|---|---|---|
| JavaStrings.Trim | app/src/main/java/com/ly2xxx/sos/EmergencyContactsActivity.java:193 | `trim()` is no longer than its input, empty exactly when every character is at most U+0020, and otherwise starts and ends with a character above U+0020 |
| JavaStrings.TrimIsSlice | app/src/main/java/com/ly2xxx/sos/EmergencyContactsActivity.java:193 | `trim()` is the contiguous slice of its input starting at `TrimStart`, and every character cut off before or after it is at most U+0020 |
| JavaStrings.CutOfSuffix | app/src/main/java/com/ly2xxx/sos/EmergencyContactsActivity.java:193 | a prefix of a suffix is a slice, and what lies after it is what the suffix has there |
| JavaStrings.BlankIffTrimmedEmpty | app/src/main/java/com/ly2xxx/sos/model/EmergencyContact.java:54-57 | `s.trim().isEmpty()` holds exactly when every character of `s` is one `trim()` strips |
| JavaStrings.TrimOfTrimmed | app/src/main/java/com/ly2xxx/sos/EmergencyContactsActivity.java:193 | a text whose ends are already visible is its own trim |
| JavaStrings.TrimIdempotent | app/src/main/java/com/ly2xxx/sos/EmergencyContactsActivity.java:193 | trimming twice is trimming once |
| JavaStrings.TrimKeepsClass | app/src/main/java/com/ly2xxx/sos/EmergencyContactsActivity.java:193-196 | a trim keeps only characters drawn from the input |
| JavaStrings.TrimKeepsVisible | app/src/main/java/com/ly2xxx/sos/EmergencyContactsActivity.java:170-173 | every character above U+0020 survives `trim()` |
| JavaStrings.Filter | app/src/main/java/com/ly2xxx/sos/EmergencyContactsActivity.java:201 | `replaceAll("[^…]", "")` holds only allowed characters, holds a character exactly when the input has it and it is allowed, and leaves an all-allowed text unchanged |
| JavaStrings.FilterConcat | app/src/main/java/com/ly2xxx/sos/EmergencyContactsActivity.java:201 | deleting characters from a concatenation deletes from each part |
| JavaStrings.FilterDropsSeparators | app/src/main/java/com/ly2xxx/sos/EmergencyContactAdapter.java:139 | deleting two disallowed separators joins the allowed parts |
| JavaStrings.FilterDropsPrefix | app/src/main/java/com/ly2xxx/sos/EmergencyContactAdapter.java:219 | a disallowed prefix is deleted entirely |
| JavaStrings.FilterDropsSuffix | app/src/main/java/com/ly2xxx/sos/EmergencyContactAdapter.java:219 | a disallowed suffix is deleted entirely |
| JavaStrings.FilterDropsRuns | app/src/main/java/com/ly2xxx/sos/EmergencyContactAdapter.java:219 | deleting two wholly rejected runs joins the two kept runs around them |
| JavaStrings.FilterDropsRunsTwice | app/src/main/java/com/ly2xxx/sos/EmergencyContactAdapter.java:219 | the same over two such stretches side by side |
| JavaStrings.FilterKeepsNothing | app/src/main/java/com/ly2xxx/sos/EmergencyContactAdapter.java:219 | a text of disallowed characters deletes to the empty text |
| JavaStrings.FilteredPlusThenBound | app/src/main/java/com/ly2xxx/sos/EmergencyContactsActivity.java:201-204 | when only a leading `+` is kept among the deleted text's pluses, the pattern's lower bound on the filtered text bounds the original |
| JavaStrings.OptionalPlusThenIff | app/src/main/java/com/ly2xxx/sos/EmergencyContactAdapter.java:23 | a full match of `\+?[body]{lo,hi}` is, character by character, body characters with an optional leading `+`, lo to hi of them besides it |
| JavaStrings.ReplaceChar | app/src/main/java/com/ly2xxx/sos/util/EmergencyContactsManager.java:107 | `replace` of one character keeps the length and swaps exactly that character |
| JavaStrings.ReplaceAbsentChar | app/src/main/java/com/ly2xxx/sos/util/EmergencyContactsManager.java:107-108 | replacing a character that does not occur changes nothing |
| JavaStrings.ReplacedCharIsGone | app/src/main/java/com/ly2xxx/sos/util/EmergencyContactsManager.java:107 | after replacing `_` by a space no `_` is left |
| JavaStrings.ReplaceRoundTrip | app/src/main/java/com/ly2xxx/sos/util/EmergencyContactsManager.java:107-116 | swapping `_` and space back restores a text that had no space |
| JavaStrings.Truncate | app/src/main/java/com/ly2xxx/sos/EmergencyContactsActivity.java:178-180 | `substring(0, n)` on a longer text is its first n characters; a shorter text is kept |
| JavaStrings.Lower | app/src/main/java/com/ly2xxx/sos/EmergencyContactsActivity.java:250 | `toLowerCase` maps each letter to lower case and keeps the length |
| JavaStrings.LowerIdempotent | app/src/main/java/com/ly2xxx/sos/util/EmergencyContactsManager.java:175 | lower-casing twice is lower-casing once |
| JavaStrings.LexLeTotal | app/src/main/java/com/ly2xxx/sos/EmergencyContactsActivity.java:142 | the comparison of `compareToIgnoreCase` is total |
| JavaStrings.LexLeTransitive | app/src/main/java/com/ly2xxx/sos/EmergencyContactsActivity.java:142 | the comparison of `compareToIgnoreCase` is transitive |
| JavaStrings.ContainsIffSuffix | app/src/main/java/com/ly2xxx/sos/EmergencyContactsActivity.java:253 | `contains` holds exactly when the needle starts at some position |
| JavaStrings.EmptyNeedleContained | app/src/main/java/com/ly2xxx/sos/EmergencyContactsActivity.java:253 | every text contains the empty text |
| JavaStrings.ForeignCharNotContained | app/src/main/java/com/ly2xxx/sos/EmergencyContactsActivity.java:253 | a text lacking one of the needle's characters does not contain it |
| ContactModel.EmergencyContact.Empty | app/src/main/java/com/ly2xxx/sos/model/EmergencyContact.java:10-12 | the no-argument constructor leaves all four fields `null` |
| ContactModel.EmergencyContact.constructor | app/src/main/java/com/ly2xxx/sos/model/EmergencyContact.java:14-19 | the four-argument constructor stores its arguments as given |
| ContactModel.EmergencyContact.GetPolice | app/src/main/java/com/ly2xxx/sos/model/EmergencyContact.java:21-23 | the stored police number, or 112 for `null` |
| ContactModel.EmergencyContact.GetAmbulance | app/src/main/java/com/ly2xxx/sos/model/EmergencyContact.java:29-31 | the stored ambulance number, or 112 for `null` |
| ContactModel.EmergencyContact.GetFire | app/src/main/java/com/ly2xxx/sos/model/EmergencyContact.java:37-39 | the stored fire number, or 112 for `null` |
| ContactModel.EmergencyContact.GetGeneral | app/src/main/java/com/ly2xxx/sos/model/EmergencyContact.java:45-47 | the stored general number, or 112 for `null` |
| ContactModel.EmergencyContact.SetPolice | app/src/main/java/com/ly2xxx/sos/model/EmergencyContact.java:25-27 | only the police field changes, to the argument |
| ContactModel.EmergencyContact.SetAmbulance | app/src/main/java/com/ly2xxx/sos/model/EmergencyContact.java:33-35 | only the ambulance field changes, to the argument |
| ContactModel.EmergencyContact.SetFire | app/src/main/java/com/ly2xxx/sos/model/EmergencyContact.java:41-43 | only the fire field changes, to the argument |
| ContactModel.EmergencyContact.SetGeneral | app/src/main/java/com/ly2xxx/sos/model/EmergencyContact.java:49-51 | only the general field changes, to the argument |
| ContactModel.EmergencyContact.PrimaryEmergencyNumber | app/src/main/java/com/ly2xxx/sos/model/EmergencyContact.java:60-72 | 112 when no field has text; otherwise a non-blank stored field, the first with text in the order general, police, ambulance, fire, untrimmed |
| ContactModel.UnsetContactFallsBack | app/src/main/java/com/ly2xxx/sos/model/EmergencyContact.java:10-72 | a contact with every field `null` is not valid, and every getter and the primary number give 112 |
| ContactModel.EqualsIffSameFields | app/src/main/java/com/ly2xxx/sos/model/EmergencyContact.java:85-96 | `equals` holds exactly when the four fields are equal, `null` only to `null` |
| ContactModel.EqualsIsEquivalence | app/src/main/java/com/ly2xxx/sos/model/EmergencyContact.java:85-96 | `equals` is reflexive, symmetric and transitive |
| ContactModel.NotEqualToNull | app/src/main/java/com/ly2xxx/sos/model/EmergencyContact.java:87 | no contact equals `null` |
| ParsedAsset.OptString | app/src/main/java/com/ly2xxx/sos/util/EmergencyContactsManager.java:73-76 | `optString` gives the field's text, or the fallback when it is absent |
| ParsedAsset.ObjectPrefixLength | app/src/main/java/com/ly2xxx/sos/util/EmergencyContactsManager.java:69-71 | how many entries `getJSONObject` gets through: all of them objects, and the next one (if any) not |
| CountryDetection.InOrder | app/src/main/java/com/ly2xxx/sos/util/CountryDetector.java:101 | the scan visits the table entry at each position of the order |
| CountryDetection.FirstMatch | app/src/main/java/com/ly2xxx/sos/util/CountryDetector.java:101-123 | the first box containing the point, with no earlier box containing it; none exactly when no box contains it |
| CountryDetection.ScanForCountry | app/src/main/java/com/ly2xxx/sos/util/CountryDetector.java:97-129 | the loop returns the country of the first box in scan order containing the point, else the regional fallback |
| CountryDetection.GetCountryFromCoordinates | app/src/main/java/com/ly2xxx/sos/util/CountryDetector.java:97-129 | the same on the detector's table; the answer is a table key or "Unknown" |
| CountryDetection.RegionFallbackIsFirstRegionalBox | app/src/main/java/com/ly2xxx/sos/util/CountryDetector.java:131-164 | the regional chain answers the first containing region in the order Europe, North America, Asia, Africa, South America, Oceania, else "Unknown" |
| CountryDetection.ScanHoldsTable | app/src/main/java/com/ly2xxx/sos/util/CountryDetector.java:101 | a scan in any order visits exactly the table's entries |
| CountryDetection.InsertionOrderIsOrder | app/src/main/java/com/ly2xxx/sos/util/CountryDetector.java:14-95 | insertion order is one admissible scan order |
| CountryDetection.MoveToFrontIsOrder | app/src/main/java/com/ly2xxx/sos/util/CountryDetector.java:14 | visiting one entry first, then the rest, is another admissible scan order |
| CountryDetection.VisitedFirstIsDetected | app/src/main/java/com/ly2xxx/sos/util/CountryDetector.java:101-122 | an order that visits a containing box first detects that box's country |
| CountryDetection.DetectIsFirstContainingBox | app/src/main/java/com/ly2xxx/sos/util/CountryDetector.java:101-123 | when some box contains the point, the answer is the country of the first containing box in scan order |
| CountryDetection.DetectFallsBackToRegion | app/src/main/java/com/ly2xxx/sos/util/CountryDetector.java:125-128 | when no box contains the point, the answer is the regional fallback |
| CountryDetection.DetectInKeysOrUnknown | app/src/main/java/com/ly2xxx/sos/util/CountryDetector.java:97-129 | for any table holding the regional representatives, the answer is a key of the table or "Unknown" |
| CountryDetection.FirstMatchConcat | app/src/main/java/com/ly2xxx/sos/util/CountryDetector.java:101-123 | the first match of a concatenation is the first match of its front part, else of its back part shifted |
| CountryDetection.FirstMatchExtends | app/src/main/java/com/ly2xxx/sos/util/CountryDetector.java:101-123 | boxes after a containing one do not change the answer |
| CountryDetection.FirstMatchAt | app/src/main/java/com/ly2xxx/sos/util/CountryDetector.java:101-123 | a containing box with no earlier containing box is the first match |
| CountryDetection.ContainingCountriesInConcat | app/src/main/java/com/ly2xxx/sos/util/CountryDetector.java:16-95 | which countries contain a point combines over the table's parts |
| CountryDetection.DetectWithinContainingKeys | app/src/main/java/com/ly2xxx/sos/util/CountryDetector.java:101-123 | if every containing box belongs to a country in a set, every order detects a country in that set |
| CountryDetection.DetectOrderIndependentForUniqueCountry | app/src/main/java/com/ly2xxx/sos/util/CountryDetector.java:101-123 | a point whose containing boxes all name one country is detected the same under every order |
| CountryDetection.CornersAreInside | app/src/main/java/com/ly2xxx/sos/util/CountryDetector.java:119 | bounds are inclusive: both corners of a box are inside it |
| CountryDetection.AntimeridianBox | app/src/main/java/com/ly2xxx/sos/util/CountryDetector.java:111-117 | a box with minimum longitude above its maximum wraps across 180 degrees: both sides and both bounds match, the middle does not |
| CountryDetection.RegionalRepresentativesAreKeys | app/src/main/java/com/ly2xxx/sos/util/CountryDetector.java:133-163 | every regional representative is a key of the table |
| CountryDetection.DetectIsTableKeyOrUnknown | app/src/main/java/com/ly2xxx/sos/util/CountryDetector.java:97-129 | on the shipped table, every answer is a table key or "Unknown" |
| CountryDetection.TableContainingCountries | app/src/main/java/com/ly2xxx/sos/util/CountryDetector.java:16-95 | what holds of each regional group of boxes holds of the whole table |
| CountryDetection.NorthAmericaAtSamples | app/src/main/java/com/ly2xxx/sos/util/CountryDetector.java:17-20 | no North American box holds Berlin, Singapore or (60, 200) |
| CountryDetection.EuropeAtBerlin | app/src/main/java/com/ly2xxx/sos/util/CountryDetector.java:22-41 | among the European boxes only Germany's holds Berlin (not Poland's) |
| CountryDetection.EuropeAtSingapore | app/src/main/java/com/ly2xxx/sos/util/CountryDetector.java:22-41 | no European box holds Singapore |
| CountryDetection.EuropeAtOutOfRange | app/src/main/java/com/ly2xxx/sos/util/CountryDetector.java:22-41 | no European box holds (60, 200) |
| CountryDetection.AsiaAtBerlin | app/src/main/java/com/ly2xxx/sos/util/CountryDetector.java:43-60 | no Asian box holds Berlin, the wrapped Russia box included |
| CountryDetection.AsiaAtSingapore | app/src/main/java/com/ly2xxx/sos/util/CountryDetector.java:43-60 | the Asian boxes holding Singapore are Indonesia's, Malaysia's and Singapore's |
| CountryDetection.AsiaAtOutOfRange | app/src/main/java/com/ly2xxx/sos/util/CountryDetector.java:43-60 | among the Asian boxes only Russia's wrapped box holds (60, 200) |
| CountryDetection.OtherRegionsAtBerlin | app/src/main/java/com/ly2xxx/sos/util/CountryDetector.java:62-94 | no Oceanian, African, South American or Middle Eastern box holds Berlin |
| CountryDetection.OtherRegionsAtSingapore | app/src/main/java/com/ly2xxx/sos/util/CountryDetector.java:62-94 | no Oceanian, African, South American or Middle Eastern box holds Singapore |
| CountryDetection.OtherRegionsAtOutOfRange | app/src/main/java/com/ly2xxx/sos/util/CountryDetector.java:62-94 | no Oceanian, African, South American or Middle Eastern box holds (60, 200) |
| CountryDetection.BerlinIsGermany | app/src/main/java/com/ly2xxx/sos/util/CountryDetector.java:25-47 | (52.5, 13.4) is detected as "Germany" in every scan order |
| CountryDetection.SingaporeIsAmbiguous | app/src/main/java/com/ly2xxx/sos/util/CountryDetector.java:49-53 | (1.3, 103.8) is detected as Singapore, Malaysia or Indonesia, depending on order |
| CountryDetection.SingaporeDependsOnOrder | app/src/main/java/com/ly2xxx/sos/util/CountryDetector.java:49-53 | insertion order answers "Indonesia"; visiting Singapore first answers "Singapore" |
| CountryDetection.SingaporeInInsertionOrder | app/src/main/java/com/ly2xxx/sos/util/CountryDetector.java:49-53 | in insertion order the first box holding the point is Indonesia's, the 28th entry |
| CountryDetection.IndonesiaIsTwentySeventh | app/src/main/java/com/ly2xxx/sos/util/CountryDetector.java:49 | the entry at position 27 is Indonesia's |
| CountryDetection.SingaporeInFirstThreeRegions | app/src/main/java/com/ly2xxx/sos/util/CountryDetector.java:17-60 | within North America, Europe and Asia the first box holding the point is Indonesia's |
| CountryDetection.SingaporeNotInTheWest | app/src/main/java/com/ly2xxx/sos/util/CountryDetector.java:17-41 | no North American or European box holds the point |
| CountryDetection.AsiaSingaporeFirst | app/src/main/java/com/ly2xxx/sos/util/CountryDetector.java:43-53 | within Asia the first box holding the point is Indonesia's |
| CountryDetection.SingaporeVisitedFirst | app/src/main/java/com/ly2xxx/sos/util/CountryDetector.java:53 | visiting Singapore's box first detects "Singapore" |
| CountryDetection.SingaporeIsThirtyFirst | app/src/main/java/com/ly2xxx/sos/util/CountryDetector.java:53 | the entry at position 31 is Singapore's, and it holds the point |
| CountryDetection.OutOfRangeStillDetected | app/src/main/java/com/ly2xxx/sos/util/CountryDetector.java:97-169 | (60, 200) is not a valid coordinate, yet is detected as "Russia" in every order, since detection never checks validity |
| ContactsManager.StoredFields | app/src/main/java/com/ly2xxx/sos/util/EmergencyContactsManager.java:73-78 | every stored field is set: the given text, or 112 where the field is missing |
| ContactsManager.PutAllKeys | app/src/main/java/com/ly2xxx/sos/util/EmergencyContactsManager.java:69-82 | the built map's keys are the old keys plus the entries' keys |
| ContactsManager.KeysOfBound | app/src/main/java/com/ly2xxx/sos/util/EmergencyContactsManager.java:69-82 | n entries name at most n keys |
| ContactsManager.LastEntryWins | app/src/main/java/com/ly2xxx/sos/util/EmergencyContactsManager.java:79 | a key holds the contact of the last entry with that key |
| ContactsManager.PutAllNeverNull | app/src/main/java/com/ly2xxx/sos/util/EmergencyContactsManager.java:73-79 | a built map never holds a `null` field |
| ContactsManager.LoadedCount | app/src/main/java/com/ly2xxx/sos/util/EmergencyContactsManager.java:145-147 | after loading, the count is the number of distinct keys read, at most the number of entries read |
| ContactsManager.LoadedContactsNeverNull | app/src/main/java/com/ly2xxx/sos/util/EmergencyContactsManager.java:73-79 | every loaded contact has all four fields set |
| ContactsManager.ExactKey | app/src/main/java/com/ly2xxx/sos/util/EmergencyContactsManager.java:99-120 | the first of key, `_`-to-space, space-to-`_` that is stored; none exactly when none is |
| ContactsManager.DefaultWithoutUsableKey | app/src/main/java/com/ly2xxx/sos/util/EmergencyContactsManager.java:88-97 | not loaded, `null` or blank gives the default |
| ContactsManager.VerbatimKeyIsFound | app/src/main/java/com/ly2xxx/sos/util/EmergencyContactsManager.java:99-104 | a key stored verbatim is returned first |
| ContactsManager.ExactKeyMatchesIgnoringCase | app/src/main/java/com/ly2xxx/sos/util/EmergencyContactsManager.java:123-130 | an exact variant also matches ignoring case |
| ContactsManager.CandidatesMatchIgnoringCase | app/src/main/java/com/ly2xxx/sos/util/EmergencyContactsManager.java:123-130 | a stored answer comes from a key equal, ignoring case, to one of the three variants |
| ContactsManager.DefaultIffNoMatch | app/src/main/java/com/ly2xxx/sos/util/EmergencyContactsManager.java:88-134 | the default comes back exactly when not loaded, `null`, blank, or no key matches even ignoring case |
| ContactsManager.ScanIgnoringCase | app/src/main/java/com/ly2xxx/sos/util/EmergencyContactsManager.java:122-130 | the scan finds a key matching a variant ignoring case, and finds none exactly when no key matches |
| ContactsManager.SpacedSpellingFindsKey | app/src/main/java/com/ly2xxx/sos/util/EmergencyContactsManager.java:114-120 | "United States" finds "United_States" through the third variant |
| ContactsManager.LowerCaseSpellingFoundIgnoringCase | app/src/main/java/com/ly2xxx/sos/util/EmergencyContactsManager.java:122-130 | "united_states" finds "United_States" only through the case-insensitive scan |
| ContactsManager.RegionalIgnoresCase | app/src/main/java/com/ly2xxx/sos/util/EmergencyContactsManager.java:175 | region names that differ only in case get the same numbers |
| ContactsManager.ThreeDigitsAreValid | app/src/main/java/com/ly2xxx/sos/util/EmergencyContactsManager.java:177-183 | a three-digit regional number makes a valid contact |
| ContactsManager.RegionalIsValid | app/src/main/java/com/ly2xxx/sos/util/EmergencyContactsManager.java:174-187 | every regional contact, the default included, is valid with no `null` field |
| ContactsManager.RegionalExamples | app/src/main/java/com/ly2xxx/sos/util/EmergencyContactsManager.java:174-187 | "EUROPE" gives 112, "North_America" gives 911, an unknown region gives 112 |
| ContactsManager.EmergencyContactsManager.constructor | app/src/main/java/com/ly2xxx/sos/util/EmergencyContactsManager.java:27-31 | construction loads at once: loaded unless the asset is unreadable, holding the asset's contacts |
| ContactsManager.EmergencyContactsManager.LoadEmergencyContacts | app/src/main/java/com/ly2xxx/sos/util/EmergencyContactsManager.java:33-46 | loaded whenever the text was read, even when parsing stopped; the entries read so far are put |
| ContactsManager.EmergencyContactsManager.ParseEmergencyContacts | app/src/main/java/com/ly2xxx/sos/util/EmergencyContactsManager.java:64-86 | puts one contact per entry up to the first non-object entry, later keys overwriting earlier ones |
| ContactsManager.EmergencyContactsManager.GetDefaultEmergencyContact | app/src/main/java/com/ly2xxx/sos/util/EmergencyContactsManager.java:136-139 | a new contact with 112 in all four fields |
| ContactsManager.EmergencyContactsManager.GetEmergencyContact | app/src/main/java/com/ly2xxx/sos/util/EmergencyContactsManager.java:88-134 | the default, or the stored object under a key the layered lookup allows |
| ContactsManager.EmergencyContactsManager.HasCountry | app/src/main/java/com/ly2xxx/sos/util/EmergencyContactsManager.java:149-157 | loaded, not `null`, and one of the three exact variants is a key |
| ContactsManager.EmergencyContactsManager.GetLoadedCountriesCount | app/src/main/java/com/ly2xxx/sos/util/EmergencyContactsManager.java:145-147 | the size of the map |
| ContactsManager.EmergencyContactsManager.GetRegionalEmergencyContact | app/src/main/java/com/ly2xxx/sos/util/EmergencyContactsManager.java:174-187 | a new contact with the regional numbers of the lower-cased name |
| ContactsManager.HasCountryIsExactLookup | app/src/main/java/com/ly2xxx/sos/util/EmergencyContactsManager.java:149-157 | a country `hasCountry` reports is found by the exact stages |
| ContactsManager.HasCountryIsCaseSensitive | app/src/main/java/com/ly2xxx/sos/util/EmergencyContactsManager.java:149-157 | `hasCountry` misses a lower-case spelling that lookup still finds |
| ContactsManager.BlankKeyDisagreement | app/src/main/java/com/ly2xxx/sos/util/EmergencyContactsManager.java:149-157 | with a blank key stored, `hasCountry(" ")` holds though lookup gives the default |
| ContactsActivity.BlankKeyCleansToEmpty | app/src/main/java/com/ly2xxx/sos/EmergencyContactsActivity.java:165-170 | a blank key cleans to the empty text |
| ContactsActivity.SanitizeCountryNameSpec | app/src/main/java/com/ly2xxx/sos/EmergencyContactsActivity.java:164-183 | the name passes exactly when its cleaned form is non-empty letters, blanks and hyphens; the result has no `_`, is 1 to 50 characters, is the cleaned name, or its 50-character prefix when longer |
| ContactsActivity.AcceptedNameShape | app/src/main/java/com/ly2xxx/sos/EmergencyContactsActivity.java:177-180 | the 50-character cut keeps the class and the first character |
| ContactsActivity.UnderscoredKeyIsSpaced | app/src/main/java/com/ly2xxx/sos/EmergencyContactsActivity.java:169-182 | "United_States" gives "United States" |
| ContactsActivity.ForeignCharInKeyRejected | app/src/main/java/com/ly2xxx/sos/EmergencyContactsActivity.java:172-175 | a key with a digit or markup character is rejected |
| ContactsActivity.SanitizePhoneNumberSpec | app/src/main/java/com/ly2xxx/sos/EmergencyContactsActivity.java:188-209 | a number passes exactly when its trim uses phone characters and its digits and `+` match `\+?\d{3,15}`; the result is that trim |
| ContactsActivity.SanitizePhoneIdempotent | app/src/main/java/com/ly2xxx/sos/EmergencyContactsActivity.java:188-209 | a number that passed passes again unchanged |
| ContactsActivity.SanitizeSearchQuerySpec | app/src/main/java/com/ly2xxx/sos/EmergencyContactsActivity.java:268-287 | `null` or blank gives `null`; otherwise the safe characters of the trimmed first 100 are kept, non-empty; a safe query comes back as its trimmed prefix |
| ContactsActivity.SanitizedQueryHasNoMarkup | app/src/main/java/com/ly2xxx/sos/EmergencyContactsActivity.java:280-284 | no sanitised query contains text with a deleted character, such as "<script>" |
| ContactsActivity.NotAvailableIsNoPhone | app/src/main/java/com/ly2xxx/sos/EmergencyContactsActivity.java:129-132 | "N/A" never passes as a phone number |
| ContactsActivity.EntryContactIsValid | app/src/main/java/com/ly2xxx/sos/EmergencyContactsActivity.java:113-135 | a kept entry has its sanitised name, each field a passed number or "N/A", at least one not "N/A", and is valid |
| ContactsActivity.RowOfPassedNumbers | app/src/main/java/com/ly2xxx/sos/EmergencyContactsActivity.java:126-133 | a row built from passed numbers, one of them present, has that shape |
| ContactsActivity.PassedPhoneIsStored | app/src/main/java/com/ly2xxx/sos/EmergencyContactsActivity.java:188-209 | whatever `sanitizePhoneNumber` returns passes again unchanged and is not blank or "N/A" |
| ContactsActivity.LoopStep | app/src/main/java/com/ly2xxx/sos/EmergencyContactsActivity.java:102-139 | one more entry: a blank key is skipped, a non-object stops the loop, otherwise the rule may add one row |
| ContactsActivity.LoopStaysStopped | app/src/main/java/com/ly2xxx/sos/EmergencyContactsActivity.java:111 | once the loop has thrown, later entries change nothing |
| ContactsActivity.LoopRowsComeFromEntries | app/src/main/java/com/ly2xxx/sos/EmergencyContactsActivity.java:102-139 | every added row is the rule applied to one object entry |
| ContactsActivity.InsertByName | app/src/main/java/com/ly2xxx/sos/EmergencyContactsActivity.java:142 | insertion adds exactly one row |
| ContactsActivity.SortByName | app/src/main/java/com/ly2xxx/sos/EmergencyContactsActivity.java:142 | the sort is a permutation of its input |
| ContactsActivity.NameLeTotal | app/src/main/java/com/ly2xxx/sos/EmergencyContactsActivity.java:142 | any two names compare one way or the other |
| ContactsActivity.NameLeTransitive | app/src/main/java/com/ly2xxx/sos/EmergencyContactsActivity.java:142 | the name order is transitive |
| ContactsActivity.ConsSorted | app/src/main/java/com/ly2xxx/sos/EmergencyContactsActivity.java:142 | a head that comes first keeps a sorted list sorted |
| ContactsActivity.InsertKeepsSorted | app/src/main/java/com/ly2xxx/sos/EmergencyContactsActivity.java:142 | insertion keeps the list sorted |
| ContactsActivity.SortIsSorted | app/src/main/java/com/ly2xxx/sos/EmergencyContactsActivity.java:142 | the sorted list is ordered by `compareToIgnoreCase` of the names |
| ContactsActivity.MatchingNamesConcat | app/src/main/java/com/ly2xxx/sos/EmergencyContactsActivity.java:251-256 | filtering a concatenation filters each part, so order is kept |
| ContactsActivity.MatchingNamesMembers | app/src/main/java/com/ly2xxx/sos/EmergencyContactsActivity.java:251-256 | a row is kept exactly when it is in the list and its lower-cased name contains the query |
| ContactsActivity.AllMatchingKeepsAll | app/src/main/java/com/ly2xxx/sos/EmergencyContactsActivity.java:251-256 | when every name matches nothing is dropped |
| ContactsActivity.BlankSanitisedQueryKeepsAll | app/src/main/java/com/ly2xxx/sos/EmergencyContactsActivity.java:244-256 | a query that sanitises to blanks ("< >") keeps every row |
| ContactsActivity.AfterLoadShape | app/src/main/java/com/ly2xxx/sos/EmergencyContactsActivity.java:141-143 | after a complete load both lists are the same rows sorted by name; a load cut short shows nothing and leaves rows unsorted |
| ContactsActivity.LoadedRowsAreValid | app/src/main/java/com/ly2xxx/sos/EmergencyContactsActivity.java:102-143 | every loaded row is a valid contact built by the per-entry rule from one entry |
| ContactsActivity.EmergencyContactsActivity.constructor | app/src/main/java/com/ly2xxx/sos/EmergencyContactsActivity.java:78-159 | the lists after start-up are the load outcome of the asset |
| ContactsActivity.EmergencyContactsActivity.LoadEmergencyContacts | app/src/main/java/com/ly2xxx/sos/EmergencyContactsActivity.java:78-159 | a failure before the loop changes nothing; a complete loop sorts the full list and appends it to the shown one; a throw keeps the rows so far, unsorted |
| ContactsActivity.EmergencyContactsActivity.AddEntries | app/src/main/java/com/ly2xxx/sos/EmergencyContactsActivity.java:101-139 | the loop appends exactly the rows of the loop specification and reports whether it ran to the end |
| ContactsActivity.EmergencyContactsActivity.FilterContacts | app/src/main/java/com/ly2xxx/sos/EmergencyContactsActivity.java:237-263 | the full list is unchanged, and the shown list becomes all rows, no rows, or the matching rows in order |
| ContactAdapter.ValidNumberShape | app/src/main/java/com/ly2xxx/sos/EmergencyContactAdapter.java:114-128 | a number is valid exactly when it is not "N/A" and its trim has 3 to 20 dial characters with at most a leading `+`, 3 of them besides it |
| ContactAdapter.DialShapeIsPattern | app/src/main/java/com/ly2xxx/sos/EmergencyContactAdapter.java:23 | the dial shape is the length check plus the dial pattern |
| ContactAdapter.TrimmedNumberValidity | app/src/main/java/com/ly2xxx/sos/EmergencyContactAdapter.java:114-128 | for a trimmed text validity is the dial shape and not "N/A" |
| ContactAdapter.ShapedNumberIsValid | app/src/main/java/com/ly2xxx/sos/EmergencyContactAdapter.java:114-128 | a visible-ended dial-shaped text other than "N/A" is valid |
| ContactAdapter.DisplayTextIsClean | app/src/main/java/com/ly2xxx/sos/EmergencyContactAdapter.java:133-147 | the shown text has at most 103 characters, keeps no control other than `\r \n \t`, and has visible ends |
| ContactAdapter.TrimmedTextIsClean | app/src/main/java/com/ly2xxx/sos/EmergencyContactAdapter.java:139 | trimming a control-free text keeps it control-free |
| ContactAdapter.ShortenedIsClean | app/src/main/java/com/ly2xxx/sos/EmergencyContactAdapter.java:142-144 | the cut keeps those properties |
| ContactAdapter.DisplayTextTruncates | app/src/main/java/com/ly2xxx/sos/EmergencyContactAdapter.java:133-147 | `null` shows as ""; a cleaned text up to 100 characters is shown whole, a longer one as its first 100 and "..." |
| ContactAdapter.ControlsAreDeleted | app/src/main/java/com/ly2xxx/sos/EmergencyContactAdapter.java:139 | "United\u0000States\u0001" shows as "UnitedStates" |
| ContactAdapter.MarkupIsShown | app/src/main/java/com/ly2xxx/sos/EmergencyContactAdapter.java:133-147 | "Country<script>alert('xss')</script>" is shown whole: only controls are deleted |
| ContactAdapter.DisplayOfCleaned | app/src/main/java/com/ly2xxx/sos/EmergencyContactAdapter.java:133-147 | a short cleaned text is shown as is |
| ContactAdapter.IntentNumberShape | app/src/main/java/com/ly2xxx/sos/EmergencyContactAdapter.java:211-228 | `null` or blank gives `null`; a result is the trimmed input with other characters deleted, matching `\+?[\d\s\-\(\)]{3,20}` |
| ContactAdapter.ValidNumberIsDialledAsTrimmed | app/src/main/java/com/ly2xxx/sos/EmergencyContactAdapter.java:158-168 | a valid number is dialled as its trim |
| ContactAdapter.LettersAreDeletedForDialling | app/src/main/java/com/ly2xxx/sos/EmergencyContactAdapter.java:211-228 | "call911" is dialled as "911", though it is not valid |
| ContactAdapter.PrefixedDigitsAreTrimmed | app/src/main/java/com/ly2xxx/sos/EmergencyContactAdapter.java:216 | a visible prefix before digits is already trimmed |
| ContactAdapter.MarkupIsDeletedForDialling | app/src/main/java/com/ly2xxx/sos/EmergencyContactAdapter.java:211-228 | "911<script>" is dialled as "911", though it is not valid |
| ContactAdapter.DigitsThenSuffixAreTrimmed | app/src/main/java/com/ly2xxx/sos/EmergencyContactAdapter.java:216 | digits followed by a visible suffix are already trimmed |
| ContactAdapter.CommandTextIsDialled | app/src/main/java/com/ly2xxx/sos/EmergencyContactAdapter.java:211-228 | "911; rm -rf /" is dialled as "911  - " |
| ContactAdapter.InterleavedTextIsDialled | app/src/main/java/com/ly2xxx/sos/EmergencyContactAdapter.java:211-228 | a trimmed text whose dial-character runs are separated by runs of other characters is dialled as the dial runs joined, when those match the pattern |
| ContactAdapter.IntentOfCleaned | app/src/main/java/com/ly2xxx/sos/EmergencyContactAdapter.java:211-228 | a cleaned trim matching the pattern is the dialled number |
| ContactAdapter.ValidNumberIsShownTrimmed | app/src/main/java/com/ly2xxx/sos/EmergencyContactAdapter.java:100-108 | a valid number without removable controls shows as the label, a space and its trim |
| ContactAdapter.InvalidNumberIsShownUnavailable | app/src/main/java/com/ly2xxx/sos/EmergencyContactAdapter.java:103-105 | an invalid number shows as the label and " N/A" |
| ContactAdapter.NotAvailableIsInvalid | app/src/main/java/com/ly2xxx/sos/EmergencyContactAdapter.java:115 | "N/A" is never valid |
| ContactAdapter.NumberLengthBoundary | app/src/test/java/com/ly2xxx/sos/EmergencyContactAdapterTest.java:364-365 | "12" is invalid, "123" is valid |
| ContactAdapter.ShortNumberIsInvalid | app/src/main/java/com/ly2xxx/sos/EmergencyContactAdapter.java:122 | a number of fewer than three characters is never valid |
| ContactAdapter.InternationalFormatIsValid | app/src/test/java/com/ly2xxx/sos/EmergencyContactAdapterTest.java:100 | "+1-555-123-4567" is valid |
| ContactAdapter.LocalFormatIsValid | app/src/test/java/com/ly2xxx/sos/EmergencyContactAdapterTest.java:102 | "(555) 123-4567" is valid |
| ContactAdapter.DigitRunIsValid | app/src/main/java/com/ly2xxx/sos/EmergencyContactAdapter.java:122-127 | every run of 3 to 20 digits is valid, 16 and 20 digits included |
| ContactAdapter.DigitRunIsDialShaped | app/src/main/java/com/ly2xxx/sos/EmergencyContactAdapter.java:23 | a run of 3 to 20 digits has the dial shape |
| ContactAdapter.StoredNumberIsShownWhenShort | app/src/main/java/com/ly2xxx/sos/EmergencyContactAdapter.java:114-128 | a number the load loop kept is shown when at most 20 long with no `+` after the first character |
| ContactAdapter.PhoneCharsAreDialChars | app/src/main/java/com/ly2xxx/sos/EmergencyContactAdapter.java:114-128 | a trimmed phone text with its only `+` first and 3 digits is valid |
| ContactAdapter.PhoneShapeIsDialShape | app/src/main/java/com/ly2xxx/sos/EmergencyContactAdapter.java:23 | phone characters with only a leading `+` have the dial shape |
| ContactAdapter.MisplacedPlusStoredButHidden | app/src/main/java/com/ly2xxx/sos/EmergencyContactAdapter.java:114-128 | "(+123" is kept by the load loop but shown as "N/A" |
| ContactAdapter.MisplacedPlusIsStored | app/src/main/java/com/ly2xxx/sos/EmergencyContactsActivity.java:188-209 | the load loop keeps such a number |
| ContactAdapter.MisplacedPlusChars | app/src/main/java/com/ly2xxx/sos/EmergencyContactsActivity.java:201 | its phone characters filter to a `+` and digits |
| ContactAdapter.MisplacedPlusIsHidden | app/src/main/java/com/ly2xxx/sos/EmergencyContactAdapter.java:114-128 | the adapter rejects it |
| ContactAdapter.StoredOfCleaned | app/src/main/java/com/ly2xxx/sos/EmergencyContactsActivity.java:188-209 | a trimmed phone text whose digits match passes unchanged |
| ContactAdapter.ItemCount | app/src/main/java/com/ly2xxx/sos/EmergencyContactAdapter.java:87-89 | 0 for a `null` list, else its size |
| ContactAdapter.ItemCountAfterLoad | app/src/main/java/com/ly2xxx/sos/EmergencyContactAdapter.java:87-89 | after a complete load one item per loaded row, else none |

## Left out

- Android UI, lifecycle, `RecyclerView` binding, toasts, `Intent`s and the `makeCall` permission flow are not modelled. The adapter is modelled by the text and numbers it computes.
- `LocationService`, threads and callbacks are not modelled. Coordinates are parameters.
- Reading the asset and the JSON parser are not modelled. The parsed text is the `Asset` datatype: unreadable, not an object, or entries in `keys()` order.
- Logging is not modelled: it has no effect on state.
- `double` coordinates are modelled as exact reals. Floating-point rounding at box edges is not modelled.
- `HashMap` iteration order is not modelled. The detector's scan order is a parameter, and the manager's case-insensitive scan may pick any matching key. Which key a real run picks is left open.
- `toLowerCase` and `equalsIgnoreCase` are modelled on ASCII letters only, with no locale rules.
- `getRegionalEmergencyContact` with a `null` region throws `NullPointerException`. The model takes the region as a non-null string.
- `null` lists and `null` list elements are not modelled, except the adapter's `null` list in `getItemCount`.
- Aliasing between the adapter's list and the activity's filtered list is not modelled. The adapter reads the list it is given.
- ContactsActivity.SortByName: stability of `Collections.sort` is not proved, only that the result is a sorted permutation.
- `CountryEmergencyContact` holds its contact by value. Later changes through a shared `EmergencyContact` object are not modelled.
- ContactsActivity.EmergencyContactsActivity.AddEntries: the per-entry rule is a parameter. The row rule of lines 113-135 is proved separately about `EntryContact`.
- ContactsManager.EmergencyContactsManager.GetEmergencyContact: when several keys match ignoring case, the contract allows any of them, not the one `HashMap` order picks.
- Strings are sequences of Unicode code points, so every length and `substring` cut counts code points, where Java's `length()` and `substring(0, n)` count UTF-16 code units. A character outside the Basic Multilingual Plane, such as an emoji, counts once here and twice in Java, and Java can cut such a character in half. The members below are stated in code points for that reason.
- JavaStrings.Truncate: `n` counts code points, not UTF-16 units.
- ContactsActivity.SanitizeSearchQuerySpec: the 100-character cut counts code points. With 50 emoji followed by "ger", Java cuts to the emoji and returns `null`. The model keeps all 53 code points and returns "ger".
- ContactAdapter.DisplayTextIsClean: the bound of 103 counts code points, not UTF-16 units.
- ContactAdapter.ShortenedIsClean: the cut at 100 and the bound of 103 count code points, not UTF-16 units.
- ContactAdapter.DisplayTextTruncates: "its first 100" means 100 code points. Java's `substring(0, 100)` takes 100 UTF-16 units, so a text of 60 emoji is cut in Java but shown whole here.
- ContactsActivity.SanitizeCountryNameSpec: the 50-character cut counts code points. This makes no difference on names that passed the pattern, since these are ASCII.
- `isValidCoordinate` is modelled only through `OutOfRangeStillDetected`: detection never calls it.
