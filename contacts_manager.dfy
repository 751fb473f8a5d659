/** The contacts table keyed by country: built once from the parsed asset,
    then queried with key normalisation (the key as given, with `_` turned
    into spaces, with spaces turned into `_`, then the same three ignoring
    case) and a fall-back to 112 everywhere; plus a fixed table of regional
    numbers. */
module ContactsManager {
  import opened JavaStrings
  import opened ContactModel
  import opened ParsedAsset

  // ---------------------------------------------------------------------------
  // Building the table
  // ---------------------------------------------------------------------------

  /** The contact `parseEmergencyContacts` stores for one country object:
      each field as given, 112 where it is missing. */
  function StoredFields(raw: RawFields): (f: ContactFields)
    ensures f.police.Some? && f.ambulance.Some? && f.fire.Some? && f.general.Some?
    ensures raw.police.Some? ==> f.police == raw.police
    ensures raw.ambulance.Some? ==> f.ambulance == raw.ambulance
    ensures raw.fire.Some? ==> f.fire == raw.fire
    ensures raw.general.Some? ==> f.general == raw.general
    ensures raw == RawFields(None, None, None, None) ==> f == UniversalFields
  {
    ContactFields(
      Some(OptString(raw.police, Universal)),
      Some(OptString(raw.ambulance, Universal)),
      Some(OptString(raw.fire, Universal)),
      Some(OptString(raw.general, Universal)))
  }

  /** `put` of every entry into `base`, in order, a later key overwriting an
      earlier one. */
  function PutAll(base: map<string, ContactFields>, entries: seq<RawEntry>): map<string, ContactFields>
    requires AllObjects(entries)
  {
    if entries == [] then base
    else
      var last := entries[|entries| - 1];
      PutAll(base, entries[..|entries| - 1])[last.key := StoredFields(last.fields.value)]
  }

  /** The table a manager holds once it has loaded `asset`: the entries up to
      the first one that is not an object, put into an empty map. */
  function AssetContacts(asset: Asset): map<string, ContactFields> {
    match asset
    case Document(entries) => PutAll(map[], entries[..ObjectPrefixLength(entries)])
    case _ => map[]
  }

  function KeysOf(entries: seq<RawEntry>): set<string> {
    set j | 0 <= j < |entries| :: entries[j].key
  }

  /** The keys of the built map are the keys of `base` and of the entries. */
  lemma {:induction false} PutAllKeys(base: map<string, ContactFields>, entries: seq<RawEntry>)
    requires AllObjects(entries)
    ensures PutAll(base, entries).Keys == base.Keys + KeysOf(entries)
    decreases |entries|
  {
    if entries != [] {
      var init := entries[..|entries| - 1];
      PutAllKeys(base, init);
      assert KeysOf(entries) == KeysOf(init) + {entries[|entries| - 1].key} by {
        forall k | k in KeysOf(entries) ensures k in KeysOf(init) + {entries[|entries| - 1].key} {
          var j :| 0 <= j < |entries| && entries[j].key == k;
          if j < |entries| - 1 { assert init[j] == entries[j]; }
        }
        forall k | k in KeysOf(init) ensures k in KeysOf(entries) {
          var j :| 0 <= j < |init| && init[j].key == k;
          assert entries[j] == init[j];
        }
      }
    }
  }

  /** n entries name at most n distinct keys. */
  lemma {:induction false} KeysOfBound(entries: seq<RawEntry>)
    ensures |KeysOf(entries)| <= |entries|
    decreases |entries|
  {
    if entries != [] {
      var init := entries[..|entries| - 1];
      KeysOfBound(init);
      assert KeysOf(entries) <= KeysOf(init) + {entries[|entries| - 1].key} by {
        forall k | k in KeysOf(entries) ensures k in KeysOf(init) + {entries[|entries| - 1].key} {
          var j :| 0 <= j < |entries| && entries[j].key == k;
          if j < |entries| - 1 { assert init[j] == entries[j]; }
        }
      }
      assert |KeysOf(init) + {entries[|entries| - 1].key}| <= |KeysOf(init)| + 1;
      SubsetCardinality(KeysOf(entries), KeysOf(init) + {entries[|entries| - 1].key});
    }
  }

  lemma SubsetCardinality(a: set<string>, b: set<string>)
    requires a <= b
    ensures |a| <= |b|
  {
    assert b == a + (b - a);
  }

  /** The value stored under a key is the one made from the last entry with
      that key. */
  lemma {:induction false} LastEntryWins(base: map<string, ContactFields>, entries: seq<RawEntry>, j: nat)
    requires AllObjects(entries)
    requires j < |entries|
    requires forall l :: j < l < |entries| ==> entries[l].key != entries[j].key
    ensures entries[j].key in PutAll(base, entries)
    ensures PutAll(base, entries)[entries[j].key] == StoredFields(entries[j].fields.value)
    decreases |entries|
  {
    var init := entries[..|entries| - 1];
    if j < |entries| - 1 {
      assert init[j] == entries[j];
      forall l | j < l < |init| ensures init[l].key != init[j].key { assert init[l] == entries[l]; }
      LastEntryWins(base, init, j);
    }
  }

  /** A loaded table never holds a `null` field. */
  lemma {:induction false} PutAllNeverNull(base: map<string, ContactFields>, entries: seq<RawEntry>)
    requires AllObjects(entries)
    requires forall k :: k in base ==> NoNullField(base[k])
    ensures forall k :: k in PutAll(base, entries) ==> NoNullField(PutAll(base, entries)[k])
    decreases |entries|
  {
    if entries != [] {
      PutAllNeverNull(base, entries[..|entries| - 1]);
    }
  }

  predicate NoNullField(f: ContactFields) {
    f.police.Some? && f.ambulance.Some? && f.fire.Some? && f.general.Some?
  }

  /** `getLoadedCountriesCount` after loading: one per distinct key read, so
      never more than the number of entries read. */
  lemma LoadedCount(entries: seq<RawEntry>)
    ensures var n := ObjectPrefixLength(entries);
            AssetContacts(Document(entries)).Keys == KeysOf(entries[..n]) &&
            |AssetContacts(Document(entries))| <= n
  {
    var prefix := entries[..ObjectPrefixLength(entries)];
    PutAllKeys(map[], prefix);
    KeysOfBound(prefix);
    assert |AssetContacts(Document(entries))| == |AssetContacts(Document(entries)).Keys|;
  }

  /** Every stored contact has all four fields set. */
  lemma LoadedContactsNeverNull(asset: Asset)
    ensures forall k :: k in AssetContacts(asset) ==> NoNullField(AssetContacts(asset)[k])
  {
    if asset.Document? {
      PutAllNeverNull(map[], asset.entries[..ObjectPrefixLength(asset.entries)]);
    }
  }

  // ---------------------------------------------------------------------------
  // Lookup
  // ---------------------------------------------------------------------------

  /** The second spelling tried: `_` replaced by spaces. */
  function Spaced(country: string): string {
    ReplaceChar(country, '_', ' ')
  }

  /** The third spelling tried: spaces replaced by `_`. */
  function Underscored(country: string): string {
    ReplaceChar(country, ' ', '_')
  }

  /** The first of the three spellings (as given, spaced, underscored) that
      is a key, if any. */
  function ExactKey(keys: set<string>, country: string): (r: Option<string>)
    ensures r.Some? ==> r.value in keys && r.value in [country, Spaced(country), Underscored(country)]
    ensures r.None? <==> country !in keys && Spaced(country) !in keys && Underscored(country) !in keys
    ensures country in keys ==> r == Some(country)
    ensures country !in keys && Spaced(country) in keys ==> r == Some(Spaced(country))
  {
    if country in keys then Some(country)
    else if Spaced(country) in keys then Some(Spaced(country))
    else if Underscored(country) in keys then Some(Underscored(country))
    else None
  }

  /** `key.equalsIgnoreCase(v)` for one of the three spellings `v`. */
  predicate MatchesIgnoringCase(key: string, country: string) {
    EqualsIgnoreCase(key, country) ||
    EqualsIgnoreCase(key, Spaced(country)) ||
    EqualsIgnoreCase(key, Underscored(country))
  }

  function CaseInsensitiveMatches(keys: set<string>, country: string): set<string> {
    set k | k in keys && MatchesIgnoringCase(k, country)
  }

  /** What `getEmergencyContact` hands back: a fresh default contact, or the
      contact stored under one of `candidates`. The case-insensitive scan
      runs over a hash map, so when it is reached any matching key may be
      the one found first. */
  datatype Lookup = DefaultContact | StoredUnder(candidates: set<string>)

  function ExpectedLookup(keys: set<string>, loaded: bool, country: Option<string>): Lookup {
    if !loaded || country.None? || IsBlank(country.value) then DefaultContact
    else match ExactKey(keys, country.value)
      case Some(k) => StoredUnder({k})
      case None =>
        var matches := CaseInsensitiveMatches(keys, country.value);
        if matches == {} then DefaultContact else StoredUnder(matches)
  }

  /** Not loaded, `null` or blank: the default, whatever is stored. */
  lemma DefaultWithoutUsableKey(keys: set<string>, loaded: bool, country: Option<string>)
    requires !loaded || country.None? || IsBlank(country.value)
    ensures ExpectedLookup(keys, loaded, country) == DefaultContact
  {
  }

  /** A key stored verbatim is found first, whatever else is stored. */
  lemma VerbatimKeyIsFound(keys: set<string>, country: string)
    requires country in keys && !IsBlank(country)
    ensures ExpectedLookup(keys, true, Some(country)) == StoredUnder({country})
  {
  }

  /** An exact variant also matches ignoring case. */
  lemma ExactKeyMatchesIgnoringCase(keys: set<string>, country: string)
    requires ExactKey(keys, country).Some?
    ensures ExactKey(keys, country).value in CaseInsensitiveMatches(keys, country)
  {
    var k := ExactKey(keys, country).value;
    assert EqualsIgnoreCase(k, k);
  }

  /** A stored answer has at least one candidate, and every candidate is a
      key equal, ignoring case, to one of the three variants of the argument. */
  lemma CandidatesMatchIgnoringCase(keys: set<string>, loaded: bool, country: Option<string>)
    requires ExpectedLookup(keys, loaded, country).StoredUnder?
    ensures country.Some?
    ensures var c := ExpectedLookup(keys, loaded, country).candidates;
            c != {} && c <= CaseInsensitiveMatches(keys, country.value) && c <= keys
  {
    if ExactKey(keys, country.value).Some? {
      ExactKeyMatchesIgnoringCase(keys, country.value);
    }
  }

  /** The default comes back exactly when lookup is not possible or no key
      matches even ignoring case. */
  lemma DefaultIffNoMatch(keys: set<string>, loaded: bool, country: Option<string>)
    ensures ExpectedLookup(keys, loaded, country) == DefaultContact <==>
            (!loaded || country.None? || IsBlank(country.value) ||
             CaseInsensitiveMatches(keys, country.value) == {})
  {
    if loaded && country.Some? && !IsBlank(country.value) && ExactKey(keys, country.value).Some? {
      ExactKeyMatchesIgnoringCase(keys, country.value);
    }
  }

  /** The loop over the key set that compares each key, ignoring case, with
      the three variants; it stops at the first match. */
  method ScanIgnoringCase(keys: set<string>, name: string) returns (found: Option<string>)
    ensures found.Some? ==> found.value in keys && MatchesIgnoringCase(found.value, name)
    ensures found.None? <==> CaseInsensitiveMatches(keys, name) == {}
  {
    var remaining := keys;
    while remaining != {}
      invariant remaining <= keys
      invariant forall k :: k in keys && k !in remaining ==> !MatchesIgnoringCase(k, name)
      decreases |remaining|
    {
      var key :| key in remaining;
      if MatchesIgnoringCase(key, name) {
        assert key in CaseInsensitiveMatches(keys, name);
        return Some(key);
      }
      remaining := remaining - {key};
    }
    assert CaseInsensitiveMatches(keys, name) == {};
    return None;
  }

  /** A key whose words are joined by `_` (such as "United_States") is
      found from its spaced spelling ("United States") by the third exact
      variant. */
  lemma {:induction false} SpacedSpellingFindsKey(key: string)
    requires '_' in key && ' ' !in key
    requires !IsBlank(Spaced(key))
    ensures var spaced := Spaced(key);
            ExactKey({key}, spaced) == Some(key) &&
            ExpectedLookup({key}, true, Some(spaced)) == StoredUnder({key})
  {
    var spaced := Spaced(key);
    var i :| 0 <= i < |key| && key[i] == '_';
    assert spaced[i] != key[i];
    ReplacedCharIsGone(key, '_', ' ');
    ReplaceAbsentChar(spaced, '_', ' ');
    ReplaceRoundTrip(key, '_', ' ');
  }

  /** A key with an upper-case letter and no space (such as
      "United_States") is found from its lower-case spelling
      ("united_states") only by the case-insensitive scan. */
  lemma {:induction false} LowerCaseSpellingFoundIgnoringCase(key: string)
    requires Lower(key) != key && ' ' !in key
    requires !IsBlank(Lower(key))
    ensures ExactKey({key}, Lower(key)) == None
    ensures ExpectedLookup({key}, true, Some(Lower(key))) == StoredUnder({key})
  {
    var lower := Lower(key);
    assert ' ' !in lower by {
      forall i | 0 <= i < |lower| ensures lower[i] != ' ' { assert key[i] != ' '; }
    }
    ReplaceAbsentChar(lower, ' ', '_');
    if '_' in key {
      var i :| 0 <= i < |key| && key[i] == '_';
      assert ReplaceChar(lower, '_', ' ')[i] != key[i];
    } else {
      assert '_' !in lower by {
        forall i | 0 <= i < |lower| ensures lower[i] != '_' { assert key[i] != '_'; }
      }
      ReplaceAbsentChar(lower, '_', ' ');
    }
    LowerIdempotent(key);
    assert key in CaseInsensitiveMatches({key}, lower);
    assert CaseInsensitiveMatches({key}, lower) == {key};
  }

  // ---------------------------------------------------------------------------
  // Regional numbers
  // ---------------------------------------------------------------------------

  function AllFour(number: string): ContactFields {
    ContactFields(Some(number), Some(number), Some(number), Some(number))
  }

  /** `getRegionalEmergencyContact` on the lower-cased region name. */
  function RegionalFields(region: string): ContactFields {
    var r := Lower(region);
    if r == "europe" then UniversalFields
    else if r == "north_america" then AllFour("911")
    else if r == "asia" then ContactFields(Some("110"), Some("119"), Some("119"), Some("110"))
    else if r == "oceania" then AllFour("000")
    else UniversalFields
  }

  /** Region names that differ only in case get the same numbers. */
  lemma RegionalIgnoresCase(a: string, b: string)
    requires EqualsIgnoreCase(a, b)
    ensures RegionalFields(a) == RegionalFields(b)
    ensures RegionalFields(a) == RegionalFields(Lower(a))
  {
    LowerIdempotent(a);
  }

  /** A three-digit number fills all four fields of a valid contact. */
  lemma ThreeDigitsAreValid(n: string)
    requires |n| == 3 && IsDigit(n[0]) && IsDigit(n[2])
    ensures HasText(Some(n)) && ValidFields(AllFour(n))
  {
    assert !IsTrimmable(n[0]);
  }

  /** Every regional contact, the default included, is valid and has no
      `null` field. */
  lemma RegionalIsValid(region: string)
    ensures ValidFields(RegionalFields(region))
    ensures NoNullField(RegionalFields(region))
  {
    var r := Lower(region);
    if r == "north_america" {
      ThreeDigitsAreValid("911");
    } else if r == "oceania" {
      ThreeDigitsAreValid("000");
    } else if r == "asia" && r != "europe" {
      ThreeDigitsAreValid("110");
    } else {
      ThreeDigitsAreValid(Universal);
    }
  }

  lemma RegionalExamples(upper: string, mixed: string, other: string)
    requires upper == "EUROPE" && mixed == "North_America" && other == "Antarctica"
    ensures RegionalFields(upper) == UniversalFields
    ensures RegionalFields(mixed) == AllFour("911")
    ensures RegionalFields(other) == UniversalFields
  {
    assert Lower(upper) == "europe";
    assert Lower(mixed) == "north_america";
    assert |Lower(other)| == 10;
  }

  // ---------------------------------------------------------------------------
  // The manager object
  // ---------------------------------------------------------------------------

  class EmergencyContactsManager {
    var emergencyContacts: map<string, EmergencyContact>
    var isLoaded: bool

    /** The value of the table: each key with its contact's fields. */
    function Contacts(): map<string, ContactFields>
      reads this, emergencyContacts.Values
    {
      map k | k in emergencyContacts :: emergencyContacts[k].Fields()
    }

    /** The constructor loads the asset at once. */
    constructor (asset: Asset)
      ensures isLoaded == !asset.Unreadable?
      ensures Contacts() == AssetContacts(asset)
    {
      emergencyContacts := map[];
      isLoaded := false;
      new;
      LoadEmergencyContacts(asset);
    }

    /** `loadEmergencyContacts`: parse when the text was read, and count as
        loaded even when parsing stopped part-way. */
    method LoadEmergencyContacts(asset: Asset)
      modifies this
      ensures isLoaded == (old(isLoaded) || !asset.Unreadable?)
      ensures asset.Document? ==>
                Contacts() == PutAll(old(Contacts()), asset.entries[..ObjectPrefixLength(asset.entries)])
      ensures !asset.Document? ==> emergencyContacts == old(emergencyContacts)
    {
      match asset
      case Unreadable =>
      case Malformed =>
        isLoaded := true;
      case Document(entries) =>
        ParseEmergencyContacts(entries);
        isLoaded := true;
    }

    /** `parseEmergencyContacts`: put one fresh contact per entry until an
        entry is not an object. */
    method ParseEmergencyContacts(entries: seq<RawEntry>)
      modifies this
      ensures isLoaded == old(isLoaded)
      ensures Contacts() == PutAll(old(Contacts()), entries[..ObjectPrefixLength(entries)])
    {
      var i := 0;
      while i < |entries|
        invariant 0 <= i <= ObjectPrefixLength(entries)
        invariant isLoaded == old(isLoaded)
        invariant Contacts() == PutAll(old(Contacts()), entries[..i])
      {
        var country := entries[i].key;
        if entries[i].fields.None? {
          break;
        }
        var data := entries[i].fields.value;
        var police := OptString(data.police, "112");
        var ambulance := OptString(data.ambulance, "112");
        var fire := OptString(data.fire, "112");
        var general := OptString(data.general, "112");
        var contact := new EmergencyContact(Some(police), Some(ambulance), Some(fire), Some(general));
        ghost var before := Contacts();
        emergencyContacts := emergencyContacts[country := contact];
        assert Contacts() == before[country := contact.Fields()];
        assert entries[..i + 1][..i] == entries[..i];
        i := i + 1;
      }
    }

    /** `getDefaultEmergencyContact`: a new contact with 112 everywhere. */
    method GetDefaultEmergencyContact() returns (contact: EmergencyContact)
      ensures fresh(contact) && contact.Fields() == UniversalFields
    {
      contact := new EmergencyContact(Some(Universal), Some(Universal), Some(Universal), Some(Universal));
    }

    /** `getEmergencyContact`: the default, or the stored contact object
        itself under the first key that matches. */
    method GetEmergencyContact(country: Option<string>) returns (contact: EmergencyContact)
      ensures ExpectedLookup(emergencyContacts.Keys, isLoaded, country) == DefaultContact ==>
                fresh(contact) && contact.Fields() == UniversalFields
      ensures ExpectedLookup(emergencyContacts.Keys, isLoaded, country).StoredUnder? ==>
                exists k :: k in ExpectedLookup(emergencyContacts.Keys, isLoaded, country).candidates &&
                            k in emergencyContacts && contact == emergencyContacts[k]
    {
      if !isLoaded || country.None? || IsBlank(country.value) {
        contact := GetDefaultEmergencyContact();
        return;
      }
      var name := country.value;
      if name in emergencyContacts {
        return emergencyContacts[name];
      }
      var withSpaces := Spaced(name);
      if withSpaces in emergencyContacts {
        return emergencyContacts[withSpaces];
      }
      var withUnderscores := Underscored(name);
      if withUnderscores in emergencyContacts {
        return emergencyContacts[withUnderscores];
      }
      assert ExactKey(emergencyContacts.Keys, name).None?;
      var found := ScanIgnoringCase(emergencyContacts.Keys, name);
      if found.Some? {
        return emergencyContacts[found.value];
      }
      contact := GetDefaultEmergencyContact();
    }

    /** `hasCountry`: loaded, not `null`, and one of the three exact variants
        is a key. No case folding. */
    predicate HasCountry(country: Option<string>)
      reads this
      ensures HasCountry(country) <==>
              isLoaded && country.Some? &&
              (country.value in emergencyContacts || ReplaceChar(country.value, '_', ' ') in emergencyContacts ||
               ReplaceChar(country.value, ' ', '_') in emergencyContacts)
    {
      isLoaded && country.Some? && ExactKey(emergencyContacts.Keys, country.value).Some?
    }

    /** `getLoadedCountriesCount`: the size of the table. */
    function GetLoadedCountriesCount(): (n: nat)
      reads this, emergencyContacts.Values
      ensures n == |Contacts()|
    {
      assert Contacts().Keys == emergencyContacts.Keys;
      assert |Contacts()| == |Contacts().Keys|;
      assert |emergencyContacts| == |emergencyContacts.Keys|;
      |emergencyContacts|
    }

    /** `getRegionalEmergencyContact`. */
    method GetRegionalEmergencyContact(region: string) returns (contact: EmergencyContact)
      ensures fresh(contact) && contact.Fields() == RegionalFields(region)
    {
      var r := Lower(region);
      if r == "europe" {
        contact := new EmergencyContact(Some("112"), Some("112"), Some("112"), Some("112"));
      } else if r == "north_america" {
        contact := new EmergencyContact(Some("911"), Some("911"), Some("911"), Some("911"));
      } else if r == "asia" {
        contact := new EmergencyContact(Some("110"), Some("119"), Some("119"), Some("110"));
      } else if r == "oceania" {
        contact := new EmergencyContact(Some("000"), Some("000"), Some("000"), Some("000"));
      } else {
        contact := GetDefaultEmergencyContact();
      }
    }
  }

  /** A country `hasCountry` reports is found by `getEmergencyContact`
      without the case-insensitive scan, unless the argument is blank. */
  lemma HasCountryIsExactLookup(m: EmergencyContactsManager, country: Option<string>)
    requires m.HasCountry(country) && !IsBlank(country.value)
    ensures ExpectedLookup(m.emergencyContacts.Keys, m.isLoaded, country) ==
            StoredUnder({ExactKey(m.emergencyContacts.Keys, country.value).value})
  {
  }

  /** `hasCountry` does no case folding, though lookup does. */
  lemma HasCountryIsCaseSensitive(m: EmergencyContactsManager, key: string)
    requires m.isLoaded && m.emergencyContacts.Keys == {key}
    requires Lower(key) != key && ' ' !in key && !IsBlank(Lower(key))
    ensures !m.HasCountry(Some(Lower(key)))
    ensures ExpectedLookup(m.emergencyContacts.Keys, m.isLoaded, Some(Lower(key))) == StoredUnder({key})
  {
    LowerCaseSpellingFoundIgnoringCase(key);
  }

  /** `hasCountry` does not reject a blank argument, lookup does: with a
      blank key stored, the two disagree. */
  lemma BlankKeyDisagreement(m: EmergencyContactsManager)
    requires m.isLoaded && " " in m.emergencyContacts
    ensures m.HasCountry(Some(" "))
    ensures ExpectedLookup(m.emergencyContacts.Keys, m.isLoaded, Some(" ")) == DefaultContact
  {
  }
}
