/** The contacts screen: the sanitisers for country names, phone numbers and
    search queries, the load loop that turns the asset's entries into a list
    of named contacts sorted by name, and the search filter over that list. */
module ContactsActivity {
  import opened JavaStrings
  import opened ContactModel
  import opened ParsedAsset

  const MaxCountryNameLength: nat := 50
  const MaxSearchLength: nat := 100

  /** What the load loop stores for a phone number that did not pass. */
  const NotAvailable: string := "N/A"

  /** One row of the list: a sanitised country name and the contact made
      for it. The contact object is never changed after it is built, so it
      is represented by its value. */
  datatype CountryEmergencyContact = CountryEmergencyContact(countryName: string, contact: ContactFields)

  // ---------------------------------------------------------------------------
  // Character classes of the sanitisers' regular expressions
  // ---------------------------------------------------------------------------

  /** `[a-zA-Z\s\-]` */
  predicate IsCountryNameChar(c: char) { IsAsciiLetter(c) || IsRegexSpace(c) || c == '-' }

  /** `[\d\s\+\-\(\)]` */
  predicate IsPhoneChar(c: char) {
    IsDigit(c) || IsRegexSpace(c) || c == '+' || c == '-' || c == '(' || c == ')'
  }

  /** `[\d\+]` */
  predicate IsDigitOrPlus(c: char) { IsDigit(c) || c == '+' }

  /** `[a-zA-Z0-9\s\-_]` */
  predicate IsSafeSearchChar(c: char) {
    IsAsciiLetter(c) || IsDigit(c) || IsRegexSpace(c) || c == '-' || c == '_'
  }

  // ---------------------------------------------------------------------------
  // Sanitisers
  // ---------------------------------------------------------------------------

  /** The key with `_` turned into spaces, then trimmed. */
  function CleanedCountryName(key: string): string {
    Trim(ReplaceChar(key, '_', ' '))
  }

  /** A blank key stays blank once cleaned. */
  lemma BlankKeyCleansToEmpty(key: string)
    requires IsBlank(key)
    ensures CleanedCountryName(key) == []
  {
    var s := ReplaceChar(key, '_', ' ');
    assert forall i :: 0 <= i < |s| ==> IsTrimmable(s[i]);
  }

  /** `sanitizeCountryName` */
  function SanitizeCountryName(key: Option<string>): Option<string> {
    if key.None? || IsBlank(key.value) then None
    else
      var name := CleanedCountryName(key.value);
      if name == [] || !AllChars(name, IsCountryNameChar) then None
      else Some(Truncate(name, MaxCountryNameLength))
  }

  /** A name passes exactly when, with `_` as spaces and trimmed, it is
      non-empty and made of letters, `\s` and `-` only; what passes is that
      cleaned name cut to 50 characters, and it has no `_` and no leading
      blank. */
  lemma SanitizeCountryNameSpec(key: Option<string>)
    ensures var r := SanitizeCountryName(key);
            (r.Some? <==> key.Some? && CleanedCountryName(key.value) != [] &&
                          AllChars(CleanedCountryName(key.value), IsCountryNameChar)) &&
            (r.Some? ==> 0 < |r.value| <= MaxCountryNameLength &&
                         AllChars(r.value, IsCountryNameChar) && '_' !in r.value &&
                         !IsTrimmable(r.value[0]) &&
                         IsPrefix(r.value, CleanedCountryName(key.value)) &&
                         (|CleanedCountryName(key.value)| <= MaxCountryNameLength ==>
                            r.value == CleanedCountryName(key.value)) &&
                         (|CleanedCountryName(key.value)| > MaxCountryNameLength ==>
                            |r.value| == MaxCountryNameLength))
  {
    if key.Some? {
      var name := CleanedCountryName(key.value);
      if IsBlank(key.value) {
        BlankKeyCleansToEmpty(key.value);
      } else if name != [] && AllChars(name, IsCountryNameChar) {
        AcceptedNameShape(name);
      }
    }
  }

  /** The cut of a cleaned name that passed keeps its class and its first
      character. */
  lemma AcceptedNameShape(name: string)
    requires name != [] && AllChars(name, IsCountryNameChar) && !IsTrimmable(name[0])
    ensures var r := Truncate(name, MaxCountryNameLength);
            0 < |r| && AllChars(r, IsCountryNameChar) && '_' !in r &&
            !IsTrimmable(r[0]) && IsPrefix(r, name)
  {
    var r := Truncate(name, MaxCountryNameLength);
    assert forall i :: 0 <= i < |r| ==> r[i] == name[i];
    assert !IsCountryNameChar('_');
  }

  /** A key of letters and `_` that starts and ends with a letter and has
      at most 50 characters comes back with its `_` as spaces
      ("United_States" gives "United States"). */
  lemma UnderscoredKeyIsSpaced(key: string)
    requires 0 < |key| <= MaxCountryNameLength
    requires forall i :: 0 <= i < |key| ==> IsAsciiLetter(key[i]) || key[i] == '_'
    requires IsAsciiLetter(key[0]) && IsAsciiLetter(key[|key| - 1])
    ensures SanitizeCountryName(Some(key)) == Some(ReplaceChar(key, '_', ' '))
  {
    var spaced := ReplaceChar(key, '_', ' ');
    assert !IsBlank(key) by { assert !IsTrimmable(key[0]); }
    TrimOfTrimmed(spaced);
    assert AllChars(spaced, IsCountryNameChar);
  }

  /** A key holding a character that is neither a letter, `\s`, `-` nor `_`
      (a digit, `<`, ...) is rejected ("Country123", "Country<script>"). */
  lemma ForeignCharInKeyRejected(key: string, i: nat)
    requires i < |key| && !IsCountryNameChar(key[i]) && key[i] != '_' && !IsTrimmable(key[i])
    ensures SanitizeCountryName(Some(key)).None?
  {
    var spaced := ReplaceChar(key, '_', ' ');
    assert spaced[i] == key[i];
    TrimKeepsVisible(spaced, i);
  }

  /** `sanitizePhoneNumber`: the trimmed number, when it uses only phone
      characters and its digits (with an optional leading `+`) number 3 to 15. */
  function SanitizePhoneNumber(p: Option<string>): Option<string> {
    if p.None? || IsBlank(p.value) then None
    else
      var cleaned := Trim(p.value);
      if !AllChars(cleaned, IsPhoneChar) then None
      else
        var digitsOnly := Filter(cleaned, IsDigitOrPlus);
        if !OptionalPlusThen(digitsOnly, IsDigit, 3, 15) then None
        else Some(cleaned)
  }

  /** A number passes exactly when its trim uses only phone characters and
      holds 3 to 15 digits after an optional leading `+`; what passes is that
      trim, which is not blank. */
  lemma SanitizePhoneNumberSpec(p: Option<string>)
    ensures var r := SanitizePhoneNumber(p);
            (r.Some? <==> p.Some? && AllChars(Trim(p.value), IsPhoneChar) &&
                          OptionalPlusThen(Filter(Trim(p.value), IsDigitOrPlus), IsDigit, 3, 15)) &&
            (r.Some? ==> r.value == Trim(p.value) && !IsBlank(r.value) &&
                         AllChars(r.value, IsPhoneChar))
  {
    if p.Some? {
      BlankIffTrimmedEmpty(p.value);
      var r := SanitizePhoneNumber(p);
      if r.Some? { BlankIffTrimmedEmpty(r.value); TrimOfTrimmed(r.value); }
    }
  }

  /** A number that passed passes again, unchanged. */
  lemma SanitizePhoneIdempotent(s: string)
    requires SanitizePhoneNumber(Some(s)).Some?
    ensures SanitizePhoneNumber(Some(SanitizePhoneNumber(Some(s)).value)) == SanitizePhoneNumber(Some(s))
  {
    var t := Trim(s);
    BlankIffTrimmedEmpty(s);
    assert SanitizePhoneNumber(Some(s)) == Some(t);
    TrimIdempotent(s);
    BlankIffTrimmedEmpty(t);
  }

  /** The part of a query that is checked: trimmed, then cut to 100 characters. */
  function SearchPrefix(query: string): string {
    Truncate(Trim(query), MaxSearchLength)
  }

  /** `sanitizeSearchQuery`: unsafe characters are deleted, not rejected. */
  function SanitizeSearchQuery(q: Option<string>): Option<string> {
    if q.None? || IsBlank(q.value) then None
    else
      var trimmed := SearchPrefix(q.value);
      var safe := if AllChars(trimmed, IsSafeSearchChar) then trimmed else Filter(trimmed, IsSafeSearchChar);
      if safe == [] then None else Some(safe)
  }

  /** A query is null or blank, or it keeps exactly the safe characters of
      its first 100 trimmed characters, which must leave some; a safe query
      comes back as its trimmed prefix. */
  lemma SanitizeSearchQuerySpec(q: Option<string>)
    ensures var r := SanitizeSearchQuery(q);
            (q.None? || IsBlank(q.value) ==> r.None?) &&
            (r.Some? <==> q.Some? && Filter(SearchPrefix(q.value), IsSafeSearchChar) != []) &&
            (r.Some? ==> r.value == Filter(SearchPrefix(q.value), IsSafeSearchChar) &&
                         0 < |r.value| <= MaxSearchLength && AllChars(r.value, IsSafeSearchChar)) &&
            (q.Some? && !IsBlank(q.value) && AllChars(SearchPrefix(q.value), IsSafeSearchChar) ==>
               r == Some(SearchPrefix(q.value)))
  {
    if q.Some? {
      BlankIffTrimmedEmpty(q.value);
    }
  }

  /** A sanitised query cannot contain a text with a character it deletes, so
      none of "<script>", "javascript:" or "${jndi:" survives. */
  lemma SanitizedQueryHasNoMarkup(q: Option<string>, needle: string, c: char)
    requires SanitizeSearchQuery(q).Some?
    requires c in needle && !IsSafeSearchChar(c)
    ensures !Contains(SanitizeSearchQuery(q).value, needle)
  {
    SanitizeSearchQuerySpec(q);
    var r := SanitizeSearchQuery(q).value;
    assert c !in r;
    ForeignCharNotContained(r, needle, c);
  }

  // ---------------------------------------------------------------------------
  // The load loop
  // ---------------------------------------------------------------------------

  function OrNotAvailable(p: Option<string>): string {
    match p
    case Some(s) => s
    case None => NotAvailable
  }

  /** A field the load loop stores: a phone number that passed, or "N/A". */
  predicate IsStoredPhone(f: Option<string>) {
    f.Some? && (f.value == NotAvailable || SanitizePhoneNumber(Some(f.value)) == Some(f.value))
  }

  /** "N/A" is never a phone number that passed. */
  lemma NotAvailableIsNoPhone()
    ensures SanitizePhoneNumber(Some(NotAvailable)).None?
  {
    assert !IsPhoneChar(NotAvailable[0]);
    TrimOfTrimmed(NotAvailable);
  }

  /** The per-entry rule of the load loop for a key whose value is an object:
      the entry is kept when its name passes and at least one of its four
      numbers does; the numbers that fail become "N/A". */
  function EntryContact(key: string, raw: RawFields): Option<CountryEmergencyContact> {
    var name := SanitizeCountryName(Some(key));
    if name.None? then None
    else
      var police := SanitizePhoneNumber(Some(OptString(raw.police, "")));
      var ambulance := SanitizePhoneNumber(Some(OptString(raw.ambulance, "")));
      var fire := SanitizePhoneNumber(Some(OptString(raw.fire, "")));
      var general := SanitizePhoneNumber(Some(OptString(raw.general, "")));
      if police.Some? || ambulance.Some? || fire.Some? || general.Some? then
        Some(CountryEmergencyContact(name.value, ContactFields(
          Some(OrNotAvailable(police)), Some(OrNotAvailable(ambulance)),
          Some(OrNotAvailable(fire)), Some(OrNotAvailable(general)))))
      else None
  }

  /** A kept entry carries its sanitised name; every field is a passed
      number or "N/A", at least one is a passed number, and so the contact
      is valid. */
  lemma EntryContactIsValid(key: string, raw: RawFields)
    requires EntryContact(key, raw).Some?
    ensures Some(EntryContact(key, raw).value.countryName) == SanitizeCountryName(Some(key))
    ensures var f := EntryContact(key, raw).value.contact;
            IsStoredPhone(f.police) && IsStoredPhone(f.ambulance) &&
            IsStoredPhone(f.fire) && IsStoredPhone(f.general) &&
            (f.police != Some(NotAvailable) || f.ambulance != Some(NotAvailable) ||
             f.fire != Some(NotAvailable) || f.general != Some(NotAvailable)) &&
            ValidFields(f)
  {
    var police := SanitizePhoneNumber(Some(OptString(raw.police, "")));
    var ambulance := SanitizePhoneNumber(Some(OptString(raw.ambulance, "")));
    var fire := SanitizePhoneNumber(Some(OptString(raw.fire, "")));
    var general := SanitizePhoneNumber(Some(OptString(raw.general, "")));
    PassedPhoneIsStored(OptString(raw.police, ""));
    PassedPhoneIsStored(OptString(raw.ambulance, ""));
    PassedPhoneIsStored(OptString(raw.fire, ""));
    PassedPhoneIsStored(OptString(raw.general, ""));
    RowOfPassedNumbers(police, ambulance, fire, general);
  }

  /** A number as `sanitizePhoneNumber` left it: `null`, or a text that
      passes again unchanged and is neither blank nor "N/A". */
  predicate IsPassedPhone(p: Option<string>) {
    p.None? || (SanitizePhoneNumber(p) == p && !IsBlank(p.value) && p.value != NotAvailable)
  }

  lemma RowOfPassedNumbers(police: Option<string>, ambulance: Option<string>, fire: Option<string>, general: Option<string>)
    requires IsPassedPhone(police) && IsPassedPhone(ambulance) && IsPassedPhone(fire) && IsPassedPhone(general)
    requires police.Some? || ambulance.Some? || fire.Some? || general.Some?
    ensures var f := ContactFields(Some(OrNotAvailable(police)), Some(OrNotAvailable(ambulance)),
                                   Some(OrNotAvailable(fire)), Some(OrNotAvailable(general)));
            IsStoredPhone(f.police) && IsStoredPhone(f.ambulance) &&
            IsStoredPhone(f.fire) && IsStoredPhone(f.general) &&
            (f.police != Some(NotAvailable) || f.ambulance != Some(NotAvailable) ||
             f.fire != Some(NotAvailable) || f.general != Some(NotAvailable)) &&
            ValidFields(f)
  {
  }

  /** What `sanitizePhoneNumber` returns is a passed number. */
  lemma PassedPhoneIsStored(s: string)
    ensures IsPassedPhone(SanitizePhoneNumber(Some(s)))
  {
    var p := SanitizePhoneNumber(Some(s));
    if p.Some? {
      SanitizePhoneNumberSpec(Some(s));
      SanitizePhoneIdempotent(s);
      NotAvailableIsNoPhone();
    }
  }

  /** How far the load loop got: the rows it added, and whether it ran to the
      end (false when `getJSONObject` threw on a non-blank key). */
  datatype LoopResult = LoopResult(added: seq<CountryEmergencyContact>, completed: bool)

  /** The load loop over the entries in iteration order, with the per-entry
      rule as a parameter. A blank key is skipped before its value is looked
      at; a value that is not an object stops the loop. */
  function LoopWith(rule: (string, RawFields) -> Option<CountryEmergencyContact>, entries: seq<RawEntry>): LoopResult
  {
    if entries == [] then LoopResult([], true)
    else
      var before := LoopWith(rule, entries[..|entries| - 1]);
      var e := entries[|entries| - 1];
      if !before.completed || IsBlank(e.key) then before
      else if e.fields.None? then before.(completed := false)
      else match rule(e.key, e.fields.value)
        case Some(c) => before.(added := before.added + [c])
        case None => before
  }

  /** The loop of `loadEmergencyContacts`. */
  function LoadLoop(entries: seq<RawEntry>): LoopResult {
    LoopWith(EntryContact, entries)
  }

  /** One more entry: the last step of the loop on a prefix. */
  lemma LoopStep(rule: (string, RawFields) -> Option<CountryEmergencyContact>, entries: seq<RawEntry>, i: nat)
    requires i < |entries|
    ensures var before := LoopWith(rule, entries[..i]);
            var e := entries[i];
            LoopWith(rule, entries[..i + 1]) ==
              if !before.completed || IsBlank(e.key) then before
              else if e.fields.None? then before.(completed := false)
              else match rule(e.key, e.fields.value)
                case Some(c) => before.(added := before.added + [c])
                case None => before
  {
    assert entries[..i + 1][..i] == entries[..i];
  }

  /** Once the loop has stopped, later entries change nothing. */
  lemma {:induction false} LoopStaysStopped(rule: (string, RawFields) -> Option<CountryEmergencyContact>, entries: seq<RawEntry>, n: nat)
    requires n <= |entries| && !LoopWith(rule, entries[..n]).completed
    ensures LoopWith(rule, entries) == LoopWith(rule, entries[..n])
    decreases |entries| - n
  {
    if n < |entries| {
      var init := entries[..|entries| - 1];
      assert init[..n] == entries[..n];
      LoopStaysStopped(rule, init, n);
      assert entries[..|entries|] == entries;
    } else {
      assert entries[..n] == entries;
    }
  }

  /** Every added row comes, by the rule, from one entry whose value is an
      object. */
  lemma {:induction false} LoopRowsComeFromEntries(rule: (string, RawFields) -> Option<CountryEmergencyContact>, entries: seq<RawEntry>, k: nat)
    requires k < |LoopWith(rule, entries).added|
    ensures exists j :: 0 <= j < |entries| && entries[j].fields.Some? &&
                        rule(entries[j].key, entries[j].fields.value) == Some(LoopWith(rule, entries).added[k])
    decreases |entries|
  {
    var n := |entries| - 1;
    var init := entries[..n];
    var before := LoopWith(rule, init);
    LoopStep(rule, entries, n);
    assert entries[..n + 1] == entries;
    if k < |before.added| {
      assert LoopWith(rule, entries).added[k] == before.added[k];
      LoopRowsComeFromEntries(rule, init, k);
      var j :| 0 <= j < |init| && init[j].fields.Some? &&
               rule(init[j].key, init[j].fields.value) == Some(before.added[k]);
      assert entries[j] == init[j];
    }
  }

  // ---------------------------------------------------------------------------
  // Sorting by name, ignoring case
  // ---------------------------------------------------------------------------

  /** `c1.getCountryName().compareToIgnoreCase(c2.getCountryName()) <= 0` */
  predicate NameLe(a: CountryEmergencyContact, b: CountryEmergencyContact) {
    CompareIgnoreCaseLe(a.countryName, b.countryName)
  }

  predicate SortedByName(s: seq<CountryEmergencyContact>) {
    forall i, j :: 0 <= i < j < |s| ==> NameLe(s[i], s[j])
  }

  /** Insert `c` before the first row it does not come after. */
  function InsertByName(c: CountryEmergencyContact, s: seq<CountryEmergencyContact>): (r: seq<CountryEmergencyContact>)
    ensures multiset(r) == multiset(s) + multiset{c}
  {
    if s == [] then [c]
    else if NameLe(c, s[0]) then [c] + s
    else
      assert s == [s[0]] + s[1..];
      [s[0]] + InsertByName(c, s[1..])
  }

  /** `List.sort` with the name comparator, as an insertion sort. */
  function SortByName(s: seq<CountryEmergencyContact>): (r: seq<CountryEmergencyContact>)
    ensures multiset(r) == multiset(s)
  {
    if s == [] then []
    else
      assert s == [s[0]] + s[1..];
      InsertByName(s[0], SortByName(s[1..]))
  }

  lemma NameLeTotal(a: CountryEmergencyContact, b: CountryEmergencyContact)
    ensures NameLe(a, b) || NameLe(b, a)
  {
    LexLeTotal(Lower(a.countryName), Lower(b.countryName));
  }

  lemma NameLeTransitive(a: CountryEmergencyContact, b: CountryEmergencyContact, c: CountryEmergencyContact)
    requires NameLe(a, b) && NameLe(b, c)
    ensures NameLe(a, c)
  {
    LexLeTransitive(Lower(a.countryName), Lower(b.countryName), Lower(c.countryName));
  }

  /** A sorted list stays sorted with a head that comes before its first row. */
  lemma ConsSorted(h: CountryEmergencyContact, t: seq<CountryEmergencyContact>)
    requires SortedByName(t) && (t != [] ==> NameLe(h, t[0]))
    ensures SortedByName([h] + t)
  {
    var r := [h] + t;
    forall i, j | 0 <= i < j < |r| ensures NameLe(r[i], r[j]) {
      if i == 0 {
        if j > 1 { NameLeTransitive(h, t[0], t[j - 1]); }
      } else {
        assert r[i] == t[i - 1] && r[j] == t[j - 1];
      }
    }
  }

  lemma {:induction false} InsertKeepsSorted(c: CountryEmergencyContact, s: seq<CountryEmergencyContact>)
    requires SortedByName(s)
    ensures SortedByName(InsertByName(c, s))
    decreases |s|
  {
    if s == [] {
    } else if NameLe(c, s[0]) {
      ConsSorted(c, s);
    } else {
      NameLeTotal(c, s[0]);
      var tail := InsertByName(c, s[1..]);
      InsertKeepsSorted(c, s[1..]);
      assert tail[0] in multiset(tail);
      if tail[0] != c {
        assert tail[0] in multiset(s[1..]);
        var m :| 0 <= m < |s[1..]| && s[1..][m] == tail[0];
        assert s[m + 1] == tail[0];
      }
      ConsSorted(s[0], tail);
    }
  }

  lemma {:induction false} SortIsSorted(s: seq<CountryEmergencyContact>)
    ensures SortedByName(SortByName(s))
    decreases |s|
  {
    if s != [] {
      SortIsSorted(s[1..]);
      InsertKeepsSorted(s[0], SortByName(s[1..]));
    }
  }

  // ---------------------------------------------------------------------------
  // Search
  // ---------------------------------------------------------------------------

  /** The test of the filter loop: the lower-cased name contains the query. */
  predicate NameMatches(c: CountryEmergencyContact, query: string) {
    Contains(Lower(c.countryName), query)
  }

  /** The rows of `s` whose name matches, in their order in `s`. */
  function MatchingNames(s: seq<CountryEmergencyContact>, query: string): seq<CountryEmergencyContact> {
    if s == [] then []
    else
      var init := s[..|s| - 1];
      var last := s[|s| - 1];
      MatchingNames(init, query) + (if NameMatches(last, query) then [last] else [])
  }

  /** What `filterContacts` leaves in the filtered list. */
  function FilterResult(all: seq<CountryEmergencyContact>, query: Option<string>): seq<CountryEmergencyContact> {
    if query.None? || IsBlank(query.value) then all
    else match SanitizeSearchQuery(query)
      case None => []
      case Some(q) => MatchingNames(all, Trim(Lower(q)))
  }

  /** Filtering a concatenation filters each part, so order is kept. */
  lemma {:induction false} MatchingNamesConcat(a: seq<CountryEmergencyContact>, b: seq<CountryEmergencyContact>, query: string)
    ensures MatchingNames(a + b, query) == MatchingNames(a, query) + MatchingNames(b, query)
    decreases |b|
  {
    if b == [] {
      assert a + b == a;
    } else {
      var init := b[..|b| - 1];
      assert (a + b)[..|a + b| - 1] == a + init;
      assert (a + b)[|a + b| - 1] == b[|b| - 1];
      MatchingNamesConcat(a, init, query);
    }
  }

  /** A row is kept exactly when it is in the list and its name matches. */
  lemma {:induction false} MatchingNamesMembers(s: seq<CountryEmergencyContact>, query: string)
    ensures forall c :: c in MatchingNames(s, query) <==> c in s && NameMatches(c, query)
    ensures |MatchingNames(s, query)| <= |s|
    decreases |s|
  {
    if s != [] {
      var init := s[..|s| - 1];
      MatchingNamesMembers(init, query);
      assert s == init + [s[|s| - 1]];
    }
  }

  /** When every name matches, nothing is dropped. */
  lemma {:induction false} AllMatchingKeepsAll(s: seq<CountryEmergencyContact>, query: string)
    requires forall i :: 0 <= i < |s| ==> NameMatches(s[i], query)
    ensures MatchingNames(s, query) == s
    decreases |s|
  {
    if s != [] {
      var init := s[..|s| - 1];
      AllMatchingKeepsAll(init, query);
      assert s == init + [s[|s| - 1]];
    }
  }

  /** A non-blank query whose sanitised form is only blanks (such as "< >",
      which becomes " ") matches every row, since every name contains the
      empty string. */
  lemma BlankSanitisedQueryKeepsAll(all: seq<CountryEmergencyContact>, query: string)
    requires !IsBlank(query)
    requires SanitizeSearchQuery(Some(query)).Some? && IsBlank(SanitizeSearchQuery(Some(query)).value)
    ensures FilterResult(all, Some(query)) == all
  {
    var q := SanitizeSearchQuery(Some(query)).value;
    assert IsBlank(Lower(q));
    BlankIffTrimmedEmpty(Lower(q));
    forall i | 0 <= i < |all| ensures NameMatches(all[i], Trim(Lower(q))) {
      EmptyNeedleContained(Lower(all[i].countryName));
    }
    AllMatchingKeepsAll(all, Trim(Lower(q)));
  }

  // ---------------------------------------------------------------------------
  // The activity object
  // ---------------------------------------------------------------------------

  /** The two lists after `initViews` and `loadEmergencyContacts`. */
  datatype Lists = Lists(all: seq<CountryEmergencyContact>, filtered: seq<CountryEmergencyContact>)

  function AfterLoad(asset: Asset): Lists {
    match asset
    case Document(entries) =>
      var loop := LoadLoop(entries);
      if loop.completed then Lists(SortByName(loop.added), SortByName(loop.added))
      else Lists(loop.added, [])
    case _ => Lists([], [])
  }

  /** After a complete load both lists hold the same rows, sorted by name;
      after a load cut short the rows read so far stay unsorted and nothing
      is shown. */
  lemma AfterLoadShape(asset: Asset)
    ensures asset.Document? && LoadLoop(asset.entries).completed ==>
              var l := AfterLoad(asset);
              l.filtered == l.all && SortedByName(l.all) &&
              multiset(l.all) == multiset(LoadLoop(asset.entries).added)
    ensures asset.Document? && !LoadLoop(asset.entries).completed ==>
              AfterLoad(asset) == Lists(LoadLoop(asset.entries).added, [])
    ensures !asset.Document? ==> AfterLoad(asset) == Lists([], [])
  {
    if asset.Document? {
      SortIsSorted(LoadLoop(asset.entries).added);
    }
  }

  /** Every loaded row is a valid contact built by the per-entry rule. */
  lemma LoadedRowsAreValid(asset: Asset, c: CountryEmergencyContact)
    requires c in AfterLoad(asset).all
    ensures asset.Document?
    ensures exists j :: 0 <= j < |asset.entries| && asset.entries[j].fields.Some? &&
                        EntryContact(asset.entries[j].key, asset.entries[j].fields.value) == Some(c)
    ensures ValidFields(c.contact)
  {
    var added := LoadLoop(asset.entries).added;
    assert c in multiset(added);
    var k :| 0 <= k < |added| && added[k] == c;
    LoopRowsComeFromEntries(EntryContact, asset.entries, k);
    var j :| 0 <= j < |asset.entries| && asset.entries[j].fields.Some? &&
             EntryContact(asset.entries[j].key, asset.entries[j].fields.value) == Some(c);
    EntryContactIsValid(asset.entries[j].key, asset.entries[j].fields.value);
  }

  class EmergencyContactsActivity {
    var allContacts: seq<CountryEmergencyContact>
    var filteredContacts: seq<CountryEmergencyContact>

    /** `initViews` followed by `loadEmergencyContacts`. */
    constructor (asset: Asset)
      ensures Lists(allContacts, filteredContacts) == AfterLoad(asset)
    {
      allContacts := [];
      filteredContacts := [];
      new;
      LoadEmergencyContacts(asset);
      if asset.Document? {
        assert allContacts == SortByName([] + LoadLoop(asset.entries).added) || allContacts == [] + LoadLoop(asset.entries).added;
        assert [] + LoadLoop(asset.entries).added == LoadLoop(asset.entries).added;
      }
    }

    /** `loadEmergencyContacts` on lists that may already hold rows: a read
        or parse failure before the loop changes nothing; an exception
        inside the loop keeps the rows added so far, unsorted, and skips the
        copy into the filtered list. */
    method LoadEmergencyContacts(asset: Asset)
      modifies this
      ensures !asset.Document? ==> allContacts == old(allContacts) && filteredContacts == old(filteredContacts)
      ensures asset.Document? && LoadLoop(asset.entries).completed ==>
                allContacts == SortByName(old(allContacts) + LoadLoop(asset.entries).added) &&
                filteredContacts == old(filteredContacts) + allContacts
      ensures asset.Document? && !LoadLoop(asset.entries).completed ==>
                allContacts == old(allContacts) + LoadLoop(asset.entries).added &&
                filteredContacts == old(filteredContacts)
    {
      match asset
      case Unreadable =>
      case Malformed =>
      case Document(entries) =>
        var completed := AddEntries(EntryContact, entries);
        if completed {
          allContacts := SortByName(allContacts);
          filteredContacts := filteredContacts + allContacts;
        }
    }

    /** The loop of `loadEmergencyContacts`: append the row that `rule`
        makes of every kept entry to the full list, until a non-blank key
        whose value is not an object throws. The load passes `EntryContact`,
        the rule the loop body applies. */
    method AddEntries(rule: (string, RawFields) -> Option<CountryEmergencyContact>, entries: seq<RawEntry>) returns (completed: bool)
      modifies this
      ensures completed == LoopWith(rule, entries).completed
      ensures allContacts == old(allContacts) + LoopWith(rule, entries).added
      ensures filteredContacts == old(filteredContacts)
    {
      var i := 0;
      var failed := false;
      while i < |entries| && !failed
        invariant 0 <= i <= |entries|
        invariant filteredContacts == old(filteredContacts)
        invariant !failed ==> LoopWith(rule, entries[..i]).completed &&
                              allContacts == old(allContacts) + LoopWith(rule, entries[..i]).added
        invariant failed ==> LoopWith(rule, entries) == LoopWith(rule, entries[..i]) && !LoopWith(rule, entries).completed &&
                             allContacts == old(allContacts) + LoopWith(rule, entries).added
      {
        var countryKey := entries[i].key;
        LoopStep(rule, entries, i);
        if IsBlank(countryKey) {
          i := i + 1;
        } else if entries[i].fields.None? {
          failed := true;
          i := i + 1;
          LoopStaysStopped(rule, entries, i);
        } else {
          var contactData := entries[i].fields.value;
          var row := rule(countryKey, contactData);
          if row.Some? {
            allContacts := allContacts + [row.value];
          }
          i := i + 1;
        }
      }
      if !failed {
        assert entries[..i] == entries;
      }
      completed := !failed;
    }

    /** `filterContacts`: clear the filtered list, then refill it from the
        full list. */
    method FilterContacts(query: Option<string>)
      modifies this
      ensures allContacts == old(allContacts)
      ensures filteredContacts == FilterResult(allContacts, query)
    {
      filteredContacts := [];
      if query.None? || IsBlank(query.value) {
        filteredContacts := filteredContacts + allContacts;
      } else {
        var sanitizedQuery := SanitizeSearchQuery(query);
        if sanitizedQuery.Some? {
          var lowerCaseQuery := Trim(Lower(sanitizedQuery.value));
          assert FilterResult(allContacts, query) == MatchingNames(allContacts, lowerCaseQuery);
          for i := 0 to |allContacts|
            invariant allContacts == old(allContacts)
            invariant filteredContacts == MatchingNames(allContacts[..i], lowerCaseQuery)
          {
            var contact := allContacts[i];
            assert allContacts[..i + 1][..i] == allContacts[..i];
            assert allContacts[..i + 1][i] == contact;
            assert MatchingNames(allContacts[..i + 1], lowerCaseQuery) ==
                   MatchingNames(allContacts[..i], lowerCaseQuery) + (if NameMatches(contact, lowerCaseQuery) then [contact] else []);
            if Contains(Lower(contact.countryName), lowerCaseQuery) {
              filteredContacts := filteredContacts + [contact];
            }
          }
          assert allContacts[..|allContacts|] == allContacts;
        }
      }
    }
  }
}
