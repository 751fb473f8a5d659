/** The list adapter's text and dial checks: whether a stored number is shown
    and dialled, how text is cleaned for display, how a number is cleaned for
    a `tel:` address, and which text a number's row shows. */
module ContactAdapter {
  import opened JavaStrings
  import opened ContactModel
  import opened ParsedAsset
  import opened ContactsActivity

  const MaxNumberLength: nat := 20
  const MaxDisplayLength: nat := 100

  /** `[0-9\s\-\(\)]`, the body of both dial patterns (`\d` and `0-9` agree). */
  predicate IsDialBodyChar(c: char) {
    IsDigit(c) || IsRegexSpace(c) || c == '-' || c == '(' || c == ')'
  }

  /** `[\d\+\-\(\)\s]`, what `sanitizePhoneNumberForIntent` keeps. */
  predicate IsDialChar(c: char) { IsDialBodyChar(c) || c == '+' }

  /** `isValidEmergencyNumber` */
  predicate IsValidEmergencyNumber(number: Option<string>) {
    if number.None? || IsBlank(number.value) || number.value == NotAvailable then false
    else
      var trimmed := Trim(number.value);
      if |trimmed| < 3 || |trimmed| > MaxNumberLength then false
      else OptionalPlusThen(trimmed, IsDialBodyChar, 3, MaxNumberLength)
  }

  /** The shape the dial pattern and the length check accept, character by
      character: 3 to 20 characters, each a dial character except for a `+`
      in front, and at least 3 besides that `+`. */
  predicate IsDialShaped(t: string) {
    3 <= |t| <= MaxNumberLength &&
    (forall i :: 0 <= i < |t| ==> IsDialBodyChar(t[i]) || (i == 0 && t[i] == '+')) &&
    3 <= |t| - (if t[0] == '+' then 1 else 0)
  }

  /** A number is valid exactly when it is not "N/A" and its trim has the
      dial shape. */
  lemma ValidNumberShape(number: Option<string>)
    ensures IsValidEmergencyNumber(number) <==>
              number.Some? && number.value != NotAvailable && IsDialShaped(Trim(number.value))
  {
    if number.Some? {
      BlankIffTrimmedEmpty(number.value);
      DialShapeIsPattern(Trim(number.value));
    }
  }

  /** The dial shape is the length check together with the dial pattern. */
  lemma DialShapeIsPattern(t: string)
    ensures IsDialShaped(t) <==>
              3 <= |t| <= MaxNumberLength && OptionalPlusThen(t, IsDialBodyChar, 3, MaxNumberLength)
  {
    OptionalPlusThenIff(t, IsDialBodyChar, 3, MaxNumberLength);
  }

  /** What `sanitizeDisplayText` deletes: `[\p{Cntrl}&&[^\r\n\t]]`. */
  predicate IsRemovedControl(c: char) {
    IsControl(c) && c != '\r' && c != '\n' && c != '\t'
  }

  predicate IsKeptChar(c: char) { !IsRemovedControl(c) }

  /** `sanitizeDisplayText` */
  function SanitizeDisplayText(text: Option<string>): string {
    match text
    case None => ""
    case Some(t) => Shortened(Trim(Filter(t, IsKeptChar)))
  }

  /** The cut `sanitizeDisplayText` makes: the first 100 characters and "...". */
  function Shortened(sanitized: string): string {
    if |sanitized| > MaxDisplayLength then sanitized[..MaxDisplayLength] + "..." else sanitized
  }

  /** The shown text has at most 103 characters; its only controls are
      `\r`, `\n` and `\t`, never at the ends. */
  lemma DisplayTextIsClean(text: Option<string>)
    ensures |SanitizeDisplayText(text)| <= MaxDisplayLength + 3
    ensures AllChars(SanitizeDisplayText(text), IsKeptChar)
    ensures HasVisibleEnds(SanitizeDisplayText(text))
  {
    if text.Some? {
      var f := Filter(text.value, IsKeptChar);
      TrimmedTextIsClean(f);
      ShortenedIsClean(Trim(f));
    }
  }

  lemma TrimmedTextIsClean(f: string)
    requires AllChars(f, IsKeptChar)
    ensures AllChars(Trim(f), IsKeptChar) && HasVisibleEnds(Trim(f))
  {
    TrimKeepsClass(f, IsKeptChar);
  }

  /** A cleaned text of kept characters with visible ends stays so once cut. */
  lemma ShortenedIsClean(cleaned: string)
    requires AllChars(cleaned, IsKeptChar)
    requires HasVisibleEnds(cleaned)
    ensures |Shortened(cleaned)| <= MaxDisplayLength + 3
    ensures AllChars(Shortened(cleaned), IsKeptChar)
    ensures HasVisibleEnds(Shortened(cleaned))
  {
    if |cleaned| > MaxDisplayLength {
      var r := cleaned[..MaxDisplayLength] + "...";
      assert forall i :: 0 <= i < MaxDisplayLength ==> r[i] == cleaned[i];
      assert forall i :: MaxDisplayLength <= i < |r| ==> r[i] == '.';
    }
  }

  /** `null` shows as the empty text; a cleaned text of at most 100
      characters is shown whole, a longer one as its first 100 and "...". */
  lemma DisplayTextTruncates(text: Option<string>)
    ensures text.None? ==> SanitizeDisplayText(text) == ""
    ensures text.Some? ==> var cleaned := Trim(Filter(text.value, IsKeptChar));
            (|cleaned| <= MaxDisplayLength ==> SanitizeDisplayText(text) == cleaned) &&
            (|cleaned| > MaxDisplayLength ==> SanitizeDisplayText(text) == cleaned[..MaxDisplayLength] + "...")
  {
  }

  /** Controls are deleted wherever they stand: a visible text with one
      removed control after each of two parts shows as the two parts joined
      ("United\u0000States\u0001" gives "UnitedStates"). */
  lemma ControlsAreDeleted(a: string, b: string, c: char, d: char)
    requires AllChars(a, IsKeptChar) && AllChars(b, IsKeptChar)
    requires a != [] && !IsTrimmable(a[0]) && b != [] && !IsTrimmable(b[|b| - 1])
    requires IsRemovedControl(c) && IsRemovedControl(d)
    requires |a| + |b| <= MaxDisplayLength
    ensures SanitizeDisplayText(Some(a + [c] + b + [d])) == a + b
  {
    FilterDropsSeparators(a, b, c, d, IsKeptChar);
    var ab := a + b;
    assert ab[0] == a[0] && ab[|ab| - 1] == b[|b| - 1];
    TrimOfTrimmed(ab);
    DisplayOfCleaned(a + [c] + b + [d], ab);
  }

  lemma DisplayOfCleaned(text: string, cleaned: string)
    requires Trim(Filter(text, IsKeptChar)) == cleaned && |cleaned| <= MaxDisplayLength
    ensures SanitizeDisplayText(Some(text)) == cleaned
  {
  }

  /** Display text only deletes controls: markup is shown as it stands
      ("Country<script>alert('xss')</script>" is shown whole). */
  lemma MarkupIsShown(text: string)
    requires text == "Country<script>alert('xss')</script>"
    ensures SanitizeDisplayText(Some(text)) == text
  {
    assert AllChars(text, IsKeptChar) && HasVisibleEnds(text);
    TrimOfTrimmed(text);
    DisplayOfCleaned(text, text);
  }

  /** `sanitizePhoneNumberForIntent` */
  function SanitizePhoneNumberForIntent(number: Option<string>): Option<string> {
    if number.None? || IsBlank(number.value) then None
    else
      var cleaned := Filter(Trim(number.value), IsDialChar);
      if !OptionalPlusThen(cleaned, IsDialBodyChar, 3, MaxNumberLength) then None
      else Some(cleaned)
  }

  /** Null and blank give no number; a number given is the trimmed input
      with every other character deleted, and is an optional `+` then 3 to
      20 dial characters. */
  lemma IntentNumberShape(number: Option<string>)
    ensures number.None? || IsBlank(number.value) ==> SanitizePhoneNumberForIntent(number).None?
    ensures var r := SanitizePhoneNumberForIntent(number);
            r.Some? ==> r.value == Filter(Trim(number.value), IsDialChar) &&
                        OptionalPlusThen(r.value, IsDialBodyChar, 3, MaxNumberLength) &&
                        AllChars(r.value, IsDialChar)
    ensures number.Some? && !IsBlank(number.value) ==>
              (SanitizePhoneNumberForIntent(number).Some? <==>
                 OptionalPlusThen(Filter(Trim(number.value), IsDialChar), IsDialBodyChar, 3, MaxNumberLength))
  {
  }

  /** A number the adapter accepts is dialled as its trim, unchanged. */
  lemma ValidNumberIsDialledAsTrimmed(number: Option<string>)
    requires IsValidEmergencyNumber(number)
    ensures SanitizePhoneNumberForIntent(number) == Some(Trim(number.value))
  {
    ValidNumberShape(number);
  }

  /** Unlike the check that guards it, the intent cleaner deletes letters
      rather than rejecting: a run of digits after text with no dial
      character is still dialled ("call911" gives "911"), though the number
      is not valid. */
  lemma LettersAreDeletedForDialling(prefix: string, digits: string)
    requires forall i :: 0 <= i < |prefix| ==> !IsDialChar(prefix[i])
    requires prefix != [] && !IsTrimmable(prefix[0])
    requires 3 <= |digits| <= MaxNumberLength && AllChars(digits, IsDigit)
    ensures SanitizePhoneNumberForIntent(Some(prefix + digits)) == Some(digits)
    ensures !IsValidEmergencyNumber(Some(prefix + digits))
  {
    var s := prefix + digits;
    PrefixedDigitsAreTrimmed(prefix, digits);
    FilterDropsPrefix(prefix, digits, IsDialChar);
    DigitRunIsDialShaped(digits);
    IntentOfCleaned(s, digits);
    assert !IsDialShaped(s) by { assert s[0] == prefix[0]; }
    TrimmedNumberValidity(s);
  }

  lemma PrefixedDigitsAreTrimmed(prefix: string, digits: string)
    requires prefix != [] && !IsTrimmable(prefix[0])
    requires digits != [] && AllChars(digits, IsDigit)
    ensures Trim(prefix + digits) == prefix + digits
  {
    var s := prefix + digits;
    assert s[0] == prefix[0] && s[|s| - 1] == digits[|digits| - 1];
    TrimOfTrimmed(s);
  }

  /** Markup after the digits is deleted for dialling too ("911<script>"
      gives "911"), though the number is not valid. */
  lemma MarkupIsDeletedForDialling(digits: string, suffix: string)
    requires 3 <= |digits| <= MaxNumberLength && AllChars(digits, IsDigit)
    requires forall i :: 0 <= i < |suffix| ==> !IsDialChar(suffix[i])
    requires suffix != [] && !IsTrimmable(suffix[|suffix| - 1])
    ensures SanitizePhoneNumberForIntent(Some(digits + suffix)) == Some(digits)
    ensures !IsValidEmergencyNumber(Some(digits + suffix))
  {
    var s := digits + suffix;
    DigitsThenSuffixAreTrimmed(digits, suffix);
    FilterDropsSuffix(digits, suffix, IsDialChar);
    DigitRunIsDialShaped(digits);
    IntentOfCleaned(s, digits);
    assert !IsDialShaped(s) by { assert s[|digits|] == suffix[0]; }
    TrimmedNumberValidity(s);
  }

  lemma DigitsThenSuffixAreTrimmed(digits: string, suffix: string)
    requires digits != [] && AllChars(digits, IsDigit)
    requires suffix != [] && !IsTrimmable(suffix[|suffix| - 1])
    ensures Trim(digits + suffix) == digits + suffix
  {
    var s := digits + suffix;
    assert s[0] == digits[0] && s[|s| - 1] == suffix[|suffix| - 1];
    TrimOfTrimmed(s);
  }

  lemma IntentOfCleaned(number: string, cleaned: string)
    requires Trim(number) != [] && Filter(Trim(number), IsDialChar) == cleaned
    requires OptionalPlusThen(cleaned, IsDialBodyChar, 3, MaxNumberLength)
    ensures SanitizePhoneNumberForIntent(Some(number)) == Some(cleaned)
  {
    BlankIffTrimmedEmpty(number);
  }

  /** Shell text is not rejected either: "911; rm -rf /" is dialled as
      "911  - ", the dial characters it has. */
  lemma CommandTextIsDialled(number: string)
    requires number == "911; rm -rf /"
    ensures SanitizePhoneNumberForIntent(Some(number)) == Some("911  - ")
  {
    assert number == ("911" + ";" + " " + "rm") + (" -" + "rf" + " " + "/");
    assert HasVisibleEnds(number);
    assert AllChars("911", IsDialChar) && AllChars(" ", IsDialChar) && AllChars(" -", IsDialChar);
    assert !IsDialChar(';') && !IsDialChar('r') && !IsDialChar('m') && !IsDialChar('f') && !IsDialChar('/');
    assert ("911" + " ") + (" -" + " ") == "911  - ";
    assert OptionalPlusThen("911  - ", IsDialBodyChar, 3, MaxNumberLength);
    InterleavedTextIsDialled(number, "911", ";", " ", "rm", " -", "rf", " ", "/");
  }

  /** Text that interleaves runs of dial characters with runs of other
      characters is not rejected: it is dialled as the dial runs joined,
      when those match the dial pattern. */
  lemma InterleavedTextIsDialled(number: string, a: string, x: string, b: string, y: string,
                                 c: string, z: string, d: string, w: string)
    requires number == (a + x + b + y) + (c + z + d + w) && HasVisibleEnds(number)
    requires AllChars(a, IsDialChar) && AllChars(b, IsDialChar) && AllChars(c, IsDialChar) && AllChars(d, IsDialChar)
    requires forall i :: 0 <= i < |x| ==> !IsDialChar(x[i])
    requires forall i :: 0 <= i < |y| ==> !IsDialChar(y[i])
    requires forall i :: 0 <= i < |z| ==> !IsDialChar(z[i])
    requires forall i :: 0 <= i < |w| ==> !IsDialChar(w[i])
    requires OptionalPlusThen((a + b) + (c + d), IsDialBodyChar, 3, MaxNumberLength)
    ensures SanitizePhoneNumberForIntent(Some(number)) == Some((a + b) + (c + d))
  {
    FilterDropsRunsTwice(a, x, b, y, c, z, d, w, IsDialChar);
    TrimOfTrimmed(number);
    var cleaned := (a + b) + (c + d);
    assert Filter(Trim(number), IsDialChar) == cleaned;
    assert Trim(number) != [] by {
      assert |cleaned| >= 3;
      assert |cleaned| <= |Filter(number, IsDialChar)| <= |number|;
    }
    IntentOfCleaned(number, cleaned);
  }

  /** The text `setEmergencyNumber` puts on a number's row. */
  function DisplayText(prefix: string, number: Option<string>): string {
    if IsValidEmergencyNumber(number) then prefix + " " + SanitizeDisplayText(number)
    else prefix + " N/A"
  }

  /** A valid number without a vertical tab or form feed is shown trimmed. */
  lemma ValidNumberIsShownTrimmed(prefix: string, number: Option<string>)
    requires IsValidEmergencyNumber(number)
    requires AllChars(number.value, IsKeptChar)
    ensures DisplayText(prefix, number) == prefix + " " + Trim(number.value)
  {
    ValidNumberShape(number);
  }

  /** An invalid number, or "N/A", shows "N/A" after the label. */
  lemma InvalidNumberIsShownUnavailable(prefix: string, number: Option<string>)
    requires !IsValidEmergencyNumber(number)
    ensures DisplayText(prefix, number) == prefix + " " + NotAvailable
  {
  }

  /** "N/A", as the load loop stores it, is never valid. */
  lemma NotAvailableIsInvalid()
    ensures !IsValidEmergencyNumber(Some(NotAvailable))
  {
  }

  /** Boundary: two characters are too few, three are enough. */
  lemma NumberLengthBoundary(two: string, three: string)
    requires two == "12" && three == "123"
    ensures !IsValidEmergencyNumber(Some(two))
    ensures IsValidEmergencyNumber(Some(three))
  {
    ShortNumberIsInvalid(two);
    assert AllChars(three, IsDigit);
    DigitRunIsValid(three);
  }

  /** Fewer than three characters are never a valid number. */
  lemma ShortNumberIsInvalid(number: string)
    requires |number| < 3
    ensures !IsValidEmergencyNumber(Some(number))
  {
  }

  /** A text with visible ends and the dial shape, other than "N/A", is valid. */
  lemma ShapedNumberIsValid(t: string)
    requires HasVisibleEnds(t) && IsDialShaped(t) && t != NotAvailable
    ensures IsValidEmergencyNumber(Some(t))
  {
    TrimOfTrimmed(t);
    TrimmedNumberValidity(t);
  }

  /** Formatted numbers are valid: "+1-555-123-4567". */
  lemma InternationalFormatIsValid(number: string)
    requires number == "+1-555-123-4567"
    ensures IsValidEmergencyNumber(Some(number))
  {
    assert HasVisibleEnds(number) && IsDialShaped(number) && number != NotAvailable;
    ShapedNumberIsValid(number);
  }

  /** Formatted numbers are valid: "(555) 123-4567". */
  lemma LocalFormatIsValid(number: string)
    requires number == "(555) 123-4567"
    ensures IsValidEmergencyNumber(Some(number))
  {
    assert HasVisibleEnds(number) && IsDialShaped(number) && number != NotAvailable;
    ShapedNumberIsValid(number);
  }

  /** Any run of 3 to 20 digits is valid, 16 or 20 digits included. */
  lemma DigitRunIsValid(digits: string)
    requires 3 <= |digits| <= MaxNumberLength && AllChars(digits, IsDigit)
    ensures IsValidEmergencyNumber(Some(digits))
  {
    assert Trim(digits) == digits by {
      assert IsDigit(digits[0]) && IsDigit(digits[|digits| - 1]);
      TrimOfTrimmed(digits);
    }
    DigitRunIsDialShaped(digits);
    TrimmedNumberValidity(digits);
  }

  lemma DigitRunIsDialShaped(digits: string)
    requires 3 <= |digits| <= MaxNumberLength && AllChars(digits, IsDigit)
    ensures digits != NotAvailable && IsDialShaped(digits)
    ensures OptionalPlusThen(digits, IsDialBodyChar, 3, MaxNumberLength)
  {
    assert IsDigit(digits[0]);
  }

  /** A number the load loop kept is shown whenever it has at most 20
      characters and its only `+` is the first. */
  lemma StoredNumberIsShownWhenShort(s: string)
    requires SanitizePhoneNumber(Some(s)).Some?
    requires var t := SanitizePhoneNumber(Some(s)).value;
             |t| <= MaxNumberLength && forall i :: 0 < i < |t| ==> t[i] != '+'
    ensures IsValidEmergencyNumber(SanitizePhoneNumber(Some(s)))
  {
    var t := SanitizePhoneNumber(Some(s)).value;
    SanitizePhoneNumberSpec(Some(s));
    assert OptionalPlusThen(Filter(t, IsDigitOrPlus), IsDigit, 3, 15);
    assert AllChars(t, IsPhoneChar);
    TrimIdempotent(s);
    PhoneCharsAreDialChars(t);
  }

  /** A trimmed text of phone characters whose only `+` is the first, with
      3 digits besides it, is a valid number. */
  lemma PhoneCharsAreDialChars(t: string)
    requires Trim(t) == t && |t| <= MaxNumberLength && AllChars(t, IsPhoneChar)
    requires forall i :: 0 < i < |t| ==> t[i] != '+'
    requires OptionalPlusThen(Filter(t, IsDigitOrPlus), IsDigit, 3, 15)
    ensures IsValidEmergencyNumber(Some(t))
  {
    FilteredPlusThenBound(t, IsDigitOrPlus, IsDigit, 3, 15);
    PhoneShapeIsDialShape(t);
    TrimmedNumberValidity(t);
  }

  lemma PhoneShapeIsDialShape(t: string)
    requires |t| <= MaxNumberLength && AllChars(t, IsPhoneChar)
    requires forall i :: 0 < i < |t| ==> t[i] != '+'
    requires 3 <= |t| - (if t != [] && t[0] == '+' then 1 else 0)
    ensures t != NotAvailable && IsDialShaped(t)
  {
    assert t[0] != 'N' by { assert IsPhoneChar(t[0]); }
    forall i | 0 <= i < |t| ensures IsDialBodyChar(t[i]) || (i == 0 && t[i] == '+') {
      assert IsPhoneChar(t[i]);
    }
  }

  /** For a trimmed text the validity check is the dial shape alone. */
  lemma TrimmedNumberValidity(t: string)
    requires Trim(t) == t
    ensures IsValidEmergencyNumber(Some(t)) <==> t != NotAvailable && IsDialShaped(t)
  {
    ValidNumberShape(Some(t));
  }

  /** The loader and the adapter disagree: a number such as "(+123", whose
      digits and `+` read "+123", passes the load loop's check, but the
      adapter shows it as "N/A", since its `+` is not first. */
  lemma MisplacedPlusStoredButHidden(x: char, digits: string)
    requires IsPhoneChar(x) && !IsDigitOrPlus(x) && !IsTrimmable(x)
    requires 3 <= |digits| <= 15 && AllChars(digits, IsDigit)
    ensures var s := [x, '+'] + digits;
            SanitizePhoneNumber(Some(s)) == Some(s) && !IsValidEmergencyNumber(Some(s))
  {
    MisplacedPlusIsStored(x, digits);
    MisplacedPlusIsHidden(x, digits);
  }

  lemma MisplacedPlusIsStored(x: char, digits: string)
    requires IsPhoneChar(x) && !IsDigitOrPlus(x) && !IsTrimmable(x)
    requires 3 <= |digits| <= 15 && AllChars(digits, IsDigit)
    ensures SanitizePhoneNumber(Some([x, '+'] + digits)) == Some([x, '+'] + digits)
  {
    var s := [x, '+'] + digits;
    MisplacedPlusChars(x, digits);
    PrefixedDigitsAreTrimmed([x, '+'], digits);
    StoredOfCleaned(s, ['+'] + digits);
  }

  lemma MisplacedPlusChars(x: char, digits: string)
    requires IsPhoneChar(x) && !IsDigitOrPlus(x)
    requires 3 <= |digits| <= 15 && AllChars(digits, IsDigit)
    ensures AllChars([x, '+'] + digits, IsPhoneChar)
    ensures Filter([x, '+'] + digits, IsDigitOrPlus) == ['+'] + digits
    ensures OptionalPlusThen(['+'] + digits, IsDigit, 3, 15)
  {
    var s := [x, '+'] + digits;
    var pd := ['+'] + digits;
    assert s == [x] + pd;
    assert pd[1..] == digits;
    assert AllChars(s, IsPhoneChar) by {
      assert forall i :: 2 <= i < |s| ==> s[i] == digits[i - 2];
    }
    assert AllChars(pd, IsDigitOrPlus) by {
      assert forall i :: 1 <= i < |pd| ==> pd[i] == digits[i - 1];
    }
    FilterDropsPrefix([x], pd, IsDigitOrPlus);
  }

  lemma MisplacedPlusIsHidden(x: char, digits: string)
    requires !IsDigitOrPlus(x) && !IsTrimmable(x)
    requires digits != [] && AllChars(digits, IsDigit)
    ensures !IsValidEmergencyNumber(Some([x, '+'] + digits))
  {
    var s := [x, '+'] + digits;
    assert !IsDialShaped(s) by { assert s[1] == '+'; }
    PrefixedDigitsAreTrimmed([x, '+'], digits);
    TrimmedNumberValidity(s);
  }

  lemma StoredOfCleaned(number: string, digitsOnly: string)
    requires Trim(number) == number && number != [] && AllChars(number, IsPhoneChar)
    requires Filter(number, IsDigitOrPlus) == digitsOnly
    requires OptionalPlusThen(digitsOnly, IsDigit, 3, 15)
    ensures SanitizePhoneNumber(Some(number)) == Some(number)
  {
    BlankIffTrimmedEmpty(number);
  }

  /** `getItemCount`: 0 for a null list, else its size. */
  function ItemCount(contacts: Option<seq<CountryEmergencyContact>>): (n: nat)
    ensures contacts.None? ==> n == 0
    ensures contacts.Some? ==> n == |contacts.value|
  {
    if contacts.None? then 0 else |contacts.value|
  }

  /** The adapter shows the filtered list; after a complete load it has one
      item per loaded row, and none when the load did not complete. */
  lemma ItemCountAfterLoad(asset: Asset)
    ensures asset.Document? && LoadLoop(asset.entries).completed ==>
              ItemCount(Some(AfterLoad(asset).filtered)) == |LoadLoop(asset.entries).added|
    ensures !(asset.Document? && LoadLoop(asset.entries).completed) ==>
              ItemCount(Some(AfterLoad(asset).filtered)) == 0
  {
    AfterLoadShape(asset);
    if asset.Document? && LoadLoop(asset.entries).completed {
      assert |AfterLoad(asset).all| == |multiset(AfterLoad(asset).all)|;
    }
  }
}
