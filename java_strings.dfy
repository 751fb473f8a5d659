/** Java string behaviour that the SOS core relies on: `null`, `String.trim()`,
    the character classes of its regular expressions, `replaceAll` with a
    negated character class (deletion), `replace` of one character by another,
    `substring(0, n)`, `contains`, and ASCII case mapping. */
module JavaStrings {

  /** A Java reference that may be `null`. */
  datatype Option<+T> = None | Some(value: T)

  // ---------------------------------------------------------------------------
  // Character classes
  // ---------------------------------------------------------------------------

  /** What `String.trim()` strips: every code point up to U+0020. */
  predicate IsTrimmable(c: char) { c <= ' ' }

  /** Regex `\d` (ASCII digits only, the Java default). */
  predicate IsDigit(c: char) { '0' <= c <= '9' }

  /** Regex `\s`: space, tab, newline, vertical tab, form feed, carriage return. */
  predicate IsRegexSpace(c: char) {
    c == ' ' || c == '\t' || c == '\n' || c == '\r' || c as int == 0x0B || c as int == 0x0C
  }

  predicate IsAsciiLetter(c: char) { 'a' <= c <= 'z' || 'A' <= c <= 'Z' }

  /** Regex `\p{Cntrl}`: U+0000 to U+001F and U+007F. */
  predicate IsControl(c: char) { c as int <= 0x1F || c as int == 0x7F }

  predicate AllChars(s: string, p: char -> bool) {
    forall i :: 0 <= i < |s| ==> p(s[i])
  }

  /** A full match of `\+?[body]{lo,hi}` where `body` does not contain '+':
      an optional leading plus, then between `lo` and `hi` body characters.
      (Since '+' is not a body character, the regex cannot backtrack over it.) */
  predicate OptionalPlusThen(s: string, body: char -> bool, lo: nat, hi: nat) {
    var rest := if |s| > 0 && s[0] == '+' then s[1..] else s;
    lo <= |rest| <= hi && AllChars(rest, body)
  }

  /** Character by character: when `+` is not a body character, a match of
      `\+?[body]{lo,hi}` is a string whose characters are body characters,
      except for a `+` at the front, with `lo` to `hi` of them besides it. */
  lemma OptionalPlusThenIff(s: string, body: char -> bool, lo: nat, hi: nat)
    requires !body('+')
    ensures OptionalPlusThen(s, body, lo, hi) <==>
              (forall i :: 0 <= i < |s| ==> body(s[i]) || (i == 0 && s[i] == '+')) &&
              lo <= |s| - (if s != [] && s[0] == '+' then 1 else 0) <= hi
  {
    if s != [] && s[0] == '+' {
      assert forall i :: 0 < i < |s| ==> s[1..][i - 1] == s[i];
    }
  }

  // ---------------------------------------------------------------------------
  // trim()
  // ---------------------------------------------------------------------------

  function TrimLeft(s: string): (r: string)
    ensures |r| <= |s| && r == s[|s| - |r|..]
    ensures r == [] || !IsTrimmable(r[0])
    ensures forall i :: 0 <= i < |s| - |r| ==> IsTrimmable(s[i])
  {
    if |s| > 0 && IsTrimmable(s[0]) then TrimLeft(s[1..]) else s
  }

  function TrimRight(s: string): (r: string)
    ensures |r| <= |s| && r == s[..|r|]
    ensures r == [] || !IsTrimmable(r[|r| - 1])
    ensures forall i :: |r| <= i < |s| ==> IsTrimmable(s[i])
  {
    if |s| > 0 && IsTrimmable(s[|s| - 1]) then TrimRight(s[..|s| - 1]) else s
  }

  /** Java `String.trim()`: the longest slice of `s` that neither starts nor
      ends with a character up to U+0020 (see `TrimIsSlice`). */
  function Trim(s: string): (r: string)
    ensures |r| <= |s|
    ensures r == [] <==> forall i :: 0 <= i < |s| ==> IsTrimmable(s[i])
    ensures r != [] ==> !IsTrimmable(r[0]) && !IsTrimmable(r[|r| - 1])
  {
    var t := TrimLeft(s);
    var r := TrimRight(t);
    assert r == s[|s| - |t|..][..|r|];
    assert r == [] ==> forall i :: 0 <= i < |s| ==> IsTrimmable(s[i]) by {
      if r == [] {
        forall i | 0 <= i < |s| ensures IsTrimmable(s[i]) {
          if i >= |s| - |t| { assert s[i] == t[i - (|s| - |t|)]; }
        }
      }
    }
    r
  }

  /** Where the result of `trim()` starts in `s`. */
  function TrimStart(s: string): nat {
    |s| - |TrimLeft(s)|
  }

  /** `trim()` is the slice of `s` that starts at `TrimStart(s)`; everything
      cut off on either side is a character up to U+0020. */
  lemma TrimIsSlice(s: string)
    ensures TrimStart(s) + |Trim(s)| <= |s|
    ensures Trim(s) == s[TrimStart(s)..TrimStart(s) + |Trim(s)|]
    ensures forall i :: 0 <= i < TrimStart(s) ==> IsTrimmable(s[i])
    ensures forall i :: TrimStart(s) + |Trim(s)| <= i < |s| ==> IsTrimmable(s[i])
  {
    var t := TrimLeft(s);
    var r := TrimRight(t);
    var off := |s| - |t|;
    assert Trim(s) == r;
    CutOfSuffix(s, t, r);
  }

  /** A prefix `r` of a suffix `t` of `s` is a slice of `s`, and whatever
      `t` has after `r` is what `s` has there. */
  lemma CutOfSuffix(s: string, t: string, r: string)
    requires |t| <= |s| && t == s[|s| - |t|..]
    requires |r| <= |t| && r == t[..|r|]
    ensures r == s[|s| - |t|..|s| - |t| + |r|]
    ensures forall i :: |s| - |t| + |r| <= i < |s| ==> s[i] == t[i - (|s| - |t|)]
  {
  }

  /** Neither end of `s` is a character `trim()` strips. */
  predicate HasVisibleEnds(s: string) {
    s == [] || (!IsTrimmable(s[0]) && !IsTrimmable(s[|s| - 1]))
  }

  /** `s.trim().isEmpty()`: every character is one `trim()` strips. */
  predicate IsBlank(s: string) {
    forall i :: 0 <= i < |s| ==> IsTrimmable(s[i])
  }

  lemma BlankIffTrimmedEmpty(s: string)
    ensures IsBlank(s) <==> Trim(s) == []
  {
  }

  lemma TrimKeepsClass(s: string, p: char -> bool)
    requires AllChars(s, p)
    ensures AllChars(Trim(s), p)
  {
    var t := TrimLeft(s);
    var r := TrimRight(t);
    var off := |s| - |t|;
    forall i | 0 <= i < |r| ensures p(r[i]) { assert r[i] == t[i] == s[off + i]; }
    assert Trim(s) == r;
  }

  /** A string that already starts and ends with visible characters is its own trim. */
  lemma TrimOfTrimmed(s: string)
    requires s == [] || (!IsTrimmable(s[0]) && !IsTrimmable(s[|s| - 1]))
    ensures Trim(s) == s
  {
    if s != [] {
      assert TrimLeft(s) == s;
      assert TrimRight(s) == s;
    }
  }

  /** `trim()` keeps every character above U+0020. */
  lemma TrimKeepsVisible(s: string, i: nat)
    requires i < |s| && !IsTrimmable(s[i])
    ensures s[i] in Trim(s)
  {
    var t := TrimLeft(s);
    var r := TrimRight(t);
    var off := |s| - |t|;
    assert i >= off;
    assert t[i - off] == s[i];
    assert i - off < |r|;
    assert r[i - off] == s[i];
    assert Trim(s) == r;
  }

  /** Trimming twice is trimming once. */
  lemma TrimIdempotent(s: string)
    ensures Trim(Trim(s)) == Trim(s)
  {
    TrimOfTrimmed(Trim(s));
  }

  // ---------------------------------------------------------------------------
  // replaceAll("[^...]", "") and replace(char, char)
  // ---------------------------------------------------------------------------

  /** `replaceAll` with a negated character class and an empty replacement:
      delete every character that is not in the class `keep`. */
  function Filter(s: string, keep: char -> bool): (r: string)
    ensures |r| <= |s|
    ensures AllChars(r, keep)
    ensures forall c :: c in r <==> c in s && keep(c)
    ensures AllChars(s, keep) ==> r == s
  {
    if s == [] then []
    else
      var tail := Filter(s[1..], keep);
      assert forall c :: c in s <==> c == s[0] || c in s[1..];
      if keep(s[0]) then [s[0]] + tail else tail
  }

  /** Deleting from a concatenation deletes from each part. */
  lemma {:induction false} FilterConcat(a: string, b: string, keep: char -> bool)
    ensures Filter(a + b, keep) == Filter(a, keep) + Filter(b, keep)
    decreases |a|
  {
    if a == [] {
      assert a + b == b;
    } else {
      assert (a + b)[0] == a[0] && (a + b)[1..] == a[1..] + b;
      FilterConcat(a[1..], b, keep);
    }
  }

  /** Deleting two runs that `keep` rejects entirely joins the kept runs
      around them. */
  lemma FilterDropsRuns(a: string, x: string, b: string, y: string, keep: char -> bool)
    requires AllChars(a, keep) && AllChars(b, keep)
    requires forall i :: 0 <= i < |x| ==> !keep(x[i])
    requires forall i :: 0 <= i < |y| ==> !keep(y[i])
    ensures Filter(a + x + b + y, keep) == a + b
  {
    FilterKeepsNothing(x, keep);
    FilterKeepsNothing(y, keep);
    FilterConcat(a, x, keep);
    FilterConcat(a + x, b, keep);
    FilterConcat(a + x + b, y, keep);
  }

  /** The same over two such stretches side by side. */
  lemma FilterDropsRunsTwice(a: string, x: string, b: string, y: string,
                             c: string, z: string, d: string, w: string, keep: char -> bool)
    requires AllChars(a, keep) && AllChars(b, keep) && AllChars(c, keep) && AllChars(d, keep)
    requires forall i :: 0 <= i < |x| ==> !keep(x[i])
    requires forall i :: 0 <= i < |y| ==> !keep(y[i])
    requires forall i :: 0 <= i < |z| ==> !keep(z[i])
    requires forall i :: 0 <= i < |w| ==> !keep(w[i])
    ensures Filter((a + x + b + y) + (c + z + d + w), keep) == (a + b) + (c + d)
  {
    FilterDropsRuns(a, x, b, y, keep);
    FilterDropsRuns(c, z, d, w, keep);
    FilterConcat(a + x + b + y, c + z + d + w, keep);
  }

  /** Deleting two separators that `keep` rejects joins the parts around them. */
  lemma FilterDropsSeparators(a: string, b: string, c: char, d: char, keep: char -> bool)
    requires AllChars(a, keep) && AllChars(b, keep) && !keep(c) && !keep(d)
    ensures Filter(a + [c] + b + [d], keep) == a + b
  {
    assert Filter([c], keep) == [] by { assert [c][1..] == []; }
    assert Filter([d], keep) == [] by { assert [d][1..] == []; }
    FilterConcat(a, [c], keep);
    FilterConcat(a + [c], b, keep);
    FilterConcat(a + [c] + b, [d], keep);
  }

  /** Deleting a prefix made only of rejected characters leaves the rest. */
  lemma FilterDropsPrefix(a: string, b: string, keep: char -> bool)
    requires forall i :: 0 <= i < |a| ==> !keep(a[i])
    requires AllChars(b, keep)
    ensures Filter(a + b, keep) == b
  {
    FilterConcat(a, b, keep);
    FilterKeepsNothing(a, keep);
  }

  lemma FilterDropsSuffix(a: string, b: string, keep: char -> bool)
    requires AllChars(a, keep)
    requires forall i :: 0 <= i < |b| ==> !keep(b[i])
    ensures Filter(a + b, keep) == a
  {
    FilterConcat(a, b, keep);
    FilterKeepsNothing(b, keep);
  }

  lemma {:induction false} FilterKeepsNothing(a: string, keep: char -> bool)
    requires forall i :: 0 <= i < |a| ==> !keep(a[i])
    ensures Filter(a, keep) == []
  {
    if a != [] {
      assert !keep(a[0]);
      assert forall i :: 0 <= i < |a[1..]| ==> a[1..][i] == a[i + 1];
      FilterKeepsNothing(a[1..], keep);
    }
  }


  /** When `keep` keeps `+` and `+` can occur only in front, a match of
      `\+?[body]{lo,hi}` by what `keep` leaves shows that at least `lo`
      characters of `s` are not that leading `+`. */
  lemma FilteredPlusThenBound(s: string, keep: char -> bool, body: char -> bool, lo: nat, hi: nat)
    requires keep('+') && !body('+')
    requires forall i :: 0 < i < |s| ==> s[i] != '+'
    requires OptionalPlusThen(Filter(s, keep), body, lo, hi)
    ensures lo <= |s| - (if s != [] && s[0] == '+' then 1 else 0)
  {
    var f := Filter(s, keep);
    if s != [] && s[0] == '+' {
      assert f == ['+'] + Filter(s[1..], keep);
      assert f[1..] == Filter(s[1..], keep);
    } else {
      assert '+' !in s;
      assert '+' !in f;
    }
  }

  /** `s.replace(from, to)` for one-character strings `from` and `to`. */
  function ReplaceChar(s: string, from: char, to: char): (r: string)
    ensures |r| == |s|
    ensures forall i :: 0 <= i < |s| ==> r[i] == (if s[i] == from then to else s[i])
  {
    if s == [] then [] else [if s[0] == from then to else s[0]] + ReplaceChar(s[1..], from, to)
  }

  /** Replacing a character that does not occur changes nothing. */
  lemma ReplaceAbsentChar(s: string, from: char, to: char)
    requires from !in s
    ensures ReplaceChar(s, from, to) == s
  {
  }

  /** After replacing `from` by another character, `from` no longer occurs. */
  lemma ReplacedCharIsGone(s: string, from: char, to: char)
    requires from != to
    ensures from !in ReplaceChar(s, from, to)
  {
    var r := ReplaceChar(s, from, to);
    forall i | 0 <= i < |r| ensures r[i] != from { }
  }

  /** Replacing `from` by a character `to` that did not occur, and then `to`
      by `from`, gives back the original. */
  lemma ReplaceRoundTrip(s: string, from: char, to: char)
    requires to !in s
    ensures ReplaceChar(ReplaceChar(s, from, to), to, from) == s
  {
    var r := ReplaceChar(ReplaceChar(s, from, to), to, from);
    forall i | 0 <= i < |s| ensures r[i] == s[i] {
      assert s[i] != to;
    }
  }

  /** `s.substring(0, n)` when `s` is longer than `n`, else `s`. */
  function Truncate(s: string, n: nat): (r: string)
    ensures |r| <= n && |r| <= |s|
    ensures r == s[..|r|]
    ensures |s| <= n ==> r == s
    ensures |s| > n ==> |r| == n
  {
    if |s| > n then s[..n] else s
  }

  // ---------------------------------------------------------------------------
  // Case mapping and comparison
  // ---------------------------------------------------------------------------

  function LowerChar(c: char): char {
    if 'A' <= c <= 'Z' then (c as int + 32) as char else c
  }

  /** `toLowerCase()`, restricted to ASCII letters. */
  function Lower(s: string): (r: string)
    ensures |r| == |s|
    ensures forall i :: 0 <= i < |s| ==> r[i] == LowerChar(s[i])
  {
    if s == [] then [] else [LowerChar(s[0])] + Lower(s[1..])
  }

  lemma LowerIdempotent(s: string)
    ensures Lower(Lower(s)) == Lower(s)
  {
  }

  /** `a.equalsIgnoreCase(b)` for a non-null `b`. */
  predicate EqualsIgnoreCase(a: string, b: string) { Lower(a) == Lower(b) }

  /** Lexicographic order on code points, with a proper prefix first. */
  predicate LexLe(a: string, b: string) {
    a == [] || (b != [] && (a[0] < b[0] || (a[0] == b[0] && LexLe(a[1..], b[1..]))))
  }

  lemma {:induction false} LexLeTotal(a: string, b: string)
    ensures LexLe(a, b) || LexLe(b, a)
  {
    if a != [] && b != [] && a[0] == b[0] { LexLeTotal(a[1..], b[1..]); }
  }

  lemma {:induction false} LexLeTransitive(a: string, b: string, c: string)
    requires LexLe(a, b) && LexLe(b, c)
    ensures LexLe(a, c)
  {
    if a != [] && b != [] && c != [] && a[0] == b[0] && b[0] == c[0] {
      LexLeTransitive(a[1..], b[1..], c[1..]);
    }
  }

  /** `a.compareToIgnoreCase(b) <= 0`. */
  predicate CompareIgnoreCaseLe(a: string, b: string) { LexLe(Lower(a), Lower(b)) }

  // ---------------------------------------------------------------------------
  // contains()
  // ---------------------------------------------------------------------------

  predicate IsPrefix(p: string, s: string) { |p| <= |s| && s[..|p|] == p }

  /** `haystack.contains(needle)`. */
  predicate Contains(haystack: string, needle: string)
    decreases |haystack|
  {
    IsPrefix(needle, haystack) || (|haystack| > 0 && Contains(haystack[1..], needle))
  }

  lemma {:induction false} ContainsIffSuffix(haystack: string, needle: string)
    ensures Contains(haystack, needle) <==>
            exists i :: 0 <= i <= |haystack| && IsPrefix(needle, haystack[i..])
    decreases |haystack|
  {
    if IsPrefix(needle, haystack) {
      assert haystack[0..] == haystack;
    } else if |haystack| > 0 {
      ContainsIffSuffix(haystack[1..], needle);
      if exists i :: 0 <= i <= |haystack| && IsPrefix(needle, haystack[i..]) {
        var i :| 0 <= i <= |haystack| && IsPrefix(needle, haystack[i..]);
        assert i != 0 by { assert haystack[0..] == haystack; }
        assert haystack[1..][i - 1..] == haystack[i..];
      }
      if Contains(haystack[1..], needle) {
        var i :| 0 <= i <= |haystack| - 1 && IsPrefix(needle, haystack[1..][i..]);
        assert haystack[1..][i..] == haystack[i + 1..];
      }
    } else {
      assert !Contains(haystack, needle);
      assert forall i :: 0 <= i <= |haystack| ==> haystack[i..] == haystack;
    }
  }

  lemma EmptyNeedleContained(haystack: string)
    ensures Contains(haystack, "")
  {
  }

  /** A needle holding a character the haystack lacks is not contained. */
  lemma {:induction false} ForeignCharNotContained(haystack: string, needle: string, c: char)
    requires c in needle && c !in haystack
    ensures !Contains(haystack, needle)
    decreases |haystack|
  {
    if |haystack| > 0 {
      assert forall i :: 0 <= i < |haystack[1..]| ==> haystack[1..][i] == haystack[i + 1];
      ForeignCharNotContained(haystack[1..], needle, c);
    }
  }
}
