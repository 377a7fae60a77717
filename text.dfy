/**
  The few Python string operations the planner's rules are built from, with the
  meaning CPython gives them: `str.strip()`, `str.split(sep)`, `sep.join(xs)`,
  `int(text)`, string comparison, and the comprehension
  `[x.strip() for x in s.split(",") if x.strip()]` that the forms and the
  template filters both use. Case-insensitive matching (Django's `iexact` and
  `icontains`) is approximated by ASCII case folding.
*/
module Text {
  import opened Wrappers

  /** The characters Python's `str.isspace()` accepts: what `strip()` and `int()` discard. */
  predicate IsSpace(c: char) {
    || c == ' '
    || ('\t' <= c <= '\r')
    || ('\U{1C}' <= c <= '\U{1F}')
    || c == '\U{85}' || c == '\U{A0}' || c == '\U{1680}'
    || ('\U{2000}' <= c <= '\U{200A}')
    || c == '\U{2028}' || c == '\U{2029}' || c == '\U{202F}' || c == '\U{205F}' || c == '\U{3000}'
  }

  /** A non-empty string with no white space at either end: what a kept item of `CommaItems` is. */
  predicate Trimmed(s: string) {
    |s| > 0 && !IsSpace(s[0]) && !IsSpace(s[|s| - 1])
  }

  // ---------------------------------------------------------------- strip

  function LStrip(s: string): (r: string)
    ensures |r| <= |s| && r == s[|s| - |r|..]
    ensures r == [] || !IsSpace(r[0])
    ensures forall k :: 0 <= k < |s| - |r| ==> IsSpace(s[k])
  {
    if |s| > 0 && IsSpace(s[0]) then LStrip(s[1..]) else s
  }

  function RStrip(s: string): (r: string)
    ensures |r| <= |s| && r == s[..|r|]
    ensures r == [] || !IsSpace(r[|r| - 1])
    ensures forall k :: |r| <= k < |s| ==> IsSpace(s[k])
  {
    if |s| > 0 && IsSpace(s[|s| - 1]) then RStrip(s[..|s| - 1]) else s
  }

  /** `s.strip()`: drops white space at both ends and nothing else. */
  function Strip(s: string): (r: string)
    ensures r == [] || Trimmed(r)
    ensures forall c :: c in r ==> c in s
    ensures r == [] <==> forall k :: 0 <= k < |s| ==> IsSpace(s[k])
    ensures Trimmed(s) ==> r == s
  {
    RStrip(LStrip(s))
  }

  // ----------------------------------------------------------- split, join

  /** `s.split(sep)` for a one-character separator: never empty, and no piece holds `sep`. */
  function Split(s: string, sep: char): (r: seq<string>)
    ensures |r| >= 1
    ensures forall i :: 0 <= i < |r| ==> sep !in r[i]
    decreases |s|
  {
    if |s| == 0 then [""]
    else
      var rest := Split(s[1..], sep);
      if s[0] == sep then [""] + rest
      else [[s[0]] + rest[0]] + rest[1..]
  }

  /** `sep.join(xs)`. */
  function Join(xs: seq<string>, sep: string): string
  {
    if |xs| == 0 then ""
    else if |xs| == 1 then xs[0]
    else xs[0] + sep + Join(xs[1..], sep)
  }

  lemma {:induction false} SplitWithoutSeparator(s: string, sep: char)
    requires sep !in s
    ensures Split(s, sep) == [s]
  {
    if |s| > 0 {
      SplitWithoutSeparator(s[1..], sep);
      assert [s[0]] + s[1..] == s;
    }
  }

  lemma {:induction false} SplitAfterPiece(a: string, b: string, sep: char)
    requires sep !in a
    ensures Split(a + [sep] + b, sep) == [a] + Split(b, sep)
  {
    if |a| == 0 {
      assert a + [sep] + b == [sep] + b;
      assert (a + [sep] + b)[1..] == b;
    } else {
      SplitAfterPiece(a[1..], b, sep);
      assert (a + [sep] + b)[1..] == a[1..] + [sep] + b;
      assert [a[0]] + a[1..] == a;
    }
  }

  /** Splitting undoes joining, when no piece holds the separator. */
  lemma {:induction false} SplitJoin(xs: seq<string>, sep: char)
    requires |xs| >= 1
    requires forall i :: 0 <= i < |xs| ==> sep !in xs[i]
    ensures Split(Join(xs, [sep]), sep) == xs
  {
    if |xs| == 1 {
      SplitWithoutSeparator(xs[0], sep);
    } else {
      SplitJoin(xs[1..], sep);
      SplitAfterPiece(xs[0], Join(xs[1..], [sep]), sep);
      assert [xs[0]] + xs[1..] == xs;
    }
  }

  /** `(a + sep + b).split(sep)` gives back the two halves when neither holds `sep`. */
  lemma SplitAtOne(a: string, b: string, sep: char)
    requires sep !in a && sep !in b
    ensures Split(a + [sep] + b, sep) == [a, b]
  {
    SplitJoin([a, b], sep);
    assert Join([a, b], [sep]) == a + [sep] + b;
  }

  // ------------------------------------------------------- comma-separated items

  /** `[p.strip() for p in pieces if p.strip()]`. */
  function StrippedItems(pieces: seq<string>, sep: char): (r: seq<string>)
    ensures |r| <= |pieces|
    ensures forall i :: 0 <= i < |r| ==> Trimmed(r[i])
    ensures (forall j :: 0 <= j < |pieces| ==> sep !in pieces[j]) ==> forall i :: 0 <= i < |r| ==> sep !in r[i]
  {
    if |pieces| == 0 then []
    else
      var t := Strip(pieces[0]);
      (if t == [] then [] else [t]) + StrippedItems(pieces[1..], sep)
  }

  /** `[x.strip() for x in s.split(",") if x.strip()]`: the trimmed, non-empty items of a comma list. */
  function CommaItems(s: string): (r: seq<string>)
    ensures forall i :: 0 <= i < |r| ==> Trimmed(r[i]) && ',' !in r[i]
  {
    StrippedItems(Split(s, ','), ',')
  }

  lemma {:induction false} StrippedItemsOfTrimmed(xs: seq<string>, sep: char)
    requires forall i :: 0 <= i < |xs| ==> Trimmed(xs[i])
    ensures StrippedItems(xs, sep) == xs
  {
    if |xs| > 0 {
      StrippedItemsOfTrimmed(xs[1..], sep);
      assert [xs[0]] + xs[1..] == xs;
    }
  }

  /** The empty string has no items. */
  lemma NoItemsOfEmpty(s: string)
    requires |s| == 0
    ensures CommaItems(s) == []
  {
    var pieces := Split(s, ',');
    assert pieces == [s];
    assert Strip(s) == [];
    assert StrippedItems(pieces[1..], ',') == [];
  }

  /** Joining trimmed, comma-free items with "," and reading them back gives the items. */
  lemma CommaItemsOfJoin(xs: seq<string>)
    requires |xs| >= 1
    requires forall i :: 0 <= i < |xs| ==> Trimmed(xs[i]) && ',' !in xs[i]
    ensures CommaItems(Join(xs, ",")) == xs
  {
    SplitJoin(xs, ',');
    StrippedItemsOfTrimmed(xs, ',');
  }

  /** Joining trimmed items gives a trimmed string, whatever the separator. */
  lemma {:induction false} JoinOfTrimmed(xs: seq<string>, sep: string)
    requires |xs| >= 1
    requires forall i :: 0 <= i < |xs| ==> Trimmed(xs[i])
    ensures Trimmed(Join(xs, sep))
  {
    if |xs| > 1 {
      JoinOfTrimmed(xs[1..], sep);
      var tail := Join(xs[1..], sep);
      assert Join(xs, sep) == xs[0] + sep + tail;
    }
  }

  // ----------------------------------------------------------------- ordering

  /** Python's `a < b` on `str`: lexicographic by code point, a proper prefix first. */
  predicate Less(a: string, b: string)
    decreases |a|
  {
    if |a| == 0 then |b| > 0
    else if |b| == 0 then false
    else if a[0] == b[0] then Less(a[1..], b[1..])
    else a[0] < b[0]
  }

  lemma {:induction false} LessIrreflexive(a: string)
    ensures !Less(a, a)
    decreases |a|
  {
    if |a| > 0 {
      LessIrreflexive(a[1..]);
    }
  }

  lemma {:induction false} LessTransitive(a: string, b: string, c: string)
    requires Less(a, b) && Less(b, c)
    ensures Less(a, c)
    decreases |a|
  {
    if |a| > 0 && |b| > 0 && |c| > 0 && a[0] == b[0] == c[0] {
      LessTransitive(a[1..], b[1..], c[1..]);
    }
  }

  lemma {:induction false} LessTrichotomous(a: string, b: string)
    ensures a == b || Less(a, b) || Less(b, a)
    decreases |a|
  {
    if |a| > 0 && |b| > 0 && a[0] == b[0] {
      LessTrichotomous(a[1..], b[1..]);
      if a[1..] == b[1..] {
        assert a == [a[0]] + a[1..] && b == [b[0]] + b[1..];
      }
    }
  }

  lemma LessAsymmetric(a: string, b: string)
    requires Less(a, b)
    ensures !Less(b, a)
  {
    if Less(b, a) {
      LessTransitive(a, b, a);
      LessIrreflexive(a);
    }
  }

  /** Every element comes strictly before every later one. */
  predicate StrictlySorted(s: seq<string>) {
    forall i, j :: 0 <= i < j < |s| ==> Less(s[i], s[j])
  }

  // ------------------------------------------------------------------ integers

  predicate IsDigit(c: char) {
    '0' <= c <= '9'
  }

  predicate IsDigits(s: string) {
    |s| > 0 && forall i :: 0 <= i < |s| ==> IsDigit(s[i])
  }

  function DigitsValue(s: string): nat
    requires forall i :: 0 <= i < |s| ==> IsDigit(s[i])
    decreases |s|
  {
    if |s| == 0 then 0 else 10 * DigitsValue(s[..|s| - 1]) + DigitValue(s[|s| - 1])
  }

  function DigitValue(c: char): nat
    requires IsDigit(c)
  {
    c as int - '0' as int
  }

  /**
    `int(s)` for a base-10 literal: white space around it, an optional sign, then one or
    more ASCII digits. Anything else is `None`, where Python raises `ValueError`.
  */
  function ParseInt(s: string): Option<int>
  {
    var t := Strip(s);
    if |t| > 0 && (t[0] == '+' || t[0] == '-') then
      if IsDigits(t[1..]) then
        var n: int := DigitsValue(t[1..]);
        Some(if t[0] == '-' then -n else n)
      else None
    else if IsDigits(t) then Some(DigitsValue(t))
    else None
  }

  lemma TwoDigitValue(s: string)
    requires |s| == 2 && IsDigit(s[0]) && IsDigit(s[1])
    ensures ParseInt(s) == Some(10 * DigitValue(s[0]) + DigitValue(s[1]))
  {
    assert Trimmed(s);
    assert s[..1][..0] == [];
    assert DigitsValue(s[..1]) == DigitValue(s[0]);
  }

  lemma OneDigitValue(s: string)
    requires |s| == 1 && IsDigit(s[0])
    ensures ParseInt(s) == Some(DigitValue(s[0]))
  {
    assert Trimmed(s);
    assert Strip(s) == s;
    assert IsDigits(s);
    assert s[..|s| - 1] == [];
    assert DigitsValue(s) == DigitValue(s[0]);
  }

  /** `str(n)` for a natural number: its decimal digits, no leading zero. */
  function NatToString(n: nat): (r: string)
    ensures IsDigits(r)
    ensures r[0] != '0' || n == 0
    decreases n
  {
    if n < 10 then [('0' as int + n) as char]
    else NatToString(n / 10) + [('0' as int + n % 10) as char]
  }

  // -------------------------------------------------------------- case folding

  /** ASCII lower-casing of one character. */
  function Fold(c: char): char {
    if 'A' <= c <= 'Z' then (c as int + 32) as char else c
  }

  /** Django's `iexact`, with ASCII case folding. */
  predicate EqualsIgnoreCase(a: string, b: string) {
    |a| == |b| && forall i :: 0 <= i < |a| ==> Fold(a[i]) == Fold(b[i])
  }

  /** Django's `icontains`, with ASCII case folding. */
  predicate ContainsIgnoreCase(haystack: string, needle: string) {
    exists i :: 0 <= i <= |haystack| - |needle| && MatchesAt(haystack, needle, i)
  }

  predicate MatchesAt(haystack: string, needle: string, i: int)
    requires 0 <= i <= |haystack| - |needle|
  {
    EqualsIgnoreCase(haystack[i..i + |needle|], needle)
  }
}
