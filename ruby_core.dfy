/** The few pieces of Ruby's core library whose exact behaviour the modelled
    code depends on: `blank?`, `Array#uniq`, `Array#select`, `Array#delete`,
    `String#split` with a one-character separator and `String#to_i`. */
module RubyCore {
  import opened Wrappers

  // ---------------------------------------------------------------------
  // blank?

  /** The characters `[[:space:]]` matches in a Unicode string: those with the
      White_Space property. */
  predicate IsWhiteSpace(c: char) {
    ('\t' <= c <= '\r') || c == ' ' || c == '\U{0085}' || c == '\U{00A0}' || c == '\U{1680}' ||
    ('\U{2000}' <= c <= '\U{200A}') || c == '\U{2028}' || c == '\U{2029}' || c == '\U{202F}' ||
    c == '\U{205F}' || c == '\U{3000}'
  }

  /** `String#blank?`, the pattern `\A[[:space:]]*\z`: empty or white space only. */
  predicate BlankString(s: string) {
    forall i :: 0 <= i < |s| ==> IsWhiteSpace(s[i])
  }

  /** `blank?` on a value that may be nil. */
  predicate Blank(o: Option<string>) {
    o.None? || BlankString(o.value)
  }

  /** Non-breaking and ideographic spaces are blank like ASCII ones; any other
      character is not. */
  lemma BlankExamples()
    ensures Blank(None) && Blank(Some("")) && Blank(Some(" \t\n"))
    ensures Blank(Some("\U{00A0}\U{3000}"))
    ensures !Blank(Some(" x ")) && !Blank(Some("\U{200B}"))
  {
    assert " x "[1] == 'x';
    assert "\U{200B}"[0] == '\U{200B}';
  }

  // ---------------------------------------------------------------------
  // Sequences

  predicate NoDuplicates<T(==)>(s: seq<T>) {
    forall i, j :: 0 <= i < j < |s| ==> s[i] != s[j]
  }

  /** `Array#uniq`: the same elements, each once. The contract does not state
      the order of the result, which no caller here depends on. */
  function Uniq<T(==,!new)>(s: seq<T>): (r: seq<T>)
    ensures forall x :: x in r <==> x in s
    ensures NoDuplicates(r)
    ensures |r| <= |s|
  {
    if |s| == 0 then []
    else
      var front := Uniq(s[..|s| - 1]);
      var last := s[|s| - 1];
      assert forall x :: x in s <==> x in s[..|s| - 1] || x == last;
      if last in front then front else front + [last]
  }

  /** A sequence without repeated elements is left as it is by `uniq`. */
  lemma {:induction false} UniqOfDistinct<T(!new)>(s: seq<T>)
    requires NoDuplicates(s)
    ensures Uniq(s) == s
  {
    if |s| > 0 {
      var front := s[..|s| - 1];
      assert NoDuplicates(front);
      UniqOfDistinct(front);
      assert s[|s| - 1] !in front;
      assert front + [s[|s| - 1]] == s;
    }
  }

  /** `Array#select` with a total block. */
  function Select<T(!new)>(s: seq<T>, p: T -> bool): (r: seq<T>)
    ensures forall x :: x in r <==> x in s && p(x)
    ensures |r| <= |s|
    ensures multiset(r) <= multiset(s)
  {
    if |s| == 0 then []
    else
      var rest := Select(s[1..], p);
      assert s == [s[0]] + s[1..];
      if p(s[0]) then [s[0]] + rest else rest
  }

  /** Selecting from a sequence whose every element passes returns it unchanged. */
  lemma {:induction false} SelectAll<T(!new)>(s: seq<T>, p: T -> bool)
    requires forall x :: x in s ==> p(x)
    ensures Select(s, p) == s
  {
    if |s| > 0 {
      var tail := s[1..];
      forall x | x in tail ensures p(x) {
        var j :| 0 <= j < |tail| && tail[j] == x;
        assert s[j + 1] == x;
      }
      SelectAll(tail, p);
      assert p(s[0]);
      assert s == [s[0]] + tail;
    }
  }

  /** Selecting twice with the same block is selecting once. */
  lemma {:induction false} SelectIdempotent<T(!new)>(s: seq<T>, p: T -> bool)
    ensures Select(Select(s, p), p) == Select(s, p)
  {
    SelectAll(Select(s, p), p);
  }

  /** `Array#delete(x)` removes every occurrence of `x`. */
  function RemoveAll<T(==,!new)>(s: seq<T>, x: T): (r: seq<T>)
    ensures x !in r
    ensures forall y :: y != x ==> (y in r <==> y in s)
    ensures |r| <= |s|
  {
    if |s| == 0 then []
    else
      var front := s[..|s| - 1];
      var last := s[|s| - 1];
      assert forall y :: y in s <==> y in front || y == last;
      RemoveAll(front, x) + (if last == x then [] else [last])
  }

  /** How often `y` occurs in `s`, counted from the back. */
  function Occurrences<T(==)>(s: seq<T>, y: T): (n: nat)
    ensures n == multiset(s)[y]
  {
    if |s| == 0 then 0
    else
      var front := s[..|s| - 1];
      assert s == front + [s[|s| - 1]];
      Occurrences(front, y) + (if s[|s| - 1] == y then 1 else 0)
  }

  /** Every other element is kept as often as it occurs. */
  lemma {:induction false} RemoveAllMultiplicity<T(!new)>(s: seq<T>, x: T, y: T)
    requires y != x
    ensures multiset(RemoveAll(s, x))[y] == multiset(s)[y]
  {
    if |s| > 0 {
      var front := s[..|s| - 1];
      var last := s[|s| - 1];
      var rest := RemoveAll(front, x);
      RemoveAllMultiplicity(front, x, y);
      var r := RemoveAll(s, x);
      assert Occurrences(s, y) == Occurrences(front, y) + (if last == y then 1 else 0);
      if last == x {
        assert r == rest;
      } else {
        assert r == rest + [last];
        assert r[..|r| - 1] == rest;
        assert Occurrences(r, y) == Occurrences(rest, y) + (if last == y then 1 else 0);
      }
    }
  }

  /** Removing from a sequence with one more element at the end. */
  lemma RemoveAllSnoc<T(!new)>(s: seq<T>, x: T, y: T)
    ensures RemoveAll(s + [y], x) == RemoveAll(s, x) + (if y == x then [] else [y])
  {
    assert (s + [y])[..|s|] == s;
  }

  // ---------------------------------------------------------------------
  // String#split with a one-character separator

  /** The fields between separators, including empty ones; always at least one. */
  function SplitFields(s: string, sep: char): (r: seq<string>)
    ensures |r| >= 1
    ensures forall i :: 0 <= i < |r| ==> sep !in r[i]
  {
    if |s| == 0 then [""]
    else
      var rest := SplitFields(s[1..], sep);
      if s[0] == sep then [""] + rest
      else [[s[0]] + rest[0]] + rest[1..]
  }

  /** `Array#join(sep)`. */
  function Join(parts: seq<string>, sep: char): string {
    if |parts| == 0 then ""
    else if |parts| == 1 then parts[0]
    else parts[0] + [sep] + Join(parts[1..], sep)
  }

  /** Joining the fields of a split gives back the original string. */
  lemma {:induction false} JoinSplitFields(s: string, sep: char)
    ensures Join(SplitFields(s, sep), sep) == s
  {
    if |s| > 0 {
      var rest := SplitFields(s[1..], sep);
      JoinSplitFields(s[1..], sep);
      if s[0] == sep {
        assert s == [sep] + s[1..];
      } else {
        assert s == [s[0]] + s[1..];
      }
    }
  }

  /** Ruby drops the empty fields at the end of a split. */
  function DropTrailingEmpty(parts: seq<string>): (r: seq<string>)
    ensures |r| <= |parts| && r == parts[..|r|]
    ensures |r| > 0 ==> r[|r| - 1] != ""
    ensures forall i :: |r| <= i < |parts| ==> parts[i] == ""
  {
    if |parts| == 0 then []
    else if parts[|parts| - 1] == "" then DropTrailingEmpty(parts[..|parts| - 1])
    else parts
  }

  /** `String#split(sep)` for a separator that is a single non-space character. */
  function Split(s: string, sep: char): (r: seq<string>)
    ensures forall i :: 0 <= i < |r| ==> sep !in r[i]
    ensures |r| > 0 ==> r[|r| - 1] != ""
    ensures |r| <= |SplitFields(s, sep)| && r == SplitFields(s, sep)[..|r|]
  {
    DropTrailingEmpty(SplitFields(s, sep))
  }

  // ---------------------------------------------------------------------
  // String#to_i

  predicate IsDigit(c: char) {
    '0' <= c <= '9'
  }

  function DigitValue(c: char): nat
    requires IsDigit(c)
  {
    (c as int) - ('0' as int)
  }

  /** The digits that continue a number already read as `acc`: a digit, or one
      underscore followed by a digit; anything else ends the number. */
  function LeadingDigits(s: string, acc: nat): nat {
    if |s| > 0 && IsDigit(s[0]) then LeadingDigits(s[1..], acc * 10 + DigitValue(s[0]))
    else if |s| > 1 && s[0] == '_' && IsDigit(s[1]) then LeadingDigits(s[2..], acc * 10 + DigitValue(s[1]))
    else acc
  }

  /** The characters C's `isspace` accepts, which `to_i` skips at the front. */
  predicate IsAsciiSpace(c: char) {
    c == ' ' || c == '\t' || c == '\n' || c == '\r' || c == '\U{000B}' || c == '\U{000C}'
  }

  function SkipSpace(s: string): (r: string)
    ensures |r| <= |s|
    ensures |r| > 0 ==> !IsAsciiSpace(r[0])
  {
    if |s| > 0 && IsAsciiSpace(s[0]) then SkipSpace(s[1..]) else s
  }

  /** A number starting with a digit; 0 when there is none. */
  function Digits(s: string): nat {
    if |s| > 0 && IsDigit(s[0]) then LeadingDigits(s[1..], DigitValue(s[0])) else 0
  }

  /** `String#to_i`: leading white space, an optional sign, then a run of digits
      in which single underscores between digits are skipped; a string with no
      digit there reads as 0. */
  function ToI(s: string): int {
    var t := SkipSpace(s);
    if |t| > 0 && t[0] == '-' then -(Digits(t[1..]) as int)
    else if |t| > 0 && t[0] == '+' then Digits(t[1..])
    else Digits(t)
  }

  /** Underscores: one between digits is skipped, two or one at either end stop
      the number. */
  lemma ToIExamples()
    ensures ToI("1_2") == 12 && ToI("1__2") == 1 && ToI("_12") == 0 && ToI("12_") == 12
    ensures ToI(" -4_2x") == -42 && ToI("") == 0
  {
    assert "1_2"[1..] == "_2";
    assert "_2"[2..] == "";
    assert "1__2"[1..] == "__2";
    assert "12_"[1..] == "2_";
    assert "2_"[1..] == "_";
    assert " -4_2x"[1..] == "-4_2x";
    assert "-4_2x"[1..] == "4_2x";
    assert "4_2x"[1..] == "_2x";
    assert "_2x"[2..] == "x";
    assert SkipSpace(" -4_2x") == "-4_2x";
    assert LeadingDigits("x", 42) == 42;
    assert LeadingDigits("_2x", 4) == LeadingDigits("x", 42);
  }

  /** `nil.to_i` is 0. */
  function NilableToI(o: Option<string>): int {
    if o.Some? then ToI(o.value) else 0
  }

  function DigitChar(d: nat): (c: char)
    requires d < 10
    ensures IsDigit(c) && DigitValue(c) == d
  {
    (('0' as int) + d) as char
  }

  /** `Integer#to_s`: the decimal numeral of a natural number. */
  function Numeral(n: nat): (r: string)
    ensures |r| > 0
    ensures forall i :: 0 <= i < |r| ==> IsDigit(r[i])
  {
    if n < 10 then [DigitChar(n)] else Numeral(n / 10) + [DigitChar(n % 10)]
  }

  lemma {:induction false} LeadingDigitsAppend(ds: string, acc: nat, d: char)
    requires forall i :: 0 <= i < |ds| ==> IsDigit(ds[i])
    requires IsDigit(d)
    ensures LeadingDigits(ds + [d], acc) == LeadingDigits(ds, acc) * 10 + DigitValue(d)
  {
    if |ds| > 0 {
      assert (ds + [d])[1..] == ds[1..] + [d];
      LeadingDigitsAppend(ds[1..], acc * 10 + DigitValue(ds[0]), d);
    } else {
      assert LeadingDigits([d], acc) == LeadingDigits([], acc * 10 + DigitValue(d));
    }
  }

  /** Reading back the numeral of a natural number gives the number: the ids a
      browser sends back as strings bind to the ids they were written from. */
  lemma {:induction false} ToINumeral(n: nat)
    ensures ToI(Numeral(n)) == n
  {
    NumeralLeadingDigits(n);
    var s := Numeral(n);
    assert !IsAsciiSpace(s[0]);
    assert SkipSpace(s) == s;
    assert LeadingDigits(s, 0) == LeadingDigits(s[1..], DigitValue(s[0]));
  }

  lemma {:induction false} NumeralLeadingDigits(n: nat)
    ensures LeadingDigits(Numeral(n), 0) == n
  {
    if n >= 10 {
      NumeralLeadingDigits(n / 10);
      LeadingDigitsAppend(Numeral(n / 10), 0, DigitChar(n % 10));
    } else {
      assert LeadingDigits([DigitChar(n)], 0) == LeadingDigits([], DigitValue(DigitChar(n)));
    }
  }
}
