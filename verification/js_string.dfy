/** The JavaScript string operations the bot relies on: `trim`, ASCII `toLowerCase`,
    the `\s`, `\d` and `\w` regular-expression classes, `replace(/,/g, "")` and decimal
    rendering of integers. */
module JsString {

  /** What `\s` matches and what `String.prototype.trim` removes: ECMAScript's
      WhiteSpace and LineTerminator code points. */
  predicate IsSpace(c: char) {
    c == '\t' || c == '\n' || c == '\U{000B}' || c == '\U{000C}' || c == '\r' || c == ' '
    || c == '\U{00A0}' || c == '\U{1680}' || ('\U{2000}' <= c <= '\U{200A}')
    || c == '\U{2028}' || c == '\U{2029}' || c == '\U{202F}' || c == '\U{205F}'
    || c == '\U{3000}' || c == '\U{FEFF}'
  }

  /** The characters a `.` in a regular expression does not match. */
  predicate IsLineTerminator(c: char) {
    c == '\n' || c == '\r' || c == '\U{2028}' || c == '\U{2029}'
  }

  predicate IsDigit(c: char) { '0' <= c <= '9' }
  predicate IsLowerLetter(c: char) { 'a' <= c <= 'z' }
  predicate IsUpperLetter(c: char) { 'A' <= c <= 'Z' }
  predicate IsLetter(c: char) { IsLowerLetter(c) || IsUpperLetter(c) }
  /** `\w` */
  predicate IsWordChar(c: char) { IsLetter(c) || IsDigit(c) || c == '_' }

  predicate AllSpace(s: string) { forall i :: 0 <= i < |s| ==> IsSpace(s[i]) }
  predicate AllDigits(s: string) { forall i :: 0 <= i < |s| ==> IsDigit(s[i]) }

  /** A string that `trim` leaves as it is. */
  predicate IsTrimmed(s: string) { s == [] || (!IsSpace(s[0]) && !IsSpace(s[|s| - 1])) }

  function StartsWith(s: string, prefix: string): bool {
    |prefix| <= |s| && s[..|prefix|] == prefix
  }

  /** The length of the longest run of characters satisfying `p` that starts at `i`. */
  function RunFrom(s: string, i: nat, p: char -> bool): (n: nat)
    requires i <= |s|
    ensures i + n <= |s|
    ensures forall k :: i <= k < i + n ==> p(s[k])
    ensures i + n < |s| ==> !p(s[i + n])
    decreases |s| - i
  {
    if i < |s| && p(s[i]) then 1 + RunFrom(s, i + 1, p) else 0
  }

  /** The length of the longest prefix of `s` whose characters all satisfy `p`
      (how far a greedy `[...]+` or `\s+` reaches). */
  function CountWhile(s: string, p: char -> bool): (n: nat)
    ensures n <= |s|
    ensures forall i :: 0 <= i < n ==> p(s[i])
    ensures n < |s| ==> !p(s[n])
  {
    RunFrom(s, 0, p)
  }

  /** The postconditions of RunFrom determine it. */
  lemma RunFromIs(s: string, i: nat, p: char -> bool, n: nat)
    requires i + n <= |s| && forall k :: i <= k < i + n ==> p(s[k])
    requires i + n == |s| || !p(s[i + n])
    ensures RunFrom(s, i, p) == n
  {
  }

  /** A text is its three slices around two positions. */
  lemma SplitThree(s: string, i: nat, j: nat)
    requires i <= j <= |s|
    ensures s == s[..i] + s[i..j] + s[j..]
  {
    assert s[..i] + s[i..j] == s[..j];
  }

  /** The two postconditions of CountWhile determine it. */
  lemma CountWhileIs(s: string, p: char -> bool, n: nat)
    requires n <= |s| && forall i :: 0 <= i < n ==> p(s[i])
    requires n == |s| || !p(s[n])
    ensures CountWhile(s, p) == n
  {
  }

  /** A greedy run stops exactly where the characters that satisfy `p` stop. */
  lemma CountWhileOf(x: string, y: string, p: char -> bool)
    requires forall i :: 0 <= i < |x| ==> p(x[i])
    requires y == [] || !p(y[0])
    ensures CountWhile(x + y, p) == |x|
  {
    CountWhileIs(x + y, p, |x|);
  }

  /** The number of white-space characters that end `s[..j]`. */
  function SpaceBefore(s: string, j: nat): (n: nat)
    requires j <= |s|
    ensures n <= j
    ensures forall k :: j - n <= k < j ==> IsSpace(s[k])
    ensures n < j ==> !IsSpace(s[j - n - 1])
  {
    if j > 0 && IsSpace(s[j - 1]) then 1 + SpaceBefore(s, j - 1) else 0
  }

  /** `trimStart` */
  function TrimStart(s: string): (r: string)
    ensures |r| <= |s| && r == s[|s| - |r|..]
    ensures AllSpace(s[..|s| - |r|])
    ensures r == [] || !IsSpace(r[0])
  {
    s[CountWhile(s, IsSpace)..]
  }

  /** `trimEnd` */
  function TrimEnd(s: string): (r: string)
    ensures |r| <= |s| && r == s[..|r|]
    ensures AllSpace(s[|r|..])
    ensures r == [] || !IsSpace(r[|r| - 1])
  {
    s[..|s| - SpaceBefore(s, |s|)]
  }

  /** `String.prototype.trim`: the input with its leading and trailing white space removed. */
  function Trim(s: string): (r: string)
    ensures IsTrimmed(r) && |r| <= |s|
  {
    TrimEnd(TrimStart(s))
  }

  lemma TrimStartOf(w: string, t: string)
    requires AllSpace(w)
    requires t == [] || !IsSpace(t[0])
    ensures TrimStart(w + t) == t
  {
    CountWhileOf(w, t, IsSpace);
    assert (w + t)[|w|..] == t;
  }

  /** The two postconditions of SpaceBefore determine it. */
  lemma SpaceBeforeIs(s: string, j: nat, n: nat)
    requires n <= j <= |s| && forall k :: j - n <= k < j ==> IsSpace(s[k])
    requires n == j || !IsSpace(s[j - n - 1])
    ensures SpaceBefore(s, j) == n
    decreases j
  {
    if n > 0 {
      SpaceBeforeIs(s, j - 1, n - 1);
    }
  }

  lemma TrimEndOf(t: string, w: string)
    requires AllSpace(w)
    requires t == [] || !IsSpace(t[|t| - 1])
    ensures TrimEnd(t + w) == t
  {
    SpaceBeforeIs(t + w, |t + w|, |w|);
    assert (t + w)[..|t|] == t;
  }

  /** Trimming a trimmed text surrounded by white space gives back that text: the inverse
      of padding. */
  lemma TrimOf(w1: string, t: string, w2: string)
    requires AllSpace(w1) && AllSpace(w2) && IsTrimmed(t)
    ensures Trim(w1 + t + w2) == t
  {
    if t == [] {
      assert w1 + t + w2 == w1 + w2;
      TrimStartOf(w1 + w2, []);
      assert w1 + w2 + [] == w1 + w2;
    } else {
      assert w1 + t + w2 == w1 + (t + w2);
      TrimStartOf(w1, t + w2);
      TrimEndOf(t, w2);
    }
  }

  /** `trim` leaves a trimmed text as it is. */
  lemma TrimTrimmed(s: string)
    requires IsTrimmed(s)
    ensures Trim(s) == s
  {
    CountWhileIs(s, IsSpace, 0);
    assert TrimStart(s) == s[0..] == s;
    SpaceBeforeIs(s, |s|, 0);
    assert TrimEnd(s) == s[..|s|] == s;
  }

  /** `trim` is idempotent. */
  lemma TrimIdempotent(s: string)
    ensures Trim(Trim(s)) == Trim(s)
  {
    TrimTrimmed(Trim(s));
  }

  /** Every string is its trimmed form padded with white space. */
  lemma TrimSplit(s: string)
    ensures |Trim(s)| <= |s|
    ensures exists lo :: 0 <= lo <= |s| - |Trim(s)| && s[lo..lo + |Trim(s)|] == Trim(s)
                         && AllSpace(s[..lo]) && AllSpace(s[lo + |Trim(s)|..])
  {
    TrimPieces(s);
  }

  /** TrimSplit with the position of the trimmed text made explicit: it starts where the
      leading white space ends. */
  lemma TrimPieces(s: string)
    ensures var lo := |s| - |TrimStart(s)|;
      && lo + |Trim(s)| <= |s| && s[lo..lo + |Trim(s)|] == Trim(s)
      && AllSpace(s[..lo]) && AllSpace(s[lo + |Trim(s)|..])
  {
    var a := TrimStart(s);
    var lo := |s| - |a|;
    var t := TrimEnd(a);
    assert a[..|t|] == s[lo..lo + |t|];
    assert a[|t|..] == s[lo + |t|..];
  }

  /** `toLowerCase` on one character; only A-Z are mapped. */
  function LowerChar(c: char): char {
    if IsUpperLetter(c) then (c as int + 32) as char else c
  }

  /** `toLowerCase`: each character lowered on its own, the length unchanged. */
  function Lower(s: string): (r: string)
    ensures |r| == |s|
    ensures forall i :: 0 <= i < |s| ==> r[i] == LowerChar(s[i])
  {
    if s == [] then [] else [LowerChar(s[0])] + Lower(s[1..])
  }

  lemma LowerHasNoUpper(s: string)
    ensures forall i :: 0 <= i < |s| ==> !IsUpperLetter(Lower(s)[i])
  {
  }

  /** `toLowerCase` leaves a text without capital letters as it is. */
  lemma LowerKeeps(s: string)
    requires forall i :: 0 <= i < |s| ==> !IsUpperLetter(s[i])
    ensures Lower(s) == s
  {
  }

  lemma LowerIdempotent(s: string)
    ensures Lower(Lower(s)) == Lower(s)
  {
  }

  lemma LowerConcat(a: string, b: string)
    ensures Lower(a + b) == Lower(a) + Lower(b)
  {
  }

  lemma LowerCharSpace(c: char)
    ensures IsSpace(LowerChar(c)) == IsSpace(c)
  {
    if IsUpperLetter(c) {
      assert 'a' <= LowerChar(c) <= 'z';
    }
  }

  lemma LowerTrimStart(s: string)
    ensures Lower(TrimStart(s)) == TrimStart(Lower(s))
  {
    var n := CountWhile(s, IsSpace);
    forall i | 0 <= i < |s| ensures IsSpace(Lower(s)[i]) == IsSpace(s[i]) {
      LowerCharSpace(s[i]);
    }
    CountWhileIs(Lower(s), IsSpace, n);
    assert Lower(s[n..]) == Lower(s)[n..];
  }

  lemma LowerTrimEnd(s: string)
    ensures Lower(TrimEnd(s)) == TrimEnd(Lower(s))
  {
    var n := SpaceBefore(s, |s|);
    forall i | 0 <= i < |s| ensures IsSpace(Lower(s)[i]) == IsSpace(s[i]) {
      LowerCharSpace(s[i]);
    }
    SpaceBeforeIs(Lower(s), |s|, n);
    assert Lower(s[..|s| - n]) == Lower(s)[..|s| - n];
  }

  /** Lowering keeps white space where it is, so it commutes with `trim`. */
  lemma LowerTrim(s: string)
    ensures Lower(Trim(s)) == Trim(Lower(s))
  {
    LowerTrimStart(s);
    LowerTrimEnd(TrimStart(s));
  }

  /** `replace(/,/g, "")` */
  function StripCommas(s: string): (r: string)
    ensures ',' !in r
    ensures |r| <= |s|
  {
    if s == [] then []
    else if s[0] == ',' then StripCommas(s[1..])
    else [s[0]] + StripCommas(s[1..])
  }

  /** A text without commas is left as it is. */
  lemma {:induction false} StripCommasNone(s: string)
    requires forall i :: 0 <= i < |s| ==> s[i] != ','
    ensures StripCommas(s) == s
  {
    if s != [] {
      StripCommasNone(s[1..]);
    }
  }

  /** Removing commas works piece by piece: the result for a joined text is the two results
      joined, so every character other than a comma survives, in its order. */
  lemma {:induction false} StripCommasAppend(a: string, b: string)
    ensures StripCommas(a + b) == StripCommas(a) + StripCommas(b)
  {
    if a == [] {
      assert a + b == b;
    } else {
      assert (a + b)[1..] == a[1..] + b;
      StripCommasAppend(a[1..], b);
    }
  }

  /** A single character is dropped exactly when it is a comma. */
  lemma StripCommasChar(c: char)
    ensures StripCommas([c]) == (if c == ',' then [] else [c])
  {
  }

  lemma {:induction false} StripCommasKeeps(s: string, p: char -> bool)
    requires forall i :: 0 <= i < |s| ==> p(s[i]) || s[i] == ','
    ensures forall i :: 0 <= i < |StripCommas(s)| ==> p(StripCommas(s)[i])
  {
    if s != [] {
      StripCommasKeeps(s[1..], p);
    }
  }

  function DigitChar(d: nat): char
    requires d < 10
  {
    ('0' as int + d) as char
  }

  function DigitValue(c: char): nat
    requires IsDigit(c)
  {
    c as int - '0' as int
  }

  /** The value of a string of decimal digits ("" counts as 0). */
  function DigitsValue(ds: string): nat
    requires AllDigits(ds)
  {
    if ds == [] then 0 else DigitsValue(ds[..|ds| - 1]) * 10 + DigitValue(ds[|ds| - 1])
  }

  /** `String(n)` for a non-negative integer. */
  function NatToString(n: nat): (r: string)
    ensures |r| >= 1 && AllDigits(r)
    ensures DigitsValue(r) == n
    decreases n
  {
    if n < 10 then [DigitChar(n)]
    else
      var r := NatToString(n / 10) + [DigitChar(n % 10)];
      assert r[..|r| - 1] == NatToString(n / 10);
      r
  }

  /** Distinct numbers are rendered differently. */
  lemma NatToStringInjective(m: nat, n: nat)
    requires NatToString(m) == NatToString(n)
    ensures m == n
  {
  }

  /** `String(n)` for any integer. */
  function IntToString(n: int): string {
    if n < 0 then "-" + NatToString(-n) else NatToString(n)
  }

  /** `Array.prototype.join(sep)` over strings. */
  function Join(parts: seq<string>, sep: string): string {
    if parts == [] then ""
    else if |parts| == 1 then parts[0]
    else parts[0] + sep + Join(parts[1..], sep)
  }

  /** `s.split(sep)` for a one-character separator: the pieces between separators, at least
      one, none holding the separator, and joined back they give `s`. */
  function Split(s: string, sep: char): (r: seq<string>)
    ensures |r| >= 1
    ensures forall i :: 0 <= i < |r| ==> sep !in r[i]
    ensures Join(r, [sep]) == s
    decreases |s|
  {
    var n := CountWhile(s, c => c != sep);
    if n == |s| then
      assert sep !in s;
      [s]
    else
      var rest := Split(s[n + 1..], sep);
      assert sep !in s[..n];
      assert s == s[..n] + [sep] + s[n + 1..];
      [s[..n]] + rest
  }

  /** Two separator-free pieces around one separator split back into those pieces. */
  lemma SplitTwo(a: string, b: string, sep: char)
    requires sep !in a && sep !in b
    ensures Split(a + [sep] + b, sep) == [a, b]
  {
    var s := a + [sep] + b;
    CountWhileOf(a, [sep] + b, c => c != sep);
    assert s == a + ([sep] + b);
    assert s[..|a|] == a;
    assert s[|a| + 1..] == b;
  }

  /** Joining separator-free pieces and splitting the result gives the pieces back. */
  lemma {:induction false} SplitJoin(parts: seq<string>, sep: char)
    requires |parts| >= 1
    requires forall i :: 0 <= i < |parts| ==> sep !in parts[i]
    ensures Split(Join(parts, [sep]), sep) == parts
    decreases |parts|
  {
    var first := parts[0];
    if |parts| == 1 {
      CountWhileOf(first, [], c => c != sep);
      assert first + [] == first;
    } else {
      var rest := Join(parts[1..], [sep]);
      SplitJoin(parts[1..], sep);
      var s := first + [sep] + rest;
      CountWhileOf(first, [sep] + rest, c => c != sep);
      assert s == first + ([sep] + rest);
      assert s[..|first|] == first;
      assert s[|first| + 1..] == rest;
      assert parts == [first] + parts[1..];
    }
  }
}
