/**
  Character classes, whitespace trimming and the digit filter that the
  server handler (register.php) and the browser script (script.js) rely on.

  Strings are sequences of characters and are taken to be ASCII, so that
  PHP's byte length and JavaScript's UTF-16 length are both `|s|`.
*/
module Text {

  /** A value that may be absent; a field rule yields `Some(message)` when it fails. */
  datatype Option<+T> = None | Some(value: T)

  predicate IsAsciiLetter(c: char) {
    'a' <= c <= 'z' || 'A' <= c <= 'Z'
  }

  /** `\d` and `[0-9]` in both regex dialects. */
  predicate IsAsciiDigit(c: char) {
    '0' <= c <= '9'
  }

  /** `\s` in PCRE and in JavaScript, restricted to ASCII: space, tab, line feed,
      vertical tab, form feed and carriage return. */
  predicate IsRegexSpace(c: char) {
    c == ' ' || c == '\t' || c == '\n' || c == '\U{B}' || c == '\U{C}' || c == '\r'
  }

  /** The characters PHP's `trim()` removes by default: space, tab, line feed,
      carriage return, NUL and vertical tab (no form feed). */
  predicate IsPhpTrimmed(c: char) {
    c == ' ' || c == '\t' || c == '\n' || c == '\r' || c == '\0' || c == '\U{B}'
  }

  /** The ASCII characters `String.prototype.trim` removes: exactly the ASCII
      white space of `\s` (form feed included, NUL not). */
  predicate IsJsTrimmed(c: char) {
    IsRegexSpace(c)
  }

  /** `/^[a-zA-Z\s]+$/`: one or more letters or white-space characters. */
  predicate MatchesNamePattern(s: string) {
    |s| > 0 && forall i :: 0 <= i < |s| ==> IsAsciiLetter(s[i]) || IsRegexSpace(s[i])
  }

  /** `/^\d{10}$/` as JavaScript reads it: exactly ten digits. */
  predicate IsTenDigits(s: string) {
    |s| == 10 && forall i :: 0 <= i < |s| ==> IsAsciiDigit(s[i])
  }

  /** Removes the leading characters that satisfy `strip`. */
  function DropLeading(s: string, strip: char -> bool): (r: string)
    ensures |r| <= |s|
    ensures r != [] ==> !strip(r[0])
  {
    if s != [] && strip(s[0]) then DropLeading(s[1..], strip) else s
  }

  /** Removes the trailing characters that satisfy `strip`. */
  function DropTrailing(s: string, strip: char -> bool): (r: string)
    ensures |r| <= |s|
    ensures r != [] ==> !strip(r[|r| - 1])
  {
    if s != [] && strip(s[|s| - 1]) then DropTrailing(s[..|s| - 1], strip) else s
  }

  /** What `DropLeading` removes is a prefix of stripped characters. */
  lemma {:induction false} DropLeadingIsSuffix(s: string, strip: char -> bool)
    ensures var r := DropLeading(s, strip);
      r == s[|s| - |r|..] && forall i :: 0 <= i < |s| - |r| ==> strip(s[i])
  {
    if s != [] && strip(s[0]) {
      DropLeadingIsSuffix(s[1..], strip);
    }
  }

  /** What `DropTrailing` removes is a suffix of stripped characters. */
  lemma {:induction false} DropTrailingIsPrefix(s: string, strip: char -> bool)
    ensures var r := DropTrailing(s, strip);
      r == s[..|r|] && forall i :: |r| <= i < |s| ==> strip(s[i])
  {
    if s != [] && strip(s[|s| - 1]) {
      DropTrailingIsPrefix(s[..|s| - 1], strip);
    }
  }

  /** Removes the characters satisfying `strip` from both ends. */
  function Trim(s: string, strip: char -> bool): (r: string)
    ensures |r| <= |s|
    ensures r != [] ==> !strip(r[0]) && !strip(r[|r| - 1])
  {
    var left := DropLeading(s, strip);
    DropTrailingIsPrefix(left, strip);
    DropTrailing(left, strip)
  }

  /** The position in `s` at which `Trim(s, strip)` starts. */
  function TrimStart(s: string, strip: char -> bool): nat {
    |s| - |DropLeading(s, strip)|
  }

  /** The trimmed string is the slice of `s` that starts at the first kept
      character and ends at the last one: every character cut away on either
      side satisfies `strip`. */
  lemma TrimIsSlice(s: string, strip: char -> bool)
    ensures var r, k := Trim(s, strip), TrimStart(s, strip);
      && k + |r| <= |s| && r == s[k..k + |r|]
      && (forall i :: 0 <= i < k ==> strip(s[i]))
      && (forall i :: k + |r| <= i < |s| ==> strip(s[i]))
  {
    var left := DropLeading(s, strip);
    var r := DropTrailing(left, strip);
    var k := |s| - |left|;
    DropLeadingIsSuffix(s, strip);
    DropTrailingIsPrefix(left, strip);
    assert left == s[k..];
    forall i | k + |r| <= i < |s| ensures strip(s[i]) {
      assert s[i] == left[i - k];
    }
    assert r == left[..|r|];
  }

  /** PHP `trim($s)`. */
  function PhpTrim(s: string): string {
    Trim(s, IsPhpTrimmed)
  }

  /** JavaScript `s.trim()`. */
  function JsTrim(s: string): string {
    Trim(s, IsJsTrimmed)
  }

  lemma {:induction false} DropLeadingAgrees(s: string, p: char -> bool, q: char -> bool)
    requires forall i :: 0 <= i < |s| ==> p(s[i]) == q(s[i])
    ensures DropLeading(s, p) == DropLeading(s, q)
  {
    if s != [] && p(s[0]) {
      DropLeadingAgrees(s[1..], p, q);
    }
  }

  lemma {:induction false} DropTrailingAgrees(s: string, p: char -> bool, q: char -> bool)
    requires forall i :: 0 <= i < |s| ==> p(s[i]) == q(s[i])
    ensures DropTrailing(s, p) == DropTrailing(s, q)
  {
    if s != [] && p(s[|s| - 1]) {
      DropTrailingAgrees(s[..|s| - 1], p, q);
    }
  }

  /** Trimming depends only on how `strip` judges the characters that occur in `s`. */
  lemma TrimAgrees(s: string, p: char -> bool, q: char -> bool)
    requires forall i :: 0 <= i < |s| ==> p(s[i]) == q(s[i])
    ensures Trim(s, p) == Trim(s, q)
  {
    DropLeadingAgrees(s, p, q);
    DropLeadingIsSuffix(s, p);
    var left := DropLeading(s, p);
    assert forall i :: 0 <= i < |left| ==> left[i] == s[|s| - |left| + i];
    DropTrailingAgrees(left, p, q);
  }

  /** PHP's `trim` and JavaScript's `trim` agree on every string without NUL and form feed. */
  lemma PhpTrimIsJsTrim(s: string)
    requires '\0' !in s && '\U{C}' !in s
    ensures PhpTrim(s) == JsTrim(s)
  {
    forall i | 0 <= i < |s| ensures IsPhpTrimmed(s[i]) == IsJsTrimmed(s[i]) {
      assert s[i] in s;
    }
    TrimAgrees(s, IsPhpTrimmed, IsJsTrimmed);
  }

  /** A string with no character satisfying `strip` is its own trim. */
  lemma TrimKeepsUnpadded(s: string, strip: char -> bool)
    requires forall i :: 0 <= i < |s| ==> !strip(s[i])
    ensures Trim(s, strip) == s
  {
    if s != [] {
      assert DropLeading(s, strip) == s;
      assert DropTrailing(s, strip) == s;
    }
  }

  /** Stripped characters in front are all cut away. */
  lemma {:induction false} DropLeadingSkipsPad(pad: string, s: string, strip: char -> bool)
    requires forall i :: 0 <= i < |pad| ==> strip(pad[i])
    ensures DropLeading(pad + s, strip) == DropLeading(s, strip)
  {
    if pad != [] {
      assert (pad + s)[1..] == pad[1..] + s;
      DropLeadingSkipsPad(pad[1..], s, strip);
    } else {
      assert pad + s == s;
    }
  }

  /** Stripped characters at the end are all cut away. */
  lemma {:induction false} DropTrailingSkipsPad(s: string, pad: string, strip: char -> bool)
    requires forall i :: 0 <= i < |pad| ==> strip(pad[i])
    ensures DropTrailing(s + pad, strip) == DropTrailing(s, strip)
  {
    if pad != [] {
      assert (s + pad)[..|s + pad| - 1] == s + pad[..|pad| - 1];
      DropTrailingSkipsPad(s, pad[..|pad| - 1], strip);
    } else {
      assert s + pad == s;
    }
  }

  /** Cutting leading characters off `s + pad` cuts them off `s`, unless `s`
      vanishes entirely, in which case the stripped `pad` goes too. */
  lemma {:induction false} DropLeadingKeepsPad(s: string, pad: string, strip: char -> bool)
    requires forall i :: 0 <= i < |pad| ==> strip(pad[i])
    ensures DropLeading(s + pad, strip) ==
      if DropLeading(s, strip) == [] then [] else DropLeading(s, strip) + pad
  {
    if s == [] {
      DropLeadingSkipsPad(pad, [], strip);
      assert pad + [] == pad && s + pad == pad;
      assert DropLeading([], strip) == [];
    } else if strip(s[0]) {
      assert (s + pad)[1..] == s[1..] + pad;
      DropLeadingKeepsPad(s[1..], pad, strip);
    }
  }

  /** Padding a string with stripped characters on either side does not change
      its trim. */
  lemma TrimIgnoresPadding(lead: string, s: string, trail: string, strip: char -> bool)
    requires forall i :: 0 <= i < |lead| ==> strip(lead[i])
    requires forall i :: 0 <= i < |trail| ==> strip(trail[i])
    ensures Trim(lead + s + trail, strip) == Trim(s, strip)
  {
    assert lead + s + trail == lead + (s + trail);
    DropLeadingSkipsPad(lead, s + trail, strip);
    DropLeadingKeepsPad(s, trail, strip);
    var left := DropLeading(s, strip);
    if left != [] {
      DropTrailingSkipsPad(left, trail, strip);
    }
  }

  /** `s.replace(/[^0-9]/g, '')`: keeps the digits of `s` in their order and
      drops every other character. */
  function DigitsOnly(s: string): (r: string)
    ensures |r| <= |s|
    ensures forall i :: 0 <= i < |r| ==> IsAsciiDigit(r[i])
    ensures (forall i :: 0 <= i < |s| ==> IsAsciiDigit(s[i])) ==> r == s
  {
    if s == [] then []
    else (if IsAsciiDigit(s[0]) then [s[0]] else []) + DigitsOnly(s[1..])
  }

  /** Filtering distributes over concatenation, so the order of the kept digits
      is the order in which they occur. */
  lemma {:induction false} DigitsOnlyConcat(a: string, b: string)
    ensures DigitsOnly(a + b) == DigitsOnly(a) + DigitsOnly(b)
  {
    if a != [] {
      assert (a + b)[1..] == a[1..] + b;
      DigitsOnlyConcat(a[1..], b);
    } else {
      assert a + b == b;
    }
  }

  /** The filter keeps every digit of `s`, as often as it occurs, and nothing
      else; with `DigitsOnlyConcat` this makes the result exactly the digits
      of `s` in their order. */
  lemma {:induction false} DigitsOnlyKeepsDigits(s: string)
    ensures forall c :: multiset(DigitsOnly(s))[c] == if IsAsciiDigit(c) then multiset(s)[c] else 0
  {
    if s != [] {
      DigitsOnlyKeepsDigits(s[1..]);
      assert s == [s[0]] + s[1..];
      assert multiset(s) == multiset([s[0]]) + multiset(s[1..]);
    }
  }

  /** Filtering a second time changes nothing. */
  lemma DigitsOnlyIdempotent(s: string)
    ensures DigitsOnly(DigitsOnly(s)) == DigitsOnly(s)
  {
  }

  /** The value of an option as a list of zero or one elements: how one
      field's ladder contributes to an error list. */
  function AsList<T>(o: Option<T>): (r: seq<T>)
    ensures |r| <= 1
    ensures r == [] <==> o.None?
    ensures o.Some? ==> r[0] == o.value
  {
    if o.Some? then [o.value] else []
  }

  /** The ranks of `xs` are strictly increasing and lie in `[0, bound)`. */
  ghost predicate RankedBelow<T>(xs: seq<T>, rank: T -> int, bound: int) {
    && (forall i :: 0 <= i < |xs| ==> 0 <= rank(xs[i]) < bound)
    && (forall i, j :: 0 <= i < j < |xs| ==> rank(xs[i]) < rank(xs[j]))
  }

  /** Appending the contribution of the field at position `k` to a list ranked
      below `k` gives a list ranked below `k + 1`. */
  lemma AppendRanked<T>(xs: seq<T>, o: Option<T>, rank: T -> int, k: nat)
    requires RankedBelow(xs, rank, k)
    requires o.Some? ==> rank(o.value) == k
    ensures RankedBelow(xs + AsList(o), rank, k + 1)
  {
    var ys := xs + AsList(o);
    forall i | 0 <= i < |ys| ensures 0 <= rank(ys[i]) < k + 1 {
      if i < |xs| {
        assert ys[i] == xs[i];
      }
    }
    forall i, j | 0 <= i < j < |ys| ensures rank(ys[i]) < rank(ys[j]) {
      assert ys[i] == xs[i];
      if j < |xs| {
        assert ys[j] == xs[j];
      }
    }
  }
}
