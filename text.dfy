/** Strings as the scripts use them: JavaScript's `trim`, `includes`,
    `endsWith`, `replace` with a one-character pattern, and `join`.
    Strings are sequences of characters; UTF-16 code units are not modelled. */
module Text {

  /** The characters that `String.prototype.trim` strips and that the regular
      expression class `\s` matches: ECMAScript's WhiteSpace and LineTerminator. */
  predicate IsSpace(c: char) {
    || c == '\t' || c == '\n' || c == '\U{000B}' || c == '\U{000C}' || c == '\r'
    || c == ' ' || c == '\U{00A0}' || c == '\U{1680}'
    || ('\U{2000}' <= c <= '\U{200A}')
    || c == '\U{2028}' || c == '\U{2029}' || c == '\U{202F}' || c == '\U{205F}'
    || c == '\U{3000}' || c == '\U{FEFF}'
  }

  predicate AllSpace(s: string) {
    forall k :: 0 <= k < |s| ==> IsSpace(s[k])
  }

  predicate NoSpace(s: string) {
    forall k :: 0 <= k < |s| ==> !IsSpace(s[k])
  }

  /** Number of white-space characters at the start of `s`. */
  function LeadingSpaces(s: string): (n: nat)
    ensures n <= |s| && AllSpace(s[..n])
    ensures n == |s| || !IsSpace(s[n])
  {
    if |s| > 0 && IsSpace(s[0]) then
      var m := LeadingSpaces(s[1..]);
      assert s[1..][..m] == s[1..m + 1];
      1 + m
    else 0
  }

  /** Number of white-space characters at the end of `s`. */
  function TrailingSpaces(s: string): (n: nat)
    ensures n <= |s| && AllSpace(s[|s| - n..])
    ensures n == |s| || !IsSpace(s[|s| - n - 1])
  {
    if |s| > 0 && IsSpace(s[|s| - 1]) then
      var m := TrailingSpaces(s[..|s| - 1]);
      assert forall k :: |s| - 1 - m <= k < |s| - 1 ==> s[..|s| - 1][|s| - 1 - m..][k - (|s| - 1 - m)] == s[k];
      1 + m
    else 0
  }

  /** JavaScript `s.trim()`: the result is the slice `s[lo..hi]` that is left
      once white space is stripped from both ends, and it neither starts nor
      ends with white space. */
  function Trim(s: string): (r: string)
    ensures r == s[LeadingSpaces(s)..|s| - TrailingSpaces(s[LeadingSpaces(s)..])]
    ensures r == [] || (!IsSpace(r[0]) && !IsSpace(r[|r| - 1]))
    ensures |r| <= |s|
  {
    var t := s[LeadingSpaces(s)..];
    t[..|t| - TrailingSpaces(t)]
  }

  /** A string whose trimmed form is empty consists of white space only, and
      conversely: this is the meaning of `!value.trim()` in the scripts. */
  lemma TrimEmptyIffAllSpace(s: string)
    ensures Trim(s) == [] <==> AllSpace(s)
  {
    var n := LeadingSpaces(s);
    if Trim(s) == [] {
      var t := s[n..];
      var m := TrailingSpaces(t);
      assert m == |t|;
      forall k | 0 <= k < |s| ensures IsSpace(s[k]) {
        if k < n { assert s[..n][k] == s[k]; }
      }
    } else {
      assert n < |s| && !IsSpace(s[n]);
    }
  }

  /** A string without white space is its own trim. */
  lemma TrimNoSpace(s: string)
    requires NoSpace(s)
    ensures Trim(s) == s
  {
    var n := LeadingSpaces(s);
    var m := TrailingSpaces(s);
  }

  /** Trimming twice is trimming once. */
  lemma TrimIdempotent(s: string)
    ensures Trim(Trim(s)) == Trim(s)
  {
    var r := Trim(s);
    var n := LeadingSpaces(r);
    var m := TrailingSpaces(r);
  }

  /** White space around a string that neither starts nor ends with white
      space is exactly what `trim` removes. */
  lemma TrimPadded(pad: string, s: string, pad2: string)
    requires AllSpace(pad) && AllSpace(pad2)
    requires s == [] || (!IsSpace(s[0]) && !IsSpace(s[|s| - 1]))
    ensures Trim(pad + s + pad2) == s
  {
    var x := pad + s + pad2;
    if s == [] {
      assert x == pad + pad2;
      assert AllSpace(x) by {
        forall k | 0 <= k < |x| ensures IsSpace(x[k]) {
          if k < |pad| { assert x[k] == pad[k]; } else { assert x[k] == pad2[k - |pad|]; }
        }
      }
      TrimEmptyIffAllSpace(x);
    } else {
      var n := LeadingSpaces(x);
      assert x[|pad|] == s[0];
      assert n == |pad|;
      var t := x[n..];
      assert t == s + pad2;
      var m := TrailingSpaces(t);
      assert t[|t| - |pad2| - 1] == s[|s| - 1];
      assert m == |pad2|;
      assert t[..|t| - m] == s;
    }
  }

  /** JavaScript `s.includes(sub)`. */
  predicate Contains(s: string, sub: string) {
    exists i | 0 <= i <= |s| - |sub| :: OccursAt(s, sub, i)
  }

  /** `sub` occurs in `s` starting at index `i`. */
  predicate OccursAt(s: string, sub: string, i: int) {
    0 <= i <= |s| - |sub| && s[i..i + |sub|] == sub
  }

  /** JavaScript `s.endsWith(suffix)`. */
  predicate EndsWith(s: string, suffix: string) {
    |suffix| <= |s| && s[|s| - |suffix|..] == suffix
  }

  /** A string contains every prefix of itself. */
  lemma ContainsPrefix(s: string, p: string)
    requires |p| <= |s| && s[..|p|] == p
    ensures Contains(s, p)
  {
    assert OccursAt(s, p, 0);
  }

  /** Index of the first occurrence of `c` in `s`, or `|s|` when there is none. */
  function IndexOf(s: string, c: char): (i: nat)
    ensures i <= |s|
    ensures i < |s| ==> s[i] == c
    ensures forall k :: 0 <= k < i ==> s[k] != c
  {
    if s == [] then 0
    else if s[0] == c then 0
    else 1 + IndexOf(s[1..], c)
  }

  /** JavaScript `s.replace(from, to)` with one-character string arguments:
      only the first occurrence of `from` is replaced. */
  function ReplaceFirst(s: string, from: char, to: char): (r: string)
    ensures |r| == |s|
    ensures from !in s ==> r == s
    ensures from in s ==>
      var i := IndexOf(s, from);
      i < |s| && r == s[..i] + [to] + s[i + 1..]
  {
    var i := IndexOf(s, from);
    if i == |s| then s else s[..i] + [to] + s[i + 1..]
  }

  /** JavaScript `parts.join(sep)`. */
  function Join(parts: seq<string>, sep: string): string {
    if parts == [] then ""
    else if |parts| == 1 then parts[0]
    else parts[0] + sep + Join(parts[1..], sep)
  }

  /** The length of `parts.join(sep)`: the parts' lengths plus one
      separator between each pair of neighbours. */
  lemma {:induction false} JoinLength(parts: seq<string>, sep: string)
    requires |parts| > 0
    ensures |Join(parts, sep)| == SumLengths(parts) + (|parts| - 1) * |sep|
  {
    if |parts| > 1 {
      JoinLength(parts[1..], sep);
    }
  }

  /** Where part `i` starts in `Join(parts, sep)`: after the parts before it
      and one separator behind each of them. */
  function PartOffset(parts: seq<string>, sep: string, i: nat): nat
    requires i < |parts|
  {
    if i == 0 then 0 else |parts[0]| + |sep| + PartOffset(parts[1..], sep, i - 1)
  }

  /** `join` keeps every part, in order, each at its offset. */
  lemma {:induction false} JoinPart(parts: seq<string>, sep: string, i: nat)
    requires i < |parts|
    ensures PartOffset(parts, sep, i) + |parts[i]| <= |Join(parts, sep)|
    ensures Join(parts, sep)[PartOffset(parts, sep, i)..PartOffset(parts, sep, i) + |parts[i]|] == parts[i]
  {
    if |parts| > 1 {
      var tail := Join(parts[1..], sep);
      var d := |parts[0]| + |sep|;
      assert Join(parts, sep) == parts[0] + sep + tail;
      if i > 0 {
        JoinPart(parts[1..], sep, i - 1);
        var o := PartOffset(parts[1..], sep, i - 1);
        assert parts[1..][i - 1] == parts[i];
        assert Join(parts, sep)[d + o..d + o + |parts[i]|] == tail[o..o + |parts[i]|];
      }
    }
  }

  /** Between part `i` and part `i + 1` stands exactly one separator. */
  lemma {:induction false} JoinSeparator(parts: seq<string>, sep: string, i: nat)
    requires i + 1 < |parts|
    ensures PartOffset(parts, sep, i + 1) == PartOffset(parts, sep, i) + |parts[i]| + |sep|
    ensures PartOffset(parts, sep, i + 1) <= |Join(parts, sep)|
    ensures Join(parts, sep)[PartOffset(parts, sep, i) + |parts[i]|..PartOffset(parts, sep, i + 1)] == sep
  {
    var tail := Join(parts[1..], sep);
    var d := |parts[0]| + |sep|;
    assert Join(parts, sep) == parts[0] + sep + tail;
    if i > 0 {
      JoinSeparator(parts[1..], sep, i - 1);
      var o := PartOffset(parts[1..], sep, i - 1) + |parts[i]|;
      assert parts[1..][i - 1] == parts[i];
      assert Join(parts, sep)[d + o..d + o + |sep|] == tail[o..o + |sep|];
    }
  }

  function SumLengths(parts: seq<string>): nat {
    if parts == [] then 0 else |parts[0]| + SumLengths(parts[1..])
  }

  /** The concatenation of all strings in `parts`, as jQuery's `.text()`
      returns for a collection of elements. */
  function Concat(parts: seq<string>): (r: string)
    ensures |r| == SumLengths(parts)
  {
    if parts == [] then "" else parts[0] + Concat(parts[1..])
  }
}
