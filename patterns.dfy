/** The two regular expressions of the contact forms, written as predicates. */
module Patterns {
  import opened Text

  /** A character of the class `[^\s@]`. */
  predicate EmailChar(c: char) {
    !IsSpace(c) && c != '@'
  }

  /** A non-empty run of `[^\s@]+`. */
  predicate EmailPart(s: string) {
    |s| > 0 && forall k :: 0 <= k < |s| ==> EmailChar(s[k])
  }

  /** `s` splits as A '@' B '.' C at positions `at` and `dot`. */
  predicate EmailSplit(s: string, at: int, dot: int) {
    && 0 <= at < dot < |s|
    && s[at] == '@' && s[dot] == '.'
    && EmailPart(s[..at]) && EmailPart(s[at + 1..dot]) && EmailPart(s[dot + 1..])
  }

  /** `/^[^\s@]+@[^\s@]+\.[^\s@]+$/.test(s)`: the string is A '@' B '.' C with
      A, B and C non-empty and free of white space and '@'. B and C may
      themselves contain dots; the pattern only needs some dot with text on
      both sides after the '@'. */
  predicate IsEmail(s: string) {
    exists at, dot | 0 <= at < dot < |s| :: EmailSplit(s, at, dot)
  }

  /** A character of the class `[0-9()\-\s+]`. */
  predicate PhoneChar(c: char) {
    ('0' <= c <= '9') || c == '(' || c == ')' || c == '-' || c == '+' || IsSpace(c)
  }

  /** `/^[0-9()\-\s+]{10,15}$/.test(s)`. */
  predicate IsPhone(s: string) {
    10 <= |s| <= 15 && forall k :: 0 <= k < |s| ==> PhoneChar(s[k])
  }

  /** An address the pattern accepts has no white space at all, exactly one
      '@' (the split point), and at least five characters. */
  lemma EmailShape(s: string)
    requires IsEmail(s)
    ensures NoSpace(s) && |s| >= 5
    ensures exists at :: 0 <= at < |s| && s[at] == '@' && '@' !in s[..at] && '@' !in s[at + 1..]
  {
    var at, dot :| 0 <= at < dot < |s| && EmailSplit(s, at, dot);
    assert s == s[..at] + [s[at]] + s[at + 1..dot] + [s[dot]] + s[dot + 1..];
    forall k | 0 <= k < |s| ensures !IsSpace(s[k]) {
      if k < at { assert s[..at][k] == s[k]; }
      else if at < k < dot { assert s[at + 1..dot][k - at - 1] == s[k]; }
      else if dot < k { assert s[dot + 1..][k - dot - 1] == s[k]; }
    }
    assert '@' !in s[at + 1..] by {
      forall k | at + 1 <= k < |s| ensures s[k] != '@' {
        if k < dot { assert s[at + 1..dot][k - at - 1] == s[k]; }
        else if dot < k { assert s[dot + 1..][k - dot - 1] == s[k]; }
      }
    }
  }

  /** Since an accepted address has no white space, trimming it changes
      nothing: the pattern accepts `s` exactly when it accepts `s` and `s` is
      its own trim. */
  lemma EmailIsTrimmed(s: string)
    requires IsEmail(s)
    ensures Trim(s) == s
  {
    EmailShape(s);
    TrimNoSpace(s);
  }

  /** Any accepted address padded with white space on either side: the
      trimmed text is the address again, but the raw text is refused. */
  lemma PaddedEmailRefusedUntrimmed(pad: string, s: string, pad2: string)
    requires IsEmail(s) && AllSpace(pad) && AllSpace(pad2) && |pad| + |pad2| > 0
    ensures Trim(pad + s + pad2) == s
    ensures !IsEmail(pad + s + pad2)
  {
    EmailShape(s);
    TrimPadded(pad, s, pad2);
    var x := pad + s + pad2;
    if IsEmail(x) {
      EmailShape(x);
    }
  }

  /** Example of `PaddedEmailRefusedUntrimmed`: white space around an
      otherwise valid address; the trimmed text passes the pattern but the
      raw text does not. */
  lemma PaddedEmail()
    ensures IsEmail(Trim(" a@b.co")) && !IsEmail(" a@b.co")
  {
    var s := " a@b.co";
    assert LeadingSpaces(s) == 1;
    assert TrailingSpaces(s[1..]) == 0;
    assert Trim(s) == "a@b.co";
    assert EmailSplit("a@b.co", 1, 3);
    if IsEmail(s) {
      EmailShape(s);
    }
  }
}
