/**
 * The few JavaScript string operations the model needs, on `string` = `seq<char>`:
 * `startsWith`, ASCII case mapping, the regular-expression classes `\s`, `\d`,
 * `.` and the truthiness fallback `s || d`.
 */
module Text {

  predicate StartsWith(s: string, prefix: string) {
    |prefix| <= |s| && s[..|prefix|] == prefix
  }

  /** The JavaScript regular-expression class `\s` (WhiteSpace and LineTerminator code points). */
  predicate IsSpace(c: char) {
    c == '\t' || c == '\n' || c == '\U{B}' || c == '\U{C}' || c == '\r' || c == ' '
    || c == '\U{A0}' || c == '\U{1680}' || ('\U{2000}' <= c <= '\U{200A}')
    || c == '\U{2028}' || c == '\U{2029}' || c == '\U{202F}' || c == '\U{205F}'
    || c == '\U{3000}' || c == '\U{FEFF}'
  }

  /** Characters that the regular-expression `.` does not match (no `s` flag). */
  predicate IsLineTerminator(c: char) {
    c == '\n' || c == '\r' || c == '\U{2028}' || c == '\U{2029}'
  }

  /** `\d`: an ASCII digit. */
  predicate IsDigit(c: char) {
    '0' <= c <= '9'
  }

  /** `[A-Za-z]`. */
  predicate IsAsciiLetter(c: char) {
    ('A' <= c <= 'Z') || ('a' <= c <= 'z')
  }

  function LowerChar(c: char): (r: char)
    ensures 'A' <= c <= 'Z' ==> 'a' <= r <= 'z' && r as int == c as int + 32
    ensures !('A' <= c <= 'Z') ==> r == c
  {
    if 'A' <= c <= 'Z' then (c as int + 32) as char else c
  }

  function UpperChar(c: char): (r: char)
    ensures 'a' <= c <= 'z' ==> 'A' <= r <= 'Z' && r as int == c as int - 32
    ensures !('a' <= c <= 'z') ==> r == c
  {
    if 'a' <= c <= 'z' then (c as int - 32) as char else c
  }

  /** `toLowerCase`, restricted to ASCII letters. */
  function ToLower(s: string): (r: string)
    ensures |r| == |s|
    ensures forall i :: 0 <= i < |s| ==> r[i] == LowerChar(s[i])
  {
    seq(|s|, i requires 0 <= i < |s| => LowerChar(s[i]))
  }

  /** `toUpperCase`, restricted to ASCII letters. */
  function ToUpper(s: string): (r: string)
    ensures |r| == |s|
    ensures forall i :: 0 <= i < |s| ==> r[i] == UpperChar(s[i])
  {
    seq(|s|, i requires 0 <= i < |s| => UpperChar(s[i]))
  }

  /** `s || fallback` for a string `s`: the empty string (like null and undefined) is falsy. */
  function OrElse(s: string, fallback: string): (r: string)
    ensures s != "" ==> r == s
    ensures s == "" ==> r == fallback
  {
    if s != "" then s else fallback
  }

  /** `words.join(sep)`. */
  function Join(words: seq<string>, sep: string): string
    decreases |words|
  {
    if |words| == 0 then ""
    else if |words| == 1 then words[0]
    else words[0] + sep + Join(words[1..], sep)
  }

  /** The longest prefix of `s` that holds no character satisfying `stop`. */
  function TakeUntil(s: string, stop: char -> bool): (r: string)
    ensures |r| <= |s| && r == s[..|r|]
    ensures forall i :: 0 <= i < |r| ==> !stop(r[i])
    ensures |r| < |s| ==> stop(s[|r|])
    decreases |s|
  {
    if |s| == 0 || stop(s[0]) then ""
    else [s[0]] + TakeUntil(s[1..], stop)
  }

  /** `TakeUntil` stops exactly at the first stop character. */
  lemma {:induction false} TakeUntilSplit(a: string, b: string, stop: char -> bool)
    requires forall i :: 0 <= i < |a| ==> !stop(a[i])
    requires |b| == 0 || stop(b[0])
    ensures TakeUntil(a + b, stop) == a
    decreases |a|
  {
    if |a| > 0 {
      assert (a + b)[1..] == a[1..] + b;
      TakeUntilSplit(a[1..], b, stop);
    }
  }

  /** The suffix of `s` left after dropping its leading characters that satisfy `skip`. */
  function DropWhile(s: string, skip: char -> bool): (r: string)
    ensures |r| <= |s| && r == s[|s| - |r|..]
    ensures forall i :: 0 <= i < |s| - |r| ==> skip(s[i])
    ensures |r| > 0 ==> !skip(r[0])
    decreases |s|
  {
    if |s| > 0 && skip(s[0]) then DropWhile(s[1..], skip) else s
  }

  /** A word: text without white space. */
  predicate NoSpace(w: string) {
    forall i :: 0 <= i < |w| ==> !IsSpace(w[i])
  }

  /**
   * `s.split(/\s+/)`: the fields between maximal runs of white space. A
   * leading or trailing run gives an empty first or last field, and the empty
   * text gives one empty field.
   */
  function SplitWords(s: string): (r: seq<string>)
    ensures |r| >= 1
    ensures forall k :: 0 <= k < |r| ==> NoSpace(r[k])
    ensures forall k :: 0 < k < |r| - 1 ==> r[k] != ""
    ensures |s| > 0 && !IsSpace(s[0]) ==> r[0] != ""
    decreases |s|
  {
    var w := TakeUntil(s, IsSpace);
    if |w| == |s| then [s]
    else
      var rest := DropWhile(s[|w|..], IsSpace);
      [w] + SplitWords(rest)
  }

  /**
   * The text with every maximal run of white space replaced by one space
   * character, and nothing else changed.
   */
  function Collapse(s: string): string
    decreases |s|
  {
    if |s| == 0 then ""
    else if IsSpace(s[0]) then " " + Collapse(DropWhile(s[1..], IsSpace))
    else [s[0]] + Collapse(s[1..])
  }

  /** A word followed by more text collapses to the word followed by the collapsed rest. */
  lemma {:induction false} CollapseWord(w: string, t: string)
    requires NoSpace(w)
    ensures Collapse(w + t) == w + Collapse(t)
    decreases |w|
  {
    if |w| > 0 {
      assert (w + t)[0] == w[0];
      assert (w + t)[1..] == w[1..] + t;
      CollapseWord(w[1..], t);
      assert w == [w[0]] + w[1..];
    } else {
      assert w + t == t;
    }
  }

  /**
   * The fields `SplitWords` returns, joined with single spaces, are the text
   * with its white-space runs collapsed: the fields are exactly the text's
   * words, in order, with an empty field for a leading or trailing run.
   */
  lemma {:induction false} SplitWordsMeaning(s: string)
    ensures Join(SplitWords(s), " ") == Collapse(s)
    decreases |s|
  {
    var w := TakeUntil(s, IsSpace);
    if |w| == |s| {
      CollapseWord(s, "");
      assert s + "" == s;
    } else {
      var t := s[|w|..];
      var rest := DropWhile(t, IsSpace);
      assert s == w + t;
      CollapseRun(w, t);
      assert SplitWords(s) == [w] + SplitWords(rest);
      SplitWordsMeaning(rest);
      JoinCons(w, SplitWords(rest), " ");
    }
  }

  /** `Collapse` of a word, then a white-space run, then the rest. */
  lemma CollapseRun(w: string, t: string)
    requires NoSpace(w) && |t| > 0 && IsSpace(t[0])
    ensures Collapse(w + t) == w + " " + Collapse(DropWhile(t, IsSpace))
  {
    CollapseWord(w, t);
  }

  /** Joining a first word onto at least one more. */
  lemma JoinCons(w: string, tail: seq<string>, sep: string)
    requires |tail| >= 1
    ensures Join([w] + tail, sep) == w + sep + Join(tail, sep)
  {
    assert ([w] + tail)[1..] == tail;
  }

  /** A text without white space is one field. */
  lemma SplitOne(w: string)
    requires NoSpace(w)
    ensures SplitWords(w) == [w]
  {
    assert w + "" == w;
    TakeUntilSplit(w, "", IsSpace);
  }

  /** A word, one space and a text that does not start with white space split at that space. */
  lemma SplitStep(w: string, t: string)
    requires NoSpace(w)
    requires |t| == 0 || !IsSpace(t[0])
    ensures SplitWords(w + " " + t) == [w] + SplitWords(t)
  {
    var s := w + " " + t;
    assert s == w + (" " + t);
    TakeUntilSplit(w, " " + t, IsSpace);
    assert s[|w|..] == " " + t;
    DropOneSpace(t);
  }

  /** Dropping the white space in front of a text that starts with one space and then no more. */
  lemma DropOneSpace(t: string)
    requires |t| == 0 || !IsSpace(t[0])
    ensures DropWhile(" " + t, IsSpace) == t
  {
    assert (" " + t)[1..] == t;
  }

  /** Fields that `SplitWords` can give back: none holds white space, and only the first and the last may be empty. */
  predicate Fields(ws: seq<string>) {
    && |ws| >= 1
    && (forall k :: 0 <= k < |ws| ==> NoSpace(ws[k]))
    && (forall k :: 0 < k < |ws| - 1 ==> ws[k] != "")
  }

  /** Splitting undoes joining with single spaces. */
  lemma {:induction false} SplitJoin(ws: seq<string>)
    requires Fields(ws)
    ensures SplitWords(Join(ws, " ")) == ws
    decreases |ws|
  {
    if |ws| == 1 {
      SplitOne(ws[0]);
    } else {
      FieldsTail(ws);
      SplitJoin(ws[1..]);
      SplitJoinStep(ws);
    }
  }

  /** The fields after the first are fields too. */
  lemma FieldsTail(ws: seq<string>)
    requires Fields(ws) && |ws| >= 2
    ensures Fields(ws[1..])
  {
    var rest := ws[1..];
    assert forall k :: 0 <= k < |rest| ==> rest[k] == ws[k + 1];
  }

  /** The step of `SplitJoin`: a first word in front of fields that already split back. */
  lemma SplitJoinStep(ws: seq<string>)
    requires Fields(ws) && |ws| >= 2
    requires SplitWords(Join(ws[1..], " ")) == ws[1..]
    ensures SplitWords(Join(ws, " ")) == ws
  {
    var w, rest := ws[0], ws[1..];
    assert ws == [w] + rest;
    calc {
      SplitWords(Join(ws, " "));
      SplitWords(Join([w] + rest, " "));
      { assert NoSpace(w) && NoSpace(rest[0]) && (|rest| > 1 ==> rest[0] != "");
        ConsSplit(w, rest); }
      [w] + rest;
    }
  }

  /** Splitting a word joined in front of fields that split back. */
  lemma ConsSplit(w: string, rest: seq<string>)
    requires |rest| >= 1 && NoSpace(w) && NoSpace(rest[0])
    requires |rest| > 1 ==> rest[0] != ""
    requires SplitWords(Join(rest, " ")) == rest
    ensures SplitWords(Join([w] + rest, " ")) == [w] + rest
  {
    var tail := Join(rest, " ");
    assert |tail| == 0 || !IsSpace(tail[0]) by {
      JoinStart(rest, " ");
    }
    assert ([w] + rest)[1..] == rest;
    assert Join([w] + rest, " ") == w + " " + tail;
    SplitStep(w, tail);
  }

  /** A joined text starts with its first word. */
  lemma JoinStart(ws: seq<string>, sep: string)
    requires |ws| >= 1
    ensures |ws| == 1 ==> Join(ws, sep) == ws[0]
    ensures ws[0] != "" ==> |Join(ws, sep)| > 0 && Join(ws, sep)[0] == ws[0][0]
  {
  }

  /** Appending to a joined text appends to its last word. */
  lemma {:induction false} JoinAppend(ws: seq<string>, sep: string, suffix: string)
    requires |ws| >= 1
    ensures Join(ws, sep) + suffix == Join(ws[..|ws| - 1] + [ws[|ws| - 1] + suffix], sep)
    decreases |ws|
  {
    var last := ws[..|ws| - 1] + [ws[|ws| - 1] + suffix];
    if |ws| > 1 {
      JoinAppend(ws[1..], sep, suffix);
      assert last[0] == ws[0];
      assert last[1..] == ws[1..][..|ws| - 2] + [ws[|ws| - 1] + suffix];
    }
  }

  /** Upper-casing a word of lower-case ASCII letters and lower-casing it again gives it back. */
  lemma CaseRoundTrip(s: string)
    requires forall i :: 0 <= i < |s| ==> 'a' <= s[i] <= 'z'
    ensures ToLower(ToUpper(s)) == s
  {
  }
}
