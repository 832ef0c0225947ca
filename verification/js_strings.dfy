/**
 * The JavaScript string primitives the modelled code relies on, stated over
 * `seq<char>`: `trim`, `toLowerCase`, `includes`, `indexOf`, `startsWith`,
 * `split` on one character with `pop`, and global single-character `replace`.
 */
module JsStrings {

  /** ECMAScript WhiteSpace and LineTerminator code points: what `trim` strips and what `\s` matches. */
  predicate IsWhitespace(c: char) {
    || c == '\t' || c == '\n' || c == '\U{B}' || c == '\U{C}' || c == '\r' || c == ' '
    || c == '\U{A0}' || c == '\U{1680}' || ('\U{2000}' <= c <= '\U{200A}')
    || c == '\U{2028}' || c == '\U{2029}' || c == '\U{202F}' || c == '\U{205F}'
    || c == '\U{3000}' || c == '\U{FEFF}'
  }

  predicate IsDigit(c: char) {
    '0' <= c <= '9'
  }

  /** `String.prototype.trimStart`: drops the leading whitespace and nothing else. */
  function TrimStart(s: string): (r: string)
    ensures |r| <= |s| && r == s[|s| - |r|..]
    ensures forall i :: 0 <= i < |s| - |r| ==> IsWhitespace(s[i])
    ensures r == [] || !IsWhitespace(r[0])
  {
    if |s| > 0 && IsWhitespace(s[0]) then TrimStart(s[1..]) else s
  }

  /** `String.prototype.trimEnd`: drops the trailing whitespace and nothing else. */
  function TrimEnd(s: string): (r: string)
    ensures |r| <= |s| && r == s[..|r|]
    ensures forall i :: |r| <= i < |s| ==> IsWhitespace(s[i])
    ensures r == [] || !IsWhitespace(r[|r| - 1])
  {
    if |s| > 0 && IsWhitespace(s[|s| - 1]) then TrimEnd(s[..|s| - 1]) else s
  }

  /** `String.prototype.trim`. */
  function Trim(s: string): string {
    TrimEnd(TrimStart(s))
  }

  /** A string that `trim()` turns into `''` (JavaScript: `!s.trim()`): nothing but whitespace. */
  predicate IsBlank(s: string) {
    forall i :: 0 <= i < |s| ==> IsWhitespace(s[i])
  }

  /** `IsBlank` is exactly `trim()` giving the empty string. */
  lemma BlankIffTrimEmpty(s: string)
    ensures IsBlank(s) <==> Trim(s) == ""
  {
    var t := TrimStart(s);
    if Trim(s) == "" {
      assert |t| == 0;
    }
    if IsBlank(s) {
      assert |t| == 0;
    }
  }

  /** `toLowerCase` on the code points the source's data uses: ASCII and Latin-1 capitals. */
  function LowerChar(c: char): char {
    if 'A' <= c <= 'Z' || ('\U{C0}' <= c <= '\U{DE}' && c != '\U{D7}') then (c as int + 32) as char else c
  }

  function ToLower(s: string): (r: string)
    ensures |r| == |s|
  {
    seq(|s|, i requires 0 <= i < |s| => LowerChar(s[i]))
  }

  /** `toUpperCase` on ASCII letters. */
  function UpperChar(c: char): char {
    if 'a' <= c <= 'z' then (c as int - 32) as char else c
  }

  function ToUpper(s: string): (r: string)
    ensures |r| == |s|
  {
    seq(|s|, i requires 0 <= i < |s| => UpperChar(s[i]))
  }

  /** `sub` occurs in `s` starting at index `i`. */
  predicate OccursAt(s: string, sub: string, i: int) {
    0 <= i <= |s| - |sub| && s[i..i + |sub|] == sub
  }

  /** `String.prototype.includes`. */
  predicate Includes(s: string, sub: string) {
    exists i | 0 <= i <= |s| - |sub| :: OccursAt(s, sub, i)
  }

  /** `String.prototype.indexOf`: the first occurrence, or -1. */
  function IndexOf(s: string, sub: string): (r: int)
    ensures r == -1 || OccursAt(s, sub, r)
    ensures r == -1 <==> !Includes(s, sub)
    ensures forall i :: 0 <= i < r ==> !OccursAt(s, sub, i)
  {
    if sub <= s then
      assert OccursAt(s, sub, 0);
      0
    else if |s| <= |sub| then
      -1
    else
      var k := IndexOf(s[1..], sub);
      assert forall i :: 1 <= i ==> (OccursAt(s, sub, i) <==> OccursAt(s[1..], sub, i - 1));
      if k == -1 then -1 else k + 1
  }

  /** `s.split(sep)` for a one-character separator. */
  function Split(s: string, sep: char): (parts: seq<string>)
    ensures |parts| >= 1
    ensures |parts| == 1 <==> sep !in s
  {
    if |s| == 0 then [""]
    else
      var rest := Split(s[1..], sep);
      if s[0] == sep then [""] + rest
      else [[s[0]] + rest[0]] + rest[1..]
  }

  /** A text without the separator splits into itself. */
  lemma {:induction false} SplitNoSeparator(s: string, sep: char)
    requires sep !in s
    ensures Split(s, sep) == [s]
  {
    if |s| > 0 {
      SplitNoSeparator(s[1..], sep);
      assert [s[0]] + s[1..] == s;
    }
  }

  /** Splitting at the first separator: the text before it, then the split of the rest. */
  lemma {:induction false} SplitAtFirst(a: string, b: string, sep: char)
    requires sep !in a
    ensures Split(a + [sep] + b, sep) == [a] + Split(b, sep)
  {
    if |a| == 0 {
      assert a + [sep] + b == [sep] + b;
      assert ([sep] + b)[1..] == b;
    } else {
      var t := a[1..] + [sep] + b;
      assert a + [sep] + b == [a[0]] + t;
      assert a[0] != sep by { assert a[0] in a; }
      SplitAtFirst(a[1..], b, sep);
      SplitCons(a[0], t, sep);
      assert [a[0]] + a[1..] == a;
    }
  }

  /** A character other than the separator joins the first part. */
  lemma SplitCons(c: char, t: string, sep: char)
    requires c != sep
    ensures var rest := Split(t, sep); Split([c] + t, sep) == [[c] + rest[0]] + rest[1..]
  {
    assert ([c] + t)[1..] == t;
  }

  /** `parts.join(sep)`: the inverse of `Split`. */
  function Join(parts: seq<string>, sep: char): string
    requires |parts| >= 1
  {
    if |parts| == 1 then parts[0] else parts[0] + [sep] + Join(parts[1..], sep)
  }

  lemma {:induction false} JoinSplit(s: string, sep: char)
    ensures Join(Split(s, sep), sep) == s
  {
    if |s| > 0 {
      JoinSplit(s[1..], sep);
      if s[0] == sep {
        JoinSplitAtSeparator(s, sep);
      } else {
        JoinSplitOther(s, sep);
      }
    }
  }

  lemma JoinSplitAtSeparator(s: string, sep: char)
    requires |s| > 0 && s[0] == sep
    requires Join(Split(s[1..], sep), sep) == s[1..]
    ensures Join(Split(s, sep), sep) == s
  {
    var rest := Split(s[1..], sep);
    assert Split(s, sep) == [""] + rest;
    assert ([""] + rest)[1..] == rest;
    assert Join([""] + rest, sep) == "" + [sep] + Join(rest, sep);
    assert s == [sep] + s[1..];
  }

  lemma JoinSplitOther(s: string, sep: char)
    requires |s| > 0 && s[0] != sep
    requires Join(Split(s[1..], sep), sep) == s[1..]
    ensures Join(Split(s, sep), sep) == s
  {
    var rest := Split(s[1..], sep);
    var parts := Split(s, sep);
    assert parts == [[s[0]] + rest[0]] + rest[1..];
    assert s == [s[0]] + s[1..];
    if |rest| > 1 {
      assert parts[1..] == rest[1..];
      assert Join(parts, sep) == ([s[0]] + rest[0]) + [sep] + Join(rest[1..], sep);
      assert Join(rest, sep) == rest[0] + [sep] + Join(rest[1..], sep);
    }
  }

  /** The text after the last `sep` (all of `s` when it has none): `s.split(sep).pop()`, declaratively. */
  function AfterLast(s: string, sep: char): (r: string)
    ensures sep !in r
    ensures |r| <= |s| && r == s[|s| - |r|..]
    ensures |r| < |s| ==> s[|s| - |r| - 1] == sep
  {
    if sep !in s then s else AfterLast(s[1..], sep)
  }

  function Last<T>(xs: seq<T>): T
    requires |xs| >= 1
  {
    xs[|xs| - 1]
  }

  /** `s.split(sep).pop()` is the text after the last separator. */
  lemma {:induction false} SplitPopIsAfterLast(s: string, sep: char)
    ensures Last(Split(s, sep)) == AfterLast(s, sep)
  {
    if |s| > 0 {
      SplitPopIsAfterLast(s[1..], sep);
      if s[0] == sep {
        SplitPopAtSeparator(s, sep);
      } else if sep in s[1..] {
        SplitPopSeparatorLater(s, sep);
      } else {
        SplitPopNoSeparator(s, sep);
      }
    }
  }

  lemma SplitPopAtSeparator(s: string, sep: char)
    requires |s| > 0 && s[0] == sep
    requires Last(Split(s[1..], sep)) == AfterLast(s[1..], sep)
    ensures Last(Split(s, sep)) == AfterLast(s, sep)
  {
    var rest := Split(s[1..], sep);
    assert Last(Split(s, sep)) == Last(rest) by {
      assert Split(s, sep) == [""] + rest;
    }
    assert AfterLast(s, sep) == AfterLast(s[1..], sep) by {
      assert sep in s;
    }
  }

  lemma SplitPopSeparatorLater(s: string, sep: char)
    requires |s| > 0 && s[0] != sep && sep in s[1..]
    requires Last(Split(s[1..], sep)) == AfterLast(s[1..], sep)
    ensures Last(Split(s, sep)) == AfterLast(s, sep)
  {
    LastSplitLater(s, sep);
    assert sep in s by {
      assert s == [s[0]] + s[1..];
    }
  }

  /** A first character that is not the separator joins the first part, leaving the last part alone. */
  lemma LastSplitLater(s: string, sep: char)
    requires |s| > 0 && s[0] != sep && sep in s[1..]
    ensures Last(Split(s, sep)) == Last(Split(s[1..], sep))
  {
    var rest := Split(s[1..], sep);
    assert Split(s, sep) == [[s[0]] + rest[0]] + rest[1..];
  }

  lemma SplitPopNoSeparator(s: string, sep: char)
    requires |s| > 0 && s[0] != sep && sep !in s[1..]
    requires Last(Split(s[1..], sep)) == AfterLast(s[1..], sep)
    ensures Last(Split(s, sep)) == AfterLast(s, sep)
  {
    var rest := Split(s[1..], sep);
    assert |rest| == 1;
    assert Split(s, sep) == [[s[0]] + rest[0]];
    assert s == [s[0]] + s[1..];
    assert sep !in s;
  }

  /** `s.replace(/c/g, '')`: every `c` removed, everything else kept in order. */
  function RemoveChar(s: string, c: char): (r: string)
    ensures c !in r
    ensures |r| <= |s|
  {
    if |s| == 0 then "" else (if s[0] == c then "" else [s[0]]) + RemoveChar(s[1..], c)
  }

  lemma {:induction false} RemoveCharAppend(s: string, t: string, c: char)
    ensures RemoveChar(s + t, c) == RemoveChar(s, c) + RemoveChar(t, c)
  {
    if |s| > 0 {
      assert (s + t)[1..] == s[1..] + t;
      RemoveCharAppend(s[1..], t, c);
    } else {
      assert s + t == t;
    }
  }

  lemma {:induction false} RemoveCharAbsent(s: string, c: char)
    requires c !in s
    ensures RemoveChar(s, c) == s
  {
    if |s| > 0 {
      RemoveCharAbsent(s[1..], c);
    }
  }

  /** `s.replace(/[^…]/g, '')` for a kept-character class: the kept characters, in order. */
  function KeepChars(s: string, keep: char -> bool): (r: string)
    ensures |r| <= |s|
    ensures forall k :: 0 <= k < |r| ==> keep(r[k])
  {
    if |s| == 0 then "" else (if keep(s[0]) then [s[0]] else "") + KeepChars(s[1..], keep)
  }

  lemma {:induction false} KeepCharsAppend(s: string, t: string, keep: char -> bool)
    ensures KeepChars(s + t, keep) == KeepChars(s, keep) + KeepChars(t, keep)
  {
    if |s| > 0 {
      assert (s + t)[1..] == s[1..] + t;
      KeepCharsAppend(s[1..], t, keep);
    } else {
      assert s + t == t;
    }
  }

  lemma {:induction false} KeepCharsAll(s: string, keep: char -> bool)
    requires forall k :: 0 <= k < |s| ==> keep(s[k])
    ensures KeepChars(s, keep) == s
  {
    if |s| > 0 {
      KeepCharsAll(s[1..], keep);
    }
  }
}
