/** The JavaScript string and array primitives that the parser and the
    builders rely on, with their edge cases written out: negative and
    out-of-range slice indices, the empty string's split, which characters
    `trim` removes. */
module Text {

  /** The platform line separator `os.EOL`, fixed to "\n". */
  const Eol: string := "\n"

  /** Extending a prefix by one element. */
  lemma TakeSnoc<T>(s: seq<T>, k: nat)
    requires k < |s|
    ensures s[..k + 1] == s[..k] + [s[k]]
  {
  }

  /** `part` occurs in `all` starting at index `i`. */
  ghost predicate OccursAt<T>(all: seq<T>, i: nat, part: seq<T>)
  {
    i + |part| <= |all| && all[i..i + |part|] == part
  }

  /** The second of seven concatenated parts sits right after the first. */
  lemma SecondOfSeven<T>(all: seq<T>, m: seq<T>, n: seq<T>, a: seq<T>, b: seq<T>, c: seq<T>, d: seq<T>, e: seq<T>)
    requires all == m + n + a + b + c + d + e
    ensures OccursAt(all, |m|, n)
  {
    assert all == (m + n) + (a + b + c + d + e);
  }

  /** How `Array.prototype.slice` reads an index: a negative one counts from
      the end, and the result is clamped to `[0, len]`. */
  function RelativeIndex(k: int, len: nat): (r: nat)
    ensures r <= len
    ensures 0 <= k <= len ==> r == k
  {
    if k < 0 then (if len + k < 0 then 0 else len + k)
    else if k > len then len
    else k
  }

  /** `s.slice(start, end)`. */
  function Slice<T>(s: seq<T>, start: int, end: int): (r: seq<T>)
    ensures |r| <= |s|
    ensures 0 <= start <= end <= |s| ==> r == s[start..end]
    ensures 0 <= start <= |s| <= end ==> r == s[start..]
  {
    var from, to := RelativeIndex(start, |s|), RelativeIndex(end, |s|);
    if from < to then s[from..to] else []
  }

  /** `s.substring(start, end)`: both indices are clamped to `[0, |s|]`
      (a negative one becomes 0) and swapped when `start > end`. */
  function Substring(s: string, start: int, end: int): (r: string)
    ensures |r| <= |s|
  {
    var a := if start < 0 then 0 else if start > |s| then |s| else start;
    var b := if end < 0 then 0 else if end > |s| then |s| else end;
    if a <= b then s[a..b] else s[b..a]
  }

  /** `parts.join(sep)`. */
  function Join(parts: seq<string>, sep: string): string
  {
    if |parts| == 0 then ""
    else if |parts| == 1 then parts[0]
    else parts[0] + sep + Join(parts[1..], sep)
  }

  /** `s.split(/\r?\n/)`: the pieces between line breaks, a break being
      "\r\n" or a lone "\n"; a "\r" that no "\n" follows stays in its line.
      The empty string splits into one empty line. */
  function SplitLines(s: string): (lines: seq<string>)
    ensures |lines| >= 1
  {
    if |s| == 0 then [""]
    else if s[0] == '\n' then [""] + SplitLines(s[1..])
    else if s[0] == '\r' && |s| > 1 && s[1] == '\n' then [""] + SplitLines(s[2..])
    else var rest := SplitLines(s[1..]); [[s[0]] + rest[0]] + rest[1..]
  }

  /** `s.split(c)` for a one-character separator. */
  function Split(s: string, c: char): (parts: seq<string>)
    ensures |parts| >= 1
  {
    if |s| == 0 then [""]
    else
      var rest := Split(s[1..], c);
      if s[0] == c then [""] + rest else [[s[0]] + rest[0]] + rest[1..]
  }

  /** `s.replace(/c/g, d)` for single characters `c` and `d`. */
  function ReplaceChar(s: string, c: char, d: char): (r: string)
  {
    if |s| == 0 then "" else [if s[0] == c then d else s[0]] + ReplaceChar(s[1..], c, d)
  }

  /** The characters `String.prototype.trim` removes: ECMAScript WhiteSpace
      and LineTerminator. */
  predicate IsJsSpace(ch: char)
  {
    || ch in {'\t', '\n', '\U{B}', '\U{C}', '\r', ' ', '\U{A0}', '\U{1680}'}
    || ('\U{2000}' <= ch <= '\U{200A}')
    || ch in {'\U{2028}', '\U{2029}', '\U{202F}', '\U{205F}', '\U{3000}', '\U{FEFF}'}
  }

  function TrimStart(s: string): string
  {
    if |s| > 0 && IsJsSpace(s[0]) then TrimStart(s[1..]) else s
  }

  function TrimEnd(s: string): string
  {
    if |s| > 0 && IsJsSpace(s[|s| - 1]) then TrimEnd(s[..|s| - 1]) else s
  }

  /** `s.trim()`. */
  function Trim(s: string): string
  {
    TrimEnd(TrimStart(s))
  }

  /** `s.toLowerCase()` restricted to ASCII letters. */
  function LowerAscii(s: string): (r: string)
  {
    if |s| == 0 then ""
    else [if 'A' <= s[0] <= 'Z' then (s[0] as int + 32) as char else s[0]] + LowerAscii(s[1..])
  }

  predicate EndsWithCr(line: string)
  {
    |line| > 0 && line[|line| - 1] == '\r'
  }

  /** Replacing every `c` by `d` through `split` and `join`, as
      `name.split('.').join('_')` does, is the character-wise replacement. */
  lemma {:induction false} JoinSplitIsReplace(s: string, c: char, d: char)
    ensures Join(Split(s, c), [d]) == ReplaceChar(s, c, d)
  {
    if |s| > 0 {
      JoinSplitIsReplace(s[1..], c, d);
      var rest := Split(s[1..], c);
      if s[0] == c {
        var ps := [""] + rest;
        assert ps[1..] == rest;
        assert Join(ps, [d]) == "" + [d] + Join(rest, [d]);
      } else {
        JoinConsFirst([s[0]], rest, [d]);
      }
      assert ReplaceChar(s, c, d) == [if s[0] == c then d else s[0]] + ReplaceChar(s[1..], c, d);
    }
  }

  /** Prepending `x` to the first part prepends it to the joined string. */
  lemma JoinConsFirst(x: string, parts: seq<string>, sep: string)
    requires |parts| >= 1
    ensures Join([x + parts[0]] + parts[1..], sep) == x + Join(parts, sep)
  {
    var ps := [x + parts[0]] + parts[1..];
    if |parts| > 1 {
      assert ps[1..] == parts[1..];
    }
  }

  /** A text without line breaks is a single line. */
  lemma {:induction false} SplitLinesSingle(x: string)
    requires '\n' !in x
    ensures SplitLines(x) == [x]
  {
    if |x| > 0 {
      assert x[0] in x && '\n' !in x[1..];
      SplitLinesSingle(x[1..]);
      assert [x[0]] + x[1..] == x;
    }
  }

  /** A line that neither contains "\n" nor ends in "\r", followed by "\n",
      is split off as the first line. */
  lemma {:induction false} SplitLinesFirst(x: string, rest: string)
    requires '\n' !in x && !EndsWithCr(x)
    ensures SplitLines(x + "\n" + rest) == [x] + SplitLines(rest)
  {
    var s := x + "\n" + rest;
    if |x| == 0 {
      assert s[0] == '\n' && s[1..] == rest;
    } else {
      assert s[1..] == x[1..] + "\n" + rest;
      assert !(s[0] == '\r' && s[1] == '\n') by {
        if |x| == 1 { assert s[0] == x[0] == x[|x| - 1]; }
        else { assert s[1] == x[1]; }
      }
      assert !EndsWithCr(x[1..]) by {
        if |x[1..]| > 0 { assert x[1..][|x[1..]| - 1] == x[|x| - 1]; }
      }
      SplitLinesFirst(x[1..], rest);
      assert [s[0]] + x[1..] == x;
    }
  }

  /** Joining lines with "\n" and splitting the result on `/\r?\n/` gives
      the lines back, provided no line holds a "\n" and no line but the last
      ends in "\r" (such a "\r" would merge with the joining "\n"). */
  lemma {:induction false} SplitJoinLines(lines: seq<string>)
    requires |lines| >= 1
    requires forall i :: 0 <= i < |lines| ==> '\n' !in lines[i]
    requires forall i :: 0 <= i < |lines| - 1 ==> !EndsWithCr(lines[i])
    ensures SplitLines(Join(lines, "\n")) == lines
  {
    if |lines| == 1 {
      SplitLinesSingle(lines[0]);
    } else {
      SplitJoinLines(lines[1..]);
      SplitLinesFirst(lines[0], Join(lines[1..], "\n"));
      assert Join(lines, "\n") == lines[0] + "\n" + Join(lines[1..], "\n");
    }
  }

  /** No line produced by `SplitLines` contains "\n". */
  lemma {:induction false} SplitLinesHaveNoBreak(s: string)
    ensures forall i :: 0 <= i < |SplitLines(s)| ==> '\n' !in SplitLines(s)[i]
  {
    if |s| > 0 {
      if s[0] == '\r' && |s| > 1 && s[1] == '\n' {
        SplitLinesHaveNoBreak(s[2..]);
      } else {
        SplitLinesHaveNoBreak(s[1..]);
      }
    }
  }
  /** `ReplaceChar` keeps the length and replaces character by character. */
  lemma {:induction false} ReplaceCharAt(s: string, c: char, d: char)
    ensures |ReplaceChar(s, c, d)| == |s|
    ensures forall i :: 0 <= i < |s| ==> ReplaceChar(s, c, d)[i] == (if s[i] == c then d else s[i])
  {
    if |s| > 0 {
      ReplaceCharAt(s[1..], c, d);
      assert forall i :: 1 <= i < |s| ==> s[i] == s[1..][i - 1];
    }
  }

  /** Appending a part appends the separator and the part. */
  lemma {:induction false} JoinSnoc(parts: seq<string>, x: string, sep: string)
    requires |parts| >= 1
    ensures Join(parts + [x], sep) == Join(parts, sep) + sep + x
  {
    var ps := parts + [x];
    if |parts| == 1 {
      assert ps[1..] == [x];
    } else {
      assert ps[1..] == parts[1..] + [x];
      JoinSnoc(parts[1..], x, sep);
    }
  }
  /** A text without the separator is one part. */
  lemma {:induction false} SplitWithout(s: string, c: char)
    requires c !in s
    ensures Split(s, c) == [s]
  {
    if |s| > 0 {
      assert s[0] in s && c !in s[1..];
      SplitWithout(s[1..], c);
      assert [s[0]] + s[1..] == s;
    }
  }

  /** The text up to the first separator is the first part. */
  lemma {:induction false} SplitFirst(x: string, c: char, rest: string)
    requires c !in x
    ensures Split(x + [c] + rest, c) == [x] + Split(rest, c)
  {
    var s := x + [c] + rest;
    if |x| == 0 {
      assert s[0] == c && s[1..] == rest;
    } else {
      assert s[1..] == x[1..] + [c] + rest;
      assert x[0] in x && c !in x[1..];
      SplitFirst(x[1..], c, rest);
      assert [x[0]] + x[1..] == x;
    }
  }
}
