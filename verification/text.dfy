/** The handful of Python `str` operations the invoice layout relies on:
    `split()` on whitespace, `split(sep)`, `" ".join`, `strip()`, `rstrip(c)`,
    `replace`, `upper()` and `splitlines()`. Strings are sequences of code points. */
module Text {

  /** The characters Python's `str.split()` and `str.strip()` treat as whitespace. */
  predicate IsSpace(c: char)
  {
    ('\t' <= c <= '\r') || ('\U{1c}' <= c <= '\U{1f}') || c == ' ' || c == '\U{85}'
    || c == '\U{a0}' || c == '\U{1680}' || ('\U{2000}' <= c <= '\U{200a}')
    || c == '\U{2028}' || c == '\U{2029}' || c == '\U{202f}' || c == '\U{205f}'
    || c == '\U{3000}'
  }

  /** The characters at which Python's `str.splitlines()` ends a line. */
  predicate IsLineBreak(c: char)
  {
    ('\n' <= c <= '\r') || ('\U{1c}' <= c <= '\U{1e}') || c == '\U{85}'
    || c == '\U{2028}' || c == '\U{2029}'
  }

  predicate NoSpace(w: string)
  {
    forall i :: 0 <= i < |w| ==> !IsSpace(w[i])
  }

  /** What `str.split()` returns: non-empty runs of non-whitespace. */
  predicate IsWordList(ws: seq<string>)
  {
    forall i :: 0 <= i < |ws| ==> ws[i] != [] && NoSpace(ws[i])
  }

  predicate Excludes(w: string, c: char)
  {
    forall i :: 0 <= i < |w| ==> w[i] != c
  }

  /** `s.replace(a, b)` for single characters. */
  function ReplaceChar(s: string, a: char, b: char): (r: string)
    ensures |r| == |s|
    ensures forall i :: 0 <= i < |s| ==> r[i] == (if s[i] == a then b else s[i])
  {
    if s == [] then [] else [if s[0] == a then b else s[0]] + ReplaceChar(s[1..], a, b)
  }

  /** `s.replace(c, "")`: `s` without any `c`, the other characters in order. */
  function RemoveChar(s: string, c: char): (r: string)
    ensures |r| <= |s| && Excludes(r, c)
    ensures Excludes(s, c) ==> r == s
  {
    if s == [] then [] else (if s[0] == c then [] else [s[0]]) + RemoveChar(s[1..], c)
  }

  /** The length of the leading run of non-whitespace characters. */
  function WordLength(s: string): (n: nat)
    ensures n <= |s|
    ensures NoSpace(s[..n])
    ensures n < |s| ==> IsSpace(s[n])
  {
    if s == [] || IsSpace(s[0]) then 0 else 1 + WordLength(s[1..])
  }

  /** Python's `s.split()` with no argument. */
  function Words(s: string): (ws: seq<string>)
    ensures IsWordList(ws)
    decreases |s|
  {
    if s == [] then []
    else if IsSpace(s[0]) then Words(s[1..])
    else
      var n := WordLength(s);
      [s[..n]] + Words(s[n..])
  }

  /** `sep.join(ws)`. */
  function Join(ws: seq<string>, sep: string): string
  {
    if ws == [] then [] else if |ws| == 1 then ws[0] else ws[0] + sep + Join(ws[1..], sep)
  }

  /** The position of the first `c` in `s`, or `|s|` when there is none. */
  function IndexOf(s: string, c: char): (i: nat)
    ensures i <= |s|
    ensures i < |s| ==> s[i] == c
    ensures Excludes(s[..i], c)
  {
    if s == [] || s[0] == c then 0 else 1 + IndexOf(s[1..], c)
  }

  /** Python's `s.split(c)` for a one-character separator: the pieces between
      occurrences of `c`, empty pieces included. */
  function SplitOn(s: string, c: char): (ps: seq<string>)
    ensures |ps| >= 1
    ensures forall i :: 0 <= i < |ps| ==> Excludes(ps[i], c)
    ensures Join(ps, [c]) == s
    decreases |s|
  {
    var i := IndexOf(s, c);
    if i == |s| then [s]
    else
      var rest := SplitOn(s[i + 1..], c);
      assert s == s[..i] + [c] + s[i + 1..];
      [s[..i]] + rest
  }

  /** Splitting a joined list at the separator gives the list back, as long as
      no piece contains the separator. */
  lemma {:induction false} SplitJoin(ws: seq<string>, c: char)
    requires |ws| >= 1
    requires forall i :: 0 <= i < |ws| ==> Excludes(ws[i], c)
    ensures SplitOn(Join(ws, [c]), c) == ws
  {
    var s := Join(ws, [c]);
    if |ws| == 1 {
      IndexOfAbsent(ws[0], c);
    } else {
      var tail := Join(ws[1..], [c]);
      assert s == ws[0] + [c] + tail;
      IndexOfFirst(ws[0], c, tail);
      assert s[|ws[0]| + 1..] == tail;
      SplitJoin(ws[1..], c);
      assert s[..|ws[0]|] == ws[0];
    }
  }

  lemma {:induction false} IndexOfAbsent(s: string, c: char)
    requires Excludes(s, c)
    ensures IndexOf(s, c) == |s|
  {
    if s != [] {
      IndexOfAbsent(s[1..], c);
    }
  }

  lemma {:induction false} IndexOfFirst(w: string, c: char, t: string)
    requires Excludes(w, c)
    ensures IndexOf(w + [c] + t, c) == |w|
  {
    if w != [] {
      assert (w + [c] + t)[1..] == w[1..] + [c] + t;
      IndexOfFirst(w[1..], c, t);
    }
  }

  /** `str.split()` finds exactly the words of a space-joined word list: the
      collapsed text `" ".join(s.split())` splits back to the same words. */
  lemma {:induction false} WordsOfJoin(ws: seq<string>)
    requires IsWordList(ws)
    ensures Words(Join(ws, " ")) == ws
  {
    if ws == [] {
    } else if |ws| == 1 {
      WordsOfWord(ws[0], []);
      assert ws[0] + [] == ws[0];
    } else {
      var tail := Join(ws[1..], " ");
      assert Join(ws, " ") == ws[0] + (" " + tail);
      WordsOfWord(ws[0], " " + tail);
      assert (" " + tail)[1..] == tail;
      WordsOfJoin(ws[1..]);
    }
  }

  /** A word followed by nothing or by whitespace is the first word. */
  lemma {:induction false} WordsOfWord(w: string, t: string)
    requires w != [] && NoSpace(w)
    requires t == [] || IsSpace(t[0])
    ensures Words(w + t) == [w] + Words(t)
  {
    WordLengthOf(w, t);
    assert (w + t)[..|w|] == w;
    assert (w + t)[|w|..] == t;
    if t != [] {
      assert Words(t) == Words(t[1..]);
    }
  }

  lemma {:induction false} WordLengthOf(w: string, t: string)
    requires NoSpace(w)
    requires t == [] || IsSpace(t[0])
    ensures WordLength(w + t) == |w|
  {
    if w == [] {
      assert w + t == t;
    } else {
      assert (w + t)[1..] == w[1..] + t;
      WordLengthOf(w[1..], t);
    }
  }

  /** Joining a non-empty list of non-empty words gives non-empty text whose
      first and last characters are not whitespace. */
  lemma {:induction false} JoinEdges(ws: seq<string>)
    requires IsWordList(ws) && |ws| >= 1
    ensures Join(ws, " ") != []
    ensures Join(ws, " ")[0] == ws[0][0]
    ensures Join(ws, " ")[|Join(ws, " ")| - 1] == ws[|ws| - 1][|ws[|ws| - 1]| - 1]
  {
    if |ws| > 1 {
      JoinEdges(ws[1..]);
      var tail := Join(ws[1..], " ");
      assert Join(ws, " ") == ws[0] + " " + tail;
    }
  }

  /** Joining words one more at a time: the text grows by a space and the word. */
  lemma {:induction false} JoinSnoc(ws: seq<string>, w: string, sep: string)
    requires |ws| >= 1
    ensures Join(ws + [w], sep) == Join(ws, sep) + sep + w
  {
    if |ws| == 1 {
      assert (ws + [w])[1..] == [w];
    } else {
      assert (ws + [w])[1..] == ws[1..] + [w];
      JoinSnoc(ws[1..], w, sep);
    }
  }

  /** Joining a longer prefix of a word list extends the joined text. */
  lemma {:induction false} JoinPrefix(ws: seq<string>, k: nat, sep: string)
    requires 1 <= k <= |ws|
    ensures exists t :: Join(ws, sep) == Join(ws[..k], sep) + t
    decreases |ws| - k
  {
    if k == |ws| {
      assert ws[..k] == ws;
      assert Join(ws, sep) == Join(ws[..k], sep) + [];
    } else {
      JoinPrefix(ws, k + 1, sep);
      var t :| Join(ws, sep) == Join(ws[..k + 1], sep) + t;
      assert ws[..k + 1] == ws[..k] + [ws[k]];
      JoinSnoc(ws[..k], ws[k], sep);
      assert Join(ws, sep) == Join(ws[..k], sep) + (sep + ws[k] + t);
    }
  }

  /** The length of the leading run of whitespace. */
  function LeadingSpace(s: string): (n: nat)
    ensures n <= |s|
    ensures forall i :: 0 <= i < n ==> IsSpace(s[i])
    ensures n < |s| ==> !IsSpace(s[n])
  {
    if s == [] || !IsSpace(s[0]) then 0 else 1 + LeadingSpace(s[1..])
  }

  /** The length of the trailing run of whitespace. */
  function TrailingSpace(s: string): (n: nat)
    ensures n <= |s|
    ensures forall i :: |s| - n <= i < |s| ==> IsSpace(s[i])
    ensures n < |s| ==> !IsSpace(s[|s| - n - 1])
  {
    if s == [] || !IsSpace(s[|s| - 1]) then 0 else 1 + TrailingSpace(s[..|s| - 1])
  }

  /** Python's `s.strip()`: the text without its leading and trailing whitespace. */
  function Strip(s: string): (r: string)
    ensures |r| <= |s|
  {
    var i := LeadingSpace(s);
    var t := s[i..];
    t[..|t| - TrailingSpace(t)]
  }

  /** What is left after `strip()` is a slice of the text, with whitespace
      only on either side of it, and no whitespace at its ends. */
  lemma StripShape(s: string)
    ensures var r := Strip(s);
      r == [] || (!IsSpace(r[0]) && !IsSpace(r[|r| - 1]))
    ensures exists i, j :: (0 <= i <= j <= |s| && Strip(s) == s[i..j]
      && (forall k :: 0 <= k < i ==> IsSpace(s[k])) && (forall k :: j <= k < |s| ==> IsSpace(s[k])))
  {
    var i := LeadingSpace(s);
    var t := s[i..];
    var j := TrailingSpace(t);
    var e := i + |t| - j;
    assert forall k :: e <= k < |s| ==> IsSpace(s[k]) by {
      forall k | e <= k < |s| ensures IsSpace(s[k]) {
        assert s[k] == t[k - i];
      }
    }
    assert t[..|t| - j] == s[i..e];
  }

  /** Text that neither starts nor ends with whitespace is its own strip. */
  lemma StripUnchanged(s: string)
    requires s == [] || (!IsSpace(s[0]) && !IsSpace(s[|s| - 1]))
    ensures Strip(s) == s
  {
    if s != [] {
      assert LeadingSpace(s) == 0;
      assert s[0..] == s;
      assert TrailingSpace(s) == 0;
    }
  }

  /** Python's `s.rstrip(c)`: the longest prefix of `s` that does not end in `c`. */
  function RStrip(s: string, c: char): (r: string)
    ensures |r| <= |s| && r == s[..|r|]
    ensures r == [] || r[|r| - 1] != c
    ensures forall i :: |r| <= i < |s| ==> s[i] == c
  {
    if s == [] || s[|s| - 1] != c then s else RStrip(s[..|s| - 1], c)
  }

  /** Stripping trailing `c` from `a + b` reaches no further than `b` when `a`
      does not end in `c`. */
  lemma {:induction false} RStripAppend(a: string, b: string, c: char)
    requires a != [] && a[|a| - 1] != c
    ensures RStrip(a + b, c) == a + RStrip(b, c)
    decreases |b|
  {
    if b == [] {
      assert a + b == a;
    } else if b[|b| - 1] != c {
    } else {
      assert (a + b)[..|a + b| - 1] == a + b[..|b| - 1];
      RStripAppend(a, b[..|b| - 1], c);
    }
  }

  /** ASCII lower-case letters upper-cased; every other character unchanged
      (Python's `str.upper()` restricted to ASCII). */
  function Upper(s: string): (r: string)
    ensures |r| == |s|
    ensures forall i :: 0 <= i < |s| ==>
      r[i] == if 'a' <= s[i] <= 'z' then (s[i] as int - 32) as char else s[i]
  {
    if s == [] then []
    else [if 'a' <= s[0] <= 'z' then (s[0] as int - 32) as char else s[0]] + Upper(s[1..])
  }

  /** The length of the leading run of characters that do not end a line. */
  function LineLength(s: string): (n: nat)
    ensures n <= |s|
    ensures forall i :: 0 <= i < n ==> !IsLineBreak(s[i])
    ensures n < |s| ==> IsLineBreak(s[n])
  {
    if s == [] || IsLineBreak(s[0]) then 0 else 1 + LineLength(s[1..])
  }

  /** Python's `s.splitlines()`: the lines without their terminators, where
      "\r\n" ends one line and a final terminator starts no new line. */
  function SplitLines(s: string): (ls: seq<string>)
    ensures forall k, i :: 0 <= k < |ls| && 0 <= i < |ls[k]| ==> !IsLineBreak(ls[k][i])
    decreases |s|
  {
    if s == [] then []
    else
      var n := LineLength(s);
      if n == |s| then [s]
      else
        var skip := if s[n] == '\r' && n + 1 < |s| && s[n + 1] == '\n' then n + 2 else n + 1;
        [s[..n]] + SplitLines(s[skip..])
  }

  /** The characters of `s` that are not line terminators, in order. */
  function DropBreaks(s: string): string
  {
    if s == [] then [] else (if IsLineBreak(s[0]) then [] else [s[0]]) + DropBreaks(s[1..])
  }

  function Concat(ls: seq<string>): string
  {
    if ls == [] then [] else ls[0] + Concat(ls[1..])
  }

  lemma {:induction false} DropBreaksAppend(a: string, b: string)
    ensures DropBreaks(a + b) == DropBreaks(a) + DropBreaks(b)
  {
    if a == [] {
      assert a + b == b;
    } else {
      assert (a + b)[1..] == a[1..] + b;
      DropBreaksAppend(a[1..], b);
    }
  }

  lemma {:induction false} DropBreaksNone(a: string)
    requires forall i :: 0 <= i < |a| ==> !IsLineBreak(a[i])
    ensures DropBreaks(a) == a
  {
    if a != [] {
      DropBreaksNone(a[1..]);
    }
  }

  lemma {:induction false} DropBreaksAll(a: string)
    requires forall i :: 0 <= i < |a| ==> IsLineBreak(a[i])
    ensures DropBreaks(a) == []
  {
    if a != [] {
      DropBreaksAll(a[1..]);
    }
  }

  /** `splitlines` loses only the terminators: the lines, concatenated, are the
      text with every line-break character removed. */
  lemma {:induction false} SplitLinesKeepsText(s: string)
    ensures Concat(SplitLines(s)) == DropBreaks(s)
    decreases |s|
  {
    if s != [] {
      var n := LineLength(s);
      if n == |s| {
        DropBreaksNone(s);
        assert Concat([s]) == s + Concat([]);
      } else {
        var skip := if s[n] == '\r' && n + 1 < |s| && s[n + 1] == '\n' then n + 2 else n + 1;
        SplitLinesKeepsText(s[skip..]);
        BrokenLine(s, n, skip, SplitLines(s[skip..]));
        assert SplitLines(s) == [s[..n]] + SplitLines(s[skip..]);
      }
    }
  }

  /** One step of `SplitLinesKeepsText`: a line, its terminator, and the rest. */
  lemma BrokenLine(s: string, n: nat, skip: nat, ls: seq<string>)
    requires n < skip <= |s|
    requires forall i :: 0 <= i < n ==> !IsLineBreak(s[i])
    requires forall i :: n <= i < skip ==> IsLineBreak(s[i])
    requires Concat(ls) == DropBreaks(s[skip..])
    ensures Concat([s[..n]] + ls) == DropBreaks(s)
  {
    var a := s[..n];
    var b := s[n..skip];
    var c := s[skip..];
    assert s == a + b + c;
    DropBreaksAppend(a, b);
    DropBreaksNone(a);
    DropBreaksAll(b);
    assert DropBreaks(a + b) == a;
    DropBreaksAppend(a + b, c);
    assert DropBreaks(s) == a + DropBreaks(c);
    assert ([a] + ls)[1..] == ls;
    assert Concat([a] + ls) == a + Concat(ls);
  }

  /** The non-empty strings of a list, in order (the `if not ln: continue` filter). */
  function NonEmpty(ls: seq<string>): (r: seq<string>)
    ensures |r| <= |ls|
    ensures forall i :: 0 <= i < |r| ==> r[i] != []
  {
    if ls == [] then [] else (if ls[0] == [] then [] else [ls[0]]) + NonEmpty(ls[1..])
  }
}
