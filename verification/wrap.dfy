/** Description wrapping for the drawn invoice rows (app/pdf/pdf_draw.py):
    `wrap_text`, which keeps at most two lines and marks cut text with "…",
    and the older `_wrap_text`, which keeps every line.

    Text width is the font's `stringWidth`, which lives in the PDF library; it
    is a parameter `W` here. No lemma assumes anything of it unless it says so. */
module Wrap {
  import opened Text

  /** The horizontal ellipsis U+2026. */
  const Ellipsis: string := "\U{2026}"

  type Width = string -> real

  /** Widening text never makes it narrower. */
  ghost predicate Monotone(W: Width)
  {
    forall s: string, t: string :: W(s) <= W(s + t)
  }

  /** Two or more lines to one: what `" ".join(ws)` gives. */
  function Line(ws: seq<string>): string
  {
    Join(ws, " ")
  }

  /** The loop `while cut and W(cut + "…") > max: cut = cut[:-1]`: the longest
      prefix of `cut` that still fits together with an ellipsis, or empty. */
  function TrimToFit(W: Width, max: real, cut: string): (p: string)
    ensures |p| <= |cut| && p == cut[..|p|]
    ensures p == [] || W(p + Ellipsis) <= max
    ensures forall k :: |p| < k <= |cut| ==> W(cut[..k] + Ellipsis) > max
    decreases |cut|
  {
    if cut == [] || W(cut + Ellipsis) <= max then cut
    else
      var shorter := cut[..|cut| - 1];
      var p := TrimToFit(W, max, shorter);
      assert forall k :: |p| < k < |cut| ==> shorter[..k] == cut[..k];
      assert cut[..|cut|] == cut;
      p
  }

  /** A single word too wide for the line: its longest fitting prefix and "…"
      (the first branch of `fit_line`). When no non-empty prefix fits, this is
      "…" alone. */
  function CutWord(W: Width, max: real, w: string): (r: string)
    ensures r == Ellipsis || W(r) <= max
    ensures |r| >= 1 && r[|r| - 1] == Ellipsis[0]
  {
    var cut := TrimToFit(W, max, w);
    if cut != [] then cut + Ellipsis else Ellipsis
  }

  /** The outcome of `fit_line`: the line, the words left over, and whether it overflowed. */
  datatype Fit = Fit(line: string, rest: seq<string>, overflowed: bool)

  /** Every non-empty prefix of the first `k` words fits on one line. */
  predicate PrefixesFit(W: Width, max: real, words: seq<string>, k: nat)
    requires k <= |words|
  {
    forall j :: 1 <= j <= k ==> W(Line(words[..j])) <= max
  }

  /** `f` is the longest run of leading words all of whose prefixes fit on
      one line, with the remaining words handed on; it overflowed exactly when
      words remain. */
  predicate Greedy(W: Width, max: real, words: seq<string>, f: Fit)
  {
    var k := |words| - |f.rest|;
    1 <= k <= |words| && f.rest == words[k..] && f.line == Line(words[..k])
    && PrefixesFit(W, max, words, k)
    && (k < |words| ==> W(Line(words[..k + 1])) > max)
    && f.overflowed == (k < |words|)
  }

  /** `fit_line(words)` from `wrap_text`. Either the first word alone is too
      wide and is cut, or the line is the greedy run of leading words. At least
      one word is always consumed. */
  function FitLine(W: Width, max: real, words: seq<string>): (f: Fit)
    requires IsWordList(words)
    ensures words == [] ==> f == Fit("", [], false)
    ensures words != [] ==> |f.rest| < |words| && f.rest == words[|words| - |f.rest|..]
    ensures words != [] && W(words[0]) > max ==>
      f == Fit(CutWord(W, max, words[0]), words[1..], true)
    ensures words != [] && W(words[0]) <= max ==> Greedy(W, max, words, f)
  {
    if words == [] then Fit("", [], false) else FitFrom(W, max, words, 0)
  }

  /** The `for` loop of `fit_line` once `words[..i]` are on the line. */
  function FitFrom(W: Width, max: real, words: seq<string>, i: nat): (f: Fit)
    requires IsWordList(words) && i <= |words| && words != []
    requires i >= 1 ==> W(words[0]) <= max && PrefixesFit(W, max, words, i)
    ensures |f.rest| <= |words| - i && f.rest == words[|words| - |f.rest|..]
    ensures i == 0 && W(words[0]) > max ==>
      f == Fit(CutWord(W, max, words[0]), words[1..], true)
    ensures i >= 1 || W(words[0]) <= max ==> Greedy(W, max, words, f)
    decreases |words| - i
  {
    if i == |words| then
      GreedyStop(W, max, words, i);
      Fit(Line(words[..i]), [], false)
    else
      var w := words[i];
      var trial := Strip(Line(words[..i] + [w]));
      TrialIsLine(words, i);
      if i == 0 && W(w) > max then
        Fit(CutWord(W, max, w), words[i + 1..], true)
      else if W(trial) <= max then
        ExtendFit(W, max, words, i);
        FitFrom(W, max, words, i + 1)
      else
        GreedyStop(W, max, words, i);
        Fit(Line(words[..i]), words[i..], true)
  }

  /** Stopping after `i` words whose every prefix fits, because the next
      word would not or none is left, is greedy. */
  lemma GreedyStop(W: Width, max: real, words: seq<string>, i: nat)
    requires 1 <= i <= |words| && PrefixesFit(W, max, words, i)
    requires i < |words| ==> W(Line(words[..i + 1])) > max
    ensures Greedy(W, max, words, Fit(Line(words[..i]), words[i..], i < |words|))
  {
  }

  lemma ExtendFit(W: Width, max: real, words: seq<string>, i: nat)
    requires i < |words| && (i >= 1 ==> PrefixesFit(W, max, words, i))
    requires W(Line(words[..i + 1])) <= max
    ensures PrefixesFit(W, max, words, i + 1)
  {
  }

  /** The `trial` of `fit_line` is the joined prefix itself: words carry no
      whitespace, so stripping changes nothing. */
  lemma TrialIsLine(words: seq<string>, i: nat)
    requires IsWordList(words) && i < |words|
    ensures Strip(Line(words[..i] + [words[i]])) == Line(words[..i + 1])
  {
    assert words[..i] + [words[i]] == words[..i + 1];
    assert IsWordList(words[..i + 1]);
    JoinEdges(words[..i + 1]);
    StripUnchanged(Line(words[..i + 1]));
  }

  predicate EndsWithSpacedEllipsis(t: string)
  {
    |t| >= 2 && t[|t| - 2..] == " " + Ellipsis
  }

  /** The trimming loop for an overflowing second line:
      `while t and W(t) > max: t = t[:-2] + "…" if t.endswith(" …") else t[:-1]`.
      It ends with text that fits, or with nothing. */
  function TrimLine(W: Width, max: real, t: string): (r: string)
    ensures r == [] || W(r) <= max
    ensures |r| <= |t|
    decreases |t|
  {
    if t == [] || W(t) <= max then t
    else if EndsWithSpacedEllipsis(t) then TrimLine(W, max, t[..|t| - 2] + Ellipsis)
    else TrimLine(W, max, t[..|t| - 1])
  }

  /** The text after `s.replace("\r", " ").replace("\n", " ")` and splitting on whitespace. */
  function WordsOf(text: string): (ws: seq<string>)
    ensures IsWordList(ws)
  {
    Words(ReplaceChar(ReplaceChar(text, '\r', ' '), '\n', ' '))
  }

  /** `" ".join(s.split())`: the text with all whitespace runs collapsed to one space. */
  function Collapse(text: string): string
  {
    Line(WordsOf(text))
  }

  /** `wrap_text(text, max)`: one or two lines; `[""]` exactly when the text
      has no words; otherwise every line fits or is the bare ellipsis. */
  function WrapText(W: Width, max: real, text: string): (r: seq<string>)
    ensures 1 <= |r| <= 2
    ensures r == [""] <==> Collapse(text) == []
    ensures Collapse(text) != [] ==> forall i :: 0 <= i < |r| ==> Shown(W, max, r[i])
  {
    var ws := WordsOf(text);
    var s := Line(ws);
    if s == [] then [""]
    else
      SplitCollapsed(ws);
      WrapWords(W, max, SplitOn(s, ' '))
  }

  /** `wrap_text` from the point where the collapsed text has been split into
      its words: the first fitted line, then the second when words are left. */
  function WrapWords(W: Width, max: real, words: seq<string>): (r: seq<string>)
    requires IsWordList(words) && words != []
    ensures 1 <= |r| <= 2
    ensures forall i :: 0 <= i < |r| ==> Shown(W, max, r[i])
  {
    var f1 := FitLine(W, max, words);
    LineShown(W, max, words);
    if f1.rest == [] then [f1.line] else [f1.line, SecondLine(W, max, f1.rest)]
  }

  /** A line as `wrap_text` shows it: non-empty, and either within the width or
      the bare ellipsis. */
  predicate Shown(W: Width, max: real, line: string)
  {
    line != [] && (line == Ellipsis || W(line) <= max)
  }

  /** The second line of `wrap_text`, fitted from the words the first left over;
      when words remain after it, " …" is appended and the result trimmed. */
  function SecondLine(W: Width, max: real, rest: seq<string>): (line: string)
    requires IsWordList(rest) && rest != []
    ensures Shown(W, max, line)
  {
    var f2 := FitLine(W, max, rest);
    LineShown(W, max, rest);
    if f2.rest != [] then
      var t := TrimLine(W, max, Strip(f2.line + " " + Ellipsis));
      if t != [] then t else Ellipsis
    else f2.line
  }

  /** `wrap_text` on text with words wraps exactly those words. */
  lemma WrapTextWords(W: Width, max: real, text: string)
    requires Collapse(text) != []
    ensures WrapText(W, max, text) == WrapWords(W, max, WordsOf(text))
  {
    SplitCollapsed(WordsOf(text));
  }

  /** `s.split(" ")` of collapsed text gives back its words. */
  lemma SplitCollapsed(ws: seq<string>)
    requires IsWordList(ws)
    ensures Line(ws) != [] ==> SplitOn(Line(ws), ' ') == ws
    ensures Line(ws) == [] <==> ws == []
  {
    if ws != [] {
      JoinEdges(ws);
      forall i | 0 <= i < |ws| ensures Excludes(ws[i], ' ') {
        assert forall k :: 0 <= k < |ws[i]| ==> !IsSpace(ws[i][k]);
      }
      SplitJoin(ws, ' ');
    }
  }

  /** A line made from at least one word, or a cut word, is shown. */
  lemma LineShown(W: Width, max: real, words: seq<string>)
    requires IsWordList(words) && words != []
    ensures Shown(W, max, FitLine(W, max, words).line)
  {
    var f := FitLine(W, max, words);
    if W(words[0]) <= max {
      var k := |words| - |f.rest|;
      JoinEdges(words[..k]);
    }
  }

  /** Joining the words of a text at a word boundary: the two halves with a space between. */
  lemma {:induction false} LineSplit(ws: seq<string>, k: nat)
    requires 1 <= k < |ws|
    ensures Line(ws) == Line(ws[..k]) + " " + Line(ws[k..])
    decreases k
  {
    if k == 1 {
      assert ws[..1] == [ws[0]];
      assert ws[1..] == ws[k..];
    } else {
      LineSplit(ws[1..], k - 1);
      assert ws[1..][..k - 1] == ws[..k][1..];
      assert ws[1..][k - 1..] == ws[k..];
    }
  }

  lemma LineOne(a: string)
    ensures Line([a]) == a
  {
  }

  lemma LineTwo(a: string, b: string)
    ensures Line([a, b]) == a + " " + b
  {
    assert [a, b][1..] == [b];
    LineOne(b);
  }

  /** Under a monotone width, a joined prefix of the words is no wider than all of them. */
  lemma PrefixNarrower(W: Width, ws: seq<string>, k: nat)
    requires Monotone(W) && 1 <= k <= |ws|
    ensures W(Line(ws[..k])) <= W(Line(ws))
  {
    if k < |ws| {
      LineSplit(ws, k);
      assert Line(ws) == Line(ws[..k]) + (" " + Line(ws[k..]));
    } else {
      assert ws[..k] == ws;
    }
  }

  /** Text that fits is returned whole as the only line (with a monotone width). */
  lemma WrapFits(W: Width, max: real, text: string)
    requires Monotone(W) && Collapse(text) != [] && W(Collapse(text)) <= max
    ensures WrapText(W, max, text) == [Collapse(text)]
  {
    WrapTextWords(W, max, text);
    WordsFit(W, max, WordsOf(text));
  }

  lemma WordsFit(W: Width, max: real, ws: seq<string>)
    requires Monotone(W) && IsWordList(ws) && ws != [] && W(Line(ws)) <= max
    ensures WrapWords(W, max, ws) == [Line(ws)]
  {
    PrefixNarrower(W, ws, 1);
    assert ws[..1] == [ws[0]];
    var f := FitLine(W, max, ws);
    var k := |ws| - |f.rest|;
    if k < |ws| {
      PrefixNarrower(W, ws, k + 1);
    }
    assert ws[..|ws|] == ws;
  }

  /** The first line when the first word fits: as many leading words as fit,
      every shorter run fitting too, and one more word would not; it is the
      only line exactly when all the words fit this way. */
  lemma FirstLineGreedy(W: Width, max: real, ws: seq<string>)
    requires IsWordList(ws) && ws != [] && W(ws[0]) <= max
    ensures var r := WrapWords(W, max, ws);
      (exists k :: 1 <= k <= |ws| && r[0] == Line(ws[..k]) && PrefixesFit(W, max, ws, k)
        && (k < |ws| ==> W(Line(ws[..k + 1])) > max))
      && (|r| == 1 <==> PrefixesFit(W, max, ws, |ws|))
  {
    var f := FitLine(W, max, ws);
    GreedyAll(W, max, ws, f);
    var r := WrapWords(W, max, ws);
    assert r[0] == f.line && (|r| == 1 <==> f.rest == []);
  }

  /** A greedy line takes every word exactly when every prefix fits. */
  lemma GreedyAll(W: Width, max: real, ws: seq<string>, f: Fit)
    requires Greedy(W, max, ws, f)
    ensures f.rest == [] <==> PrefixesFit(W, max, ws, |ws|)
  {
    var k := |ws| - |f.rest|;
    if k < |ws| {
      assert W(Line(ws[..k + 1])) > max;
    }
  }

  /** A first word wider than the line is cut to its longest prefix that fits
      with "…"; a second line follows exactly when more words remain. */
  lemma FirstWordCut(W: Width, max: real, ws: seq<string>)
    requires IsWordList(ws) && ws != [] && W(ws[0]) > max
    ensures var r := WrapWords(W, max, ws);
      r[0] == CutWord(W, max, ws[0]) && (|r| == 2 <==> |ws| >= 2)
  {
  }

  /** When the words fall greedily into two lines that both fit, those two
      lines are the result and nothing of the text is lost. */
  lemma TwoLines(W: Width, max: real, ws: seq<string>, k: nat)
    requires IsWordList(ws) && 1 <= k < |ws|
    requires PrefixesFit(W, max, ws, k) && W(Line(ws[..k + 1])) > max
    requires PrefixesFit(W, max, ws[k..], |ws| - k)
    ensures WrapWords(W, max, ws) == [Line(ws[..k]), Line(ws[k..])]
    ensures Line(WrapWords(W, max, ws)) == Line(ws)
  {
    FirstFit(W, max, ws, k);
    SecondLineFits(W, max, ws[k..]);
    Rejoin(ws, k);
  }

  /** The first line of greedily fitted words, with the rest handed on. */
  lemma FirstFit(W: Width, max: real, ws: seq<string>, k: nat)
    requires IsWordList(ws) && 1 <= k < |ws|
    requires PrefixesFit(W, max, ws, k) && W(Line(ws[..k + 1])) > max
    ensures FitLine(W, max, ws) == Fit(Line(ws[..k]), ws[k..], true)
  {
    assert W(Line(ws[..1])) <= max;
    assert ws[..1] == [ws[0]];
    GreedyCount(W, max, ws, k, |ws| - |FitLine(W, max, ws).rest|);
  }

  /** Two lines split at a word boundary join back to the whole text. */
  lemma Rejoin(ws: seq<string>, k: nat)
    requires 1 <= k < |ws|
    ensures Line([Line(ws[..k]), Line(ws[k..])]) == Line(ws)
  {
    LineSplit(ws, k);
    LineTwo(Line(ws[..k]), Line(ws[k..]));
  }

  /** At most one count of leading words is greedy: all its prefixes fit
      and one more word does not. */
  lemma GreedyCount(W: Width, max: real, ws: seq<string>, k: nat, k1: nat)
    requires 1 <= k <= |ws| && 1 <= k1 <= |ws|
    requires PrefixesFit(W, max, ws, k) && (k < |ws| ==> W(Line(ws[..k + 1])) > max)
    requires PrefixesFit(W, max, ws, k1) && (k1 < |ws| ==> W(Line(ws[..k1 + 1])) > max)
    ensures k == k1
  {
  }

  /** Left-over words that all fit make up the second line unchanged. */
  lemma SecondLineFits(W: Width, max: real, rest: seq<string>)
    requires IsWordList(rest) && rest != [] && PrefixesFit(W, max, rest, |rest|)
    ensures SecondLine(W, max, rest) == Line(rest)
  {
    assert rest[..1] == [rest[0]];
    var f2 := FitLine(W, max, rest);
    assert rest[..|rest|] == rest;
  }

  /** A width of one unit per character, as a fixed-pitch font would give. */
  function CharCount(s: string): real
  {
    |s| as real
  }

  /** The trimming loop can remove the ellipsis it has just added: with one
      unit of width per character and room for two, the second line of
      "x ab cd" is "ab", with no mark that "cd" was dropped. */
  lemma SecondLineCanLoseEllipsis()
    ensures SecondLine(CharCount, 2.0, ["ab", "cd"]) == "ab"
  {
    var rest := ["ab", "cd"];
    FitExample();
    var t := "ab" + " " + Ellipsis;
    StripUnchanged(t);
    TrimExample();
  }

  lemma FitExample()
    ensures FitLine(CharCount, 2.0, ["ab", "cd"]) == Fit("ab", ["cd"], true)
  {
    var rest := ["ab", "cd"];
    assert rest[..1] == ["ab"];
    assert Line(rest[..2]) == "ab cd" by {
      assert rest[..2] == rest;
      LineTwo("ab", "cd");
    }
    var f := FitLine(CharCount, 2.0, rest);
    assert |rest| - |f.rest| == 1;
  }

  lemma TrimExample()
    ensures TrimLine(CharCount, 2.0, "ab" + " " + Ellipsis) == "ab"
  {
    var t := "ab" + " " + Ellipsis;
    var u := "ab" + Ellipsis;
    assert TrimLine(CharCount, 2.0, "ab") == "ab";
    assert TrimLine(CharCount, 2.0, u) == "ab" by {
      assert CharCount(u) > 2.0;
      assert u[1] == 'b';
      assert !EndsWithSpacedEllipsis(u);
      assert u[..|u| - 1] == "ab";
    }
    assert TrimLine(CharCount, 2.0, t) == "ab" by {
      assert CharCount(t) > 2.0;
      assert EndsWithSpacedEllipsis(t);
      assert t[..|t| - 2] + Ellipsis == u;
    }
  }

  // ----- `_wrap_text`: the older wrapper, with no limit on the number of lines

  /** All the words of a list of lines, in order. */
  function Flatten(gs: seq<seq<string>>): seq<string>
  {
    if gs == [] then [] else gs[0] + Flatten(gs[1..])
  }

  /** The first loop of `_wrap_text`: each word joins the line being built
      (`line`) when the joined trial fits or the line is still empty; otherwise
      the line is closed and the word starts the next one. Every word is kept,
      in order, in non-empty lines, the first of which continues `line`. */
  function Gather(W: Width, max: real, words: seq<string>, line: seq<string>): (gs: seq<seq<string>>)
    ensures Flatten(gs) == line + words
    ensures forall i :: 0 <= i < |gs| ==> gs[i] != []
    ensures line != [] ==> gs != [] && |line| <= |gs[0]| && gs[0][..|line|] == line
    decreases |words|
  {
    if words == [] then
      if line == [] then [] else
        assert line[..|line|] == line;
        assert Flatten([line]) == line + [];
        [line]
    else
      var w := words[0];
      var trial := Strip(Line(line + [w]));
      assert line + words == (line + [w]) + words[1..];
      if W(trial) <= max || line == [] then
        var gs := Gather(W, max, words[1..], line + [w]);
        assert (line + [w])[..|line|] == line;
        assert gs[0][..|line|] == gs[0][..|line| + 1][..|line|];
        gs
      else
        assert [w] + words[1..] == words;
        var gs := Gather(W, max, words[1..], [w]);
        var r := [line] + gs;
        assert r[1..] == gs;
        r
  }

  /** Each line fits unless it holds a single word, and each line was closed
      only because the next line's first word would not fit on it. */
  predicate GreedyLines(W: Width, max: real, gs: seq<seq<string>>)
  {
    (forall i :: 0 <= i < |gs| ==> gs[i] != [] && (|gs[i]| == 1 || W(Line(gs[i])) <= max))
    && (forall i :: 0 <= i < |gs| - 1 ==> W(Line(gs[i] + [gs[i + 1][0]])) > max)
  }

  /** The lines `_wrap_text` gathers are greedy. */
  lemma {:induction false} GatherFits(W: Width, max: real, words: seq<string>, line: seq<string>)
    requires IsWordList(line + words)
    requires |line| <= 1 || W(Line(line)) <= max
    ensures GreedyLines(W, max, Gather(W, max, words, line))
    decreases |words|
  {
    if words != [] {
      var w := words[0];
      GatherWords(line, words);
      JoinEdges(line + [w]);
      StripUnchanged(Line(line + [w]));
      if W(Line(line + [w])) <= max || line == [] {
        if line == [] {
          assert line + [w] == [w];
        }
        assert Gather(W, max, words, line) == Gather(W, max, words[1..], line + [w]);
        GatherFits(W, max, words[1..], line + [w]);
      } else {
        GatherFits(W, max, words[1..], [w]);
        var gs := Gather(W, max, words[1..], [w]);
        assert gs[0][..1] == [w];
        assert Gather(W, max, words, line) == [line] + gs;
        CloseLine(W, max, line, w, gs);
      }
    }
  }

  /** The word lists `_wrap_text` goes on with after taking the next word. */
  lemma GatherWords(line: seq<string>, words: seq<string>)
    requires IsWordList(line + words) && words != []
    ensures IsWordList(line + [words[0]])
    ensures (line + [words[0]]) + words[1..] == line + words
    ensures [words[0]] + words[1..] == words && IsWordList([words[0]] + words[1..])
  {
    var all := line + words;
    assert (line + [words[0]]) + words[1..] == all;
    assert [words[0]] + words[1..] == words;
    forall i | 0 <= i < |words| ensures words[i] != [] && NoSpace(words[i]) {
      assert words[i] == all[|line| + i];
    }
    forall i | 0 <= i < |line| + 1 ensures (line + [words[0]])[i] != [] && NoSpace((line + [words[0]])[i]) {
      assert (line + [words[0]])[i] == all[i];
    }
  }

  /** Closing a line in front of greedy lines keeps them greedy when the
      next word would not fit on it. */
  lemma CloseLine(W: Width, max: real, line: seq<string>, w: string, gs: seq<seq<string>>)
    requires line != [] && (|line| <= 1 || W(Line(line)) <= max)
    requires GreedyLines(W, max, gs) && gs != [] && gs[0][0] == w
    requires W(Line(line + [w])) > max
    ensures GreedyLines(W, max, [line] + gs)
  {
    var r := [line] + gs;
    forall i | 0 <= i < |r| - 1 ensures W(Line(r[i] + [r[i + 1][0]])) > max {
      if i > 0 {
        assert r[i] == gs[i - 1] && r[i + 1] == gs[i];
      }
    }
    forall i | 0 <= i < |r| ensures r[i] != [] && (|r[i]| == 1 || W(Line(r[i])) <= max) {
      if i > 0 {
        assert r[i] == gs[i - 1];
      }
    }
  }

  /** The second loop of `_wrap_text`: a line that fits is kept; one that does
      not is cut to its longest prefix that fits with "…", or kept whole when
      no non-empty prefix does. */
  function Shorten(W: Width, max: real, ln: string): (r: string)
    ensures W(ln) <= max ==> r == ln
    ensures W(ln) > max ==>
      var p := TrimToFit(W, max, ln);
      if p == [] then r == ln else r == p + Ellipsis && W(r) <= max
  {
    if W(ln) <= max then ln
    else
      var s := TrimToFit(W, max, ln);
      if s != [] then s + Ellipsis else ln
  }

  /** The words `_wrap_text` works on: the text without carriage returns, split on whitespace. */
  function LegacyWords(text: string): (ws: seq<string>)
    ensures IsWordList(ws)
  {
    Words(RemoveChar(text, '\r'))
  }

  /** The joined lines of a gathering, one per group. */
  function Lines(gs: seq<seq<string>>): (ls: seq<string>)
    ensures |ls| == |gs|
    ensures forall i :: 0 <= i < |gs| ==> ls[i] == Line(gs[i])
  {
    if gs == [] then [] else [Line(gs[0])] + Lines(gs[1..])
  }

  /** `_wrap_text(text, max)`: every line fits, or it is kept whole because
      no non-empty prefix of it fits with "…"; text with no words gives no lines. */
  function LegacyWrap(W: Width, max: real, text: string): (r: seq<string>)
    ensures forall i :: 0 <= i < |r| ==> W(r[i]) <= max || TrimToFit(W, max, r[i]) == []
    ensures r == [] <==> LegacyWords(text) == []
  {
    var words := LegacyWords(text);
    assert [] + words == words;
    var gs := Gather(W, max, words, []);
    assert gs == [] ==> Flatten(gs) == [];
    var r := Shortened(W, max, Lines(gs));
    r
  }

  /** The second loop applied to each line. */
  function Shortened(W: Width, max: real, ls: seq<string>): (r: seq<string>)
    ensures |r| == |ls|
    ensures forall i :: 0 <= i < |ls| ==> r[i] == Shorten(W, max, ls[i])
    ensures forall i :: 0 <= i < |r| ==> W(r[i]) <= max || TrimToFit(W, max, r[i]) == []
  {
    if ls == [] then [] else [Shorten(W, max, ls[0])] + Shortened(W, max, ls[1..])
  }

  /** Joining the lines of a gathering with single spaces gives all its words joined. */
  lemma {:induction false} LinesKeepText(gs: seq<seq<string>>)
    requires forall i :: 0 <= i < |gs| ==> gs[i] != []
    ensures Line(Lines(gs)) == Line(Flatten(gs))
  {
    if |gs| == 1 {
      assert gs[1..] == [];
      assert Flatten(gs) == gs[0] + [];
      assert gs[0] + [] == gs[0];
      assert Lines(gs) == [Line(gs[0])];
      LineOne(Line(gs[0]));
    } else if |gs| > 1 {
      var tail := gs[1..];
      LinesKeepText(tail);
      var rest := Flatten(tail);
      assert Flatten(tail) == tail[0] + Flatten(tail[1..]);
      assert rest != [];
      assert Flatten(gs) == gs[0] + rest;
      LineSplit(gs[0] + rest, |gs[0]|);
      assert (gs[0] + rest)[..|gs[0]|] == gs[0];
      assert (gs[0] + rest)[|gs[0]|..] == rest;
      assert Lines(gs) == [Line(gs[0])] + Lines(tail);
    }
  }

  /** When no single word is wider than the line, `_wrap_text` cuts nothing:
      its lines joined with single spaces are the words of the text. */
  lemma LegacyWrapKeepsText(W: Width, max: real, text: string)
    requires forall i :: 0 <= i < |LegacyWords(text)| ==> W(LegacyWords(text)[i]) <= max
    ensures Line(LegacyWrap(W, max, text)) == Line(LegacyWords(text))
  {
    var words := LegacyWords(text);
    assert [] + words == words;
    var gs := Gather(W, max, words, []);
    GatherFits(W, max, words, []);
    assert Flatten(gs) == words;
    forall i | 0 <= i < |gs| ensures W(Line(gs[i])) <= max {
      if |gs[i]| == 1 {
        GroupWord(gs, i);
        assert gs[i][0] in words;
        assert W(gs[i][0]) <= max;
        assert gs[i] == [gs[i][0]];
        LineOne(gs[i][0]);
      }
    }
    var ls := Lines(gs);
    assert Shortened(W, max, ls) == ls;
    LinesKeepText(gs);
  }

  /** A word of a gathered line is one of the gathered words. */
  lemma GroupWord(gs: seq<seq<string>>, i: nat)
    requires i < |gs| && gs[i] != []
    ensures gs[i][0] in Flatten(gs)
  {
    if i > 0 {
      GroupWord(gs[1..], i - 1);
    }
  }
}
