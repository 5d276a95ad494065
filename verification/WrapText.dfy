/** The greedy line filling of src/auth/email/wrap-text.ts, and why no other line breaking does better. */
module WrapText {
  import opened Strings

  /** Puts one more word on the last line if it fits, on a line of its own otherwise. */
  function Place(lines: seq<string>, word: string, width: int): seq<string> {
    if lines != [] && |lines[|lines| - 1]| + 1 + |word| <= width then
      lines[..|lines| - 1] + [lines[|lines| - 1] + (" " + word)]
    else
      lines + [word]
  }

  function Fill(words: seq<string>, width: int): (lines: seq<string>)
    ensures |words| > 0 ==> |lines| > 0
  {
    if words == [] then [] else Place(Fill(words[..|words| - 1], width), words[|words| - 1], width)
  }

  function Wrap(paragraph: string, width: int): (lines: seq<string>)
    ensures |lines| > 0
  {
    Fill(Split(paragraph, ' '), width)
  }

  lemma WrapOneMore(paragraph: string, word: string, width: int)
    requires ' ' !in word
    ensures Wrap(paragraph + (" " + word), width) == Place(Wrap(paragraph, width), word, width)
  {
    SplitAfterSeparator(paragraph, word, ' ');
    var words := Split(paragraph, ' ');
    assert (words + [word])[..|words|] == words;
  }

  lemma WrapWord(word: string, width: int)
    requires ' ' !in word
    ensures Wrap(word, width) == [word]
  {
    SplitWord(word, ' ');
    assert Fill([], width) == [] && [word][..0] == [];
  }

  /** A line is acceptable if it fits or cannot be broken. */
  predicate Fits(line: string, width: int) {
    |line| <= width || ' ' !in line
  }

  /** A way to break the paragraph: acceptable lines that join back to it. */
  ghost predicate Breaks(paragraph: string, lines: seq<string>, width: int) {
    |lines| > 0 && Join(lines, ' ') == paragraph && forall i :: 0 <= i < |lines| ==> Fits(lines[i], width)
  }

  lemma PlaceJoins(lines: seq<string>, word: string, width: int)
    requires |lines| > 0
    ensures Join(Place(lines, word, width), ' ') == Join(lines, ' ') + (" " + word)
  {
    if |lines[|lines| - 1]| + 1 + |word| <= width {
      JoinExtendLast(lines, " " + word, ' ');
    } else {
      JoinOneMore(lines, word, ' ');
    }
  }

  /** Nothing is lost or added, and a line over the width is a single word. */
  lemma {:induction false} WrapBreaks(paragraph: string, width: int)
    ensures Breaks(paragraph, Wrap(paragraph, width), width)
    decreases |paragraph|
  {
    if ' ' in paragraph {
      var (front, word) := LastBreak(paragraph, ' ');
      WrapBreaks(front, width);
      WrapOneMore(front, word, width);
      PlaceJoins(Wrap(front, width), word, width);
    } else {
      WrapWord(paragraph, width);
    }
  }

  /** Fewer lines, or as many with a shorter last line. */
  predicate NoWorse(lines: seq<string>, others: seq<string>)
    requires |lines| > 0 && |others| > 0
  {
    |lines| < |others| || (|lines| == |others| && |lines[|lines| - 1]| <= |others[|others| - 1]|)
  }

  /** Removing the last word of a breaking leaves a breaking of the rest. */
  lemma DropLastWord(front: string, word: string, lines: seq<string>, width: int) returns (rest: seq<string>)
    requires ' ' !in word && Breaks(front + (" " + word), lines, width)
    ensures Breaks(front, rest, width)
    ensures var last := lines[|lines| - 1];
            || (last == word && lines == rest + [last])
            || (|rest| == |lines| && lines == rest[..|rest| - 1] + [last] && last == rest[|rest| - 1] + (" " + word)
                && |last| <= width)
  {
    var init, last := lines[..|lines| - 1], lines[|lines| - 1];
    assert lines == init + [last];
    if |init| > 0 {
      JoinOneMore(init, last, ' ');
    }
    if ' ' in last {
      var (shorter, w) := LastBreak(last, ' ');
      rest := init + [shorter];
      JoinExtendLast(rest, " " + w, ' ');
      LastBreakIsUnique(Join(rest, ' '), w, front, word, ' ');
    } else {
      rest := init;
      assert (front + (" " + word))[|front|] == ' ';
      assert init == [] ==> Join(lines, ' ') == last;
      LastBreakIsUnique(Join(init, ' '), last, front, word, ' ');
    }
  }

  lemma {:induction false} WrapStaysAhead(paragraph: string, lines: seq<string>, width: int)
    requires Breaks(paragraph, lines, width)
    ensures NoWorse(Wrap(paragraph, width), lines)
    decreases |paragraph|
  {
    if ' ' in paragraph {
      var (front, word) := LastBreak(paragraph, ' ');
      var rest := DropLastWord(front, word, lines, width);
      WrapStaysAhead(front, rest, width);
      WrapOneMore(front, word, width);
    } else {
      WrapWord(paragraph, width);
      JoinHoldsSeparator(lines, ' ');
      assert lines == [paragraph];
    }
  }

  /** Greedy filling uses the fewest lines of all breakings, and among those the shortest last line. */
  lemma WrapIsOptimal(paragraph: string, width: int)
    ensures Breaks(paragraph, Wrap(paragraph, width), width)
    ensures forall lines :: Breaks(paragraph, lines, width) ==> |Wrap(paragraph, width)| <= |lines|
    ensures forall lines :: Breaks(paragraph, lines, width) ==> NoWorse(Wrap(paragraph, width), lines)
  {
    WrapBreaks(paragraph, width);
    forall lines | Breaks(paragraph, lines, width) ensures NoWorse(Wrap(paragraph, width), lines) {
      WrapStaysAhead(paragraph, lines, width);
    }
  }

  // ---------- Greedy filling is one breaking ----------

  function FirstWord(line: string): string {
    Split(line, ' ')[0]
  }

  /** No line could have taken the first word of the next one. */
  ghost predicate Greedy(lines: seq<string>, width: int) {
    forall i :: 0 <= i < |lines| - 1 ==> |lines[i]| + 1 + |FirstWord(lines[i + 1])| > width
  }

  lemma FirstWordStays(line: string, word: string)
    requires ' ' !in word
    ensures FirstWord(line + (" " + word)) == FirstWord(line) && FirstWord(word) == word
  {
    SplitAfterSeparator(line, word, ' ');
    SplitWord(word, ' ');
  }

  lemma PlaceIsGreedy(lines: seq<string>, word: string, width: int)
    requires |lines| > 0 && ' ' !in word && Greedy(lines, width)
    ensures Greedy(Place(lines, word, width), width)
  {
    var placed, n := Place(lines, word, width), |lines| - 1;
    FirstWordStays(lines[n], word);
    forall i | 0 <= i < |placed| - 1 ensures |placed[i]| + 1 + |FirstWord(placed[i + 1])| > width {
      assert placed[i] == lines[i];
    }
  }

  lemma {:induction false} WrapIsGreedy(paragraph: string, width: int)
    ensures Greedy(Wrap(paragraph, width), width)
    decreases |paragraph|
  {
    if ' ' in paragraph {
      var (front, word) := LastBreak(paragraph, ' ');
      WrapIsGreedy(front, width);
      WrapOneMore(front, word, width);
      PlaceIsGreedy(Wrap(front, width), word, width);
    } else {
      WrapWord(paragraph, width);
    }
  }

  lemma GreedyIsPlaced(rest: seq<string>, lines: seq<string>, word: string, width: int)
    requires ' ' !in word && |rest| > 0 && |lines| > 0 && Greedy(lines, width)
    requires || lines == rest + [word]
             || (|rest| == |lines| && lines == rest[..|rest| - 1] + [rest[|rest| - 1] + (" " + word)]
                 && |rest[|rest| - 1]| + 1 + |word| <= width)
    ensures Greedy(rest, width) && lines == Place(rest, word, width)
  {
    var n := |rest| - 1;
    FirstWordStays(rest[n], word);
    forall i | 0 <= i < n ensures |rest[i]| + 1 + |FirstWord(rest[i + 1])| > width {
      assert lines[i] == rest[i] && FirstWord(lines[i + 1]) == FirstWord(rest[i + 1]);
    }
    if lines == rest + [word] {
      assert lines[n] == rest[n] && lines[n + 1] == word;
    }
  }

  lemma {:induction false} GreedyIsWrap(paragraph: string, lines: seq<string>, width: int)
    requires Breaks(paragraph, lines, width) && Greedy(lines, width)
    ensures lines == Wrap(paragraph, width)
    decreases |paragraph|
  {
    if ' ' in paragraph {
      var (front, word) := LastBreak(paragraph, ' ');
      var rest := DropLastWord(front, word, lines, width);
      GreedyIsPlaced(rest, lines, word, width);
      GreedyIsWrap(front, rest, width);
      WrapOneMore(front, word, width);
    } else {
      WrapWord(paragraph, width);
      JoinHoldsSeparator(lines, ' ');
      assert lines == [paragraph];
    }
  }

  /** Of all breakings, the result is the one in which no line could have taken the first word of the next. */
  lemma WrapIsTheGreedyBreaking(paragraph: string, lines: seq<string>, width: int)
    ensures lines == Wrap(paragraph, width) <==> Breaks(paragraph, lines, width) && Greedy(lines, width)
  {
    WrapBreaks(paragraph, width);
    WrapIsGreedy(paragraph, width);
    if Breaks(paragraph, lines, width) && Greedy(lines, width) {
      GreedyIsWrap(paragraph, lines, width);
    }
  }
}
