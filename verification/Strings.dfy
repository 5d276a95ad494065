/** JavaScript's `split` and `join` on a one-character separator. A string is a sequence of characters. */
module Strings {
  /** `s.split(sep)`: never empty, and the empty string splits into one empty piece. */
  function Split(s: string, sep: char): (pieces: seq<string>)
    ensures |pieces| >= 1
  {
    if s == "" then [""]
    else
      var front, c := Split(s[..|s| - 1], sep), s[|s| - 1];
      if c == sep then front + [""] else front[..|front| - 1] + [front[|front| - 1] + [c]]
  }

  /** `pieces.join(sep)`. */
  function Join(pieces: seq<string>, sep: char): string {
    if |pieces| == 0 then ""
    else if |pieces| == 1 then pieces[0]
    else Join(pieces[..|pieces| - 1], sep) + ([sep] + pieces[|pieces| - 1])
  }

  lemma JoinOneMore(pieces: seq<string>, piece: string, sep: char)
    requires |pieces| >= 1
    ensures Join(pieces + [piece], sep) == Join(pieces, sep) + ([sep] + piece)
  {
    assert (pieces + [piece])[..|pieces|] == pieces;
  }

  /** Text appended to the last piece is appended to the joined text. */
  lemma JoinExtendLast(pieces: seq<string>, tail: string, sep: char)
    requires |pieces| >= 1
    ensures Join(pieces[..|pieces| - 1] + [pieces[|pieces| - 1] + tail], sep) == Join(pieces, sep) + tail
  {
    var front, last := pieces[..|pieces| - 1], pieces[|pieces| - 1];
    if |front| > 0 {
      JoinOneMore(front, last + tail, sep);
      assert Join(front, sep) + ([sep] + (last + tail)) == Join(front, sep) + ([sep] + last) + tail;
    }
  }

  lemma JoinHoldsSeparator(pieces: seq<string>, sep: char)
    ensures |pieces| > 1 ==> sep in Join(pieces, sep)
  {
  }

  /** Splitting a piece-wise extension: text without the separator extends the last piece. */
  lemma {:induction false} SplitAfterSeparator(s: string, word: string, sep: char)
    requires sep !in word
    ensures Split(s + ([sep] + word), sep) == Split(s, sep) + [word]
  {
    var t := s + ([sep] + word);
    if word == "" {
      assert t[..|t| - 1] == s;
    } else {
      var shorter := word[..|word| - 1];
      SplitAfterSeparator(s, shorter, sep);
      assert t[..|t| - 1] == s + ([sep] + shorter);
      assert Split(t[..|t| - 1], sep) == Split(s, sep) + [shorter];
      assert shorter + [word[|word| - 1]] == word;
    }
  }

  lemma {:induction false} SplitWord(word: string, sep: char)
    requires sep !in word
    ensures Split(word, sep) == [word]
  {
    if word != "" {
      SplitWord(word[..|word| - 1], sep);
      assert word[..|word| - 1] + [word[|word| - 1]] == word;
    }
  }

  /** Splitting undoes joining, provided no piece holds the separator. */
  lemma {:induction false} SplitJoin(pieces: seq<string>, sep: char)
    requires |pieces| >= 1 && forall i :: 0 <= i < |pieces| ==> sep !in pieces[i]
    ensures Split(Join(pieces, sep), sep) == pieces
  {
    if |pieces| == 1 {
      SplitWord(pieces[0], sep);
    } else {
      var front := pieces[..|pieces| - 1];
      assert pieces == front + [pieces[|pieces| - 1]];
      SplitJoin(front, sep);
      SplitAfterSeparator(Join(front, sep), pieces[|pieces| - 1], sep);
    }
  }

  lemma {:induction false} PiecesHoldNoSeparator(s: string, sep: char)
    ensures forall i :: 0 <= i < |Split(s, sep)| ==> sep !in Split(s, sep)[i]
  {
    if s != "" {
      PiecesHoldNoSeparator(s[..|s| - 1], sep);
    }
  }

  lemma JoinSplitOneMore(t: string, c: char, sep: char)
    requires Join(Split(t, sep), sep) == t
    ensures Join(Split(t + [c], sep), sep) == t + [c]
  {
    assert (t + [c])[..|t|] == t;
    if c == sep {
      JoinOneMore(Split(t, sep), "", sep);
      assert [sep] + "" == [sep];
    } else {
      JoinExtendLast(Split(t, sep), [c], sep);
    }
  }

  lemma {:induction false} JoinSplitText(s: string, sep: char)
    ensures Join(Split(s, sep), sep) == s
  {
    if s != "" {
      var t, c := s[..|s| - 1], s[|s| - 1];
      JoinSplitText(t, sep);
      JoinSplitOneMore(t, c, sep);
      assert t + [c] == s;
    }
  }

  /** Joining undoes splitting, and the pieces are free of the separator. */
  lemma JoinSplit(s: string, sep: char)
    ensures Join(Split(s, sep), sep) == s
    ensures forall i :: 0 <= i < |Split(s, sep)| ==> sep !in Split(s, sep)[i]
  {
    JoinSplitText(s, sep);
    PiecesHoldNoSeparator(s, sep);
  }

  /** The text before and after the last separator. */
  ghost function LastBreak(s: string, sep: char): (parts: (string, string))
    requires sep in s
    ensures s == parts.0 + ([sep] + parts.1) && sep !in parts.1
  {
    if s[|s| - 1] == sep then (s[..|s| - 1], "")
    else
      var parts := LastBreak(s[..|s| - 1], sep);
      (parts.0, parts.1 + [s[|s| - 1]])
  }

  lemma LastBreakIsUnique(a: string, u: string, b: string, v: string, sep: char)
    requires a + ([sep] + u) == b + ([sep] + v) && sep !in u && sep !in v
    ensures a == b && u == v
  {
    var s := a + ([sep] + u);
    assert s[|a|] == sep && s[|b|] == (b + ([sep] + v))[|b|] == sep;
    assert forall k :: |a| < k < |s| ==> s[k] == u[k - |a| - 1];
    assert forall k :: |b| < k < |s| ==> s[k] == v[k - |b| - 1];
    assert a == s[..|a|] && u == s[|a| + 1..];
    assert b == s[..|b|] && v == s[|b| + 1..];
  }
}
