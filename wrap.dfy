/** The description block of the sidebar: the selected planet's description
    is split into words on whitespace and packed greedily into lines shorter
    than 40 characters. A line starts a new one when adding " " and the next
    word would reach 40 characters; a word of 40 or more characters gets a
    line of its own, and as the first word it leaves an empty first line
    before it. */
module Wrap {

  /** Python's `str.isspace` for one character: the ASCII controls \t \n \v
      \f \r, the separators U+001C..U+001F, the space, and the Unicode spaces
      U+0085, U+00A0, U+1680, U+2000..U+200A, U+2028, U+2029, U+202F, U+205F
      and U+3000. */
  predicate IsSpace(c: char) {
    var n := c as int;
    (9 <= n <= 13) || (28 <= n <= 32) || n == 0x85 || n == 0xA0 || n == 0x1680 ||
    (0x2000 <= n <= 0x200A) || n == 0x2028 || n == 0x2029 || n == 0x202F || n == 0x205F || n == 0x3000
  }

  /** A word as `split()` returns it: non-empty, without whitespace. */
  predicate IsWord(w: string) {
    w != [] && forall i :: 0 <= i < |w| ==> !IsSpace(w[i])
  }

  /** The length of the run of non-space characters `s` starts with. */
  function WordLength(s: string): (n: nat)
    ensures n <= |s|
    ensures forall i :: 0 <= i < n ==> !IsSpace(s[i])
    ensures n < |s| ==> IsSpace(s[n])
  {
    if s == [] || IsSpace(s[0]) then 0 else 1 + WordLength(s[1..])
  }

  /** `s.split()`: the maximal runs of non-space characters, in order. */
  function Words(s: string): (r: seq<string>)
    ensures forall i :: 0 <= i < |r| ==> IsWord(r[i])
    decreases |s|
  {
    if s == [] then []
    else if IsSpace(s[0]) then Words(s[1..])
    else
      var n := WordLength(s);
      [s[..n]] + Words(s[n..])
  }

  /** `split()` keeps a word whole: a text that is one word splits into
      exactly that word. */
  lemma WordsOfWord(w: string)
    requires IsWord(w)
    ensures Words(w) == [w]
  {
    WordLengthOfWord(w);
    assert w[..|w|] == w;
  }

  /** `split()` cuts at every whitespace character: the words of a text
      with a whitespace character in it are the words before it followed by
      the words after it. */
  lemma WordsSplitAtSpace(a: string, c: char, b: string)
    requires IsSpace(c)
    ensures Words(a + [c] + b) == Words(a) + Words(b)
  {
    WordsBeforeSpace(a, [c] + b);
    assert a + [c] + b == a + ([c] + b);
    assert ([c] + b)[1..] == b;
  }

  /** The words of `a` followed by text `t` that starts with whitespace are
      the words of `a` followed by the words of `t`. */
  lemma {:induction false} WordsBeforeSpace(a: string, t: string)
    requires t != [] && IsSpace(t[0])
    ensures Words(a + t) == Words(a) + Words(t)
    decreases |a|, 1
  {
    if a == [] {
      assert a + t == t;
    } else if IsSpace(a[0]) {
      assert (a + t)[0] == a[0] && (a + t)[1..] == a[1..] + t;
      WordsBeforeSpace(a[1..], t);
    } else {
      WordBeforeSpace(a, t);
    }
  }

  /** WordsBeforeSpace when `a` starts with a word: the word ends within
      `a`, at the latest where `t` begins. */
  lemma {:induction false} WordBeforeSpace(a: string, t: string)
    requires t != [] && IsSpace(t[0]) && a != [] && !IsSpace(a[0])
    ensures Words(a + t) == Words(a) + Words(t)
    decreases |a|, 0
  {
    var k := WordLength(a);
    WordLengthStopsAtSpace(a, t);
    assert (a + t)[0] == a[0];
    assert Words(a + t) == [a[..k]] + Words(a[k..] + t) by {
      assert (a + t)[..k] == a[..k] && (a + t)[k..] == a[k..] + t;
    }
    WordsBeforeSpace(a[k..], t);
  }

  /** The leading run of a word is the whole word. */
  lemma {:induction false} WordLengthOfWord(w: string)
    requires IsWord(w)
    ensures WordLength(w) == |w|
  {
    if |w| > 1 {
      WordLengthOfWord(w[1..]);
    }
  }

  /** The leading run of non-space characters ends at the latest where a
      whitespace character follows. */
  lemma {:induction false} WordLengthStopsAtSpace(a: string, b: string)
    requires b != [] && IsSpace(b[0])
    ensures WordLength(a + b) == WordLength(a)
  {
    if a != [] {
      assert (a + b)[1..] == a[1..] + b;
      WordLengthStopsAtSpace(a[1..], b);
    }
  }

  /** The characters of `s` that are not whitespace, in order. */
  function Visible(s: string): string {
    if s == [] then [] else (if IsSpace(s[0]) then [] else [s[0]]) + Visible(s[1..])
  }

  /** The words glued together. */
  function Concat(ws: seq<string>): string {
    if ws == [] then [] else ws[0] + Concat(ws[1..])
  }

  /** `split()` loses only whitespace: its words glued together are the
      non-space characters of the text. */
  lemma {:induction false} WordsKeepText(s: string)
    ensures Concat(Words(s)) == Visible(s)
    decreases |s|
  {
    if s != [] {
      if IsSpace(s[0]) {
        WordsKeepText(s[1..]);
      } else {
        var n := WordLength(s);
        WordsKeepText(s[n..]);
        VisiblePrefix(s, n);
      }
    }
  }

  /** A prefix without whitespace is kept whole by Visible. */
  lemma {:induction false} VisiblePrefix(s: string, n: nat)
    requires n <= |s|
    requires forall i :: 0 <= i < n ==> !IsSpace(s[i])
    ensures Visible(s) == s[..n] + Visible(s[n..])
  {
    if n > 0 {
      VisiblePrefix(s[1..], n - 1);
      assert s[1..][n - 1..] == s[n..];
      assert [s[0]] + s[1..][..n - 1] == s[..n];
    }
  }

  // ----- The greedy packing -----

  /** The widest line the packing builds by joining words is one character
      shorter than this. */
  const WIDTH: nat := 40

  /** The loop state: the finished lines and `current_line`. */
  datatype Pending = Pending(lines: seq<string>, current: string)

  /** One turn of the loop: try `current_line + " " + word` (or the word
      alone while the line is empty); keep it when shorter than WIDTH,
      otherwise finish the line and start a new one with the word. */
  function Put(p: Pending, word: string): Pending {
    var test := if p.current != [] then p.current + " " + word else word;
    if |test| < WIDTH then Pending(p.lines, test)
    else Pending(p.lines + [p.current], word)
  }

  /** The loop state after the words of `words`, in order. */
  function Fill(words: seq<string>): Pending {
    if words == [] then Pending([], [])
    else Put(Fill(words[..|words| - 1]), words[|words| - 1])
  }

  /** The lines the sidebar shows: the finished lines, then `current_line`
      unless it is empty. */
  function Wrapped(words: seq<string>): seq<string> {
    var p := Fill(words);
    if p.current != [] then p.lines + [p.current] else p.lines
  }

  /** The lines to show for a description, built with the loop of the
      sidebar. */
  method WrapDescription(description: string) returns (lines: seq<string>)
    ensures lines == Wrapped(Words(description))
  {
    var words := Words(description);
    lines := [];
    var current := "";
    for i := 0 to |words|
      invariant Pending(lines, current) == Fill(words[..i])
    {
      var word := words[i];
      var test := if current != "" then current + " " + word else word;
      if |test| < WIDTH {
        current := test;
      } else {
        lines := lines + [current];
        current := word;
      }
      assert words[..i + 1][..i] == words[..i];
    }
    assert words[..|words|] == words;
    if current != "" {
      lines := lines + [current];
    }
  }

  // ----- Properties of the packing -----

  /** The words joined by single spaces. */
  function Join(ws: seq<string>): string {
    if ws == [] then []
    else if |ws| == 1 then ws[0]
    else Join(ws[..|ws| - 1]) + " " + ws[|ws| - 1]
  }

  /** `ws` without its empty entries. */
  function NonEmpty(ws: seq<string>): seq<string> {
    if ws == [] then []
    else NonEmpty(ws[..|ws| - 1]) + (if ws[|ws| - 1] == [] then [] else [ws[|ws| - 1]])
  }

  /** All entries are words. */
  predicate AllWords(words: seq<string>) {
    forall i :: 0 <= i < |words| ==> IsWord(words[i])
  }

  /** The shape of the loop state after a sequence of words: the line under
      construction is empty only before the first word, an empty finished
      line can only be the first one, and it is there exactly when the first
      word alone reached WIDTH. */
  lemma {:induction false} FillShape(words: seq<string>)
    requires AllWords(words)
    ensures var p := Fill(words);
      (p.current == [] <==> words == []) &&
      (forall i :: 0 < i < |p.lines| ==> p.lines[i] != []) &&
      (|p.lines| > 0 && p.lines[0] == [] <==> words != [] && |words[0]| >= WIDTH)
  {
    if words != [] {
      var n := |words|;
      var init := words[..n - 1];
      FillShape(init);
      if n > 1 {
        assert init[0] == words[0];
      }
    }
  }

  /** Joining the non-empty lines with single spaces gives the words joined
      with single spaces: no word is lost, split, reordered or duplicated. */
  lemma {:induction false} WrapKeepsWords(words: seq<string>)
    requires AllWords(words)
    ensures Join(NonEmpty(Wrapped(words))) == Join(words)
  {
    FillKeepsWords(words);
    var p := Fill(words);
    if p.current == [] {
      assert NonEmpty(p.lines + [p.current]) == NonEmpty(p.lines);
    }
  }

  lemma {:induction false} FillKeepsWords(words: seq<string>)
    requires AllWords(words)
    ensures var p := Fill(words); Join(NonEmpty(p.lines + [p.current])) == Join(words)
  {
    if words != [] {
      var n := |words|;
      var init := words[..n - 1];
      var w := words[n - 1];
      FillKeepsWords(init);
      FillShape(init);
      var p := Fill(init);
      var test := if p.current != [] then p.current + " " + w else w;
      var kept := NonEmpty(p.lines);
      assert NonEmpty(p.lines + [p.current]) == kept + (if p.current == [] then [] else [p.current]) by {
        assert (p.lines + [p.current])[..|p.lines|] == p.lines;
      }
      if p.current == [] {
        assert init == [];
        assert kept == [] by {
          assert p.lines == [];
        }
        if |test| < WIDTH {
          assert NonEmpty([w]) == NonEmpty([][..0]) + [w];
        } else {
          assert NonEmpty([[]] + [w]) == NonEmpty([[]]) + [w] by {
            assert ([[]] + [w])[..1] == [[]];
          }
          assert NonEmpty([[]]) == NonEmpty([[]][..0]);
        }
        assert words == [w];
      } else {
        assert words == init + [w];
        assert Join(words) == Join(init) + " " + w by {
          assert words[..n - 1] == init;
        }
        if |test| < WIDTH {
          assert NonEmpty(p.lines + [test]) == kept + [test] by {
            assert (p.lines + [test])[..|p.lines|] == p.lines;
          }
          JoinExtendLast(kept, p.current, w);
        } else {
          var lines := p.lines + [p.current];
          assert NonEmpty(lines + [w]) == NonEmpty(lines) + [w] by {
            assert (lines + [w])[..|lines|] == lines;
          }
          JoinSnoc(kept + [p.current], w);
        }
      }
    }
  }

  /** Joining after a longer last entry. */
  lemma JoinExtendLast(ws: seq<string>, last: string, w: string)
    ensures Join(ws + [last + " " + w]) == Join(ws + [last]) + " " + w
  {
    if ws != [] {
      assert (ws + [last + " " + w])[..|ws|] == ws;
      assert (ws + [last])[..|ws|] == ws;
    }
  }

  /** Joining after one more entry. */
  lemma JoinSnoc(ws: seq<string>, w: string)
    requires ws != []
    ensures Join(ws + [w]) == Join(ws) + " " + w
  {
    assert (ws + [w])[..|ws|] == ws;
  }

  /** Every line of WIDTH characters or more is a single word of the input. */
  lemma {:induction false} LongLineIsWord(words: seq<string>)
    ensures forall i :: 0 <= i < |Wrapped(words)| && |Wrapped(words)[i]| >= WIDTH ==> Wrapped(words)[i] in words
  {
    FillLongLines(words);
    var p := Fill(words);
    var all := p.lines + [p.current];
    var ls := Wrapped(words);
    assert ls == all || ls == all[..|p.lines|];
    forall i | 0 <= i < |ls| && |ls[i]| >= WIDTH
      ensures ls[i] in words
    {
      assert ls[i] == all[i];
    }
  }

  /** Every entry of `ls` of WIDTH characters or more is one of `words`. */
  predicate LongOnesAreWords(ls: seq<string>, words: seq<string>) {
    forall i :: 0 <= i < |ls| && |ls[i]| >= WIDTH ==> ls[i] in words
  }

  lemma {:induction false} FillLongLines(words: seq<string>)
    ensures LongOnesAreWords(Fill(words).lines + [Fill(words).current], words)
  {
    if words != [] {
      var n := |words|;
      var init := words[..n - 1];
      var w := words[n - 1];
      FillLongLines(init);
      var p := Fill(init);
      var before := p.lines + [p.current];
      var test := if p.current != [] then p.current + " " + w else w;
      var all := Fill(words).lines + [Fill(words).current];
      assert forall x :: x in init ==> x in words;
      if |test| < WIDTH {
        assert all == p.lines + [test];
        forall i | 0 <= i < |all| && |all[i]| >= WIDTH
          ensures all[i] in words
        {
          assert i < |p.lines| && all[i] == before[i];
        }
      } else {
        assert all == before + [w];
        forall i | 0 <= i < |all| && |all[i]| >= WIDTH
          ensures all[i] in words
        {
          if i < |before| {
            assert all[i] == before[i];
          }
        }
      }
    }
  }

  /** An empty line can only come first, and it comes exactly when the
      first word alone reaches WIDTH characters. */
  lemma EmptyLineOnlyFirst(words: seq<string>)
    requires AllWords(words)
    ensures forall i :: 0 < i < |Wrapped(words)| ==> Wrapped(words)[i] != []
    ensures |Wrapped(words)| > 0 && Wrapped(words)[0] == [] <==> words != [] && |words[0]| >= WIDTH
  {
    FillShape(words);
  }

  /** No words, no lines; some words, some lines. */
  lemma NoWordsNoLines(words: seq<string>)
    requires AllWords(words)
    ensures Wrapped(words) == [] <==> words == []
  {
    FillShape(words);
  }

  /** The packing is greedy: a line was finished only because the first
      word of the next line did not fit after it with a space. */
  lemma {:induction false} AdjacentLinesOverflow(words: seq<string>)
    requires AllWords(words)
    ensures var ls := Wrapped(words);
      forall i :: 0 <= i < |ls| - 1 && ls[i] != [] ==> |ls[i]| + 1 + WordLength(ls[i + 1]) >= WIDTH
  {
    FillOverflow(words);
    var p := Fill(words);
    var all := p.lines + [p.current];
    var ls := Wrapped(words);
    assert ls == all || ls == all[..|p.lines|];
    forall i | 0 <= i < |ls| - 1 && ls[i] != []
      ensures |ls[i]| + 1 + WordLength(ls[i + 1]) >= WIDTH
    {
      assert ls[i] == all[i] && ls[i + 1] == all[i + 1];
    }
  }

  /** No non-empty entry of `ls` and the first word of the entry after it
      fit on one line. */
  predicate Overflowing(ls: seq<string>) {
    forall i :: 0 <= i < |ls| - 1 && ls[i] != [] ==> |ls[i]| + 1 + WordLength(ls[i + 1]) >= WIDTH
  }

  lemma {:induction false} FillOverflow(words: seq<string>)
    requires AllWords(words)
    ensures Overflowing(Fill(words).lines + [Fill(words).current])
  {
    if words != [] {
      var init := words[..|words| - 1];
      FillOverflow(init);
      FillShape(init);
      PutOverflowing(Fill(init), words[|words| - 1]);
    }
  }

  /** One turn of the loop keeps the lines overflowing. */
  lemma PutOverflowing(p: Pending, w: string)
    requires IsWord(w) && Overflowing(p.lines + [p.current])
    requires p.current == [] ==> p.lines == []
    ensures Overflowing(Put(p, w).lines + [Put(p, w).current])
  {
    var test := if p.current != [] then p.current + " " + w else w;
    if |test| < WIDTH {
      PutFitsOverflowing(p, w);
    } else {
      PutBreaksOverflowing(p, w);
    }
  }

  /** The word fits on the current line: only the last line grows, and its
      first word stays the same. */
  lemma PutFitsOverflowing(p: Pending, w: string)
    requires IsWord(w) && Overflowing(p.lines + [p.current])
    requires p.current == [] ==> p.lines == []
    requires |if p.current != [] then p.current + " " + w else w| < WIDTH
    ensures Overflowing(Put(p, w).lines + [Put(p, w).current])
  {
    var test := if p.current != [] then p.current + " " + w else w;
    var before := p.lines + [p.current];
    var all := p.lines + [test];
    assert Put(p, w) == Pending(p.lines, test);
    if p.current != [] {
      WordLengthStopsAtSpace(p.current, " " + w);
      assert test == p.current + (" " + w);
    }
    forall i | 0 <= i < |all| - 1 && all[i] != []
      ensures |all[i]| + 1 + WordLength(all[i + 1]) >= WIDTH
    {
      assert all[i] == before[i];
      if i + 1 < |p.lines| {
        assert all[i + 1] == before[i + 1];
      } else {
        assert WordLength(all[i + 1]) == WordLength(before[i + 1]);
      }
    }
  }

  /** The word does not fit: the current line is finished, and the word,
      whole, is what did not fit after it. */
  lemma PutBreaksOverflowing(p: Pending, w: string)
    requires IsWord(w) && Overflowing(p.lines + [p.current])
    requires |if p.current != [] then p.current + " " + w else w| >= WIDTH
    ensures Overflowing(Put(p, w).lines + [Put(p, w).current])
  {
    var before := p.lines + [p.current];
    var all := before + [w];
    assert Put(p, w).lines + [Put(p, w).current] == all;
    WordLengthOfWord(w);
    forall i | 0 <= i < |all| - 1 && all[i] != []
      ensures |all[i]| + 1 + WordLength(all[i + 1]) >= WIDTH
    {
      if i + 1 < |before| {
        assert all[i] == before[i] && all[i + 1] == before[i + 1];
      }
    }
  }
}
