/** What chunking keeps of the text: every visible character, and exactly the breaks at blank lines. */
module ChunkerText {
  import opened Chunker

  // ----- nothing visible is lost -----

  /** The characters of a text that are not white space, in order. */
  function Ink(s: string): string {
    if s == "" then "" else (if IsSpace(s[0]) then "" else [s[0]]) + Ink(s[1..])
  }

  lemma {:induction false} InkConcat(a: string, b: string)
    ensures Ink(a + b) == Ink(a) + Ink(b)
  {
    if a == "" {
      assert a + b == b;
    } else {
      assert (a + b)[1..] == a[1..] + b;
      InkConcat(a[1..], b);
    }
  }

  lemma {:induction false} BlankHasNoInk(s: string)
    requires forall i :: 0 <= i < |s| ==> IsSpace(s[i])
    ensures Ink(s) == ""
  {
    if s != "" {
      BlankHasNoInk(s[1..]);
    }
  }

  lemma SeparatorHasNoInk()
    ensures Ink(SEPARATOR) == ""
  {
    BlankHasNoInk(SEPARATOR);
  }

  lemma {:induction false} InkOfStripLeft(s: string)
    ensures Ink(StripLeft(s)) == Ink(s)
  {
    if s != "" && IsSpace(s[0]) {
      InkOfStripLeft(s[1..]);
    }
  }

  lemma {:induction false} InkOfStripRight(s: string)
    ensures Ink(StripRight(s)) == Ink(s)
  {
    if s != "" && IsSpace(s[|s| - 1]) {
      var front := s[..|s| - 1];
      assert s == front + [s[|s| - 1]];
      InkOfStripRight(front);
      InkConcat(front, [s[|s| - 1]]);
      BlankHasNoInk([s[|s| - 1]]);
    }
  }

  /** The ink of several pieces. */
  function InkOf(ps: seq<string>): string {
    if ps == [] then "" else Ink(ps[0]) + InkOf(ps[1..])
  }

  lemma {:induction false} InkOfJoin(ps: seq<string>)
    ensures Ink(Join(ps)) == InkOf(ps)
  {
    if |ps| > 1 {
      InkOfJoin(ps[1..]);
      SeparatorHasNoInk();
      InkConcat(ps[0] + SEPARATOR, Join(ps[1..]));
      InkConcat(ps[0], SEPARATOR);
    }
  }

  lemma InkOfMore(p: string, ps: seq<string>)
    ensures InkOf([p] + ps) == Ink(p) + InkOf(ps)
  {
    assert ([p] + ps)[1..] == ps;
  }

  /** How a text splits, by what it starts with. */
  lemma SplitSeparator(rest: string)
    ensures Split(SEPARATOR + rest) == [""] + Split(rest)
  {
    assert (SEPARATOR + rest)[2..] == rest;
  }

  lemma SplitCharacter(c: char, rest: string)
    requires !(SEPARATOR <= [c] + rest)
    ensures Split([c] + rest) == [[c] + Split(rest)[0]] + Split(rest)[1..]
  {
    assert ([c] + rest)[1..] == rest;
  }

  lemma {:induction false} InkOfSplit(text: string)
    ensures InkOf(Split(text)) == Ink(text)
  {
    if text == "" {
      assert Split(text) == [""];
    } else if SEPARATOR <= text {
      var rest := text[2..];
      InkOfSplit(rest);
      assert text == SEPARATOR + rest;
      SplitSeparator(rest);
      InkOfMore("", Split(rest));
      InkConcat(SEPARATOR, rest);
      SeparatorHasNoInk();
    } else {
      var c, rest := text[0], text[1..];
      InkOfSplit(rest);
      assert text == [c] + rest;
      SplitCharacter(c, rest);
      InkOfFirst(c, Split(rest));
      InkConcat([c], rest);
    }
  }

  lemma AppendIsAssociative(a: string, b: string, c: string)
    ensures (a + b) + c == a + (b + c)
  {}

  lemma InkOfFirst(c: char, ps: seq<string>)
    requires ps != []
    ensures InkOf([[c] + ps[0]] + ps[1..]) == Ink([c]) + InkOf(ps)
  {
    hide Ink;
    InkOfMore([c] + ps[0], ps[1..]);
    InkConcat([c], ps[0]);
    assert InkOf(ps) == Ink(ps[0]) + InkOf(ps[1..]);
    hide InkOf;
    AppendIsAssociative(Ink([c]), Ink(ps[0]), InkOf(ps[1..]));
  }

  lemma {:induction false} InkOfStripped(pieces: seq<string>)
    ensures InkOf(StrippedNonEmpty(pieces)) == InkOf(pieces)
  {
    if pieces != [] {
      hide Strip;
      var p, rest := Strip(pieces[0]), StrippedNonEmpty(pieces[1..]);
      InkOfStripped(pieces[1..]);
      InkOfStrip(pieces[0]);
      InkOfMore(p, rest);
      assert [] + rest == rest;
    }
  }

  lemma InkOfStrip(s: string)
    ensures Ink(Strip(s)) == Ink(s)
  {
    InkOfStripLeft(s);
    InkOfStripRight(StripLeft(s));
  }

  /** The paragraphs hold every visible character of the text, in order. */
  lemma ParagraphsKeepInk(text: string)
    ensures Ink(Join(Paragraphs(text))) == Ink(text)
  {
    InkOfSplit(text);
    InkOfStripped(Split(text));
    InkOfJoin(Paragraphs(text));
  }

  /** And so do the chunks, whatever the limit. */
  lemma ChunksKeepInk(text: string, maxChars: int)
    ensures Ink(Join(Chunks(text, maxChars))) == Ink(text)
  {
    JoinedChunksKeepParagraphs(text, maxChars);
    ParagraphsKeepInk(text);
    ParagraphsKeepInk(Join(Chunks(text, maxChars)));
  }

  // ----- the paragraphs are the stripped pieces between blank lines -----

  lemma StillNoSeparator(a: string, tail: string)
    requires a != "" && a[|a| - 1] != '\n' && !(SEPARATOR <= a)
    ensures !(SEPARATOR <= a + tail)
  {
    BeginsWithSeparator(a);
    BeginsWithSeparator(a + tail);
    assert |a| >= 2 ==> (a + tail)[1] == a[1];
  }

  lemma BeginsWithSeparator(s: string)
    ensures SEPARATOR <= s <==> |s| >= 2 && s[0] == '\n' && s[1] == '\n'
  {
    if |s| >= 2 && s[0] == '\n' && s[1] == '\n' {
      assert s[..2] == SEPARATOR;
    }
  }

  /** A text breaks at its first blank line, and goes on as a text of its own. */
  lemma {:induction false} SplitAtBlankLine(a: string, b: string)
    requires a == "" || a[|a| - 1] != '\n'
    ensures Split(a + (SEPARATOR + b)) == Split(a) + Split(b)
    decreases |a|
  {
    var tail := SEPARATOR + b;
    hide Split;
    if a == "" {
      assert a + tail == tail;
      SplitSeparator(b);
      SplitEmpty();
    } else if SEPARATOR <= a {
      var rest := a[2..];
      assert a == SEPARATOR + rest && a + tail == SEPARATOR + (rest + tail);
      SplitAtBlankLine(rest, b);
      SplitSeparator(rest);
      SplitSeparator(rest + tail);
    } else {
      var c, rest := a[0], a[1..];
      assert a == [c] + rest && a + tail == [c] + (rest + tail);
      StillNoSeparator(a, tail);
      SplitAtBlankLine(rest, b);
      SplitCharacter(c, rest);
      SplitCharacter(c, rest + tail);
    }
  }

  lemma SplitEmpty()
    ensures Split("") == [""]
  {}

  lemma {:induction false} StrippedConcat(a: seq<string>, b: seq<string>)
    ensures StrippedNonEmpty(a + b) == StrippedNonEmpty(a) + StrippedNonEmpty(b)
  {
    if a == [] {
      assert a + b == b;
    } else {
      assert (a + b)[1..] == a[1..] + b;
      StrippedConcat(a[1..], b);
    }
  }

  /** What counts as white space: the 29 characters for which `str.isspace` holds. */
  lemma WhiteSpaceIs(c: char)
    ensures IsSpace(c) <==> c in {
      '\U{0009}', '\U{000A}', '\U{000B}', '\U{000C}', '\U{000D}', '\U{001C}', '\U{001D}', '\U{001E}', '\U{001F}',
      '\U{0020}', '\U{0085}', '\U{00A0}', '\U{1680}', '\U{2000}', '\U{2001}', '\U{2002}', '\U{2003}', '\U{2004}',
      '\U{2005}', '\U{2006}', '\U{2007}', '\U{2008}', '\U{2009}', '\U{200A}', '\U{2028}', '\U{2029}', '\U{202F}',
      '\U{205F}', '\U{3000}'}
  {}

  /** White space, a core, white space: stripping leaves the core. */
  ghost predicate Surrounds(left: string, core: string, right: string) {
    && (forall i :: 0 <= i < |left| ==> IsSpace(left[i]))
    && (forall i :: 0 <= i < |right| ==> IsSpace(right[i]))
    && (core != "" ==> !IsSpace(core[0]) && !IsSpace(core[|core| - 1]))
  }

  lemma {:induction false} StripLeftOf(left: string, rest: string)
    requires forall i :: 0 <= i < |left| ==> IsSpace(left[i])
    requires rest == "" || !IsSpace(rest[0])
    ensures StripLeft(left + rest) == rest
  {
    if left == "" {
      assert left + rest == rest;
    } else {
      assert (left + rest)[1..] == left[1..] + rest;
      StripLeftOf(left[1..], rest);
    }
  }

  lemma {:induction false} StripRightOf(rest: string, right: string)
    requires forall i :: 0 <= i < |right| ==> IsSpace(right[i])
    requires rest == "" || !IsSpace(rest[|rest| - 1])
    ensures StripRight(rest + right) == rest
  {
    var n := |right|;
    if n == 0 {
      assert rest + right == rest;
    } else {
      assert (rest + right)[..|rest + right| - 1] == rest + right[..n - 1];
      StripRightOf(rest, right[..n - 1]);
    }
  }

  lemma StripIs(left: string, core: string, right: string)
    requires Surrounds(left, core, right)
    ensures Strip(left + core + right) == core
  {
    if core == "" {
      assert left + core + right == (left + right) + "";
      forall i | 0 <= i < |left + right| ensures IsSpace((left + right)[i]) {
        assert (left + right)[i] == if i < |left| then left[i] else right[i - |left|];
      }
      StripLeftOf(left + right, "");
    } else {
      assert left + core + right == left + (core + right);
      StripLeftOf(left, core + right);
      StripRightOf(core, right);
    }
  }

  /**
   What the paragraphs of any text are.  A piece without a blank line is one paragraph, its core
   between the white space around it, or none; and a text with a blank line has the paragraphs before
   its first one followed by those after it.
   */
  lemma ParagraphsOfPiece(left: string, core: string, right: string)
    requires Surrounds(left, core, right) && NoSeparator(left + core + right)
    ensures Paragraphs(left + core + right) == if core == "" then [] else [core]
  {
    var piece := left + core + right;
    SplitOne(piece);
    StripIs(left, core, right);
    assert [piece][1..] == [] && StrippedNonEmpty([]) == [];
    assert StrippedNonEmpty([piece]) == (if core == "" then [] else [core]) + StrippedNonEmpty([piece][1..]);
  }

  lemma ParagraphsBreakAtBlankLines(a: string, b: string)
    requires a == "" || a[|a| - 1] != '\n'
    ensures Paragraphs(a + "\n\n" + b) == Paragraphs(a) + Paragraphs(b)
  {
    SplitAtBlankLine(a, b);
    assert a + "\n\n" + b == a + (SEPARATOR + b);
    StrippedConcat(Split(a), Split(b));
  }

  // ----- the eager packing -----

  /** No group but the last has room for the paragraph after it. */
  ghost predicate Eager(groups: seq<seq<string>>, maxChars: int) {
    forall k :: 0 <= k < |groups| - 1 && groups[k] != [] && groups[k + 1] != [] ==>
      |Join(groups[k] + [groups[k + 1][0]])| > maxChars
  }

  lemma {:induction false} EagerIsGreedy(groups: seq<seq<string>>, ps: seq<string>, maxChars: int)
    requires IsPacking(groups, ps, maxChars) && Eager(groups, maxChars)
    ensures Greedy(ps, [], maxChars) == groups
  {
    if groups != [] {
      var g, more := groups[0], groups[1..];
      assert g in groups && forall h <- more :: h in groups;
      var rest := Flatten(more);
      assert ps == g + rest && ps[..|g|] == g && ps[|g|..] == rest && [] + g == g;
      GreedyAbsorbs(ps, [], |g|, maxChars);
      assert Eager(more, maxChars) by {
        forall k | 0 <= k < |more| - 1 && more[k] != [] && more[k + 1] != []
          ensures |Join(more[k] + [more[k + 1][0]])| > maxChars
        {
          assert more[k] == groups[k + 1] && more[k + 1] == groups[k + 1 + 1];
        }
      }
      EagerIsGreedy(more, rest, maxChars);
      if more != [] {
        assert more[0] in groups && groups[0 + 1] == more[0];
        assert rest == more[0] + Flatten(more[1..]);
        GreedyOpens(rest, g, maxChars);
      }
    }
  }

  /** A paragraph that does not fit opens the next group, as if it came first. */
  lemma GreedyOpens(ps: seq<string>, current: seq<string>, maxChars: int)
    requires ps != [] && current != [] && |Join(current + [ps[0]])| > maxChars
    ensures Greedy(ps, current, maxChars) == [current] + Greedy(ps, [], maxChars)
  {
    assert [] + [ps[0]] == [ps[0]];
  }

  /** The chunks are the joined groups of the one packing that never leaves room for the next paragraph. */
  lemma ChunksAreEager(text: string, groups: seq<seq<string>>, maxChars: int)
    requires Paragraphs(text) != [] && IsPacking(groups, Paragraphs(text), maxChars) && Eager(groups, maxChars)
    ensures Chunks(text, maxChars) == JoinEach(groups)
  {
    EagerIsGreedy(groups, Paragraphs(text), maxChars);
    JoinEachIndex(groups);
  }

  lemma {:induction false} GreedyIsEager(ps: seq<string>, current: seq<string>, maxChars: int)
    ensures var groups := Greedy(ps, current, maxChars);
      && Eager(groups, maxChars)
      && (current != [] ==> groups != [] && |groups[0]| >= |current| && groups[0][..|current|] == current)
      && (current == [] && ps != [] ==> groups != [] && groups[0] != [] && groups[0][0] == ps[0])
  {
    if ps != [] {
      if current != [] && |Join(current + [ps[0]])| > maxChars {
        GreedyIsEager(ps[1..], [ps[0]], maxChars);
        var more := Greedy(ps[1..], [ps[0]], maxChars);
        assert more[0][0] == more[0][..1][0] == ps[0];
        var groups := [current] + more;
        forall k | 0 <= k < |groups| - 1 && groups[k] != [] && groups[k + 1] != []
          ensures |Join(groups[k] + [groups[k + 1][0]])| > maxChars
        {
          if k > 0 {
            assert groups[k] == more[k - 1] && groups[k + 1] == more[k - 1 + 1];
          }
        }
      } else {
        GreedyIsEager(ps[1..], current + [ps[0]], maxChars);
        var first := Greedy(ps[1..], current + [ps[0]], maxChars)[0];
        assert first[..|current|] == first[..|current| + 1][..|current|] == current;
        assert first[|current|] == first[..|current| + 1][|current|] == ps[0];
      }
    }
  }

  /** There is such a packing, so this says what the chunks of any text with a paragraph are. */
  lemma EagerPackingExists(text: string, maxChars: int) returns (groups: seq<seq<string>>)
    requires Paragraphs(text) != []
    ensures IsPacking(groups, Paragraphs(text), maxChars) && Eager(groups, maxChars)
  {
    groups := Greedy(Paragraphs(text), [], maxChars);
    GreedyIsPacking(Paragraphs(text), [], maxChars);
    assert [] + Paragraphs(text) == Paragraphs(text);
    GreedyIsEager(Paragraphs(text), [], maxChars);
  }

  /** And of a text without one: the text itself, unless it is empty. */
  lemma ChunksWithoutParagraphs(text: string, maxChars: int)
    requires Paragraphs(text) == []
    ensures Ink(text) == ""
    ensures Chunks(text, maxChars) == if text == "" then [] else [text]
  {
    ParagraphsKeepInk(text);
  }
}
