// A rewritten menu stays a fixed point when its kernel group is bound to another machine.
module MenuRebound {
  import opened Bytes
  import opened MenuText
  import opened MenuLines
  import opened BootMenu
  import opened MenuRoundTrip
  import opened MenuArrange
  import opened MenuConfluence
  import opened MenuTheorems
  import opened MenuRebind
  import opened MenuIdentity

  // Any plain body of the group that names a machine leaves the menu a fixed point.

  function WithBody(es: seq<Entry>, at: nat, body: seq<string>): seq<Entry>
    requires at < |es|
  {
    es[at := Entry(es[at].heading, body)]
  }

  lemma BodyHeadings(es: seq<Entry>, at: nat, b: nat, kernel: Entry, body: seq<string>)
    requires 2 <= at && TwoManaged(es) && Children(es, at, b) && AsMade(es) && KernelIs(es, at, b, kernel)
    ensures var changed := WithBody(es, at, body);
            TwoManaged(changed) && Children(changed, at, b) && AsMade(changed) && KernelIs(changed, at, b, kernel)
  {
    hide Values, Kernels, HasImage, WindowsEntry, OMARCHY, WINDOWS, START_OMARCHY;
    var changed := WithBody(es, at, body);
    assert changed[at + 1..at + 1 + b] == es[at + 1..at + 1 + b];
    forall i | 0 <= i < |es|
      ensures changed[i].heading == es[i].heading && (IsManaged(changed[i]) <==> i < 2)
    {
    }
  }

  lemma BodyShape(es: seq<Entry>, at: nat, b: nat, kernel: Entry, body: seq<string>, word: char -> bool)
    requires Shape(es, at, b, word) && KernelIs(es, at, b, kernel) && OfMachine(body, word)
    ensures Shape(WithBody(es, at, body), at, b, word) && KernelIs(WithBody(es, at, body), at, b, kernel)
  {
    assert IsGroup(es[at], word);
    hide TwoManaged, Children, AsMade, KernelIs, OfMachine, IsGroup, Retitled;
    BodyHeadings(es, at, b, kernel, body);
  }

  /** What the theorem needs of a written menu that is a fixed point. */
  ghost predicate Fixed(h: seq<string>, s: Settings, es: seq<Entry>, at: nat, b: nat, kernel: Entry, word: char -> bool) {
    && AllPlain(h) && ValidSettings(s) && CleanAll(es) && Shape(es, at, b, word) && KernelIs(es, at, b, kernel)
    && es[0] == Primary(kernel) && CleanEntry(kernel) && Filled(kernel.body)
    && kernel.body != [] && kernel.body[0] != "" && es[2].heading.level <= 1
  }

  lemma FixedRenders(h: seq<string>, s: Settings, es: seq<Entry>, at: nat, b: nat, kernel: Entry, word: char -> bool)
    requires Fixed(h, s, es, at, b, kernel, word) && Supported(Write(h, s, es))
    ensures Render(Write(h, s, es), s, word) == Ok(Write(h, s, es))
  {
    hide CleanAll, CleanEntry, Primary, WindowsEntry, Retitled, Filled, Back, KernelIs, TwoManaged, AsMade, Children,
         EntriesBack, Write, Arrange, HeaderBack, Plain, Again, Supported, Read;
    ReadWritten(h, s, es);
    EntriesAreBack(es);
    MadeSecond(es);
    var kernel' := ArrangeAgain(es, EntriesBack(es), at, b, kernel, word);
    assert Again(EntriesBack(es), at, kernel') == Arrange(EntriesBack(es), word).value by {
      AgainIs(EntriesBack(es), at, kernel');
    }
    SecondWrite(h, s, es, at, kernel, kernel');
  }

  lemma AgainIs(es: seq<Entry>, at: nat, kernel: Entry)
    requires 2 <= at < |es|
    ensures Again(es, at, kernel) == [Primary(kernel), WindowsEntry()] + (es[2..at] + [Retitled(es[at])] + es[at + 1..])
  {
  }

  lemma FixedWithBody(h: seq<string>, s: Settings, es: seq<Entry>, at: nat, b: nat, kernel: Entry, body: seq<string>,
                      word: char -> bool)
    requires Fixed(h, s, es, at, b, kernel, word) && OfMachine(body, word) && AllPlain(body)
    ensures Fixed(h, s, WithBody(es, at, body), at, b, kernel, word)
  {
    hide KernelIs, CleanEntry, Primary, OfMachine, Filled, IsGroup, TwoManaged, Children, AsMade, Retitled, Plain;
    BodyShape(es, at, b, kernel, body, word);
    assert CleanEntry(es[at]);
    BodyClean(es[at], body);
    assert 2 <= at;
  }

  lemma BodyClean(e: Entry, body: seq<string>)
    requires CleanEntry(e) && AllPlain(body)
    ensures CleanEntry(Entry(e.heading, body))
  {
  }

  /** A fixed point of the rewriter was written from such entries. */
  lemma FixedIsWritten(y: string, s: Settings, word: char -> bool)
    returns (h: seq<string>, es: seq<Entry>, at: nat, b: nat, kernel: Entry)
    requires Render(y, s, word) == Ok(y)
    ensures Fixed(h, s, es, at, b, kernel, word) && y == Write(h, s, es)
  {
    hide Read, Arrange, Write, CleanEntry, Primary, WindowsEntry, Retitled, Filled, TheKernel, HeaderBack, Plain, Supported,
         KernelIs, Shape;
    var m := Read(y);
    h, es := m.header, Arrange(m.entries, word).value;
    ReadIsClean(y);
    FixedPoint(y, s, word);
    at, b, kernel := FirstArrange(m.entries, es, word);
  }

  // Texts as lines with their ends.

  function Ended(ls: seq<string>): (r: seq<string>)
    ensures |r| == |ls|
  {
    seq(|ls|, i requires 0 <= i < |ls| => ls[i] + "\n")
  }

  lemma {:induction false} KeepUnlines(ls: seq<string>)
    requires AllLines(ls)
    ensures KeepLines(Unlines(ls)) == Ended(ls)
  {
    hide IsLine, KeepLines;
    if ls != [] {
      KeepFirst(ls[0], Unlines(ls[1..]));
      KeepUnlines(ls[1..]);
      assert Ended(ls) == [ls[0] + "\n"] + Ended(ls[1..]);
    } else {
      KeepNothing();
    }
  }

  lemma KeepNothing()
    ensures KeepLines("") == []
  {
  }

  lemma KeepFirst(line: string, rest: string)
    requires IsLine(line)
    ensures KeepLines(line + "\n" + rest) == [line + "\n"] + KeepLines(rest)
  {
    hide LineEnd;
    var s := line + "\n" + rest;
    LineEndAt(s, 0, |line|);
    assert s[..|line| + 1] == line + "\n" && s[|line| + 1..] == rest;
  }

  lemma {:induction false} ConcatEnded(ls: seq<string>)
    ensures Concat(Ended(ls)) == Unlines(ls)
  {
    if ls != [] {
      ConcatEnded(ls[1..]);
      assert Ended(ls)[1..] == Ended(ls[1..]);
    }
  }

  // Where the group stands among the lines.

  lemma {:induction false} GlueAppend(a: seq<seq<string>>, b: seq<seq<string>>)
    requires a != [] && b != []
    ensures Glue(a + b) == Glue(a) + [""] + Glue(b)
    decreases |b|
  {
    var n := |b| - 1;
    assert a + b == a + b[..n] + [b[n]];
    if n > 0 {
      GlueAppend(a, b[..n]);
      assert b == b[..n] + [b[n]];
      assert Glue(a) + [""] + Glue(b[..n]) + [""] + b[n] == Glue(a) + [""] + (Glue(b[..n]) + [""] + b[n]);
    } else {
      assert a + b[..n] == a && b == [b[0]];
    }
  }

  /** What stands before and behind a block. */
  function Before(a: seq<seq<string>>): seq<string> {
    Glue(a) + [""]
  }

  function Behind(b: seq<seq<string>>): seq<string> {
    if b == [] then [] else [""] + Glue(b)
  }

  lemma GlueMiddle(a: seq<seq<string>>, x: seq<string>, b: seq<seq<string>>)
    requires a != []
    ensures Glue(a + [x] + b) == Before(a) + x + Behind(b)
  {
    if b == [] {
      assert a + [x] + b == a + [x];
      assert Glue(a) + [""] + x + [] == Glue(a) + [""] + x;
    } else {
      GlueAppend(a + [x], b);
      assert Glue(a) + [""] + x + [""] + Glue(b) == Glue(a) + [""] + x + ([""] + Glue(b));
    }
  }

  /** The lines of a written menu around the entry at a place. */
  function LinesBefore(h: seq<string>, s: Settings, es: seq<Entry>, at: nat): seq<string>
    requires at < |es|
  {
    Before(Front(h, s) + Blocks(es[..at]))
  }

  function LinesAfter(es: seq<Entry>, at: nat): seq<string>
    requires at < |es|
  {
    Behind(Blocks(es[at + 1..]))
  }

  function WrittenLinesOf(h: seq<string>, s: Settings, es: seq<Entry>): seq<string> {
    Glue(Front(h, s) + Blocks(es))
  }

  lemma AroundEntry(h: seq<string>, s: Settings, es: seq<Entry>, at: nat)
    requires at < |es|
    ensures WrittenLinesOf(h, s, es) == LinesBefore(h, s, es, at) + EntryLines(es[at]) + LinesAfter(es, at)
  {
    hide Front, EntryLines, Glue;
    var a, x, b := Front(h, s) + Blocks(es[..at]), EntryLines(es[at]), Blocks(es[at + 1..]);
    assert Blocks(es) == Blocks(es[..at]) + [x] + b;
    assert Front(h, s) + Blocks(es) == a + [x] + b;
    GlueMiddle(a, x, b);
  }

  lemma WrittenIsUnlines(h: seq<string>, s: Settings, es: seq<Entry>)
    requires AllPlain(h) && CleanAll(es)
    ensures AllLines(WrittenLinesOf(h, s, es)) && Write(h, s, es) == Unlines(WrittenLinesOf(h, s, es))
  {
    hide Front, Blocks, Glue, Write, Plain, CleanEntry, IsLine;
    WriteGlues(h, s, es);
    WrittenLines(h, s, es);
    JoinIsUnlines(WrittenLinesOf(h, s, es));
  }

  /** Behind an entry's lines there is nothing, or an empty line and the next heading. */
  lemma BehindEntry(es: seq<Entry>, at: nat)
    requires at < |es| && CleanAll(es)
    ensures LinesAfter(es, at) == []
         || (|LinesAfter(es, at)| > 1 && LinesAfter(es, at)[0] == "" && EndsGroup(LinesAfter(es, at)[1]))
  {
    hide EntryLines, Glue, EndsGroup, CleanEntry;
    var b := Blocks(es[at + 1..]);
    if b != [] {
      var e := es[at + 1];
      assert CleanEntry(e) && b[0] == EntryLines(e);
      assert b == [b[0]] + b[1..];
      GlueHead(b[0], b[1..]);
      EntryEnds(e);
    }
  }

  lemma GlueHead(x: seq<string>, b: seq<seq<string>>)
    requires x != []
    ensures Glue([x] + b) != [] && Glue([x] + b)[0] == x[0]
  {
    if b == [] {
      assert [x] + b == [x];
    } else {
      GlueAppend([x], b);
    }
  }

  lemma EntryEnds(e: Entry)
    requires CleanEntry(e)
    ensures EndsGroup(EntryLines(e)[0])
  {
  }

  // The root, the range and the one replaced line.

  lemma {:induction false} OnlyRoot(lines: seq<string>, i: nat, k: nat)
    requires i <= k < |lines| && IsRootLine(lines[k]) && |RootsFrom(lines, i)| <= 1
    ensures RootsFrom(lines, i) == [k]
    decreases k - i
  {
    hide IsRootLine;
    if i < k {
      assert |RootsFrom(lines, i + 1)| <= |RootsFrom(lines, i)|;
      OnlyRoot(lines, i + 1, k);
      assert !IsRootLine(lines[i]);
    } else {
      assert RootsFrom(lines, i) == [k] + RootsFrom(lines, i + 1);
    }
  }

  lemma {:induction false} SameRoots(lines: seq<string>, lines': seq<string>, i: nat)
    requires |lines| == |lines'| && i <= |lines|
    requires forall k | i <= k < |lines| :: IsRootLine(lines[k]) <==> IsRootLine(lines'[k])
    ensures RootsFrom(lines, i) == RootsFrom(lines', i)
    decreases |lines| - i
  {
    hide IsRootLine;
    if i < |lines| {
      SameRoots(lines, lines', i + 1);
    }
  }

  lemma {:induction false} SameEnd(lines: seq<string>, lines': seq<string>, i: nat)
    requires |lines| == |lines'| && i <= |lines|
    requires forall k | i <= k < |lines| :: EndsGroup(lines[k]) <==> EndsGroup(lines'[k])
    ensures RangeEnd(lines, i) == RangeEnd(lines', i)
    decreases |lines| - i
  {
    hide EndsGroup;
    if i < |lines| {
      SameEnd(lines, lines', i + 1);
    }
  }

  lemma {:induction false} EndBefore(lines: seq<string>, i: nat, k: nat)
    requires i <= k < |lines| && EndsGroup(lines[k])
    ensures RangeEnd(lines, i) <= k
    decreases k - i
  {
    hide EndsGroup;
    if i < k && !EndsGroup(lines[i]) {
      EndBefore(lines, i + 1, k);
    }
  }

  predicate Untouched(lines: seq<string>, m: string, word: char -> bool, k: nat)
    requires k < |lines|
  {
    ReplacedLine(lines[k], m, word) == (lines[k], 0)
  }

  lemma ZeroLine(line: string, m: string, word: char -> bool)
    requires ReplacedLine(line, m, word).1 == 0
    ensures ReplacedLine(line, m, word) == (line, 0)
  {
    if IsComment(line) {
      assert line[0..] == line;
    }
  }

  lemma {:induction false} ZeroRange(lines: seq<string>, m: string, word: char -> bool)
    requires ReplacedRange(lines, m, word).1 == 0
    ensures ReplacedRange(lines, m, word).0 == lines && forall k | 0 <= k < |lines| :: Untouched(lines, m, word, k)
  {
    if lines != [] {
      ZeroRange(lines[1..], m, word);
      ZeroLine(lines[0], m, word);
      hide ReplacedLine;
      assert lines == [lines[0]] + lines[1..];
      forall k | 0 <= k < |lines|
        ensures Untouched(lines, m, word, k)
      {
        assert k > 0 ==> Untouched(lines[1..], m, word, k - 1);
      }
    }
  }

  lemma RangeStep(lines: seq<string>, m: string, word: char -> bool)
    requires lines != []
    ensures ReplacedRange(lines, m, word).0
         == [ReplacedLine(lines[0], m, word).0] + ReplacedRange(lines[1..], m, word).0
    ensures ReplacedRange(lines, m, word).1 == ReplacedLine(lines[0], m, word).1 + ReplacedRange(lines[1..], m, word).1
  {
    hide ReplacedLine;
  }

  lemma UntouchedRest(lines: seq<string>, m: string, word: char -> bool, k: nat)
    requires 0 < k < |lines|
    ensures Untouched(lines, m, word, k) <==> Untouched(lines[1..], m, word, k - 1)
  {
    hide ReplacedLine;
  }

  /** Nothing but line j is touched. */
  ghost predicate OnlyAt(lines: seq<string>, m: string, word: char -> bool, j: nat) {
    forall k | 0 <= k < |lines| && k != j :: Untouched(lines, m, word, k)
  }

  lemma OnlyFirst(lines: seq<string>, m: string, word: char -> bool)
    requires lines != [] && forall k | 0 <= k < |lines| - 1 :: Untouched(lines[1..], m, word, k)
    ensures OnlyAt(lines, m, word, 0)
  {
    hide Untouched;
    forall k | 0 < k < |lines|
      ensures Untouched(lines, m, word, k)
    {
      UntouchedRest(lines, m, word, k);
    }
  }

  lemma OnlyLater(lines: seq<string>, m: string, word: char -> bool, i: nat)
    requires lines != [] && OnlyAt(lines[1..], m, word, i) && ReplacedLine(lines[0], m, word).1 == 0
    ensures OnlyAt(lines, m, word, i + 1)
  {
    FirstUntouched(lines, m, word);
    hide Untouched, ReplacedLine;
    forall k | 0 < k < |lines| && k != i + 1
      ensures Untouched(lines, m, word, k)
    {
      UntouchedRest(lines, m, word, k);
    }
  }

  lemma NotNone(lines: seq<string>, m: string, word: char -> bool)
    requires ReplacedRange(lines, m, word).1 > 0
    ensures lines != []
  {
  }

  /** Where one identity is replaced in all, it is in one line, and the others stay as they are. */
  lemma {:induction false} OneInRange(lines: seq<string>, m: string, word: char -> bool) returns (j: nat)
    requires ReplacedRange(lines, m, word).1 == 1
    ensures j < |lines| && ReplacedLine(lines[j], m, word).1 == 1
    ensures ReplacedRange(lines, m, word).0 == lines[j := ReplacedLine(lines[j], m, word).0]
    ensures OnlyAt(lines, m, word, j)
  {
    hide ReplacedLine, ReplacedRange, Untouched, OnlyAt;
    NotNone(lines, m, word);
    var rest := lines[1..];
    RangeStep(lines, m, word);
    if ReplacedLine(lines[0], m, word).1 == 1 {
      ZeroRange(rest, m, word);
      OnlyFirst(lines, m, word);
      j := 0;
      UpdateFirst(lines, ReplacedLine(lines[0], m, word).0);
    } else {
      ZeroLine(lines[0], m, word);
      var i := OneInRange(rest, m, word);
      OnlyLater(lines, m, word, i);
      j := i + 1;
      UpdateLater(lines, i, ReplacedLine(rest[i], m, word).0);
    }
  }

  lemma UpdateFirst<T>(s: seq<T>, v: T)
    requires s != []
    ensures s[0 := v] == [v] + s[1..]
  {
  }

  lemma UpdateLater<T>(s: seq<T>, i: nat, v: T)
    requires i + 1 < |s|
    ensures s[1..][i] == s[i + 1] && s[i + 1 := v] == [s[0]] + s[1..][i := v]
  {
  }

  lemma FirstUntouched(lines: seq<string>, m: string, word: char -> bool)
    requires lines != [] && ReplacedLine(lines[0], m, word).1 == 0
    ensures Untouched(lines, m, word, 0)
  {
    ZeroLine(lines[0], m, word);
  }

  lemma {:induction false} AllUntouched(lines: seq<string>, m: string, word: char -> bool)
    requires forall k | 0 <= k < |lines| :: Untouched(lines, m, word, k)
    ensures ReplacedRange(lines, m, word) == (lines, 0)
  {
    if lines != [] {
      assert Untouched(lines, m, word, 0);
      hide ReplacedLine;
      forall k | 0 <= k < |lines[1..]|
        ensures Untouched(lines[1..], m, word, k)
      {
        assert Untouched(lines, m, word, k + 1);
      }
      AllUntouched(lines[1..], m, word);
      assert lines == [lines[0]] + lines[1..];
    }
  }

  /** A range that already names the machine in its one identity is left as it is. */
  lemma {:induction false} RangeAgain(lines: seq<string>, j: nat, m: string, word: char -> bool)
    requires j < |lines| && ReplacedLine(lines[j], m, word) == (lines[j], 1)
    requires forall k | 0 <= k < |lines| && k != j :: Untouched(lines, m, word, k)
    ensures ReplacedRange(lines, m, word) == (lines, 1)
    decreases j
  {
    hide ReplacedLine;
    var rest := lines[1..];
    assert lines == [lines[0]] + rest;
    forall k | 0 <= k < |rest| && k != j - 1
      ensures Untouched(rest, m, word, k)
    {
      assert Untouched(lines, m, word, k + 1);
    }
    if j == 0 {
      AllUntouched(rest, m, word);
    } else {
      assert Untouched(lines, m, word, 0);
      RangeAgain(rest, j - 1, m, word);
    }
  }

  lemma GroupHeading(e: Entry, word: char -> bool)
    requires IsGroup(e, word) && Retitled(e) == e
    ensures e.heading == Heading(1, false, ADVANCED)
  {
    hide ADVANCED, OfMachine;
  }

  lemma RootHeading(line: string)
    requires line == "/" + ADVANCED + "\n"
    ensures IsRootLine(line)
  {
    AdvancedStarts();
    hide ADVANCED;
    SkipSpaceTo(line, 0, 0);
    var rest := line[1..];
    assert rest == ADVANCED + "\n";
    assert rest[..|ADVANCED|] == ADVANCED && rest[|ADVANCED|..] == "\n";
  }

  lemma GroupIsRoot(e: Entry, word: char -> bool)
    requires IsGroup(e, word) && Retitled(e) == e
    ensures IsRootLine(HeadingLine(e.heading) + "\n")
  {
    hide IsRootLine, IsGroup, Retitled, ADVANCED;
    GroupHeading(e, word);
    assert HeadingLine(e.heading) == "/" + ADVANCED;
    RootHeading(HeadingLine(e.heading) + "\n");
  }

  lemma AdvancedStarts()
    ensures |ADVANCED| > 0 && ADVANCED[0] != '+'
  {
  }

}
