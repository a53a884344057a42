// What becomes of the other lines and entries of a menu that is rewritten.
module MenuContents {
  import opened Bytes
  import opened MenuText
  import opened MenuLines
  import opened BootMenu
  import opened MenuRoundTrip
  import opened MenuArrange
  import opened MenuConfluence
  import opened MenuTheorems
  import opened MenuRebound
  import opened MenuSettings
  import opened MenuAccepts

  // Reading loses nothing but the settings.

  /** A title, or a line that sets none of the four settings. */
  predicate Lasts(line: string) {
    || HeadingOf(line).Some?
    || (!HasKey(line, "timeout") && !HasKey(line, "default_entry") && !HasKey(line, "remember_last_entry") && !HasKey(line, "quiet"))
  }

  function Lasting(lines: seq<string>): seq<string> {
    if lines == [] then [] else Lasting(lines[..|lines| - 1]) + if Lasts(lines[|lines| - 1]) then [lines[|lines| - 1]] else []
  }

  predicate NoTitles(lines: seq<string>) {
    forall i | 0 <= i < |lines| :: HeadingOf(lines[i]).None?
  }

  /** The lines of entries under these titles. */
  function Under(titles: seq<string>, entries: seq<Entry>): seq<string>
    requires |titles| == |entries|
  {
    if entries == [] then []
    else
      var n := |entries| - 1;
      Under(titles[..n], entries[..n]) + [titles[n]] + entries[n].body
  }

  /** The menu is made of these lines: the header, and each entry with its title. */
  predicate MadeOf(m: Menu, titles: seq<string>, lines: seq<string>) {
    && |titles| == |m.entries| && lines == m.header + Under(titles, m.entries)
    && NoTitles(m.header) && (forall i | 0 <= i < |m.entries| :: NoTitles(m.entries[i].body))
    && forall i | 0 <= i < |m.entries| :: HeadingOf(titles[i]) == Some(m.entries[i].heading)
  }

  lemma GlobalExact(line: string)
    ensures IsGlobal(line) <==> HasKey(line, "timeout") || HasKey(line, "default_entry") || HasKey(line, "remember_last_entry")
                                || HasKey(line, "quiet")
  {
    hide OptionOf;
  }

  lemma LastingNext(lines: seq<string>, line: string)
    ensures Lasting(lines + [line]) == Lasting(lines) + if Lasts(line) then [line] else []
  {
    hide Lasts;
    assert (lines + [line])[..|lines|] == lines;
  }

  lemma MadeTitle(m: Menu, titles: seq<string>, lines: seq<string>, line: string)
    requires MadeOf(m, titles, lines) && HeadingOf(line).Some?
    ensures MadeOf(ReadLine(m, line), titles + [line], lines + [line])
  {
    hide HeadingOf, IsGlobal, Under;
    UnderMore(titles, m.entries, line, HeadingOf(line).value);
    Regroup(m.header, Under(titles, m.entries), [line]);
  }

  lemma MadeHeader(m: Menu, titles: seq<string>, lines: seq<string>, line: string)
    requires MadeOf(m, titles, lines) && HeadingOf(line).None? && m.entries == []
    ensures MadeOf(Menu(m.header + [line], []), titles, lines + [line])
  {
    hide HeadingOf;
    assert m.header + [line] + [] == m.header + [] + [line];
  }

  lemma MadeBody(m: Menu, titles: seq<string>, lines: seq<string>, line: string)
    requires MadeOf(m, titles, lines) && HeadingOf(line).None? && m.entries != []
    ensures var n := |m.entries| - 1;
            MadeOf(Menu(m.header, m.entries[..n] + [Entry(m.entries[n].heading, m.entries[n].body + [line])]), titles, lines + [line])
  {
    hide HeadingOf, Under;
    UnderLonger(titles, m.entries, line);
    Regroup(m.header, Under(titles, m.entries), [line]);
  }

  /** One line more makes a new entry, goes to the last one or to the header, or is a setting. */
  lemma MadeNext(m: Menu, titles: seq<string>, lines: seq<string>, line: string) returns (titles': seq<string>)
    requires MadeOf(m, titles, lines)
    ensures MadeOf(ReadLine(m, line), titles', lines + if Lasts(line) then [line] else [])
  {
    hide HeadingOf, HasKey, IsGlobal, MadeOf;
    GlobalExact(line);
    titles' := titles;
    if HeadingOf(line).Some? {
      titles' := titles + [line];
      MadeTitle(m, titles, lines, line);
    } else if IsGlobal(line) {
      assert lines + [] == lines;
    } else if m.entries == [] {
      MadeHeader(m, titles, lines, line);
    } else {
      MadeBody(m, titles, lines, line);
    }
  }

  lemma UnderMore(titles: seq<string>, entries: seq<Entry>, line: string, h: Heading)
    requires |titles| == |entries|
    ensures Under(titles + [line], entries + [Entry(h, [])]) == Under(titles, entries) + [line]
  {
    assert (titles + [line])[..|entries|] == titles && (entries + [Entry(h, [])])[..|entries|] == entries;
    assert Under(titles, entries) + [line] + [] == Under(titles, entries) + [line];
  }

  lemma UnderLonger(titles: seq<string>, entries: seq<Entry>, line: string)
    requires |titles| == |entries| > 0
    ensures var n := |entries| - 1;
            var longer := entries[..n] + [Entry(entries[n].heading, entries[n].body + [line])];
            Under(titles, longer) == Under(titles, entries) + [line]
  {
    var n := |entries| - 1;
    var longer := entries[..n] + [Entry(entries[n].heading, entries[n].body + [line])];
    assert longer[..n] == entries[..n];
    Regroup(Under(titles[..n], entries[..n]) + [titles[n]], entries[n].body, [line]);
  }

  lemma {:induction false} MadeAll(m: Menu, titles: seq<string>, before: seq<string>, lines: seq<string>)
    returns (titles': seq<string>)
    requires MadeOf(m, titles, Lasting(before))
    ensures MadeOf(ReadLines(m, lines), titles', Lasting(before + lines))
    decreases |lines|
  {
    hide MadeOf, ReadLine, Lasts;
    if lines == [] {
      titles' := titles;
      assert before + lines == before;
    } else {
      var next := MadeNext(m, titles, Lasting(before), lines[0]);
      LastingNext(before, lines[0]);
      titles' := MadeAll(ReadLine(m, lines[0]), next, before + [lines[0]], lines[1..]);
      assert before + [lines[0]] + lines[1..] == before + lines;
    }
  }

  /** Every line is kept in its order, in the header or below its title, but for the four settings. */
  lemma ReadKeeps(text: string) returns (titles: seq<string>)
    ensures MadeOf(Read(text), titles, Lasting(SplitLines(text)))
  {
    hide SplitLines, ReadLines;
    titles := MadeAll(Menu([], []), [], [], SplitLines(text));
    assert [] + SplitLines(text) == SplitLines(text);
  }

  // Empty lines aside.

  function Full(lines: seq<string>): seq<string> {
    if lines == [] then [] else (if lines[0] == "" then [] else [lines[0]]) + Full(lines[1..])
  }

  lemma {:induction false} FullAppend(a: seq<string>, b: seq<string>)
    ensures Full(a + b) == Full(a) + Full(b)
  {
    if a == [] {
      assert a + b == b;
    } else {
      assert (a + b)[1..] == a[1..] + b;
      FullAppend(a[1..], b);
    }
  }

  lemma NothingFull()
    ensures Full([""]) == []
  {
  }

  lemma {:induction false} FullLeft(lines: seq<string>)
    ensures Full(TrimLeft(lines)) == Full(lines)
  {
    if lines != [] && lines[0] == "" {
      FullLeft(lines[1..]);
    }
  }

  lemma {:induction false} FullRight(lines: seq<string>)
    ensures Full(TrimRight(lines)) == Full(lines)
  {
    if lines != [] && lines[|lines| - 1] == "" {
      var n := |lines| - 1;
      FullRight(lines[..n]);
      FullAppend(lines[..n], [""]);
      NothingFull();
      assert lines == lines[..n] + [""];
    }
  }

  lemma FullBody(body: seq<string>)
    ensures Full(Trim(body)) == Full(body) && Full(Body(body)) == Full(body)
  {
    FullLeft(body);
    FullRight(TrimLeft(body));
    NothingFull();
    hide TrimLeft, TrimRight;
  }

  // The entries.

  /** What becomes of an entry: the group gets its title, and the installer's own entries go. */
  function Other(e: Entry, group: bool): seq<Entry> {
    if group then [Entry(Heading(1, false, "Advanced Omarchy options"), e.body)]
    else if e.heading.level == 1 && (e.heading.title == "Omarchy" || e.heading.title == "Windows") then []
    else [e]
  }

  /** The entries but those that are the installer's own, and the group under its new title. */
  function Others(entries: seq<Entry>, g: nat, i: nat): seq<Entry>
    requires i <= |entries|
    decreases |entries| - i
  {
    if i == |entries| then [] else Other(entries[i], i == g) + Others(entries, g, i + 1)
  }

  lemma OtherIsKept(e: Entry)
    ensures Other(e, false) == if IsManaged(e) then [] else [e]
  {
  }

  lemma {:induction false} OthersBehind(entries: seq<Entry>, g: nat, i: nat)
    requires g < i <= |entries|
    ensures Others(entries, g, i) == Kept(entries[i..])
    decreases |entries| - i
  {
    hide Other, IsManaged;
    if i < |entries| {
      OtherIsKept(entries[i]);
      OthersBehind(entries, g, i + 1);
      assert entries[i..][1..] == entries[i + 1..];
    }
  }

  lemma {:induction false} OthersUpTo(entries: seq<Entry>, g: nat, i: nat)
    requires i <= g < |entries| && entries[g].heading.level == 1
    ensures Others(entries, g, i) == Kept(entries[i..g]) + [Retitled(entries[g])] + Kept(entries[g + 1..])
    decreases g - i
  {
    hide Retitled, Other, IsManaged, Others, Kept;
    OthersStep(entries, g, i);
    if i == g {
      OthersBehind(entries, g, g + 1);
      GroupTitle(entries[g]);
      KeptNothing();
      assert entries[g..g] == [];
      assert [] + [Retitled(entries[g])] == [Retitled(entries[g])];
    } else {
      OthersUpTo(entries, g, i + 1);
      OtherIsKept(entries[i]);
      KeptStep(entries[i..g]);
      assert entries[i..g][0] == entries[i];
      assert entries[i..g][1..] == entries[i + 1..g];
      var first := Other(entries[i], false);
      assert first + (Kept(entries[i + 1..g]) + [Retitled(entries[g])] + Kept(entries[g + 1..]))
          == first + Kept(entries[i + 1..g]) + [Retitled(entries[g])] + Kept(entries[g + 1..]);
    }
  }

  lemma OthersStep(entries: seq<Entry>, g: nat, i: nat)
    requires i < |entries|
    ensures Others(entries, g, i) == Other(entries[i], i == g) + Others(entries, g, i + 1)
  {
    hide Other;
  }

  lemma KeptStep(entries: seq<Entry>)
    requires entries != []
    ensures Kept(entries) == (if IsManaged(entries[0]) then [] else [entries[0]]) + Kept(entries[1..])
  {
    hide IsManaged;
  }

  lemma KeptNothing()
    ensures Kept([]) == []
  {
  }

  lemma GroupTitle(e: Entry)
    requires e.heading.level == 1
    ensures Other(e, true) == [Retitled(e)]
  {
  }

  /** The same titles over the same lines, empty ones aside. */
  predicate Alike(a: seq<Entry>, b: seq<Entry>) {
    |a| == |b| && forall i | 0 <= i < |a| :: a[i].heading == b[i].heading && Full(a[i].body) == Full(b[i].body)
  }

  lemma BackAlike(es: seq<Entry>)
    ensures Alike(EntriesBack(es), es)
  {
    hide Body;
    forall i | 0 <= i < |es|
      ensures Full(EntriesBack(es)[i].body) == Full(es[i].body)
    {
      FullBody(es[i].body);
      FullAppend(Body(es[i].body), if i + 1 < |es| then [""] else []);
      NothingFull();
    }
  }

  lemma HeaderAlike(header: seq<string>)
    ensures Full(HeaderBack(header) + [""]) == Full(header)
  {
    hide Trim, Full;
    FullBody(header);
    FullAppend(HeaderBack(header), [""]);
    FullAppend(Trim(header), [""]);
    NothingFull();
    NoneFull();
  }

  lemma NoneFull()
    ensures Full([]) == []
  {
  }

  lemma ArrangedOthers(entries: seq<Entry>, word: char -> bool) returns (g: nat)
    requires Arrange(entries, word).Ok?
    ensures IsTheGroup(entries, g, word) && |Arrange(entries, word).value| >= 2
    ensures Arrange(entries, word).value[2..] == Others(entries, g, 0)
  {
    hide Groups, Kernels, GroupEnd, NoneChanged, HasImage, Kept, Primary, WindowsEntry, Retitled, IsMachineGroup, Others, Other;
    g := Groups(entries, 0, word)[0];
    GroupExact(entries, g, word);
    TopLevel(entries[g], word);
    OthersUpTo(entries, g, 0);
    assert entries[0..g] == entries[..g];
  }

  lemma TopLevel(e: Entry, word: char -> bool)
    requires IsMachineGroup(e, word)
    ensures e.heading.level == 1
  {
  }

  /**
   * The rewritten menu keeps the header and, behind its own two, all entries in their order but earlier ones of
   * the installer's, the kernel group under its new title. Only empty lines may come and go.
   */
  lemma ContentsKept(text: string, s: Settings, word: char -> bool)
    requires Render(text, s, word).Ok?
    ensures var m, y := Read(text), Read(Render(text, s, word).value);
            && Full(y.header) == Full(m.header) && |y.entries| >= 2
            && exists g :: IsTheGroup(m.entries, g, word) && Alike(y.entries[2..], Others(m.entries, g, 0))
  {
    hide Read, Arrange, Write, CleanEntry, Plain, KernelIs, Filled, TheKernel, Supported, OneGroup, TwoManaged, Children,
         AsMade, Retitled, WindowsEntry, Primary, EntriesBack, HeaderBack, IsTheGroup, Others, Full;
    var m := Read(text);
    ReadIsClean(text);
    var es := Arrange(m.entries, word).value;
    var at, b, kernel := FirstArrange(m.entries, es, word);
    ShapeSize(es, at, b, word);
    ReadWritten(m.header, s, es);
    HeaderAlike(m.header);
    BackAlike(es);
    var g := ArrangedOthers(m.entries, word);
    AlikeFrom(EntriesBack(es), es, 2);
  }

  lemma AlikeFrom(a: seq<Entry>, b: seq<Entry>, n: nat)
    requires Alike(a, b) && n <= |a|
    ensures Alike(a[n..], b[n..])
  {
    hide Full;
  }
}
