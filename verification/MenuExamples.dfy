// Menus that the rewriter accepts, but whose rewritten form it refuses or changes again.
module MenuExamples {
  import opened Bytes
  import opened MenuText
  import opened MenuLines
  import opened BootMenu
  import opened MenuRoundTrip
  import opened MenuArrange
  import opened MenuConfluence
  import opened MenuTheorems

  const MACHINE: string := "machine-id=0123456789abcdef0123456789abcdef"
  const IMAGE: string := "boot():/vmlinuz"

  function GroupEntry(): Entry {
    Entry(Heading(1, false, "Arch"), [OptionLine("  ", "comment", MACHINE)])
  }

  function KernelBody(): seq<string> {
    [OptionLine("  ", "protocol", "linux"), OptionLine("  ", "path", IMAGE)]
  }

  function KernelEntry(blank: bool): Entry {
    Entry(Heading(2, false, "Linux"), (if blank then [""] else []) + KernelBody())
  }

  function DeepEntry(): Entry {
    Entry(Heading(2, false, "Deep"), [])
  }

  /** A group with one kernel, and perhaps an entry below the top level in front of it. */
  function Sample(deep: bool, blank: bool): seq<Entry> {
    (if deep then [DeepEntry()] else []) + [GroupEntry(), KernelEntry(blank)]
  }

  function Listing(entries: seq<Entry>): seq<string> {
    if entries == [] then [] else [HeadingLine(entries[0].heading)] + entries[0].body + Listing(entries[1..])
  }

  function SampleText(deep: bool, blank: bool): string {
    Unlines(Listing(Sample(deep, blank)))
  }

  // Reading it.

  lemma ReadOne(m: Menu, e: Entry, rest: seq<string>)
    requires CleanEntry(e)
    ensures ReadLines(m, [HeadingLine(e.heading)] + e.body + rest) == ReadLines(Menu(m.header, m.entries + [e]), rest)
  {
    hide ReadLines, Plain, Proper;
    ReadAppend(m, [HeadingLine(e.heading)] + e.body, rest);
    ReadEntry(m, e.heading, e.body);
    assert Entry(e.heading, e.body) == e;
  }

  lemma {:induction false} ReadListing(m: Menu, entries: seq<Entry>)
    requires CleanAll(entries)
    ensures ReadLines(m, Listing(entries)) == Menu(m.header, m.entries + entries)
    decreases |entries|
  {
    if entries == [] {
      assert m.entries + [] == m.entries;
    } else {
      hide CleanEntry, ReadLines;
      ReadOne(m, entries[0], Listing(entries[1..]));
      ReadListing(Menu(m.header, m.entries + [entries[0]]), entries[1..]);
      assert m.entries + [entries[0]] + entries[1..] == m.entries + entries;
    }
  }

  lemma {:induction false} ListingLines(entries: seq<Entry>)
    requires CleanAll(entries)
    ensures AllLines(Listing(entries))
  {
    if entries != [] {
      ListingLines(entries[1..]);
      assert CleanEntry(entries[0]);
      HeadingLineIs(entries[0].heading);
      hide IsLine, HeadingLine, Proper;
    }
  }

  lemma HeadingLineIs(h: Heading)
    requires Proper(h)
    ensures IsLine(HeadingLine(h))
  {
    SlashesAreSlashes(h.level);
  }

  lemma {:induction false} SlashesAreSlashes(n: nat)
    ensures forall i | 0 <= i < |Slashes(n)| :: Slashes(n)[i] == '/'
  {
    if n > 0 {
      SlashesAreSlashes(n - 1);
    }
  }

  lemma ReadSample(entries: seq<Entry>)
    requires CleanAll(entries)
    ensures Read(Unlines(Listing(entries))) == Menu([], entries)
  {
    ListingLines(entries);
    SplitUnlines(Listing(entries));
    ReadListing(Menu([], []), entries);
    assert [] + entries == entries;
  }

  lemma MachineText()
    ensures Tight(MACHINE) && IsLine(MACHINE) && LowerKey("comment")
  {
    MachineLine();
    assert |MACHINE| == 43 && MACHINE[0] == 'm' && MACHINE[42] == 'f';
    hide MACHINE;
  }

  lemma MachineLine()
    ensures IsLine(MACHINE)
  {
  }

  lemma ImageText()
    ensures Tight(IMAGE) && IsLine(IMAGE) && LowerKey("path") && Tight("linux") && IsLine("linux") && LowerKey("protocol")
  {
  }

  lemma GroupClean()
    ensures CleanEntry(GroupEntry())
  {
    MachineText();
    hide MACHINE, LowerKey, Tight, IsLine, OptionLine;
    PlainOption("comment", MACHINE);
    hide Plain;
    ArchProper();
  }

  lemma ArchProper()
    ensures Proper(Heading(1, false, "Arch")) && Proper(Heading(2, false, "Linux")) && Proper(Heading(2, false, "Deep"))
  {
  }

  lemma ImagePlain()
    ensures Plain(OptionLine("  ", "path", IMAGE)) && Plain(OptionLine("  ", "protocol", "linux")) && Plain("")
  {
    ImageText();
    hide IMAGE, LowerKey, Tight;
    PlainOption("path", IMAGE);
    PlainOption("protocol", "linux");
    hide OptionLine;
  }

  lemma SampleClean(deep: bool, blank: bool)
    ensures CleanAll(Sample(deep, blank))
  {
    GroupClean();
    ImagePlain();
    hide Plain, OptionLine, GroupEntry;
  }

  // Arranging it.

  lemma MachineNamed(word: char -> bool)
    ensures NamesMachine(MACHINE, word)
  {
    assert MACHINE[0..11] == MACHINE_KEY;
    assert MachineAt(MACHINE, 0, word);
  }

  lemma GroupIs(word: char -> bool)
    ensures IsGroup(GroupEntry(), word)
  {
    MachineText();
    ValuesLine("comment", MACHINE, "comment");
    MachineNamed(word);
    hide MACHINE, OptionLine, Values, NamesMachine, LowerKey, Tight;
    assert Values(GroupEntry().body, "comment")[0] == MACHINE;
  }

  lemma KernelValues(blank: bool)
    ensures Values(KernelEntry(blank).body, "protocol") == ["linux"] && Values(KernelEntry(blank).body, "path") != []
  {
    ImageText();
    hide IMAGE, LowerKey, Tight, OptionLine;
    KernelValuesOf("protocol", blank);
    KernelValuesOf("path", blank);
    assert "protocol"[1] != "path"[1];
  }

  lemma KernelValuesOf(key: string, blank: bool)
    ensures Values(KernelEntry(blank).body, key) == (if "protocol" == key then ["linux"] else []) + if "path" == key then [IMAGE] else []
  {
    hide IMAGE, LowerKey, Tight, OptionLine, Values;
    ImageText();
    var a, b := OptionLine("  ", "protocol", "linux"), OptionLine("  ", "path", IMAGE);
    ValuesLine("protocol", "linux", key);
    ValuesLine("path", IMAGE, key);
    ValuesAppend([a], [b], key);
    ValuesAppend([""], KernelBody(), key);
    EmptyValues(key);
    assert [a] + [b] == KernelBody();
    assert KernelEntry(blank).body == if blank then [""] + KernelBody() else KernelBody() by {
      assert [] + KernelBody() == KernelBody();
    }
  }

  lemma EmptyValues(key: string)
    ensures Values([""], key) == []
  {
    assert OptionOf("") == None;
  }

  lemma ShortIsUnexceptional(title: string)
    requires |title| < 6
    ensures !Exceptional(title)
  {
  }

  lemma KernelAlone(blank: bool)
    ensures Kernels([KernelEntry(blank)], 0) == [KernelEntry(blank)] && HasImage(KernelEntry(blank).body)
  {
    KernelValues(blank);
    ShortIsUnexceptional("Linux");
    hide Values, Exceptional, KernelBody;
    assert IsKernel([KernelEntry(blank)], 0);
  }

  lemma SampleArranges(deep: bool, blank: bool, word: char -> bool)
    ensures Arrange(Sample(deep, blank), word).Ok?
    ensures TheKernel(Sample(deep, blank), word) == KernelEntry(blank)
  {
    var es, g := Sample(deep, blank), if deep then 1 else 0;
    GroupIs(word);
    KernelAlone(blank);
    SampleShape(deep, blank, word);
    hide IsGroup, Sample, GroupEntry, KernelEntry, Kernels, HasImage, IsManaged, Unchanged, Primary, WindowsEntry, Kept, Retitled;
    GroupsFrom(es, 0, g, word);
    GroupEndAt(es, g + 1, |es|);
    assert es[g + 1..GroupEnd(es, g + 1)] == [KernelEntry(blank)];
    hide Groups, GroupEnd;
  }

  lemma SampleShape(deep: bool, blank: bool, word: char -> bool)
    ensures var es, g := Sample(deep, blank), if deep then 1 else 0;
            && g < |es| && es[g] == GroupEntry() && es[g + 1..] == [KernelEntry(blank)]
            && forall k | 0 <= k < |es| && k != g ::
                 es[k].heading.level != 1 && !IsGroup(es[k], word) && !IsManaged(es[k])
  {
    var es, g := Sample(deep, blank), if deep then 1 else 0;
    hide OfMachine, GroupEntry, KernelBody;
    assert forall k | 0 <= k < |es| && k != g :: es[k].heading.level == 2;
  }

  // Its text.

  lemma {:induction false} Utf8Bound(s: string)
    ensures Utf8Length(s) <= 4 * |s|
  {
    if s != "" {
      Utf8Bound(s[1..]);
    }
  }

  predicate Small(l: string) {
    |l| <= 100 && '\0' !in l
  }

  lemma {:induction false} SmallText(ls: seq<string>)
    requires forall i | 0 <= i < |ls| :: Small(ls[i])
    ensures |Unlines(ls)| <= 101 * |ls| && '\0' !in Unlines(ls)
  {
    if ls != [] {
      SmallText(ls[1..]);
    }
  }

  lemma SampleSupported(deep: bool, blank: bool)
    ensures Supported(SampleText(deep, blank))
  {
    var ls := Listing(Sample(deep, blank));
    SampleSmall(deep, blank);
    hide Listing, Small, Sample;
    SmallText(ls);
    Utf8Bound(Unlines(ls));
  }

  lemma SampleSmall(deep: bool, blank: bool)
    ensures |Listing(Sample(deep, blank))| <= 8
    ensures forall i | 0 <= i < |Listing(Sample(deep, blank))| :: Small(Listing(Sample(deep, blank))[i])
  {
    LinesSmall();
    hide Small, OptionLine, HeadingLine;
    var tail := Listing([GroupEntry(), KernelEntry(blank)]);
    assert [GroupEntry(), KernelEntry(blank)][1..] == [KernelEntry(blank)] && [KernelEntry(blank)][1..] == [];
    assert Listing([KernelEntry(blank)]) == [HeadingLine(Heading(2, false, "Linux"))] + KernelEntry(blank).body;
    assert tail == [HeadingLine(Heading(1, false, "Arch"))] + GroupEntry().body + Listing([KernelEntry(blank)]);
    assert deep ==> Sample(deep, blank)[1..] == [GroupEntry(), KernelEntry(blank)];
    var first := HeadingLine(Heading(2, false, "Deep"));
    assert deep ==> Listing(Sample(deep, blank)) == [first] + [] + tail == [first] + tail;
    assert !deep ==> Listing(Sample(deep, blank)) == tail by {
      assert [] + [GroupEntry(), KernelEntry(blank)] == [GroupEntry(), KernelEntry(blank)];
    }
  }

  lemma SmallOption(key: string, value: string)
    requires |key| <= 20 && |value| <= 60 && '\0' !in key && '\0' !in value
    ensures Small(OptionLine("  ", key, value))
  {
  }

  lemma SmallHeading(level: nat, title: string)
    requires 1 <= level <= 2 && |title| <= 20 && '\0' !in title
    ensures Small(HeadingLine(Heading(level, false, title)))
  {
    assert Slashes(1) == "/" && Slashes(2) == "//";
  }

  lemma LinesSmall()
    ensures Small(OptionLine("  ", "comment", MACHINE)) && Small(OptionLine("  ", "protocol", "linux"))
    ensures Small(OptionLine("  ", "path", IMAGE)) && Small("")
    ensures Small(HeadingLine(Heading(1, false, "Arch"))) && Small(HeadingLine(Heading(2, false, "Linux")))
    ensures Small(HeadingLine(Heading(2, false, "Deep")))
  {
    hide OptionLine, HeadingLine;
    SmallOption("comment", MACHINE);
    SmallOption("protocol", "linux");
    SmallOption("path", IMAGE);
    SmallHeading(1, "Arch");
    SmallHeading(2, "Linux");
    SmallHeading(2, "Deep");
  }

  // The two cases.

  lemma SampleRenders(deep: bool, blank: bool, s: Settings, word: char -> bool)
    requires ValidSettings(s)
    ensures Read(SampleText(deep, blank)).entries == Sample(deep, blank)
    ensures Render(SampleText(deep, blank), s, word).Ok?
    ensures TheKernel(Sample(deep, blank), word) == KernelEntry(blank)
  {
    SampleClean(deep, blank);
    ReadSample(Sample(deep, blank));
    SampleArranges(deep, blank, word);
    SampleSupported(deep, blank);
    hide Supported, Read, Arrange, TheKernel, KernelEntry, Write;
  }

  /** A menu that begins below the top level is rewritten, and its rewritten form is refused. */
  lemma DeepMenuIsRefused(s: Settings, t: Settings, word: char -> bool)
    requires ValidSettings(s) && ValidSettings(t)
    ensures Render(SampleText(true, false), s, word).Ok?
    ensures Render(Render(SampleText(true, false), s, word).value, t, word).Err?
  {
    SampleRenders(true, false, s, word);
    assert Sample(true, false)[0].heading.level == 2;
    hide Sample, SampleText, Render, Read, TheKernel;
    Confluent(SampleText(true, false), s, t, word);
  }

  /** A kernel whose body begins with an empty line is rewritten, and --check refuses the result. */
  lemma BlankMenuIsNoFixedPoint(s: Settings, word: char -> bool)
    requires ValidSettings(s)
    ensures Render(SampleText(false, true), s, word).Ok?
    ensures Render(Render(SampleText(false, true), s, word).value, s, word) != Render(SampleText(false, true), s, word)
  {
    SampleRenders(false, true, s, word);
    assert KernelEntry(true).body[0] == "";
    hide Sample, SampleText, Render, Read, TheKernel, KernelEntry;
    FixedPoint(SampleText(false, true), s, word);
  }
}
