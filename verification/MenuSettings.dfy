// What a rewritten menu says, told from its lines: the settings asked for and the systems to start.
module MenuSettings {
  import opened Bytes
  import opened MenuText
  import opened MenuLines
  import opened BootMenu
  import opened MenuRoundTrip
  import opened MenuArrange
  import opened MenuConfluence
  import opened MenuTheorems
  import opened MenuRebound

  /** The line is an option with this key. */
  predicate HasKey(line: string, key: string) {
    OptionOf(line).Some? && OptionOf(line).value.key == key
  }

  /** Exactly one line is an option with this key, and this is its value. */
  ghost predicate Sets(lines: seq<string>, key: string, value: string) {
    exists k | 0 <= k < |lines| ::
      && HasKey(lines[k], key) && OptionOf(lines[k]).value.value == value
      && forall j | 0 <= j < |lines| && HasKey(lines[j], key) :: j == k
  }

  /** No line is an option with one of the menu's global keys. */
  predicate NoGlobals(lines: seq<string>) {
    forall i | 0 <= i < |lines| ::
      !HasKey(lines[i], "timeout") && !HasKey(lines[i], "default_entry")
      && !HasKey(lines[i], "remember_last_entry") && !HasKey(lines[i], "quiet")
  }

  // The lines around the settings.

  lemma PlainNoGlobals(lines: seq<string>)
    requires AllPlain(lines)
    ensures NoGlobals(lines)
  {
    hide HeadingOf, IsLine, OptionOf;
  }

  lemma HeadingNoOption(h: Heading)
    requires h.level >= 1
    ensures OptionOf(HeadingLine(h)).None?
  {
    var line := HeadingLine(h);
    assert line[0] == '/';
    SkipSpaceTo(line, 0, 0);
    KeyEndAt(line, 0, 0);
  }

  lemma EntryNoGlobals(e: Entry)
    requires CleanEntry(e)
    ensures NoGlobals(EntryLines(e))
  {
    hide HeadingOf, IsLine, OptionOf, HeadingLine, Trim;
    BodyPlain(e.body);
    PlainNoGlobals(Body(e.body));
    HeadingNoOption(e.heading);
    hide Plain, IsGlobal, HasKey;
  }

  lemma NoGlobalsAppend(a: seq<string>, b: seq<string>)
    requires NoGlobals(a) && NoGlobals(b)
    ensures NoGlobals(a + b)
  {
    hide HasKey;
  }

  lemma BlankNoGlobals()
    ensures NoGlobals([""])
  {
  }

  lemma {:induction false} GlueNoGlobals(bs: seq<seq<string>>)
    requires forall i | 0 <= i < |bs| :: NoGlobals(bs[i])
    ensures NoGlobals(Glue(bs))
  {
    hide NoGlobals;
    if bs == [] {
      NothingGlobal();
    } else if |bs| > 1 {
      var n := |bs| - 1;
      GlueNoGlobals(bs[..n]);
      BlankNoGlobals();
      NoGlobalsAppend(Glue(bs[..n]), [""]);
      NoGlobalsAppend(Glue(bs[..n]) + [""], bs[n]);
    }
  }

  lemma NothingGlobal()
    ensures NoGlobals([])
  {
  }

  lemma BlocksNoGlobals(es: seq<Entry>)
    requires CleanAll(es)
    ensures NoGlobals(Glue(Blocks(es)))
  {
    hide NoGlobals, EntryLines, CleanEntry, Glue;
    forall i | 0 <= i < |Blocks(es)|
      ensures NoGlobals(Blocks(es)[i])
    {
      assert CleanEntry(es[i]);
      EntryNoGlobals(es[i]);
    }
    GlueNoGlobals(Blocks(es));
  }

  /** The settings stand between lines that set nothing. */
  lemma LinesAround(h: seq<string>, s: Settings, es: seq<Entry>) returns (before: seq<string>, after: seq<string>)
    requires AllPlain(h) && CleanAll(es) && es != []
    ensures SplitLines(Write(h, s, es)) == before + ControlLines(s) + after && NoGlobals(before) && NoGlobals(after)
  {
    hide Write, ControlLines, CleanEntry, Plain, IsLine, NoGlobals, Glue, Blocks, Trim, SplitLines, Join;
    WriteGlues(h, s, es);
    WrittenLines(h, s, es);
    SplitJoin(Glue(Front(h, s) + Blocks(es)));
    GlueAppend(Front(h, s), Blocks(es));
    BlocksNoGlobals(es);
    BlankNoGlobals();
    NothingGlobal();
    NoGlobalsAppend([""], Glue(Blocks(es)));
    after := [""] + Glue(Blocks(es));
    before := if Trim(h) == [] then [] else Trim(h) + [""];
    GlueFront(h, s);
    if Trim(h) != [] {
      BodyPlain(h);
      PlainNoGlobals(Trim(h));
      NoGlobalsAppend(Trim(h), [""]);
    }
    Regroup(before + ControlLines(s), [""], Glue(Blocks(es)));
  }

  lemma GlueFront(h: seq<string>, s: Settings)
    ensures Glue(Front(h, s)) == (if Trim(h) == [] then [] else Trim(h) + [""]) + ControlLines(s)
  {
    hide Trim, ControlLines;
    if Trim(h) == [] {
      assert [] + ControlLines(s) == ControlLines(s);
    } else {
      assert Front(h, s) == [Trim(h)] + [ControlLines(s)];
      GlueAppend([Trim(h)], [ControlLines(s)]);
    }
  }

  // The settings themselves.

  predicate Timed(s: Settings, text: string) {
    || (s.timeout == 5 && text == "5") || (s.timeout == 10 && text == "10")
    || (s.timeout == 15 && text == "15") || (s.timeout == 30 && text == "30")
  }

  /** The default entry and the countdown, as the menu spells them. */
  lemma Spelled(s: Settings) returns (system: string, time: string)
    requires ValidSettings(s)
    ensures s.defaultOs.Omarchy? ==> system == "Omarchy"
    ensures s.defaultOs.Windows? ==> system == "Windows"
    ensures Timed(s, time) && Letters(system) && Letters(time)
    ensures ControlLines(s) == [OptionLine("", "timeout", time), OptionLine("", "default_entry", system),
                                OptionLine("", "remember_last_entry", "no"), OptionLine("", "quiet", "no")]
  {
    hide OptionLine;
    system := if s.defaultOs.Omarchy? then "Omarchy" else "Windows";
    time := if s.timeout == 5 then "5" else if s.timeout == 10 then "10" else if s.timeout == 15 then "15" else "30";
  }

  lemma OneControl(key: string, value: string)
    requires LowerKey(key) && Letters(value)
    ensures OptionOf(OptionLine("", key, value)) == Some(Setting(key, value))
  {
    LettersAreTight(value);
    OptionOfLine("", key, value);
  }

  lemma ShapeSize(es: seq<Entry>, g: nat, b: nat, word: char -> bool)
    requires Shape(es, g, b, word)
    ensures |es| >= 3
  {
    hide OneGroup, TwoManaged, AsMade, Retitled;
  }

  /** A key that only line k of the middle has. */
  lemma SetsOnce(before: seq<string>, middle: seq<string>, after: seq<string>, k: nat, key: string, value: string)
    requires k < |middle| && HasKey(middle[k], key) && OptionOf(middle[k]).value.value == value
    requires forall j | 0 <= j < |middle| && HasKey(middle[j], key) :: j == k
    requires (forall i | 0 <= i < |before| :: !HasKey(before[i], key)) && (forall i | 0 <= i < |after| :: !HasKey(after[i], key))
    ensures Sets(before + middle + after, key, value)
  {
    hide OptionOf;
    var lines, at := before + middle + after, |before| + k;
    assert lines[at] == middle[k];
    assert forall j | 0 <= j < |lines| ::
        lines[j] == if j < |before| then before[j] else if j < |before + middle| then middle[j - |before|]
                    else after[j - |before + middle|];
  }

  /** The four lines of settings, each with its own key. */
  lemma ControlsSet(before: seq<string>, lines: seq<string>, after: seq<string>, time: string, system: string)
    requires NoGlobals(before) && NoGlobals(after) && Letters(time) && Letters(system)
    requires lines == [OptionLine("", "timeout", time), OptionLine("", "default_entry", system),
                       OptionLine("", "remember_last_entry", "no"), OptionLine("", "quiet", "no")]
    ensures var all := before + lines + after;
            && Sets(all, "timeout", time) && Sets(all, "default_entry", system)
            && Sets(all, "remember_last_entry", "no") && Sets(all, "quiet", "no")
  {
    hide OptionLine, OptionOf, Letters, LowerKey, Sets;
    TimeoutKey();
    QuietKey();
    OneControl("timeout", time);
    OneControl("default_entry", system);
    OneControl("remember_last_entry", "no");
    OneControl("quiet", "no");
    SetsOnce(before, lines, after, 0, "timeout", time);
    SetsOnce(before, lines, after, 1, "default_entry", system);
    SetsOnce(before, lines, after, 2, "remember_last_entry", "no");
    SetsOnce(before, lines, after, 3, "quiet", "no");
  }

  /**
   * The settings asked for are the settings written: one line sets the default entry, to the chosen system, one
   * sets the countdown, to the chosen number of seconds, and one each turns off remembering and quiet starts.
   */
  lemma SettingsWritten(text: string, s: Settings, word: char -> bool)
    requires Render(text, s, word).Ok?
    ensures var lines := SplitLines(Render(text, s, word).value);
            && Sets(lines, "default_entry", match s.defaultOs { case Omarchy => "Omarchy" case Windows => "Windows" })
            && (s.timeout == 5 || s.timeout == 10 || s.timeout == 15 || s.timeout == 30)
            && (s.timeout == 5 ==> Sets(lines, "timeout", "5")) && (s.timeout == 10 ==> Sets(lines, "timeout", "10"))
            && (s.timeout == 15 ==> Sets(lines, "timeout", "15")) && (s.timeout == 30 ==> Sets(lines, "timeout", "30"))
            && Sets(lines, "remember_last_entry", "no") && Sets(lines, "quiet", "no")
  {
    hide Read, Arrange, Write, SplitLines, ControlLines, CleanEntry, Plain, Sets, NoGlobals, KernelIs, Filled, TheKernel,
         Primary, Supported, OptionLine, Letters, OneGroup, TwoManaged, Children, AsMade, Retitled;
    var m := Read(text);
    ReadIsClean(text);
    var es := Arrange(m.entries, word).value;
    var at, b, kernel := FirstArrange(m.entries, es, word);
    ShapeSize(es, at, b, word);
    var before, after := LinesAround(m.header, s, es);
    var system, time := Spelled(s);
    ControlsSet(before, ControlLines(s), after, time, system);
  }

  // The systems.

  lemma {:induction false} NoCommentsHas(body: seq<string>, l: string)
    ensures l in NoComments(body) <==> l in body && !HasKey(l, "comment")
  {
    hide OptionOf;
    if body != [] {
      NoCommentsHas(body[1..], l);
      assert body == [body[0]] + body[1..];
    }
  }

  lemma {:induction false} TrimRightHas(ls: seq<string>, l: string)
    requires l != ""
    ensures l in TrimRight(ls) <==> l in ls
  {
    if ls != [] && ls[|ls| - 1] == "" {
      TrimRightHas(ls[..|ls| - 1], l);
      assert ls == ls[..|ls| - 1] + [""];
    }
  }

  /** A body whose first line is not empty is written from this line on. */
  lemma BodyFrom(first: string, rest: seq<string>, l: string)
    requires first != "" && l != ""
    ensures Body([first] + rest) != [] && Body([first] + rest)[0] == first
    ensures l in Body([first] + rest) <==> l == first || l in rest
  {
    var all := [first] + rest;
    assert TrimLeft(all) == all;
    assert l in all <==> l == first || l in rest;
    TrimRightHas(all, first);
    TrimRightHas(all, l);
    TrimRightEnds(all);
    hide TrimRight, TrimLeft;
  }

  lemma OmarchyText()
    ensures OptionLine("  ", "comment", START_OMARCHY) == "  comment: Start Omarchy"
  {
  }

  lemma WindowsText()
    ensures WindowsEntry().heading == Heading(1, false, "Windows")
    ensures WindowsEntry().body == ["  comment: " + "Start Windows after a brief restart", "  protocol: efi_boot_entry",
                                    "  entry: Windows Boot Manager"]
  {
    CommentText();
    ProtocolText();
    EntryText();
    hide OptionLine;
  }

  lemma CommentText()
    ensures OptionLine("  ", "comment", START_WINDOWS) == "  comment: " + "Start Windows after a brief restart"
  {
    assert "  " + "comment" + ": " == "  comment: ";
  }

  lemma ProtocolText()
    ensures OptionLine("  ", "protocol", WINDOWS_PROTOCOL) == "  protocol: efi_boot_entry"
  {
  }

  lemma EntryText()
    ensures OptionLine("  ", "entry", WINDOWS_ENTRY) == "  entry: Windows Boot Manager"
  {
  }

  lemma WindowsBody(body: seq<string>)
    requires |body| == 3 && body[0] != "" && body[2] != ""
    ensures Body(body) == body
  {
    assert TrimLeft(body) == body && TrimRight(body) == body;
  }

  /** An entry that is not the last one, read back. */
  lemma ReadBack(es: seq<Entry>, i: nat)
    requires i + 1 < |es|
    ensures EntriesBack(es)[i] == Entry(es[i].heading, Body(es[i].body) + [""])
  {
    hide Body;
  }

  /**
   * The rewritten menu begins with Omarchy and Windows. The first entry starts what the chosen kernel entry
   * starts: it has the lines of that entry, comments replaced. The second hands over to the Windows loader.
   */
  lemma SystemsWritten(text: string, s: Settings, word: char -> bool, l: string)
    requires Render(text, s, word).Ok? && l != ""
    ensures Arrange(Read(text).entries, word).Ok?
    ensures var es, kernel := Read(Render(text, s, word).value).entries, TheKernel(Read(text).entries, word);
            && |es| >= 3 && es[0].heading == Heading(1, false, "Omarchy")
            && es[0].body != [] && es[0].body[0] == "  comment: Start Omarchy"
            && (l in es[0].body <==> l == "  comment: Start Omarchy" || (l in kernel.body && !HasKey(l, "comment")))
            && es[1] == Entry(Heading(1, false, "Windows"), ["  comment: " + "Start Windows after a brief restart",
                              "  protocol: efi_boot_entry", "  entry: Windows Boot Manager", ""])
  {
    hide Read, Arrange, Write, CleanEntry, Plain, KernelIs, Filled, TheKernel, Supported, OptionLine, OptionOf, OneGroup,
         TwoManaged, Children, AsMade, Retitled, WindowsEntry, Body, EntriesBack, HeaderBack, START_OMARCHY, NoComments;
    var m := Read(text);
    ReadIsClean(text);
    var es := Arrange(m.entries, word).value;
    var at, b, kernel := FirstArrange(m.entries, es, word);
    ShapeSize(es, at, b, word);
    ReadWritten(m.header, s, es);
    MadeSecond(es);
    ReadBack(es, 0);
    ReadBack(es, 1);
    OmarchyText();
    WindowsText();
    BodyFrom("  comment: Start Omarchy", NoComments(kernel.body), l);
    NoCommentsHas(kernel.body, l);
    WindowsBody(WindowsEntry().body);
  }
}
