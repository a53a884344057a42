// The rewriter is confluent in its settings; its output is a fixed point.
module MenuTheorems {
  import opened Bytes
  import opened MenuText
  import opened MenuLines
  import opened BootMenu
  import opened MenuRoundTrip
  import opened MenuArrange
  import opened MenuConfluence

  // What is arranged can be written and read back.

  lemma PlainOption(key: string, value: string)
    requires LowerKey(key) && Tight(value) && IsLine(value)
    requires key !in {"timeout", "default_entry", "remember_last_entry", "quiet"}
    ensures Plain(OptionLine("  ", key, value))
  {
    OptionOfLine("  ", key, value);
    OptionIsNoHeading("  ", key, value);
    KeyIsLine(key);
    hide OptionOf, HeadingOf, OptionLine, IsLine, LowerKey, Tight;
  }

  lemma ManagedTexts()
    ensures IsLine(START_WINDOWS) && IsLine(START_OMARCHY)
  {
    hide WINDOWS_PROTOCOL, WINDOWS_ENTRY;
  }

  lemma WindowsLines()
    ensures IsLine(WINDOWS_PROTOCOL) && IsLine(WINDOWS_ENTRY)
  {
  }

  lemma WindowsPlain()
    ensures Plain(OptionLine("  ", "comment", START_OMARCHY)) && AllPlain(WindowsEntry().body)
  {
    WindowsTexts();
    ManagedTexts();
    WindowsLines();
    hide Plain, OptionLine, LowerKey, Tight, IsLine, START_OMARCHY, START_WINDOWS, WINDOWS_PROTOCOL, WINDOWS_ENTRY;
    PlainOption("comment", START_OMARCHY);
    PlainOption("comment", START_WINDOWS);
    PlainOption("protocol", WINDOWS_PROTOCOL);
    PlainOption("entry", WINDOWS_ENTRY);
  }

  lemma {:induction false} NoCommentsPlain(body: seq<string>)
    requires AllPlain(body)
    ensures AllPlain(NoComments(body))
  {
    hide Plain, OptionOf;
    if body != [] {
      NoCommentsPlain(body[1..]);
    }
  }

  lemma ManagedClean(kernel: Entry)
    requires CleanEntry(kernel)
    ensures CleanEntry(Primary(kernel)) && CleanEntry(WindowsEntry())
  {
    WindowsPlain();
    NoCommentsPlain(kernel.body);
    hide Plain, Proper, OptionLine, NoComments, OMARCHY, WINDOWS, START_OMARCHY, START_WINDOWS, WINDOWS_PROTOCOL,
         WINDOWS_ENTRY;
  }

  lemma RetitledClean(e: Entry)
    requires CleanEntry(e)
    ensures CleanEntry(Retitled(e))
  {
    hide Plain;
  }

  lemma CleanAppend(a: seq<Entry>, b: seq<Entry>)
    requires CleanAll(a) && CleanAll(b)
    ensures CleanAll(a + b)
  {
    hide CleanEntry;
  }

  lemma KeptClean(entries: seq<Entry>)
    requires CleanAll(entries)
    ensures CleanAll(Kept(entries))
  {
    hide CleanEntry, Kept, IsManaged;
    KeptFrom(entries);
  }

  lemma {:induction false} KernelsIn(children: seq<Entry>, i: nat)
    requires i <= |children|
    ensures forall k | 0 <= k < |Kernels(children, i)| :: Kernels(children, i)[k] in children
    decreases |children| - i
  {
    hide IsKernel;
    if i < |children| {
      KernelsIn(children, i + 1);
    }
  }

  lemma KernelClean(entries: seq<Entry>, g: nat, b: nat, kernel: Entry)
    requires CleanAll(entries) && g + 1 + b <= |entries| && KernelIs(entries, g, b, kernel)
    ensures CleanEntry(kernel)
  {
    hide CleanEntry, HasImage, Kernels;
    var children := entries[g + 1..g + 1 + b];
    KernelsIn(children, 0);
    var i :| 0 <= i < |children| && children[i] == kernel;
    assert entries[g + 1 + i] == kernel;
  }

  lemma ArrangedClean(entries: seq<Entry>, g: nat, b: nat, kernel: Entry)
    requires CleanAll(entries) && g + 1 + b <= |entries| && KernelIs(entries, g, b, kernel)
    ensures CleanAll(Arranged(entries, g, b, kernel))
  {
    KernelClean(entries, g, b, kernel);
    ManagedClean(kernel);
    assert CleanEntry(entries[g]);
    RetitledClean(entries[g]);
    hide CleanEntry, KernelIs, Kept, Primary, WindowsEntry, Retitled;
    KeptClean(entries[..g]);
    KeptClean(entries[g + 1 + b..]);
    var k, t, c, a := Kept(entries[..g]), [Retitled(entries[g])], entries[g + 1..g + 1 + b], Kept(entries[g + 1 + b..]);
    CleanAppend(k, t);
    CleanAppend(k + t, c);
    CleanAppend(k + t + c, a);
    CleanAppend([Primary(kernel), WindowsEntry()], k + t + c + a);
  }

  // The kernel's lines in the primary entry.

  lemma {:induction false} NoCommentsAppend(a: seq<string>, b: seq<string>)
    ensures NoComments(a + b) == NoComments(a) + NoComments(b)
  {
    hide OptionOf;
    if a == [] {
      assert a + b == b;
    } else {
      assert (a + b)[1..] == a[1..] + b;
      NoCommentsAppend(a[1..], b);
    }
  }

  lemma NoCommentsBlank()
    ensures NoComments([""]) == [""]
  {
    assert [""][1..] == [];
  }

  lemma {:induction false} NoCommentsTrimRight(body: seq<string>)
    ensures TrimRight(NoComments(TrimRight(body))) == TrimRight(NoComments(body))
  {
    hide NoComments;
    if body != [] && body[|body| - 1] == "" {
      var n := |body| - 1;
      NoCommentsTrimRight(body[..n]);
      assert body == body[..n] + [""];
      NoCommentsAppend(body[..n], [""]);
      NoCommentsBlank();
    }
  }

  lemma {:induction false} TrimRightCons(first: string, z: seq<string>)
    ensures TrimRight([first] + z) == if TrimRight(z) == [] && first == "" then [] else [first] + TrimRight(z)
    decreases |z|
  {
    if z != [] && z[|z| - 1] == "" {
      var n := |z| - 1;
      TrimRightCons(first, z[..n]);
      assert ([first] + z)[..n + 1] == [first] + z[..n];
    } else if z == [] {
      assert [first] + z == [first] && [first][..0] == [];
    }
  }

  lemma {:induction false} LeadingBlanks(body: seq<string>)
    ensures |TrimRight(NoComments(TrimLeft(body)))| <= |TrimRight(NoComments(body))|
  {
    if body != [] && body[0] == "" {
      LeadingBlanks(body[1..]);
      assert NoComments(body) == [""] + NoComments(body[1..]);
      TrimRightCons("", NoComments(body[1..]));
    }
  }

  lemma {:induction false} ValuesNoComments(body: seq<string>, key: string)
    requires key != "comment"
    ensures Values(NoComments(body), key) == Values(body, key)
  {
    hide OptionOf;
    if body != [] {
      ValuesNoComments(body[1..], key);
      var rest := NoComments(body[1..]);
      assert ([body[0]] + rest)[1..] == rest && [] + rest == rest;
    }
  }

  /** A kernel entry has something besides comments and empty lines. */
  predicate Filled(body: seq<string>) {
    Values(body, "protocol") != []
  }

  lemma FilledStays(body: seq<string>)
    requires Filled(body)
    ensures TrimRight(NoComments(body)) != [] && Trim(body) != [] && body != []
  {
    assert "protocol"[0] != "comment"[0];
    hide NoComments, TrimRight, TrimLeft;
    ValuesNoComments(body, "protocol");
    ValuesTrimRight(NoComments(body), "protocol");
    ValuesTrimLeft(body, "protocol");
    ValuesTrimRight(TrimLeft(body), "protocol");
    ValuesNone("protocol");
    hide Values;
  }

  function PrimaryLines(body: seq<string>): seq<string> {
    Trim([OptionLine("  ", "comment", START_OMARCHY)] + NoComments(body))
  }

  lemma PrimaryTrims(body: seq<string>)
    ensures PrimaryLines(body) == [OptionLine("  ", "comment", START_OMARCHY)] + TrimRight(NoComments(body))
  {
    var c := OptionLine("  ", "comment", START_OMARCHY);
    assert c != "" by { assert |c| >= 2; }
    hide OptionLine, START_OMARCHY, NoComments;
    TrimRightCons(c, NoComments(body));
    assert TrimLeft([c] + NoComments(body)) == [c] + NoComments(body);
  }

  /** The kept kernel entry gives the same primary entry again exactly when it does not begin with an empty line. */
  lemma PrimaryAgain(kernel: Entry, kernel': Entry)
    requires Back(kernel, kernel') && Filled(kernel.body)
    ensures kernel.body != []
    ensures PrimaryLines(kernel'.body) == PrimaryLines(kernel.body) <==> kernel.body[0] != ""
  {
    var body := kernel.body;
    FilledStays(body);
    PrimaryTrims(body);
    PrimaryTrims(kernel'.body);
    NoCommentsTrimRight(TrimLeft(body));
    hide PrimaryLines, OptionLine, START_OMARCHY, Filled;
    var t := NoComments(Trim(body));
    NoCommentsAppend(Trim(body), [""]);
    NoCommentsBlank();
    assert TrimRight(NoComments(kernel'.body)) == TrimRight(t);
    if body[0] == "" {
      assert NoComments(body) == [""] + NoComments(body[1..]);
      TrimRightCons("", NoComments(body[1..]));
      LeadingBlanks(body[1..]);
    }
  }

  // The second rewrite.

  lemma HeaderAgain(header: seq<string>)
    requires AllPlain(header)
    ensures StripNewlines(Join("\n", HeaderBack(header) + [""])) == StripNewlines(Join("\n", header))
    ensures AllPlain(HeaderBack(header) + [""])
  {
    hide StripNewlines, Trim, Plain, IsLine;
    BodyPlain(header);
    PlainLines(header);
    PlainLines(HeaderBack(header) + [""]);
    StripJoin(header);
    StripJoin(HeaderBack(header) + [""]);
    TrimHeader(header);
  }

  lemma PlainLines(ls: seq<string>)
    ensures Plain("") && (AllPlain(ls) ==> AllLines(ls))
  {
  }

  lemma TrimHeader(header: seq<string>)
    ensures Trim(HeaderBack(header) + [""]) == Trim(header)
  {
    TrimBody(header);
    var t := Trim(header);
    if t == [] {
      assert HeaderBack(header) + [""] == [""];
    } else {
      TrimEnds(header);
      assert TrimLeft(t + [""] + [""]) == t + [""] + [""];
      assert TrimLeft(t + [""]) == t + [""];
    }
  }

  /** What the second arrangement writes, told from the first. */
  function Again(es': seq<Entry>, at: nat, kernel': Entry): seq<Entry>
    requires 2 <= at < |es'|
  {
    [Primary(kernel'), WindowsEntry()] + (es'[2..at] + [Retitled(es'[at])] + es'[at + 1..])
  }

  lemma AgainBack(es: seq<Entry>, es': seq<Entry>, at: nat, kernel': Entry, i: nat)
    requires AllBack(es, es') && 2 <= at < |es| && Retitled(es[at]) == es[at] && es[1] == WindowsEntry()
    requires 1 <= i < |es|
    ensures var e := Again(es', at, kernel')[i]; e == es[i] || Back(es[i], e)
  {
    assert Back(es[i], es'[i]);
    hide Primary, WindowsEntry, Body;
    var e := Again(es', at, kernel')[i];
    if i == 1 {
      assert e == WindowsEntry();
    } else if i < at {
      assert e == es'[2..at][i - 2] == es'[i];
    } else if i == at {
      assert e == Retitled(es'[at]);
    } else {
      assert e == es'[at + 1..][i - at - 1] == es'[i];
    }
  }

  lemma AgainTexts(es: seq<Entry>, es': seq<Entry>, at: nat, kernel': Entry)
    requires AllBack(es, es') && 2 <= at < |es| && Retitled(es[at]) == es[at] && es[1] == WindowsEntry()
    requires CleanAll(es) && CleanEntry(kernel')
    ensures var es2 := Again(es', at, kernel');
            |es2| == |es| && CleanAll(es2) && forall i | 1 <= i < |es| :: Text(es2[i]) == Text(es[i])
  {
    hide CleanEntry, Text, Back, Primary, WindowsEntry, Retitled;
    ManagedClean(kernel');
    var es2 := Again(es', at, kernel');
    assert |es2| == |es| && es2[0] == Primary(kernel');
    hide Again;
    forall i | 1 <= i < |es|
      ensures CleanEntry(es2[i]) && Text(es2[i]) == Text(es[i])
    {
      AgainBack(es, es', at, kernel', i);
      assert CleanEntry(es[i]);
      if Back(es[i], es2[i]) {
        BackText(es[i], es2[i]);
      }
    }
  }

  lemma PrimaryText(kernel: Entry, kernel': Entry)
    requires CleanEntry(kernel) && CleanEntry(kernel') && PrimaryLines(kernel'.body) == PrimaryLines(kernel.body)
    ensures Text(Primary(kernel')) == Text(Primary(kernel))
  {
    ManagedClean(kernel);
    ManagedClean(kernel');
    PrimaryHeading(kernel);
    PrimaryHeading(kernel');
    TextJoins(Primary(kernel));
    TextJoins(Primary(kernel'));
    hide CleanEntry, Text, OMARCHY, START_OMARCHY, OptionLine, Trim, NoComments;
  }

  lemma WriteAlike(h: seq<string>, h': seq<string>, s: Settings, es: seq<Entry>, es': seq<Entry>)
    requires StripNewlines(Join("\n", h')) == StripNewlines(Join("\n", h))
    requires |es| == |es'| && forall i | 0 <= i < |es| :: Text(es'[i]) == Text(es[i])
    ensures Write(h', s, es') == Write(h, s, es)
  {
    hide Text, Join, StripNewlines, ControlLines;
    assert Texts(es') == Texts(es);
  }

  /** Equal texts come from equal trimmed bodies. */
  lemma WriteInjective(h: seq<string>, h': seq<string>, s: Settings, es: seq<Entry>, es': seq<Entry>)
    requires AllPlain(h) && AllPlain(h') && CleanAll(es) && CleanAll(es') && es != [] && es' != []
    requires Write(h', s, es') == Write(h, s, es)
    ensures Trim(es'[0].body) == Trim(es[0].body)
  {
    hide Write, HeaderBack, Plain, CleanEntry, Read;
    ReadWritten(h, s, es);
    ReadWritten(h', s, es');
    var x, x' := EntriesBack(es)[0].body, EntriesBack(es')[0].body;
    TrimBody(es[0].body);
    TrimBody(es'[0].body);
    hide Trim, Body;
    assert Trim(x) == Trim(es[0].body) by {
      assert Body(es[0].body) + [] == Body(es[0].body);
    }
    assert Trim(x') == Trim(es'[0].body) by {
      assert Body(es'[0].body) + [] == Body(es'[0].body);
    }
  }

  lemma KernelFilled(entries: seq<Entry>, g: nat, b: nat, kernel: Entry)
    requires g + 1 + b <= |entries| && KernelIs(entries, g, b, kernel)
    ensures Filled(kernel.body)
  {
    KernelsFilled(entries[g + 1..g + 1 + b], 0);
  }

  lemma {:induction false} KernelsFilled(children: seq<Entry>, i: nat)
    requires i <= |children|
    ensures forall k | 0 <= k < |Kernels(children, i)| :: Filled(Kernels(children, i)[k].body)
    decreases |children| - i
  {
    hide Values, Exceptional;
    if i < |children| {
      KernelsFilled(children, i + 1);
    }
  }

  /** The outcome of an arrangement, as the second one needs it. */
  lemma FirstArrange(entries: seq<Entry>, es: seq<Entry>, word: char -> bool) returns (at: nat, b: nat, kernel: Entry)
    requires CleanAll(entries) && Arrange(entries, word) == Ok(es)
    ensures kernel == TheKernel(entries, word) && CleanEntry(kernel) && Filled(kernel.body)
    ensures CleanAll(es) && Shape(es, at, b, word) && KernelIs(es, at, b, kernel) && es[0] == Primary(kernel)
    ensures entries != [] && (es[2].heading.level <= 1 <==> entries[0].heading.level == 1)
  {
    hide Arrange, CleanEntry, Primary, WindowsEntry, Retitled, Filled, TheKernel, KernelIs, OneGroup, TwoManaged, Children,
         AsMade, NoneChanged, Kept;
    var g;
    g, b, kernel := ArrangeAccepts(entries, word);
    at := 2 + |Kept(entries[..g])|;
    ArrangedClean(entries, g, b, kernel);
    KernelClean(entries, g, b, kernel);
    KernelFilled(entries, g, b, kernel);
    CleanLevels(entries);
    ArrangedShape(entries, g, b, kernel, word);
    ThirdEntry(entries, g, b, kernel, word);
  }

  /** What the second rewrite finds: the same group with the kernel as it was kept. */
  lemma SecondArrange(entries: seq<Entry>, es: seq<Entry>, word: char -> bool) returns (at: nat, kernel': Entry)
    requires CleanAll(entries) && Arrange(entries, word) == Ok(es)
    ensures CleanAll(es) && 2 <= at < |es| && Retitled(es[at]) == es[at] && es[1] == WindowsEntry()
    ensures es[0] == Primary(TheKernel(entries, word)) && CleanEntry(TheKernel(entries, word))
    ensures Filled(TheKernel(entries, word).body) && Back(TheKernel(entries, word), kernel')
    ensures entries != [] && (Arrange(EntriesBack(es), word).Ok? <==> entries[0].heading.level == 1)
    ensures Arrange(EntriesBack(es), word).Ok? ==> Arrange(EntriesBack(es), word).value == Again(EntriesBack(es), at, kernel')
  {
    hide Arrange, CleanAll, CleanEntry, Primary, WindowsEntry, Retitled, Filled, Back, TheKernel, KernelIs, TwoManaged,
         AsMade, Children, EntriesBack;
    var b, kernel;
    at, b, kernel := FirstArrange(entries, es, word);
    MadeSecond(es);
    EntriesAreBack(es);
    kernel' := ArrangeAgain(es, EntriesBack(es), at, b, kernel, word);
  }

  lemma CleanLevels(entries: seq<Entry>)
    requires CleanAll(entries)
    ensures Leveled(entries)
  {
    forall i | 0 <= i < |entries|
      ensures entries[i].heading.level >= 1
    {
      assert CleanEntry(entries[i]);
    }
  }

  lemma BackClean(e: Entry, e': Entry)
    requires Back(e, e') && CleanEntry(e)
    ensures CleanEntry(e')
  {
    BackText(e, e');
  }

  /** The entry lists of both rewrites are written alike exactly when the kernel does not begin with an empty line. */
  lemma SecondWrite(h: seq<string>, s: Settings, es: seq<Entry>, at: nat, kernel: Entry, kernel': Entry)
    requires AllPlain(h) && CleanAll(es) && 2 <= at < |es| && Retitled(es[at]) == es[at] && es[1] == WindowsEntry()
    requires es[0] == Primary(kernel) && CleanEntry(kernel) && Filled(kernel.body) && Back(kernel, kernel')
    ensures kernel.body != []
    ensures Write(HeaderBack(h) + [""], s, Again(EntriesBack(es), at, kernel')) == Write(h, s, es) <==> kernel.body[0] != ""
  {
    hide Write, CleanEntry, WindowsEntry, Retitled, Filled, Text, Plain, HeaderBack, PrimaryLines;
    var h', es' := HeaderBack(h) + [""], EntriesBack(es);
    HeaderAgain(h);
    EntriesAreBack(es);
    BackClean(kernel, kernel');
    AgainTexts(es, es', at, kernel');
    PrimaryAgain(kernel, kernel');
    var es2 := Again(es', at, kernel');
    assert es2[0] == Primary(kernel');
    hide Back, Primary, Again;
    if PrimaryLines(kernel'.body) == PrimaryLines(kernel.body) {
      PrimaryText(kernel, kernel');
      WriteAlike(h, h', s, es, es2);
    } else {
      PrimaryBody(kernel);
      PrimaryBody(kernel');
      if Write(h', s, es2) == Write(h, s, es) {
        WriteInjective(h, h', s, es, es2);
      }
    }
  }

  lemma PrimaryBody(kernel: Entry)
    ensures Trim(Primary(kernel).body) == PrimaryLines(kernel.body)
  {
  }

  /**
   * Rewriting is confluent in its settings: a rewritten menu can be rewritten exactly when the menu began
   * at the top level (and the result is not too large), and then the earlier settings leave no trace
   * exactly when the chosen kernel entry does not begin with an empty line.
   */
  lemma Confluent(text: string, s: Settings, t: Settings, word: char -> bool)
    requires Render(text, s, word).Ok? && ValidSettings(t)
    ensures var entries := Read(text).entries;
            Arrange(entries, word).Ok? && entries != [] && TheKernel(entries, word).body != []
    ensures var y, entries := Render(text, s, word).value, Read(text).entries;
            && (Render(y, t, word).Ok? <==> Supported(y) && entries[0].heading.level == 1)
            && (Render(y, t, word).Ok? ==>
                  (Render(y, t, word) == Render(text, t, word) <==> TheKernel(entries, word).body[0] != ""))
  {
    hide Read, Arrange, Write, CleanEntry, Primary, WindowsEntry, Retitled, Filled, Back, TheKernel, HeaderBack, Plain, Again,
         Supported;
    var m := Read(text);
    var es := Arrange(m.entries, word).value;
    ReadIsClean(text);
    var at, kernel' := SecondArrange(m.entries, es, word);
    ReadWritten(m.header, s, es);
    SecondWrite(m.header, t, es, at, TheKernel(m.entries, word), kernel');
  }

  /** What --check relies on: exactly these rewritten menus are fixed points. */
  lemma FixedPoint(text: string, s: Settings, word: char -> bool)
    requires Render(text, s, word).Ok?
    ensures var entries := Read(text).entries;
            Arrange(entries, word).Ok? && entries != [] && TheKernel(entries, word).body != []
    ensures var y, entries := Render(text, s, word).value, Read(text).entries;
            Render(y, s, word) == Ok(y) <==>
              Supported(y) && entries[0].heading.level == 1 && TheKernel(entries, word).body[0] != ""
  {
    Confluent(text, s, s, word);
    hide Read, Arrange, Write, TheKernel, Supported;
  }
}
