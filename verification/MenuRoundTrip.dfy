// Reading back a menu that was written.
module MenuRoundTrip {
  import opened Bytes
  import opened MenuText
  import opened MenuLines
  import opened BootMenu

  // Trimming.

  lemma {:induction false} TrimLeftEnds(ls: seq<string>)
    ensures TrimLeft(ls) != [] ==> TrimLeft(ls)[0] != "" && TrimLeft(ls)[|TrimLeft(ls)| - 1] == ls[|ls| - 1]
  {
    if ls != [] && ls[0] == "" {
      TrimLeftEnds(ls[1..]);
    }
  }

  lemma {:induction false} TrimRightEnds(ls: seq<string>)
    ensures TrimRight(ls) != [] ==> TrimRight(ls)[0] == ls[0] && TrimRight(ls)[|TrimRight(ls)| - 1] != ""
  {
    if ls != [] && ls[|ls| - 1] == "" {
      TrimRightEnds(ls[..|ls| - 1]);
    }
  }

  lemma TrimEnds(ls: seq<string>)
    ensures Trim(ls) != [] ==> Trim(ls)[0] != "" && Trim(ls)[|Trim(ls)| - 1] != ""
  {
    TrimLeftEnds(ls);
    TrimRightEnds(TrimLeft(ls));
  }

  lemma {:induction false} TrimAllLeft(ls: seq<string>)
    requires TrimLeft(ls) == []
    ensures TrimLeft(ls + [""]) == [] && TrimRight(ls) == []
    decreases |ls|
  {
    if ls != [] {
      assert ls[0] == "";
      TrimAllLeft(ls[1..]);
      assert (ls + [""])[1..] == ls[1..] + [""];
      AllBlank(ls);
    } else {
      assert (ls + [""])[1..] == [];
    }
  }

  lemma {:induction false} AllBlank(ls: seq<string>)
    requires TrimLeft(ls) == []
    ensures TrimRight(ls) == []
    decreases |ls|
  {
    if ls != [] {
      LastBlank(ls);
      AllBlank(ls[..|ls| - 1]);
    }
  }

  lemma {:induction false} LastBlank(ls: seq<string>)
    requires ls != [] && TrimLeft(ls) == []
    ensures ls[|ls| - 1] == "" && TrimLeft(ls[..|ls| - 1]) == []
    decreases |ls|
  {
    if |ls| > 1 {
      LastBlank(ls[1..]);
      assert ls[..|ls| - 1][1..] == ls[1..][..|ls| - 2];
    }
  }

  /** What is written for a body: its trimmed lines, or one empty line. */
  function Body(body: seq<string>): seq<string> {
    if Trim(body) == [] then [""] else Trim(body)
  }

  lemma TrimBody(body: seq<string>)
    ensures Trim(Body(body)) == Trim(body) && Trim(Body(body) + [""]) == Trim(body)
  {
    var t := Trim(body);
    TrimEnds(body);
    if t == [] {
      assert Trim([""]) == [] by { assert [""][1..] == []; }
      TrimAllLeft([""]);
    } else {
      assert TrimLeft(t) == t && TrimRight(t) == t;
      assert TrimLeft(t + [""]) == t + [""];
    }
  }

  // Reading.

  predicate Plain(line: string) {
    IsLine(line) && HeadingOf(line).None? && !IsGlobal(line)
  }

  predicate AllPlain(ls: seq<string>) {
    forall i | 0 <= i < |ls| :: Plain(ls[i])
  }

  predicate CleanEntry(e: Entry) {
    Proper(e.heading) && AllPlain(e.body)
  }

  predicate Clean(m: Menu) {
    AllPlain(m.header) && CleanAll(m.entries)
  }

  predicate CleanAll(entries: seq<Entry>) {
    forall i | 0 <= i < |entries| :: CleanEntry(entries[i])
  }

  lemma {:induction false} ReadAppend(m: Menu, a: seq<string>, b: seq<string>)
    ensures ReadLines(m, a + b) == ReadLines(ReadLines(m, a), b)
    decreases |a|
  {
    hide ReadLine;
    if a == [] {
      assert a + b == b;
    } else {
      assert (a + b)[1..] == a[1..] + b;
      ReadAppend(ReadLine(m, a[0]), a[1..], b);
    }
  }

  /** Plain lines go behind the last entry, or into the header. */
  function WithLines(m: Menu, lines: seq<string>): Menu {
    if m.entries == [] then Menu(m.header + lines, [])
    else
      var n := |m.entries| - 1;
      Menu(m.header, m.entries[..n] + [Entry(m.entries[n].heading, m.entries[n].body + lines)])
  }

  lemma WithTwo(m: Menu, a: seq<string>, b: seq<string>)
    ensures WithLines(WithLines(m, a), b) == WithLines(m, a + b)
  {
    if m.entries == [] {
      assert m.header + a + b == m.header + (a + b);
    } else {
      var n := |m.entries| - 1;
      var x := WithLines(m, a);
      assert x.entries[..n] == m.entries[..n];
      assert m.entries[n].body + a + b == m.entries[n].body + (a + b);
    }
  }

  lemma WithNone(m: Menu)
    ensures WithLines(m, []) == m
  {
    if m.entries == [] {
      assert m.header + [] == m.header;
    } else {
      var n := |m.entries| - 1;
      assert m.entries[n].body + [] == m.entries[n].body;
      assert m.entries[..n] + [m.entries[n]] == m.entries;
    }
  }

  lemma {:induction false} ReadPlain(m: Menu, lines: seq<string>)
    requires AllPlain(lines)
    ensures ReadLines(m, lines) == WithLines(m, lines)
    decreases |lines|
  {
    if lines == [] {
      WithNone(m);
    } else {
      var next := ReadLine(m, lines[0]);
      assert Plain(lines[0]);
      assert next == WithLines(m, [lines[0]]);
      ReadPlain(next, lines[1..]);
      assert [lines[0]] + lines[1..] == lines;
      hide ReadLine, WithLines, Plain;
      WithTwo(m, [lines[0]], lines[1..]);
    }
  }

  lemma {:induction false} ReadGlobals(m: Menu, lines: seq<string>)
    requires forall i | 0 <= i < |lines| :: IsGlobal(lines[i]) && HeadingOf(lines[i]).None?
    ensures ReadLines(m, lines) == m
    decreases |lines|
  {
    if lines != [] {
      assert IsGlobal(lines[0]);
      ReadGlobals(m, lines[1..]);
    }
  }

  lemma ReadEntry(m: Menu, h: Heading, body: seq<string>)
    requires Proper(h) && AllPlain(body)
    ensures ReadLines(m, [HeadingLine(h)] + body) == Menu(m.header, m.entries + [Entry(h, body)])
  {
    HeadingOfLine(h);
    var next := ReadLine(m, HeadingLine(h));
    assert next == Menu(m.header, m.entries + [Entry(h, [])]);
    hide HeadingOf, HeadingLine, Proper, Plain;
    assert ([HeadingLine(h)] + body)[1..] == body;
    ReadPlain(next, body);
    assert next.entries[..|m.entries|] == m.entries && [] + body == body;
  }

  lemma ReadLineClean(m: Menu, line: string)
    requires Clean(m) && IsLine(line)
    ensures Clean(ReadLine(m, line))
  {
    if HeadingOf(line).Some? {
      HeadingIsProper(line);
    }
    hide HeadingOf, IsLine, Proper;
  }

  lemma {:induction false} ReadLinesClean(m: Menu, lines: seq<string>)
    requires Clean(m) && AllLines(lines)
    ensures Clean(ReadLines(m, lines))
    decreases |lines|
  {
    if lines != [] {
      assert IsLine(lines[0]);
      ReadLineClean(m, lines[0]);
      hide Clean, ReadLine, IsLine;
      ReadLinesClean(ReadLine(m, lines[0]), lines[1..]);
    }
  }

  lemma {:induction false} LineBefore(s: string, i: nat, k: nat)
    requires i <= |s| && i <= k < LineEnd(s, i)
    ensures !Separator(s[k])
    decreases k - i
  {
    if i < k {
      LineBefore(s, i + 1, k);
    }
  }

  lemma {:induction false} SplitIsLines(s: string)
    ensures AllLines(SplitLines(s))
    decreases |s|
  {
    if s != "" {
      var e := LineEnd(s, 0);
      forall k | 0 <= k < e
        ensures !Separator(s[k])
      {
        LineBefore(s, 0, k);
      }
      assert IsLine(s[..e]);
      if e < |s| {
        SplitIsLines(s[if s[e] == '\r' && e + 1 < |s| && s[e + 1] == '\n' then e + 2 else e + 1..]);
      }
    }
  }

  lemma ReadIsClean(text: string)
    ensures Clean(Read(text))
  {
    SplitIsLines(text);
    ReadLinesClean(Menu([], []), SplitLines(text));
  }

  // Writing as lines.

  function EntryLines(e: Entry): (ls: seq<string>)
    ensures ls != []
  {
    [HeadingLine(e.heading)] + Body(e.body)
  }

  lemma TextJoins(e: Entry)
    requires CleanEntry(e)
    ensures Text(e) == Join("\n", EntryLines(e))
  {
    StripJoin(e.body);
    JoinAppend([HeadingLine(e.heading)], Body(e.body));
    hide HeadingLine, Proper, Trim, StripNewlines;
  }

  function Blocks(entries: seq<Entry>): (bs: seq<seq<string>>)
    ensures |bs| == |entries|
  {
    seq(|entries|, i requires 0 <= i < |entries| => EntryLines(entries[i]))
  }

  /** The header, if anything is left of it, and the controls. */
  function Front(header: seq<string>, s: Settings): (bs: seq<seq<string>>)
    ensures bs != []
  {
    (if Trim(header) == [] then [] else [Trim(header)]) + [ControlLines(s)]
  }

  lemma JoinedAppend(a: seq<seq<string>>, b: seq<seq<string>>)
    ensures Joined(a + b) == Joined(a) + Joined(b)
  {
  }

  lemma FrontJoins(header: seq<string>, s: Settings)
    requires AllPlain(header)
    ensures var h := StripNewlines(Join("\n", header));
            Joined(Front(header, s)) == (if h == "" then [] else [h]) + [Join("\n", ControlLines(s))]
    ensures forall i | 0 <= i < |Front(header, s)| :: Front(header, s)[i] != []
  {
    StripJoin(header);
    TrimEnds(header);
    hide Trim, StripNewlines, Plain;
    if Trim(header) != [] {
      JoinedAppend([Trim(header)], [ControlLines(s)]);
    }
    assert ControlLines(s) != [];
    hide ControlLines;
  }

  lemma BlocksJoin(entries: seq<Entry>)
    requires CleanAll(entries)
    ensures Joined(Blocks(entries)) == Texts(entries)
  {
    hide Text, EntryLines, CleanEntry;
    forall i | 0 <= i < |entries|
      ensures Texts(entries)[i] == Joined(Blocks(entries))[i]
    {
      assert CleanEntry(entries[i]);
      TextJoins(entries[i]);
    }
  }

  lemma WriteGlues(header: seq<string>, s: Settings, entries: seq<Entry>)
    requires AllPlain(header) && CleanAll(entries)
    ensures var bs := Front(header, s) + Blocks(entries);
            Glue(bs) != [] && Write(header, s, entries) == Join("\n", Glue(bs)) + "\n"
  {
    FrontJoins(header, s);
    BlocksJoin(entries);
    JoinedAppend(Front(header, s), Blocks(entries));
    hide Front, StripNewlines, Texts, EntryLines, ControlLines, Joined, Join, Glue, Plain, CleanEntry;
    GlueJoins(Front(header, s) + Blocks(entries));
  }

  // Reading back what was written.

  lemma ControlLine(key: string, value: string)
    requires LowerKey(key) && Tight(value) && IsLine(key) && IsLine(value)
    requires key in {"timeout", "default_entry", "remember_last_entry", "quiet"}
    ensures var l := OptionLine("", key, value); IsGlobal(l) && HeadingOf(l).None? && IsLine(l)
  {
    OptionOfLine("", key, value);
    OptionIsNoHeading("", key, value);
  }

  predicate Letters(t: string) {
    t != "" && forall i | 0 <= i < |t| :: '0' <= t[i] <= 'z'
  }

  lemma LettersAreTight(t: string)
    requires Letters(t)
    ensures Tight(t) && IsLine(t)
  {
  }

  lemma KeyIsLine(key: string)
    requires LowerKey(key)
    ensures IsLine(key)
  {
  }

  lemma GlobalLine(key: string, value: string)
    requires LowerKey(key) && Letters(value)
    requires key in {"timeout", "default_entry", "remember_last_entry", "quiet"}
    ensures var l := OptionLine("", key, value); IsGlobal(l) && HeadingOf(l).None? && IsLine(l)
  {
    hide IsGlobal, OptionLine, HeadingOf, IsLine, Tight, LowerKey, Letters;
    LettersAreTight(value);
    KeyIsLine(key);
    ControlLine(key, value);
  }

  lemma TimeoutKey()
    ensures LowerKey("timeout") && LowerKey("default_entry")
  {
  }

  lemma QuietKey()
    ensures LowerKey("remember_last_entry") && LowerKey("quiet") && Letters("no")
  {
  }

  lemma ControlValues(s: Settings)
    ensures Letters(TimeoutText(s.timeout)) && Letters(if s.defaultOs.Omarchy? then OMARCHY else WINDOWS)
  {
  }

  lemma ControlsAreGlobal(s: Settings)
    ensures forall i | 0 <= i < |ControlLines(s)| ::
              IsGlobal(ControlLines(s)[i]) && HeadingOf(ControlLines(s)[i]).None? && IsLine(ControlLines(s)[i])
  {
    hide IsGlobal, HeadingOf, OptionLine, IsLine, LowerKey, Letters, TimeoutText;
    TimeoutKey();
    QuietKey();
    ControlValues(s);
    GlobalLine("timeout", TimeoutText(s.timeout));
    GlobalLine("default_entry", if s.defaultOs.Omarchy? then OMARCHY else WINDOWS);
    GlobalLine("remember_last_entry", "no");
    GlobalLine("quiet", "no");
  }

  /** The header as it is read back before any entry. */
  function HeaderBack(header: seq<string>): seq<string> {
    if Trim(header) == [] then [] else Trim(header) + [""]
  }

  const EMPTY := Menu([], [])

  lemma {:induction false} TrimLeftPlain(ls: seq<string>)
    requires AllPlain(ls)
    ensures AllPlain(TrimLeft(ls))
  {
    if ls != [] && ls[0] == "" {
      TrimLeftPlain(ls[1..]);
    }
  }

  lemma {:induction false} TrimRightPlain(ls: seq<string>)
    requires AllPlain(ls)
    ensures AllPlain(TrimRight(ls))
  {
    if ls != [] && ls[|ls| - 1] == "" {
      TrimRightPlain(ls[..|ls| - 1]);
    }
  }

  lemma BodyPlain(ls: seq<string>)
    requires AllPlain(ls)
    ensures AllPlain(Trim(ls)) && AllPlain(Body(ls))
  {
    TrimLeftPlain(ls);
    TrimRightPlain(TrimLeft(ls));
  }

  lemma ReadFront(header: seq<string>, s: Settings)
    requires AllPlain(header)
    ensures ReadLines(EMPTY, Glue(Front(header, s))) == Menu(HeaderBack(header), [])
  {
    ControlsAreGlobal(s);
    BodyPlain(header);
    hide ControlLines, Trim, Plain, IsGlobal, HeadingOf;
    if Trim(header) == [] {
      assert Front(header, s) == [ControlLines(s)];
      ReadGlobals(EMPTY, ControlLines(s));
    } else {
      assert Front(header, s) == [Trim(header)] + [ControlLines(s)];
      ReadAppend(EMPTY, Trim(header) + [""], ControlLines(s));
      ReadPlain(EMPTY, Trim(header) + [""]);
      assert [] + (Trim(header) + [""]) == Trim(header) + [""];
      ReadGlobals(Menu(HeaderBack(header), []), ControlLines(s));
    }
  }

  /** The entries as they are read back: an empty line behind all but the last. */
  function EntriesBack(entries: seq<Entry>): (es: seq<Entry>)
    ensures |es| == |entries|
  {
    seq(|entries|, i requires 0 <= i < |entries| =>
      Entry(entries[i].heading, Body(entries[i].body) + if i + 1 < |entries| then [""] else []))
  }

  /** The menu with an empty line behind it. */
  lemma BackWithBlank(h: seq<string>, entries: seq<Entry>, e: Entry)
    requires entries != []
    ensures WithLines(Menu(h, EntriesBack(entries)), [""]).header == h
    ensures WithLines(Menu(h, EntriesBack(entries)), [""]).entries + [Entry(e.heading, Body(e.body))]
         == EntriesBack(entries + [e])
  {
    hide Body;
    var n, all := |entries| - 1, entries + [e];
    var left := WithLines(Menu(h, EntriesBack(entries)), [""]).entries + [Entry(e.heading, Body(e.body))];
    var right := EntriesBack(all);
    forall i | 0 <= i < |all|
      ensures left[i] == right[i]
    {
      assert Body(entries[n].body) + [] + [""] == Body(entries[n].body) + [""];
      assert Body(e.body) + [] == Body(e.body);
    }
  }

  lemma BlocksNext(front: seq<seq<string>>, entries: seq<Entry>)
    requires entries != []
    ensures var n := |entries| - 1; front + Blocks(entries) == front + Blocks(entries[..n]) + [EntryLines(entries[n])]
  {
    hide EntryLines;
    var n := |entries| - 1;
    assert Blocks(entries) == Blocks(entries[..n]) + [EntryLines(entries[n])];
  }

  /** The menu read back before the first entry, and with it. */
  lemma FirstBack(header: seq<string>, s: Settings, e: Entry)
    requires AllPlain(header)
    ensures var m := WithLines(ReadLines(EMPTY, Glue(Front(header, s) + Blocks([]))), [""]);
            Menu(m.header, m.entries + [Entry(e.heading, Body(e.body))]) == Menu(HeaderBack(header) + [""], EntriesBack([e]))
  {
    hide Front, Glue, Body, HeaderBack, ReadLines, Plain;
    assert Front(header, s) + Blocks([]) == Front(header, s);
    ReadFront(header, s);
    assert Body(e.body) + [] == Body(e.body);
  }

  lemma {:induction false} ReadGlue(header: seq<string>, s: Settings, entries: seq<Entry>)
    requires AllPlain(header) && CleanAll(entries) && entries != []
    ensures ReadLines(EMPTY, Glue(Front(header, s) + Blocks(entries))) == Menu(HeaderBack(header) + [""], EntriesBack(entries))
    decreases |entries|
  {
    var n := |entries| - 1;
    var before, e := entries[..n], entries[n];
    assert entries == before + [e] && CleanEntry(e);
    hide Front, Glue, EntryLines, Plain, CleanEntry, Body, ReadLines, WithLines, HeaderBack;
    var bs := Front(header, s) + Blocks(before);
    BlocksNext(Front(header, s), entries);
    hide Blocks;
    ReadAppend(EMPTY, Glue(bs) + [""], EntryLines(e));
    ReadAppend(EMPTY, Glue(bs), [""]);
    var m := ReadLines(EMPTY, Glue(bs));
    ReadPlain(m, [""]);
    ReadLastEntry(WithLines(m, [""]), e);
    if n == 0 {
      FirstBack(header, s, e);
    } else {
      ReadGlue(header, s, before);
      BackWithBlank(HeaderBack(header) + [""], before, e);
    }
  }

  lemma ReadLastEntry(m: Menu, e: Entry)
    requires CleanEntry(e)
    ensures ReadLines(m, EntryLines(e)) == Menu(m.header, m.entries + [Entry(e.heading, Body(e.body))])
  {
    BodyPlain(e.body);
    ReadEntry(m, e.heading, Body(e.body));
  }

  lemma {:induction false} GlueLines(bs: seq<seq<string>>)
    requires forall i | 0 <= i < |bs| :: AllLines(bs[i])
    ensures AllLines(Glue(bs))
  {
    if |bs| > 1 {
      GlueLines(bs[..|bs| - 1]);
      hide IsLine;
    }
  }

  lemma WrittenLines(header: seq<string>, s: Settings, entries: seq<Entry>)
    requires AllPlain(header) && CleanAll(entries)
    ensures AllLines(Glue(Front(header, s) + Blocks(entries)))
  {
    ControlsAreGlobal(s);
    BodyPlain(header);
    var bs := Front(header, s) + Blocks(entries);
    forall i | 0 <= i < |bs|
      ensures AllLines(bs[i])
    {
      if i >= |Front(header, s)| {
        var e := entries[i - |Front(header, s)|];
        assert CleanEntry(e);
        BodyPlain(e.body);
        assert bs[i] == EntryLines(e);
      }
    }
    hide IsLine;
    GlueLines(bs);
  }

  /** What is written is read back, up to empty lines at the ends of the header and of the bodies. */
  lemma ReadWritten(header: seq<string>, s: Settings, entries: seq<Entry>)
    requires AllPlain(header) && CleanAll(entries) && entries != []
    ensures Read(Write(header, s, entries)) == Menu(HeaderBack(header) + [""], EntriesBack(entries))
  {
    hide Front, Blocks, Write, CleanEntry, Plain, IsLine;
    WriteGlues(header, s, entries);
    WrittenLines(header, s, entries);
    SplitJoin(Glue(Front(header, s) + Blocks(entries)));
    ReadGlue(header, s, entries);
  }
}
