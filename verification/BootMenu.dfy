// The boot menu rewriter: it reads limine.conf into entries, puts the installed systems first and
// writes the menu back.
module BootMenu {
  import opened Bytes
  import opened MenuText
  import opened MenuLines

  const SIZE_LIMIT := 4 * 1024 * 1024

  datatype Entry = Entry(heading: Heading, body: seq<string>)

  datatype Menu = Menu(header: seq<string>, entries: seq<Entry>)

  datatype System = Omarchy | Windows

  datatype Settings = Settings(defaultOs: System, timeout: int)

  predicate ValidSettings(s: Settings) {
    s.timeout in {5, 10, 15, 30}
  }

  function Utf8Length(s: string): nat {
    if s == "" then 0
    else
      var c := s[0] as int;
      (if c < 0x80 then 1 else if c < 0x800 then 2 else if c < 0x1_0000 then 3 else 4) + Utf8Length(s[1..])
  }

  predicate Supported(text: string) {
    '\0' !in text && Utf8Length(text) <= SIZE_LIMIT
  }

  // Reading.

  predicate IsGlobal(line: string) {
    OptionOf(line).Some? && OptionOf(line).value.key in {"timeout", "default_entry", "remember_last_entry", "quiet"}
  }

  function ReadLine(m: Menu, line: string): Menu {
    if HeadingOf(line).Some? then Menu(m.header, m.entries + [Entry(HeadingOf(line).value, [])])
    else if IsGlobal(line) then m
    else if m.entries == [] then Menu(m.header + [line], [])
    else
      var n := |m.entries| - 1;
      Menu(m.header, m.entries[..n] + [Entry(m.entries[n].heading, m.entries[n].body + [line])])
  }

  function ReadLines(m: Menu, lines: seq<string>): Menu
    decreases |lines|
  {
    if lines == [] then m else ReadLines(ReadLine(m, lines[0]), lines[1..])
  }

  function Read(text: string): Menu {
    ReadLines(Menu([], []), SplitLines(text))
  }

  // Looking at entries.

  /** The values of the options of this key, in order. */
  function Values(body: seq<string>, key: string): seq<string> {
    if body == [] then []
    else
      var o := OptionOf(body[0]);
      (if o.Some? && o.value.key == key then [o.value.value] else []) + Values(body[1..], key)
  }

  predicate HexDigit(c: char) {
    '0' <= c <= '9' || 'a' <= c <= 'f' || 'A' <= c <= 'F'
  }

  const MACHINE_KEY: string := "machine-id="

  /** A machine identity stands at i as a whole word. */
  predicate MachineAt(s: string, i: nat, word: char -> bool) {
    && i + 43 <= |s| && s[i..i + 11] == MACHINE_KEY
    && (forall k | i + 11 <= k < i + 43 :: HexDigit(s[k]))
    && (i > 0 ==> !word(s[i - 1])) && (i + 43 < |s| ==> !word(s[i + 43]))
  }

  predicate NamesMachine(value: string, word: char -> bool) {
    exists i | 0 <= i < |value| :: MachineAt(value, i, word)
  }

  predicate OfMachine(body: seq<string>, word: char -> bool) {
    var comments := Values(body, "comment");
    exists i | 0 <= i < |comments| :: NamesMachine(comments[i], word)
  }

  predicate IsGroup(e: Entry, word: char -> bool) {
    e.heading.level == 1 && OfMachine(e.body, word)
  }

  /** Case-insensitive equality with a lower-case letter; the pattern engine folds two more letters. */
  predicate Folds(c: char, lower: char) {
    || Lower(c) == lower || (lower == 's' && c as int == 0x17F) || (lower == 'k' && c as int == 0x212A)
  }

  predicate Mentions(title: string, word: string) {
    exists i | 0 <= i <= |title| :: MentionsAt(title, word, i)
  }

  predicate MentionsAt(title: string, word: string, i: nat) {
    i + |word| <= |title| && forall k | 0 <= k < |word| :: Folds(title[i + k], word[k])
  }

  predicate Exceptional(title: string) {
    Mentions(title, "fallback") || Mentions(title, "rescue") || Mentions(title, "snapshot")
  }

  /** Child i of the group is a normal kernel entry. */
  predicate IsKernel(children: seq<Entry>, i: nat)
    requires i < |children|
  {
    var e := children[i];
    && e.heading.level == 2 && !(i + 1 < |children| && children[i + 1].heading.level > 2)
    && !Exceptional(e.heading.title)
    && (Values(e.body, "protocol") == ["linux"] || Values(e.body, "protocol") == ["efi"])
  }

  function Kernels(children: seq<Entry>, i: nat): seq<Entry>
    requires i <= |children|
    decreases |children| - i
  {
    if i == |children| then [] else (if IsKernel(children, i) then [children[i]] else []) + Kernels(children, i + 1)
  }

  predicate HasImage(body: seq<string>) {
    Values(body, "path") != [] || Values(body, "kernel_path") != [] || Values(body, "image_path") != []
  }

  function Groups(entries: seq<Entry>, i: nat, word: char -> bool): (gs: seq<nat>)
    requires i <= |entries|
    ensures forall k | 0 <= k < |gs| :: gs[k] < |entries|
    decreases |entries| - i
  {
    if i == |entries| then [] else (if IsGroup(entries[i], word) then [i] else []) + Groups(entries, i + 1, word)
  }

  /** The first entry of level 1 at or after i, or the end. */
  function GroupEnd(entries: seq<Entry>, i: nat): (e: nat)
    requires i <= |entries|
    ensures i <= e <= |entries|
    decreases |entries| - i
  {
    if i == |entries| || entries[i].heading.level == 1 then i else GroupEnd(entries, i + 1)
  }

  // The entries that the rewriter manages.

  const OMARCHY: string := "Omarchy"
  const WINDOWS: string := "Windows"
  const ADVANCED: string := "Advanced Omarchy options"
  const START_OMARCHY: string := "Start Omarchy"
  const START_WINDOWS: string := "Start Windows after a brief restart"
  const WINDOWS_PROTOCOL: string := "efi_boot_entry"
  const WINDOWS_ENTRY: string := "Windows Boot Manager"

  predicate IsManaged(e: Entry) {
    e.heading.level == 1 && (e.heading.title == OMARCHY || e.heading.title == WINDOWS)
  }

  /** Entry i is as the rewriter left it. */
  predicate Unchanged(entries: seq<Entry>, i: nat)
    requires i < |entries|
  {
    var e := entries[i];
    && Values(e.body, "comment") == [if e.heading.title == OMARCHY then START_OMARCHY else START_WINDOWS]
    && !(i + 1 < |entries| && entries[i + 1].heading.level > 1)
    && (e.heading.title == WINDOWS ==>
          Values(e.body, "protocol") == [WINDOWS_PROTOCOL] && Values(e.body, "entry") == [WINDOWS_ENTRY])
  }

  predicate NoneChanged(entries: seq<Entry>, group: nat) {
    forall i | 0 <= i < |entries| && i != group && IsManaged(entries[i]) :: Unchanged(entries, i)
  }

  /** The entries that stay: all but the managed ones. */
  function Kept(entries: seq<Entry>): seq<Entry> {
    if entries == [] then [] else (if IsManaged(entries[0]) then [] else [entries[0]]) + Kept(entries[1..])
  }

  function Retitled(group: Entry): Entry {
    group.(heading := group.heading.(title := ADVANCED, expanded := false))
  }

  function NoComments(body: seq<string>): seq<string> {
    if body == [] then []
    else
      var o := OptionOf(body[0]);
      (if o.Some? && o.value.key == "comment" then [] else [body[0]]) + NoComments(body[1..])
  }

  function Primary(kernel: Entry): Entry {
    Entry(Heading(1, false, OMARCHY), [OptionLine("  ", "comment", START_OMARCHY)] + NoComments(kernel.body))
  }

  function WindowsEntry(): Entry {
    Entry(Heading(1, false, WINDOWS),
          [OptionLine("  ", "comment", START_WINDOWS), OptionLine("  ", "protocol", WINDOWS_PROTOCOL),
           OptionLine("  ", "entry", WINDOWS_ENTRY)])
  }

  // Writing.

  function Text(e: Entry): string {
    HeadingLine(e.heading) + "\n" + StripNewlines(Join("\n", e.body))
  }

  function Texts(entries: seq<Entry>): (ts: seq<string>)
    ensures |ts| == |entries|
  {
    seq(|entries|, i requires 0 <= i < |entries| => Text(entries[i]))
  }

  function TimeoutText(timeout: int): string {
    if timeout == 5 then "5" else if timeout == 10 then "10" else if timeout == 15 then "15" else "30"
  }

  function ControlLines(s: Settings): seq<string> {
    [OptionLine("", "timeout", TimeoutText(s.timeout)),
     OptionLine("", "default_entry", if s.defaultOs.Omarchy? then OMARCHY else WINDOWS),
     OptionLine("", "remember_last_entry", "no"), OptionLine("", "quiet", "no")]
  }

  function Write(header: seq<string>, s: Settings, entries: seq<Entry>): string {
    var h := StripNewlines(Join("\n", header));
    Join("\n\n", (if h == "" then [] else [h]) + [Join("\n", ControlLines(s))] + Texts(entries)) + "\n"
  }

  // The rewrite.

  /** The group entry, its children up to the next entry of level 1, and the kernel among them. */
  function Arrange(entries: seq<Entry>, word: char -> bool): Result<seq<Entry>> {
    var groups := Groups(entries, 0, word);
    if |groups| != 1 then Err("group")
    else
      var g := groups[0];
      var kernels := Kernels(entries[g + 1..GroupEnd(entries, g + 1)], 0);
      if kernels == [] then Err("no kernel")
      else if !HasImage(kernels[0].body) then Err("no image")
      else if !NoneChanged(entries, g) then Err("unmanaged entry")
      else
        Ok([Primary(kernels[0]), WindowsEntry()]
           + (Kept(entries[..g]) + [Retitled(entries[g])] + Kept(entries[g + 1..])))
  }

  function Render(text: string, s: Settings, word: char -> bool): Result<string> {
    if !ValidSettings(s) then Err("settings")
    else if !Supported(text) then Err("unsupported")
    else
      var menu := Read(text);
      var arranged := Arrange(menu.entries, word);
      if arranged.Err? then Err(arranged.message) else Ok(Write(menu.header, s, arranged.value))
  }

  lemma {:induction false} KeptAppend(a: seq<Entry>, b: seq<Entry>)
    ensures Kept(a + b) == Kept(a) + Kept(b)
  {
    if a == [] {
      assert a + b == b;
    } else {
      assert (a + b)[1..] == a[1..] + b;
      KeptAppend(a[1..], b);
    }
  }

  method ReadMenu(text: string) returns (m: Menu)
    ensures m == Read(text)
  {
    hide SplitLines, ReadLine;
    var lines := SplitLines(text);
    m := Menu([], []);
    for i := 0 to |lines|
      invariant ReadLines(m, lines[i..]) == Read(text)
    {
      assert lines[i..][1..] == lines[i + 1..];
      m := ReadLine(m, lines[i]);
    }
  }

  method FindGroups(entries: seq<Entry>, word: char -> bool) returns (groups: seq<nat>)
    ensures groups == Groups(entries, 0, word)
  {
    hide IsGroup;
    groups := [];
    for i := 0 to |entries|
      invariant groups + Groups(entries, i, word) == Groups(entries, 0, word)
    {
      if IsGroup(entries[i], word) {
        groups := groups + [i];
      }
    }
  }

  method FindKernels(children: seq<Entry>) returns (kernels: seq<Entry>)
    ensures kernels == Kernels(children, 0)
  {
    hide IsKernel;
    kernels := [];
    for i := 0 to |children|
      invariant kernels + Kernels(children, i) == Kernels(children, 0)
    {
      if IsKernel(children, i) {
        kernels := kernels + [children[i]];
      }
    }
  }

  /** Keeps everything but the managed entries, which must be unchanged. */
  method KeepOthers(entries: seq<Entry>, group: nat) returns (r: Result<seq<Entry>>)
    requires group < |entries|
    ensures r.Ok? <==> NoneChanged(entries, group)
    ensures r.Ok? ==> r.value == Kept(entries[..group]) + [Retitled(entries[group])] + Kept(entries[group + 1..])
  {
    hide IsManaged, Unchanged, Retitled;
    var kept: seq<Entry> := [];
    for i := 0 to |entries|
      invariant forall k | 0 <= k < i && k != group && IsManaged(entries[k]) :: Unchanged(entries, k)
      invariant kept == if i <= group then Kept(entries[..i])
                        else Kept(entries[..group]) + [Retitled(entries[group])] + Kept(entries[group + 1..i])
    {
      var e := entries[i];
      KeepNext(entries, group, i);
      if i != group && IsManaged(e) {
        if !Unchanged(entries, i) {
          return Err("unmanaged entry");
        }
      } else {
        kept := kept + [if i == group then Retitled(e) else e];
      }
    }
    assert entries[..|entries|] == entries && entries[group + 1..|entries|] == entries[group + 1..];
    return Ok(kept);
  }

  lemma KeepNext(entries: seq<Entry>, group: nat, i: nat)
    requires i < |entries|
    ensures Kept(entries[..i + 1]) == Kept(entries[..i]) + if IsManaged(entries[i]) then [] else [entries[i]]
    ensures group < i ==>
              Kept(entries[group + 1..i + 1]) == Kept(entries[group + 1..i]) + if IsManaged(entries[i]) then [] else [entries[i]]
    ensures i == group ==> entries[group + 1..i + 1] == []
  {
    assert entries[..i + 1] == entries[..i] + [entries[i]];
    KeptAppend(entries[..i], [entries[i]]);
    if group < i {
      assert entries[group + 1..i + 1] == entries[group + 1..i] + [entries[i]];
      KeptAppend(entries[group + 1..i], [entries[i]]);
    }
  }

  method RenderMenu(text: string, s: Settings, word: char -> bool) returns (r: Result<string>)
    ensures r.Ok? <==> Render(text, s, word).Ok?
    ensures r.Ok? ==> r == Render(text, s, word)
  {
    hide Read, Write, Groups, GroupEnd, Kernels, HasImage, NoneChanged, Kept, Retitled, Primary, Supported;
    if !ValidSettings(s) {
      return Err("settings");
    }
    if !Supported(text) {
      return Err("unsupported");
    }
    var m := ReadMenu(text);
    var groups := FindGroups(m.entries, word);
    if |groups| != 1 {
      return Err("group");
    }
    var g := groups[0];
    var kernels := FindKernels(m.entries[g + 1..GroupEnd(m.entries, g + 1)]);
    if kernels == [] {
      return Err("no kernel");
    }
    if !HasImage(kernels[0].body) {
      return Err("no image");
    }
    var kept := KeepOthers(m.entries, g);
    if kept.Err? {
      return Err("unmanaged entry");
    }
    return Ok(Write(m.header, s, [Primary(kernels[0]), WindowsEntry()] + kept.value));
  }
}
