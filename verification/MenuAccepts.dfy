// Which menus the rewriter accepts, and which kernel it chooses, told from lines and titles.
module MenuAccepts {
  import opened Bytes
  import opened MenuText
  import opened MenuLines
  import opened BootMenu
  import opened MenuRoundTrip
  import opened MenuArrange
  import opened MenuConfluence
  import opened MenuSettings

  ghost predicate HasOption(body: seq<string>, key: string) {
    exists k | 0 <= k < |body| :: HasKey(body[k], key)
  }

  /** c is the lower-case letter l in either case, or one of the two further characters that match s and k. */
  predicate AnyCase(c: char, l: char) {
    c == l || c as int == l as int - 32 || (l == 's' && c as int == 0x17F) || (l == 'k' && c as int == 0x212A)
  }

  predicate SaysAt(title: string, word: string, i: nat) {
    i + |word| <= |title| && forall k | 0 <= k < |word| :: AnyCase(title[i + k], word[k])
  }

  predicate Says(title: string, word: string) {
    exists i | 0 <= i <= |title| :: SaysAt(title, word, i)
  }

  /** Child i is a leaf of level 2 that boots by a kernel protocol and is no rescue entry. */
  ghost predicate Normal(children: seq<Entry>, i: nat)
    requires i < |children|
  {
    var e := children[i];
    && e.heading.level == 2 && (i + 1 < |children| ==> children[i + 1].heading.level <= 2)
    && !Says(e.heading.title, "fallback") && !Says(e.heading.title, "rescue") && !Says(e.heading.title, "snapshot")
    && (Sets(e.body, "protocol", "linux") || Sets(e.body, "protocol", "efi"))
  }

  /** A top-level entry that looks like one of the installer's own is as the installer writes it. */
  ghost predicate Own(entries: seq<Entry>, i: nat)
    requires i < |entries|
  {
    var e := entries[i];
    && Sets(e.body, "comment", if e.heading.title == "Omarchy" then "Start Omarchy" else "Start Windows after a brief restart")
    && (i + 1 < |entries| ==> entries[i + 1].heading.level <= 1)
    && (e.heading.title == "Windows" ==>
          Sets(e.body, "protocol", "efi_boot_entry") && Sets(e.body, "entry", "Windows Boot Manager"))
  }

  ghost predicate IsMachineGroup(e: Entry, word: char -> bool) {
    e.heading.level == 1
    && exists k | 0 <= k < |e.body| :: HasKey(e.body[k], "comment") && NamesMachine(OptionOf(e.body[k]).value.value, word)
  }

  lemma {:induction false} ValuesHas(body: seq<string>, key: string, value: string)
    ensures value in Values(body, key) <==> exists k | 0 <= k < |body| :: HasKey(body[k], key) && OptionOf(body[k]).value.value == value
  {
    hide OptionOf;
    if body != [] {
      var rest := body[1..];
      ValuesHas(rest, key, value);
      assert forall k | 0 <= k < |rest| :: rest[k] == body[k + 1];
      if k :| 0 <= k < |body| && HasKey(body[k], key) && OptionOf(body[k]).value.value == value {
        assert k > 0 ==> HasKey(rest[k - 1], key);
      }
    }
  }

  lemma {:induction false} ValuesNone(body: seq<string>, key: string)
    ensures Values(body, key) == [] <==> !HasOption(body, key)
  {
    hide OptionOf;
    if body != [] {
      var rest := body[1..];
      ValuesNone(rest, key);
      assert forall k | 0 <= k < |rest| :: rest[k] == body[k + 1];
      if k :| 0 <= k < |body| && HasKey(body[k], key) {
        assert k > 0 ==> HasKey(rest[k - 1], key);
      }
    }
  }

  /** A key has this one value exactly if one line sets it. */
  lemma {:induction false} ValuesOne(body: seq<string>, key: string, value: string)
    ensures Values(body, key) == [value] <==> Sets(body, key, value)
  {
    hide OptionOf;
    if body != [] {
      var rest := body[1..];
      assert forall k | 0 <= k < |rest| :: rest[k] == body[k + 1];
      if HasKey(body[0], key) {
        ValuesNone(rest, key);
        FirstSets(body, key, value);
      } else {
        ValuesOne(rest, key, value);
        LaterSets(body, key, value);
      }
    }
  }

  lemma FirstSets(body: seq<string>, key: string, value: string)
    requires body != [] && HasKey(body[0], key)
    ensures Sets(body, key, value) <==> OptionOf(body[0]).value.value == value && !HasOption(body[1..], key)
  {
    hide OptionOf, HasKey;
    var rest := body[1..];
    assert forall k | 0 < k < |body| :: body[k] == rest[k - 1];
    if k :| 0 <= k < |rest| && HasKey(rest[k], key) {
      assert HasKey(body[k + 1], key);
    }
    if j :| 0 < j < |body| && HasKey(body[j], key) {
      assert HasKey(rest[j - 1], key);
    }
  }

  lemma LaterSets(body: seq<string>, key: string, value: string)
    requires body != [] && !HasKey(body[0], key)
    ensures Sets(body, key, value) <==> Sets(body[1..], key, value)
  {
    hide OptionOf;
    var rest := body[1..];
    assert forall k | 0 < k < |body| :: body[k] == rest[k - 1];
    if Sets(body, key, value) {
      var k :| 0 <= k < |body| && HasKey(body[k], key) && OptionOf(body[k]).value.value == value
               && forall j | 0 <= j < |body| && HasKey(body[j], key) :: j == k;
      assert HasKey(rest[k - 1], key);
      forall j | 0 <= j < |rest| && HasKey(rest[j], key)
        ensures j == k - 1
      {
        assert HasKey(body[j + 1], key);
      }
    }
    if Sets(rest, key, value) {
      var k :| 0 <= k < |rest| && HasKey(rest[k], key) && OptionOf(rest[k]).value.value == value
               && forall j | 0 <= j < |rest| && HasKey(rest[j], key) :: j == k;
      assert HasKey(body[k + 1], key);
      forall j | 0 <= j < |body| && HasKey(body[j], key)
        ensures j == k + 1
      {
        assert HasKey(rest[j - 1], key);
      }
    }
  }

  lemma SaysExact(title: string, word: string)
    requires forall k | 0 <= k < |word| :: 'a' <= word[k] <= 'z'
    ensures Mentions(title, word) <==> Says(title, word)
  {
    hide AnyCase, Folds;
    forall i | 0 <= i <= |title|
      ensures MentionsAt(title, word, i) <==> SaysAt(title, word, i)
    {
      if i + |word| <= |title| {
        forall k | 0 <= k < |word|
          ensures Folds(title[i + k], word[k]) <==> AnyCase(title[i + k], word[k])
        {
          FoldsExact(title[i + k], word[k]);
        }
      }
    }
    hide MentionsAt, SaysAt;
  }

  lemma FoldsExact(c: char, l: char)
    requires 'a' <= l <= 'z'
    ensures Folds(c, l) <==> AnyCase(c, l)
  {
  }

  lemma NormalExact(children: seq<Entry>, i: nat)
    requires i < |children|
    ensures IsKernel(children, i) <==> Normal(children, i)
  {
    hide Values, Mentions, Says, Sets;
    var e := children[i];
    ValuesOne(e.body, "protocol", "linux");
    ValuesOne(e.body, "protocol", "efi");
    SaysExact(e.heading.title, "fallback");
    SaysExact(e.heading.title, "rescue");
    SaysExact(e.heading.title, "snapshot");
  }

  lemma OwnExact(entries: seq<Entry>, i: nat)
    requires i < |entries| && IsManaged(entries[i])
    ensures Unchanged(entries, i) <==> Own(entries, i)
    ensures entries[i].heading.level == 1 && entries[i].heading.title in {"Omarchy", "Windows"}
  {
    hide Values, Sets;
    var e := entries[i];
    ValuesOne(e.body, "comment", "Start Omarchy");
    ValuesOne(e.body, "comment", "Start Windows after a brief restart");
    ValuesOne(e.body, "protocol", "efi_boot_entry");
    ValuesOne(e.body, "entry", "Windows Boot Manager");
  }

  lemma MachineExact(e: Entry, word: char -> bool)
    ensures IsGroup(e, word) <==> IsMachineGroup(e, word)
  {
    hide Values, NamesMachine, OptionOf;
    var comments := Values(e.body, "comment");
    if OfMachine(e.body, word) {
      var i :| 0 <= i < |comments| && NamesMachine(comments[i], word);
      ValuesHas(e.body, "comment", comments[i]);
    }
    if k :| 0 <= k < |e.body| && HasKey(e.body[k], "comment") && NamesMachine(OptionOf(e.body[k]).value.value, word) {
      var v := OptionOf(e.body[k]).value.value;
      ValuesHas(e.body, "comment", v);
      assert v in comments;
      var i :| 0 <= i < |comments| && comments[i] == v;
    }
  }

  lemma ImageExact(body: seq<string>)
    ensures HasImage(body) <==> HasOption(body, "path") || HasOption(body, "kernel_path") || HasOption(body, "image_path")
  {
    hide Values, HasOption;
    ValuesNone(body, "path");
    ValuesNone(body, "kernel_path");
    ValuesNone(body, "image_path");
  }

  /** The entry at g, and no other one, is a group that names a machine. */
  ghost predicate IsTheGroup(entries: seq<Entry>, g: nat, word: char -> bool) {
    && g < |entries| && IsMachineGroup(entries[g], word)
    && forall i | 0 <= i < |entries| && IsMachineGroup(entries[i], word) :: i == g
  }

  /** The entries below g, up to the next one at the top level. */
  predicate Below(entries: seq<Entry>, g: nat, children: seq<Entry>) {
    var end := g + 1 + |children|;
    && end <= |entries| && entries[g + 1..end] == children
    && (forall i | 0 <= i < |children| :: children[i].heading.level != 1)
    && (end < |entries| ==> entries[end].heading.level == 1)
  }

  ghost predicate FirstNormal(children: seq<Entry>, j: nat) {
    j < |children| && Normal(children, j) && forall i | 0 <= i < j :: !Normal(children, i)
  }

  /** kernel is the first normal one below the group at g. */
  ghost predicate Chooses(entries: seq<Entry>, g: nat, kernel: Entry, word: char -> bool) {
    && IsTheGroup(entries, g, word)
    && exists children, j: nat :: Below(entries, g, children) && FirstNormal(children, j) && children[j] == kernel
  }

  lemma {:induction false} FirstKernel(children: seq<Entry>, i: nat) returns (j: nat)
    requires i <= |children| && Kernels(children, i) != []
    ensures i <= j < |children| && IsKernel(children, j) && Kernels(children, i)[0] == children[j]
    ensures forall k | i <= k < j :: !IsKernel(children, k)
    decreases |children| - i
  {
    hide IsKernel;
    if IsKernel(children, i) {
      j := i;
    } else {
      j := FirstKernel(children, i + 1);
    }
  }

  lemma {:induction false} KernelFirst(children: seq<Entry>, i: nat, j: nat)
    requires i <= j < |children| && IsKernel(children, j) && forall k | i <= k < j :: !IsKernel(children, k)
    ensures Kernels(children, i) != [] && Kernels(children, i)[0] == children[j]
    decreases j - i
  {
    hide IsKernel;
    if i < j {
      KernelFirst(children, i + 1, j);
    }
  }

  lemma GroupExact(entries: seq<Entry>, g: nat, word: char -> bool)
    ensures IsTheGroup(entries, g, word) <==> Groups(entries, 0, word) == [g]
  {
    hide IsGroup, IsMachineGroup, Groups;
    forall i | 0 <= i < |entries|
      ensures IsGroup(entries[i], word) <==> IsMachineGroup(entries[i], word)
    {
      MachineExact(entries[i], word);
    }
    if IsTheGroup(entries, g, word) {
      GroupsFrom(entries, 0, g, word);
    }
    if Groups(entries, 0, word) == [g] {
      TheGroup(entries, word);
    }
  }

  lemma BelowExact(entries: seq<Entry>, g: nat, children: seq<Entry>)
    requires g < |entries|
    ensures Below(entries, g, children) <==> children == entries[g + 1..GroupEnd(entries, g + 1)]
  {
    GroupEndMeans(entries, g + 1);
    if Below(entries, g, children) {
      GroupEndAt(entries, g + 1, g + 1 + |children|);
    }
  }

  lemma FirstNormalExact(children: seq<Entry>, j: nat)
    requires FirstNormal(children, j)
    ensures Kernels(children, 0) != [] && Kernels(children, 0)[0] == children[j]
  {
    hide Normal, IsKernel, Kernels;
    forall i | 0 <= i <= j
      ensures IsKernel(children, i) <==> Normal(children, i)
    {
      NormalExact(children, i);
    }
    KernelFirst(children, 0, j);
  }

  lemma FoundNormal(children: seq<Entry>) returns (j: nat)
    requires Kernels(children, 0) != []
    ensures FirstNormal(children, j) && children[j] == Kernels(children, 0)[0]
  {
    hide Normal, IsKernel, Kernels;
    j := FirstKernel(children, 0);
    forall i | 0 <= i <= j
      ensures IsKernel(children, i) <==> Normal(children, i)
    {
      NormalExact(children, i);
    }
  }

  lemma ChosenFirst(entries: seq<Entry>, g: nat, kernel: Entry, word: char -> bool)
    requires g < |entries| && Chooses(entries, g, kernel, word)
    ensures var kernels := Kernels(entries[g + 1..GroupEnd(entries, g + 1)], 0); kernels != [] && kernels[0] == kernel
  {
    hide IsTheGroup, GroupEnd, Kernels, Below, Normal;
    var children, j :| Below(entries, g, children) && FirstNormal(children, j) && children[j] == kernel;
    BelowExact(entries, g, children);
    FirstNormalExact(children, j);
  }

  /** The choice told from the entries is the one that the rewriter finds. */
  lemma ChoiceExact(entries: seq<Entry>, g: nat, kernel: Entry, word: char -> bool)
    ensures Chooses(entries, g, kernel, word) <==>
            && Groups(entries, 0, word) == [g] && g < |entries|
            && var kernels := Kernels(entries[g + 1..GroupEnd(entries, g + 1)], 0); kernels != [] && kernels[0] == kernel
  {
    hide IsTheGroup, Groups, GroupEnd, Kernels, Below, FirstNormal;
    GroupExact(entries, g, word);
    if Groups(entries, 0, word) == [g] {
      assert Groups(entries, 0, word)[0] == g < |entries|;
      var found := entries[g + 1..GroupEnd(entries, g + 1)];
      BelowExact(entries, g, found);
      if Kernels(found, 0) != [] {
        var j := FoundNormal(found);
      }
      if Chooses(entries, g, kernel, word) {
        ChosenFirst(entries, g, kernel, word);
      }
    }
  }

  /** No entry but the group poses as one of the installer's without being as it was written. */
  ghost predicate OthersOwn(entries: seq<Entry>, g: nat) {
    forall i | 0 <= i < |entries| && i != g && entries[i].heading.level == 1 && entries[i].heading.title in {"Omarchy", "Windows"} ::
      Own(entries, i)
  }

  lemma OthersExact(entries: seq<Entry>, g: nat)
    ensures NoneChanged(entries, g) <==> OthersOwn(entries, g)
  {
    hide Unchanged, Own;
    forall i | 0 <= i < |entries|
      ensures IsManaged(entries[i]) <==> entries[i].heading.level == 1 && entries[i].heading.title in {"Omarchy", "Windows"}
      ensures IsManaged(entries[i]) ==> (Unchanged(entries, i) <==> Own(entries, i))
    {
      if IsManaged(entries[i]) {
        OwnExact(entries, i);
      }
    }
  }

  ghost predicate HasBootImage(body: seq<string>) {
    HasOption(body, "path") || HasOption(body, "kernel_path") || HasOption(body, "image_path")
  }

  /** One group, a kernel with an image below it, and nothing that poses as one of the installer's entries. */
  ghost predicate Acceptable(entries: seq<Entry>, word: char -> bool) {
    exists g, kernel :: Chooses(entries, g, kernel, word) && HasBootImage(kernel.body) && OthersOwn(entries, g)
  }

  lemma ArrangeExact(entries: seq<Entry>, word: char -> bool)
    ensures Arrange(entries, word).Ok? <==> Acceptable(entries, word)
    ensures Arrange(entries, word).Ok? ==> exists g :: Chooses(entries, g, TheKernel(entries, word), word)
  {
    hide Groups, Kernels, GroupEnd, NoneChanged, OthersOwn, HasImage, HasOption, Kept, Primary, WindowsEntry, Retitled, Chooses;
    forall g, kernel | Chooses(entries, g, kernel, word) && HasBootImage(kernel.body) && OthersOwn(entries, g)
      ensures Arrange(entries, word).Ok?
    {
      ChoiceExact(entries, g, kernel, word);
      OthersExact(entries, g);
      ImageExact(kernel.body);
    }
    if Arrange(entries, word).Ok? {
      var g := Groups(entries, 0, word)[0];
      var kernel := TheKernel(entries, word);
      ChoiceExact(entries, g, kernel, word);
      OthersExact(entries, g);
      ImageExact(kernel.body);
    }
  }

  /**
   * A menu is rewritten exactly if the countdown is one of four, the text is supported, one top-level entry names a
   * machine, a normal kernel with an image stands below it, and no other entry poses as the installer's. The
   * first such kernel is the one that Omarchy then starts.
   */
  lemma RenderExact(text: string, s: Settings, word: char -> bool)
    ensures Render(text, s, word).Ok? <==>
            && (s.timeout == 5 || s.timeout == 10 || s.timeout == 15 || s.timeout == 30)
            && '\0' !in text && Utf8Length(text) <= 4194304 && Acceptable(Read(text).entries, word)
    ensures Arrange(Read(text).entries, word).Ok? ==>
              exists g :: Chooses(Read(text).entries, g, TheKernel(Read(text).entries, word), word)
  {
    hide Read, Acceptable, Arrange, Write, TheKernel, Chooses, Utf8Length;
    ArrangeExact(Read(text).entries, word);
  }
}
