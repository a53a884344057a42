// Arranging a menu that has been arranged, written and read back.
module MenuArrange {
  import opened Bytes
  import opened MenuText
  import opened MenuLines
  import opened BootMenu
  import opened MenuRoundTrip

  // Entries that differ only in empty lines.

  /** An entry and what it is read back as. */
  predicate Back(e: Entry, e': Entry) {
    e'.heading == e.heading && (e'.body == Body(e.body) || e'.body == Body(e.body) + [""])
  }

  predicate AllBack(es: seq<Entry>, es': seq<Entry>) {
    |es| == |es'| && forall i | 0 <= i < |es| :: Back(es[i], es'[i])
  }

  lemma EntriesAreBack(es: seq<Entry>)
    ensures AllBack(es, EntriesBack(es))
  {
    hide Body;
    var es' := EntriesBack(es);
    forall i | 0 <= i < |es|
      ensures Back(es[i], es'[i])
    {
      assert Body(es[i].body) + [] == Body(es[i].body);
    }
  }

  lemma {:induction false} ValuesAppend(a: seq<string>, b: seq<string>, key: string)
    ensures Values(a + b, key) == Values(a, key) + Values(b, key)
  {
    hide OptionOf;
    if a == [] {
      assert a + b == b;
    } else {
      assert (a + b)[1..] == a[1..] + b;
      ValuesAppend(a[1..], b, key);
    }
  }

  lemma ValuesBlank(key: string)
    ensures Values([""], key) == []
  {
    assert [""][1..] == [];
  }

  lemma {:induction false} ValuesTrimLeft(body: seq<string>, key: string)
    ensures Values(TrimLeft(body), key) == Values(body, key)
  {
    if body != [] && body[0] == "" {
      ValuesTrimLeft(body[1..], key);
    }
  }

  lemma {:induction false} ValuesTrimRight(body: seq<string>, key: string)
    ensures Values(TrimRight(body), key) == Values(body, key)
  {
    hide OptionOf;
    if body != [] && body[|body| - 1] == "" {
      var n := |body| - 1;
      ValuesTrimRight(body[..n], key);
      assert body == body[..n] + [""];
      ValuesAppend(body[..n], [""], key);
      ValuesBlank(key);
    }
  }

  lemma BackValues(e: Entry, e': Entry, key: string)
    requires Back(e, e')
    ensures Values(e'.body, key) == Values(e.body, key)
  {
    hide Values;
    ValuesTrimLeft(e.body, key);
    ValuesTrimRight(TrimLeft(e.body), key);
    ValuesBlank(key);
    if Trim(e.body) == [] {
      ValuesNone(key);
    }
    ValuesAppend(Body(e.body), [""], key);
  }

  lemma ValuesNone(key: string)
    ensures Values([], key) == []
  {
  }

  lemma BackGroup(e: Entry, e': Entry, word: char -> bool)
    requires Back(e, e')
    ensures IsGroup(e', word) <==> IsGroup(e, word)
  {
    BackValues(e, e', "comment");
    hide Values, Back, NamesMachine;
  }

  lemma BackText(e: Entry, e': Entry)
    requires Back(e, e') && CleanEntry(e)
    ensures Text(e') == Text(e) && CleanEntry(e')
  {
    BodyPlain(e.body);
    TrimBody(e.body);
    assert CleanEntry(e');
    TextJoins(e);
    TextJoins(e');
    hide Text, Trim, CleanEntry, HeadingLine;
  }

  // The group and its kernel.

  lemma {:induction false} GroupsFrom(entries: seq<Entry>, i: nat, g: nat, word: char -> bool)
    requires i <= g < |entries| && IsGroup(entries[g], word)
    requires forall k | i <= k < |entries| && k != g :: !IsGroup(entries[k], word)
    ensures Groups(entries, i, word) == [g]
    decreases |entries| - i
  {
    hide IsGroup;
    if i < g {
      GroupsFrom(entries, i + 1, g, word);
    } else {
      NoGroups(entries, i + 1, word);
    }
  }

  lemma {:induction false} NoGroups(entries: seq<Entry>, i: nat, word: char -> bool)
    requires i <= |entries| && forall k | i <= k < |entries| :: !IsGroup(entries[k], word)
    ensures Groups(entries, i, word) == []
    decreases |entries| - i
  {
    hide IsGroup;
    if i < |entries| {
      NoGroups(entries, i + 1, word);
    }
  }

  lemma {:induction false} OnlyGroup(entries: seq<Entry>, i: nat, k: nat, word: char -> bool)
    requires i <= |entries| && |Groups(entries, i, word)| <= 1 && i <= k < |entries| && IsGroup(entries[k], word)
    ensures Groups(entries, i, word) == [k]
    decreases k - i
  {
    hide IsGroup;
    if i < k {
      OnlyGroup(entries, i + 1, k, word);
    }
  }

  lemma {:induction false} GroupsAreGroups(entries: seq<Entry>, i: nat, word: char -> bool)
    requires i <= |entries|
    ensures forall k | 0 <= k < |Groups(entries, i, word)| :: IsGroup(entries[Groups(entries, i, word)[k]], word)
    decreases |entries| - i
  {
    hide IsGroup;
    if i < |entries| {
      GroupsAreGroups(entries, i + 1, word);
    }
  }

  /** The group is the one entry of its kind. */
  lemma TheGroup(entries: seq<Entry>, word: char -> bool)
    requires |Groups(entries, 0, word)| == 1
    ensures var g := Groups(entries, 0, word)[0];
            IsGroup(entries[g], word) && forall k | 0 <= k < |entries| && IsGroup(entries[k], word) :: k == g
  {
    hide IsGroup;
    GroupsAreGroups(entries, 0, word);
    forall k | 0 <= k < |entries| && IsGroup(entries[k], word)
      ensures k == Groups(entries, 0, word)[0]
    {
      OnlyGroup(entries, 0, k, word);
    }
  }

  lemma {:induction false} GroupEndAt(entries: seq<Entry>, i: nat, e: nat)
    requires i <= e <= |entries|
    requires forall k | i <= k < e :: entries[k].heading.level != 1
    requires e < |entries| ==> entries[e].heading.level == 1
    ensures GroupEnd(entries, i) == e
    decreases e - i
  {
    if i < e {
      GroupEndAt(entries, i + 1, e);
    }
  }

  lemma {:induction false} GroupEndMeans(entries: seq<Entry>, i: nat)
    requires i <= |entries|
    ensures var e := GroupEnd(entries, i);
            && (forall k | i <= k < e :: entries[k].heading.level != 1)
            && (e < |entries| ==> entries[e].heading.level == 1)
    decreases |entries| - i
  {
    if i < |entries| && entries[i].heading.level != 1 {
      GroupEndMeans(entries, i + 1);
    }
  }

  lemma {:induction false} KernelsBack(b: seq<Entry>, b': seq<Entry>, i: nat)
    requires AllBack(b, b') && i <= |b|
    ensures AllBack(Kernels(b, i), Kernels(b', i))
    decreases |b| - i
  {
    hide Back;
    if i < |b| {
      KernelsBack(b, b', i + 1);
      KernelBack(b, b', i);
    }
  }

  lemma KernelBack(b: seq<Entry>, b': seq<Entry>, i: nat)
    requires AllBack(b, b') && i < |b|
    ensures IsKernel(b', i) <==> IsKernel(b, i)
  {
    assert Back(b[i], b'[i]);
    assert i + 1 < |b| ==> Back(b[i + 1], b'[i + 1]);
    BackValues(b[i], b'[i], "protocol");
    hide Values, Exceptional;
  }

  lemma ImageBack(e: Entry, e': Entry)
    requires Back(e, e')
    ensures HasImage(e'.body) <==> HasImage(e.body)
  {
    hide Back, Values;
    BackValues(e, e', "path");
    BackValues(e, e', "kernel_path");
    BackValues(e, e', "image_path");
  }

  // The entries that stay.

  predicate NoneManaged(entries: seq<Entry>) {
    forall i | 0 <= i < |entries| :: !IsManaged(entries[i])
  }

  lemma {:induction false} KeptAll(entries: seq<Entry>)
    requires NoneManaged(entries)
    ensures Kept(entries) == entries
  {
    hide IsManaged;
    if entries != [] {
      assert NoneManaged(entries[1..]);
      KeptAll(entries[1..]);
    }
  }

  predicate From(kept: seq<Entry>, entries: seq<Entry>) {
    NoneManaged(kept) && forall i | 0 <= i < |kept| :: kept[i] in entries
  }

  lemma {:induction false} KeptFrom(entries: seq<Entry>)
    ensures From(Kept(entries), entries)
  {
    hide IsManaged;
    if entries != [] {
      KeptFrom(entries[1..]);
      assert forall i | 0 <= i < |Kept(entries[1..])| :: Kept(entries[1..])[i] in entries[1..];
      assert forall e | e in entries[1..] :: e in entries;
    }
  }

  /** What follows a group still begins at the top level once the managed entries are gone. */
  lemma {:induction false} KeptBeginsAtTop(entries: seq<Entry>)
    requires entries != [] && entries[0].heading.level == 1
    requires forall i | 0 <= i < |entries| :: entries[i].heading.level >= 1
    requires forall i | 0 <= i < |entries| && IsManaged(entries[i]) :: Unchanged(entries, i)
    ensures Kept(entries) != [] ==> Kept(entries)[0].heading.level == 1
    decreases |entries|
  {
    var rest := entries[1..];
    if IsManaged(entries[0]) && rest != [] {
      assert Unchanged(entries, 0);
      forall i | 0 <= i < |rest| && IsManaged(rest[i])
        ensures Unchanged(rest, i)
      {
        assert Unchanged(entries, i + 1);
      }
      hide IsManaged, Unchanged;
      KeptBeginsAtTop(rest);
    }
  }

  // The arranged entries.

  /** The only group stands at g. */
  ghost predicate OneGroup(es: seq<Entry>, g: nat, word: char -> bool) {
    g < |es| && forall i | 0 <= i < |es| :: IsGroup(es[i], word) <==> i == g
  }

  /** The first two entries are the managed ones. */
  predicate TwoManaged(es: seq<Entry>) {
    2 <= |es| && forall i | 0 <= i < |es| :: IsManaged(es[i]) <==> i < 2
  }

  /** The group at g has b children. */
  predicate Children(es: seq<Entry>, g: nat, b: nat) {
    && g + 1 + b <= |es|
    && (forall i | g < i <= g + b :: es[i].heading.level != 1)
    && (g + 1 + b < |es| ==> es[g + 1 + b].heading.level == 1)
  }

  /** The first two entries are as the rewriter makes them. */
  predicate AsMade(es: seq<Entry>) {
    && 2 <= |es| && es[1] == WindowsEntry() && es[0].heading == Heading(1, false, OMARCHY)
    && Values(es[0].body, "comment") == [START_OMARCHY]
  }

  /** What is known of the outcome of an arrangement. */
  ghost predicate Shape(es: seq<Entry>, g: nat, b: nat, word: char -> bool) {
    2 <= g && OneGroup(es, g, word) && TwoManaged(es) && Children(es, g, b) && AsMade(es) && Retitled(es[g]) == es[g]
  }

  lemma HeadingsBack(es: seq<Entry>, es': seq<Entry>)
    requires AllBack(es, es')
    ensures forall i | 0 <= i < |es| :: es'[i].heading == es[i].heading
  {
    forall i | 0 <= i < |es|
      ensures es'[i].heading == es[i].heading
    {
      assert Back(es[i], es'[i]);
    }
  }

  lemma GroupBack(es: seq<Entry>, es': seq<Entry>, g: nat, word: char -> bool)
    requires OneGroup(es, g, word) && AllBack(es, es')
    ensures Groups(es', 0, word) == [g]
  {
    hide IsGroup, Back;
    forall i | 0 <= i < |es|
      ensures IsGroup(es'[i], word) <==> i == g
    {
      assert Back(es[i], es'[i]);
      BackGroup(es[i], es'[i], word);
    }
    GroupsFrom(es', 0, g, word);
  }

  lemma ChildrenBack(es: seq<Entry>, es': seq<Entry>, g: nat, b: nat)
    requires Children(es, g, b) && AllBack(es, es')
    ensures GroupEnd(es', g + 1) == g + 1 + b
    ensures AllBack(es[g + 1..g + 1 + b], es'[g + 1..g + 1 + b])
  {
    HeadingsBack(es, es');
    GroupEndAt(es', g + 1, g + 1 + b);
    hide Back;
  }

  lemma ManagedBack(es: seq<Entry>, es': seq<Entry>)
    requires TwoManaged(es) && AllBack(es, es')
    ensures TwoManaged(es')
  {
    HeadingsBack(es, es');
    hide Back;
    forall i | 0 <= i < |es|
      ensures IsManaged(es'[i]) <==> i < 2
    {
      assert es'[i].heading == es[i].heading;
    }
  }

  lemma KeptBack(es: seq<Entry>, g: nat)
    requires TwoManaged(es) && 2 <= g < |es|
    ensures Kept(es[..g]) == es[2..g] && Kept(es[g + 1..]) == es[g + 1..]
  {
    hide IsManaged;
    assert es[..g] == es[..2] + es[2..g];
    KeptAppend(es[..2], es[2..g]);
    KeptTwo(es[..2]);
    KeptAll(es[2..g]);
    KeptAll(es[g + 1..]);
  }

  lemma KeptTwo(es: seq<Entry>)
    requires |es| == 2 && IsManaged(es[0]) && IsManaged(es[1])
    ensures Kept(es) == []
  {
    hide IsManaged;
    var last := es[1..];
    assert last[0] == es[1] && last[1..] == [];
    assert Kept(last) == Kept(last[1..]) == [];
  }

  lemma ValuesLine(k: string, v: string, key: string)
    requires LowerKey(k) && Tight(v)
    ensures Values([OptionLine("  ", k, v)], key) == if k == key then [v] else []
  {
    OptionOfLine("  ", k, v);
    hide OptionOf, OptionLine, Tight, LowerKey;
    var l := [OptionLine("  ", k, v)];
    assert l[1..] == [];
  }

  lemma WindowsTexts()
    ensures LowerKey("comment") && LowerKey("protocol") && LowerKey("entry")
    ensures Tight(START_WINDOWS) && Tight(WINDOWS_PROTOCOL) && Tight(WINDOWS_ENTRY) && Tight(START_OMARCHY)
  {
  }

  lemma WindowsValue(key: string)
    ensures Values(WindowsEntry().body, key) ==
            (if "comment" == key then [START_WINDOWS] else []) + (if "protocol" == key then [WINDOWS_PROTOCOL] else [])
            + if "entry" == key then [WINDOWS_ENTRY] else []
  {
    WindowsTexts();
    hide Tight, LowerKey, OptionLine, Values, START_OMARCHY, START_WINDOWS, WINDOWS_PROTOCOL, WINDOWS_ENTRY;
    var a, b, c := OptionLine("  ", "comment", START_WINDOWS), OptionLine("  ", "protocol", WINDOWS_PROTOCOL),
                   OptionLine("  ", "entry", WINDOWS_ENTRY);
    ValuesLine("comment", START_WINDOWS, key);
    ValuesLine("protocol", WINDOWS_PROTOCOL, key);
    ValuesLine("entry", WINDOWS_ENTRY, key);
    ValuesAppend([a], [b], key);
    ValuesAppend([a] + [b], [c], key);
    var all := [a] + [b] + [c];
    assert WindowsEntry().body == all;
    assert Values(all, key) == Values([a], key) + Values([b], key) + Values([c], key);
    assert Values(WindowsEntry().body, key) == Values(all, key);
  }

  lemma FirstUnchanged(es: seq<Entry>, es': seq<Entry>)
    requires AsMade(es) && AllBack(es, es')
    ensures Unchanged(es', 0)
  {
    assert Back(es[0], es'[0]) && Back(es[1], es'[1]);
    BackValues(es[0], es'[0], "comment");
    hide Back, Values, OMARCHY, WINDOWS, START_OMARCHY, START_WINDOWS, WINDOWS_PROTOCOL, WINDOWS_ENTRY, ADVANCED;
  }

  lemma WindowsBack(e: Entry)
    requires Back(WindowsEntry(), e)
    ensures e.heading == WindowsEntry().heading
    ensures Values(e.body, "comment") == [START_WINDOWS] && Values(e.body, "protocol") == [WINDOWS_PROTOCOL]
    ensures Values(e.body, "entry") == [WINDOWS_ENTRY]
  {
    hide Values, WindowsEntry, OMARCHY, WINDOWS, START_OMARCHY, START_WINDOWS, WINDOWS_PROTOCOL, WINDOWS_ENTRY, ADVANCED;
    BackValues(WindowsEntry(), e, "comment");
    BackValues(WindowsEntry(), e, "protocol");
    BackValues(WindowsEntry(), e, "entry");
    WindowsValue("comment");
    WindowsValue("protocol");
    WindowsValue("entry");
  }

  lemma SecondUnchanged(es: seq<Entry>, es': seq<Entry>)
    requires |es| > 2 && es[1] == WindowsEntry() && AllBack(es, es')
    ensures Unchanged(es', 1) <==> es[2].heading.level <= 1
  {
    HeadingsBack(es, es');
    hide Values, WindowsEntry, OMARCHY, WINDOWS, START_OMARCHY, START_WINDOWS, WINDOWS_PROTOCOL, WINDOWS_ENTRY, ADVANCED;
    assert Back(es[1], es'[1]);
    hide Back;
    WindowsBack(es'[1]);
  }

  lemma MadeSecond(es: seq<Entry>)
    requires AsMade(es)
    ensures es[1] == WindowsEntry()
  {
  }

  /** The managed entries pass the rewriter's own check exactly when no child follows the second. */
  lemma CheckBack(es: seq<Entry>, es': seq<Entry>, g: nat)
    requires TwoManaged(es) && AsMade(es) && AllBack(es, es') && 2 <= g < |es|
    ensures NoneChanged(es', g) <==> es[2].heading.level <= 1
  {
    hide AsMade, Back, Unchanged, IsManaged, OMARCHY, WINDOWS, START_OMARCHY, START_WINDOWS, WINDOWS_PROTOCOL, WINDOWS_ENTRY, ADVANCED;
    ManagedBack(es, es');
    FirstUnchanged(es, es');
    MadeSecond(es);
    SecondUnchanged(es, es');
    assert IsManaged(es'[0]) && IsManaged(es'[1]);
  }

  /** The kernel of arranged entries. */
  ghost predicate KernelIs(es: seq<Entry>, g: nat, b: nat, kernel: Entry)
    requires g + 1 + b <= |es|
  {
    var kernels := Kernels(es[g + 1..g + 1 + b], 0);
    kernels != [] && kernels[0] == kernel && HasImage(kernel.body)
  }

  lemma KernelAgain(es: seq<Entry>, es': seq<Entry>, g: nat, b: nat, kernel: Entry) returns (kernel': Entry)
    requires Children(es, g, b) && AllBack(es, es') && KernelIs(es, g, b, kernel)
    ensures KernelIs(es', g, b, kernel') && Back(kernel, kernel')
  {
    hide Children, Back, HasImage, Kernels;
    ChildrenBack(es, es', g, b);
    KernelsBack(es[g + 1..g + 1 + b], es'[g + 1..g + 1 + b], 0);
    var ks := Kernels(es'[g + 1..g + 1 + b], 0);
    kernel' := ks[0];
    assert Back(kernel, kernel');
    ImageBack(kernel, kernel');
  }

  /** The menu that comes out when arranged entries are read back and arranged again. */
  lemma ArrangeAgain(es: seq<Entry>, es': seq<Entry>, g: nat, b: nat, kernel: Entry, word: char -> bool)
    returns (kernel': Entry)
    requires Shape(es, g, b, word) && AllBack(es, es') && KernelIs(es, g, b, kernel)
    ensures Back(kernel, kernel')
    ensures Arrange(es', word).Ok? <==> es[2].heading.level <= 1
    ensures Arrange(es', word).Ok? ==>
              Arrange(es', word).value == [Primary(kernel'), WindowsEntry()] + (es'[2..g] + [Retitled(es'[g])] + es'[g + 1..])
  {
    hide OneGroup, TwoManaged, Children, AsMade, Back, Kernels, HasImage, NoneChanged, Kept, Groups, GroupEnd, Primary,
         WindowsEntry, Retitled, OMARCHY, WINDOWS, START_OMARCHY, START_WINDOWS, WINDOWS_PROTOCOL, WINDOWS_ENTRY, ADVANCED;
    kernel' := KernelAgain(es, es', g, b, kernel);
    GroupBack(es, es', g, word);
    ChildrenBack(es, es', g, b);
    CheckBack(es, es', g);
    ManagedBack(es, es');
    KeptBack(es', g);
  }
}
