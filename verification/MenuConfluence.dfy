// Rewriting a rewritten menu.
module MenuConfluence {
  import opened Bytes
  import opened MenuText
  import opened MenuLines
  import opened BootMenu
  import opened MenuRoundTrip
  import opened MenuArrange

  // The first arrangement has the shape that the second relies on.

  lemma {:induction false} NoCommentsLeft(body: seq<string>)
    ensures Values(NoComments(body), "comment") == []
  {
    hide OptionOf;
    if body != [] {
      NoCommentsLeft(body[1..]);
      var rest := NoComments(body[1..]);
      assert ([body[0]] + rest)[1..] == rest && [] + rest == rest;
    }
  }

  lemma PrimaryComment(kernel: Entry)
    ensures Values(Primary(kernel).body, "comment") == [START_OMARCHY]
  {
    WindowsTexts();
    hide START_OMARCHY, OptionLine, Values, NoComments, Tight;
    ValuesLine("comment", START_OMARCHY, "comment");
    NoCommentsLeft(kernel.body);
    ValuesAppend([OptionLine("  ", "comment", START_OMARCHY)], NoComments(kernel.body), "comment");
  }

  lemma FirstTwoNoGroups(kernel: Entry, word: char -> bool)
    ensures !IsGroup(Primary(kernel), word) && !IsGroup(WindowsEntry(), word)
  {
    PrimaryComment(kernel);
    WindowsValue("comment");
    assert |START_OMARCHY| < 43 && |START_WINDOWS| < 43;
    hide Values, Primary, WindowsEntry, NamesMachine, START_OMARCHY, START_WINDOWS;
  }

  /** The entries around the two made ones: what precedes the group, the group, its children, the rest. */
  function Around(before: seq<Entry>, group: Entry, children: seq<Entry>, after: seq<Entry>): seq<Entry> {
    Kept(before) + [Retitled(group)] + children + Kept(after)
  }

  lemma DeepNotManaged(entries: seq<Entry>)
    requires forall i | 0 <= i < |entries| :: entries[i].heading.level != 1
    ensures NoneManaged(entries)
  {
    hide OMARCHY, WINDOWS;
  }

  lemma KeptBehind(rest: seq<Entry>, b: nat)
    requires b <= |rest| && forall i | 0 <= i < b :: rest[i].heading.level != 1
    ensures Kept(rest) == rest[..b] + Kept(rest[b..])
  {
    hide Kept, NoneManaged;
    var children, others := rest[..b], rest[b..];
    DeepNotManaged(children);
    KeptAll(children);
    KeptAppend(children, others);
    assert rest == children + others;
  }

  lemma RetitledGroup(e: Entry, word: char -> bool)
    ensures IsGroup(Retitled(e), word) <==> IsGroup(e, word)
    ensures !IsManaged(Retitled(e)) && Retitled(Retitled(e)) == Retitled(e)
  {
    assert |ADVANCED| == 24 && |OMARCHY| == 7 && |WINDOWS| == 7;
  }

  ghost predicate NoneGroup(entries: seq<Entry>, word: char -> bool) {
    forall i | 0 <= i < |entries| :: !IsGroup(entries[i], word)
  }

  /** Kept entries are no groups where none of the entries is. */
  lemma KeptNoGroups(entries: seq<Entry>, word: char -> bool)
    requires NoneGroup(entries, word)
    ensures NoneManaged(Kept(entries)) && NoneGroup(Kept(entries), word)
  {
    hide IsGroup, IsManaged, Kept;
    KeptFrom(entries);
    forall i | 0 <= i < |Kept(entries)|
      ensures !IsGroup(Kept(entries)[i], word)
    {
      var k :| 0 <= k < |entries| && entries[k] == Kept(entries)[i];
    }
  }

  lemma FirstTwoManaged(kernel: Entry)
    ensures IsManaged(Primary(kernel)) && IsManaged(WindowsEntry())
  {
  }

  lemma OneGroupBetween(a: seq<Entry>, group: Entry, b: seq<Entry>, word: char -> bool)
    requires NoneGroup(a, word) && IsGroup(group, word) && NoneGroup(b, word)
    ensures OneGroup(a + [group] + b, |a|, word)
  {
    hide IsGroup;
    var es := a + [group] + b;
    forall i | 0 <= i < |es|
      ensures IsGroup(es[i], word) <==> i == |a|
    {
      assert es[i] == if i < |a| then a[i] else if i == |a| then group else b[i - |a| - 1];
    }
  }

  lemma TwoManagedBefore(es: seq<Entry>, rest: seq<Entry>)
    requires |es| == 2 && IsManaged(es[0]) && IsManaged(es[1]) && NoneManaged(rest)
    ensures TwoManaged(es + rest)
  {
    hide IsManaged;
    forall i | 0 <= i < |es + rest|
      ensures IsManaged((es + rest)[i]) <==> i < 2
    {
      assert (es + rest)[i] == if i < 2 then es[i] else rest[i - 2];
    }
  }

  lemma NonesAppend(a: seq<Entry>, b: seq<Entry>, word: char -> bool)
    ensures NoneGroup(a, word) && NoneGroup(b, word) ==> NoneGroup(a + b, word)
    ensures NoneManaged(a) && NoneManaged(b) ==> NoneManaged(a + b)
  {
    hide IsGroup, IsManaged;
  }

  lemma AroundShape(kernel: Entry, before: seq<Entry>, group: Entry, children: seq<Entry>, after: seq<Entry>, word: char -> bool)
    requires IsGroup(group, word) && NoneGroup(before, word) && NoneGroup(children, word) && NoneGroup(after, word)
    requires NoneManaged(children)
    ensures var es := [Primary(kernel), WindowsEntry()] + Around(before, group, children, after);
            OneGroup(es, 2 + |Kept(before)|, word) && TwoManaged(es)
  {
    hide IsGroup, IsManaged, Kept, Primary, WindowsEntry, Retitled, NoneGroup, NoneManaged, OneGroup, TwoManaged;
    FirstTwoNoGroups(kernel, word);
    FirstTwoManaged(kernel);
    RetitledGroup(group, word);
    KeptNoGroups(before, word);
    KeptNoGroups(after, word);
    var two := [Primary(kernel), WindowsEntry()];
    var k, g, a := Kept(before), [Retitled(group)], Kept(after);
    assert NoneGroup(two, word) && NoneManaged(g) by {
      TwoNone(two, word);
      OneNone(Retitled(group));
    }
    NonesAppend(two, k, word);
    NonesAppend(children, a, word);
    OneGroupBetween(two + k, Retitled(group), children + a, word);
    NonesAppend(k, g, word);
    NonesAppend(k + g, children + a, word);
    TwoManagedBefore(two, k + g + (children + a));
    assert two + (k + g + children + a) == two + k + g + (children + a) == two + (k + g + (children + a));
  }

  lemma TwoNone(two: seq<Entry>, word: char -> bool)
    requires |two| == 2 && !IsGroup(two[0], word) && !IsGroup(two[1], word)
    ensures NoneGroup(two, word)
  {
    hide IsGroup;
  }

  lemma OneNone(e: Entry)
    requires !IsManaged(e)
    ensures NoneManaged([e])
  {
    hide IsManaged;
  }

  // Both rewrites.

  /** Reading entries gives levels of at least 1. */
  predicate Leveled(entries: seq<Entry>) {
    forall i | 0 <= i < |entries| :: entries[i].heading.level >= 1
  }

  /** An accepted menu, told from its group at g with b children. */
  ghost predicate Accepted(entries: seq<Entry>, g: nat, b: nat, kernel: Entry, word: char -> bool) {
    && OneGroup(entries, g, word) && Children(entries, g, b) && KernelIs(entries, g, b, kernel)
    && NoneChanged(entries, g)
  }

  function Arranged(entries: seq<Entry>, g: nat, b: nat, kernel: Entry): seq<Entry>
    requires g + 1 + b <= |entries|
  {
    [Primary(kernel), WindowsEntry()] + Around(entries[..g], entries[g], entries[g + 1..g + 1 + b], entries[g + 1 + b..])
  }

  /** The kernel entry that the rewriter chooses. */
  function TheKernel(entries: seq<Entry>, word: char -> bool): Entry
    requires Arrange(entries, word).Ok?
  {
    var g := Groups(entries, 0, word)[0];
    Kernels(entries[g + 1..GroupEnd(entries, g + 1)], 0)[0]
  }

  lemma AroundGroup(entries: seq<Entry>, g: nat, b: nat)
    requires Children(entries, g, b)
    ensures Kept(entries[..g]) + [Retitled(entries[g])] + Kept(entries[g + 1..])
         == Around(entries[..g], entries[g], entries[g + 1..g + 1 + b], entries[g + 1 + b..])
  {
    hide Kept, Retitled;
    var rest := entries[g + 1..];
    assert rest[..b] == entries[g + 1..g + 1 + b] && rest[b..] == entries[g + 1 + b..];
    KeptBehind(rest, b);
    var k, t := Kept(entries[..g]), [Retitled(entries[g])];
    assert k + t + (rest[..b] + Kept(rest[b..])) == k + t + rest[..b] + Kept(rest[b..]);
  }

  lemma ArrangeAccepts(entries: seq<Entry>, word: char -> bool) returns (g: nat, b: nat, kernel: Entry)
    requires Arrange(entries, word).Ok?
    ensures kernel == TheKernel(entries, word) && g + 1 + b <= |entries|
    ensures Accepted(entries, g, b, kernel, word)
    ensures Arrange(entries, word).value == Arranged(entries, g, b, kernel)
  {
    hide IsGroup, HasImage, NoneChanged, Kept, Primary, WindowsEntry, Retitled, Kernels, Around;
    g := Groups(entries, 0, word)[0];
    TheGroup(entries, word);
    GroupEndMeans(entries, g + 1);
    b := GroupEnd(entries, g + 1) - (g + 1);
    kernel := Kernels(entries[g + 1..g + 1 + b], 0)[0];
    hide Groups, GroupEnd;
    AroundGroup(entries, g, b);
  }

  lemma SliceNoneGroup(entries: seq<Entry>, lo: nat, hi: nat, g: nat, word: char -> bool)
    requires OneGroup(entries, g, word) && lo <= hi <= |entries| && (hi <= g || g < lo)
    ensures NoneGroup(entries[lo..hi], word)
  {
    hide IsGroup;
    forall i | 0 <= i < hi - lo
      ensures !IsGroup(entries[lo..hi][i], word)
    {
      assert entries[lo..hi][i] == entries[lo + i];
    }
  }

  predicate AllUnchanged(entries: seq<Entry>) {
    forall i | 0 <= i < |entries| && IsManaged(entries[i]) :: Unchanged(entries, i)
  }

  lemma TopOf(entries: seq<Entry>)
    requires Leveled(entries) && AllUnchanged(entries) && entries != [] && entries[0].heading.level == 1
    ensures Kept(entries) != [] ==> Kept(entries)[0].heading.level == 1
  {
    hide IsManaged, Unchanged, Kept;
    KeptBeginsAtTop(entries);
  }

  /** The entry behind the made ones is at the top level exactly when the menu began there. */
  lemma ThirdEntry(entries: seq<Entry>, g: nat, b: nat, kernel: Entry, word: char -> bool)
    requires Accepted(entries, g, b, kernel, word) && Leveled(entries)
    ensures var es := Arranged(entries, g, b, kernel);
            2 < |es| && (es[2].heading.level <= 1 <==> entries[0].heading.level == 1)
  {
    var before := entries[..g];
    assert entries[0..g] == before;
    assert IsGroup(entries[g], word);
    hide IsGroup, OneGroup, Children, KernelIs, NoneChanged, AllUnchanged, Primary, WindowsEntry;
    var es := Arranged(entries, g, b, kernel);
    assert es[2] == (Kept(before) + [Retitled(entries[g])])[0];
    hide Retitled;
    if g > 0 {
      if entries[0].heading.level == 1 {
        TopOf(before);
      }
    }
  }

  lemma AfterAtTop(entries: seq<Entry>, g: nat, b: nat)
    requires Children(entries, g, b) && Leveled(entries) && NoneChanged(entries, g)
    ensures var after := Kept(entries[g + 1 + b..]);
            after != [] ==> after[0].heading.level == 1
  {
    hide Kept;
    var after := entries[g + 1 + b..];
    assert entries[g + 1 + b..|entries|] == after;
    hide NoneChanged, AllUnchanged;
    if after != [] {
      TopOf(after);
    } else {
      KeptFrom(after);
    }
  }

  lemma ChildrenOf(entries: seq<Entry>, g: nat, b: nat, kernel: Entry, word: char -> bool)
    requires Accepted(entries, g, b, kernel, word) && Leveled(entries)
    ensures var es, at := Arranged(entries, g, b, kernel), 2 + |Kept(entries[..g])|;
            && Children(es, at, b) && es[at] == Retitled(entries[g])
            && es[at + 1..at + 1 + b] == entries[g + 1..g + 1 + b]
  {
    hide OneGroup, KernelIs, NoneChanged, Kept, Primary, WindowsEntry, Retitled, Leveled;
    AfterAtTop(entries, g, b);
    var children, after := entries[g + 1..g + 1 + b], Kept(entries[g + 1 + b..]);
  }

  lemma FirstTwo(entries: seq<Entry>, g: nat, b: nat, kernel: Entry)
    requires g + 1 + b <= |entries|
    ensures AsMade(Arranged(entries, g, b, kernel))
  {
    PrimaryComment(kernel);
    PrimaryHeading(kernel);
    hide Around, WindowsEntry, Values, Primary, OMARCHY, START_OMARCHY;
  }

  lemma PrimaryHeading(kernel: Entry)
    ensures Primary(kernel).heading == Heading(1, false, OMARCHY)
  {
  }

  lemma ArrangedShape(entries: seq<Entry>, g: nat, b: nat, kernel: Entry, word: char -> bool)
    requires Accepted(entries, g, b, kernel, word) && Leveled(entries)
    ensures var es, at := Arranged(entries, g, b, kernel), 2 + |Kept(entries[..g])|;
            Shape(es, at, b, word) && KernelIs(es, at, b, kernel)
  {
    hide NoneChanged, IsGroup, Kept, Kernels, HasImage, Retitled, Primary, WindowsEntry, AsMade, TwoManaged, NoneGroup, NoneManaged;
    FirstTwo(entries, g, b, kernel);
    ChildrenOf(entries, g, b, kernel, word);
    RetitledGroup(entries[g], word);
    var before, children, after := entries[..g], entries[g + 1..g + 1 + b], entries[g + 1 + b..];
    SliceNoneGroup(entries, 0, g, g, word);
    SliceNoneGroup(entries, g + 1, g + 1 + b, g, word);
    SliceNoneGroup(entries, g + 1 + b, |entries|, g, word);
    assert entries[0..g] == before && entries[g + 1 + b..|entries|] == after;
    DeepNotManaged(children);
    hide Around;
    AroundShape(kernel, before, entries[g], children, after, word);
  }
}
