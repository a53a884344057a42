// When a menu can be rebound to a machine, and to what, told from its lines.
module RebindExact {
  import opened Bytes
  import opened MenuText
  import opened MenuLines
  import opened BootMenu
  import opened MenuRebind
  import opened MenuIdentity
  import opened MenuRebound

  // One line.

  predicate NoMachine(line: string, word: char -> bool) {
    forall k | 0 <= k < |line| :: !MachineAt(line, k, word)
  }

  /** The only identity of the line stands at p. */
  predicate OneMachine(line: string, p: nat, word: char -> bool) {
    p < |line| && MachineAt(line, p, word) && forall k | 0 <= k < |line| && k != p :: !MachineAt(line, k, word)
  }

  lemma CountNone(line: string, m: string, word: char -> bool)
    ensures Replaced(line, 0, m, word).1 == 0 <==> NoMachine(line, word)
  {
    hide MachineAt, MACHINE_KEY;
    if FindMachine(line, 0, word).None? {
      forall k | 0 <= k < |line|
        ensures !MachineAt(line, k, word)
      {
        NoneBefore(line, 0, k, word);
      }
    } else {
      FoundInside(line, 0, word);
    }
  }

  lemma FoundInside(line: string, i: nat, word: char -> bool)
    requires i <= |line| && FindMachine(line, i, word).Some?
    ensures var p := FindMachine(line, i, word).value; i <= p && p + 43 <= |line| && MachineAt(line, p, word)
  {
    MachineChars(line, FindMachine(line, i, word).value, word);
  }

  lemma CountIs(line: string, m: string, p: nat, word: char -> bool)
    requires FindMachine(line, 0, word) == Some(p) && p + 43 <= |line|
    ensures Replaced(line, 0, m, word).1 == 1 <==> FindMachine(line, p + 43, word).None?
  {
    hide FindMachine, MACHINE_KEY;
  }

  /** One identity is replaced exactly if there is one. */
  lemma CountOne(line: string, m: string, word: char -> bool)
    ensures Replaced(line, 0, m, word).1 == 1 <==> exists p: nat :: OneMachine(line, p, word)
  {
    hide MachineAt, Replaced, FindMachine;
    CountNone(line, m, word);
    if FindMachine(line, 0, word).Some? {
      var p := FindMachine(line, 0, word).value;
      FoundInside(line, 0, word);
      CountIs(line, m, p, word);
      NotInside(line, p, word);
      if FindMachine(line, p + 43, word).None? {
        forall k | 0 <= k < |line| && k != p
          ensures !MachineAt(line, k, word)
        {
          if k < p {
            NoneBefore(line, 0, k, word);
          } else if k >= p + 43 {
            NoneBefore(line, p + 43, k, word);
          }
        }
        assert OneMachine(line, p, word);
      } else {
        FoundInside(line, p + 43, word);
      }
    } else {
      NothingFound(line, m, word);
    }
  }

  lemma NothingFound(line: string, m: string, word: char -> bool)
    requires FindMachine(line, 0, word).None?
    ensures Replaced(line, 0, m, word).1 == 0
  {
  }

  /** No identity begins inside another one. */
  lemma NotInside(line: string, p: nat, word: char -> bool)
    requires MachineAt(line, p, word)
    ensures forall k | p < k < p + 43 && k < |line| :: !MachineAt(line, k, word)
  {
    MachineChars(line, p, word);
    forall k | p < k < p + 43 && k < |line|
      ensures !MachineAt(line, k, word)
    {
      AfterStart(line, k, p, word);
    }
  }

  // The lines of the group.

  /** Line j is a comment that names a machine at p. */
  predicate NamesAt(lines: seq<string>, j: int, p: int, word: char -> bool) {
    && 0 <= j < |lines| && 0 <= p < |lines[j]|
    && OptionOf(lines[j]).Some? && OptionOf(lines[j]).value.key == "comment" && MachineAt(lines[j], p, word)
  }

  lemma LineCounts(lines: seq<string>, j: nat, m: string, word: char -> bool)
    requires j < |lines|
    ensures ReplacedLine(lines[j], m, word).1 == 0 <==> forall p :: !NamesAt(lines, j, p, word)
    ensures ReplacedLine(lines[j], m, word).1 == 1 <==>
            exists p :: NamesAt(lines, j, p, word) && forall q | NamesAt(lines, j, q, word) :: q == p
  {
    hide MachineAt, Replaced, OptionOf;
    CountNone(lines[j], m, word);
    CountOne(lines[j], m, word);
    if IsComment(lines[j]) {
      forall p: nat
        ensures NamesAt(lines, j, p, word) <==> p < |lines[j]| && MachineAt(lines[j], p, word)
      {
      }
      hide NamesAt;
      if p: nat :| OneMachine(lines[j], p, word) {
        assert NamesAt(lines, j, p, word);
      }
      if p :| NamesAt(lines, j, p, word) && forall q | NamesAt(lines, j, q, word) :: q == p {
        NamesPlace(lines, j, p, word);
        assert OneMachine(lines[j], p, word);
      }
    }
  }

  lemma NamesPlace(lines: seq<string>, j: int, p: int, word: char -> bool)
    requires NamesAt(lines, j, p, word)
    ensures 0 <= j < |lines| && 0 <= p < |lines[j]| && MachineAt(lines[j], p, word)
  {
  }

  lemma {:induction false} RangeOne(lines: seq<string>, m: string, word: char -> bool, j: nat)
    requires j < |lines| && ReplacedLine(lines[j], m, word).1 == 1
    requires forall k | 0 <= k < |lines| && k != j :: ReplacedLine(lines[k], m, word).1 == 0
    ensures ReplacedRange(lines, m, word).1 == 1
    decreases j
  {
    hide ReplacedLine;
    var rest := lines[1..];
    assert forall k | 0 <= k < |rest| :: rest[k] == lines[k + 1];
    if j == 0 {
      RangeNone(rest, m, word);
    } else {
      RangeOne(rest, m, word, j - 1);
    }
  }

  lemma {:induction false} RangeNone(lines: seq<string>, m: string, word: char -> bool)
    requires forall k | 0 <= k < |lines| :: ReplacedLine(lines[k], m, word).1 == 0
    ensures ReplacedRange(lines, m, word).1 == 0
  {
    hide ReplacedLine;
    if lines != [] {
      assert forall k | 0 <= k < |lines[1..]| :: lines[1..][k] == lines[k + 1];
      RangeNone(lines[1..], m, word);
    }
  }

  /** The only identity in a comment of these lines is that of line j at p. */
  ghost predicate OneIn(lines: seq<string>, j: int, p: int, word: char -> bool) {
    NamesAt(lines, j, p, word) && forall k, q | NamesAt(lines, k, q, word) :: k == j && q == p
  }

  lemma RangeExact(lines: seq<string>, m: string, word: char -> bool)
    requires WordLike(word) && HexDigits(m)
    ensures ReplacedRange(lines, m, word).1 == 1 <==> exists j, p :: OneIn(lines, j, p, word)
  {
    hide NamesAt, ReplacedLine, ReplacedRange, WordLike, HexDigits;
    forall k | 0 <= k < |lines|
      ensures ReplacedLine(lines[k], m, word).1 == 0 <==> forall p :: !NamesAt(lines, k, p, word)
      ensures ReplacedLine(lines[k], m, word).1 == 1 <==>
              exists p :: NamesAt(lines, k, p, word) && forall q | NamesAt(lines, k, q, word) :: q == p
    {
      LineCounts(lines, k, m, word);
    }
    if ReplacedRange(lines, m, word).1 == 1 {
      var j := OneInRange(lines, m, word);
      CountsElsewhere(lines, m, word, j);
      var p :| NamesAt(lines, j, p, word) && forall q | NamesAt(lines, j, q, word) :: q == p;
      forall k, q | NamesAt(lines, k, q, word)
        ensures k == j && q == p
      {
        NamesPlace(lines, k, q, word);
      }
      assert OneIn(lines, j, p, word);
    }
    if j, p :| OneIn(lines, j, p, word) {
      NamesPlace(lines, j, p, word);
      RangeOne(lines, m, word, j);
    }
  }

  lemma CountsElsewhere(lines: seq<string>, m: string, word: char -> bool, j: nat)
    requires OnlyAt(lines, m, word, j)
    ensures forall k | 0 <= k < |lines| && k != j :: ReplacedLine(lines[k], m, word).1 == 0
  {
    hide ReplacedLine;
    forall k | 0 <= k < |lines| && k != j
      ensures ReplacedLine(lines[k], m, word).1 == 0
    {
      assert Untouched(lines, m, word, k);
    }
  }

  // The whole menu.

  /** The only heading of a managed group. */
  predicate OnlyRootAt(lines: seq<string>, start: int) {
    0 <= start < |lines| && IsRootLine(lines[start]) && forall k | 0 <= k < |lines| && k != start :: !IsRootLine(lines[k])
  }

  /** Behind the heading and before the next line that begins with a slash. */
  predicate Within(lines: seq<string>, start: int, j: int) {
    0 <= start < j < |lines| && forall k | start < k <= j :: !EndsGroup(lines[k])
  }

  /** The one managed group names a machine in one comment at one place: in line j at p. */
  ghost predicate Names(lines: seq<string>, start: int, j: int, p: int, word: char -> bool) {
    && OnlyRootAt(lines, start) && InGroup(lines, start, j, p, word)
    && forall k, q | InGroup(lines, start, k, q, word) :: k == j && q == p
  }

  predicate InGroup(lines: seq<string>, start: int, j: int, p: int, word: char -> bool) {
    Within(lines, start, j) && NamesAt(lines, j, p, word)
  }

  lemma {:induction false} RootsExact(lines: seq<string>, i: nat)
    requires i <= |lines|
    ensures forall k: nat :: k in RootsFrom(lines, i) <==> i <= k < |lines| && IsRootLine(lines[k])
    decreases |lines| - i
  {
    hide IsRootLine;
    if i < |lines| {
      RootsExact(lines, i + 1);
    }
  }

  lemma OneRoot(lines: seq<string>, start: nat)
    ensures RootsFrom(lines, 0) == [start] <==> OnlyRootAt(lines, start)
  {
    hide IsRootLine, RootsFrom;
    RootsExact(lines, 0);
    if OnlyRootAt(lines, start) {
      RootsOnce(lines, 0, start);
    }
    if RootsFrom(lines, 0) == [start] {
      assert start in RootsFrom(lines, 0);
      forall k: nat | k < |lines| && k != start
        ensures !IsRootLine(lines[k])
      {
        assert k !in RootsFrom(lines, 0);
      }
    }
  }

  lemma {:induction false} NoRootsFrom(lines: seq<string>, i: nat)
    requires i <= |lines| && forall k | i <= k < |lines| :: !IsRootLine(lines[k])
    ensures RootsFrom(lines, i) == []
    decreases |lines| - i
  {
    hide IsRootLine;
    if i < |lines| {
      NoRootsFrom(lines, i + 1);
    }
  }

  lemma {:induction false} RootsOnce(lines: seq<string>, i: nat, start: nat)
    requires i <= start < |lines| && IsRootLine(lines[start])
    requires forall k | i <= k < |lines| && k != start :: !IsRootLine(lines[k])
    ensures RootsFrom(lines, i) == [start]
    decreases start - i
  {
    hide IsRootLine;
    if i < start {
      RootsOnce(lines, i + 1, start);
    } else {
      NoRootsFrom(lines, i + 1);
    }
  }

  lemma {:induction false} EndExact(lines: seq<string>, i: nat, j: nat)
    requires i <= j < |lines|
    ensures j < RangeEnd(lines, i) <==> forall k | i <= k <= j :: !EndsGroup(lines[k])
    decreases j - i
  {
    hide EndsGroup;
    if !EndsGroup(lines[i]) && i < j {
      EndExact(lines, i + 1, j);
    } else if i == j && !EndsGroup(lines[i]) {
      assert RangeEnd(lines, i) == RangeEnd(lines, i + 1) >= i + 1;
    }
  }

  lemma Inside(lines: seq<string>, start: nat, j: int)
    requires start < |lines|
    ensures Within(lines, start, j) <==> start < j < RangeEnd(lines, start + 1)
  {
    hide EndsGroup, RangeEnd;
    if start < j < |lines| {
      EndExact(lines, start + 1, j);
    }
  }

  /** An identity in the group's lines is one in the whole menu, and the other way round. */
  lemma SameNames(lines: seq<string>, start: nat, j: int, p: int, word: char -> bool)
    requires start < |lines|
    ensures InGroup(lines, start, j, p, word) <==>
            NamesAt(lines[start + 1..RangeEnd(lines, start + 1)], j - start - 1, p, word)
  {
    Inside(lines, start, j);
    hide MachineAt, OptionOf, RangeEnd, Within;
    var end := RangeEnd(lines, start + 1);
    assert start < j < end ==> lines[start + 1..end][j - start - 1] == lines[j];
  }

  lemma OneInGroup(lines: seq<string>, start: nat, j: int, p: int, word: char -> bool)
    requires OnlyRootAt(lines, start)
    ensures start < |lines|
    ensures Names(lines, start, j, p, word) <==>
            OneIn(lines[start + 1..RangeEnd(lines, start + 1)], j - start - 1, p, word)
  {
    RootInside(lines, start);
    hide NamesAt, InGroup, OnlyRootAt, RangeEnd, IsRootLine;
    var range := lines[start + 1..RangeEnd(lines, start + 1)];
    SameNames(lines, start, j, p, word);
    if Names(lines, start, j, p, word) {
      forall k, q | NamesAt(range, k, q, word)
        ensures k == j - start - 1 && q == p
      {
        SameNames(lines, start, k + start + 1, q, word);
        assert k + start + 1 - start - 1 == k;
      }
    }
    if OneIn(range, j - start - 1, p, word) {
      forall k, q | InGroup(lines, start, k, q, word)
        ensures k == j && q == p
      {
        SameNames(lines, start, k, q, word);
      }
    }
  }

  lemma RootInside(lines: seq<string>, start: int)
    requires OnlyRootAt(lines, start)
    ensures 0 <= start < |lines|
  {
  }

  lemma GroupRange(lines: seq<string>, start: nat, m: string, word: char -> bool)
    requires OnlyRootAt(lines, start) && WordLike(word) && HexDigits(m)
    ensures start + 1 <= RangeEnd(lines, start + 1) <= |lines|
    ensures ReplacedRange(lines[start + 1..RangeEnd(lines, start + 1)], m, word).1 == 1 <==>
            exists j, p :: Names(lines, start, j, p, word)
  {
    RootInside(lines, start);
    hide OnlyRootAt, WordLike, HexDigits, ReplacedRange, RangeEnd, OneIn, Names;
    var range := lines[start + 1..RangeEnd(lines, start + 1)];
    RangeExact(range, m, word);
    if j, p :| OneIn(range, j, p, word) {
      OneInGroup(lines, start, j + start + 1, p, word);
      assert j + start + 1 - start - 1 == j;
    }
    if j, p :| Names(lines, start, j, p, word) {
      OneInGroup(lines, start, j, p, word);
    }
  }

  /** No line is the heading of a managed group. */
  predicate NoRoot(lines: seq<string>) {
    forall k | 0 <= k < |lines| :: !IsRootLine(lines[k])
  }

  lemma RootsNone(lines: seq<string>)
    ensures RootsFrom(lines, 0) == [] <==> NoRoot(lines)
  {
    hide IsRootLine, RootsFrom;
    if NoRoot(lines) {
      NoRootsFrom(lines, 0);
    } else {
      RootsExact(lines, 0);
      var k: nat :| k < |lines| && IsRootLine(lines[k]);
      assert k in RootsFrom(lines, 0);
    }
  }

  lemma IdIsHex(m: string)
    requires MachineId(m)
    ensures HexDigits(m)
  {
  }

  /** Some group of the menu is the only one and names one machine. */
  ghost predicate NamesOne(lines: seq<string>, word: char -> bool) {
    exists start: nat, j, p :: Names(lines, start, j, p, word)
  }

  lemma NamedUnder(lines: seq<string>, start: nat, word: char -> bool)
    requires OnlyRootAt(lines, start)
    ensures NamesOne(lines, word) <==> exists j, p :: Names(lines, start, j, p, word)
  {
    hide Names, IsRootLine;
    if other: nat, j, p :| Names(lines, other, j, p, word) {
      NamesRoot(lines, other, j, p, word);
      assert other == start;
    }
  }

  lemma NamedNowhere(lines: seq<string>, word: char -> bool)
    requires |RootsFrom(lines, 0)| != 1
    ensures !NamesOne(lines, word)
  {
    hide Names, OnlyRootAt, RootsFrom;
    forall start: nat, j, p
      ensures !Names(lines, start, j, p, word)
    {
      OneRoot(lines, start);
      if Names(lines, start, j, p, word) {
        NamesRoot(lines, start, j, p, word);
      }
    }
  }

  /**
   * A menu can be rebound exactly to 32 digits, and if it has one managed group that names one machine in one
   * comment, or none and is the template that a reset leaves.
   */
  lemma RebindsExactly(text: string, m: string, template: Option<string>, word: char -> bool)
    requires WordLike(word)
    ensures Rebind(text, m, template, word).Ok? <==>
            && MachineId(m)
            && ((NoRoot(KeepLines(text)) && IsResetTemplate(text, template)) || NamesOne(KeepLines(text), word))
  {
    hide WordLike, MachineId, IsResetTemplate, KeepLines, RootsFrom, RangeEnd, ReplacedRange, NamesOne, Names, NoRoot,
         OnlyRootAt, HexDigits, Concat;
    var lines := KeepLines(text);
    RootsNone(lines);
    if MachineId(m) {
      IdIsHex(m);
      if |RootsFrom(lines, 0)| == 1 {
        var start := RootsFrom(lines, 0)[0];
        assert RootsFrom(lines, 0) == [start];
        OneRoot(lines, start);
        GroupRange(lines, start, m, word);
        NamedUnder(lines, start, word);
      } else {
        NamedNowhere(lines, word);
      }
    }
  }

  lemma NamesRoot(lines: seq<string>, start: int, j: int, p: int, word: char -> bool)
    requires Names(lines, start, j, p, word)
    ensures OnlyRootAt(lines, start) && 0 <= j < |lines| && 0 <= p < |lines[j]| && MachineAt(lines[j], p, word)
  {
  }

  lemma UpdateBetween<T>(s: seq<T>, lo: nat, hi: nat, i: nat, x: T)
    requires lo <= lo + i < hi <= |s|
    ensures s[..lo] + s[lo..hi][i := x] + s[hi..] == s[lo + i := x]
  {
    var a, b := s[..lo] + s[lo..hi][i := x] + s[hi..], s[lo + i := x];
    assert |a| == |b|;
    forall k | 0 <= k < |b|
      ensures a[k] == b[k]
    {
    }
  }

  lemma OneReplaced(line: string, m: string, word: char -> bool) returns (q: nat)
    requires WordLike(word) && HexDigits(m) && ReplacedLine(line, m, word).1 == 1
    ensures IsComment(line) && q + 43 <= |line| && |m| == 32 && MachineAt(line, q, word)
    ensures ReplacedLine(line, m, word).0 == Spliced(line, q, m)
  {
    q := OneIdentity(line, m, word);
  }

  /** Lines with one identity, and what replacing makes of them. */
  lemma OnlyReplaced(lines: seq<string>, m: string, word: char -> bool) returns (i: nat, q: nat)
    requires WordLike(word) && HexDigits(m) && ReplacedRange(lines, m, word).1 == 1
    ensures i < |lines| && q + 43 <= |lines[i]| && |m| == 32 && NamesAt(lines, i, q, word)
    ensures ReplacedRange(lines, m, word).0 == lines[i := Spliced(lines[i], q, m)]
  {
    hide WordLike, HexDigits, ReplacedRange, ReplacedLine, Spliced, MachineAt, OptionOf, OnlyAt;
    i := OneInRange(lines, m, word);
    q := OneReplaced(lines[i], m, word);
  }

  /** The identity that the group's lines have is the one that is told of. */
  lemma OnlyThat(lines: seq<string>, start: nat, j: int, p: int, i: nat, q: nat, word: char -> bool)
    requires start < |lines| && Names(lines, start, j, p, word)
    requires NamesAt(lines[start + 1..RangeEnd(lines, start + 1)], i, q, word)
    ensures j == i + start + 1 && q == p && j < |lines|
  {
    hide NamesAt, OnlyRootAt, RangeEnd;
    assert i + start + 1 - start - 1 == i;
    SameNames(lines, start, i + start + 1, q, word);
    NamesRoot(lines, start, j, p, word);
  }

  /** The range with the one identity replaced. */
  lemma RangeRebound(lines: seq<string>, start: nat, j: int, p: int, m: string, word: char -> bool)
    requires WordLike(word) && HexDigits(m) && Names(lines, start, j, p, word) && start < |lines|
    ensures 0 <= j < |lines| && 0 <= p && p + 43 <= |lines[j]| && |m| == 32
    ensures var end := RangeEnd(lines, start + 1);
            var r := ReplacedRange(lines[start + 1..end], m, word);
            r.1 == 1 && lines[..start + 1] + r.0 + lines[end..] == lines[j := Spliced(lines[j], p, m)]
  {
    hide WordLike, HexDigits, RangeEnd, ReplacedRange, NamesAt, Spliced, OnlyRootAt, Names, MachineAt;
    NamesRoot(lines, start, j, p, word);
    GroupRange(lines, start, m, word);
    var end := RangeEnd(lines, start + 1);
    var range := lines[start + 1..end];
    var i, q := OnlyReplaced(range, m, word);
    OnlyThat(lines, start, j, p, i, q, word);
    assert range[i] == lines[j];
    UpdateBetween(lines, start + 1, end, i, Spliced(lines[j], p, m));
  }

  /** What rebinding does: it replaces the 32 digits of that one identity, or leaves the template as it is. */
  lemma Rebound(text: string, m: string, template: Option<string>, start: nat, j: int, p: int, word: char -> bool)
    requires WordLike(word) && Rebind(text, m, template, word).Ok?
    ensures NoRoot(KeepLines(text)) ==> Rebind(text, m, template, word) == Ok(text)
    ensures var lines := KeepLines(text);
            Names(lines, start, j, p, word) ==>
              && 0 <= j < |lines| && 0 <= p && p + 43 <= |lines[j]|
              && Rebind(text, m, template, word)
                 == Ok(Concat(lines[j := lines[j][..p + 11] + m + lines[j][p + 43..]]))
  {
    hide WordLike, MachineId, IsResetTemplate, KeepLines, RootsFrom, RangeEnd, ReplacedRange, Names, NoRoot, OnlyRootAt,
         HexDigits, Concat;
    var lines := KeepLines(text);
    RootsNone(lines);
    IdIsHex(m);
    if Names(lines, start, j, p, word) {
      NamesRoot(lines, start, j, p, word);
      OneRoot(lines, start);
      RootInside(lines, start);
      RangeRebound(lines, start, j, p, m, word);
    }
  }
}
