// Rebinding the kernel group of a boot menu to another machine identity.
module MenuRebind {
  import opened Bytes
  import opened MenuText
  import opened MenuLines
  import opened BootMenu

  // Lines with their ends.

  function KeepLines(s: string): seq<string>
    decreases |s|
  {
    if s == "" then []
    else
      var e := LineEnd(s, 0);
      if e == |s| then [s]
      else
        var n := if s[e] == '\r' && e + 1 < |s| && s[e + 1] == '\n' then e + 2 else e + 1;
        [s[..n]] + KeepLines(s[n..])
  }

  function Concat(ls: seq<string>): string {
    if ls == [] then "" else ls[0] + Concat(ls[1..])
  }

  /** Splitting with the line ends loses nothing. */
  lemma {:induction false} ConcatKeepLines(s: string)
    ensures Concat(KeepLines(s)) == s
    decreases |s|
  {
    hide LineEnd, Concat;
    if s == "" {
      ConcatNothing();
    } else {
      var e := LineEnd(s, 0);
      if e < |s| {
        var n := if s[e] == '\r' && e + 1 < |s| && s[e + 1] == '\n' then e + 2 else e + 1;
        ConcatKeepLines(s[n..]);
        ConcatCons(s[..n], KeepLines(s[n..]));
        assert s == s[..n] + s[n..];
      } else {
        ConcatCons(s, []);
        ConcatNothing();
        assert [s] + [] == [s] && s + "" == s;
      }
    }
  }

  lemma ConcatNothing()
    ensures Concat([]) == ""
  {
  }

  lemma ConcatCons(l: string, ls: seq<string>)
    ensures Concat([l] + ls) == l + Concat(ls)
  {
    assert ([l] + ls)[1..] == ls;
  }

  // The patterns.

  predicate AllSpace(s: string) {
    forall i | 0 <= i < |s| :: Space(s[i])
  }

  /** The managed group's heading, as \s*\/\+?Advanced Omarchy options\s* finds it. */
  predicate IsRootLine(line: string) {
    var a := SkipSpace(line, 0);
    && a < |line| && line[a] == '/'
    && var rest := if a + 1 < |line| && line[a + 1] == '+' then line[a + 2..] else line[a + 1..];
       |ADVANCED| <= |rest| && rest[..|ADVANCED|] == ADVANCED && AllSpace(rest[|ADVANCED|..])
  }

  /** Any line that begins with a slash. */
  predicate EndsGroup(line: string) {
    var a := SkipSpace(line, 0);
    a < |line| && line[a] == '/'
  }

  predicate IsComment(line: string) {
    OptionOf(line).Some? && OptionOf(line).value.key == "comment"
  }

  predicate MachineId(m: string) {
    |m| == 32 && forall i | 0 <= i < 32 :: '0' <= m[i] <= '9' || 'a' <= m[i] <= 'f'
  }

  /** The first machine identity at or after i. */
  function FindMachine(line: string, i: nat, word: char -> bool): (r: Option<nat>)
    requires i <= |line|
    ensures r.Some? ==> i <= r.value && MachineAt(line, r.value, word)
    decreases |line| - i
  {
    if i == |line| then None
    else if MachineAt(line, i, word) then Some(i)
    else FindMachine(line, i + 1, word)
  }

  /** Every machine identity from i on replaced, and how many. */
  function Replaced(line: string, i: nat, m: string, word: char -> bool): (string, nat)
    requires i <= |line|
    decreases |line| - i
  {
    match FindMachine(line, i, word)
    case None => (line[i..], 0)
    case Some(p) =>
      var rest := Replaced(line, p + 43, m, word);
      (line[i..p] + MACHINE_KEY + m + rest.0, rest.1 + 1)
  }

  function ReplacedLine(line: string, m: string, word: char -> bool): (string, nat) {
    if IsComment(line) then Replaced(line, 0, m, word) else (line, 0)
  }

  function RootsFrom(lines: seq<string>, i: nat): seq<nat>
    requires i <= |lines|
    decreases |lines| - i
  {
    if i == |lines| then [] else (if IsRootLine(lines[i]) then [i] else []) + RootsFrom(lines, i + 1)
  }

  function RangeEnd(lines: seq<string>, i: nat): (e: nat)
    requires i <= |lines|
    ensures i <= e <= |lines|
    decreases |lines| - i
  {
    if i == |lines| || EndsGroup(lines[i]) then i else RangeEnd(lines, i + 1)
  }

  function ReplacedRange(lines: seq<string>, m: string, word: char -> bool): (seq<string>, nat) {
    if lines == [] then ([], 0)
    else
      var first, rest := ReplacedLine(lines[0], m, word), ReplacedRange(lines[1..], m, word);
      ([first.0] + rest.0, first.1 + rest.1)
  }

  predicate IsResetTemplate(text: string, template: Option<string>) {
    && template == Some(text) && !AllSpace(text) && Supported(text)
    && forall i | 0 <= i < |SplitLines(text)| :: !EndsGroup(SplitLines(text)[i])
  }

  function Rebind(text: string, m: string, template: Option<string>, word: char -> bool): Result<string> {
    if !MachineId(m) then Err("machine")
    else
      var lines := KeepLines(text);
      var roots := RootsFrom(lines, 0);
      if roots == [] && IsResetTemplate(text, template) then Ok(text)
      else if |roots| != 1 then Err("group")
      else
        RootsInside(lines, 0);
        var start := roots[0] + 1;
        var end := RangeEnd(lines, start);
        var r := ReplacedRange(lines[start..end], m, word);
        if r.1 != 1 then Err("ambiguous") else Ok(Concat(lines[..start] + r.0 + lines[end..]))
  }

  lemma {:induction false} RootsInside(lines: seq<string>, i: nat)
    requires i <= |lines|
    ensures forall k | 0 <= k < |RootsFrom(lines, i)| :: RootsFrom(lines, i)[k] < |lines|
    decreases |lines| - i
  {
    hide IsRootLine;
    if i < |lines| {
      RootsInside(lines, i + 1);
    }
  }

  lemma {:induction false} ReplacedRangeNext(lines: seq<string>, line: string, m: string, word: char -> bool)
    ensures ReplacedRange(lines + [line], m, word).0 == ReplacedRange(lines, m, word).0 + [ReplacedLine(line, m, word).0]
    ensures ReplacedRange(lines + [line], m, word).1 == ReplacedRange(lines, m, word).1 + ReplacedLine(line, m, word).1
  {
    hide ReplacedLine;
    var all, last := lines + [line], [ReplacedLine(line, m, word).0];
    if lines == [] {
      assert all == [line] && all[1..] == [];
      assert last + [] == last && [] + last == last;
    } else {
      assert all[0] == lines[0] && all[1..] == lines[1..] + [line];
      ReplacedRangeNext(lines[1..], line, m, word);
      var first, rest := [ReplacedLine(lines[0], m, word).0], ReplacedRange(lines[1..], m, word).0;
      assert first + (rest + last) == first + rest + last;
    }
  }

  method FindRoots(lines: seq<string>) returns (roots: seq<nat>)
    ensures roots == RootsFrom(lines, 0)
  {
    hide IsRootLine;
    roots := [];
    for i := 0 to |lines|
      invariant roots + RootsFrom(lines, i) == RootsFrom(lines, 0)
    {
      if IsRootLine(lines[i]) {
        roots := roots + [i];
      }
    }
  }

  method FindEnd(lines: seq<string>, start: nat) returns (end: nat)
    requires start <= |lines|
    ensures end == RangeEnd(lines, start)
  {
    hide EndsGroup;
    end := start;
    while end < |lines| && !EndsGroup(lines[end])
      invariant start <= end <= |lines| && RangeEnd(lines, end) == RangeEnd(lines, start)
    {
      end := end + 1;
    }
    assert RangeEnd(lines, end) == end;
  }

  method RebindMachine(text: string, m: string, template: Option<string>, word: char -> bool) returns (r: Result<string>)
    ensures r == Rebind(text, m, template, word)
  {
    hide MachineId, IsResetTemplate, RootsFrom, RangeEnd, KeepLines, ReplacedLine, Concat;
    if !MachineId(m) {
      return Err("machine");
    }
    var lines := KeepLines(text);
    var roots := FindRoots(lines);
    if roots == [] && IsResetTemplate(text, template) {
      return Ok(text);
    }
    if |roots| != 1 {
      return Err("group");
    }
    RootsInside(lines, 0);
    var start := roots[0] + 1;
    var end := FindEnd(lines, start);
    var now, count := lines, 0;
    assert lines[..start] + [] + lines[start..] == lines && lines[start..start] == [];
    for i := start to end
      invariant |now| == |lines|
      invariant now == lines[..start] + ReplacedRange(lines[start..i], m, word).0 + lines[i..]
      invariant |ReplacedRange(lines[start..i], m, word).0| == i - start
      invariant count == ReplacedRange(lines[start..i], m, word).1
    {
      ReplacedRangeNext(lines[start..i], lines[i], m, word);
      assert lines[start..i + 1] == lines[start..i] + [lines[i]];
      var changed := ReplacedLine(lines[i], m, word);
      assert now[i] == lines[i];
      now := now[i := changed.0];
      count := count + changed.1;
    }
    return if count != 1 then Err("ambiguous") else Ok(Concat(now));
  }

}
