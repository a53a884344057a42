// Lines of a boot menu: splitting, joining, trimming, and the two line patterns of the configuration.
module MenuText {
  import opened Bytes

  /** The characters that the pattern \s matches. */
  predicate Space(c: char) {
    var n := c as int;
    || 9 <= n <= 13 || 28 <= n <= 32 || n == 0x85 || n == 0xA0 || n == 0x1680 || 0x2000 <= n <= 0x200A
    || n == 0x2028 || n == 0x2029 || n == 0x202F || n == 0x205F || n == 0x3000
  }

  /** The characters at which splitlines splits. */
  predicate Separator(c: char) {
    var n := c as int;
    10 <= n <= 13 || 28 <= n <= 30 || n == 0x85 || n == 0x2028 || n == 0x2029
  }

  predicate IsLine(s: string) {
    forall i | 0 <= i < |s| :: !Separator(s[i])
  }

  predicate AllLines(ls: seq<string>) {
    forall i | 0 <= i < |ls| :: IsLine(ls[i])
  }

  function LineEnd(s: string, i: nat): (e: nat)
    requires i <= |s|
    ensures i <= e <= |s|
    decreases |s| - i
  {
    if i == |s| || Separator(s[i]) then i else LineEnd(s, i + 1)
  }

  function SplitLines(s: string): seq<string>
    decreases |s|
  {
    if s == "" then []
    else
      var e := LineEnd(s, 0);
      if e == |s| then [s]
      else [s[..e]] + SplitLines(s[if s[e] == '\r' && e + 1 < |s| && s[e + 1] == '\n' then e + 2 else e + 1..])
  }

  function Join(sep: string, parts: seq<string>): string {
    if parts == [] then ""
    else if |parts| == 1 then parts[0]
    else Join(sep, parts[..|parts| - 1]) + sep + parts[|parts| - 1]
  }

  // Splitting undoes joining.

  lemma {:induction false} LineEndAt(s: string, i: nat, e: nat)
    requires i <= e <= |s| && (forall k | i <= k < e :: !Separator(s[k])) && (e < |s| ==> Separator(s[e]))
    ensures LineEnd(s, i) == e
    decreases e - i
  {
    if i < e {
      LineEndAt(s, i + 1, e);
    }
  }

  lemma SplitFirst(line: string, rest: string)
    requires IsLine(line)
    ensures SplitLines(line + "\n" + rest) == [line] + SplitLines(rest)
  {
    var s := line + "\n" + rest;
    LineEndAt(s, 0, |line|);
    assert s[..|line|] == line && s[|line| + 1..] == rest;
  }

  function Unlines(ls: seq<string>): string {
    if ls == [] then "" else ls[0] + "\n" + Unlines(ls[1..])
  }

  lemma {:induction false} SplitUnlines(ls: seq<string>)
    requires AllLines(ls)
    ensures SplitLines(Unlines(ls)) == ls
  {
    if ls != [] {
      SplitFirst(ls[0], Unlines(ls[1..]));
      SplitUnlines(ls[1..]);
    }
  }

  lemma {:induction false} UnlinesAppend(ls: seq<string>, last: string)
    ensures Unlines(ls + [last]) == Unlines(ls) + last + "\n"
  {
    if ls == [] {
      assert Unlines([last]) == last + "\n" + Unlines([]);
    } else {
      UnlinesAppend(ls[1..], last);
      assert (ls + [last])[1..] == ls[1..] + [last];
      assert ls[0] + "\n" + (Unlines(ls[1..]) + last + "\n") == ls[0] + "\n" + Unlines(ls[1..]) + last + "\n";
    }
  }

  lemma {:induction false} JoinIsUnlines(ls: seq<string>)
    requires ls != []
    ensures Join("\n", ls) + "\n" == Unlines(ls)
  {
    if |ls| == 1 {
      assert Unlines(ls) == ls[0] + "\n" + Unlines([]);
    } else {
      var n := |ls| - 1;
      JoinIsUnlines(ls[..n]);
      UnlinesAppend(ls[..n], ls[n]);
      assert ls == ls[..n] + [ls[n]];
    }
  }

  lemma SplitJoin(ls: seq<string>)
    requires ls != [] && AllLines(ls)
    ensures SplitLines(Join("\n", ls) + "\n") == ls
  {
    JoinIsUnlines(ls);
    SplitUnlines(ls);
  }

  // Blocks of lines, with one empty line between them.

  function Glue(blocks: seq<seq<string>>): seq<string> {
    if blocks == [] then []
    else if |blocks| == 1 then blocks[0]
    else Glue(blocks[..|blocks| - 1]) + [""] + blocks[|blocks| - 1]
  }

  function Joined(blocks: seq<seq<string>>): (parts: seq<string>)
    ensures |parts| == |blocks|
  {
    seq(|blocks|, i requires 0 <= i < |blocks| => Join("\n", blocks[i]))
  }

  lemma {:induction false} JoinAppend(a: seq<string>, b: seq<string>)
    requires a != [] && b != []
    ensures Join("\n", a + b) == Join("\n", a) + "\n" + Join("\n", b)
    decreases |b|
  {
    var n := |b| - 1;
    assert (a + b)[..|a + b| - 1] == a + b[..n];
    if n > 0 {
      JoinAppend(a, b[..n]);
      assert Join("\n", a) + "\n" + (Join("\n", b[..n]) + "\n" + b[n])
          == Join("\n", a) + "\n" + Join("\n", b[..n]) + "\n" + b[n];
    } else {
      assert a + b[..n] == a;
    }
  }

  lemma {:induction false} GlueJoins(blocks: seq<seq<string>>)
    requires blocks != [] && forall i | 0 <= i < |blocks| :: blocks[i] != []
    ensures Glue(blocks) != [] && Join("\n", Glue(blocks)) == Join("\n\n", Joined(blocks))
  {
    if |blocks| > 1 {
      var n := |blocks| - 1;
      GlueJoins(blocks[..n]);
      assert Joined(blocks)[..n] == Joined(blocks[..n]);
      var g := Glue(blocks[..n]);
      JoinAppend(g, [""]);
      JoinAppend(g + [""], blocks[n]);
      assert Join("\n", g) + "\n" + "" + "\n" == Join("\n", g) + "\n\n";
    }
  }

  // Trimming.

  function DropLeft(s: string): string {
    if s != "" && s[0] == '\n' then DropLeft(s[1..]) else s
  }

  function DropRight(s: string): string {
    if s != "" && s[|s| - 1] == '\n' then DropRight(s[..|s| - 1]) else s
  }

  /** strip of newlines only. */
  function StripNewlines(s: string): string {
    DropRight(DropLeft(s))
  }

  function TrimLeft(ls: seq<string>): seq<string> {
    if ls != [] && ls[0] == "" then TrimLeft(ls[1..]) else ls
  }

  function TrimRight(ls: seq<string>): seq<string> {
    if ls != [] && ls[|ls| - 1] == "" then TrimRight(ls[..|ls| - 1]) else ls
  }

  function Trim(ls: seq<string>): seq<string> {
    TrimRight(TrimLeft(ls))
  }

  lemma {:induction false} DropLeftJoin(ls: seq<string>)
    requires AllLines(ls)
    ensures DropLeft(Join("\n", ls)) == Join("\n", TrimLeft(ls))
  {
    if |ls| == 1 {
      assert ls[0] != "" ==> Separator('\n') && !Separator(ls[0][0]);
    } else if |ls| > 1 {
      JoinAppend(ls[..1], ls[1..]);
      assert ls == ls[..1] + ls[1..];
      var s := Join("\n", ls);
      assert s == ls[0] + "\n" + Join("\n", ls[1..]);
      if ls[0] == "" {
        assert s[1..] == Join("\n", ls[1..]);
        DropLeftJoin(ls[1..]);
      } else {
        assert s[0] == ls[0][0] && !Separator(ls[0][0]) && Separator('\n');
      }
    }
  }

  lemma {:induction false} DropRightJoin(ls: seq<string>)
    requires AllLines(ls)
    ensures DropRight(Join("\n", ls)) == Join("\n", TrimRight(ls))
  {
    if ls != [] {
      var n := |ls| - 1;
      var s, last := Join("\n", ls), ls[n];
      if last != "" {
        assert s[|s| - 1] == last[|last| - 1] && !Separator(last[|last| - 1]) && Separator('\n');
      } else if n > 0 {
        assert s[..|s| - 1] == Join("\n", ls[..n]);
        DropRightJoin(ls[..n]);
      }
    }
  }

  lemma {:induction false} TrimLeftLines(ls: seq<string>)
    requires AllLines(ls)
    ensures AllLines(TrimLeft(ls))
  {
    if ls != [] && ls[0] == "" {
      TrimLeftLines(ls[1..]);
    }
  }

  lemma {:induction false} TrimRightLines(ls: seq<string>)
    requires AllLines(ls)
    ensures AllLines(TrimRight(ls))
  {
    if ls != [] && ls[|ls| - 1] == "" {
      TrimRightLines(ls[..|ls| - 1]);
    }
  }

  /** Stripping a joined text trims its lines. */
  lemma StripJoin(ls: seq<string>)
    requires AllLines(ls)
    ensures StripNewlines(Join("\n", ls)) == Join("\n", Trim(ls)) && AllLines(Trim(ls))
  {
    DropLeftJoin(ls);
    TrimLeftLines(ls);
    DropRightJoin(TrimLeft(ls));
    TrimRightLines(TrimLeft(ls));
  }
}
