// Binding a fixed point of the rewriter to another machine gives another fixed point.
module MenuMachine {
  import opened Bytes
  import opened MenuText
  import opened MenuLines
  import opened BootMenu
  import opened MenuRoundTrip
  import opened MenuArrange
  import opened MenuConfluence
  import opened MenuTheorems
  import opened MenuRebind
  import opened MenuIdentity
  import opened MenuRebound

  /** The group's line and range, and its one line with an identity. */
  predicate Located(lines: seq<string>, g: nat, end: nat, j: nat, m: string, word: char -> bool) {
    && g < |lines| && RootsFrom(lines, 0) == [g] && RangeEnd(lines, g + 1) == end
    && g + 1 <= j < end <= |lines|
    && ReplacedLine(lines[j], m, word).1 == 1
    && forall k | g + 1 <= k < end && k != j :: Untouched(lines, m, word, k)
  }

  lemma RebindIs(y: string, lines: seq<string>, g: nat, m: string, template: Option<string>, word: char -> bool)
    returns (end: nat, j: nat)
    requires KeepLines(y) == lines && g < |lines| && IsRootLine(lines[g]) && Rebind(y, m, template, word).Ok?
    ensures MachineId(m) && Located(lines, g, end, j, m, word)
    ensures Rebind(y, m, template, word) == Ok(Concat(lines[j := ReplacedLine(lines[j], m, word).0]))
  {
    hide IsRootLine, MachineId, IsResetTemplate, ReplacedLine, Concat, KeepLines, RootsFrom, ReplacedRange, Untouched;
    RootsSome(lines, 0, g);
    OnlyRoot(lines, 0, g);
    end := RangeEnd(lines, g + 1);
    var range := lines[g + 1..end];
    var i := OneInRange(range, m, word);
    j := g + 1 + i;
    assert lines[j] == range[i];
    forall k | g + 1 <= k < end && k != j
      ensures Untouched(lines, m, word, k)
    {
      assert Untouched(range, m, word, k - g - 1);
      UntouchedInRange(lines, g + 1, end, m, word, k);
    }
    var line := ReplacedLine(lines[j], m, word).0;
    assert lines[..g + 1] + range[i := line] + lines[end..] == lines[j := line];
  }

  lemma UntouchedInRange(lines: seq<string>, lo: nat, hi: nat, m: string, word: char -> bool, k: nat)
    requires lo <= k < hi <= |lines| && Untouched(lines[lo..hi], m, word, k - lo)
    ensures Untouched(lines, m, word, k)
  {
  }

  lemma {:induction false} RootsSome(lines: seq<string>, i: nat, k: nat)
    requires i <= k < |lines| && IsRootLine(lines[k])
    ensures RootsFrom(lines, i) != []
    decreases k - i
  {
    hide IsRootLine;
    if i < k {
      RootsSome(lines, i + 1, k);
    }
  }

  lemma RebindAgain(z: string, lines: seq<string>, g: nat, end: nat, j: nat, m: string, template: Option<string>,
                    word: char -> bool)
    requires KeepLines(z) == lines && MachineId(m) && Located(lines, g, end, j, m, word)
    requires ReplacedLine(lines[j], m, word) == (lines[j], 1)
    ensures Rebind(z, m, template, word) == Ok(Concat(lines))
  {
    hide MachineId, IsResetTemplate, ReplacedLine, Concat, KeepLines, RootsFrom, RangeEnd;
    var range := lines[g + 1..end];
    assert range[j - g - 1] == lines[j];
    forall k | 0 <= k < |range| && k != j - g - 1
      ensures Untouched(range, m, word, k)
    {
      assert Untouched(lines, m, word, g + 1 + k);
    }
    RangeAgain(range, j - g - 1, m, word);
    assert lines[..g + 1] + range + lines[end..] == lines;
  }

  /** Lines are alike to the search for the group: where it begins and where it ends. */
  predicate SameMarks(lines: seq<string>, lines': seq<string>) {
    && |lines| == |lines'|
    && (forall k | 0 <= k < |lines| :: IsRootLine(lines[k]) <==> IsRootLine(lines'[k]))
    && (forall k | 0 <= k < |lines| :: EndsGroup(lines[k]) <==> EndsGroup(lines'[k]))
  }

  lemma MarksStay(lines: seq<string>, j: nat, line: string)
    requires j < |lines| && !EndsGroup(lines[j]) && !EndsGroup(line)
    ensures SameMarks(lines, lines[j := line])
  {
    NoRoot(lines[j]);
    NoRoot(line);
    hide IsRootLine, EndsGroup;
  }

  /** Replacing the one identity leaves everything where it was. */
  lemma LocatedAgain(lines: seq<string>, g: nat, end: nat, j: nat, m: string, line: string, word: char -> bool)
    requires Located(lines, g, end, j, m, word) && !EndsGroup(line) && ReplacedLine(line, m, word).1 == 1
    ensures Located(lines[j := line], g, end, j, m, word)
  {
    hide IsRootLine, EndsGroup, ReplacedLine;
    var changed := lines[j := line];
    RangeOpen(lines, g + 1, j);
    MarksStay(lines, j, line);
    SameRoots(lines, changed, 0);
    SameEnd(lines, changed, g + 1);
    forall k | g + 1 <= k < end && k != j
      ensures Untouched(changed, m, word, k)
    {
      assert Untouched(lines, m, word, k);
    }
  }

  lemma NoRoot(line: string)
    ensures !EndsGroup(line) ==> !IsRootLine(line)
  {
  }

  lemma {:induction false} RangeOpen(lines: seq<string>, i: nat, k: nat)
    requires i <= k < |lines| && k < RangeEnd(lines, i)
    ensures !EndsGroup(lines[k])
    decreases k - i
  {
    hide EndsGroup;
    if i < k {
      RangeOpen(lines, i + 1, k);
    }
  }

  // The replaced line is a comment of the group's body.

  lemma BodyLine(h: seq<string>, s: Settings, es: seq<Entry>, at: nat, i: nat)
    requires at < |es| && i < |Body(es[at].body)|
    ensures var ls, g := WrittenLinesOf(h, s, es), |LinesBefore(h, s, es, at)|;
            g + 1 + i < |ls| && ls[g] == HeadingLine(es[at].heading) && ls[g + 1 + i] == Body(es[at].body)[i]
  {
    AroundEntry(h, s, es, at);
    hide WrittenLinesOf, LinesBefore, LinesAfter, Body;
  }

  /** The range ends with the body of the group. */
  lemma InBody(ls: seq<string>, before: seq<string>, x: seq<string>, after: seq<string>, end: nat, j: nat, m: string,
               word: char -> bool)
    requires ls == before + x + after && x != [] && Located(Ended(ls), |before|, end, j, m, word)
    requires after == [] || (|after| > 1 && after[0] == "" && EndsGroup(after[1]))
    ensures j < |before| + |x|
  {
    hide RootsFrom, ReplacedLine, EndsGroup;
    var n := |before| + |x|;
    if after != [] {
      assert ls[n] == after[0] && ls[n + 1] == after[1];
      EndsEnded(after[1]);
      assert Ended(ls)[n + 1] == after[1] + "\n";
      EndBefore(Ended(ls), |before| + 1, n + 1);
      NoIdentityInBlank(m, word);
      assert Ended(ls)[n] == "" + "\n" == "\n";
    }
  }

  lemma NoIdentityInBlank(m: string, word: char -> bool)
    ensures ReplacedLine("\n", m, word).1 == 0
  {
    var line := "\n";
    assert SkipSpace(line, 0) == 1;
    assert !IsComment(line);
  }

  lemma {:induction false} ValuesHave(body: seq<string>, i: nat, key: string)
    requires i < |body| && OptionOf(body[i]).Some? && OptionOf(body[i]).value.key == key
    ensures OptionOf(body[i]).value.value in Values(body, key)
    decreases i
  {
    hide OptionOf;
    if i > 0 {
      ValuesHave(body[1..], i - 1, key);
    }
  }

  lemma NamesInBody(body: seq<string>, i: nat, word: char -> bool)
    requires i < |body| && IsComment(body[i]) && NamesMachine(OptionOf(body[i]).value.value, word)
    ensures OfMachine(body, word)
  {
    ValuesHave(body, i, "comment");
    hide OptionOf, NamesMachine, Values;
    var comments, v := Values(body, "comment"), OptionOf(body[i]).value.value;
    var k :| 0 <= k < |comments| && comments[k] == v;
  }

  lemma BodyTight(body: seq<string>, i: nat, line: string)
    requires i < |Body(body)| && Body(body)[i] != "" && line != ""
    ensures Body(Body(body)[i := line]) == Body(body)[i := line]
  {
    TrimEnds(body);
    var b := Body(body)[i := line];
    assert Trim(body) != [];
    assert b[0] != "" && b[|b| - 1] != "";
    assert TrimLeft(b) == b && TrimRight(b) == b;
  }

  // Sizes.

  lemma {:induction false} Utf8Append(a: string, b: string)
    ensures Utf8Length(a + b) == Utf8Length(a) + Utf8Length(b)
  {
    if a == "" {
      assert a + b == b;
    } else {
      assert (a + b)[1..] == a[1..] + b;
      Utf8Append(a[1..], b);
    }
  }

  lemma {:induction false} Utf8Hex(m: string)
    requires forall i | 0 <= i < |m| :: HexDigit(m[i])
    ensures Utf8Length(m) == |m| && '\0' !in m
  {
    if m != "" {
      Utf8Hex(m[1..]);
      assert m == [m[0]] + m[1..];
    }
  }

  /** The text with 32 hexadecimal digits from q on replaced. */
  predicate OnlyDigits(y: string, z: string, q: nat, m: string) {
    && q >= 11 && q + 32 <= |y| && |m| == 32 && y[q - 11..q] == MACHINE_KEY
    && (forall k | q <= k < q + 32 :: HexDigit(y[k]))
    && z == y[..q] + m + y[q + 32..]
  }

  lemma SameSize(y: string, z: string, q: nat, m: string)
    requires OnlyDigits(y, z, q, m) && HexDigits(m) && Supported(y)
    ensures Supported(z)
  {
    var a, d, b := y[..q], y[q..q + 32], y[q + 32..];
    assert y == a + (d + b) && z == a + (m + b);
    Utf8Append(a, d + b);
    Utf8Append(d, b);
    Utf8Append(a, m + b);
    Utf8Append(m, b);
    Utf8Hex(d);
    Utf8Hex(m);
  }

  lemma {:induction false} UnlinesAround(ls: seq<string>, j: nat, line: string)
    requires j < |ls|
    ensures Unlines(ls[j := line]) == Unlines(ls[..j]) + (line + "\n" + Unlines(ls[j + 1..]))
    decreases j
  {
    var changed := ls[j := line];
    if j == 0 {
      assert changed[1..] == ls[1..] && ls[..0] == [];
      assert "" + (line + "\n" + Unlines(ls[1..])) == line + "\n" + Unlines(ls[1..]);
    } else {
      assert changed[1..] == ls[1..][j - 1 := line];
      UnlinesAround(ls[1..], j - 1, line);
      assert ls[1..][..j - 1] == ls[..j][1..] && ls[1..][j..] == ls[j + 1..];
      var rest := line + "\n" + Unlines(ls[j + 1..]);
      assert ls[0] + "\n" + (Unlines(ls[..j][1..]) + rest) == ls[0] + "\n" + Unlines(ls[..j][1..]) + rest;
    }
  }

  /** A replacement in the middle of a text. */
  lemma SplicedMiddle(a: string, line: string, b: string, p: nat, m: string)
    requires p + 43 <= |line| && |m| == 32
    ensures var y, q := a + (line + b), |a| + p + 11;
            && y[q - 11..q] == line[p..p + 11] && (forall k | q <= k < q + 32 :: y[k] == line[k - |a|])
            && a + (Spliced(line, p, m) + b) == y[..q] + m + y[q + 32..]
  {
    var y, q := a + (line + b), |a| + p + 11;
    forall k | 0 <= k < |line|
      ensures y[|a| + k] == line[k]
    {
    }
    assert y[q - 11..q] == line[p..p + 11];
    assert y[..q] == a + line[..p + 11];
    assert y[q + 32..] == line[p + 43..] + b;
    var head, tail := line[..p + 11], line[p + 43..];
    assert a + (head + m + tail + b) == a + head + m + (tail + b);
  }

  lemma SplicedText(ls: seq<string>, j: nat, p: nat, m: string, word: char -> bool)
    requires j < |ls| && |m| == 32 && MachineAt(ls[j], p, word)
    ensures p + 43 <= |ls[j]|
    ensures OnlyDigits(Unlines(ls), Unlines(ls[j := Spliced(ls[j], p, m)]), |Unlines(ls[..j])| + p + 11, m)
  {
    hide MACHINE_KEY, HexDigit, Unlines, Spliced;
    var a, b, line := Unlines(ls[..j]), "\n" + Unlines(ls[j + 1..]), ls[j];
    UnlinesAround(ls, j, line);
    UnlinesAround(ls, j, Spliced(line, p, m));
    assert ls[j := line] == ls;
    assert line + "\n" + Unlines(ls[j + 1..]) == line + b;
    assert Spliced(line, p, m) + "\n" + Unlines(ls[j + 1..]) == Spliced(line, p, m) + b;
    SplicedMiddle(a, line, b, p, m);
  }

  // The theorem.

  /** A comment line with an identity at p, and what replacing makes of it. */
  predicate ReboundAt(line: string, p: nat, m: string, word: char -> bool) {
    && |m| == 32 && p + 43 <= |line| && IsComment(line)
    && MachineAt(line, p, word) && MachineAt(Spliced(line, p, m), p, word)
    && ReplacedLine(Spliced(line, p, m) + "\n", m, word) == (Spliced(line, p, m) + "\n", 1)
  }

  lemma LineRebound(ls: seq<string>, j: nat, m: string, word: char -> bool) returns (p: nat)
    requires WordLike(word) && HexDigits(m) && j < |ls| && ReplacedLine(Ended(ls)[j], m, word).1 == 1
    ensures ReboundAt(ls[j], p, m, word)
    ensures Ended(ls)[j := ReplacedLine(Ended(ls)[j], m, word).0] == Ended(ls[j := Spliced(ls[j], p, m)])
  {
    var line := ls[j];
    var longer := line + "\n";
    assert Ended(ls)[j] == longer;
    CommentEnded(line);
    p := OneIdentity(longer, m, word);
    IdentityEnded(line, p, word);
    assert |m| == 32;
    SplicedEnded(line, p, m);
    IdentityEnded(Spliced(line, p, m), p, word);
    StillComment(line, p, m, word);
    hide MachineAt, Spliced, IsComment, Replaced, HexDigits, WordLike;
    assert Ended(ls)[j := Spliced(line, p, m) + "\n"] == Ended(ls[j := Spliced(line, p, m)]);
  }

  lemma StillComment(line: string, p: nat, m: string, word: char -> bool)
    requires IsComment(line) && MachineAt(line, p, word) && |m| == 32
    ensures IsComment(Spliced(line, p, m) + "\n")
  {
    var a, b, c, v := OptionParts(line);
    IdentityInValue(line, a, b, c, v, p, word);
    SplicedParts(line, a, b, c, v, p, m);
    OptionFromParts(Spliced(line, p, m), a, b, c, v);
    CommentEnded(Spliced(line, p, m));
    hide Spliced, MachineAt;
  }

  /** Rebinding lines whose group stands at g replaces one identity in one line. */
  lemma ReboundLines(ls: seq<string>, g: nat, m: string, template: Option<string>, word: char -> bool)
    returns (end: nat, j: nat, p: nat)
    requires AllLines(ls) && WordLike(word) && g < |ls| && IsRootLine(Ended(ls)[g])
    requires Rebind(Unlines(ls), m, template, word).Ok?
    ensures HexDigits(m) && MachineId(m) && Located(Ended(ls), g, end, j, m, word) && ReboundAt(ls[j], p, m, word)
    ensures Rebind(Unlines(ls), m, template, word) == Ok(Unlines(ls[j := Spliced(ls[j], p, m)]))
  {
    hide Rebind, IsRootLine, ReplacedLine, MachineAt, Ended, WordLike, IsComment;
    KeepUnlines(ls);
    end, j := RebindIs(Unlines(ls), Ended(ls), g, m, template, word);
    p := LineRebound(ls, j, m, word);
    ConcatEnded(ls[j := Spliced(ls[j], p, m)]);
  }

  /** Rebinding to the same machine again changes nothing. */
  lemma ReboundAgain(ls: seq<string>, g: nat, end: nat, j: nat, p: nat, m: string, template: Option<string>, word: char -> bool)
    requires Located(Ended(ls), g, end, j, m, word) && ReboundAt(ls[j], p, m, word) && MachineId(m)
    requires !EndsGroup(Spliced(ls[j], p, m)) && AllLines(ls[j := Spliced(ls[j], p, m)])
    ensures var z := Unlines(ls[j := Spliced(ls[j], p, m)]); Rebind(z, m, template, word) == Ok(z)
  {
    hide Rebind, ReplacedLine, MachineAt, MachineId, IsComment, Spliced, EndsGroup;
    var line := Spliced(ls[j], p, m);
    var changed := ls[j := line];
    KeepUnlines(changed);
    ConcatEnded(changed);
    EndsEnded(line);
    assert Ended(changed) == Ended(ls)[j := line + "\n"];
    hide Ended, Located;
    LocatedAgain(Ended(ls), g, end, j, m, line + "\n", word);
    LocatedMeans(Ended(changed), g, end, j, m, word);
    assert Ended(changed)[j] == line + "\n";
    RebindAgain(Unlines(changed), Ended(changed), g, end, j, m, template, word);
  }

  lemma LocatedMeans(lines: seq<string>, g: nat, end: nat, j: nat, m: string, word: char -> bool)
    requires Located(lines, g, end, j, m, word)
    ensures g < j < end <= |lines|
  {
  }

  /** The group's heading stands among the lines and is the root. */
  lemma GroupLine(h: seq<string>, s: Settings, es: seq<Entry>, at: nat, b: nat, kernel: Entry, word: char -> bool)
    requires Fixed(h, s, es, at, b, kernel, word)
    ensures at < |es| && CleanAll(es) && AllPlain(h)
    ensures var ls, g := WrittenLinesOf(h, s, es), |LinesBefore(h, s, es, at)|;
            AllLines(ls) && Write(h, s, es) == Unlines(ls) && g < |ls| && IsRootLine(Ended(ls)[g])
  {
    assert IsGroup(es[at], word) && Retitled(es[at]) == es[at];
    hide IsGroup, Retitled, IsRootLine, WrittenLinesOf, LinesBefore, CleanAll, Write, KernelIs, TwoManaged, Children, AsMade;
    WrittenIsUnlines(h, s, es);
    GroupIsRoot(es[at], word);
    BodyLine(h, s, es, at, 0);
  }

  /** The lines of a menu whose group's body changed in one line. */
  lemma LinesWithBody(h: seq<string>, s: Settings, es: seq<Entry>, at: nat, i: nat, line: string)
    requires at < |es| && i < |Body(es[at].body)|
    requires Body(Body(es[at].body)[i := line]) == Body(es[at].body)[i := line]
    ensures var ls, j := WrittenLinesOf(h, s, es), |LinesBefore(h, s, es, at)| + 1 + i;
            j < |ls| && ls[j] == Body(es[at].body)[i]
            && WrittenLinesOf(h, s, WithBody(es, at, Body(es[at].body)[i := line])) == ls[j := line]
  {
    hide WrittenLinesOf, Before, Behind, Body, Front;
    var es2 := WithBody(es, at, Body(es[at].body)[i := line]);
    BodyLine(h, s, es, at, i);
    AroundEntry(h, s, es, at);
    AroundEntry(h, s, es2, at);
    assert es2[..at] == es[..at] && es2[at + 1..] == es[at + 1..];
  }

  lemma EntryLength(e: Entry)
    ensures |EntryLines(e)| == 1 + |Body(e.body)|
  {
  }

  /** Where in the group's body the replaced line stands. */
  lemma LineOfBody(h: seq<string>, s: Settings, es: seq<Entry>, at: nat, end: nat, j: nat, m: string, word: char -> bool)
    returns (i: nat)
    requires at < |es| && CleanAll(es)
    requires Located(Ended(WrittenLinesOf(h, s, es)), |LinesBefore(h, s, es, at)|, end, j, m, word)
    ensures i < |Body(es[at].body)| && j == |LinesBefore(h, s, es, at)| + 1 + i
    ensures j < |WrittenLinesOf(h, s, es)| && WrittenLinesOf(h, s, es)[j] == Body(es[at].body)[i]
  {
    hide Located, WrittenLinesOf, LinesBefore, LinesAfter, CleanAll, Body, EntryLines, EndsGroup, Ended;
    AroundEntry(h, s, es, at);
    BehindEntry(es, at);
    EntryLength(es[at]);
    LocatedMeans(Ended(WrittenLinesOf(h, s, es)), |LinesBefore(h, s, es, at)|, end, j, m, word);
    InBody(WrittenLinesOf(h, s, es), LinesBefore(h, s, es, at), EntryLines(es[at]), LinesAfter(es, at), end, j, m, word);
    i := j - |LinesBefore(h, s, es, at)| - 1;
    BodyLine(h, s, es, at, i);
  }

  /** The new line keeps the group's body plain, tight and of a machine. */
  lemma NewBody(e: Entry, i: nat, p: nat, m: string, word: char -> bool)
    requires CleanEntry(e) && i < |Body(e.body)| && HexDigits(m) && ReboundAt(Body(e.body)[i], p, m, word)
    ensures var line := Spliced(Body(e.body)[i], p, m); var body := Body(e.body)[i := line];
            && AllPlain(body) && OfMachine(body, word) && Body(body) == body && !EndsGroup(line) && IsLine(line)
  {
    BodyPlain(e.body);
    var was := Body(e.body)[i];
    assert Plain(was);
    CommentRebound(was, p, m, word);
    var line := Spliced(was, p, m);
    assert was != "" && line != "";
    BodyTight(e.body, i, line);
    hide Spliced, MachineAt, Body, NamesMachine, IsComment, IsGlobal, HeadingOf, IsLine, EndsGroup, ReplacedLine;
    var body := Body(e.body)[i := line];
    NamesInBody(body, i, word);
    forall k | 0 <= k < |body|
      ensures Plain(body[k])
    {
      assert k != i ==> body[k] == Body(e.body)[k];
    }
  }

  /**
   * Rebinding a fixed point of the rewriter to a machine changes nothing but the 32 digits of one identity;
   * the result is again a fixed point for the same settings, and rebinding it to the same machine again
   * changes nothing.
   */
  lemma RebindKeepsFixed(y: string, s: Settings, m: string, template: Option<string>, word: char -> bool)
    returns (q: nat)
    requires WordLike(word) && Render(y, s, word) == Ok(y) && Rebind(y, m, template, word).Ok?
    ensures var z := Rebind(y, m, template, word).value;
            OnlyDigits(y, z, q, m) && Render(z, s, word) == Ok(z) && Rebind(z, m, template, word) == Ok(z)
  {
    hide Rebind, Render, Fixed, Located, ReboundAt, WordLike, Write, WrittenLinesOf, LinesBefore, Body, MachineId, HexDigits,
         Supported, IsRootLine, Ended, OfMachine, Plain, CleanEntry, EndsGroup, IsLine, OnlyDigits, MachineAt, Spliced;
    var h, es, at, b, kernel := FixedIsWritten(y, s, word);
    GroupLine(h, s, es, at, b, kernel, word);
    var ls, g := WrittenLinesOf(h, s, es), |LinesBefore(h, s, es, at)|;
    var end, j, p := ReboundLines(ls, g, m, template, word);
    var i := LineOfBody(h, s, es, at, end, j, m, word);
    ReboundFacts(ls[j], p, m, word);
    var line := Spliced(ls[j], p, m);
    var body := Body(es[at].body)[i := line];
    assert CleanEntry(es[at]);
    NewBody(es[at], i, p, m, word);
    LinesWithBody(h, s, es, at, i, line);
    FixedWithBody(h, s, es, at, b, kernel, body, word);
    FixedCleans(h, s, WithBody(es, at, body), at, b, kernel, word);
    WrittenIsUnlines(h, s, WithBody(es, at, body));
    SplicedText(ls, j, p, m, word);
    q := |Unlines(ls[..j])| + p + 11;
    RenderSupported(y, s, word);
    SameSize(y, Unlines(ls[j := line]), q, m);
    FixedRenders(h, s, WithBody(es, at, body), at, b, kernel, word);
    ReboundAgain(ls, g, end, j, p, m, template, word);
  }

  lemma ReboundFacts(line: string, p: nat, m: string, word: char -> bool)
    requires ReboundAt(line, p, m, word)
    ensures |m| == 32 && p + 43 <= |line| && MachineAt(line, p, word)
  {
  }

  lemma FixedCleans(h: seq<string>, s: Settings, es: seq<Entry>, at: nat, b: nat, kernel: Entry, word: char -> bool)
    requires Fixed(h, s, es, at, b, kernel, word)
    ensures AllPlain(h) && CleanAll(es)
  {
  }

  lemma RenderSupported(y: string, s: Settings, word: char -> bool)
    requires Render(y, s, word).Ok?
    ensures Supported(y)
  {
  }
}
