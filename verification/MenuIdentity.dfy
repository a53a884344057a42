// One comment line whose machine identity is replaced.
module MenuIdentity {
  import opened Bytes
  import opened MenuText
  import opened MenuLines
  import opened BootMenu
  import opened MenuRebind

  /** Word characters as the pattern engine has them: hexadecimal digits are, the newline is not. */
  ghost predicate WordLike(word: char -> bool) {
    (forall c :: HexDigit(c) ==> word(c)) && !word('\n')
  }

  lemma MachineKey()
    ensures |MACHINE_KEY| == 11 && MACHINE_KEY[0] == 'm' && MACHINE_KEY[7] == '-'
    ensures forall t | 0 < t < 11 :: MACHINE_KEY[t] != 'm'
    ensures forall t | 0 <= t < 11 :: MACHINE_KEY[t] != ':' && !Space(MACHINE_KEY[t]) && !Separator(MACHINE_KEY[t])
  {
  }

  /** What stands at a machine identity, character by character. */
  lemma MachineChars(s: string, i: nat, word: char -> bool)
    ensures MachineAt(s, i, word) <==>
            && i + 43 <= |s| && (forall t | 0 <= t < 11 :: s[i + t] == MACHINE_KEY[t])
            && (forall k | i + 11 <= k < i + 43 :: HexDigit(s[k]))
            && (i > 0 ==> !word(s[i - 1])) && (i + 43 < |s| ==> !word(s[i + 43]))
  {
    MachineKey();
    hide MACHINE_KEY, HexDigit;
    if i + 43 <= |s| {
      var k := s[i..i + 11];
      assert forall t | 0 <= t < 11 :: k[t] == s[i + t];
    }
  }

  lemma {:induction false} FirstMachine(line: string, i: nat, p: nat, word: char -> bool)
    requires i <= p <= |line| && (forall k | i <= k < p :: !MachineAt(line, k, word))
    requires p < |line| ==> MachineAt(line, p, word)
    ensures FindMachine(line, i, word) == if p < |line| then Some(p) else None
    decreases p - i
  {
    hide MachineAt;
    if i < p {
      FirstMachine(line, i + 1, p, word);
    }
  }

  lemma {:induction false} NoneBefore(line: string, i: nat, k: nat, word: char -> bool)
    requires i <= k < |line|
    requires FindMachine(line, i, word).Some? ==> k < FindMachine(line, i, word).value
    ensures !MachineAt(line, k, word)
    decreases k - i
  {
    hide MachineAt;
    if i < k {
      NoneBefore(line, i + 1, k, word);
    }
  }

  /** The line with the 32 digits of the identity at p replaced. */
  function Spliced(line: string, p: nat, m: string): (r: string)
    requires p + 43 <= |line| && |m| == 32
    ensures |r| == |line|
  {
    line[..p + 11] + m + line[p + 43..]
  }

  predicate HexDigits(m: string) {
    |m| == 32 && forall i | 0 <= i < 32 :: HexDigit(m[i])
  }

  /** The replacement neither makes nor breaks an identity. */
  lemma SameMachines(line: string, p: nat, m: string, k: nat, word: char -> bool)
    requires WordLike(word) && HexDigits(m) && MachineAt(line, p, word) && k < |line|
    ensures MachineAt(Spliced(line, p, m), k, word) <==> MachineAt(line, k, word)
  {
    MachineKey();
    MachineChars(line, p, word);
    MachineChars(line, k, word);
    MachineChars(Spliced(line, p, m), k, word);
    hide MACHINE_KEY, MachineAt, Space, Separator;
    forall j | 0 <= j < |line|
      ensures Spliced(line, p, m)[j] == if p + 11 <= j < p + 43 then m[j - p - 11] else line[j]
      ensures p + 11 <= j < p + 43 ==> HexDigit(Spliced(line, p, m)[j]) && HexDigit(line[j])
    {
    }
    hide Spliced;
    if k < p && p < k + 43 {
    } else if p < k && k < p + 43 {
      AfterStart(line, k, p, word);
      AfterStart(Spliced(line, p, m), k, p, word);
    }
  }

  /** Nor can it begin inside another one. */
  lemma AfterStart(s: string, k: nat, p: nat, word: char -> bool)
    requires p < k < p + 43 <= |s| && (forall t | 0 <= t < 11 :: s[p + t] == MACHINE_KEY[t])
    requires forall j | p + 11 <= j < p + 43 :: HexDigit(s[j])
    ensures !MachineAt(s, k, word)
  {
    MachineKey();
    MachineChars(s, k, word);
    hide MACHINE_KEY, MachineAt;
    if k < p + 11 {
      assert s[p + (k - p)] == MACHINE_KEY[k - p] != 'm';
    } else {
      assert HexDigit(s[k]);
    }
  }

  /** A line with one identity: what replacing makes of it, and that replacing again changes nothing. */
  lemma OneIdentity(line: string, m: string, word: char -> bool) returns (p: nat)
    requires WordLike(word) && HexDigits(m) && Replaced(line, 0, m, word).1 == 1
    ensures p + 43 <= |line| && MachineAt(line, p, word) && MachineAt(Spliced(line, p, m), p, word)
    ensures Replaced(line, 0, m, word).0 == Spliced(line, p, m)
    ensures Replaced(Spliced(line, p, m), 0, m, word) == (Spliced(line, p, m), 1)
  {
    assert |m| == 32;
    hide MachineAt, HexDigits, WordLike;
    p := FindMachine(line, 0, word).value;
    ReplacedOnce(line, p, m, word);
    var changed := Spliced(line, p, m);
    forall k | 0 <= k < |line|
      ensures MachineAt(changed, k, word) <==> MachineAt(line, k, word)
    {
      SameMachines(line, p, m, k, word);
    }
    forall k | 0 <= k < |line| && k != p && !(p < k < p + 43)
      ensures !MachineAt(line, k, word)
    {
      if k < p {
        NoneBefore(line, 0, k, word);
      } else {
        NoneBefore(line, p + 43, k, word);
      }
    }
    FirstMachine(changed, 0, p, word);
    FirstMachine(changed, p + 43, |changed|, word);
    ReplacedAgain(line, p, m, word);
  }

  lemma ReplacedOnce(line: string, p: nat, m: string, word: char -> bool)
    requires FindMachine(line, 0, word) == Some(p) && p + 43 <= |line| && FindMachine(line, p + 43, word).None?
    requires line[p..p + 11] == MACHINE_KEY && |m| == 32
    ensures Replaced(line, 0, m, word) == (Spliced(line, p, m), 1)
  {
    hide MACHINE_KEY, FindMachine;
    assert line[0..p] + MACHINE_KEY == line[..p + 11];
    assert line[0..p] + MACHINE_KEY + m + line[p + 43..] == Spliced(line, p, m);
  }

  lemma ReplacedAgain(line: string, p: nat, m: string, word: char -> bool)
    requires p + 43 <= |line| && |m| == 32 && line[p..p + 11] == MACHINE_KEY
    requires var n := Spliced(line, p, m);
             FindMachine(n, 0, word) == Some(p) && FindMachine(n, p + 43, word).None?
    ensures Replaced(Spliced(line, p, m), 0, m, word) == (Spliced(line, p, m), 1)
  {
    var n := Spliced(line, p, m);
    assert n[p..p + 11] == line[p..p + 11];
    ReplacedOnce(n, p, m, word);
    assert Spliced(n, p, m) == n;
  }

  // The line as the rewriter reads it.

  lemma {:induction false} SkipSpaceSame(a: string, b: string, i: nat, e: nat)
    requires i <= e < |a| && e < |b| && (forall k | i <= k <= e :: a[k] == b[k]) && SkipSpace(a, i) == e
    ensures SkipSpace(b, i) == e
    decreases e - i
  {
    if i < e {
      SkipSpaceSame(a, b, i + 1, e);
    }
  }

  lemma {:induction false} KeyEndSame(a: string, b: string, i: nat, e: nat)
    requires i <= e < |a| && e < |b| && (forall k | i <= k <= e :: a[k] == b[k]) && KeyEnd(a, i) == e
    ensures KeyEnd(b, i) == e
    decreases e - i
  {
    if i < e {
      KeyEndSame(a, b, i + 1, e);
    }
  }

  lemma {:induction false} SkipSpaceBefore(s: string, i: nat, k: nat)
    requires i <= |s| && i <= k < SkipSpace(s, i)
    ensures Space(s[k])
    decreases k - i
  {
    if i < k {
      SkipSpaceBefore(s, i + 1, k);
    }
  }

  lemma {:induction false} KeyEndBefore(s: string, i: nat, k: nat)
    requires i <= |s| && i <= k < KeyEnd(s, i)
    ensures KeyChar(s[k])
    decreases k - i
  {
    if i < k {
      KeyEndBefore(s, i + 1, k);
    }
  }

  /** Where the parts of an option line lie. */
  predicate OptionAt(line: string, a: nat, b: nat, c: nat, v: nat) {
    && a < b <= c < v <= |line| && line[c] == ':'
    && SkipSpace(line, 0) == a && KeyEnd(line, a) == b && SkipSpace(line, b) == c && SkipSpace(line, c + 1) == v
  }

  lemma OptionParts(line: string) returns (a: nat, b: nat, c: nat, v: nat)
    requires OptionOf(line).Some?
    ensures OptionAt(line, a, b, c, v)
    ensures OptionOf(line).value == Setting(LowerAll(line[a..b]), StripRight(line[v..]))
  {
    a := SkipSpace(line, 0);
    b := KeyEnd(line, a);
    c := SkipSpace(line, b);
    v := SkipSpace(line, c + 1);
  }

  lemma OptionFromParts(line: string, a: nat, b: nat, c: nat, v: nat)
    requires OptionAt(line, a, b, c, v)
    ensures OptionOf(line) == Some(Setting(LowerAll(line[a..b]), StripRight(line[v..])))
  {
  }

  /** An identity lies in the value of its line. */
  lemma IdentityInValue(line: string, a: nat, b: nat, c: nat, v: nat, p: nat, word: char -> bool)
    requires OptionAt(line, a, b, c, v) && MachineAt(line, p, word)
    ensures v <= p
  {
    MachineKey();
    MachineChars(line, p, word);
    hide MachineAt, MACHINE_KEY, Space, SkipSpace, KeyEnd;
    assert line[p + 7] == '-' && line[p + 0] == 'm' && !Space(line[p + 0]);
    forall k | p <= k < p + 11
      ensures line[k] != ':'
    {
      assert line[p + (k - p)] == MACHINE_KEY[k - p];
    }
    if c < p < v {
      SkipSpaceBefore(line, c + 1, p);
    } else if p + 11 <= c {
      NoDash(line, a, b, c, p + 7);
    }
  }

  lemma NoDash(line: string, a: nat, b: nat, c: nat, k: nat)
    requires a < b <= c < |line| && SkipSpace(line, 0) == a && KeyEnd(line, a) == b && SkipSpace(line, b) == c && k < c
    ensures line[k] != '-'
  {
    if k < a {
      SkipSpaceBefore(line, 0, k);
    } else if k < b {
      KeyEndBefore(line, a, k);
    } else {
      SkipSpaceBefore(line, b, k);
    }
  }

  /** Replacing the identity leaves the parts of the line where they are. */
  lemma SplicedParts(line: string, a: nat, b: nat, c: nat, v: nat, p: nat, m: string)
    requires OptionAt(line, a, b, c, v) && v <= p && p + 43 <= |line| && |m| == 32
    ensures OptionAt(Spliced(line, p, m), a, b, c, v) && Spliced(line, p, m)[a..b] == line[a..b]
  {
    var n := Spliced(line, p, m);
    forall k | 0 <= k < p + 11
      ensures n[k] == line[k]
    {
    }
    hide Spliced, Space;
    SkipSpaceSame(line, n, 0, a);
    KeyEndSame(line, n, a, b);
    SkipSpaceSame(line, n, b, c);
    SkipSpaceSame(line, n, c + 1, v);
  }

  lemma {:induction false} StripKeeps(s: string, k: nat)
    requires k < |s| && !Space(s[k])
    ensures k < |StripRight(s)| && StripRight(s) <= s
  {
    if Space(s[|s| - 1]) {
      StripKeeps(s[..|s| - 1], k);
    }
  }

  /** The identity survives the stripping of the value. */
  lemma ValueChars(line: string, v: nat, p: nat)
    requires v <= p && p + 43 <= |line| && HexDigit(line[p + 42])
    ensures var value := StripRight(line[v..]);
            p + 43 - v <= |value| && v + |value| <= |line| && forall k | 0 <= k < |value| :: value[k] == line[v + k]
  {
    var rest, value := line[v..], StripRight(line[v..]);
    assert rest[p + 42 - v] == line[p + 42];
    StripKeeps(rest, p + 42 - v);
    hide StripRight, HexDigit, Space;
    forall k | 0 <= k < |value|
      ensures value[k] == line[v + k]
    {
      assert value[k] == rest[k];
    }
  }

  /** The value of a line with an identity names the machine. */
  lemma ValueNames(line: string, v: nat, p: nat, word: char -> bool)
    requires v <= p && MachineAt(line, p, word)
    ensures NamesMachine(StripRight(line[v..]), word)
  {
    MachineKey();
    MachineChars(line, p, word);
    hide MachineAt, MACHINE_KEY, StripRight, HexDigit;
    ValueChars(line, v, p);
    var value, q := StripRight(line[v..]), p - v;
    MachineChars(value, q, word);
    forall t | 0 <= t < 11
      ensures value[q + t] == MACHINE_KEY[t]
    {
      assert line[p + t] == MACHINE_KEY[t];
    }
    assert MachineAt(value, q, word);
  }

  /** A plain comment line with one identity stays one when the identity is replaced. */
  lemma CommentRebound(line: string, p: nat, m: string, word: char -> bool)
    requires HexDigits(m) && IsLine(line) && HeadingOf(line).None? && IsComment(line)
    requires MachineAt(line, p, word) && MachineAt(Spliced(line, p, m), p, word)
    ensures var n := Spliced(line, p, m);
            IsLine(n) && HeadingOf(n).None? && !IsGlobal(n) && IsComment(n) && !EndsGroup(n)
            && NamesMachine(OptionOf(n).value.value, word)
  {
    hide MACHINE_KEY, NamesMachine, LowerAll, StripRight, HexDigit, IsLine, Spliced, Space;
    var n := Spliced(line, p, m);
    var a, b, c, v := OptionParts(line);
    IdentityInValue(line, a, b, c, v, p, word);
    SplicedParts(line, a, b, c, v, p, m);
    OptionFromParts(n, a, b, c, v);
    ValueNames(n, v, p, word);
    SplicedIsLine(line, p, m);
  }

  lemma SplicedIsLine(line: string, p: nat, m: string)
    requires HexDigits(m) && IsLine(line) && p + 43 <= |line|
    ensures IsLine(Spliced(line, p, m))
  {
  }

  // Lines with their ends.

  /** Up to its colon an option line is read alike with and without what follows. */
  lemma OptionKey(line: string, longer: string)
    requires line <= longer && OptionOf(line).Some?
    ensures OptionOf(longer).Some? && OptionOf(longer).value.key == OptionOf(line).value.key
  {
    var a, b, c, v := OptionParts(line);
    SkipSpaceSame(line, longer, 0, a);
    KeyEndSame(line, longer, a, b);
    SkipSpaceSame(line, longer, b, c);
    OptionFromParts(longer, a, b, c, SkipSpace(longer, c + 1));
    assert longer[a..b] == line[a..b];
    hide Space;
  }

  lemma OptionKeyShorter(line: string, longer: string)
    requires line <= longer && OptionOf(longer).Some? && SkipSpace(longer, KeyEnd(longer, SkipSpace(longer, 0))) < |line|
    ensures OptionOf(line).Some?
  {
    var a, b, c, v := OptionParts(longer);
    SkipSpaceSame(longer, line, 0, a);
    KeyEndSame(longer, line, a, b);
    SkipSpaceSame(longer, line, b, c);
    OptionFromParts(line, a, b, c, SkipSpace(line, c + 1));
    hide Space;
  }

  lemma CommentEnded(line: string)
    ensures IsComment(line + "\n") <==> IsComment(line)
  {
    var longer := line + "\n";
    if OptionOf(line).Some? {
      OptionKey(line, longer);
    }
    if OptionOf(longer).Some? {
      var a, b, c, v := OptionParts(longer);
      assert longer[|line|] == '\n' && longer[c] == ':';
      OptionKeyShorter(line, longer);
    }
  }

  lemma {:induction false} SkipSpaceEnded(line: string, i: nat)
    requires i <= |line|
    ensures SkipSpace(line + "\n", i) == if SkipSpace(line, i) == |line| then |line| + 1 else SkipSpace(line, i)
    decreases |line| - i
  {
    if i < |line| {
      SkipSpaceEnded(line, i + 1);
    }
  }

  lemma EndsEnded(line: string)
    ensures EndsGroup(line + "\n") <==> EndsGroup(line)
  {
    SkipSpaceEnded(line, 0);
    hide Space, SkipSpace;
  }

  /** An identity of the line with its end is one of the line, and replacing it leaves the end alone. */
  lemma IdentityEnded(line: string, p: nat, word: char -> bool)
    requires MachineAt(line + "\n", p, word)
    ensures MachineAt(line, p, word) && p + 43 <= |line|
  {
    var longer := line + "\n";
    MachineChars(longer, p, word);
    MachineChars(line, p, word);
    assert longer[|line|] == '\n' && !HexDigit('\n');
    hide MachineAt, HexDigit, MACHINE_KEY;
    assert forall k | 0 <= k < |line| :: longer[k] == line[k];
  }

  lemma SplicedEnded(line: string, p: nat, m: string)
    requires p + 43 <= |line| && |m| == 32
    ensures Spliced(line + "\n", p, m) == Spliced(line, p, m) + "\n"
  {
    assert (line + "\n")[..p + 11] == line[..p + 11];
    assert (line + "\n")[p + 43..] == line[p + 43..] + "\n";
  }
}
