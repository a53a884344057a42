// The two line patterns of the boot menu: options "key: value" and titles "/+Title".
module MenuLines {
  import opened Bytes
  import opened MenuText

  function SkipSpace(s: string, i: nat): (e: nat)
    requires i <= |s|
    ensures i <= e <= |s| && (e < |s| ==> !Space(s[e]))
    decreases |s| - i
  {
    if i < |s| && Space(s[i]) then SkipSpace(s, i + 1) else i
  }

  function StripRight(s: string): string {
    if s != "" && Space(s[|s| - 1]) then StripRight(s[..|s| - 1]) else s
  }

  // Options.

  predicate KeyChar(c: char) {
    'a' <= c <= 'z' || 'A' <= c <= 'Z' || c == '_'
  }

  function Lower(c: char): char {
    if 'A' <= c <= 'Z' then (c as int + 32) as char else c
  }

  function LowerAll(s: string): string {
    seq(|s|, i requires 0 <= i < |s| => Lower(s[i]))
  }

  function KeyEnd(s: string, i: nat): (e: nat)
    requires i <= |s|
    ensures i <= e <= |s|
    decreases |s| - i
  {
    if i < |s| && KeyChar(s[i]) then KeyEnd(s, i + 1) else i
  }

  datatype Setting = Setting(key: string, value: string)

  /** What ^\s*([a-zA-Z_]+)\s*:\s*(.*?)\s*$ finds in a line, the key in lower case. */
  function OptionOf(line: string): Option<Setting> {
    var a := SkipSpace(line, 0);
    var b := KeyEnd(line, a);
    var c := SkipSpace(line, b);
    if a == b || c == |line| || line[c] != ':' then None
    else Some(Setting(LowerAll(line[a..b]), StripRight(line[SkipSpace(line, c + 1)..])))
  }

  /** A text that no stripping changes. */
  predicate Tight(s: string) {
    s != "" && !Space(s[0]) && !Space(s[|s| - 1])
  }

  predicate LowerKey(s: string) {
    s != "" && forall i | 0 <= i < |s| :: 'a' <= s[i] <= 'z' || s[i] == '_'
  }

  function OptionLine(indent: string, key: string, value: string): string {
    indent + key + ": " + value
  }

  lemma {:induction false} SkipSpaceTo(s: string, i: nat, e: nat)
    requires i <= e <= |s| && (forall k | i <= k < e :: Space(s[k])) && (e < |s| ==> !Space(s[e]))
    ensures SkipSpace(s, i) == e
    decreases e - i
  {
    if i < e {
      SkipSpaceTo(s, i + 1, e);
    }
  }

  lemma {:induction false} KeyEndAt(s: string, i: nat, e: nat)
    requires i <= e <= |s| && (forall k | i <= k < e :: KeyChar(s[k])) && (e < |s| ==> !KeyChar(s[e]))
    ensures KeyEnd(s, i) == e
    decreases e - i
  {
    if i < e {
      KeyEndAt(s, i + 1, e);
    }
  }

  predicate Spaces(s: string) {
    forall i | 0 <= i < |s| :: s[i] == ' '
  }

  lemma OptionPlaces(indent: string, key: string, value: string)
    requires Spaces(indent) && LowerKey(key) && Tight(value)
    ensures var line, a, b := OptionLine(indent, key, value), |indent|, |indent| + |key|;
            && b + 2 < |line| && line[b] == ':'
            && SkipSpace(line, 0) == a && KeyEnd(line, a) == b && SkipSpace(line, b) == b && SkipSpace(line, b + 1) == b + 2
  {
    var line := OptionLine(indent, key, value);
    var a, b := |indent|, |indent| + |key|;
    forall k | a <= k < b
      ensures KeyChar(line[k]) && !Space(line[k])
    {
      assert line[k] == key[k - a];
    }
    assert line[b] == ':' && line[b + 1] == ' ' && line[b + 2] == value[0];
    SkipSpaceTo(line, 0, a);
    KeyEndAt(line, a, b);
    SkipSpaceTo(line, b, b);
    SkipSpaceTo(line, b + 1, b + 2);
  }

  lemma OptionOfLine(indent: string, key: string, value: string)
    requires Spaces(indent) && LowerKey(key) && Tight(value)
    ensures OptionOf(OptionLine(indent, key, value)) == Some(Setting(key, value))
  {
    OptionPlaces(indent, key, value);
    assert StripRight(value) == value;
    assert LowerAll(key) == key;
    var line, a, b := OptionLine(indent, key, value), |indent|, |indent| + |key|;
    assert line[a..b] == key && line[b + 2..] == value;
    hide SkipSpace, KeyEnd, StripRight, LowerAll, Space, KeyChar, OptionLine;
  }

  // Titles.

  function SlashEnd(s: string, i: nat): (e: nat)
    requires i <= |s|
    ensures i <= e <= |s| && (e < |s| ==> s[e] != '/')
    decreases |s| - i
  {
    if i < |s| && s[i] == '/' then SlashEnd(s, i + 1) else i
  }

  datatype Heading = Heading(level: nat, expanded: bool, title: string)

  /**
   * What ^\s*(/+)(\+?)([^/\r\n].*?)\s*$ finds in a line: a plus sign right behind the slashes marks
   * an expanded entry unless nothing else could be the first character of the title.
   */
  function HeadingOf(line: string): Option<Heading> {
    var a := SkipSpace(line, 0);
    var b := SlashEnd(line, a);
    if a == b || b == |line| then None else Some(HeadingOfRest(b - a, line[b..]))
  }

  function HeadingOfRest(level: nat, rest: string): Heading
    requires rest != ""
  {
    var expanded := rest[0] == '+' && |rest| >= 2 && rest[1] != '/';
    var title := if expanded then rest[1..] else rest;
    Heading(level, expanded, title[..1] + StripRight(title[1..]))
  }

  function Slashes(n: nat): string {
    seq(n, i => '/')
  }

  /** What stands behind the slashes. */
  function RestOf(h: Heading): string {
    (if h.expanded then "+" else "") + h.title
  }

  function HeadingLine(h: Heading): string {
    Slashes(h.level) + RestOf(h)
  }

  /** A heading that stands for itself when written out. */
  predicate Proper(h: Heading) {
    && h.level >= 1 && IsLine(h.title) && h.title != "" && h.title[0] != '/'
    && (|h.title| > 1 ==> !Space(h.title[|h.title| - 1]))
    && (!h.expanded && h.title[0] == '+' && |h.title| > 1 ==> h.title[1] == '/')
  }

  lemma {:induction false} SlashEndAt(s: string, i: nat, e: nat)
    requires i <= e <= |s| && (forall k | i <= k < e :: s[k] == '/') && (e < |s| ==> s[e] != '/')
    ensures SlashEnd(s, i) == e
    decreases e - i
  {
    if i < e {
      SlashEndAt(s, i + 1, e);
    }
  }

  lemma HeadingOfRestLine(h: Heading)
    requires Proper(h)
    ensures RestOf(h)[0] != '/' && HeadingOfRest(h.level, RestOf(h)) == h
  {
    var rest, t := RestOf(h), h.title;
    if h.expanded {
      assert rest[1..] == t;
    }
    assert StripRight(t[1..]) == t[1..];
    assert t == t[..1] + t[1..];
  }

  lemma HeadingBehind(n: nat, rest: string)
    requires n >= 1 && rest != "" && rest[0] != '/'
    ensures HeadingOf(Slashes(n) + rest) == Some(HeadingOfRest(n, rest))
  {
    hide HeadingOfRest;
    var line := Slashes(n) + rest;
    assert line[n..] == rest;
    assert forall k | 0 <= k < n :: line[k] == '/';
    SkipSpaceTo(line, 0, 0);
    SlashEndAt(line, 0, n);
  }

  /** A proper heading is read back as it was written. */
  lemma HeadingOfLine(h: Heading)
    requires Proper(h)
    ensures HeadingOf(HeadingLine(h)) == Some(h)
  {
    HeadingOfRestLine(h);
    hide RestOf, HeadingOfRest, HeadingOf, Slashes;
    HeadingBehind(h.level, RestOf(h));
  }

  lemma {:induction false} StripRightEnds(s: string)
    ensures StripRight(s) <= s
    ensures StripRight(s) != "" ==> !Space(StripRight(s)[|StripRight(s)| - 1])
  {
    if s != "" && Space(s[|s| - 1]) {
      StripRightEnds(s[..|s| - 1]);
    }
  }

  /** Headings read from lines are proper. */
  lemma HeadingIsProper(line: string)
    requires IsLine(line) && HeadingOf(line).Some?
    ensures Proper(HeadingOf(line).value)
  {
    hide SkipSpace, SlashEnd, StripRight;
    var h, b := HeadingOf(line).value, SlashEnd(line, SkipSpace(line, 0));
    var rest := line[b..];
    var t := if h.expanded then rest[1..] else rest;
    StripRightEnds(t[1..]);
    var stripped := StripRight(t[1..]);
    assert h.title == t[..1] + stripped;
    assert forall k | 0 <= k < |h.title| :: h.title[k] == t[k];
    assert forall k | 0 <= k < |t| :: t[k] == line[|line| - |t| + k];
  }

  /** An option line is no heading. */
  lemma OptionIsNoHeading(indent: string, key: string, value: string)
    requires Spaces(indent) && LowerKey(key)
    ensures HeadingOf(OptionLine(indent, key, value)) == None
  {
    var line, a := OptionLine(indent, key, value), |indent|;
    assert line[a] == key[0];
    SkipSpaceTo(line, 0, a);
    SlashEndAt(line, a, a);
  }

}
