// The line patterns of the boot menu as decompositions of a line, and the other tests on texts.
module MenuGrammar {
  import opened Bytes
  import opened MenuText
  import opened MenuLines
  import opened BootMenu
  import opened MenuRebind

  /** White space and line ends by their code points. */
  lemma Characters(c: char)
    ensures Space(c) <==>
            c as int in {9, 10, 11, 12, 13, 28, 29, 30, 31, 32, 133, 160, 5760, 8192, 8193, 8194, 8195, 8196, 8197, 8198, 8199,
                         8200, 8201, 8202, 8232, 8233, 8239, 8287, 12288}
    ensures Separator(c) <==> c as int in {10, 11, 12, 13, 28, 29, 30, 133, 8232, 8233}
  {
  }

  // Ends of texts.

  /** A text that is empty or neither begins nor ends with white space. */
  predicate Trimmed(v: string) {
    v == "" || (!Space(v[0]) && !Space(v[|v| - 1]))
  }

  lemma {:induction false} StripsTail(v: string, e: string)
    requires AllSpace(e) && (v == "" || !Space(v[|v| - 1]))
    ensures StripRight(v + e) == v
    decreases |e|
  {
    if e == "" {
      assert v + e == v;
    } else {
      var n := |e| - 1;
      assert (v + e)[..|v + e| - 1] == v + e[..n];
      StripsTail(v, e[..n]);
    }
  }

  lemma {:induction false} TailOfStrip(s: string)
    ensures StripRight(s) <= s && AllSpace(s[|StripRight(s)|..])
    ensures StripRight(s) == "" || !Space(StripRight(s)[|StripRight(s)| - 1])
  {
    if s != "" && Space(s[|s| - 1]) {
      var n := |s| - 1;
      TailOfStrip(s[..n]);
      var k := |StripRight(s)|;
      assert s[k..] == s[..n][k..] + [s[n]];
    }
  }

  lemma {:induction false} Skipped(s: string, i: nat)
    requires i <= |s|
    ensures AllSpace(s[i..SkipSpace(s, i)])
    decreases |s| - i
  {
    if i < |s| && Space(s[i]) {
      Skipped(s, i + 1);
      var e := SkipSpace(s, i);
      assert s[i..e] == [s[i]] + s[i + 1..e];
    }
  }

  // Options.

  predicate KeyLetter(c: char) {
    97 <= c as int <= 122 || 65 <= c as int <= 90 || c as int == 95
  }

  /** The same letters, those from A to Z as their small ones. */
  predicate InLowerCase(k: string, key: string) {
    |k| == |key| && forall i | 0 <= i < |k| :: k[i] as int == if 65 <= key[i] as int <= 90 then key[i] as int + 32 else key[i] as int
  }

  /** White space, a key, white space, a colon, white space, a value, white space. */
  predicate Option7(line: string, a: string, key: string, b: string, c: string, v: string, e: string) {
    && line == a + key + b + ":" + c + v + e && AllSpace(a) && AllSpace(b) && AllSpace(c) && AllSpace(e)
    && key != "" && (forall i | 0 <= i < |key| :: KeyLetter(key[i])) && Trimmed(v)
  }

  lemma Letters(c: char)
    ensures KeyLetter(c) <==> KeyChar(c)
    ensures KeyLetter(c) ==> !Space(c) && c != ':'
  {
    assert 'a' as int == 97 && 'z' as int == 122 && 'A' as int == 65 && 'Z' as int == 90 && '_' as int == 95;
  }

  lemma LowerExact(k: string, key: string)
    ensures k == LowerAll(key) <==> InLowerCase(k, key)
  {
    assert 'A' as int == 65 && 'Z' as int == 90;
    var l := LowerAll(key);
    forall i | 0 <= i < |key|
      ensures l[i] as int == if 65 <= key[i] as int <= 90 then key[i] as int + 32 else key[i] as int
    {
    }
  }

  lemma {:induction false} KeyLetters(s: string, i: nat)
    requires i <= |s|
    ensures forall k | i <= k < KeyEnd(s, i) :: KeyChar(s[k])
    decreases |s| - i
  {
    if i < |s| && KeyChar(s[i]) {
      KeyLetters(s, i + 1);
    }
  }

  /** Where the parts of a composed line stand. */
  lemma Places(line: string, a: string, key: string, b: string, c: string, r: string)
    requires line == a + key + b + ":" + c + r && key != ""
    ensures var i, j, k := |a|, |a| + |key|, |a| + |key| + |b|;
            && k < |line| && line[k] == ':' && line[k + 1 + |c|..] == r && line[i..j] == key && line[i] == key[0]
            && (forall x | 0 <= x < i :: line[x] == a[x]) && (forall x | i <= x < j :: line[x] == key[x - i])
            && (forall x | j <= x < k :: line[x] == b[x - j])
            && (forall x | k + 1 <= x < k + 1 + |c| :: line[x] == c[x - k - 1])
  {
  }

  lemma Parted(line: string, i: nat, j: nat, x: nat, m: nat)
    requires i <= j <= x < m <= |line| && line[x] == ':'
    ensures line == line[0..i] + line[i..j] + line[j..x] + ":" + line[x + 1..m] + line[m..]
  {
  }

  /** A line that is so composed is read as this option. */
  lemma ComposedIsRead(line: string, a: string, key: string, b: string, c: string, v: string, e: string)
    requires Option7(line, a, key, b, c, v, e)
    ensures OptionOf(line) == Some(Setting(LowerAll(key), v))
  {
    var i, j, k := |a|, |a| + |key|, |a| + |key| + |b|;
    var m := k + 1 + |c|;
    hide KeyChar, KeyLetter, Space, LowerAll, SkipSpace, KeyEnd, StripRight, Trimmed;
    assert a + key + b + ":" + c + v + e == a + key + b + ":" + c + (v + e);
    Places(line, a, key, b, c, v + e);
    forall x | 0 <= x < |key|
      ensures KeyChar(key[x])
      ensures !Space(key[x])
    {
      Letters(key[x]);
    }
    SkipSpaceTo(line, 0, i);
    NoKeyBehind(line, j, k);
    KeyEndAt(line, i, j);
    Colon();
    SkipSpaceTo(line, j, k);
    ValueIsRead(line, k + 1, m, v, e);
  }

  lemma Colon()
    ensures !Space(':') && !KeyChar(':')
  {
  }

  lemma NoKeyBehind(line: string, j: nat, k: nat)
    requires j <= k < |line| && line[k] == ':' && forall x | j <= x < k :: Space(line[x])
    ensures !KeyChar(line[j])
  {
    Letters(line[j]);
  }

  lemma ValueIsRead(line: string, n: nat, m: nat, v: string, e: string)
    requires n <= m <= |line| && (forall x | n <= x < m :: Space(line[x])) && line[m..] == v + e && AllSpace(e) && Trimmed(v)
    ensures StripRight(line[SkipSpace(line, n)..]) == v
  {
    if v == "" {
      assert forall x | m <= x < |line| :: line[x] == line[m..][x - m] == e[x - m];
      SkipSpaceTo(line, n, |line|);
    } else {
      assert line[m] == line[m..][0] == v[0];
      SkipSpaceTo(line, n, m);
      StripsTail(v, e);
    }
  }

  /** The pattern of an option: a line is read as this key and value exactly if it is composed of them. */
  lemma OptionExact(line: string, k: string, v: string)
    ensures OptionOf(line) == Some(Setting(k, v)) <==>
            exists a, key, b, c, e :: Option7(line, a, key, b, c, v, e) && InLowerCase(k, key)
  {
    hide SkipSpace, KeyEnd, StripRight, LowerAll, InLowerCase, Option7, OptionOf;
    if OptionOf(line) == Some(Setting(k, v)) {
      var a, key, b, c, e := Decomposed(line, k, v);
      LowerExact(k, key);
    }
    forall a, key, b, c, e | Option7(line, a, key, b, c, v, e) && InLowerCase(k, key)
      ensures OptionOf(line) == Some(Setting(k, v))
    {
      ComposedIsRead(line, a, key, b, c, v, e);
      LowerExact(k, key);
    }
  }

  lemma Decomposed(line: string, k: string, v: string)
    returns (a: string, key: string, b: string, c: string, e: string)
    requires OptionOf(line) == Some(Setting(k, v))
    ensures Option7(line, a, key, b, c, v, e) && k == LowerAll(key)
  {
    hide SkipSpace, KeyEnd, StripRight, LowerAll, KeyChar, KeyLetter, Space, AllSpace, Trimmed;
    var i := SkipSpace(line, 0);
    var j := KeyEnd(line, i);
    var x := SkipSpace(line, j);
    var m := SkipSpace(line, x + 1);
    Skipped(line, 0);
    Skipped(line, j);
    Skipped(line, x + 1);
    KeyLetters(line, i);
    a, key, b, c := line[0..i], line[i..j], line[j..x], line[x + 1..m];
    e := ValueEnds(line[m..], v);
    forall y | 0 <= y < |key|
      ensures KeyLetter(key[y])
    {
      Letters(key[y]);
    }
    Parted(line, i, j, x, m);
    Regroup(a + key + b + ":" + c, v, e);
  }

  lemma ValueEnds(r: string, v: string) returns (e: string)
    requires StripRight(r) == v && (r != "" ==> !Space(r[0]))
    ensures r == v + e && AllSpace(e) && Trimmed(v)
  {
    hide StripRight, Space;
    TailOfStrip(r);
    e := r[|v|..];
  }

  // Titles.

  predicate AllSlashes(s: string) {
    forall i | 0 <= i < |s| :: s[i] == '/'
  }

  /** What stands behind the slashes: a plus sign if expanded, the title, white space. */
  function Behind(h: Heading, e: string): string {
    (if h.expanded then "+" else "") + h.title + e
  }

  /** White space, slashes, and a title that begins with no slash; a plus sign before one is not part of it. */
  predicate Heading4(line: string, h: Heading, a: string, slashes: string, e: string) {
    && line == a + slashes + Behind(h, e) && AllSpace(a) && AllSpace(e)
    && |slashes| == h.level > 0 && AllSlashes(slashes)
    && h.title != "" && h.title[0] != '/' && (|h.title| > 1 ==> !Space(h.title[|h.title| - 1]))
    && (!h.expanded && h.title[0] == '+' ==> h.title + e == "+" || (h.title + e)[1] == '/')
  }

  lemma {:induction false} Slashed(s: string, i: nat)
    requires i <= |s|
    ensures AllSlashes(s[i..SlashEnd(s, i)])
    decreases |s| - i
  {
    if i < |s| && s[i] == '/' {
      Slashed(s, i + 1);
      var e := SlashEnd(s, i);
      assert s[i..e] == [s[i]] + s[i + 1..e];
    }
  }

  /** A title, of which only the part behind its first character is stripped. */
  lemma TitleStrips(t: string, e: string)
    requires t != "" && AllSpace(e) && (|t| > 1 ==> !Space(t[|t| - 1]))
    ensures (t + e)[..1] + StripRight((t + e)[1..]) == t
  {
    assert (t + e)[1..] == t[1..] + e && (t + e)[..1] == t[..1];
    assert t[1..] != "" ==> t[1..][|t| - 2] == t[|t| - 1];
    StripsTail(t[1..], e);
  }

  lemma TitleBack(r: string) returns (e: string)
    requires r != ""
    ensures var t := r[..1] + StripRight(r[1..]);
            r == t + e && AllSpace(e) && (|t| > 1 ==> !Space(t[|t| - 1])) && t != "" && t[0] == r[0]
  {
    hide StripRight, Space;
    TailOfStrip(r[1..]);
    e := r[1..][|StripRight(r[1..])|..];
    assert r == r[..1] + r[1..];
  }

  lemma RestComposed(h: Heading, r: string) returns (e: string)
    requires r != "" && r[0] != '/' && HeadingOfRest(h.level, r) == h
    ensures r == Behind(h, e) && AllSpace(e) && TitleOk(h, e)
  {
    hide StripRight, Space, AllSpace;
    if h.expanded {
      e := TitleBack(r[1..]);
      Plus(r, h.title, e);
    } else {
      e := TitleBack(r);
      NoPlus(h.title, e);
    }
  }

  lemma Plus(r: string, t: string, e: string)
    requires r != "" && r[0] == '+' && r[1..] == t + e
    ensures r == "+" + t + e
  {
  }

  lemma NoPlus(t: string, e: string)
    ensures "" + t + e == t + e
  {
  }

  lemma RestRead(h: Heading, r: string, e: string)
    requires r == Behind(h, e) && AllSpace(e) && TitleOk(h, e)
    ensures r != "" && r[0] != '/' && HeadingOfRest(h.level, r) == h
  {
    TitleStrips(h.title, e);
    hide StripRight, Space, AllSpace;
    var t := h.title + e;
    assert t != "" && t[0] == h.title[0];
    if h.expanded {
      assert r == "+" + t && r[1..] == t;
    } else {
      assert r == t;
    }
  }

  lemma RestLevel(level: nat, r: string)
    requires r != ""
    ensures HeadingOfRest(level, r).level == level
  {
  }

  predicate TitleOk(h: Heading, e: string) {
    && h.title != "" && h.title[0] != '/' && (|h.title| > 1 ==> !Space(h.title[|h.title| - 1]))
    && (!h.expanded && h.title[0] == '+' ==> h.title + e == "+" || (h.title + e)[1] == '/')
  }

  /** The pattern of a title: a line is read as this heading exactly if it is composed of it. */
  lemma HeadingExact(line: string, h: Heading)
    ensures HeadingOf(line) == Some(h) <==> exists a, slashes, e :: Heading4(line, h, a, slashes, e)
  {
    hide SkipSpace, SlashEnd, HeadingOfRest, Space;
    var i := SkipSpace(line, 0);
    var j := SlashEnd(line, i);
    if HeadingOf(line) == Some(h) {
      Skipped(line, 0);
      Slashed(line, i);
      RestLevel(j - i, line[j..]);
      var e := RestComposed(h, line[j..]);
      assert line == line[0..i] + line[i..j] + line[j..];
      assert Heading4(line, h, line[0..i], line[i..j], e);
    }
    forall a, slashes, e | Heading4(line, h, a, slashes, e)
      ensures HeadingOf(line) == Some(h)
    {
      HeadingPlaces(line, h, a, slashes, e);
      RestRead(h, Behind(h, e), e);
    }
  }

  lemma HeadingPlaces(line: string, h: Heading, a: string, slashes: string, e: string)
    requires Heading4(line, h, a, slashes, e)
    ensures SkipSpace(line, 0) == |a| && SlashEnd(line, |a|) == |a| + |slashes| < |line|
    ensures line[|a| + |slashes|..] == Behind(h, e) && Behind(h, e)[0] != '/' && TitleOk(h, e)
  {
    var i, j := |a|, |a| + |slashes|;
    var rest := Behind(h, e);
    assert line[j..] == rest && rest[0] != '/';
    assert forall x | 0 <= x < i :: line[x] == a[x];
    assert forall x | i <= x < j :: line[x] == slashes[x - i];
    assert line[j] == rest[0];
    SkipSpaceTo(line, 0, i);
    SlashEndAt(line, i, j);
  }

  // Machine identities.

  predicate Hexadecimal(c: char) {
    48 <= c as int <= 57 || 65 <= c as int <= 70 || 97 <= c as int <= 102
  }

  /** A text, the key, 32 hexadecimal digits, a text, and no word character at either side of the identity. */
  predicate Identity(s: string, a: string, key: string, digits: string, b: string, word: char -> bool) {
    && s == a + key + digits + b && |digits| == 32 && (forall i | 0 <= i < 32 :: Hexadecimal(digits[i]))
    && (a != "" ==> !word(a[|a| - 1])) && (b != "" ==> !word(b[0]))
  }

  lemma HexExact(c: char)
    ensures HexDigit(c) <==> Hexadecimal(c)
  {
    assert '0' as int == 48 && '9' as int == 57 && 'a' as int == 97 && 'f' as int == 102 && 'A' as int == 65 && 'F' as int == 70;
  }

  lemma IdentityFound(s: string, i: nat, word: char -> bool, key: string)
    requires key == "machine-id=" && MachineAt(s, i, word) && i + 43 <= |s|
    ensures Identity(s, s[..i], key, s[i + 11..i + 43], s[i + 43..], word)
  {
    hide HexDigit, Hexadecimal;
    assert |key| == 11;
    var digits := s[i + 11..i + 43];
    assert s == s[..i] + s[i..i + 11] + digits + s[i + 43..];
    forall k | 0 <= k < 32
      ensures Hexadecimal(digits[k])
    {
      assert digits[k] == s[i + 11 + k];
      HexExact(digits[k]);
    }
  }

  lemma IdentityStands(s: string, a: string, key: string, digits: string, b: string, word: char -> bool)
    requires key == "machine-id=" && Identity(s, a, key, digits, b, word)
    ensures MachineAt(s, |a|, word) && |a| < |s|
  {
    hide HexDigit, Hexadecimal;
    var i := |a|;
    assert |key| == 11 && s[i..i + 11] == key;
    assert i > 0 ==> s[i - 1] == a[i - 1];
    assert b != "" ==> s[i + 43] == b[0];
    forall k | i + 11 <= k < i + 43
      ensures HexDigit(s[k])
    {
      assert s[k] == digits[k - i - 11];
      HexExact(s[k]);
    }
  }

  /** An identity stands at i exactly if the text is so composed, with i characters before it. */
  lemma MachineAtExact(s: string, i: nat, word: char -> bool, key: string)
    requires key == "machine-id="
    ensures MachineAt(s, i, word) <==> exists a, digits, b :: |a| == i && Identity(s, a, key, digits, b, word)
  {
    hide MachineAt, Identity;
    if MachineAt(s, i, word) {
      MachineInside(s, i, word);
      IdentityFound(s, i, word, key);
      assert |s[..i]| == i;
    }
    forall a, digits, b | |a| == i && Identity(s, a, key, digits, b, word)
      ensures MachineAt(s, i, word)
    {
      IdentityStands(s, a, key, digits, b, word);
    }
  }

  lemma MachineInside(s: string, i: nat, word: char -> bool)
    requires MachineAt(s, i, word)
    ensures i + 43 <= |s|
  {
  }

  /** A value names a machine exactly if an identity stands in it as a word of its own. */
  lemma NamesMachineExact(value: string, word: char -> bool, key: string)
    requires key == "machine-id="
    ensures NamesMachine(value, word) <==> exists a, digits, b :: Identity(value, a, key, digits, b, word)
  {
    hide MachineAt, Identity;
    if NamesMachine(value, word) {
      var i: nat :| i < |value| && MachineAt(value, i, word);
      MachineInside(value, i, word);
      IdentityFound(value, i, word, key);
    }
    forall a, digits, b | Identity(value, a, key, digits, b, word)
      ensures NamesMachine(value, word)
    {
      IdentityStands(value, a, key, digits, b, word);
    }
  }

  // Sizes.

  /** How many characters have at least this code point. */
  function From(s: string, code: int): nat {
    if s == "" then 0 else (if s[0] as int >= code then 1 else 0) + From(s[1..], code)
  }

  /** A character takes one byte, and one more from each of three code points on. */
  lemma {:induction false} Utf8Exact(s: string)
    ensures Utf8Length(s) == |s| + From(s, 128) + From(s, 2048) + From(s, 65536)
  {
    if s != "" {
      Utf8Exact(s[1..]);
    }
  }

  // The patterns of the rebinding.

  /** White space and something that begins with a slash. */
  lemma EndsExact(line: string)
    ensures EndsGroup(line) <==> exists a, rest :: AllSpace(a) && line == a + "/" + rest
  {
    hide SkipSpace, Space;
    var i := SkipSpace(line, 0);
    Skipped(line, 0);
    if EndsGroup(line) {
      assert line == line[0..i] + "/" + line[i + 1..];
    }
    forall a, rest | AllSpace(a) && line == a + "/" + rest
      ensures i == |a| && EndsGroup(line)
    {
      SlashBehind(line, a, rest);
    }
  }

  lemma SlashBehind(line: string, a: string, rest: string)
    requires AllSpace(a) && line == a + "/" + rest
    ensures SkipSpace(line, 0) == |a| < |line| && line[|a|] == '/' && line[|a| + 1..] == rest
  {
    assert forall x | 0 <= x < |a| :: line[x] == a[x];
    assert line[|a|] == '/';
    SkipSpaceTo(line, 0, |a|);
  }

  predicate Root(line: string, a: string, plus: string, title: string, b: string) {
    line == a + "/" + (plus + title + b) && AllSpace(a) && AllSpace(b) && (plus == "" || plus == "+")
  }

  /** The heading of the managed group, written with or without its plus sign. */
  lemma RootExact(line: string, title: string)
    requires title == "Advanced Omarchy options"
    ensures IsRootLine(line) <==> exists a, plus, b :: Root(line, a, plus, title, b)
  {
    hide SkipSpace, Space;
    assert title[0] == 'A';
    var i := SkipSpace(line, 0);
    Skipped(line, 0);
    if IsRootLine(line) {
      var plus := if i + 1 < |line| && line[i + 1] == '+' then "+" else "";
      var rest := line[i + 1 + |plus|..];
      RootParts(line, i, plus, title, rest);
      assert Root(line, line[0..i], plus, title, rest[|title|..]);
    }
    forall a, plus, b | Root(line, a, plus, title, b)
      ensures IsRootLine(line)
    {
      SlashBehind(line, a, plus + title + b);
      RootBehind(line, |a| + 1, plus, title, b);
    }
  }

  lemma RootParts(line: string, i: nat, plus: string, title: string, rest: string)
    requires i < |line| && line[i] == '/' && i + 1 + |plus| <= |line| && line[i + 1..i + 1 + |plus|] == plus
    requires rest == line[i + 1 + |plus|..] && |title| <= |rest| && rest[..|title|] == title
    ensures line == line[0..i] + "/" + (plus + title + rest[|title|..])
  {
    assert line == line[0..i] + "/" + (plus + rest);
    assert rest == title + rest[|title|..];
    Regroup(plus, title, rest[|title|..]);
  }

  lemma RootBehind(line: string, n: nat, plus: string, title: string, b: string)
    requires n <= |line| && line[n..] == plus + title + b && title != "" && title[0] == 'A' && (plus == "" || plus == "+")
    ensures (n < |line| && line[n] == '+') <==> plus == "+"
    ensures var rest := line[n + |plus|..]; |title| <= |rest| && rest[..|title|] == title && rest[|title|..] == b
  {
    assert line[n] == line[n..][0];
    assert line[n + |plus|..] == title + b;
  }

  /** Thirty-two digits, the letters among them small. */
  lemma MachineIdExact(m: string)
    ensures MachineId(m) <==> |m| == 32 && forall i | 0 <= i < 32 :: 48 <= m[i] as int <= 57 || 97 <= m[i] as int <= 102
  {
    assert '0' as int == 48 && '9' as int == 57 && 'a' as int == 97 && 'f' as int == 102;
  }

  /** The text that passes without a group: the template itself, not blank, supported and without any heading. */
  lemma TemplateExact(text: string, template: Option<string>)
    ensures IsResetTemplate(text, template) <==>
            && template == Some(text) && (exists i | 0 <= i < |text| :: !Space(text[i]))
            && '\0' !in text && Utf8Length(text) <= 4194304
            && forall line | line in SplitLines(text) :: !EndsGroup(line)
  {
    hide Space, EndsGroup, SplitLines, Utf8Length;
  }
}
