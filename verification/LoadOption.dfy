// UEFI load options: section 3.1.3 of the UEFI Specification 2.10, with the Hard Drive and File
// Path nodes of its sections 10.3.5.1 and 10.3.5.4.
module LoadOption {
  import opened Bytes
  import opened Framing
  import opened GptTable
  import opened DevicePath

  // The option that the installer writes.

  predicate TargetOk(partition: int32, start: int64, esp: Guid) {
    1 <= partition && esp != EMPTY_GUID && Aligned(start, ESP_SIZE)
  }

  /** Seven-bit characters, none of them the terminator. */
  predicate Plain(text: string) {
    forall i :: 0 <= i < |text| ==> 0 as char < text[i] < 128 as char
  }

  function Loader(): (text: string)
    ensures Plain(text) && |text| == 21
  {
    "\\EFI\\BOOT\\BOOTX64.EFI"
  }

  function Title(): (text: string)
    ensures Plain(text) && |text| == 27
  {
    "Omarchy temporary installer"
  }

  function LoaderBytes(): (b: seq<byte>)
    ensures |b| == 44
  {
    hide Loader;
    Utf16(Loader()) + [0, 0]
  }

  function TitleBytes(): (b: seq<byte>)
    ensures |b| == 54
  {
    hide Title;
    Utf16(Title())
  }

  function Sectors(start: int64): int64 {
    start / 512
  }

  function HardDriveNode(partition: int32, start: int64, esp: Guid): seq<byte> {
    hide LE16, LE32, LE64, Sectors;
    [4, 1] + LE16(42) + LE32(partition) + LE64(Sectors(start)) + LE64(Sectors(ESP_SIZE)) + esp + [2, 2]
  }

  function FileNode(): seq<byte> {
    hide LE16, LoaderBytes;
    [4, 4] + LE16(48) + LoaderBytes()
  }

  function BuiltPath(partition: int32, start: int64, esp: Guid): (p: seq<byte>)
    ensures |p| == 94
  {
    hide LE16, LE32, LE64, Sectors, LoaderBytes;
    HardDriveNode(partition, start, esp) + FileNode() + [127, 255, 4, 0]
  }

  function BuiltOption(partition: int32, start: int64, esp: Guid): seq<byte> {
    hide LE32, LE16, TitleBytes, BuiltPath;
    LE32(1) + LE16(94) + (TitleBytes() + [0, 0]) + BuiltPath(partition, start, esp)
  }

  /** Puts v right behind the bytes written so far. */
  method PutNext(b: array<byte>, at: nat, v: seq<byte>, ghost written: seq<byte>)
    requires at == |written| && at + |v| <= b.Length && b[..at] == written
    modifies b
    ensures b[..at + |v|] == written + v
  {
    Put(b, at, v);
    ghost var now := b[..at + |v|];
    forall k | 0 <= k < |now|
      ensures now[k] == (written + v)[k]
    {
    }
  }

  /** The device path, patched together in place. */
  method BuildPath(partition: int32, start: int64, esp: Guid) returns (dp: array<byte>)
    ensures fresh(dp) && dp[..] == BuiltPath(partition, start, esp)
  {
    hide LoaderBytes, LE16, LE32, LE64, HardDriveNode;
    var path := LoaderBytes();
    dp := new byte[42 + 4 + |path| + 4](_ => 0);
    PutDrive(dp, partition, start, esp);
    ghost var w := HardDriveNode(partition, start, esp);
    PutNext(dp, 42, [4, 4], w);
    PutNext(dp, 44, LE16(4 + |path|), w + [4, 4]);
    PutNext(dp, 46, path, w + [4, 4] + LE16(48));
    w := w + [4, 4] + LE16(48) + path;
    assert w == HardDriveNode(partition, start, esp) + FileNode();
    PutNext(dp, dp.Length - 4, [127, 255, 4, 0], w);
    assert dp[..] == dp[..94];
  }

  /** The first node of the path. */
  method PutDrive(dp: array<byte>, partition: int32, start: int64, esp: Guid)
    requires 42 <= dp.Length
    modifies dp
    ensures dp[..42] == HardDriveNode(partition, start, esp)
  {
    hide LE16, LE32, LE64, Sectors;
    ghost var w: seq<byte> := [];
    PutNext(dp, 0, [4, 1], w);
    w := w + [4, 1];
    PutNext(dp, 2, LE16(42), w);
    w := w + LE16(42);
    PutNext(dp, 4, LE32(partition), w);
    w := w + LE32(partition);
    PutNext(dp, 8, LE64(Sectors(start)), w);
    w := w + LE64(Sectors(start));
    PutNext(dp, 16, LE64(Sectors(ESP_SIZE)), w);
    w := w + LE64(Sectors(ESP_SIZE));
    PutNext(dp, 24, esp, w);
    w := w + esp;
    PutNext(dp, 40, [2, 2], w);
    w := w + [2, 2];
  }

  method StagingBootOption(partition: int32, start: int64, esp: Guid) returns (r: Result<array<byte>>)
    ensures r.Ok? <==> Installable(partition, start, esp)
    ensures r.Ok? ==> fresh(r.value) && StagingOption(r.value[..], partition, start, esp)
    ensures r.Ok? ==> r.value[..] == BuiltOption(partition, start, esp)
  {
    hide BuiltOption, OptionFields, Installable;
    InstallableExact(partition, start, esp);
    if !TargetOk(partition, start, esp) {
      return Err("Invalid staging EFI target");
    }
    BuiltFields(BuiltOption(partition, start, esp), partition, start, esp, "Omarchy temporary installer",
                "\\EFI\\BOOT\\BOOTX64.EFI", 1, 94, 48);
    var option := BuildOption(partition, start, esp);
    return Ok(option);
  }

  method BuildOption(partition: int32, start: int64, esp: Guid) returns (result: array<byte>)
    ensures fresh(result) && result[..] == BuiltOption(partition, start, esp)
  {
    hide TitleBytes, LE16, LE32, BuiltPath;
    var dp := BuildPath(partition, start, esp);
    var desc := TitleBytes() + [0, 0];
    result := new byte[6 + |desc| + dp.Length](_ => 0);
    PutNext(result, 0, LE32(1), []);
    PutNext(result, 4, LE16(dp.Length), LE32(1));
    PutNext(result, 6, desc, LE32(1) + LE16(94));
    PutNext(result, 6 + |desc|, dp[..], LE32(1) + LE16(94) + desc);
    assert result[..] == result[..result.Length];
  }

  // Reading the path out of any option.

  /** The offset of the first empty UTF-16 unit at or after i, or the end. */
  function DescriptionEnd(o: seq<byte>, i: nat): (e: nat)
    ensures i <= e && (e + 1 < |o| ==> o[e] == 0 && o[e + 1] == 0)
    decreases |o| - i
  {
    if i + 1 < |o| && (o[i] != 0 || o[i + 1] != 0) then DescriptionEnd(o, i + 2) else i
  }

  function PathOf(o: seq<byte>): Option<seq<byte>> {
    if |o| < 8 then None
    else
      var length, i := U16(o, 4), DescriptionEnd(o, 6) + 2;
      if length == 0 || i + length > |o| then None else Some(o[i..i + length])
  }

  method LoadOptionPath(o: seq<byte>) returns (r: Option<seq<byte>>)
    ensures r == PathOf(o)
  {
    if |o| < 8 {
      return None;
    }
    var length, i := U16(o, 4), 6;
    while i + 1 < |o| && (o[i] != 0 || o[i + 1] != 0)
      invariant 6 <= i && DescriptionEnd(o, i) == DescriptionEnd(o, 6)
      decreases |o| - i
    {
      i := i + 2;
    }
    i := i + 2;
    return if length == 0 || i + length > |o| then None else Some(o[i..i + length]);
  }

  /** A description holds no empty unit. */
  predicate Description(d: seq<byte>) {
    |d| % 2 == 0 && forall k | 0 <= k < |d| / 2 :: d[2 * k] != 0 || d[2 * k + 1] != 0
  }

  /** An option with the given attributes, description, device path and optional data. */
  function EncodeOption(attributes: seq<byte>, description: seq<byte>, path: seq<byte>, rest: seq<byte>): seq<byte>
    requires |path| < 0x1_0000
  {
    attributes + LE16(|path|) + description + [0, 0] + path + rest
  }

  predicate Parts(attributes: seq<byte>, description: seq<byte>, path: seq<byte>) {
    |attributes| == 4 && Description(description) && 0 < |path| < 0x1_0000
  }

  lemma {:induction false} EndOfDescription(o: seq<byte>, i: nat, d: seq<byte>)
    requires Description(d) && i + |d| + 2 <= |o|
    requires o[i..i + |d|] == d && o[i + |d|] == 0 && o[i + |d| + 1] == 0
    ensures DescriptionEnd(o, i) == i + |d|
    decreases |d|
  {
    if |d| > 0 {
      assert d[0] != 0 || d[1] != 0 by { assert d[2 * 0] != 0 || d[2 * 0 + 1] != 0; }
      assert o[i] == o[i..i + |d|][0] && o[i + 1] == o[i..i + |d|][1];
      SliceOfSlice(o, i, i + |d|, 2, |d|);
      assert d[2..] == o[i + 2..i + |d|];
      var t := d[2..];
      forall k | 0 <= k < |t| / 2
        ensures t[2 * k] != 0 || t[2 * k + 1] != 0
      {
        assert d[2 * (k + 1)] == t[2 * k] && d[2 * (k + 1) + 1] == t[2 * k + 1];
      }
      EndOfDescription(o, i + 2, t);
    }
  }

  lemma {:induction false} DescriptionBefore(o: seq<byte>, i: nat)
    requires DescriptionEnd(o, i) + 1 < |o|
    ensures Description(o[i..DescriptionEnd(o, i)])
    decreases |o| - i
  {
    var e := DescriptionEnd(o, i);
    if i < e {
      assert DescriptionEnd(o, i + 2) == e;
      DescriptionBefore(o, i + 2);
      var d, t := o[i..e], o[i + 2..e];
      assert d[0] == o[i] && d[1] == o[i + 1];
      forall k | 0 <= k < |d| / 2
        ensures d[2 * k] != 0 || d[2 * k + 1] != 0
      {
        if k > 0 {
          assert d[2 * k] == t[2 * (k - 1)] && d[2 * k + 1] == t[2 * (k - 1) + 1];
        }
      }
    }
  }

  /** Where an option stands, its parts stand in their places. */
  lemma OptionStands(o: seq<byte>, attributes: seq<byte>, description: seq<byte>, path: seq<byte>, rest: seq<byte>)
    requires Parts(attributes, description, path)
    ensures Stands(o, 0, EncodeOption(attributes, description, path, rest)) <==>
            var n := 6 + |description|;
            && Stands(o, 0, attributes) && Stands(o, 4, LE16(|path|)) && Stands(o, 6, description)
            && Stands(o, n, [0, 0]) && Stands(o, n + 2, path) && Stands(o, n + 2 + |path|, rest)
  {
    hide LE16, Stands, Description;
    var length := LE16(|path|);
    StandsSplit(o, 0, attributes + length + description + [0, 0] + path, rest);
    StandsSplit(o, 0, attributes + length + description + [0, 0], path);
    StandsSplit(o, 0, attributes + length + description, [0, 0]);
    StandsSplit(o, 0, attributes + length, description);
    StandsSplit(o, 0, attributes, length);
  }

  /** Whatever the attributes, the description and the trailing data, the reader finds the device path. */
  lemma PathOfEncoded(attributes: seq<byte>, description: seq<byte>, path: seq<byte>, rest: seq<byte>)
    requires Parts(attributes, description, path)
    ensures PathOf(EncodeOption(attributes, description, path, rest)) == Some(path)
  {
    var o := EncodeOption(attributes, description, path, rest);
    var n := 6 + |description|;
    assert Stands(o, 0, o);
    OptionStands(o, attributes, description, path, rest);
    hide EncodeOption, LE16;
    StandsU16(o, 4, |path|);
    StandsMeans(o, 6, description);
    StandsMeans(o, n + 2, path);
    hide Stands, U16, Description;
    EndOfDescription(o, 6, description);
  }

  lemma EncodedAgain(o: seq<byte>, path: seq<byte>) returns (attributes: seq<byte>, description: seq<byte>, rest: seq<byte>)
    requires PathOf(o) == Some(path)
    ensures Parts(attributes, description, path) && o == EncodeOption(attributes, description, path, rest)
  {
    var e := DescriptionEnd(o, 6);
    DescriptionBefore(o, 6);
    attributes, description, rest := o[..4], o[6..e], o[e + 2 + |path|..];
    EncodedParts(o, path, e, attributes, description, rest);
  }

  lemma EncodedParts(o: seq<byte>, path: seq<byte>, e: nat, attributes: seq<byte>, description: seq<byte>, rest: seq<byte>)
    requires Parts(attributes, description, path) && 6 <= e && e + 2 + |path| <= |o|
    requires attributes == o[..4] && U16(o, 4) == |path| && description == o[6..e] && o[e] == 0 && o[e + 1] == 0
    requires path == o[e + 2..e + 2 + |path|] && rest == o[e + 2 + |path|..]
    ensures o == EncodeOption(attributes, description, path, rest)
  {
    hide LE16, U16, Description, EncodeOption, Stands;
    StandsU16(o, 4, |path|);
    StandsMeans(o, 0, attributes);
    StandsMeans(o, 6, description);
    StandsMeans(o, e, [0, 0]);
    assert o[e..e + 2] == [0, 0];
    StandsMeans(o, e + 2, path);
    StandsMeans(o, e + 2 + |path|, rest);
    OptionStands(o, attributes, description, path, rest);
    EncodedLength(attributes, description, path, rest);
    WholeStands(o, EncodeOption(attributes, description, path, rest));
  }

  lemma WholeStands(o: seq<byte>, x: seq<byte>)
    requires Stands(o, 0, x) && |x| == |o|
    ensures o == x
  {
    assert o[0..|o|] == o;
  }

  lemma EncodedLength(attributes: seq<byte>, description: seq<byte>, path: seq<byte>, rest: seq<byte>)
    requires |path| < 0x1_0000
    ensures |EncodeOption(attributes, description, path, rest)| == |attributes| + 4 + |description| + |path| + |rest|
  {
    hide LE16;
  }

  /** The reader finds a path exactly in the options that have it. */
  lemma PathOfExact(o: seq<byte>, path: seq<byte>)
    ensures PathOf(o) == Some(path) <==>
            exists attributes, description, rest ::
              Parts(attributes, description, path) && o == EncodeOption(attributes, description, path, rest)
  {
    hide PathOf, EncodeOption;
    if PathOf(o) == Some(path) {
      var attributes, description, rest := EncodedAgain(o, path);
    }
    forall attributes, description, rest |
      Parts(attributes, description, path) && o == EncodeOption(attributes, description, path, rest)
      ensures PathOf(o) == Some(path)
    {
      PathOfEncoded(attributes, description, path, rest);
    }
  }

  /** Firmware may rewrite the rest of an entry; it is ours while it loads the same file from the same partition. */
  predicate SameStagingTarget(actual: seq<byte>, option: seq<byte>) {
    PathOf(actual).Some? && PathOf(actual) == PathOf(option)
  }

  lemma TitleIsDescription()
    ensures Description(TitleBytes())
  {
    hide Title;
    var d := TitleBytes();
    forall k | 0 <= k < |d| / 2
      ensures d[2 * k] != 0 || d[2 * k + 1] != 0
    {
      assert d[2 * k] == Title()[k] as int;
    }
  }

  lemma BuiltIsEncoded(partition: int32, start: int64, esp: Guid, active: int32, title: seq<byte>, path: seq<byte>)
    requires active == 1 && title == TitleBytes() && |path| == 94 && path == BuiltPath(partition, start, esp)
    ensures Parts(LE32(active), title, path)
    ensures BuiltOption(partition, start, esp) == EncodeOption(LE32(active), title, path, [])
  {
    hide TitleBytes, LE16, LE32, BuiltPath, Description;
    TitleIsDescription();
    var a := LE32(1) + LE16(94);
    assert a + (title + [0, 0]) == a + title + [0, 0];
    assert a + title + [0, 0] + path + [] == a + title + [0, 0] + path;
  }

  /** The fields of a Hard Drive node, each in its place. */
  predicate DriveFields(b: seq<byte>, at: nat, p: int32, s: int64, g: Guid) {
    && Stands(b, at, [4, 1]) && Stands(b, at + 2, LE16(42)) && Stands(b, at + 4, LE32(p))
    && Stands(b, at + 8, LE64(Sectors(s))) && Stands(b, at + 16, LE64(Sectors(ESP_SIZE)))
    && Stands(b, at + 24, g) && Stands(b, at + 40, [2, 2])
  }

  lemma HardDriveStands(b: seq<byte>, at: nat, p: int32, s: int64, g: Guid)
    ensures Stands(b, at, HardDriveNode(p, s, g)) <==> DriveFields(b, at, p, s, g)
  {
    hide LE16, LE32, LE64, Stands, Sectors;
    var h, l, n, o, z := [4, 1], LE16(42), LE32(p), LE64(Sectors(s)), LE64(Sectors(ESP_SIZE));
    StandsSplit(b, at, h + l + n + o + z + g, [2, 2]);
    StandsSplit(b, at, h + l + n + o + z, g);
    StandsSplit(b, at, h + l + n + o, z);
    StandsSplit(b, at, h + l + n, o);
    StandsSplit(b, at, h + l, n);
    StandsSplit(b, at, h, l);
  }

  lemma PathStartsWithDrive(p: int32, s: int64, g: Guid)
    ensures DriveFields(BuiltPath(p, s, g), 0, p, s, g)
  {
    hide LE16, LE32, LE64, Sectors, HardDriveNode, FileNode, DriveFields;
    var x := BuiltPath(p, s, g);
    assert Stands(x, 0, x);
    StandsSplit(x, 0, HardDriveNode(p, s, g) + FileNode(), [127, 255, 4, 0]);
    StandsSplit(x, 0, HardDriveNode(p, s, g), FileNode());
    HardDriveStands(x, 0, p, s, g);
  }

  /** The text stands there, each character as two bytes. */
  predicate Spells(b: seq<byte>, at: nat, text: string) {
    at + 2 * |text| <= |b| && forall i | 0 <= i < |text| :: b[at + 2 * i] == text[i] as int && b[at + 2 * i + 1] == 0
  }

  /** Every byte of the option for a partition of 512 MiB. */
  predicate OptionFields(o: seq<byte>, partition: int32, start: int64, esp: Guid, title: string, loader: string) {
    && |o| == 156 && I32(o, 0) == 1 && U16(o, 4) == 94 && |title| == 27 && |loader| == 21
    && Spells(o, 6, title) && o[60..66] == [0, 0, 4, 1, 42, 0]
    && I32(o, 66) == partition && 512 * I64(o, 70) == start && I64(o, 78) == 1048576 && o[86..102] == esp
    && o[102..108] == [2, 2, 4, 4, 48, 0] && Spells(o, 108, loader) && o[150..156] == [0, 0, 127, 255, 4, 0]
  }

  predicate StagingOption(o: seq<byte>, partition: int32, start: int64, esp: Guid) {
    OptionFields(o, partition, start, esp, "Omarchy temporary installer", "\\EFI\\BOOT\\BOOTX64.EFI")
  }

  /** A partition with a number and an identifier whose 512 MiB begin on a MiB after the first one. */
  predicate Installable(partition: int32, start: int64, esp: Guid) {
    && 1 <= partition && (exists i | 0 <= i < 16 :: esp[i] != 0)
    && 1048576 <= start && start % 1048576 == 0 && start + 536870912 < 0x8000_0000_0000_0000
  }

  lemma InstallableExact(partition: int32, start: int64, esp: Guid)
    ensures TargetOk(partition, start, esp) <==> Installable(partition, start, esp)
  {
  }

  lemma SpellsUtf16(b: seq<byte>, at: nat, text: string)
    requires Plain(text) && Stands(b, at, Utf16(text))
    ensures Spells(b, at, text)
  {
    hide Utf16;
    var x := Utf16(text);
    forall i | 0 <= i < |text|
      ensures b[at + 2 * i] == text[i] as int && b[at + 2 * i + 1] == 0
    {
      assert b[at..at + |x|][2 * i] == x[2 * i] && b[at..at + |x|][2 * i + 1] == x[2 * i + 1];
    }
  }

  lemma NodeLengths(p: int32, s: int64, g: Guid)
    ensures |HardDriveNode(p, s, g)| == 42 && |FileNode()| == 48
  {
    hide LE16, LE32, LE64, LoaderBytes, Sectors;
  }

  /** The parts of the option, each in its place. */
  lemma BuiltParts(o: seq<byte>, a: seq<byte>, l: seq<byte>, t: seq<byte>, d: seq<byte>, f: seq<byte>)
    requires |a| == 4 && |l| == 2 && |t| == 54 && |d| == 42 && |f| == 48
    requires o == a + l + (t + [0, 0]) + (d + f + [127, 255, 4, 0])
    ensures |o| == 156 && Stands(o, 0, a) && Stands(o, 4, l) && Stands(o, 6, t) && Stands(o, 60, [0, 0])
    ensures Stands(o, 62, d) && Stands(o, 104, f) && Stands(o, 152, [127, 255, 4, 0])
  {
    hide Stands;
    StandsMeans(o, 0, o);
    StandsSplit(o, 0, a + l + (t + [0, 0]), d + f + [127, 255, 4, 0]);
    StandsSplit(o, 0, a + l, t + [0, 0]);
    StandsSplit(o, 0, a, l);
    StandsSplit(o, 6, t, [0, 0]);
    StandsSplit(o, 62, d + f, [127, 255, 4, 0]);
    StandsSplit(o, 62, d, f);
  }

  /** The parts of the file node, each in its place. */
  lemma FileParts(o: seq<byte>, l: seq<byte>, u: seq<byte>)
    requires |l| == 2 && |u| == 42 && Stands(o, 104, [4, 4] + l + (u + [0, 0]))
    ensures Stands(o, 104, [4, 4]) && Stands(o, 106, l) && Stands(o, 108, u) && Stands(o, 150, [0, 0])
  {
    hide Stands;
    StandsSplit(o, 104, [4, 4] + l, u + [0, 0]);
    StandsSplit(o, 104, [4, 4], l);
    StandsSplit(o, 108, u, [0, 0]);
  }

  lemma TitleText(title: string)
    requires title == Title()
    ensures |title| == 27 && Plain(title) && TitleBytes() == Utf16(title)
  {
    hide Title, Utf16;
  }

  lemma LoaderText(loader: string, length: nat)
    requires loader == Loader() && length == 48
    ensures |loader| == 21 && Plain(loader) && FileNode() == [4, 4] + LE16(length) + (Utf16(loader) + [0, 0])
  {
    hide Loader, Utf16, LE16;
  }

  lemma BuiltNumbers(o: seq<byte>, p: int32, s: int64, g: Guid, active: int32, length: nat)
    requires |o| == 156 && active == 1 && length == 94 && MIB <= s && s % MIB == 0
    requires Stands(o, 0, LE32(active)) && Stands(o, 4, LE16(length)) && DriveFields(o, 62, p, s, g)
    ensures I32(o, 0) == 1 && U16(o, 4) == 94
    ensures I32(o, 66) == p && 512 * I64(o, 70) == s && I64(o, 78) == 1048576 && o[86..102] == g
  {
    hide LE16, LE32, LE64, Sectors, I32, I64, U16;
    StandsU16(o, 4, length);
    Read32(o, 0, active);
    Read32(o, 66, p);
    Read64(o, 70, Sectors(s));
    Read64(o, 78, Sectors(ESP_SIZE));
    WholeSectors(s);
    WholeSectors(ESP_SIZE);
  }

  /** The type and length bytes between the fields. */
  lemma BuiltMarks(o: seq<byte>, p: int32, s: int64, g: Guid, length: nat)
    requires |o| == 156 && length == 48 && DriveFields(o, 62, p, s, g)
    requires Stands(o, 60, [0, 0]) && Stands(o, 104, [4, 4]) && Stands(o, 106, LE16(length))
    requires Stands(o, 150, [0, 0]) && Stands(o, 152, [127, 255, 4, 0])
    ensures o[60..66] == [0, 0, 4, 1, 42, 0] && o[102..108] == [2, 2, 4, 4, 48, 0] && o[150..156] == [0, 0, 127, 255, 4, 0]
  {
    hide LE32, LE64, Sectors;
    assert o[60..66] == o[60..62] + o[62..64] + o[64..66];
    assert o[102..108] == o[102..104] + o[104..106] + o[106..108];
    assert o[150..156] == o[150..152] + o[152..156];
  }

  lemma BuiltFields(o: seq<byte>, p: int32, s: int64, g: Guid, title: string, loader: string, one: int32, whole: nat, file: nat)
    requires TargetOk(p, s, g) && title == Title() && loader == Loader() && o == BuiltOption(p, s, g)
    requires one == 1 && whole == 94 && file == 48
    ensures OptionFields(o, p, s, g, title, loader)
  {
    hide LE32, LE16, LE64, TitleBytes, HardDriveNode, FileNode, Sectors, Spells, I32, I64, U16, Title, Loader, Stands,
         DriveFields, Utf16;
    NodeLengths(p, s, g);
    TitleText(title);
    LoaderText(loader, file);
    var t, d, f := Utf16(title), HardDriveNode(p, s, g), FileNode();
    assert o == LE32(one) + LE16(whole) + (t + [0, 0]) + (d + f + [127, 255, 4, 0]);
    BuiltParts(o, LE32(one), LE16(whole), t, d, f);
    HardDriveStands(o, 62, p, s, g);
    FileParts(o, LE16(file), Utf16(loader));
    SpellsUtf16(o, 6, title);
    SpellsUtf16(o, 108, loader);
    BuiltNumbers(o, p, s, g, one, whole);
    BuiltMarks(o, p, s, g, file);
  }

  /** The fields determine what they were written from. */
  lemma DriveInjective(x: seq<byte>, p: int32, s: int64, g: Guid, p': int32, s': int64, g': Guid)
    requires DriveFields(x, 0, p, s, g) && DriveFields(x, 0, p', s', g')
    ensures p == p' && Sectors(s) == Sectors(s') && g == g'
  {
    hide LE16, LE32, LE64, Sectors;
    StandsUnique(x, 4, LE32(p), LE32(p'));
    StandsUnique(x, 8, LE64(Sectors(s)), LE64(Sectors(s')));
    StandsUnique(x, 24, g, g');
    hide Stands, I32, I64;
    assert I32(LE32(p), 0) == p && I32(LE32(p'), 0) == p';
    assert I64(LE64(Sectors(s)), 0) == Sectors(s) && I64(LE64(Sectors(s')), 0) == Sectors(s');
  }

  lemma BuiltPathInjective(p: int32, s: int64, g: Guid, p': int32, s': int64, g': Guid)
    requires TargetOk(p, s, g) && TargetOk(p', s', g')
    requires BuiltPath(p, s, g) == BuiltPath(p', s', g')
    ensures p == p' && s == s' && g == g'
  {
    hide BuiltPath, DriveFields;
    PathStartsWithDrive(p, s, g);
    PathStartsWithDrive(p', s', g');
    DriveInjective(BuiltPath(p, s, g), p, s, g, p', s', g');
    WholeSectors(s);
    WholeSectors(s');
  }

  lemma WholeSectors(s: int64)
    requires MIB <= s && s % MIB == 0
    ensures s == 512 * Sectors(s)
  {
  }

  lemma BuiltTarget(p: int32, s: int64, g: Guid)
    ensures PathOf(BuiltOption(p, s, g)) == Some(BuiltPath(p, s, g))
  {
    hide BuiltPath, LE32, TitleBytes, EncodeOption, PathOf;
    BuiltIsEncoded(p, s, g, 1, TitleBytes(), BuiltPath(p, s, g));
    PathOfEncoded(LE32(1), TitleBytes(), BuiltPath(p, s, g), []);
  }

  /** Two built options name the same target exactly when partition, start and identifier agree. */
  lemma SameTargetOfBuilt(p: int32, s: int64, g: Guid, p': int32, s': int64, g': Guid)
    requires TargetOk(p, s, g) && TargetOk(p', s', g')
    ensures SameStagingTarget(BuiltOption(p, s, g), BuiltOption(p', s', g')) <==> p == p' && s == s' && g == g'
  {
    hide BuiltPath, BuiltOption, PathOf;
    BuiltTarget(p, s, g);
    BuiltTarget(p', s', g');
    if BuiltPath(p, s, g) == BuiltPath(p', s', g') {
      BuiltPathInjective(p, s, g, p', s', g');
    }
  }

  /** An entry still targets a built option exactly when it is some option around the same device path. */
  lemma SurvivesRewriting(actual: seq<byte>, p: int32, s: int64, g: Guid)
    ensures SameStagingTarget(actual, BuiltOption(p, s, g)) <==>
            exists attributes, description, rest ::
              && Parts(attributes, description, BuiltPath(p, s, g))
              && actual == EncodeOption(attributes, description, BuiltPath(p, s, g), rest)
  {
    hide BuiltPath, BuiltOption, PathOf, EncodeOption;
    BuiltTarget(p, s, g);
    PathOfExact(actual, BuiltPath(p, s, g));
  }

  /** The boot log acceptor takes such a hard drive node for this very partition. */
  lemma DriveAccepted(x: seq<byte>, p: int32, s: int64, g: Guid)
    requires TargetOk(p, s, g) && DriveFields(x, 0, p, s, g)
    ensures NodeAhead(x, 0)
    ensures IsPartition(NodeAt(x, 0)) && NodeOk(NodeAt(x, 0), Target(g, p, s, ESP_SIZE))
  {
    hide LE16, LE32, LE64, U16, U64, I32, I64, Sectors, SectorWord;
    StandsU16(x, 2, 42);
    PayloadFields(x, p, s, g);
    var d := x[4..42];
    WordIsSectors(s);
    WordIsSectors(ESP_SIZE);
    Unsigned64(d, 4);
    Unsigned64(d, 12);
  }

  lemma WordIsSectors(s: int64)
    requires 0 <= s
    ensures SectorWord(s) == Sectors(s) >= 0
  {
  }

  lemma PayloadFields(x: seq<byte>, p: int32, s: int64, g: Guid)
    requires DriveFields(x, 0, p, s, g)
    ensures var d := x[4..42];
            && I32(d, 0) == p && I64(d, 4) == Sectors(s) && I64(d, 12) == Sectors(ESP_SIZE)
            && d[20..36] == g && d[36] == 2 && d[37] == 2
  {
    hide LE16, LE32, LE64, I32, I64, Sectors;
    var d := x[4..42];
    SliceOfSlice(x, 4, 42, 0, 4);
    SliceOfSlice(x, 4, 42, 4, 12);
    SliceOfSlice(x, 4, 42, 12, 20);
    SliceOfSlice(x, 4, 42, 20, 36);
    assert d[36] == x[40..42][0] && d[37] == x[40..42][1];
    Read32(d, 0, p);
    Read64(d, 4, Sectors(s));
    Read64(d, 12, Sectors(ESP_SIZE));
  }

  lemma Unsigned64(b: seq<byte>, p: nat)
    requires p + 8 <= |b| && I64(b, p) >= 0
    ensures U64(b, p) == I64(b, p)
  {
  }
}
