// Which device paths the boot log acceptor takes, told by their bytes.
module LoaderPath {
  import opened Bytes
  import opened Framing
  import opened DevicePath

  predicate Ascii(w: string) {
    forall i | 0 <= i < |w| :: w[i] < 128 as char
  }

  /** The same character, or the same letter in the other case. */
  predicate SameLetter(a: char, b: char) {
    || a == b
    || ('a' <= a <= 'z' && a as int == b as int + 32)
    || ('A' <= a <= 'Z' && b as int == a as int + 32)
  }

  /** The text is the Windows loader's path, letter case aside. */
  predicate SpellsLoader(w: string) {
    |w| == 32 && forall i | 0 <= i < 32 :: SameLetter(w[i], "\\EFI\\Microsoft\\Boot\\bootmgfw.efi"[i])
  }

  /** What a hard drive node says of the target: number, first sector, sectors, identifier, GPT. */
  function PartitionBytes(t: Target): seq<byte>
    requires 0 <= t.offset && 0 <= t.size
  {
    LE32(t.number) + LE64(t.offset / 512) + LE64(t.size / 512) + t.id + [2, 2]
  }

  predicate IsPiece(w: string) {
    Ascii(w) && 2 * |w| + 6 < 0x1_0000
  }

  predicate Pieces(ws: seq<string>) {
    forall i | 0 <= i < |ws| :: IsPiece(ws[i])
  }

  /** A file path node with this text and its terminator. */
  function FileBytes(w: string): seq<byte>
    requires IsPiece(w)
  {
    [4, 4] + LE16(2 * |w| + 6) + (Utf16(w) + [0, 0])
  }

  function FilesBytes(ws: seq<string>): seq<byte>
    requires Pieces(ws)
  {
    if ws == [] then [] else FilesBytes(ws[..|ws| - 1]) + FileBytes(ws[|ws| - 1])
  }

  /** The pieces one after the other. */
  function Whole(ws: seq<string>): string {
    if ws == [] then "" else Whole(ws[..|ws| - 1]) + ws[|ws| - 1]
  }

  // One reading of a path.

  lemma {:induction false} SameNodes(b: seq<byte>, x: seq<Node>, y: seq<Node>, k: nat)
    requires EncodeNodes(x) == b && EncodeNodes(y) == b && k <= |x| && k <= |y|
    requires (forall i | 0 <= i < |x| :: Fits(x[i])) && (forall i | 0 <= i < |y| :: Fits(y[i]))
    ensures x[..k] == y[..k]
  {
    hide EncodeNodes, EncodeNode, NodeAt, NodeAhead;
    if k > 0 {
      SameNodes(b, x, y, k - 1);
      NextNode(b, x[..k - 1], x);
      NextNode(b, y[..k - 1], y);
      assert x[..k] == x[..k - 1] + [x[k - 1]] && y[..k] == y[..k - 1] + [y[k - 1]];
    }
  }

  lemma NodesUnique(x: seq<Node>, y: seq<Node>)
    requires EncodeNodes(x) == EncodeNodes(y) && |x| <= |y|
    requires (forall i | 0 <= i < |x| :: Fits(x[i])) && (forall i | 0 <= i < |y| :: Fits(y[i]))
    ensures x == y
  {
    hide EncodeNodes, Fits;
    SameNodes(EncodeNodes(x), x, y, |x|);
    assert x == y[..|x|];
    NoSpareNodes(x, y);
  }

  /** An encoding of nodes is accepted exactly if these nodes are. */
  lemma AcceptedExact(ns: seq<Node>, t: Target)
    requires forall i | 0 <= i < |ns| :: Fits(ns[i])
    ensures Accepted(EncodeNodes(ns), t) <==> PathOk(ns, t)
  {
    hide EncodeNodes, Fits, HasPartition, Terminated, Text, SameText, IsPartition;
    forall other | PathOk(other, t) && EncodeNodes(other) == EncodeNodes(ns)
      ensures other == ns
    {
      NodesFit(other, t);
      if |other| <= |ns| {
        NodesUnique(other, ns);
      } else {
        NodesUnique(ns, other);
      }
    }
  }

  lemma NodesFit(ns: seq<Node>, t: Target)
    requires Shaped(ns, t)
    ensures forall i | 0 <= i < |ns| :: Fits(ns[i])
  {
    hide Fits, PartitionOk, FileOk;
  }

  // What the nodes spell.

  lemma {:induction false} EncodeAppend(a: seq<Node>, b: seq<Node>)
    ensures EncodeNodes(a + b) == EncodeNodes(a) + EncodeNodes(b)
    decreases |b|
  {
    hide EncodeNode;
    if b == [] {
      assert a + b == a;
    } else {
      var n := |b| - 1;
      EncodeAppend(a, b[..n]);
      assert (a + b)[..|a + b| - 1] == a + b[..n];
      assert EncodeNodes(a) + EncodeNodes(b[..n]) + EncodeNode(b[n]) == EncodeNodes(a) + (EncodeNodes(b[..n]) + EncodeNode(b[n]));
    }
  }

  lemma {:induction false} TextAppend(a: seq<Node>, b: seq<Node>)
    ensures Text(a + b) == Text(a) + Text(b)
    decreases |b|
  {
    hide Spelled;
    if b == [] {
      assert a + b == a;
    } else {
      var n := |b| - 1;
      TextAppend(a, b[..n]);
      assert (a + b)[..|a + b| - 1] == a + b[..n];
      assert Text(a) + Text(b[..n]) + Spelled(b[n]) == Text(a) + (Text(b[..n]) + Spelled(b[n]));
    }
  }

  function Codes(w: string): (u: seq<nat>)
    ensures |u| == |w|
  {
    seq(|w|, i requires 0 <= i < |w| => w[i] as nat)
  }

  lemma FirstUnit(w: string)
    requires Ascii(w) && w != ""
    ensures Utf16(w)[2..] == Utf16(w[1..]) && U16(Utf16(w), 0) == w[0] as int
  {
  }

  lemma {:induction false} UnitsOfText(w: string)
    requires Ascii(w)
    ensures Units(Utf16(w)) == Codes(w)
    decreases |w|
  {
    hide Utf16, U16;
    if w != "" {
      UnitsOfText(w[1..]);
      FirstUnit(w);
      assert Codes(w) == [w[0] as nat] + Codes(w[1..]);
    }
  }

  function FileNode(w: string): Node
    requires IsPiece(w)
  {
    Node(4, 4, Utf16(w) + [0, 0])
  }

  function FileNodes(ws: seq<string>): (ns: seq<Node>)
    requires Pieces(ws)
    ensures |ns| == |ws|
  {
    seq(|ws|, i requires 0 <= i < |ws| => FileNode(ws[i]))
  }

  lemma {:induction false} FilesEncoded(ws: seq<string>)
    requires Pieces(ws)
    ensures EncodeNodes(FileNodes(ws)) == FilesBytes(ws)
  {
    hide IsPiece;
    if ws != [] {
      var n := |ws| - 1;
      FilesEncoded(ws[..n]);
      assert FileNodes(ws)[..n] == FileNodes(ws[..n]);
      assert EncodeNode(FileNode(ws[n])) == FileBytes(ws[n]) by {
        OneFileEncoded(ws[n]);
      }
    }
  }

  lemma OneFileEncoded(w: string)
    requires IsPiece(w)
    ensures EncodeNode(FileNode(w)) == FileBytes(w)
  {
    hide LE16, Utf16;
    LengthOf(|Utf16(w) + [0, 0]|, |w|);
  }

  lemma LengthOf(d: nat, n: nat)
    requires d == 2 * n + 2 && 2 * n + 6 < 0x1_0000
    ensures (4 + d) % 0x1_0000 == 2 * n + 6
  {
  }

  lemma CodesAppend(v: string, w: string)
    ensures Codes(v + w) == Codes(v) + Codes(w)
  {
  }

  lemma {:induction false} FilesText(ws: seq<string>)
    requires Pieces(ws)
    ensures Text(FileNodes(ws)) == Codes(Whole(ws))
  {
    hide IsPiece, FileNode, Spelled, Codes;
    if ws != [] {
      var n := |ws| - 1;
      FilesText(ws[..n]);
      assert FileNodes(ws)[..n] == FileNodes(ws[..n]);
      OneFileText(ws[n]);
      CodesAppend(Whole(ws[..n]), ws[n]);
    }
  }

  lemma OneFileText(w: string)
    requires IsPiece(w)
    ensures Spelled(FileNode(w)) == Codes(w)
  {
    UnitsOfText(w);
    assert (Utf16(w) + [0, 0])[..2 * |w|] == Utf16(w);
  }

  lemma SameLetterExact(a: char, b: char)
    requires a < 128 as char && b < 128 as char
    ensures Fold(a as int) == Fold(b as int) <==> SameLetter(a, b)
  {
  }

  lemma LoaderIsAscii(text: string)
    requires text == "\\EFI\\Microsoft\\Boot\\bootmgfw.efi"
    ensures LOADER == text && |text| == 32 && Ascii(text)
  {
  }

  lemma SpellsExact(w: string)
    requires Ascii(w)
    ensures SameText(Codes(w), LOADER) <==> SpellsLoader(w)
  {
    var text := "\\EFI\\Microsoft\\Boot\\bootmgfw.efi";
    LoaderIsAscii(text);
    SpellsText(w, text);
  }

  lemma SpellsText(w: string, text: string)
    requires Ascii(w) && Ascii(text)
    ensures SameText(Codes(w), text) <==> |w| == |text| && forall i | 0 <= i < |text| :: SameLetter(w[i], text[i])
  {
    hide Fold, SameLetter;
    if |w| == |text| {
      forall i | 0 <= i < |w|
        ensures Fold(Codes(w)[i]) == Fold(text[i] as int) <==> SameLetter(w[i], text[i])
      {
        SameLetterExact(w[i], text[i]);
      }
    }
  }

  // The hard drive node.

  lemma PartitionExact(d: seq<byte>, t: Target)
    requires 0 <= t.offset && 0 <= t.size && |t.id| == 16
    ensures PartitionOk(d, t) <==> d == PartitionBytes(t)
  {
    hide LE32, LE64, I32, U64, SectorWord;
    SectorsOf(t.offset);
    SectorsOf(t.size);
    var n, o, z := LE32(t.number), LE64(t.offset / 512), LE64(t.size / 512);
    if |d| == 38 {
      Word32(d, 0, t.number);
      Word64(d, 4, t.offset / 512);
      Word64(d, 12, t.size / 512);
      assert d == d[0..4] + d[4..12] + d[12..20] + d[20..36] + d[36..38];
    }
    if d == PartitionBytes(t) {
      assert d[0..4] == n && d[4..12] == o && d[12..20] == z && d[20..36] == t.id && d[36..38] == [2, 2];
    }
    assert |d| == 38 ==> (d[36..38] == [2, 2] <==> d[36] == 2 && d[37] == 2);
  }

  lemma SectorsOf(v: int64)
    requires 0 <= v
    ensures SectorWord(v) == v / 512 && 0 <= v / 512 < INT64_LIMIT
  {
  }

  lemma Word32(d: seq<byte>, p: nat, v: int32)
    requires p + 4 <= |d|
    ensures I32(d, p) == v <==> d[p..p + 4] == LE32(v)
  {
    if I32(d, p) == v {
      assert LE32(v)[0..4] == LE32(v);
      UIntInjective(d[p..p + 4], LE32(v)[0..4]);
    }
    if d[p..p + 4] == LE32(v) {
      Read32(d, p, v);
    }
  }

  lemma Word64(d: seq<byte>, p: nat, v: int64)
    requires p + 8 <= |d| && 0 <= v
    ensures U64(d, p) == v <==> d[p..p + 8] == LE64(v)
  {
    if U64(d, p) == v {
      assert LE64(v)[0..8] == LE64(v);
      UIntInjective(d[p..p + 8], LE64(v)[0..8]);
    }
    if d[p..p + 8] == LE64(v) {
      Read64(d, p, v);
    }
  }

  // The theorems.

  /** Nodes that the acceptor passes over. */
  predicate Others(ns: seq<Node>) {
    forall i | 0 <= i < |ns| :: Fits(ns[i]) && ns[i].kind != 4 && ns[i].kind != 127
  }

  function AllNodes(before: seq<Node>, d: seq<byte>, ws: seq<string>): seq<Node>
    requires Pieces(ws)
  {
    before + [Node(4, 1, d)] + FileNodes(ws) + [Node(127, 255, [])]
  }

  lemma AllEncoded(before: seq<Node>, d: seq<byte>, ws: seq<string>)
    requires Pieces(ws) && |d| + 4 < 0x1_0000
    ensures EncodeNodes(AllNodes(before, d, ws))
         == EncodeNodes(before) + ([4, 1] + LE16(4 + |d|) + d) + FilesBytes(ws) + [127, 255, 4, 0]
  {
    hide FileNodes, FilesBytes, EncodeNodes, EncodeNode, LE16;
    var p, e := Node(4, 1, d), Node(127, 255, []);
    OneEncoded(p);
    OneEncoded(e);
    DriveEncoded(d);
    EndEncoded();
    EncodeAppend(before, [p]);
    EncodeAppend(before + [p], FileNodes(ws));
    EncodeAppend(before + [p] + FileNodes(ws), [e]);
    FilesEncoded(ws);
  }

  lemma DriveEncoded(d: seq<byte>)
    requires |d| + 4 < 0x1_0000
    ensures EncodeNode(Node(4, 1, d)) == [4, 1] + LE16(4 + |d|) + d
  {
    hide LE16;
  }

  lemma EndEncoded()
    ensures EncodeNode(Node(127, 255, [])) == [127, 255, 4, 0]
  {
    assert LE16(4) == [4, 0];
    assert [127, 255] + [4, 0] + [] == [127, 255, 4, 0];
  }

  lemma OneEncoded(n: Node)
    ensures EncodeNodes([n]) == EncodeNode(n)
  {
    hide EncodeNode;
    assert [n][..0] == [];
  }

  lemma {:induction false} OthersSpellNothing(before: seq<Node>)
    requires Others(before)
    ensures Text(before) == []
  {
    if before != [] {
      OthersSpellNothing(before[..|before| - 1]);
    }
  }

  lemma AllText(before: seq<Node>, d: seq<byte>, ws: seq<string>)
    requires Pieces(ws) && Others(before)
    ensures Text(AllNodes(before, d, ws)) == Codes(Whole(ws))
  {
    hide FileNodes, Others;
    var p, e := Node(4, 1, d), Node(127, 255, []);
    OthersSpellNothing(before);
    assert Text([p]) == [] by { assert [p][..0] == []; }
    assert Text([e]) == [] by { assert [e][..0] == []; }
    hide Text, Codes, Whole;
    TextAppend(before, [p]);
    TextAppend(before + [p], FileNodes(ws));
    TextAppend(before + [p] + FileNodes(ws), [e]);
    FilesText(ws);
    assert [] + [] + Text(FileNodes(ws)) + [] == Text(FileNodes(ws));
  }

  lemma FilesOk(ws: seq<string>, i: nat, t: Target)
    requires Pieces(ws) && i < |ws|
    ensures var n := FileNodes(ws)[i]; NodeOk(n, t) && !IsPartition(n) && n.kind != END
  {
    assert IsPiece(ws[i]);
    var d := Utf16(ws[i]) + [0, 0];
    assert d[|d| - 2] == 0 && d[|d| - 1] == 0;
  }

  lemma AllShaped(before: seq<Node>, d: seq<byte>, ws: seq<string>, t: Target)
    requires Pieces(ws) && Others(before) && |d| + 4 < 0x1_0000
    ensures var ns := AllNodes(before, d, ws);
            && (forall i | 0 <= i < |ns| :: Fits(ns[i]))
            && (Shaped(ns, t) <==> PartitionOk(d, t)) && HasPartition(ns) && Terminated(ns)
  {
    hide PartitionOk, FileOk, FileNodes;
    var ns, k := AllNodes(before, d, ws), |before|;
    assert ns[k] == Node(4, 1, d) && IsPartition(ns[k]);
    forall i | 0 <= i < |ns| && i != k
      ensures NodeOk(ns[i], t) && !IsPartition(ns[i]) && (i < |ns| - 1 ==> ns[i].kind != END)
    {
      if i < k {
        assert ns[i] == before[i];
      } else if i < |ns| - 1 {
        assert ns[i] == FileNodes(ws)[i - k - 1];
        FilesOk(ws, i - k - 1, t);
      }
    }
    assert NodeOk(ns[k], t) <==> PartitionOk(d, t);
  }

  /**
   * Whatever nodes of other kinds come first, and however the text is cut into file path nodes: such a path is
   * accepted exactly if its hard drive node holds the bytes of the target and the pieces together spell the
   * Windows loader's path.
   */
  lemma PathExact(before: seq<Node>, d: seq<byte>, ws: seq<string>, t: Target)
    requires Others(before) && Pieces(ws) && |d| + 4 < 0x1_0000 && 0 <= t.offset && 0 <= t.size && |t.id| == 16
    ensures Accepted(EncodeNodes(before) + ([4, 1] + LE16(4 + |d|) + d) + FilesBytes(ws) + [127, 255, 4, 0], t)
       <==> d == PartitionBytes(t) && SpellsLoader(Whole(ws))
  {
    hide AllNodes, Others, EncodeNodes, FilesBytes, LE16, Accepted, Shaped, HasPartition, Terminated, Text, SameText,
         PartitionBytes, PartitionOk, SpellsLoader, Fits, LOADER, Codes;
    var ns := AllNodes(before, d, ws);
    AllEncoded(before, d, ws);
    AllShaped(before, d, ws, t);
    AllText(before, d, ws);
    AcceptedExact(ns, t);
    PartitionExact(d, t);
    WholeIsAscii(ws);
    SpellsExact(Whole(ws));
  }

  lemma {:induction false} WholeIsAscii(ws: seq<string>)
    requires Pieces(ws)
    ensures Ascii(Whole(ws))
  {
    if ws != [] {
      WholeIsAscii(ws[..|ws| - 1]);
      assert IsPiece(ws[|ws| - 1]);
    }
  }

  lemma Flat<T>(a: seq<T>, n: seq<T>, o: seq<T>, z: seq<T>, g: seq<T>, h: seq<T>)
    ensures a + (n + o + z + g + h) == a + n + o + z + g + h
  {
  }

  lemma FlatFile<T>(p: seq<T>, k: seq<T>, l: seq<T>, u: seq<T>, v: seq<T>)
    ensures p + (k + l + (u + v)) == p + k + l + u + v
  {
  }

  lemma OnePieceFiles(w: string)
    requires IsPiece(w)
    ensures Pieces([w]) && FilesBytes([w]) == FileBytes(w) && Whole([w]) == w
  {
    hide FileBytes, IsPiece;
    assert [w][..0] == [];
    assert [] + FileBytes(w) == FileBytes(w) && "" + w == w;
  }

  lemma TwoPieceFiles(v: string, w: string)
    requires IsPiece(v) && IsPiece(w)
    ensures Pieces([v, w]) && FilesBytes([v, w]) == FileBytes(v) + FileBytes(w) && Whole([v, w]) == v + w
  {
    hide FileBytes, IsPiece;
    OnePieceFiles(v);
    assert [v, w][..1] == [v];
  }

  /** The hard drive node of a target. */
  lemma DriveNode(t: Target, d: seq<byte>)
    requires 0 <= t.offset && 0 <= t.size && |t.id| == 16 && d == PartitionBytes(t)
    ensures |d| == 38
    ensures [] + ([4, 1] + LE16(4 + |d|) + d)
         == [4, 1, 42, 0] + LE32(t.number) + LE64(t.offset / 512) + LE64(t.size / 512) + t.id + [2, 2]
  {
    assert LE16(42) == [42, 0];
    hide LE16, LE32, LE64;
    assert [] + ([4, 1] + [42, 0] + d) == [4, 1, 42, 0] + d;
    Flat([4, 1, 42, 0], LE32(t.number), LE64(t.offset / 512), LE64(t.size / 512), t.id, [2, 2]);
  }

  lemma FileFlat(p: seq<byte>, w: string)
    requires IsPiece(w)
    ensures p + FileBytes(w) == p + [4, 4] + LE16(2 * |w| + 6) + Utf16(w) + [0, 0]
  {
    hide LE16, Utf16;
    FlatFile(p, [4, 4], LE16(2 * |w| + 6), Utf16(w), [0, 0]);
  }

  lemma NoNodes()
    ensures EncodeNodes([]) == [] && Others([])
  {
  }

  /** A hard drive node for the target, one file path node and an end node. */
  lemma OnePiece(t: Target, w: string)
    requires IsPiece(w) && 0 <= t.offset && 0 <= t.size && |t.id| == 16
    ensures Accepted([4, 1, 42, 0] + LE32(t.number) + LE64(t.offset / 512) + LE64(t.size / 512) + t.id + [2, 2]
                     + [4, 4] + LE16(2 * |w| + 6) + Utf16(w) + [0, 0] + [127, 255, 4, 0], t)
       <==> |w| == 32 && forall i | 0 <= i < 32 :: SameLetter(w[i], "\\EFI\\Microsoft\\Boot\\bootmgfw.efi"[i])
  {
    hide LE16, LE32, LE64, Utf16, Accepted, SameLetter, PartitionBytes, FilesBytes, FileBytes, EncodeNodes, Whole, Pieces;
    var drive := [4, 1, 42, 0] + LE32(t.number) + LE64(t.offset / 512) + LE64(t.size / 512) + t.id + [2, 2];
    DriveNode(t, PartitionBytes(t));
    OnePieceFiles(w);
    NoNodes();
    PathExact([], PartitionBytes(t), [w], t);
    FileFlat(drive, w);
  }

  /** The same with the text cut over two file path nodes. */
  lemma TwoPieces(t: Target, v: string, w: string)
    requires IsPiece(v) && IsPiece(w) && 0 <= t.offset && 0 <= t.size && |t.id| == 16
    ensures Accepted([4, 1, 42, 0] + LE32(t.number) + LE64(t.offset / 512) + LE64(t.size / 512) + t.id + [2, 2]
                     + [4, 4] + LE16(2 * |v| + 6) + Utf16(v) + [0, 0]
                     + [4, 4] + LE16(2 * |w| + 6) + Utf16(w) + [0, 0] + [127, 255, 4, 0], t)
       <==> |v + w| == 32 && forall i | 0 <= i < 32 :: SameLetter((v + w)[i], "\\EFI\\Microsoft\\Boot\\bootmgfw.efi"[i])
  {
    hide LE16, LE32, LE64, Utf16, Accepted, SameLetter, PartitionBytes, FilesBytes, FileBytes, EncodeNodes, Whole, Pieces;
    var drive := [4, 1, 42, 0] + LE32(t.number) + LE64(t.offset / 512) + LE64(t.size / 512) + t.id + [2, 2];
    DriveNode(t, PartitionBytes(t));
    TwoPieceFiles(v, w);
    NoNodes();
    PathExact([], PartitionBytes(t), [v, w], t);
    Regroup(drive, FileBytes(v), FileBytes(w));
    FileFlat(drive, v);
    FileFlat(drive + FileBytes(v), w);
  }

  /** A node that no accepted path holds, or holds at this place. */
  predicate Spoils(n: Node, last: bool) {
    || (n.kind == 4 && n.sub != 1 && n.sub != 4)
    || (n.kind == 4 && n.sub == 4 && (|n.payload| % 2 == 1 || |n.payload| < 2 || n.payload[|n.payload| - 2..] != [0, 0]))
    || (n.kind == 127 && (n.sub != 255 || n.payload != [] || !last))
    || (last && n.kind != 127)
  }

  /**
   * Nodes of another media kind, file path nodes without their terminator, and end nodes that are malformed or
   * not the last spoil every path, as do a second hard drive node and none.
   */
  lemma NeverAccepted(ns: seq<Node>, k: nat, l: nat, t: Target)
    requires (forall i | 0 <= i < |ns| :: Fits(ns[i])) && k < |ns| && l < |ns|
    ensures Spoils(ns[k], k == |ns| - 1) ==> !Accepted(EncodeNodes(ns), t)
    ensures k < l && ns[k].kind == ns[l].kind == 4 && ns[k].sub == ns[l].sub == 1 ==> !Accepted(EncodeNodes(ns), t)
    ensures (forall i | 0 <= i < |ns| :: !(ns[i].kind == 4 && ns[i].sub == 1)) ==> !Accepted(EncodeNodes(ns), t)
  {
    hide EncodeNodes, Text, SameText, LOADER, PartitionOk, Fits;
    AcceptedExact(ns, t);
    if Shaped(ns, t) {
      assert NodeOk(ns[k], t);
    }
  }
}
