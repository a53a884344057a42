// The device path of an EFI image-load event, and the one path that the installer accepts.
module DevicePath {
  import opened Bytes
  import opened Framing

  /** One device path node; its length field counts the four header bytes too. */
  datatype Node = Node(kind: byte, sub: byte, payload: seq<byte>)

  /** The partition that the firmware entry names. */
  datatype Target = Target(id: seq<byte>, number: int32, offset: int64, size: int64)

  const MEDIA: byte := 4
  const END: byte := 127

  const LOADER := "\\EFI\\Microsoft\\Boot\\bootmgfw.efi"

  // The grammar.

  predicate Fits(n: Node) {
    |n.payload| + 4 < 0x1_0000
  }

  function EncodeNode(n: Node): seq<byte> {
    [n.kind, n.sub] + LE16((4 + |n.payload|) % 0x1_0000) + n.payload
  }

  function EncodeNodes(ns: seq<Node>): seq<byte> {
    if ns == [] then [] else EncodeNodes(ns[..|ns| - 1]) + EncodeNode(ns[|ns| - 1])
  }

  /** A byte count in sectors, divided toward zero and reinterpreted as unsigned. */
  function SectorWord(v: int64): nat {
    var w: int := v;
    var q := if w >= 0 then w / 512 else -((-w) / 512);
    if q >= 0 then q else q + 0x1_0000_0000_0000_0000
  }

  predicate IsPartition(n: Node) {
    n.kind == MEDIA && n.sub == 1
  }

  predicate IsFile(n: Node) {
    n.kind == MEDIA && n.sub == 4
  }

  /** A GPT hard drive node for the target. */
  predicate PartitionOk(payload: seq<byte>, t: Target) {
    && |payload| == 38 && payload[36] == 2 && payload[37] == 2
    && payload[20..36] == t.id && I32(payload, 0) == t.number
    && U64(payload, 4) == SectorWord(t.offset) && U64(payload, 12) == SectorWord(t.size)
  }

  predicate FileOk(payload: seq<byte>) {
    |payload| >= 2 && |payload| % 2 == 0 && payload[|payload| - 2] == 0 && payload[|payload| - 1] == 0
  }

  predicate NodeOk(n: Node, t: Target) {
    && Fits(n)
    && (IsPartition(n) ==> PartitionOk(n.payload, t))
    && (IsFile(n) ==> FileOk(n.payload))
    && (n.kind == MEDIA ==> IsPartition(n) || IsFile(n))
    && (n.kind == END ==> n.sub == 255 && n.payload == [])
  }

  function Units(b: seq<byte>): seq<nat> {
    if |b| < 2 then [] else [U16(b, 0)] + Units(b[2..])
  }

  /** What a file path node spells, its terminator aside. */
  function Spelled(n: Node): seq<nat> {
    if IsFile(n) && |n.payload| >= 2 then Units(n.payload[..|n.payload| - 2]) else []
  }

  /** The UTF-16 text that the nodes spell together. */
  function Text(ns: seq<Node>): seq<nat> {
    if ns == [] then [] else Text(ns[..|ns| - 1]) + Spelled(ns[|ns| - 1])
  }

  function Fold(u: nat): nat {
    if 97 <= u <= 122 then u - 32 else u
  }

  predicate SameText(units: seq<nat>, text: string) {
    && |units| == |text|
    && forall i | 0 <= i < |text| :: Fold(units[i]) == Fold(text[i] as int)
  }

  /** At most one node names a partition, and nothing follows an end node. */
  predicate Shaped(ns: seq<Node>, t: Target) {
    && (forall i | 0 <= i < |ns| :: NodeOk(ns[i], t))
    && (forall i, j | 0 <= i < j < |ns| :: !(IsPartition(ns[i]) && IsPartition(ns[j])))
    && (forall i | 0 <= i < |ns| - 1 :: ns[i].kind != END)
  }

  predicate HasPartition(ns: seq<Node>) {
    exists i | 0 <= i < |ns| :: IsPartition(ns[i])
  }

  predicate Terminated(ns: seq<Node>) {
    |ns| > 0 && ns[|ns| - 1].kind == END
  }

  /** One target partition, the loader's path, and one end node that closes the path. */
  predicate PathOk(ns: seq<Node>, t: Target) {
    Shaped(ns, t) && HasPartition(ns) && Terminated(ns) && SameText(Text(ns), LOADER)
  }

  ghost predicate Accepted(p: seq<byte>, t: Target) {
    exists ns :: PathOk(ns, t) && EncodeNodes(ns) == p
  }

  // The encoding determines the nodes.

  lemma NodeFields(b: seq<byte>, at: nat, n: Node)
    requires Fits(n)
    ensures Stands(b, at, EncodeNode(n)) <==>
              && at + 4 + |n.payload| <= |b|
              && b[at] == n.kind && b[at + 1] == n.sub && U16(b, at + 2) == 4 + |n.payload|
              && b[at + 4..at + 4 + |n.payload|] == n.payload
  {
    var head, length := [n.kind, n.sub], LE16(4 + |n.payload|);
    StandsU16(b, at + 2, 4 + |n.payload|);
    assert EncodeNode(n) == head + length + n.payload;
    hide EncodeNode, LE16, U16;
    StandsSplit(b, at, head + length, n.payload);
    StandsSplit(b, at, head, length);
    StandsMeans(b, at + 4, n.payload);
    hide Stands;
  }

  lemma {:induction false} NodesStand(b: seq<byte>, ns: seq<Node>, k: nat)
    requires Stands(b, 0, EncodeNodes(ns)) && k <= |ns|
    ensures Stands(b, 0, EncodeNodes(ns[..k]))
    ensures k < |ns| ==> Stands(b, |EncodeNodes(ns[..k])|, EncodeNode(ns[k]))
    decreases |ns|
  {
    hide EncodeNode, Stands;
    if k == |ns| {
      assert ns[..k] == ns;
    } else {
      var init, last := ns[..|ns| - 1], ns[|ns| - 1];
      StandsSplit(b, 0, EncodeNodes(init), EncodeNode(last));
      if k < |init| {
        NodesStand(b, init, k);
        assert init[..k] == ns[..k];
      } else {
        assert ns[..k] == init;
      }
    }
  }

  // The checker.

  predicate NodeAhead(b: seq<byte>, at: nat) {
    && at + 4 <= |b|
    && 4 <= U16(b, at + 2) && at + U16(b, at + 2) <= |b|
  }

  function NodeAt(b: seq<byte>, at: nat): Node
    requires NodeAhead(b, at)
  {
    Node(b[at], b[at + 1], b[at + 4..at + U16(b, at + 2)])
  }

  lemma NodeAtStands(b: seq<byte>, at: nat)
    requires NodeAhead(b, at)
    ensures Fits(NodeAt(b, at)) && Stands(b, at, EncodeNode(NodeAt(b, at)))
    ensures |EncodeNode(NodeAt(b, at))| == U16(b, at + 2)
  {
    NodeFields(b, at, NodeAt(b, at));
  }

  /** What the loop of ValidatePath demands of the next node. */
  predicate Admissible(n: Node, t: Target, partition: bool, last: bool) {
    && NodeOk(n, t)
    && (IsPartition(n) ==> !partition)
    && (n.kind == END ==> last)
  }

  /** Any accepted path begins with the nodes read so far. */
  ghost predicate OnlyPath(b: seq<byte>, t: Target, read: seq<Node>) {
    forall ns | PathOk(ns, t) && EncodeNodes(ns) == b :: read <= ns
  }

  lemma NextNode(b: seq<byte>, read: seq<Node>, ns: seq<Node>)
    requires EncodeNodes(ns) == b && read <= ns && |read| < |ns| && Fits(ns[|read|])
    ensures NodeAhead(b, |EncodeNodes(read)|) && NodeAt(b, |EncodeNodes(read)|) == ns[|read|]
    ensures U16(b, |EncodeNodes(read)| + 2) == |EncodeNode(ns[|read|])|
  {
    hide EncodeNodes;
    var k := |read|;
    assert ns[..k] == read;
    assert Stands(b, 0, EncodeNodes(ns));
    NodesStand(b, ns, k);
    NodeFields(b, |EncodeNodes(read)|, ns[k]);
    hide Stands;
  }

  lemma LastNode(read: seq<Node>, ns: seq<Node>)
    requires read <= ns && |ns| == |read| + 1
    ensures |EncodeNodes(ns)| == |EncodeNodes(read)| + |EncodeNode(ns[|read|])|
  {
    hide EncodeNode;
    assert ns[..|ns| - 1] == read;
  }

  /** In an accepted path the node after read is admissible there. */
  lemma NextAdmissible(t: Target, read: seq<Node>, ns: seq<Node>)
    requires Shaped(ns, t) && read <= ns && |read| < |ns|
    ensures Fits(ns[|read|])
    ensures var n := ns[|read|];
            Admissible(n, t, HasPartition(read), |EncodeNodes(read)| + |EncodeNode(n)| == |EncodeNodes(ns)|)
  {
    hide EncodeNode, EncodeNodes, PartitionOk, FileOk;
    var k, n := |read|, ns[|read|];
    if n.kind == END {
      assert k == |ns| - 1;
      LastNode(read, ns);
    }
    forall i | 0 <= i < k
      ensures IsPartition(n) ==> !IsPartition(read[i])
    {
      assert read[i] == ns[i];
    }
  }

  /** Bytes left over after the nodes read so far belong to another node of any accepted path. */
  lemma MustGoOn(b: seq<byte>, t: Target, read: seq<Node>, ns: seq<Node>)
    requires PathOk(ns, t) && EncodeNodes(ns) == b && OnlyPath(b, t, read)
    requires |EncodeNodes(read)| != |b|
    ensures var at := |EncodeNodes(read)|;
            && |read| < |ns| && read <= ns && NodeAhead(b, at) && NodeAt(b, at) == ns[|read|]
            && Admissible(NodeAt(b, at), t, HasPartition(read), at + U16(b, at + 2) == |b|)
  {
    assert read <= ns;
    assert |ns| == |read| ==> ns == read;
    hide U16, EncodeNode, EncodeNodes, Admissible, NodeAt, OnlyPath, NodeAhead, HasPartition, Terminated, Text, SameText;
    NextAdmissible(t, read, ns);
    NextNode(b, read, ns);
  }

  lemma TakeNode(b: seq<byte>, t: Target, read: seq<Node>)
    requires OnlyPath(b, t, read) && NodeAhead(b, |EncodeNodes(read)|) && |EncodeNodes(read)| < |b|
    ensures OnlyPath(b, t, read + [NodeAt(b, |EncodeNodes(read)|)])
  {
    hide U16, EncodeNode, EncodeNodes, PathOk, Admissible, NodeAt, NodeAhead;
    forall ns | PathOk(ns, t) && EncodeNodes(ns) == b
      ensures read + [NodeAt(b, |EncodeNodes(read)|)] <= ns
    {
      MustGoOn(b, t, read, ns);
    }
  }

  lemma ShapedAppend(read: seq<Node>, n: Node, t: Target)
    requires Shaped(read, t) && !Terminated(read) && NodeOk(n, t) && (IsPartition(n) ==> !HasPartition(read))
    ensures Shaped(read + [n], t)
    ensures HasPartition(read + [n]) <==> HasPartition(read) || IsPartition(n)
  {
    hide NodeOk;
    var all := read + [n];
    assert all[|read|] == n && forall i | 0 <= i < |read| :: all[i] == read[i];
    if i :| 0 <= i < |read| && IsPartition(read[i]) {
      assert IsPartition(all[i]);
    }
  }

  /** What the loop of ValidatePath knows after the nodes read so far. */
  ghost predicate Progress(b: seq<byte>, t: Target, read: seq<Node>, cursor: nat, partition: bool, terminated: bool, path: seq<nat>) {
    && Stands(b, 0, EncodeNodes(read)) && cursor == |EncodeNodes(read)|
    && Shaped(read, t) && partition == HasPartition(read) && terminated == Terminated(read)
    && path == Text(read) && (terminated ==> cursor == |b|)
    && OnlyPath(b, t, read)
  }

  lemma Advance(b: seq<byte>, t: Target, read: seq<Node>, cursor: nat, partition: bool, path: seq<nat>, n: Node)
    requires Progress(b, t, read, cursor, partition, false, path)
    requires cursor < |b| && NodeAhead(b, cursor) && n == NodeAt(b, cursor)
    requires Admissible(n, t, partition, cursor + U16(b, cursor + 2) == |b|)
    ensures Progress(b, t, read + [n], cursor + U16(b, cursor + 2), partition || IsPartition(n), n.kind == END,
                     if IsFile(n) then path + Units(n.payload[..|n.payload| - 2]) else path)
  {
    NodeAtStands(b, cursor);
    TakeNode(b, t, read);
    ShapedAppend(read, n, t);
    hide EncodeNode, EncodeNodes, U16, NodeAt, OnlyPath, Shaped, HasPartition, Text, Units;
    StandsSplit(b, 0, EncodeNodes(read), EncodeNode(n));
  }

  lemma Refused(b: seq<byte>, t: Target, read: seq<Node>, cursor: nat, partition: bool, terminated: bool, path: seq<nat>)
    requires Progress(b, t, read, cursor, partition, terminated, path) && cursor < |b|
    requires !NodeAhead(b, cursor) || !Admissible(NodeAt(b, cursor), t, partition, cursor + U16(b, cursor + 2) == |b|)
    ensures !Accepted(b, t)
  {
    hide EncodeNodes, U16, NodeAt, OnlyPath, Shaped, HasPartition, Text, Units, PathOk, Admissible, NodeAhead;
    forall ns | EncodeNodes(ns) == b
      ensures !PathOk(ns, t)
    {
      if PathOk(ns, t) {
        MustGoOn(b, t, read, ns);
      }
    }
  }

  lemma Finished(b: seq<byte>, t: Target, read: seq<Node>, cursor: nat, partition: bool, terminated: bool, path: seq<nat>)
    requires Progress(b, t, read, cursor, partition, terminated, path) && cursor == |b|
    ensures Accepted(b, t) <==> terminated && partition && SameText(path, LOADER)
  {
    hide U16, NodeAt, Shaped, HasPartition, Text, Units, SameText, Terminated;
    assert EncodeNodes(read) == b;
    if terminated && partition && SameText(path, LOADER) {
      assert PathOk(read, t);
    }
    forall ns | PathOk(ns, t) && EncodeNodes(ns) == b
      ensures ns == read
    {
      NoSpareNodes(read, ns);
    }
  }

  lemma {:induction false} NoSpareNodes(read: seq<Node>, ns: seq<Node>)
    requires read <= ns && |EncodeNodes(read)| == |EncodeNodes(ns)|
    ensures read == ns
    decreases |ns|
  {
    if |read| < |ns| {
      var init := ns[..|ns| - 1];
      LongerByNodes(read, init);
    }
  }

  lemma {:induction false} LongerByNodes(read: seq<Node>, ns: seq<Node>)
    requires read <= ns
    ensures |EncodeNodes(read)| <= |EncodeNodes(ns)|
    decreases |ns|
  {
    if |read| < |ns| {
      LongerByNodes(read, ns[..|ns| - 1]);
    } else {
      assert read == ns;
    }
  }

  /** Accepts exactly the encodings of one GPT partition, the Windows loader's path and a closing end node. */
  method ValidatePath(b: seq<byte>, t: Target) returns (ok: bool)
    ensures ok <==> Accepted(b, t)
  {
    hide EncodeNodes, OnlyPath, Shaped, HasPartition, Text, Units, PathOk, Accepted, SameText;
    var cursor, partition, terminated, path: seq<nat> := 0, false, false, [];
    ghost var read: seq<Node> := [];
    Begin(b, t);
    while cursor + 4 <= |b|
      invariant Progress(b, t, read, cursor, partition, terminated, path)
      decreases |b| - cursor
    {
      if !NodeAhead(b, cursor) {
        Refused(b, t, read, cursor, partition, terminated, path);
        return false;
      }
      var n, length := NodeAt(b, cursor), U16(b, cursor + 2);
      if !Admissible(n, t, partition, cursor + length == |b|) {
        Refused(b, t, read, cursor, partition, terminated, path);
        return false;
      }
      Advance(b, t, read, cursor, partition, path, n);
      read := read + [n];
      if IsPartition(n) {
        partition := true;
      } else if IsFile(n) {
        path := path + Units(n.payload[..|n.payload| - 2]);
      } else if n.kind == END {
        terminated := true;
      }
      cursor := cursor + length;
    }
    if cursor == |b| {
      Finished(b, t, read, cursor, partition, terminated, path);
    } else {
      Refused(b, t, read, cursor, partition, terminated, path);
    }
    return cursor == |b| && terminated && partition && SameText(path, LOADER);
  }

  lemma Begin(b: seq<byte>, t: Target)
    ensures Progress(b, t, [], 0, false, false, [])
  {
  }
}
