// The staging plan told by the bytes of the layout buffer.
module StagingBytes {
  import opened Bytes
  import opened GptTable
  import opened StagingPlan

  predicate ZerosAt(a: seq<byte>, from: nat, to: nat) {
    to <= |a| && forall k | from <= k < to :: a[k] == 0
  }

  /** The name stands there, each character as two bytes. */
  predicate NameAt(a: seq<byte>, at: nat, name: string) {
    at + 2 * |name| <= |a| && forall k | 0 <= k < |name| :: a[at + 2 * k] == name[k] as int && a[at + 2 * k + 1] == 0
  }

  /** Every byte of a new entry at offset p: rewritten, hidden from drive letters, and with this name. */
  predicate NewAt(a: seq<byte>, p: nat, start: int, size: int, kind: seq<byte>, id: Guid, name: string) {
    && p + 144 <= |a| && |name| <= 36
    && I32(a, p) == 1 && ZerosAt(a, p + 4, p + 8) && I64(a, p + 8) == start && I64(a, p + 16) == size
    && a[p + 28] == 1 && ZerosAt(a, p + 29, p + 32) && a[p + 32..p + 48] == kind && a[p + 48..p + 64] == id
    && I64(a, p + 64) == -0x8000_0000_0000_0000
    && NameAt(a, p + 72, name) && ZerosAt(a, p + 72 + 2 * |name|, p + 144)
  }

  /** The type of EFI system partitions and that of Windows recovery partitions. */
  const ESP_BYTES: seq<byte> := [40, 115, 42, 193, 31, 248, 210, 17, 186, 75, 0, 160, 201, 62, 201, 59]
  const RECOVERY_BYTES: seq<byte> := [164, 187, 148, 222, 209, 6, 64, 77, 161, 106, 191, 213, 1, 121, 214, 172]

  lemma ZeroSlice(a: seq<byte>, p: nat, n: nat)
    requires p + n <= |a| && a[p..p + n] == Zeros(n)
    ensures ZerosAt(a, p, p + n)
  {
    forall k | p <= k < p + n
      ensures a[k] == 0
    {
      assert a[k] == a[p..p + n][k - p];
    }
  }

  lemma NameSlice(a: seq<byte>, p: nat, name: string)
    requires AsciiName(name) && p + 2 * |name| <= |a| && a[p..p + 2 * |name|] == Utf16(name)
    ensures NameAt(a, p, name)
  {
    hide Utf16;
    var s := a[p..p + 2 * |name|];
    forall k | 0 <= k < |name|
      ensures a[p + 2 * k] == name[k] as int && a[p + 2 * k + 1] == 0
    {
      assert a[p + 2 * k] == s[2 * k] && a[p + 2 * k + 1] == s[2 * k + 1];
    }
  }

  /** A new entry, told byte by byte. */
  lemma NewEntryBytes(a: seq<byte>, i: nat, x: Extent, number: int32)
    requires HasEntry(a, i) && NewEntry(Block(a, i), x, number)
    ensures NewAt(a, 48 + 144 * i, x.start, x.size, x.kind, x.id, x.name) && I32(a, 48 + 144 * i + 24) == number
  {
    hide I64, I32, Block, LE32, LE64, Utf16, AsciiName, ZerosAt, NameAt, Zeros;
    var p, n := 48 + 144 * i, |x.name|;
    NewEntryFields(a, i, x, number);
    BlockSlice(a, i, 0, 4);
    BlockSlice(a, i, 4, 8);
    BlockSlice(a, i, 28, 29);
    BlockSlice(a, i, 29, 32);
    BlockSlice(a, i, 64, 72);
    NameFits(x.name);
    BlockSlice(a, i, 72, 72 + 2 * n);
    BlockSlice(a, i, 72 + 2 * n, ENTRY);
    Read32(a, p, 1);
    Read64(a, p + 64, -INT64_LIMIT);
    ZeroSlice(a, p + 4, 4);
    ZeroSlice(a, p + 29, 3);
    ZeroSlice(a, p + 72 + 2 * n, 72 - 2 * n);
    NameSlice(a, p + 72, x.name);
    assert a[p + 28..p + 29][0] == 1;
  }

  lemma NameFits(name: string)
    requires AsciiName(name)
    ensures |name| <= 36
  {
  }

  /** The two entries of a plan: the temporary EFI partition of 512 MiB and behind it the one for the source. */
  lemma PlannedBytes(b: seq<byte>, a: seq<byte>, start: int64, dataSize: int64, esp: Guid, data: Guid)
    requires ValidTable(b) && Planned(b, a, start, dataSize, esp, data)
    ensures var p, q := 48 + 144 * Slots(b).0, 48 + 144 * Slots(b).1;
            && NewAt(a, p, start, 536870912, ESP_BYTES, esp, "Omarchy installer EFI")
            && NewAt(a, q, start + 536870912, dataSize, RECOVERY_BYTES, data, "Omarchy installer source")
  {
    hide NewAt, NewEntry, Slots, Block, SameHeader, LowestTwo, Numbers, Number;
    var s := Slots(b);
    NewEntryBytes(a, s.0, EspExtent(start, esp), Number(a, s.0));
    NewEntryBytes(a, s.1, DataExtent(start, dataSize, data), Number(a, s.1));
  }

  /** The conditions on the arguments and the header, in numbers. */
  predicate Demands(b: seq<byte>, start: int64, dataSize: int64, esp: Guid, data: Guid) {
    && 48 <= |b| && I32(b, 0) == 1 && 0 <= I32(b, 4) <= I32(b, 40) <= 4096 && |b| == 48 + 144 * I32(b, 4)
    && (exists k | 0 <= k < 16 :: esp[k] != 0) && (exists k | 0 <= k < 16 :: data[k] != 0) && esp != data
    && 1073741824 <= dataSize <= 68719476736 && dataSize % 1048576 == 0
    && 1048576 <= start && start % 1048576 == 0
    && I64(b, 24) <= start && start + 536870912 + dataSize <= I64(b, 24) + I64(b, 32) < 0x8000_0000_0000_0000
  }

  lemma RequestExact(b: seq<byte>, start: int64, dataSize: int64, esp: Guid, data: Guid)
    ensures RequestOk(b, start, dataSize, esp, data) <==> Demands(b, start, dataSize, esp, data)
  {
    hide I64, I32;
    assert esp != EMPTY_GUID <==> exists k | 0 <= k < 16 :: esp[k] != 0;
    assert data != EMPTY_GUID <==> exists k | 0 <= k < 16 :: data[k] != 0;
  }
}
