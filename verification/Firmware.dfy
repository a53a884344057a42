// The EFI global variables behind the Windows firmware calls, and the names Boot0000 to BootFFFF
// of the load options (section 3.1.3 of the UEFI Specification 2.10).
module Firmware {
  import opened Bytes

  type Vars = map<string, seq<byte>>

  const ORDER: string := "BootOrder"
  const NEXT: string := "BootNext"
  const CURRENT: string := "BootCurrent"

  function Get(vars: Vars, name: string): Option<seq<byte>> {
    if name in vars then Some(vars[name]) else None
  }

  /** An empty value deletes the variable. */
  function Store(vars: Vars, name: string, value: seq<byte>): Vars {
    if value == [] then vars - {name} else vars[name := value]
  }

  // Names of load options.

  predicate HexDigit(c: char) {
    '0' <= c <= '9' || 'A' <= c <= 'F'
  }

  function DigitValue(c: char): (v: nat)
    requires HexDigit(c)
    ensures v < 16
  {
    if c <= '9' then c as int - '0' as int else c as int - 'A' as int + 10
  }

  function Digit(v: nat): (c: char)
    requires v < 16
    ensures HexDigit(c) && DigitValue(c) == v
  {
    if v < 10 then (v + '0' as int) as char else (v - 10 + 'A' as int) as char
  }

  predicate IsEntry(name: string) {
    && |name| == 8 && name[0] == 'B' && name[1] == 'o' && name[2] == 'o' && name[3] == 't'
    && HexDigit(name[4]) && HexDigit(name[5]) && HexDigit(name[6]) && HexDigit(name[7])
  }

  function EntryName(i: nat): (name: string)
    requires i < 0x1_0000
    ensures IsEntry(name)
  {
    ['B', 'o', 'o', 't', Digit(i / 4096), Digit(i / 256 % 16), Digit(i / 16 % 16), Digit(i % 16)]
  }

  function StagingIndex(name: string): (r: Option<nat>)
    ensures r.Some? ==> r.value < 0x1_0000
  {
    if IsEntry(name) then
      Some(4096 * DigitValue(name[4]) + 256 * DigitValue(name[5]) + 16 * DigitValue(name[6]) + DigitValue(name[7]))
    else None
  }

  lemma DigitOfValue(c: char)
    requires HexDigit(c)
    ensures Digit(DigitValue(c)) == c
  {
  }

  lemma Recombined(i: nat)
    requires i < 0x1_0000
    ensures i == 4096 * (i / 4096) + 256 * (i / 256 % 16) + 16 * (i / 16 % 16) + i % 16
  {
    var b, c := i / 16, i / 256;
    assert i == 16 * b + i % 16;
    assert b == 16 * c + b % 16 by { assert c == b / 16; }
    assert c == 16 * (i / 4096) + c % 16 by { assert i / 4096 == c / 16; }
  }

  lemma IndexOfName(i: nat)
    requires i < 0x1_0000
    ensures StagingIndex(EntryName(i)) == Some(i)
  {
    Recombined(i);
    hide HexDigit, DigitValue, Digit;
  }

  lemma NameOfIndex(name: string)
    requires IsEntry(name)
    ensures EntryName(StagingIndex(name).value) == name
  {
    var a, b, c, d := DigitValue(name[4]), DigitValue(name[5]), DigitValue(name[6]), DigitValue(name[7]);
    Digits(a, b, c, d);
    DigitOfValue(name[4]);
    DigitOfValue(name[5]);
    DigitOfValue(name[6]);
    DigitOfValue(name[7]);
    hide HexDigit, DigitValue, Digit;
    var again := EntryName(4096 * a + 256 * b + 16 * c + d);
    assert again[4] == name[4] && again[5] == name[5] && again[6] == name[6] && again[7] == name[7];
    assert again == name;
  }

  /** Formatting and parsing an entry name are inverse; no other text is an entry name. */
  lemma NameIffIndex(name: string, i: nat)
    ensures StagingIndex(name) == Some(i) <==> i < 0x1_0000 && name == EntryName(i)
  {
    if i < 0x1_0000 {
      IndexOfName(i);
    }
    if IsEntry(name) {
      NameOfIndex(name);
    }
    hide IsEntry, EntryName;
  }

  lemma Halves(high: nat, low: nat)
    requires low < 16
    ensures (16 * high + low) / 16 == high && (16 * high + low) % 16 == low
  {
  }

  lemma Digits(a: nat, b: nat, c: nat, d: nat)
    requires a < 16 && b < 16 && c < 16 && d < 16
    ensures var i := 4096 * a + 256 * b + 16 * c + d;
            i < 0x1_0000 && i / 4096 == a && i / 256 % 16 == b && i / 16 % 16 == c && i % 16 == d
  {
    var x := 16 * a + b;
    var y := 16 * x + c;
    Halves(a, b);
    Halves(x, c);
    Halves(y, d);
    var i := 16 * y + d;
    assert i / 256 == x by { assert i == 256 * x + (16 * c + d); }
    assert i / 4096 == a by { assert i == 4096 * a + (256 * b + 16 * c + d); }
  }

  lemma NotEntries()
    ensures !IsEntry(ORDER) && !IsEntry(NEXT) && !IsEntry(CURRENT)
    ensures ORDER != NEXT && NEXT != CURRENT && ORDER != CURRENT
  {
    assert ORDER[4] == 'O' && NEXT[4] == 'N' && CURRENT[4] == 'C';
    assert |ORDER| == 9 && |NEXT| == 8 && |CURRENT| == 11;
  }

  // Writes.

  /** How the firmware answers a write: as asked, not at all, or with another value. */
  datatype Answer = Takes | Refuses | Alters(stored: seq<byte>)

  class Variables {
    const digest: seq<byte> -> string
    var vars: Vars
    /** The answers to the next writes; the firmware takes every later one. */
    var script: seq<Answer>

    constructor (vars: Vars, script: seq<Answer>, digest: seq<byte> -> string)
      ensures this.vars == vars && this.script == script && this.digest == digest
    {
      this.vars, this.script, this.digest := vars, script, digest;
    }

    method SetVariable(name: string, value: seq<byte>) returns (ok: bool, ghost stored: seq<byte>)
      modifies this
      ensures vars == if ok then Store(old(vars), name, stored) else old(vars)
      ensures old(script) == [] ==> ok && script == [] && stored == value
    {
      stored := value;
      var answer := if script == [] then Takes else script[0];
      script := if script == [] then [] else script[1..];
      match answer {
        case Refuses =>
          return false, stored;
        case Takes =>
          vars := Store(vars, name, value);
        case Alters(other) =>
          vars := Store(vars, name, other);
          stored := other;
      }
      ok := true;
    }
  }
}
