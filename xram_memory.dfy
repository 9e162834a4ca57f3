/**
 * Model of the XRAM operations of the memory editor
 * (Memory_Interpretation_SDCC/src/xram_memory.c).
 *
 * External RAM is a 64 KiB byte array addressed by a 16-bit `unsigned int`.
 * The user's hex entries come from `CodeMemory.ParseUserInput`, the same
 * line editor the C file calls, and `printf("%04X")` / `printf("%02X")` are
 * the zero-padded upper-case renderings `HexText(_, 4)` / `HexText(_, 2)`.
 */
module XramMemory {
  import opened CodeMemory

  const XRAM_SIZE := 0x1_0000
  const ADDRESS_MAX := 0x7FFF
  const ERASED: u8 := 0xFF

  const WRITE_START_PROMPT := "\r\n Enter Start Address to Write (Hex): "
  const WRITE_END_PROMPT := "\r\n Enter End Address to Write (Hex): "
  const DATA_PROMPT := "\r\n Enter Data to Write (Hex): "
  const RANGE_ERROR := "\r\n Error: End Address must be greater than or equal to Start Address.\r\n"
  const WRITE_BANNER := "\r\n---------------------------XRAM WRITE----------------------------\r\n"
  const WRITE_FOOTER := "\r\n---------------------------------------------------------------------\r\n"
  const READ_START_PROMPT := "\r\n Enter Start Address to Read (Hex): "
  const READ_END_PROMPT := "\r\n Enter End Address to Read (Hex): "
  const READ_BANNER := "\r\n--------------------------XRAM CONTENTS--------------------------\r\n"
  const READ_FOOTER := "\r\n------------------------------------------------------------------\r\n"

  /** The row break `printf("\r\n%04X: ")` starts each dump row with. */
  const XRAM_ROW_BREAK := "\r\n"

  /** The confirmation line of `write_memory`. */
  function WrittenMessage(data: u8, startAddress: u16, endAddress: u16): string
  {
    "\r\n Data 0x" + HexText(data, 2) + " written to addresses 0x" + HexText(startAddress, 4)
    + " to 0x" + HexText(endAddress, 4) + ".\r\n"
  }

  /** `k` copies of the byte `b`. */
  function Repeat(b: u8, k: nat): (s: seq<u8>)
    ensures |s| == k && forall j :: 0 <= j < k ==> s[j] == b
  {
    seq(k, _ => b)
  }

  /** `xram_read`: the byte at `address`. */
  function XramRead(xram: array<u8>, address: u16): u8
    requires xram.Length == XRAM_SIZE
    reads xram
  {
    xram[address]
  }

  /** `xram_write`: stores `data` at `address` and nowhere else. */
  method XramWrite(xram: array<u8>, address: u16, data: u8)
    requires xram.Length == XRAM_SIZE
    modifies xram
    ensures XramRead(xram, address) == data
    ensures forall a :: 0 <= a < XRAM_SIZE && a != address ==> xram[a] == old(xram[a])
  {
    xram[address] := data;
  }

  /** `initialize_xram`: every address 0x0000..0x7FFF reads 0xFF, the upper half is untouched. */
  method InitializeXram(xram: array<u8>)
    requires xram.Length == XRAM_SIZE
    modifies xram
    ensures forall a :: 0 <= a <= ADDRESS_MAX ==> xram[a] == ERASED
    ensures forall a :: ADDRESS_MAX < a < XRAM_SIZE ==> xram[a] == old(xram[a])
  {
    var address: u16 := 0x0000;
    while address <= ADDRESS_MAX
      invariant address <= ADDRESS_MAX + 1
      invariant forall a :: 0 <= a < address ==> xram[a] == ERASED
      invariant forall a :: address <= a < XRAM_SIZE ==> xram[a] == old(xram[a])
    {
      XramWrite(xram, address, ERASED);
      address := address + 1;
    }
  }

  /** `memory_read`: one cell per address from start to end inclusive, then
      "\r\n"; XRAM is only read. The loop ends only because `endAddress < 0xFFFF`. */
  method MemoryRead(xram: array<u8>, startAddress: u16, endAddress: u16) returns (out: string)
    requires xram.Length == XRAM_SIZE
    requires endAddress < 0xFFFF
    ensures out == Dump(startAddress, Range(xram[..], startAddress, endAddress), XRAM_ROW_BREAK) + "\r\n"
  {
    var count: u8 := 0;
    var address := startAddress;
    out := [];
    while address <= endAddress
      invariant startAddress <= address
      invariant address == startAddress || address <= endAddress + 1
      invariant count == (address - startAddress) % 256
      invariant out == Dump(startAddress, xram[startAddress..address], XRAM_ROW_BREAK)
    {
      var offset := address - startAddress;
      ByteCounterRow(offset);
      ByteCounterStep(offset);
      assert xram[startAddress..address + 1] == xram[startAddress..address] + [xram[address]];
      DumpSnoc(startAddress, xram[startAddress..address], xram[address], XRAM_ROW_BREAK);
      out := out + Cell(address, count % 16 == 0, XramRead(xram, address), XRAM_ROW_BREAK);
      address := address + 1;
      count := (count + 1) % 256;
    }
    assert xram[startAddress..address] == Range(xram[..], startAddress, endAddress);
    out := out + "\r\n";
  }

  /** The range fill of `write_memory`: `data` at every address from start to
      end inclusive, with its dump; every other address keeps its byte. */
  method FillRange(xram: array<u8>, startAddress: u16, endAddress: u16, data: u8) returns (out: string)
    requires xram.Length == XRAM_SIZE
    requires startAddress <= endAddress < 0xFFFF
    modifies xram
    ensures forall a :: startAddress <= a <= endAddress ==> xram[a] == data
    ensures forall a :: 0 <= a < XRAM_SIZE && !(startAddress <= a <= endAddress) ==> xram[a] == old(xram[a])
    ensures out == Dump(startAddress, Repeat(data, endAddress - startAddress + 1), XRAM_ROW_BREAK)
  {
    out := [];
    var address := startAddress;
    while address <= endAddress
      invariant startAddress <= address <= endAddress + 1
      invariant forall a :: startAddress <= a < address ==> xram[a] == data
      invariant forall a :: 0 <= a < XRAM_SIZE && !(startAddress <= a < address) ==> xram[a] == old(xram[a])
      invariant out == Dump(startAddress, Repeat(data, address - startAddress), XRAM_ROW_BREAK)
    {
      var offset := address - startAddress;
      assert Repeat(data, offset + 1) == Repeat(data, offset) + [data];
      DumpSnoc(startAddress, Repeat(data, offset), data, XRAM_ROW_BREAK);
      out := out + Cell(address, offset % 16 == 0, data, XRAM_ROW_BREAK);
      XramWrite(xram, address, data);
      address := address + 1;
    }
  }

  /** After a range fill, reading the same range shows the fill: the
      dump `read_memory` prints is the dump `write_memory` printed. */
  lemma FilledRangeReadsBack(mem: seq<u8>, s: nat, e: nat, data: u8)
    requires s <= e < |mem|
    requires forall a :: s <= a <= e ==> mem[a] == data
    ensures Range(mem, s, e) == Repeat(data, e - s + 1)
    ensures Dump(s, Range(mem, s, e), XRAM_ROW_BREAK) == Dump(s, Repeat(data, e - s + 1), XRAM_ROW_BREAK)
  {
    assert forall o :: 0 <= o < e - s + 1 ==> Range(mem, s, e)[o] == mem[s + o];
  }

  /** What `write_memory` prints while the two addresses are entered. */
  function WritePrompts(keys: seq<char>): string
    requires HasLine(keys) && HasLine(AfterLine(keys))
  {
    WRITE_START_PROMPT + LineEcho(keys) + "\r\n" + WRITE_END_PROMPT + LineEcho(AfterLine(keys))
  }

  /** What `write_memory` prints for a valid range, after the two address entries. */
  function WriteReport(keys3: seq<char>, s: u16, e: u16): string
    requires HasLine(keys3) && s <= e
  {
    var data := LineValue(keys3) % 256;
    "\r\n" + DATA_PROMPT + LineEcho(keys3) + "\r\n"
    + WRITE_BANNER + "\r\n" + COLUMN_HEADER
    + Dump(s, Repeat(data, e - s + 1), XRAM_ROW_BREAK) + "\r\n"
    + WRITE_FOOTER + WrittenMessage(data, s, e)
  }

  /** `write_memory`: reads start and end; rejects end < start with no write;
      otherwise reads the data byte (the parsed value truncated to 8 bits)
      and fills the range with it. */
  method WriteMemory(xram: array<u8>, keys: seq<char>) returns (out: string, rest: seq<char>)
    requires xram.Length == XRAM_SIZE
    requires HasLine(keys) && HasLine(AfterLine(keys))
    requires LineValue(keys) <= LineValue(AfterLine(keys)) ==>
      LineValue(AfterLine(keys)) < 0xFFFF && HasLine(AfterLine(AfterLine(keys)))
    modifies xram
    ensures var keys2 := AfterLine(keys);
      var s, e := LineValue(keys), LineValue(keys2);
      e < s ==>
        && out == WritePrompts(keys) + RANGE_ERROR
        && rest == AfterLine(keys2)
        && xram[..] == old(xram[..])
    ensures var keys2 := AfterLine(keys);
      var s, e := LineValue(keys), LineValue(keys2);
      s <= e ==>
        var keys3 := AfterLine(keys2);
        var data := LineValue(keys3) % 256;
        && out == WritePrompts(keys) + WriteReport(keys3, s, e)
        && rest == AfterLine(keys3)
        && (forall a :: s <= a <= e ==> xram[a] == data)
        && (forall a :: 0 <= a < XRAM_SIZE && !(s <= a <= e) ==> xram[a] == old(xram[a]))
  {
    out := WRITE_START_PROMPT;
    var startAddress, echo1, rest1 := ParseUserInput(keys, NUMBER_BASE);
    out := out + echo1 + "\r\n" + WRITE_END_PROMPT;
    var endAddress, echo2, rest2 := ParseUserInput(rest1, NUMBER_BASE);
    out := out + echo2;
    assert out == WritePrompts(keys);
    if endAddress < startAddress {
      out := out + RANGE_ERROR;
      rest := rest2;
      return;
    }
    var report := "\r\n" + DATA_PROMPT;
    var value, echo3, rest3 := ParseUserInput(rest2, NUMBER_BASE);
    var data: u8 := value % 256;
    rest := rest3;
    report := report + echo3 + "\r\n" + WRITE_BANNER + "\r\n" + COLUMN_HEADER;
    var rows := FillRange(xram, startAddress, endAddress, data);
    report := report + rows + "\r\n" + WRITE_FOOTER + WrittenMessage(data, startAddress, endAddress);
    assert report == WriteReport(rest2, startAddress, endAddress);
    out := out + report;
  }

  /** What `read_memory` prints while the two addresses are entered. */
  function ReadPrompts(keys: seq<char>): string
    requires HasLine(keys) && HasLine(AfterLine(keys))
  {
    READ_START_PROMPT + LineEcho(keys) + "\r\n" + READ_END_PROMPT + LineEcho(AfterLine(keys))
  }

  /** What `read_memory` prints for a valid range, after the two address entries. */
  function ReadReport(mem: seq<u8>, s: u16, e: u16): string
    requires s <= e < |mem|
  {
    READ_BANNER + "\r\n" + COLUMN_HEADER
    + (Dump(s, Range(mem, s, e), XRAM_ROW_BREAK) + "\r\n")
    + READ_FOOTER
  }

  /** `read_memory`: reads start and end; rejects end < start; otherwise dumps the range. */
  method ReadMemory(xram: array<u8>, keys: seq<char>) returns (out: string, rest: seq<char>)
    requires xram.Length == XRAM_SIZE
    requires HasLine(keys) && HasLine(AfterLine(keys))
    requires LineValue(AfterLine(keys)) < 0xFFFF
    ensures rest == AfterLine(AfterLine(keys))
    ensures var s, e := LineValue(keys), LineValue(AfterLine(keys));
      out == ReadPrompts(keys) + if e < s then RANGE_ERROR else ReadReport(xram[..], s, e)
  {
    out := READ_START_PROMPT;
    var startAddress, echo1, rest1 := ParseUserInput(keys, NUMBER_BASE);
    out := out + echo1 + "\r\n" + READ_END_PROMPT;
    var endAddress, echo2, rest2 := ParseUserInput(rest1, NUMBER_BASE);
    out := out + echo2;
    assert out == ReadPrompts(keys);
    rest := rest2;
    if endAddress < startAddress {
      out := out + RANGE_ERROR;
      return;
    }
    var report := READ_BANNER + "\r\n" + COLUMN_HEADER;
    var dump := MemoryRead(xram, startAddress, endAddress);
    report := report + dump + READ_FOOTER;
    assert report == ReadReport(xram[..], startAddress, endAddress);
    out := out + report;
  }
}
