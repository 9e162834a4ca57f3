/**
 * Model of the single-step monitor (Single_Step_Keil_Compiler/cone.c).
 *
 * The monitor's globals are the fields of `Monitor`. The UART is two fields,
 * `input` (the keys the user will type, consumed from the front) and
 * `output` (everything sent so far, appended to). Internal RAM is a 256-byte
 * array handed to `Step`, which stands for one INT1 interrupt: the user
 * program's registers have been pushed below the captured stack pointer.
 * `unsigned int` is 16 bits wide under Keil C51.
 */
module SingleStep {
  import opened CodeMemory

  const ADDRESS_SLOTS := 4
  const ADDRESS_PROMPT := "\n\n\r Enter the address: "
  /** Backspace, space, backspace: the echo of an erased character. */
  const ERASE_ECHO := [BACKSPACE, SPACE, BACKSPACE]
  const STARTED := "\r\n\n Single-Step execution started: Press 'E' to exit!\r\n"
  const STARTED_RULE := "\r\n -----------------------------------------------\r\n"
  const NOT_CONNECTED := "P3.3 (INT1) is not connected to low!"
  const REGISTER_HEADER := "\n\r ACC B PSW DPTR R0 R1 R2 R3 R4 R5 R6 R7 SP PC\n\r "
  const EXIT_KEY := 'E'
  const EXIT_RULE := " -----------------------------------------------\r\n"
  /** P3.3 is the INT1 pin; it must be held low for single-stepping. */
  const INT1_PIN: bv8 := 0x08

  // ---------------------------------------------------------------------
  // get_user_address: the four-slot entry with backspace
  // ---------------------------------------------------------------------

  /** The characters standing in the slots after the first `k` keys: a key
      fills the next slot, a backspace gives up the last filled one. */
  function Typed(keys: seq<char>, k: nat): (t: seq<char>)
    requires k <= |keys|
    ensures |t| <= k
  {
    if k == 0 then []
    else
      var t := Typed(keys, k - 1);
      if keys[k - 1] != BACKSPACE then t + [keys[k - 1]]
      else if t == [] then [] else t[..|t| - 1]
  }

  /** What the first `k` keys echo: each character itself, each backspace an erase. */
  function TypedEcho(keys: seq<char>, k: nat): string
    requires k <= |keys|
  {
    if k == 0 then []
    else TypedEcho(keys, k - 1) + if keys[k - 1] == BACKSPACE then ERASE_ECHO else [keys[k - 1]]
  }

  /** From key `k` on, the keys complete the entry: a key is there whenever
      fewer than four slots are filled, and no backspace comes while none is.
      The loop index of `get_user_address` has no lower bound: a backspace
      at slot 0 would make the next character land before the buffer. */
  predicate EntryFrom(keys: seq<char>, k: nat)
    requires k <= |keys|
    decreases |keys| - k
  {
    var n := |Typed(keys, k)|;
    n == ADDRESS_SLOTS
    || (n < ADDRESS_SLOTS && k < |keys| && (keys[k] == BACKSPACE ==> n > 0) && EntryFrom(keys, k + 1))
  }

  predicate HasAddressEntry(keys: seq<char>)
  {
    EntryFrom(keys, 0)
  }

  /** The number of keys, from `k` on, after which all four slots are filled. */
  function EntryEnd(keys: seq<char>, k: nat): (n: nat)
    requires k <= |keys| && EntryFrom(keys, k)
    ensures k <= n <= |keys| && |Typed(keys, n)| == ADDRESS_SLOTS
    decreases |keys| - k
  {
    if |Typed(keys, k)| == ADDRESS_SLOTS then k else EntryEnd(keys, k + 1)
  }

  /** The number of keys the entry consumes. */
  function EntryLength(keys: seq<char>): nat
    requires HasAddressEntry(keys)
  {
    EntryEnd(keys, 0)
  }

  /** The four characters the entry leaves in `hex_string`. */
  function EntryText(keys: seq<char>): (t: seq<char>)
    requires HasAddressEntry(keys)
    ensures |t| == ADDRESS_SLOTS
  {
    Typed(keys, EntryLength(keys))
  }

  function EntryEcho(keys: seq<char>): string
    requires HasAddressEntry(keys)
  {
    TypedEcho(keys, EntryLength(keys))
  }

  /** The digit values `get_user_address` gives the characters of `t`. Its
      conversion is the one `char_to_int` of code_memory.c makes: decimal and
      both cases of hex digits, anything else 0. */
  function Nibbles(t: seq<char>): (ds: seq<int>)
    ensures |ds| == |t|
  {
    seq(|t|, k requires 0 <= k < |t| => CharToInt(t[k]))
  }

  /** `(address << 4) | digit` in 16-bit `unsigned int`: the shift multiplies
      by 16 and drops the bits above 15, and since the shifted value's low
      nibble is 0 the OR with a digit below 16 adds it. */
  function ShiftOr(a: u16, digit: int): u16
    requires 0 <= digit < 16
  {
    (a * 16 + digit) % 0x1_0000
  }

  /** `address` after shifting in the digits of `t`, starting from the value
      `stale` it kept from before. */
  function ShiftInAll(stale: u16, t: seq<char>): u16
  {
    Accumulate(16, [stale] + Nibbles(t))
  }

  /** The address four characters denote, most significant first. */
  function AddressValue(t: seq<char>): u16
    requires |t| == ADDRESS_SLOTS
  {
    CharToInt(t[0]) * 0x1000 + CharToInt(t[1]) * 0x100 + CharToInt(t[2]) * 0x10 + CharToInt(t[3])
  }

  // ---------------------------------------------------------------------
  // int1_handler: the register frame
  // ---------------------------------------------------------------------

  type Bank = r: seq<u8> | |r| == 8 witness [0, 0, 0, 0, 0, 0, 0, 0]

  /** The registers `int1_handler` reads back from the stack; `sp` is the low
      byte of the cursor after the fifteen reads. */
  datatype Frame = Frame(r: Bank, psw: u8, dpl: u8, dph: u8, b: u8, acc: u8,
                         pch: u8, pcl: u8, sp: u8)

  /** The internal RAM byte `depth` places below `s`; the cursor is a pointer
      into internal RAM, which only its low byte addresses. */
  function Below(mem: seq<u8>, s: u8, depth: nat): u8
    requires |mem| == 0x100
  {
    mem[(s - depth) % 0x100]
  }

  /** The frame pushed below the captured stack pointer `s`: R7..R0 at
      s..s-7, then PSW, DPL, DPH, B, ACC, PCH and PCL. */
  function FrameAt(mem: seq<u8>, s: u8): Frame
    requires |mem| == 0x100
  {
    Frame(seq(8, k requires 0 <= k < 8 => Below(mem, s, 7 - k)),
          Below(mem, s, 8), Below(mem, s, 9), Below(mem, s, 10), Below(mem, s, 11),
          Below(mem, s, 12), Below(mem, s, 13), Below(mem, s, 14), (s - 15) % 0x100)
  }

  /** A 16-bit word from its two bytes: `lo | (hi << 8)`. */
  function Word(hi: u8, lo: u8): u16
  {
    hi * 0x100 + lo
  }

  /** DPTR, `dpl | (dph << 8)`. */
  function Dptr(f: Frame): u16
  {
    Word(f.dph, f.dpl)
  }

  /** The PC the interrupt interrupted, `(pc_high << 8) | pc_low`. */
  function CapturedPc(f: Frame): u16
  {
    Word(f.pch, f.pcl)
  }

  /** Composing a word loses neither byte. */
  lemma WordSplits(hi: u8, lo: u8)
    ensures Word(hi, lo) / 0x100 == hi && Word(hi, lo) % 0x100 == lo
  {
    assert Word(hi, lo) == hi * 0x100 + lo;
  }

  /** One field of the register line: the spaces before it, its value and
      its number of hex digits. */
  datatype Field = Field(gap: string, value: nat, width: nat)

  /** The fields of the register line in the order of its header,
      ACC B PSW DPTR R0..R7 SP PC. */
  function RegisterFields(f: Frame, pc: u16): (fs: seq<Field>)
    ensures |fs| == 14
  {
    [Field("", f.acc, 2), Field(" ", f.b, 2), Field(" ", f.psw, 2), Field("  ", Dptr(f), 4)]
    + seq(8, k requires 0 <= k < 8 => Field(" ", f.r[k], 2))
    + [Field(" ", f.sp, 2), Field(" ", pc, 4)]
  }

  function FieldText(field: Field): string
  {
    field.gap + HexText(field.value, field.width)
  }

  /** The register line: each byte in two hex digits, each word in four.
      Whatever the registers hold it has the same 46 characters, so every
      field stays under its column of the header. */
  function RegisterLine(f: Frame, pc: u16): (line: string)
    ensures |line| == 46
  {
    var fs := RegisterFields(f, pc);
    RegisterLineWidth(f, pc);
    Concat(seq(|fs|, k requires 0 <= k < |fs| => FieldText(fs[k])))
  }

  /** The characters the fields `fs` take: their gaps and digits. */
  function FieldsWidth(fs: seq<Field>): nat
  {
    if fs == [] then 0 else FieldsWidth(fs[..|fs| - 1]) + |fs[|fs| - 1].gap| + fs[|fs| - 1].width
  }

  /** Fields whose values fit their digit counts print in exactly their width. */
  lemma {:induction false} FieldsText(fs: seq<Field>)
    requires forall k :: 0 <= k < |fs| ==> 1 <= fs[k].width && fs[k].value < Pow16(fs[k].width)
    ensures |Concat(seq(|fs|, k requires 0 <= k < |fs| => FieldText(fs[k])))| == FieldsWidth(fs)
  {
    if fs != [] {
      var n := |fs| - 1;
      var cs := seq(|fs|, k requires 0 <= k < |fs| => FieldText(fs[k]));
      assert cs[..n] == seq(n, k requires 0 <= k < n => FieldText(fs[..n][k]));
      FieldsText(fs[..n]);
      HexDigitsBound(fs[n].value, fs[n].width);
      HexTextLength(fs[n].value, fs[n].width);
    }
  }

  lemma {:induction false} FieldsWidthAppend(a: seq<Field>, b: seq<Field>)
    ensures FieldsWidth(a + b) == FieldsWidth(a) + FieldsWidth(b)
    decreases |b|
  {
    if b != [] {
      assert (a + b)[..|a + b| - 1] == a + b[..|b| - 1];
      FieldsWidthAppend(a, b[..|b| - 1]);
    } else {
      assert a + b == a;
    }
  }

  /** Fields of two digits after one space take three characters each. */
  lemma {:induction false} ByteFieldsWidth(fs: seq<Field>)
    requires forall k :: 0 <= k < |fs| ==> fs[k].gap == " " && fs[k].width == 2
    ensures FieldsWidth(fs) == 3 * |fs|
  {
    if fs != [] {
      ByteFieldsWidth(fs[..|fs| - 1]);
    }
  }

  lemma OneFieldWidth(x: Field)
    ensures FieldsWidth([x]) == |x.gap| + x.width
  {
    assert [x][..0] == [];
  }

  /** ACC, B, PSW and DPTR: 2 + 3 + 3 + 6 characters. */
  lemma HeadWidth(f: Frame)
    ensures FieldsWidth([Field("", f.acc, 2), Field(" ", f.b, 2), Field(" ", f.psw, 2), Field("  ", Dptr(f), 4)]) == 14
  {
    var a, b, c, d := Field("", f.acc, 2), Field(" ", f.b, 2), Field(" ", f.psw, 2), Field("  ", Dptr(f), 4);
    assert [a, b, c, d] == [a] + [b] + [c] + [d];
    FieldsWidthAppend([a] + [b] + [c], [d]);
    FieldsWidthAppend([a] + [b], [c]);
    FieldsWidthAppend([a], [b]);
    OneFieldWidth(a);
    OneFieldWidth(b);
    OneFieldWidth(c);
    OneFieldWidth(d);
  }

  /** SP and PC: 3 + 5 characters. */
  lemma TailWidth(f: Frame, pc: u16)
    ensures FieldsWidth([Field(" ", f.sp, 2), Field(" ", pc, 4)]) == 8
  {
    var a, b := Field(" ", f.sp, 2), Field(" ", pc, 4);
    assert [a, b] == [a] + [b];
    FieldsWidthAppend([a], [b]);
    OneFieldWidth(a);
    OneFieldWidth(b);
  }

  lemma RegisterLineWidth(f: Frame, pc: u16)
    ensures var fs := RegisterFields(f, pc);
      |Concat(seq(|fs|, k requires 0 <= k < |fs| => FieldText(fs[k])))| == 46
  {
    var fs := RegisterFields(f, pc);
    var head := [Field("", f.acc, 2), Field(" ", f.b, 2), Field(" ", f.psw, 2), Field("  ", Dptr(f), 4)];
    var regs := seq(8, k requires 0 <= k < 8 => Field(" ", f.r[k], 2));
    var tail := [Field(" ", f.sp, 2), Field(" ", pc, 4)];
    assert fs == head + regs + tail;
    assert Pow16(2) == 0x100 && Pow16(4) == 0x1_0000;
    FieldsText(fs);
    FieldsWidthAppend(head + regs, tail);
    FieldsWidthAppend(head, regs);
    ByteFieldsWidth(regs);
    HeadWidth(f);
    TailWidth(f, pc);
  }

  /** The bytes below the stack pointer are read by a cursor that steps down
      one byte per read: eight into `r_values` from R7 down to R0, then seven
      more; the displayed SP is where the cursor ends. */
  method ExtractFrame(mem: array<u8>, s: u8) returns (f: Frame)
    requires mem.Length == 0x100
    ensures f == FrameAt(mem[..], s)
  {
    var rValues := new u8[8];
    var cursor: int := s;
    var i := 7;
    while i >= 0
      invariant -1 <= i <= 7
      invariant cursor == s - (7 - i)
      invariant forall k :: i < k < 8 ==> rValues[k] == Below(mem[..], s, 7 - k)
    {
      rValues[i] := mem[cursor % 0x100];
      cursor := cursor - 1;
      i := i - 1;
    }
    var psw := mem[cursor % 0x100];
    cursor := cursor - 1;
    var dpl := mem[cursor % 0x100];
    cursor := cursor - 1;
    var dph := mem[cursor % 0x100];
    cursor := cursor - 1;
    var b := mem[cursor % 0x100];
    cursor := cursor - 1;
    var acc := mem[cursor % 0x100];
    cursor := cursor - 1;
    var pcHigh := mem[cursor % 0x100];
    cursor := cursor - 1;
    var pcLow := mem[cursor % 0x100];
    cursor := cursor - 1;
    f := Frame(rValues[..], psw, dpl, dph, b, acc, pcHigh, pcLow, cursor % 0x100);
  }

  // ---------------------------------------------------------------------
  // int1_handler: the step controller
  // ---------------------------------------------------------------------

  /** What `int1_handler` keeps from one interrupt to the next: `flagy`,
      `lastpc` and `FL`. */
  datatype Control = Control(flagy: bool, lastpc: u16, fl: bool)

  /** The PC an interrupt reports: the entered address on the first interrupt
      after `get_user_address`, otherwise the PC the previous one captured. */
  function ReportedPc(c: Control, userAddress: u16): u16
  {
    if c.flagy then userAddress else c.lastpc
  }

  /** The controller after an interrupt that captures `pc`: `flagy` is
      cleared, `lastpc` is the capture, and `FL` is set by capturing the
      entered address and is never cleared. */
  function StepControl(c: Control, userAddress: u16, pc: u16): (next: Control)
    ensures !next.flagy && next.lastpc == pc
    ensures c.fl ==> next.fl
    ensures pc == userAddress ==> next.fl
    ensures next.fl ==> c.fl || pc == userAddress
  {
    Control(false, pc, c.fl || pc == userAddress)
  }

  /** The controller after consecutive interrupts that capture `pcs`. */
  function RunControl(c: Control, userAddress: u16, pcs: seq<u16>): Control
    decreases |pcs|
  {
    if pcs == [] then c else RunControl(StepControl(c, userAddress, pcs[0]), userAddress, pcs[1..])
  }

  /** The PCs those interrupts report. */
  function ReportedPcs(c: Control, userAddress: u16, pcs: seq<u16>): (rs: seq<u16>)
    ensures |rs| == |pcs|
    decreases |pcs|
  {
    if pcs == [] then []
    else [ReportedPc(c, userAddress)] + ReportedPcs(StepControl(c, userAddress, pcs[0]), userAddress, pcs[1..])
  }

  /** The key waits of those interrupts: each interrupt entered with `FL`
      set prints the registers and waits for a key. */
  function Waits(c: Control, userAddress: u16, pcs: seq<u16>): nat
    decreases |pcs|
  {
    if pcs == [] then 0
    else (if c.fl then 1 else 0) + Waits(StepControl(c, userAddress, pcs[0]), userAddress, pcs[1..])
  }

  /** The PCs captured by interrupts over the internal RAM images `images`
      with the stack pointers `sps`. */
  function Captures(images: seq<seq<u8>>, sps: seq<u8>): (pcs: seq<u16>)
    requires |images| == |sps| && forall j :: 0 <= j < |images| ==> |images[j]| == 0x100
    ensures |pcs| == |sps|
  {
    seq(|sps|, j requires 0 <= j < |sps| => PcBelow(images[j], sps[j]))
  }

  /** The interrupted PC as the frame below `s` holds it: PCH at s-13, PCL at s-14. */
  function PcBelow(mem: seq<u8>, s: u8): (pc: u16)
    requires |mem| == 0x100
    ensures pc == CapturedPc(FrameAt(mem, s))
  {
    Word(Below(mem, s, 13), Below(mem, s, 14))
  }

  predicate IsStopKey(c: char)
  {
    c == EXIT_KEY || c == CARRIAGE_RETURN
  }

  predicate HasStopKey(keys: seq<char>)
  {
    exists k :: 0 <= k < |keys| && IsStopKey(keys[k])
  }

  /** The position of the first key that ends the wait after a register line. */
  function StopIndex(keys: seq<char>): (n: nat)
    requires HasStopKey(keys)
    ensures n < |keys| && IsStopKey(keys[n])
    ensures forall j :: 0 <= j < n ==> !IsStopKey(keys[j])
    decreases |keys|
  {
    if IsStopKey(keys[0]) then 0
    else
      assert HasStopKey(keys[1..]) by {
        var k :| 0 <= k < |keys| && IsStopKey(keys[k]);
        assert keys[1..][k - 1] == keys[k];
      }
      StopIndex(keys[1..]) + 1
  }

  /** What the key that ends the wait echoes. */
  function StopEcho(key: char): string
  {
    if key == EXIT_KEY then "\n\r" + EXIT_RULE else "\n\n\r"
  }

  /** The number of keys in `keys` that can end a wait. */
  function StopKeys(keys: seq<char>): nat
    decreases |keys|
  {
    if keys == [] then 0 else (if IsStopKey(keys[0]) then 1 else 0) + StopKeys(keys[1..])
  }

  /** Calls into user code are not executed; the model records the one issued. */
  datatype Call = NoCall | CallUserCode(target: u16)

  class Monitor {
    var flagy: bool
    var lastpc: u16
    var FL: bool
    var address: u16
    var userAddress: u16
    var EX1: bool
    var EA: bool
    var IT1: bool
    const hexString: array<char>
    var input: seq<char>
    var output: seq<char>

    predicate Valid()
    {
      hexString.Length == ADDRESS_SLOTS + 1
    }

    /** Power-up: every global is zero, nothing has been sent. */
    constructor (keys: seq<char>)
      ensures Valid() && fresh(hexString)
      ensures !flagy && lastpc == 0 && !FL && address == 0 && userAddress == 0
      ensures !EX1 && !EA && !IT1
      ensures input == keys && output == []
    {
      flagy, lastpc, FL, address, userAddress := false, 0, false, 0, 0;
      EX1, EA, IT1 := false, false, false;
      hexString := new char[ADDRESS_SLOTS + 1](_ => '\0');
      input, output := keys, [];
    }

    /** `get_user_address`: prompts, takes the four-slot entry, then shifts
        the four stored digits into the global `address`, whose stale value
        the four shifts push out. */
    method GetUserAddress() returns (result: u16)
      requires Valid() && HasAddressEntry(input)
      modifies this`flagy, this`address, this`input, this`output, hexString
      ensures var t := EntryText(old(input));
        && hexString[..ADDRESS_SLOTS] == t && hexString[ADDRESS_SLOTS] == '\0'
        && result == address == AddressValue(t)
      ensures flagy
      ensures input == old(input)[EntryLength(old(input))..]
      ensures output == old(output) + ADDRESS_PROMPT + EntryEcho(old(input))
      ensures lastpc == old(lastpc) && FL == old(FL) && userAddress == old(userAddress)
      ensures EX1 == old(EX1) && EA == old(EA) && IT1 == old(IT1)
    {
      flagy := true;
      output := output + ADDRESS_PROMPT;
      ReadEntry();
      hexString[ADDRESS_SLOTS] := '\0';
      ghost var stale := address;
      ShiftInDigits();
      StaleAddressShiftedOut(stale, hexString[..ADDRESS_SLOTS]);
      result := address;
    }

    /** The first loop of `get_user_address`: one key per pass until the
        four slots are filled. */
    method ReadEntry()
      requires Valid() && HasAddressEntry(input)
      modifies this`input, this`output, hexString
      ensures hexString[..ADDRESS_SLOTS] == EntryText(old(input))
      ensures input == old(input)[EntryLength(old(input))..]
      ensures output == old(output) + EntryEcho(old(input))
    {
      var rest, echo := TakeEntry(input);
      input := rest;
      output := output + echo;
    }

    /** That loop over the keys `keys`: what it leaves of them and what it
        echoes. */
    method TakeEntry(keys: seq<char>) returns (rest: seq<char>, echo: string)
      requires Valid() && HasAddressEntry(keys)
      modifies hexString
      ensures hexString[..ADDRESS_SLOTS] == EntryText(keys)
      ensures rest == keys[EntryLength(keys)..]
      ensures echo == EntryEcho(keys)
    {
      ghost var k: nat := 0;
      rest := keys;
      echo := [];
      var i: int := 0;
      while i < ADDRESS_SLOTS
        invariant k <= |keys| && rest == keys[k..]
        invariant EntryFrom(keys, k) && EntryEnd(keys, k) == EntryLength(keys)
        invariant i == |Typed(keys, k)| <= ADDRESS_SLOTS
        invariant hexString[..i] == Typed(keys, k)
        invariant echo == TypedEcho(keys, k)
        decreases |keys| - k
      {
        var bp := rest[0];
        rest := rest[1..];
        var keyEcho;
        i, keyEcho := TakeAddressKey(keys, k, i, bp);
        echo := echo + keyEcho;
        k := k + 1;
      }
      EntryDone(keys, k);
    }

    /** One pass of that loop for key `k`, the key `bp`, at slot `i`: a
        backspace echoes an erase and steps back one slot (`i = i - 2`, then
        the loop's `i++`), any other key is stored in slot `i` and echoed. */
    method TakeAddressKey(ghost keys: seq<char>, ghost k: nat, i: int, bp: char) returns (next: int, echo: string)
      requires Valid() && k < |keys| && bp == keys[k]
      requires EntryFrom(keys, k) && i == |Typed(keys, k)| < ADDRESS_SLOTS
      requires hexString[..i] == Typed(keys, k)
      modifies hexString
      ensures EntryFrom(keys, k + 1) && EntryEnd(keys, k + 1) == EntryEnd(keys, k)
      ensures next == |Typed(keys, k + 1)| <= ADDRESS_SLOTS
      ensures hexString[..next] == Typed(keys, k + 1)
      ensures TypedEcho(keys, k + 1) == TypedEcho(keys, k) + echo
    {
      EntryStep(keys, k);
      next := i;
      if bp == BACKSPACE {
        echo := ERASE_ECHO;
        next := next - 2;
      } else {
        hexString[next] := bp;
        echo := [hexString[next]];
      }
      next := next + 1;
    }

    /** The second loop of `get_user_address`: `address = (address << 4) | digit`
        for each of the four stored characters. */
    method ShiftInDigits()
      requires Valid()
      modifies this`address
      ensures address == ShiftInAll(old(address), hexString[..ADDRESS_SLOTS])
    {
      ghost var stale := address;
      ShiftInNone(stale);
      var i := 0;
      while i < ADDRESS_SLOTS
        invariant 0 <= i <= ADDRESS_SLOTS
        invariant address == ShiftInAll(stale, hexString[..i])
      {
        var digit := CharToInt(hexString[i]);
        assert hexString[..i + 1] == hexString[..i] + [hexString[i]];
        ShiftInOne(stale, hexString[..i], hexString[i]);
        address := ShiftOr(address, digit);
        i := i + 1;
      }
    }

    /** The `while (1)` key loop after a register line: 'E' disarms INT1 and
        all interrupts and ends single-stepping, '\r' continues with them
        armed, every other key is dropped unechoed. */
    method AwaitKey()
      requires HasStopKey(input)
      modifies this`input, this`output, this`EX1, this`EA
      ensures var n := StopIndex(old(input));
        var key := old(input)[n];
        && input == old(input)[n + 1..]
        && output == old(output) + StopEcho(key)
        && (key == EXIT_KEY ==> !EX1 && !EA)
        && (key != EXIT_KEY ==> EX1 == old(EX1) && EA == old(EA))
    {
      ghost var keys := input;
      ghost var k: nat := 0;
      while true
        invariant k <= StopIndex(keys) && input == keys[k..]
        invariant output == old(output) && EX1 == old(EX1) && EA == old(EA)
        decreases |keys| - k
      {
        var exit := input[0];
        input := input[1..];
        k := k + 1;
        if exit == EXIT_KEY {
          output := output + ['\n', '\r'];
          EX1 := false;
          EA := false;
          output := output + EXIT_RULE;
          assert (old(output) + ['\n', '\r']) + EXIT_RULE == old(output) + (['\n', '\r'] + EXIT_RULE);
          break;
        } else if exit == CARRIAGE_RETURN {
          output := output + ['\n', '\n', '\r'];
          break;
        }
      }
    }

    /** `int1_handler` for one interrupt with captured stack pointer `s`:
        reads the frame, updates the controller as `StepControl` says, and
        prints the register line with the reported PC and waits for a key
        only when `FL` was already set. */
    method Step(mem: array<u8>, s: u8) returns (frame: Frame, reported: u16)
      requires mem.Length == 0x100
      requires FL ==> HasStopKey(input)
      modifies this`flagy, this`lastpc, this`FL, this`input, this`output, this`EX1, this`EA
      ensures frame == FrameAt(mem[..], s)
      ensures var c := Control(old(flagy), old(lastpc), old(FL));
        && reported == ReportedPc(c, userAddress)
        && Control(flagy, lastpc, FL) == StepControl(c, userAddress, CapturedPc(frame))
      ensures old(FL) ==>
        var n := StopIndex(old(input));
        var key := old(input)[n];
        && input == old(input)[n + 1..]
        && output == old(output) + REGISTER_HEADER + RegisterLine(frame, reported) + StopEcho(key)
        && (key == EXIT_KEY ==> !EX1 && !EA)
        && (key != EXIT_KEY ==> EX1 == old(EX1) && EA == old(EA))
      ensures !old(FL) ==> input == old(input) && output == old(output) && EX1 == old(EX1) && EA == old(EA)
      ensures address == old(address) && userAddress == old(userAddress) && IT1 == old(IT1)
    {
      frame := ExtractFrame(mem, s);
      if flagy {
        reported := userAddress;
        flagy := false;
      } else {
        reported := lastpc;
      }
      lastpc := CapturedPc(frame);
      if FL {
        output := output + REGISTER_HEADER + RegisterLine(frame, reported);
        AwaitKey();
      } else if lastpc == userAddress {
        FL := true;
      }
    }

    /** One interrupt over the internal RAM image `image`, with what a run
        of them needs to know: the captured and the reported PC, the
        controller step, and that a wait consumes one stop key. */
    method Interrupt(image: seq<u8>, s: u8) returns (captured: u16, reported: u16)
      requires |image| == 0x100
      requires FL ==> StopKeys(input) > 0
      modifies this`flagy, this`lastpc, this`FL, this`input, this`output, this`EX1, this`EA
      ensures captured == PcBelow(image, s)
      ensures var c := Control(old(flagy), old(lastpc), old(FL));
        && reported == ReportedPc(c, userAddress)
        && Control(flagy, lastpc, FL) == StepControl(c, userAddress, captured)
      ensures StopKeys(input) == StopKeys(old(input)) - if old(FL) then 1 else 0
      ensures address == old(address) && userAddress == old(userAddress) && IT1 == old(IT1)
    {
      var mem := new u8[0x100](i requires 0 <= i < 0x100 => image[i]);
      assert mem[..] == image;
      if FL {
        StopKeyConsumed(input);
      }
      var frame;
      frame, reported := Step(mem, s);
      captured := CapturedPc(frame);
    }

    /** Interrupt `j` of a run whose captures are `pcs` and whose reports
        are `all`, starting from the controller `c0`: it captures `pcs[j]`,
        reports `all[j]`, and leaves the rest of the run to the new state. */
    method RunStep(ghost c0: Control, ghost pcs: seq<u16>, ghost all: seq<u16>, j: nat, image: seq<u8>, s: u8)
      returns (pc: u16, reported: u16)
      requires |image| == 0x100 && j < |pcs| == |all| && pcs[j] == PcBelow(image, s)
      requires RunControl(c0, userAddress, pcs) == RunControl(Control(flagy, lastpc, FL), userAddress, pcs[j..])
      requires all[j..] == ReportedPcs(Control(flagy, lastpc, FL), userAddress, pcs[j..])
      requires StopKeys(input) >= Waits(Control(flagy, lastpc, FL), userAddress, pcs[j..])
      modifies this`flagy, this`lastpc, this`FL, this`input, this`output, this`EX1, this`EA
      ensures pc == pcs[j] && reported == all[j]
      ensures RunControl(c0, userAddress, pcs) == RunControl(Control(flagy, lastpc, FL), userAddress, pcs[j + 1..])
      ensures all[j + 1..] == ReportedPcs(Control(flagy, lastpc, FL), userAddress, pcs[j + 1..])
      ensures StopKeys(old(input)) - StopKeys(input)
        + Waits(Control(flagy, lastpc, FL), userAddress, pcs[j + 1..])
        == Waits(Control(old(flagy), old(lastpc), old(FL)), userAddress, pcs[j..])
      ensures address == old(address) && userAddress == old(userAddress) && IT1 == old(IT1)
    {
      RunUnfold(Control(flagy, lastpc, FL), userAddress, pcs, j);
      pc, reported := Interrupt(image, s);
      SuffixStep(all, j);
    }

    /** Consecutive interrupts, the j-th over the internal RAM `images[j]`
        with captured stack pointer `sps[j]`; every wait for a key takes one
        of the stop keys in the input, and the input holds one for each. */
    method Run(images: seq<seq<u8>>, sps: seq<u8>) returns (captured: seq<u16>, reports: seq<u16>)
      requires |images| == |sps| && forall j :: 0 <= j < |images| ==> |images[j]| == 0x100
      requires StopKeys(input) >= Waits(Control(flagy, lastpc, FL), userAddress, Captures(images, sps))
      modifies this`flagy, this`lastpc, this`FL, this`input, this`output, this`EX1, this`EA
      ensures captured == Captures(images, sps)
      ensures var c := Control(old(flagy), old(lastpc), old(FL));
        && Control(flagy, lastpc, FL) == RunControl(c, userAddress, captured)
        && reports == ReportedPcs(c, userAddress, captured)
        && StopKeys(input) == StopKeys(old(input)) - Waits(c, userAddress, captured)
      ensures address == old(address) && userAddress == old(userAddress) && IT1 == old(IT1)
    {
      ghost var c0 := Control(flagy, lastpc, FL);
      ghost var pcs := Captures(images, sps);
      ghost var all := ReportedPcs(c0, userAddress, pcs);
      captured, reports := [], [];
      assert pcs[0..] == pcs && all[0..] == all;
      var j := 0;
      while j < |sps|
        invariant 0 <= j <= |sps|
        invariant captured == pcs[..j] && reports == all[..j]
        invariant RunControl(c0, userAddress, pcs) == RunControl(Control(flagy, lastpc, FL), userAddress, pcs[j..])
        invariant all[j..] == ReportedPcs(Control(flagy, lastpc, FL), userAddress, pcs[j..])
        invariant StopKeys(old(input)) - StopKeys(input) + Waits(Control(flagy, lastpc, FL), userAddress, pcs[j..])
          == Waits(c0, userAddress, pcs)
        invariant address == old(address) && userAddress == old(userAddress) && IT1 == old(IT1)
      {
        var pc, reported := RunStep(c0, pcs, all, j, images[j], sps[j]);
        SuffixStep(pcs, j);
        SuffixStep(all, j);
        captured := captured + [pc];
        reports := reports + [reported];
        j := j + 1;
      }
      assert pcs[..|sps|] == pcs && all[..|sps|] == all;
    }

    /** `jump_to_user_code`: with P3.3 high only the diagnostic is sent; with
        it low the address is entered, INT1 is made level-triggered and
        enabled with all interrupts, and the call into user code is issued. */
    method JumpToUserCode(p3: bv8) returns (call: Call)
      requires Valid()
      requires p3 & INT1_PIN == 0 ==> HasAddressEntry(input)
      modifies this`flagy, this`address, this`userAddress, this`input, this`output, this`IT1, this`EX1, this`EA, hexString
      ensures p3 & INT1_PIN != 0 ==>
        && call == NoCall && output == old(output) + NOT_CONNECTED && input == old(input)
        && flagy == old(flagy) && address == old(address) && userAddress == old(userAddress)
        && IT1 == old(IT1) && EX1 == old(EX1) && EA == old(EA)
        && hexString[..] == old(hexString[..])
      ensures p3 & INT1_PIN == 0 ==>
        var t := EntryText(old(input));
        && userAddress == address == AddressValue(t) && flagy
        && call == CallUserCode(userAddress)
        && !IT1 && EX1 && EA
        && input == old(input)[EntryLength(old(input))..]
        && output == old(output) + ADDRESS_PROMPT + EntryEcho(old(input)) + STARTED + STARTED_RULE
      ensures lastpc == old(lastpc) && FL == old(FL)
    {
      if p3 & INT1_PIN == 0 {
        userAddress := GetUserAddress();
        output := output + STARTED;
        output := output + STARTED_RULE;
        IT1 := false;
        EX1 := true;
        EA := true;
        call := CallUserCode(userAddress);
      } else {
        output := output + NOT_CONNECTED;
        call := NoCall;
      }
    }
  }

  // ---------------------------------------------------------------------
  // Properties
  // ---------------------------------------------------------------------

  /** Before any shift `address` keeps its stale value. */
  lemma ShiftInNone(stale: u16)
    ensures ShiftInAll(stale, []) == stale
  {
    assert [stale] + Nibbles([]) == [] + [stale];
    AccumulateStep(16, [], stale);
    assert Accumulate(16, []) * 16 + stale == stale;
  }

  /** One more character shifts one more digit in. */
  lemma ShiftInOne(stale: u16, t: seq<char>, c: char)
    ensures ShiftInAll(stale, t + [c]) == ShiftOr(ShiftInAll(stale, t), CharToInt(c))
  {
    assert [stale] + Nibbles(t + [c]) == ([stale] + Nibbles(t)) + [CharToInt(c)];
    AccumulateStep(16, [stale] + Nibbles(t), CharToInt(c));
  }

  /** Four shifts of 4 bits in 16 bits leave nothing of the old `address`:
      the result is the value of the four digits alone. */
  lemma StaleAddressShiftedOut(stale: u16, t: seq<char>)
    requires |t| == ADDRESS_SLOTS
    ensures ShiftInAll(stale, t) == AddressValue(t)
  {
    var ds := [stale] + Nibbles(t);
    AccumulateIsValueMod(16, ds);
    FiveDigitValue(ds);
    ModMultipleAdded(AddressValue(t), stale);
  }

  /** Five base-16 digits, most significant first. */
  lemma FiveDigitValue(ds: seq<int>)
    requires |ds| == 5
    ensures Value(16, ds) == ds[0] * 0x1_0000 + ds[1] * 0x1000 + ds[2] * 0x100 + ds[3] * 0x10 + ds[4]
  {
    ValuePrefix(ds, 0);
    ValuePrefix(ds, 1);
    ValuePrefix(ds, 2);
    ValuePrefix(ds, 3);
    ValuePrefix(ds, 4);
    assert ds[..0] == [] && ds[..5] == ds;
  }

  lemma ValuePrefix(ds: seq<int>, j: nat)
    requires j < |ds|
    ensures Value(16, ds[..j + 1]) == Value(16, ds[..j]) * 16 + ds[j]
  {
    assert ds[..j + 1][..j] == ds[..j];
  }

  /** One key of an unfinished entry: it is there, it is no backspace at
      slot 0, and it updates the slots and the echo as `Typed` and
      `TypedEcho` say. */
  lemma EntryStep(keys: seq<char>, k: nat)
    requires k <= |keys| && EntryFrom(keys, k) && |Typed(keys, k)| < ADDRESS_SLOTS
    ensures k < |keys| && (keys[k] == BACKSPACE ==> |Typed(keys, k)| > 0)
    ensures EntryFrom(keys, k + 1) && EntryEnd(keys, k + 1) == EntryEnd(keys, k)
    ensures var t := Typed(keys, k);
      Typed(keys, k + 1) == if keys[k] == BACKSPACE then t[..|t| - 1] else t + [keys[k]]
    ensures TypedEcho(keys, k + 1) == TypedEcho(keys, k) + if keys[k] == BACKSPACE then ERASE_ECHO else [keys[k]]
  {
  }

  /** The entry ends once all four slots are filled. */
  lemma EntryDone(keys: seq<char>, k: nat)
    requires k <= |keys| && EntryFrom(keys, k) && |Typed(keys, k)| == ADDRESS_SLOTS
    requires HasAddressEntry(keys) && EntryEnd(keys, k) == EntryLength(keys)
    ensures k == EntryLength(keys)
    ensures EntryText(keys) == Typed(keys, k) && EntryEcho(keys) == TypedEcho(keys, k)
  {
  }

  lemma {:induction false} TypedIsPrefix(keys: seq<char>, k: nat)
    requires k <= |keys|
    requires forall j :: 0 <= j < k ==> keys[j] != BACKSPACE
    ensures Typed(keys, k) == keys[..k] && TypedEcho(keys, k) == keys[..k]
  {
    if k > 0 {
      TypedIsPrefix(keys, k - 1);
      assert keys[..k] == keys[..k - 1] + [keys[k - 1]];
    }
  }

  /** Four characters and no backspace: the entry is those four characters,
      echoed as typed, and the address their base-16 value. */
  lemma PlainEntry(keys: seq<char>)
    requires |keys| >= ADDRESS_SLOTS
    requires forall j :: 0 <= j < ADDRESS_SLOTS ==> keys[j] != BACKSPACE
    ensures HasAddressEntry(keys) && EntryLength(keys) == ADDRESS_SLOTS
    ensures EntryText(keys) == keys[..ADDRESS_SLOTS] && EntryEcho(keys) == keys[..ADDRESS_SLOTS]
    ensures AddressValue(EntryText(keys))
      == CharToInt(keys[0]) * 0x1000 + CharToInt(keys[1]) * 0x100 + CharToInt(keys[2]) * 0x10 + CharToInt(keys[3])
  {
    TypedIsPrefix(keys, 4);
    TypedIsPrefix(keys, 3);
    TypedIsPrefix(keys, 2);
    TypedIsPrefix(keys, 1);
    assert EntryFrom(keys, 4) && EntryEnd(keys, 4) == 4;
    assert EntryFrom(keys, 3) && EntryEnd(keys, 3) == 4;
    assert EntryFrom(keys, 2) && EntryEnd(keys, 2) == 4;
    assert EntryFrom(keys, 1) && EntryEnd(keys, 1) == 4;
    assert EntryFrom(keys, 0) && EntryEnd(keys, 0) == 4;
  }

  /** A character followed by a backspace leaves the slots as they were, so
      the next character overwrites the erased one. */
  lemma EraseUndoesKey(keys: seq<char>, k: nat)
    requires k + 2 <= |keys| && keys[k] != BACKSPACE && keys[k + 1] == BACKSPACE
    ensures Typed(keys, k + 2) == Typed(keys, k)
    ensures TypedEcho(keys, k + 2) == TypedEcho(keys, k) + [keys[k]] + ERASE_ECHO
  {
    var t := Typed(keys, k);
    assert Typed(keys, k + 1) == t + [keys[k]];
    assert (t + [keys[k]])[..|t|] == t;
  }

  /** Taking the element at `j` moves it from the suffix to the prefix. */
  lemma SuffixStep<T>(s: seq<T>, j: nat)
    requires j < |s|
    ensures s[..j + 1] == s[..j] + [s[j]]
    ensures s[j..] == [s[j]] + s[j + 1..]
  {
  }

  /** Every wait consumes exactly one stop key: the one it ends on. */
  lemma {:induction false} StopKeyConsumed(keys: seq<char>)
    requires StopKeys(keys) > 0
    ensures HasStopKey(keys)
    ensures StopKeys(keys[StopIndex(keys) + 1..]) == StopKeys(keys) - 1
    decreases |keys|
  {
    if !IsStopKey(keys[0]) {
      StopKeyConsumed(keys[1..]);
      var k :| 0 <= k < |keys[1..]| && IsStopKey(keys[1..][k]);
      assert IsStopKey(keys[k + 1]);
      assert keys[StopIndex(keys) + 1..] == keys[1..][StopIndex(keys[1..]) + 1..];
    }
  }

  /** A run from its `j`-th capture starts with that interrupt's step and report. */
  lemma RunUnfold(c: Control, userAddress: u16, pcs: seq<u16>, j: nat)
    requires j < |pcs|
    ensures RunControl(c, userAddress, pcs[j..])
      == RunControl(StepControl(c, userAddress, pcs[j]), userAddress, pcs[j + 1..])
    ensures ReportedPcs(c, userAddress, pcs[j..])
      == [ReportedPc(c, userAddress)] + ReportedPcs(StepControl(c, userAddress, pcs[j]), userAddress, pcs[j + 1..])
    ensures Waits(c, userAddress, pcs[j..])
      == (if c.fl then 1 else 0) + Waits(StepControl(c, userAddress, pcs[j]), userAddress, pcs[j + 1..])
  {
    assert pcs[j..][1..] == pcs[j + 1..];
  }

  /** Once `FL` is set, every interrupt waits for a key. */
  lemma {:induction false} WaitsWhenArmed(c: Control, userAddress: u16, pcs: seq<u16>)
    requires c.fl
    ensures Waits(c, userAddress, pcs) == |pcs|
    decreases |pcs|
  {
    if pcs != [] {
      WaitsWhenArmed(StepControl(c, userAddress, pcs[0]), userAddress, pcs[1..]);
    }
  }

  /** Before it is set, only the interrupts after the first capture of the
      entered address wait: one per later capture. */
  lemma {:induction false} WaitsAfterEntry(c: Control, userAddress: u16, pcs: seq<u16>, i: nat)
    requires !c.fl && i < |pcs| && pcs[i] == userAddress && userAddress !in pcs[..i]
    ensures Waits(c, userAddress, pcs) == |pcs| - 1 - i
    decreases i
  {
    var next := StepControl(c, userAddress, pcs[0]);
    if i == 0 {
      WaitsWhenArmed(next, userAddress, pcs[1..]);
    } else {
      assert pcs[0] in pcs[..i];
      WaitsAfterEntry(next, userAddress, pcs[1..], i - 1);
    }
  }

  /** Never capturing the entered address, an unarmed run never waits. */
  lemma {:induction false} NoWaitsBeforeEntry(c: Control, userAddress: u16, pcs: seq<u16>)
    requires !c.fl && userAddress !in pcs
    ensures Waits(c, userAddress, pcs) == 0
    decreases |pcs|
  {
    if pcs != [] {
      NoWaitsBeforeEntry(StepControl(c, userAddress, pcs[0]), userAddress, pcs[1..]);
    }
  }

  /** Reports lag captures by one: the first report is the entered address (or
      the PC left from before), each later one is the previous capture. */
  lemma {:induction false} ReportsLagByOne(c: Control, userAddress: u16, pcs: seq<u16>)
    ensures ReportedPcs(c, userAddress, pcs) == ([ReportedPc(c, userAddress)] + pcs)[..|pcs|]
    decreases |pcs|
  {
    if pcs != [] {
      ReportsLagByOne(StepControl(c, userAddress, pcs[0]), userAddress, pcs[1..]);
      assert [pcs[0]] + pcs[1..] == pcs;
    }
  }

  /** After `get_user_address` the reports are the entered address followed
      by all captures but the last. */
  lemma ReportsAfterEntry(c: Control, userAddress: u16, pcs: seq<u16>)
    requires c.flagy && pcs != []
    ensures ReportedPcs(c, userAddress, pcs) == [userAddress] + pcs[..|pcs| - 1]
  {
    ReportsLagByOne(c, userAddress, pcs);
    assert ([userAddress] + pcs)[..|pcs|] == [userAddress] + pcs[..|pcs| - 1];
  }

  /** After a run `FL` is set exactly when it was set before or some interrupt
      of the run captured the entered address; a non-empty run leaves `flagy`
      clear and its last capture in `lastpc`. */
  lemma {:induction false} ExecutedFlagIffSeen(c: Control, userAddress: u16, pcs: seq<u16>)
    ensures RunControl(c, userAddress, pcs).fl == (c.fl || userAddress in pcs)
    ensures pcs != [] ==> !RunControl(c, userAddress, pcs).flagy
                          && RunControl(c, userAddress, pcs).lastpc == pcs[|pcs| - 1]
    decreases |pcs|
  {
    if pcs != [] {
      ExecutedFlagIffSeen(StepControl(c, userAddress, pcs[0]), userAddress, pcs[1..]);
      assert pcs == [pcs[0]] + pcs[1..];
    }
  }
}
