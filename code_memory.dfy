/**
 * Model of the memory editor's hex utilities and code-memory dump
 * (Memory_Interpretation_SDCC/src/code_memory.c).
 *
 * The UART is a character stream: `getchar` takes the next element of a
 * key sequence that is passed in, and whatever `putchar`/`printf` would send
 * is returned as a string. Code memory is a 64 KiB byte sequence.
 * `unsigned int` is 16 bits wide under SDCC, so every 16-bit value is a `u16`
 * and 16-bit arithmetic is written out with `% 0x1_0000`.
 */
module CodeMemory {

  type u8 = x: int | 0 <= x < 0x100
  type u16 = x: int | 0 <= x < 0x1_0000
  type u32 = x: int | 0 <= x < 0x1_0000_0000

  const MAX_DIGITS := 5
  const CARRIAGE_RETURN: char := '\r'
  const BACKSPACE: char := '\U{8}'
  const SPACE: char := ' '
  const NUMBER_BASE: u8 := 16
  const CODE_START_ADDRESS := 0x0000
  const CODE_SIZE := 0x1_0000

  /** The sixteen digits `int_to_char` produces, indexed by value. */
  const UPPER_DIGITS := "0123456789ABCDEF"
  /** The lower-case digits `char_to_int` also accepts. */
  const LOWER_DIGITS := "0123456789abcdef"

  // ---------------------------------------------------------------------
  // Digit conversion
  // ---------------------------------------------------------------------

  predicate IsDecimalChar(c: char) { '0' <= c <= '9' }
  predicate IsUpperHexChar(c: char) { IsDecimalChar(c) || 'A' <= c <= 'F' }
  predicate IsLowerHexChar(c: char) { 'a' <= c <= 'f' }
  predicate IsHexChar(c: char) { IsUpperHexChar(c) || IsLowerHexChar(c) }

  /** `int_to_char`: 0-15 become their upper-case digit, anything else becomes '0'. */
  function IntToChar(num: int): (c: char)
    ensures !(0 <= num < 16) ==> c == '0'
    ensures IsUpperHexChar(c)
  {
    if 0 <= num <= 9 then ('0' as int + num) as char
    else if 10 <= num <= 15 then ('A' as int + (num - 10)) as char
    else '0'
  }

  /** `char_to_int`: a hex digit of either case becomes its value, anything else becomes 0. */
  function CharToInt(ch: char): (d: int)
    ensures 0 <= d < 16
    ensures !IsHexChar(ch) ==> d == 0
  {
    if '0' <= ch <= '9' then ch as int - '0' as int
    else if 'A' <= ch <= 'F' then ch as int - 'A' as int + 10
    else if 'a' <= ch <= 'f' then ch as int - 'a' as int + 10
    else 0
  }

  /** Reading back a digit that `int_to_char` produced gives the value it came from. */
  lemma CharIntRoundTrip(n: int)
    requires 0 <= n < 16
    ensures CharToInt(IntToChar(n)) == n
  {
  }

  /** The digit tables: `int_to_char` maps 0-9 to '0'-'9' and 10-15 to
      'A'-'F', and `char_to_int` reads both cases back. */
  lemma DigitTables(n: int)
    requires 0 <= n < 16
    ensures IntToChar(n) == UPPER_DIGITS[n]
    ensures CharToInt(UPPER_DIGITS[n]) == n && CharToInt(LOWER_DIGITS[n]) == n
  {
    if n <= 9 {
      assert UPPER_DIGITS[n] == LOWER_DIGITS[n] == ('0' as int + n) as char;
    } else {
      assert UPPER_DIGITS[n] == ('A' as int + (n - 10)) as char;
      assert LOWER_DIGITS[n] == ('a' as int + (n - 10)) as char;
    }
  }

  // ---------------------------------------------------------------------
  // The line editor of parse_user_input
  // ---------------------------------------------------------------------

  /** The digit buffer after one keystroke: a hex digit is appended, a
      backspace drops the last digit if there is one, anything else is ignored. */
  function EditKey(digits: seq<int>, c: char): seq<int>
  {
    if IsHexChar(c) then digits + [CharToInt(c)]
    else if c == BACKSPACE && |digits| > 0 then digits[..|digits| - 1]
    else digits
  }

  /** What the editor echoes for one keystroke, given the digits live before it. */
  function KeyEcho(digits: seq<int>, c: char): string
  {
    if IsHexChar(c) then [c]
    else if c == BACKSPACE && |digits| > 0 then [BACKSPACE, SPACE, BACKSPACE]
    else []
  }

  /** The live digits after the editor has taken the first `i` keys. */
  function EditUpto(keys: seq<char>, i: nat): (ds: seq<int>)
    requires i <= |keys|
    ensures |ds| <= i
  {
    if i == 0 then [] else EditKey(EditUpto(keys, i - 1), keys[i - 1])
  }

  /** Everything the editor echoes while taking the first `i` keys. */
  function EchoUpto(keys: seq<char>, i: nat): string
    requires i <= |keys|
  {
    if i == 0 then [] else EchoUpto(keys, i - 1) + KeyEcho(EditUpto(keys, i - 1), keys[i - 1])
  }

  /** The five-entry `digits` buffer never has to hold a sixth digit while
      the first `i` keys are typed. */
  predicate FitsUpto(keys: seq<char>, i: nat)
    requires i <= |keys|
  {
    |EditUpto(keys, i)| <= MAX_DIGITS && (i == 0 || FitsUpto(keys, i - 1))
  }

  /** The 16-bit left fold `number * base + digit` over the live digits. */
  function Accumulate(base: int, ds: seq<int>): u16
  {
    if ds == [] then 0
    else (Accumulate(base, ds[..|ds| - 1]) * base + ds[|ds| - 1]) % 0x1_0000
  }

  /** The same fold in unbounded arithmetic: the value of `ds` read in `base`. */
  function Value(base: int, ds: seq<int>): int
  {
    if ds == [] then 0 else Value(base, ds[..|ds| - 1]) * base + ds[|ds| - 1]
  }

  /** Index of the first carriage return, that is, the length of the typed line. */
  function LineLength(keys: seq<char>): (n: nat)
    requires CARRIAGE_RETURN in keys
    ensures n < |keys| && keys[n] == CARRIAGE_RETURN
    ensures forall k :: 0 <= k < n ==> keys[k] != CARRIAGE_RETURN
  {
    FindCarriageReturn(keys, 0)
  }

  /** The first carriage return at or after `from`. */
  function FindCarriageReturn(keys: seq<char>, from: nat): (n: nat)
    requires from <= |keys| && CARRIAGE_RETURN in keys[from..]
    ensures from <= n < |keys| && keys[n] == CARRIAGE_RETURN
    ensures forall k :: from <= k < n ==> keys[k] != CARRIAGE_RETURN
    decreases |keys| - from
  {
    if keys[from] == CARRIAGE_RETURN then from
    else
      assert CARRIAGE_RETURN in keys[from + 1..] by {
        var j :| 0 <= j < |keys[from..]| && keys[from..][j] == CARRIAGE_RETURN;
        assert j > 0 && keys[from + 1..][j - 1] == CARRIAGE_RETURN;
      }
      FindCarriageReturn(keys, from + 1)
  }

  /** `keys` starts with a carriage-return-terminated line that fits the digit buffer. */
  predicate HasLine(keys: seq<char>)
  {
    CARRIAGE_RETURN in keys && FitsUpto(keys, LineLength(keys))
  }

  /** The keys left after the first line and its carriage return. */
  function AfterLine(keys: seq<char>): seq<char>
    requires CARRIAGE_RETURN in keys
  {
    keys[LineLength(keys) + 1..]
  }

  /** The digits live when the carriage return of the first line arrives. */
  function LineDigits(keys: seq<char>): seq<int>
    requires CARRIAGE_RETURN in keys
  {
    EditUpto(keys, LineLength(keys))
  }

  /** What the editor echoes for the first line. */
  function LineEcho(keys: seq<char>): string
    requires CARRIAGE_RETURN in keys
  {
    EchoUpto(keys, LineLength(keys))
  }

  /** What `parse_user_input(16)` returns for the line at the front of `keys`. */
  function LineValue(keys: seq<char>): u16
    requires HasLine(keys)
  {
    Accumulate(NUMBER_BASE, LineDigits(keys))
  }

  /** Every shorter prefix of a prefix that fits the buffer fits it too. */
  lemma {:induction false} FitsBelow(keys: seq<char>, i: nat, k: nat)
    requires i <= |keys| && FitsUpto(keys, i) && k <= i
    ensures |EditUpto(keys, k)| <= MAX_DIGITS
    decreases i
  {
    if k < i {
      FitsBelow(keys, i - 1, k);
    }
  }

  /** While no carriage return has been read, the next key is still part of
      the line or is its carriage return, and taking it leaves at most five digits. */
  lemma KeyInLine(keys: seq<char>, i: nat)
    requires HasLine(keys) && i <= LineLength(keys) + 1
    requires i == 0 || keys[i - 1] != CARRIAGE_RETURN
    ensures i <= LineLength(keys)
    ensures |EditKey(EditUpto(keys, i), keys[i])| <= MAX_DIGITS
  {
    var n := LineLength(keys);
    if i > 0 {
      assert keys[i - 1] != CARRIAGE_RETURN;
    }
    if i < n {
      FitsBelow(keys, n, i + 1);
    } else {
      FitsBelow(keys, n, n);
    }
  }

  /** Once the carriage return has been read, the digits and the echo are the line's. */
  lemma LineEnd(keys: seq<char>, i: nat)
    requires CARRIAGE_RETURN in keys && 0 < i <= LineLength(keys) + 1
    requires keys[i - 1] == CARRIAGE_RETURN
    ensures i == LineLength(keys) + 1
    ensures EditUpto(keys, i) == LineDigits(keys) && EchoUpto(keys, i) == LineEcho(keys)
  {
    LineLengthAt(keys, i - 1);
  }

  /** `parse_user_input`: reads keys up to and including the first carriage
      return, echoing and editing as it goes, then folds the live digits. */
  method ParseUserInput(keys: seq<char>, base: u8) returns (number: u16, echo: string, rest: seq<char>)
    requires HasLine(keys)
    ensures number == Accumulate(base, LineDigits(keys))
    ensures echo == LineEcho(keys)
    ensures rest == AfterLine(keys)
  {
    ghost var n := LineLength(keys);
    var digits := new int[MAX_DIGITS](_ => 0);
    var digitCount: nat := 0;
    var currentChar: char := '\0';
    var i := 0;
    echo := [];
    while currentChar != CARRIAGE_RETURN
      invariant 0 <= i <= n + 1
      invariant i == 0 ==> currentChar == '\0'
      invariant i > 0 ==> currentChar == keys[i - 1]
      invariant digitCount <= MAX_DIGITS && digits[..digitCount] == EditUpto(keys, i)
      invariant echo == EchoUpto(keys, i)
      decreases n + 1 - i
    {
      KeyInLine(keys, i);
      currentChar := keys[i];
      var keyEcho;
      digitCount, keyEcho := TakeKey(digits, digitCount, currentChar);
      echo := echo + keyEcho;
      i := i + 1;
    }
    LineEnd(keys, i);
    rest := keys[i..];
    number := FoldDigits(digits, digitCount, base);
  }

  /** The body of the editing loop of `parse_user_input` for one key `c`:
      a hex digit is stored and echoed, a backspace with a digit to erase
      erases it on screen and in the buffer, any other key is dropped. */
  method TakeKey(digits: array<int>, digitCount: nat, c: char) returns (newCount: nat, keyEcho: string)
    requires digitCount <= digits.Length == MAX_DIGITS
    requires |EditKey(digits[..digitCount], c)| <= MAX_DIGITS
    modifies digits
    ensures newCount <= MAX_DIGITS
    ensures digits[..newCount] == EditKey(old(digits[..digitCount]), c)
    ensures keyEcho == KeyEcho(old(digits[..digitCount]), c)
  {
    ghost var live := digits[..digitCount];
    newCount, keyEcho := digitCount, [];
    if IsHexChar(c) {
      keyEcho := [c];
      digits[digitCount] := CharToInt(c);
      assert digits[..digitCount + 1] == live + [CharToInt(c)];
      newCount := digitCount + 1;
    } else if c == BACKSPACE && digitCount > 0 {
      keyEcho := [BACKSPACE, SPACE, BACKSPACE];
      assert digits[..digitCount - 1] == live[..digitCount - 1];
      newCount := digitCount - 1;
    }
  }

  /** The closing loop of `parse_user_input`: `number = number * base + digits[i]`
      over the live digits, in 16-bit unsigned arithmetic. */
  method FoldDigits(digits: array<int>, count: nat, base: u8) returns (number: u16)
    requires count <= digits.Length
    ensures number == Accumulate(base, digits[..count])
  {
    number := 0;
    var j := 0;
    while j < count
      invariant 0 <= j <= count
      invariant number == Accumulate(base, digits[..j])
    {
      AccumulatePrefix(base, digits[..count], j);
      assert digits[..count][..j] == digits[..j] && digits[..count][..j + 1] == digits[..j + 1];
      number := (number * base + digits[j]) % 0x1_0000;
      j := j + 1;
    }
  }

  lemma AccumulatePrefix(base: int, ds: seq<int>, j: nat)
    requires j < |ds|
    ensures Accumulate(base, ds[..j + 1]) == (Accumulate(base, ds[..j]) * base + ds[j]) % 0x1_0000
  {
    assert ds[..j + 1][..j] == ds[..j];
  }

  lemma AccumulateStep(base: int, ds: seq<int>, d: int)
    ensures Accumulate(base, ds + [d]) == (Accumulate(base, ds) * base + d) % 0x1_0000
  {
    assert (ds + [d])[..|ds|] == ds;
  }

  /** The 16-bit fold is the value of the digits reduced modulo 2^16. */
  lemma {:induction false} AccumulateIsValueMod(base: int, ds: seq<int>)
    ensures Accumulate(base, ds) == Value(base, ds) % 0x1_0000
  {
    if ds != [] {
      var pre := ds[..|ds| - 1];
      AccumulateIsValueMod(base, pre);
      var a, v := Accumulate(base, pre), Value(base, pre);
      var q := v / 0x1_0000;
      assert v == q * 0x1_0000 + a;
      assert v * base + ds[|ds| - 1] == (a * base + ds[|ds| - 1]) + (q * base) * 0x1_0000 by {
        assert v * base == a * base + (q * base) * 0x1_0000;
      }
      ModMultipleAdded(a * base + ds[|ds| - 1], q * base);
    }
  }

  /** Digits whose value fits in 16 bits lose nothing in the 16-bit fold. */
  lemma SmallValueKept(ds: seq<int>, n: u16)
    requires Value(16, ds) == n
    ensures Accumulate(NUMBER_BASE, ds) == n
  {
    AccumulateIsValueMod(16, ds);
  }

  lemma ModMultipleAdded(x: int, m: int)
    ensures (x + m * 0x1_0000) % 0x1_0000 == x % 0x1_0000
  {
  }

  /** An empty line (only a carriage return, or digits all erased) gives 0. */
  lemma EmptyLineIsZero(keys: seq<char>)
    requires HasLine(keys) && LineDigits(keys) == []
    ensures LineValue(keys) == 0
  {
  }

  // ---------------------------------------------------------------------
  // print_hex_number
  // ---------------------------------------------------------------------

  function Pow16(k: nat): (p: nat)
    ensures p >= 1
  {
    if k == 0 then 1 else 16 * Pow16(k - 1)
  }

  /** The hex digits of `n`, most significant first, with no leading zero ("0" for 0). */
  function HexDigits(n: nat): (s: string)
    ensures 1 <= |s|
  {
    if n < 16 then [IntToChar(n)] else HexDigits(n / 16) + [IntToChar(n % 16)]
  }

  function Zeros(k: int): (s: string)
    ensures |s| == if k > 0 then k else 0
  {
    seq(if k > 0 then k else 0, _ => '0')
  }

  /** What `print_hex_number(n, width)` sends: leading '0's up to `width`, then the digits. */
  function HexText(n: nat, width: int): string
  {
    Zeros(width - |HexDigits(n)|) + HexDigits(n)
  }

  /** `num` with its `k` lowest hex digits dropped: `num / 16^k`. */
  function Shift(num: nat, k: nat): nat
  {
    if k == 0 then num else Shift(num / 16, k - 1)
  }

  /** Hex digit `k` of `num`, counted from the least significant one. */
  function Digit(num: nat, k: nat): char
  {
    IntToChar(Shift(num, k) % 16)
  }

  /** `print_hex_number`: a do-while fills the buffer least significant digit
      first, '0's pad up to `width`, and the buffer is sent backwards. */
  method PrintHexNumber(num: u32, width: u8) returns (out: string)
    ensures out == HexText(num, width)
  {
    ghost var digits := HexDigits(num);
    var buffer := new char[10](_ => '0');
    var n: nat := num;
    buffer[0] := IntToChar(n % 16);
    n := n / 16;
    var digitCount := 1;
    while n > 0
      invariant 1 <= digitCount <= 8
      invariant n == Shift(num, digitCount)
      invariant digitCount == 1 || Pow16(digitCount - 1) <= num
      invariant forall k :: 0 <= k < digitCount ==> buffer[k] == Digit(num, k)
    {
      ShiftStep(num, digitCount);
      ShiftPositive(num, digitCount);
      buffer[digitCount] := IntToChar(n % 16);
      n := n / 16;
      digitCount := digitCount + 1;
    }
    ShiftZero(num, digitCount);
    DigitCountIsLength(num, digitCount);
    ghost var pad := Zeros(width - digitCount);
    out := [];
    var w: int := width;
    while digitCount < w
      invariant w <= width
      invariant out == Zeros(width - w)
      invariant w < width ==> digitCount <= w
      invariant forall k :: 0 <= k < digitCount ==> buffer[k] == Digit(num, k)
    {
      ZerosSnoc(width - w);
      out := out + ['0'];
      w := w - 1;
    }
    var i := digitCount - 1;
    while i >= 0
      invariant -1 <= i < digitCount
      invariant out == pad + digits[..digitCount - 1 - i]
      invariant forall k :: 0 <= k < digitCount ==> buffer[k] == Digit(num, k)
    {
      EmitStep(pad, num, i);
      out := out + [buffer[i]];
      i := i - 1;
    }
    assert digits[..digitCount] == digits;
  }

  lemma ZerosSnoc(k: int)
    requires k >= 0
    ensures Zeros(k) + ['0'] == Zeros(k + 1)
  {
  }

  /** Sending buffer entry `i` extends the output by the next digit of `HexDigits(num)`. */
  lemma EmitStep(pad: string, num: nat, i: nat)
    requires i < |HexDigits(num)|
    ensures var ds := HexDigits(num);
      pad + ds[..|ds| - 1 - i] + [Digit(num, i)] == pad + ds[..|ds| - i]
  {
    var ds := HexDigits(num);
    HexDigitsAt(num, i);
    assert ds[..|ds| - i] == ds[..|ds| - 1 - i] + [Digit(num, i)];
  }

  lemma {:induction false} ShiftStep(num: nat, k: nat)
    ensures Shift(num, k + 1) == Shift(num, k) / 16
  {
    if k > 0 {
      ShiftStep(num / 16, k - 1);
    }
  }

  /** Something is left after dropping k digits only if the number is at least 16^k;
      below 2^32 that leaves k < 8. */
  lemma {:induction false} ShiftPositive(num: nat, k: nat)
    requires Shift(num, k) > 0
    ensures Pow16(k) <= num
    ensures num < 0x1_0000_0000 ==> k < 8
  {
    if k > 0 {
      ShiftPositive(num / 16, k - 1);
    }
    if k >= 8 {
      Pow16Monotone(8, k);
    }
  }

  /** Nothing is left after dropping k digits only if the number is below 16^k. */
  lemma {:induction false} ShiftZero(num: nat, k: nat)
    requires Shift(num, k) == 0
    ensures num < Pow16(k)
  {
    if k > 0 {
      ShiftZero(num / 16, k - 1);
    }
  }

  /** 16^k grows with k. */
  lemma {:induction false} Pow16Monotone(j: nat, k: nat)
    requires j <= k
    ensures Pow16(j) <= Pow16(k)
    decreases k
  {
    if j < k {
      Pow16Monotone(j, k - 1);
    }
  }

  /** The number of digits `print_hex_number` produces is the length of `HexDigits`. */
  lemma DigitCountIsLength(num: nat, k: nat)
    requires 1 <= k && num < Pow16(k)
    requires k == 1 || Pow16(k - 1) <= num
    ensures |HexDigits(num)| == k
  {
    HexDigitsCount(num);
    var d := |HexDigits(num)|;
    if d < k {
      Pow16Monotone(d, k - 1);
    } else if d > k {
      Pow16Monotone(k, d - 1);
    }
  }

  /** Position `k` from the right in `HexDigits(num)` holds `Digit(num, k)`. */
  lemma {:induction false} HexDigitsAt(num: nat, k: nat)
    requires k < |HexDigits(num)|
    ensures HexDigits(num)[|HexDigits(num)| - 1 - k] == Digit(num, k)
  {
    if num >= 16 && k > 0 {
      HexDigitsAt(num / 16, k - 1);
    }
  }

  /** `int_to_char` only produces upper-case hex digits, so neither does `HexDigits`. */
  lemma {:induction false} HexDigitsAreHex(n: nat)
    ensures forall k :: 0 <= k < |HexDigits(n)| ==> IsUpperHexChar(HexDigits(n)[k])
  {
    if n >= 16 {
      HexDigitsAreHex(n / 16);
    }
  }

  /** Dropping `k` hex digits is dividing by 16^k. */
  lemma {:induction false} ShiftIsDivision(num: nat, k: nat)
    ensures Shift(num, k) == num / Pow16(k)
  {
    if k > 0 {
      ShiftIsDivision(num / 16, k - 1);
      DivideTwice(num, Pow16(k - 1));
    }
  }

  lemma DivideTwice(a: nat, c: nat)
    requires c >= 1
    ensures (a / 16) / c == a / (16 * c)
  {
    var t, u := a / 16, a % 16;
    var q, r := t / c, t % c;
    assert (16 * c) * q == 16 * (c * q);
    assert a == (16 * c) * q + (16 * r + u);
    DivisionUnique(a, 16 * c, q, 16 * r + u);
  }

  /** Euclidean division has one quotient. */
  lemma DivisionUnique(a: int, b: int, q: int, r: int)
    requires b > 0 && a == b * q + r && 0 <= r < b
    ensures a / b == q
  {
    var q', r' := a / b, a % b;
    assert b * (q - q') == r' - r;
    if q > q' {
      MultipleAtLeast(b, q - q');
    } else if q < q' {
      MultipleAtLeast(b, q' - q);
    }
  }

  lemma MultipleAtLeast(b: int, x: int)
    requires b > 0 && x >= 1
    ensures b * x >= b
  {
  }

  /** A number below 16^k has at most k hex digits. */
  lemma {:induction false} HexDigitsBound(n: nat, k: nat)
    requires 1 <= k && n < Pow16(k)
    ensures |HexDigits(n)| <= k
  {
    if n >= 16 {
      assert k > 1;
      assert n / 16 < Pow16(k - 1);
      HexDigitsBound(n / 16, k - 1);
    }
  }

  /** The digit count is the least k with n < 16^k: no leading zero, and "0" for 0. */
  lemma {:induction false} HexDigitsCount(n: nat)
    ensures n < Pow16(|HexDigits(n)|)
    ensures |HexDigits(n)| == 1 || Pow16(|HexDigits(n)| - 1) <= n
  {
    if n >= 16 {
      HexDigitsCount(n / 16);
    }
  }

  /** `print_hex_number` emits max(width, k) characters, k being the digit count of `n`. */
  lemma HexTextLength(n: nat, width: int)
    ensures |HexText(n, width)| == if width > |HexDigits(n)| then width else |HexDigits(n)|
  {
  }

  /** Reading the digits back with `char_to_int`, most significant first. */
  function DigitsValue(s: string): nat
  {
    if s == [] then 0 else DigitsValue(s[..|s| - 1]) * 16 + CharToInt(s[|s| - 1])
  }

  lemma {:induction false} ZerosValue(k: int)
    ensures DigitsValue(Zeros(k)) == 0
    decreases k
  {
    if k > 0 {
      assert Zeros(k)[..|Zeros(k)| - 1] == Zeros(k - 1);
      ZerosValue(k - 1);
    }
  }

  lemma {:induction false} LeadingZerosValue(k: int, s: string)
    ensures DigitsValue(Zeros(k) + s) == DigitsValue(s)
  {
    if s == [] {
      assert Zeros(k) + s == Zeros(k);
      ZerosValue(k);
    } else {
      var z := Zeros(k) + s;
      assert z[..|z| - 1] == Zeros(k) + s[..|s| - 1];
      LeadingZerosValue(k, s[..|s| - 1]);
    }
  }

  lemma {:induction false} HexDigitsValue(n: nat)
    ensures DigitsValue(HexDigits(n)) == n
  {
    if n >= 16 {
      var s := HexDigits(n);
      assert s[..|s| - 1] == HexDigits(n / 16);
      HexDigitsValue(n / 16);
      CharIntRoundTrip(n % 16);
    } else {
      CharIntRoundTrip(n);
    }
  }

  /** What `print_hex_number` prints reads back, with `char_to_int`, as the number printed. */
  lemma HexTextReadBack(n: nat, width: int)
    ensures DigitsValue(HexText(n, width)) == n
  {
    LeadingZerosValue(width - |HexDigits(n)|, HexDigits(n));
    HexDigitsValue(n);
  }

  // ---------------------------------------------------------------------
  // print_hex_number feeds parse_user_input
  // ---------------------------------------------------------------------

  /** Keys that are all hex digits: the editor keeps every one of them as a digit. */
  lemma {:induction false} EditAllHex(keys: seq<char>, k: nat)
    requires k <= |keys|
    requires forall j :: 0 <= j < k ==> IsHexChar(keys[j])
    ensures |EditUpto(keys, k)| == k
    ensures Value(16, EditUpto(keys, k)) == DigitsValue(keys[..k])
  {
    if k > 0 {
      EditAllHex(keys, k - 1);
      var ds := EditUpto(keys, k);
      assert ds == EditUpto(keys, k - 1) + [CharToInt(keys[k - 1])];
      assert ds[..|ds| - 1] == EditUpto(keys, k - 1);
      assert keys[..k][..k - 1] == keys[..k - 1];
    }
  }

  lemma {:induction false} FitsAllHex(keys: seq<char>, k: nat)
    requires k <= |keys| && k <= MAX_DIGITS
    requires forall j :: 0 <= j < k ==> IsHexChar(keys[j])
    ensures FitsUpto(keys, k)
  {
    EditAllHex(keys, k);
    if k > 0 {
      FitsAllHex(keys, k - 1);
    }
  }

  /** Typing what `print_hex_number(n, width)` prints, then a carriage return,
      makes `parse_user_input(16)` return `n`, for a 16-bit `n` and width up to 5. */
  lemma ParseReadsPrintedHex(n: u16, width: int, after: seq<char>)
    requires width <= MAX_DIGITS
    ensures var keys := HexText(n, width) + [CARRIAGE_RETURN] + after;
      HasLine(keys) && LineValue(keys) == n && AfterLine(keys) == after
  {
    var text := HexText(n, width);
    var keys := text + [CARRIAGE_RETURN] + after;
    var k := |text|;
    HexDigitsBound(n, 4);
    assert k <= MAX_DIGITS;
    HexDigitsAreHex(n);
    assert forall j :: 0 <= j < k ==> keys[j] == text[j] && IsHexChar(text[j]);
    LineLengthAt(keys, k);
    FitsAllHex(keys, k);
    var ds := EditUpto(keys, k);
    EditAllHex(keys, k);
    assert keys[..k] == text;
    HexTextReadBack(n, width);
    assert Value(16, ds) == n;
    SmallValueKept(ds, n);
    assert LineDigits(keys) == ds;
    assert LineValue(keys) == n;
    assert keys[k + 1..] == after;
  }

  lemma LineLengthAt(keys: seq<char>, n: nat)
    requires n < |keys| && keys[n] == CARRIAGE_RETURN
    requires forall k :: 0 <= k < n ==> keys[k] != CARRIAGE_RETURN
    ensures CARRIAGE_RETURN in keys && LineLength(keys) == n
  {
    assert keys[n] in keys;
  }

  // ---------------------------------------------------------------------
  // The dump layout shared by code_memory_read and the XRAM dumps
  // ---------------------------------------------------------------------

  /** One dump cell: a row header (`rowBreak`, the 4-digit address, ": ")
      when the cell starts a row, then the byte in two digits and two spaces. */
  function Cell(address: nat, rowStart: bool, b: u8, rowBreak: string): string
  {
    (if rowStart then rowBreak + HexText(address, 4) + ": " else "")
    + HexText(b, 2) + "  "
  }

  /** The cells for the bytes `vals`, the first at address `start`; a row
      starts at every 16th byte counted from the first. */
  function Cells(start: nat, vals: seq<u8>, rowBreak: string): (cs: seq<string>)
    ensures |cs| == |vals|
  {
    seq(|vals|, o requires 0 <= o < |vals| => Cell(start + o, o % 16 == 0, vals[o], rowBreak))
  }

  function Concat(cs: seq<string>): string
  {
    if cs == [] then [] else Concat(cs[..|cs| - 1]) + cs[|cs| - 1]
  }

  /** The dump of the bytes `vals`, the first of them at address `start`. */
  function Dump(start: nat, vals: seq<u8>, rowBreak: string): string
  {
    Concat(Cells(start, vals, rowBreak))
  }

  /** The bytes of `mem` from `startAddress` to `endAddress` inclusive; none when the range is empty. */
  function Range(mem: seq<u8>, startAddress: nat, endAddress: nat): seq<u8>
    requires endAddress < |mem|
  {
    if startAddress <= endAddress then mem[startAddress..endAddress + 1] else []
  }

  lemma {:induction false} ConcatAppend(x: seq<string>, y: seq<string>)
    ensures Concat(x + y) == Concat(x) + Concat(y)
  {
    if y == [] {
      assert x + y == x;
    } else {
      assert (x + y)[..|x + y| - 1] == x + y[..|y| - 1];
      ConcatAppend(x, y[..|y| - 1]);
    }
  }

  /** One more byte adds one more cell at the end of the dump. */
  lemma DumpSnoc(start: nat, vals: seq<u8>, b: u8, rowBreak: string)
    ensures Dump(start, vals + [b], rowBreak)
      == Dump(start, vals, rowBreak) + Cell(start + |vals|, |vals| % 16 == 0, b, rowBreak)
  {
    var c := Cell(start + |vals|, |vals| % 16 == 0, b, rowBreak);
    assert Cells(start, vals + [b], rowBreak) == Cells(start, vals, rowBreak) + [c];
    ConcatAppend(Cells(start, vals, rowBreak), [c]);
    assert Concat([c]) == Concat([]) + c;
  }

  /** A byte counter that wraps at 256 still marks every 16th offset, since 16 divides 256. */
  lemma ByteCounterRow(offset: nat)
    ensures (offset % 256) % 16 == offset % 16
  {
    var q, r := offset / 256, offset % 256;
    var q2, r2 := r / 16, r % 16;
    assert offset == 16 * (16 * q + q2) + r2;
    ModSixteen(offset, 16 * q + q2, r2);
  }

  lemma ModSixteen(a: int, q: int, r: int)
    requires 0 <= r < 16 && a == 16 * q + r
    ensures a % 16 == r
  {
  }

  /** The byte counter steps like the offset, modulo 256. */
  lemma ByteCounterStep(offset: nat)
    ensures (offset % 256 + 1) % 256 == (offset + 1) % 256
  {
    var q := offset / 256;
    assert offset + 1 == 256 * q + (offset % 256 + 1);
  }

  /** Two-digit bytes and four-digit addresses: every cell has a fixed width. */
  lemma CellLength(address: nat, rowStart: bool, b: u8, rowBreak: string)
    requires address < 0x1_0000
    ensures |Cell(address, rowStart, b, rowBreak)| == 4 + if rowStart then |rowBreak| + 6 else 0
  {
    HexDigitsBound(address, 4);
    HexDigitsBound(b, 2);
  }

  /** The dump's size: four characters per byte plus one header per started row of 16. */
  lemma {:induction false} DumpLength(start: nat, vals: seq<u8>, rowBreak: string)
    requires start + |vals| <= 0x1_0000
    ensures |Dump(start, vals, rowBreak)| == 4 * |vals| + ((|vals| + 15) / 16) * (|rowBreak| + 6)
  {
    if vals != [] {
      var n := |vals| - 1;
      DumpLength(start, vals[..n], rowBreak);
      assert vals == vals[..n] + [vals[n]];
      DumpSnoc(start, vals[..n], vals[n], rowBreak);
      CellLength(start + n, n % 16 == 0, vals[n], rowBreak);
      RowsStep(n, |rowBreak| + 6);
    }
  }

  /** One more byte starts a new row exactly when the bytes so far fill whole rows. */
  lemma RowsStep(n: nat, w: nat)
    ensures ((n + 16) / 16) * w == ((n + 15) / 16) * w + (if n % 16 == 0 then w else 0)
  {
    var q, r := n / 16, n % 16;
    assert n + 16 == 16 * (q + 1) + r;
    assert (n + 16) / 16 == q + 1;
    if r == 0 {
      assert n + 15 == 16 * q + 15;
      assert (n + 15) / 16 == q;
    } else {
      assert n + 15 == 16 * (q + 1) + (r - 1);
      assert (n + 15) / 16 == q + 1;
    }
    assert (q + 1) * w == q * w + w;
  }

  lemma ModShift(a: nat, n: nat)
    requires a % 16 == 0
    ensures (a + n) % 16 == n % 16
  {
    var q := a / 16 + n / 16;
    assert a + n == 16 * q + n % 16;
    DivisionUnique(a + n, 16, q, n % 16);
  }

  /** Rows are independent: a dump splits after any whole number of rows. */
  lemma DumpSplit(start: nat, a: seq<u8>, b: seq<u8>, rowBreak: string)
    requires |a| % 16 == 0
    ensures Dump(start, a + b, rowBreak) == Dump(start, a, rowBreak) + Dump(start + |a|, b, rowBreak)
  {
    var x, y := Cells(start, a, rowBreak), Cells(start + |a|, b, rowBreak);
    forall o | |a| <= o < |a| + |b|
      ensures (a + b)[o] == b[o - |a|] && o % 16 == (o - |a|) % 16
    {
      ModShift(|a|, o - |a|);
    }
    assert Cells(start, a + b, rowBreak) == x + y;
    ConcatAppend(x, y);
  }

  /** The body of the loop of `code_memory_read` for one address: the row
      header when `rowStart` holds, then the byte and its two spaces. */
  method PrintCell(addr: u16, rowStart: bool, b: u8) returns (out: string)
    ensures out == Cell(addr, rowStart, b, "\n\r")
  {
    out := [];
    if rowStart {
      out := out + ['\n', '\r'];
      var hex := PrintHexNumber(addr, 4);
      out := out + hex + ": ";
    }
    var cell := PrintHexNumber(b, 2);
    out := out + cell + "  ";
  }

  /** `code_memory_read`: one cell per address from start to end inclusive,
      then "\r\n". The loop ends only because `endAddress < 0xFFFF`: with
      0xFFFF every 16-bit `addr` satisfies `addr <= endAddress`. */
  method CodeMemoryRead(code: seq<u8>, startAddress: u16, endAddress: u16) returns (out: string)
    requires |code| == CODE_SIZE
    requires endAddress < 0xFFFF
    ensures out == Dump(startAddress, Range(code, startAddress, endAddress), "\n\r") + "\r\n"
  {
    var count: u8 := 0;
    var addr: u16 := startAddress;
    out := [];
    while addr <= endAddress
      invariant startAddress <= addr
      invariant addr == startAddress || addr <= endAddress + 1
      invariant count == (addr - startAddress) % 256
      invariant out == Dump(startAddress, code[startAddress..addr], "\n\r")
    {
      var offset := addr - startAddress;
      ByteCounterRow(offset);
      ByteCounterStep(offset);
      assert code[startAddress..addr + 1] == code[startAddress..addr] + [code[addr]];
      DumpSnoc(startAddress, code[startAddress..addr], code[addr], "\n\r");
      var cell := PrintCell(addr, count % 16 == 0, code[addr]);
      out := out + cell;
      count := (count + 1) % 256;
      addr := addr + 1;
    }
    out := out + "\r\n";
  }

  // ---------------------------------------------------------------------
  // read_code_memory
  // ---------------------------------------------------------------------

  const START_PROMPT := "\r\n Enter Start Address (Code Memory): "
  const END_PROMPT := "\r\n Enter End Address (Code Memory): "
  const INVALID_START := "\r\n Invalid Code Memory Start Address. Must be >= 0x0000.\r\n"
  const INVALID_END := "\r\n Invalid Code Memory End Address. Must be >= 0x0000.\r\n"
  const CODE_BANNER := "\r\n-----------------------CODE MEMORY CONTENTS----------------------\r\n"
  const COLUMN_HEADER := "Addr: +0  +1  +2  +3  +4  +5  +6  +7  +8  +9  +A  +B  +C  +D  +E  +F\r\n"
  const CODE_FOOTER := "\r\n-------------------------------------------------------------------\r\n"

  /** Neither of the range checks of `read_code_memory` can reject a 16-bit address. */
  lemma AddressGuardsNeverReject(a: u16)
    ensures !(a < CODE_START_ADDRESS)
  {
  }

  /** `read_code_memory`: two address lines, then the dump. The checks against
      0x0000 never fire, so every range is dumped, an empty one included. */
  method ReadCodeMemory(code: seq<u8>, keys: seq<char>) returns (out: string, rest: seq<char>)
    requires |code| == CODE_SIZE
    requires HasLine(keys) && HasLine(AfterLine(keys))
    requires LineValue(AfterLine(keys)) < 0xFFFF
    ensures var keys2 := AfterLine(keys);
      var s, e := LineValue(keys), LineValue(keys2);
      && rest == AfterLine(keys2)
      && out == START_PROMPT + LineEcho(keys) + "\r\n"
                + END_PROMPT + LineEcho(keys2) + "\r\n"
                + CODE_BANNER + "\r\n" + COLUMN_HEADER
                + Dump(s, Range(code, s, e), "\n\r") + "\r\n"
                + CODE_FOOTER
  {
    out := START_PROMPT;
    var startAddress, echo1, rest1 := ParseUserInput(keys, NUMBER_BASE);
    out := out + echo1 + "\r\n";
    if startAddress < CODE_START_ADDRESS {
      out := out + INVALID_START;
      rest := rest1;
      return;
    }
    out := out + END_PROMPT;
    var endAddress, echo2, rest2 := ParseUserInput(rest1, NUMBER_BASE);
    out := out + echo2 + "\r\n";
    rest := rest2;
    if endAddress < CODE_START_ADDRESS {
      out := out + INVALID_END;
      return;
    }
    out := out + CODE_BANNER + "\r\n" + COLUMN_HEADER;
    var dump := CodeMemoryRead(code, startAddress, endAddress);
    out := out + dump + CODE_FOOTER;
  }
}
