/** Formatted output through a fixed buffer and formatted input from a refilled one. */
module BufferedIO {

  const MAX_BUFFER_SIZE := 256
  const LIMIT := 0x8000_0000

  type Int32 = x: int | -LIMIT <= x < LIMIT
  type Uint32 = x: int | 0 <= x < 2 * LIMIT

  // ---------- what is meant: plain strings ----------

  function DigitChar(d: nat): char
    requires d < 10
  {
    (d + '0' as nat) as char
  }

  function HexChar(d: nat): char
    requires d < 16
  {
    if d < 10 then DigitChar(d) else (d - 10 + 'a' as nat) as char
  }

  function Digits(n: nat): string {
    if n < 10 then [DigitChar(n)] else Digits(n / 10) + [DigitChar(n % 10)]
  }

  function HexDigits(n: nat): string {
    if n < 16 then [HexChar(n)] else HexDigits(n / 16) + [HexChar(n % 16)]
  }

  function Decimal(n: int): string {
    if n < 0 then "-" + Digits(-n) else Digits(n)
  }

  datatype Arg = D(d: Int32) | X(x: Uint32) | S(s: string) | C(c: char)

  // Arguments of the kinds the format asks for, after a mark or not; `%%` asks for none.
  predicate Suits(format: string, marked: bool, args: seq<Arg>) {
    if format == "" then true
    else if !marked then Suits(format[1..], format[0] == '%', args)
    else
      match format[0]
      case '%' => Suits(format[1..], false, args)
      case 'd' => args != [] && args[0].D? && Suits(format[1..], false, args[1..])
      case 'x' => args != [] && args[0].X? && Suits(format[1..], false, args[1..])
      case 's' => args != [] && args[0].S? && Suits(format[1..], false, args[1..])
      case 'c' => args != [] && args[0].C? && Suits(format[1..], false, args[1..])
      case _ => true
  }

  function ArgText(a: Arg): string {
    match a
    case D(d) => Decimal(d)
    case X(x) => HexDigits(x)
    case S(s) => s
    case C(c) => [c]
  }

  /** The text a format stands for; anything else after a mark ends it. */
  function Formatted(format: string, marked: bool, args: seq<Arg>): string
    requires Suits(format, marked, args)
  {
    if format == "" then ""
    else if !marked then
      (if format[0] == '%' then "" else [format[0]]) + Formatted(format[1..], format[0] == '%', args)
    else if format[0] == '%' then "%" + Formatted(format[1..], false, args)
    else if IsConversion(format[0]) then ArgText(args[0]) + Formatted(format[1..], false, args[1..])
    else ""
  }

  predicate IsConversion(c: char) {
    c == 'd' || c == 'x' || c == 's' || c == 'c'
  }

  // What one character of the format adds.
  lemma FormatNext(f: string, marked: bool, a: seq<Arg>)
    requires f != "" && Suits(f, marked, a)
    ensures !marked ==>
      && Suits(f[1..], f[0] == '%', a)
      && Formatted(f, marked, a) == (if f[0] == '%' then "" else [f[0]]) + Formatted(f[1..], f[0] == '%', a)
    ensures marked && f[0] == '%' ==> Suits(f[1..], false, a) && Formatted(f, marked, a) == "%" + Formatted(f[1..], false, a)
    ensures marked && IsConversion(f[0]) ==>
      && a != [] && Suits(f[1..], false, a[1..])
      && Formatted(f, marked, a) == ArgText(a[0]) + Formatted(f[1..], false, a[1..])
    ensures marked && f[0] != '%' && !IsConversion(f[0]) ==> Formatted(f, marked, a) == ""
  {
  }

  lemma FormatEnd(marked: bool, a: seq<Arg>)
    requires Suits("", marked, a)
    ensures Formatted("", marked, a) == ""
  {
  }

  lemma Assoc(a: string, b: string, c: string)
    ensures (a + b) + c == a + (b + c)
  {
  }

  // ---------- output ----------

  class Printer {
    const buffer: array<char>
    var count: nat
    var written: string  // all that was handed to the system

    constructor ()
      ensures fresh(buffer) && Ready() && written == "" && Text() == ""
    {
      buffer := new char[MAX_BUFFER_SIZE](_ => ' ');
      count, written := 0, "";
    }

    predicate Ready()
      reads this
    {
      buffer.Length == MAX_BUFFER_SIZE && count < MAX_BUFFER_SIZE
    }

    /** Everything printed so far. */
    function Text(): string
      requires buffer.Length == MAX_BUFFER_SIZE && count <= MAX_BUFFER_SIZE
      reads this, buffer
    {
      written + buffer[..count]
    }

    method Put(c: char)
      requires Ready()
      modifies this, buffer
      ensures Ready() && Text() == old(Text()) + [c]
    {
      buffer[count] := c;
      count := count + 1;
      assert buffer[..count] == old(buffer[..count]) + [c];
      if count == MAX_BUFFER_SIZE {
        written := written + buffer[..MAX_BUFFER_SIZE];
        count := 0;
      }
    }

    method Str2Str(s: string)
      requires Ready()
      modifies this, buffer
      ensures Ready() && Text() == old(Text()) + s
    {
      var i := 0;
      while i < |s|
        invariant i <= |s| && Ready() && Text() == old(Text()) + s[..i]
      {
        Put(s[i]);
        assert s[..i + 1] == s[..i] + [s[i]];
        i := i + 1;
      }
      assert s[..i] == s;
    }

    method Dec2Str(decimal: Int32)
      requires Ready()
      modifies this, buffer
      ensures Ready() && Text() == old(Text()) + Decimal(decimal)
    {
      if decimal < 0 {
        Put('-');
      }
      ghost var was := Text();
      var number, i := DecDigits(decimal);
      hide Digits;
      while i != 0
        invariant 0 <= i <= number.Length && Ready()
        invariant forall k :: 0 <= k < i ==> 0 <= number[k] < 10
        invariant Text() + Backwards(number[..], i) == was + Digits(Magnitude(decimal))
        decreases i
      {
        Put(DigitChar(number[i - 1]));
        i := i - 1;
      }
      SignFirst(old(Text()), decimal);
      assert Text() + "" == Text();
    }

    lemma SignFirst(t: string, decimal: Int32)
      ensures t + Decimal(decimal) == (if decimal < 0 then t + "-" else t) + Digits(Magnitude(decimal))
    {
    }

    // The digits of the number, the last one first.
    method DecDigits(decimal: Int32) returns (number: array<int>, i: nat)
      ensures fresh(number) && i <= number.Length && (forall k :: 0 <= k < i ==> 0 <= number[k] < 10)
      ensures Backwards(number[..], i) == Digits(Magnitude(decimal))
    {
      ghost var n := Magnitude(decimal);
      var negative := decimal < 0;
      DigitsShort(n);
      number := new int[16];
      var left := NextDigit(number, 0, decimal, negative, n);
      i := 1;
      hide Digits;
      while left != 0
        invariant 1 <= i <= 16 && Split(n, left, negative, number[..], i)
        decreases Magnitude(left)
      {
        SplitRoom(n, left, negative, number[..], i);
        left := NextDigit(number, i, left, negative, n);
        i := i + 1;
      }
    }

    // The last digit of `left` goes to place `i`; division truncates, so a negative number stays negative.
    method NextDigit(number: array<int>, i: nat, left: int, negative: bool, ghost n: nat) returns (temp: int)
      requires i < number.Length && Split(n, left, negative, number[..], i) && (i > 0 ==> left != 0)
      modifies number
      ensures Split(n, temp, negative, number[..], i + 1) && (left != 0 ==> Magnitude(temp) < Magnitude(left))
    {
      temp := Quotient10(left);
      ghost var was := number[..];
      if negative {
        number[i] := temp * 10 - left;
      } else {
        number[i] := left - temp * 10;
      }
      SplitNext(n, left, temp, negative, was, number[..], i);
    }

    method Hex2Str(hexadecimal: Uint32)
      requires Ready()
      modifies this, buffer
      ensures Ready() && Text() == old(Text()) + HexDigits(hexadecimal)
    {
      ghost var was := Text();
      var number, i := HexNumber(hexadecimal);
      hide HexDigits;
      while i != 0
        invariant 0 <= i <= number.Length && Ready()
        invariant forall k :: 0 <= k < i ==> number[k] < 16
        invariant Text() + HexBackwards(number[..], i) == was + HexDigits(hexadecimal)
        decreases i
      {
        Put(HexChar(number[i - 1]));
        i := i - 1;
      }
    }

    method HexNumber(hexadecimal: Uint32) returns (number: array<nat>, i: nat)
      ensures fresh(number) && i <= number.Length && (forall k :: 0 <= k < i ==> number[k] < 16)
      ensures HexBackwards(number[..], i) == HexDigits(hexadecimal)
    {
      ghost var n: nat := hexadecimal;
      HexShort(n);
      number := new nat[16];
      var left := NextHexDigit(number, 0, hexadecimal, n);
      i := 1;
      hide HexDigits;
      while left != 0
        invariant 1 <= i <= 16 && HexSplit(n, left, number[..], i)
        decreases left
      {
        HexBackwardsSame(number[..], number[..], i);
        HexSplitRoom(n, left, number[..], i);
        left := NextHexDigit(number, i, left, n);
        i := i + 1;
      }
    }

    method NextHexDigit(number: array<nat>, i: nat, left: nat, ghost n: nat) returns (temp: nat)
      requires i < number.Length && HexSplit(n, left, number[..], i) && (i > 0 ==> left != 0)
      modifies number
      ensures HexSplit(n, temp, number[..], i + 1) && (left != 0 ==> temp < left)
    {
      temp := left / 16;
      ghost var was := number[..];
      number[i] := left - temp * 16;
      HexSplitNext(n, left, was, number[..], i);
    }

    /** What reaches the system is the formatted text, however often the buffer was full. */
    method Printf(format: string, args: seq<Arg>)
      requires Ready() && count == 0 && Suits(format, false, args)
      modifies this, buffer
      ensures Ready() && count == 0 && written == old(written) + Formatted(format, false, args)
    {
      hide Formatted, Suits, ArgText;
      var i, index, marked := 0, 0, false;
      ghost var all := written + Formatted(format, false, args);
      assert format[0..] == format && args[0..] == args;
      while i < |format|
        invariant i <= |format| && index <= |args| && Ready() && Suits(format[i..], marked, args[index..])
        invariant Text() + Formatted(format[i..], marked, args[index..]) == all
      {
        ghost var f, a, was := format[i..], args[index..], Text();
        assert f[0] == format[i] && f[1..] == format[i + 1..];
        FormatNext(f, marked, a);
        if !marked {
          Assoc(was, if f[0] == '%' then "" else [f[0]], Formatted(f[1..], f[0] == '%', a));
          if format[i] == '%' {
            marked := true;
          } else {
            Put(format[i]);
          }
        } else if format[i] == '%' {
          Assoc(was, "%", Formatted(f[1..], false, a));
          Put('%');
          marked := false;
        } else if IsConversion(format[i]) {
          assert a[1..] == args[index + 1..];
          Assoc(was, ArgText(a[0]), Formatted(f[1..], false, a[1..]));
          PutArg(args[index]);
          marked := false;
          index := index + 1;
        } else {
          break;
        }
        i := i + 1;
      }
      if i == |format| { FormatEnd(marked, args[index..]); }
      assert Text() == all;
      Flush();
    }

    method PutArg(a: Arg)
      requires Ready()
      modifies this, buffer
      ensures Ready() && Text() == old(Text()) + ArgText(a)
    {
      match a
      case D(d) => Dec2Str(d);
      case X(x) => Hex2Str(x);
      case S(s) => Str2Str(s);
      case C(c) => Put(c);
    }

    method Flush()
      requires Ready()
      modifies this
      ensures Ready() && count == 0 && written == old(Text())
    {
      if count != 0 {
        written := written + buffer[..count];
        count := 0;
      }
    }
  }

  // ---------- digits, last one first ----------

  function Magnitude(x: int): nat {
    if x < 0 then -x else x
  }

  function Quotient10(x: int): int {
    if x >= 0 then x / 10 else -((-x) / 10)
  }

  function Backwards(number: seq<int>, i: nat): string
    requires i <= |number| && forall k :: 0 <= k < i ==> 0 <= number[k] < 10
  {
    if i == 0 then "" else [DigitChar(number[i - 1])] + Backwards(number, i - 1)
  }

  function HexBackwards(number: seq<nat>, i: nat): string
    requires i <= |number| && forall k :: 0 <= k < i ==> number[k] < 16
  {
    if i == 0 then "" else [HexChar(number[i - 1])] + HexBackwards(number, i - 1)
  }

  // The digits of `n` are those of `left` and then the `i` stored ones.
  ghost predicate Split(n: nat, left: int, negative: bool, number: seq<int>, i: nat) {
    && i <= |number| && (if negative then left <= 0 else left >= 0)
    && (forall k :: 0 <= k < i ==> 0 <= number[k] < 10)
    && if i == 0 then Magnitude(left) == n
       else Digits(n) == (if left == 0 then "" else Digits(Magnitude(left))) + Backwards(number, i)
  }

  lemma {:induction false} BackwardsSame(a: seq<int>, b: seq<int>, i: nat)
    requires i <= |a| == |b| && (forall k :: 0 <= k < i ==> a[k] == b[k]) && forall k :: 0 <= k < i ==> 0 <= a[k] < 10
    ensures Backwards(a, i) == Backwards(b, i)
    decreases i
  {
    if i > 0 { BackwardsSame(a, b, i - 1); }
  }

  lemma {:induction false} HexBackwardsSame(a: seq<nat>, b: seq<nat>, i: nat)
    requires i <= |a| == |b| && (forall k :: 0 <= k < i ==> a[k] == b[k]) && forall k :: 0 <= k < i ==> a[k] < 16
    ensures HexBackwards(a, i) == HexBackwards(b, i) && |HexBackwards(a, i)| == i
    decreases i
  {
    if i > 0 { HexBackwardsSame(a, b, i - 1); }
  }

  lemma {:induction false} BackwardsLength(number: seq<int>, i: nat)
    requires i <= |number| && forall k :: 0 <= k < i ==> 0 <= number[k] < 10
    ensures |Backwards(number, i)| == i
    decreases i
  {
    if i > 0 { BackwardsLength(number, i - 1); }
  }

  lemma SplitNext(n: nat, left: int, temp: int, negative: bool, was: seq<int>, now: seq<int>, i: nat)
    requires Split(n, left, negative, was, i) && (i > 0 ==> left != 0) && i < |was| && temp == Quotient10(left)
    requires now == was[i := if negative then temp * 10 - left else left - temp * 10]
    ensures Split(n, temp, negative, now, i + 1) && (left != 0 ==> Magnitude(temp) < Magnitude(left))
  {
    BackwardsSame(was, now, i);
    var m := Magnitude(left);
    assert Magnitude(temp) == m / 10 && now[i] == m % 10;
    assert Digits(m) == (if m / 10 == 0 then "" else Digits(m / 10)) + [DigitChar(m % 10)];
    assert Backwards(now, i + 1) == [DigitChar(m % 10)] + Backwards(now, i);
  }

  lemma {:induction false} LengthBound(n: nat, k: nat, bound: nat)
    requires n < bound && k >= 1 && (k == 1 ==> bound <= 10) && (k > 1 ==> bound <= 10 * Power(k - 1))
    ensures |Digits(n)| <= k
    decreases k
  {
    if n >= 10 { LengthBound(n / 10, k - 1, Power(k - 1)); }
  }

  function Power(k: nat): nat {
    if k == 0 then 1 else 10 * Power(k - 1)
  }

  lemma DigitsShort(n: nat)
    requires n <= LIMIT
    ensures |Digits(n)| <= 10
  {
    assert Power(9) == 1_000_000_000;
    LengthBound(n, 10, LIMIT + 1);
  }

  lemma {:induction false} HexLength(n: nat, k: nat)
    requires k >= 1 && n < HexPower(k)
    ensures |HexDigits(n)| <= k
    decreases k
  {
    if n >= 16 { HexLength(n / 16, k - 1); }
  }

  function HexPower(k: nat): nat {
    if k == 0 then 1 else 16 * HexPower(k - 1)
  }

  lemma HexShort(n: nat)
    requires n < 2 * LIMIT
    ensures |HexDigits(n)| <= 8
  {
    assert HexPower(8) == 2 * LIMIT;
    HexLength(n, 8);
  }

  ghost predicate HexSplit(n: nat, left: nat, number: seq<nat>, i: nat) {
    && i <= |number| && (forall k :: 0 <= k < i ==> number[k] < 16)
    && if i == 0 then left == n
       else HexDigits(n) == (if left == 0 then "" else HexDigits(left)) + HexBackwards(number, i)
  }

  lemma HexSplitNext(n: nat, left: nat, was: seq<nat>, now: seq<nat>, i: nat)
    requires HexSplit(n, left, was, i) && (i > 0 ==> left != 0) && i < |was| && now == was[i := left - left / 16 * 16]
    ensures HexSplit(n, left / 16, now, i + 1)
  {
    HexBackwardsSame(was, now, i);
    assert now[i] == left % 16;
    assert HexDigits(left) == (if left / 16 == 0 then "" else HexDigits(left / 16)) + [HexChar(left % 16)];
    assert HexBackwards(now, i + 1) == [HexChar(left % 16)] + HexBackwards(now, i);
  }

  lemma HexSplitRoom(n: nat, left: nat, number: seq<nat>, i: nat)
    requires HexSplit(n, left, number, i) && left != 0 && i > 0 && |HexDigits(n)| <= 8 && |HexBackwards(number, i)| == i
    ensures i < 8
  {
  }

  lemma SplitRoom(n: nat, left: int, negative: bool, number: seq<int>, i: nat)
    requires Split(n, left, negative, number, i) && left != 0 && i > 0 && |Digits(n)| <= 10
    ensures i < 10
  {
    BackwardsLength(number, i);
  }

  // ---------- what is read: plain strings ----------

  predicate IsSpace(c: char) {
    c == ' ' || c == '\t' || c == '\n'
  }

  predicate IsDigit(c: char) {
    '0' <= c <= '9'
  }

  function DigitOf(c: char): nat
    requires IsDigit(c)
  {
    c as nat - '0' as nat
  }

  function HexOf(c: char): (d: int)
    ensures d < 16
  {
    if IsDigit(c) then DigitOf(c)
    else if 'a' <= c <= 'f' then c as nat - 'a' as nat + 10
    else if 'A' <= c <= 'F' then c as nat - 'A' as nat + 10
    else -1
  }

  // 32-bit arithmetic.
  function Wrap(x: int): Int32 {
    (x + LIMIT) % (2 * LIMIT) - LIMIT
  }

  function Negate(x: Int32): Int32 {
    var k: int := x;
    Wrap(-k)
  }

  // Reading waits when the input is used up, because the next character decides.
  datatype Got<T> = Waiting | Failed(rest: string) | Got(value: T, rest: string)

  function SkipSpace(s: string): Got<()> {
    if s == "" then Waiting else if IsSpace(s[0]) then SkipSpace(s[1..]) else Got((), s)
  }

  function DecFrom(state: nat, negative: bool, integer: Int32, s: string): Got<Int32>
    requires state <= 2
    decreases |s|
  {
    if s == "" then Waiting
    else
      var c := s[0];
      if state == 0 && c == '-' then DecFrom(1, true, integer, s[1..])
      else if state == 0 && IsSpace(c) then DecFrom(0, negative, integer, s[1..])
      else if state <= 1 && IsDigit(c) then DecFrom(2, negative, DigitOf(c), s[1..])
      else if state <= 1 then Failed(s)
      else if IsDigit(c) then DecFrom(2, negative, Wrap(Wrap(integer * 10) + DigitOf(c)), s[1..])
      else Got(if negative then Negate(integer) else integer, s)
  }

  function HexFrom(state: nat, integer: Int32, s: string): Got<Int32>
    requires state <= 3
    decreases |s|
  {
    if s == "" then Waiting
    else
      var c := s[0];
      if state == 0 then
        if c == '0' then HexFrom(1, integer, s[1..])
        else if IsSpace(c) then HexFrom(0, integer, s[1..])
        else Failed(s)
      else if state == 1 then
        if c == 'x' then HexFrom(2, integer, s[1..]) else Failed(s)
      else if HexOf(c) >= 0 then HexFrom(3, Wrap(Wrap(integer * 16) + HexOf(c)), s[1..])
      else if state == 2 then Failed(s)
      else Got(integer, s)
  }

  // At most `room` characters up to white space.
  function WordFrom(started: bool, word: string, room: int, s: string): (r: Got<string>)
    ensures !r.Failed?
    decreases |s|
  {
    if room <= 0 then Got(word, s)
    else if s == "" then Waiting
    else if !IsSpace(s[0]) then WordFrom(true, word + [s[0]], room - 1, s[1..])
    else if started then Got(word, s)
    else WordFrom(false, word, room, s[1..])
  }

  datatype Stored = Int(i: Int32) | Char(ch: char) | Word(w: string)

  // Still waiting, or back with what was stored; the number of values is the result of the call.
  datatype Scanned = Waits(values: seq<Stored>) | Returns(values: seq<Stored>, rest: string)

  function Before(v: seq<Stored>, r: Scanned): Scanned {
    r.(values := v + r.values)
  }

  // One conversion without a width.
  function Converted(f: char, s: string): Got<Stored>
    requires s != "" && (f == 'd' || f == 'x' || f == 'c')
  {
    if f == 'd' then AsInt(DecFrom(0, false, 0, s))
    else if f == 'x' then AsInt(HexFrom(0, 0, s))
    else Got(Char(s[0]), s[1..])
  }

  function AsInt(g: Got<Int32>): Got<Stored> {
    match g
    case Got(v, rest) => Got(Int(v), rest)
    case Failed(rest) => Failed(rest)
    case Waiting => Waiting
  }

  lemma BeforeNothing(r: Scanned)
    ensures Before([], r) == r
  {
  }

  lemma BeforeEnd(v: seq<Stored>, rest: string)
    ensures Before(v, Waits([])) == Waits(v) && Before(v, Returns([], rest)) == Returns(v, rest)
  {
  }

  lemma BeforeBoth(v: seq<Stored>, w: seq<Stored>, r: Scanned)
    ensures Before(v, Before(w, r)) == Before(v + w, r)
  {
    assert v + (w + r.values) == (v + w) + r.values;
  }

  /** What a format does with an input: `state` 0 outside of a conversion, 1 after the mark, 2 in a width. */
  function Scan(format: string, state: nat, avail: nat, s: string): Scanned
    requires state <= 2
    decreases |format|
  {
    if format == "" then Returns([], s)
    else if s == "" then Waits([])
    else
      var f, more := format[0], format[1..];
      if state == 0 then
        if f == '%' then Scan(more, 1, avail, s)
        else if IsSpace(f) then
          (match SkipSpace(s)
           case Got(_, rest) => Scan(more, 0, avail, rest)
           case _ => Waits([]))
        else if f == s[0] then Scan(more, 0, avail, s[1..])
        else Returns([], s)
      else if state == 1 then
        if f == '%' then if f == s[0] then Scan(more, 0, avail, s[1..]) else Returns([], s)
        else if f == 'd' || f == 'x' || f == 'c' then
          (match Converted(f, s)
           case Got(v, rest) => Before([v], Scan(more, 0, avail, rest))
           case Failed(rest) => Returns([], rest)
           case Waiting => Waits([]))
        else if IsDigit(f) then Scan(more, 2, DigitOf(f), s)
        else Returns([], s)
      else if IsDigit(f) then Scan(more, 2, avail * 10 + DigitOf(f), s)
      else if f == 's' then
        (match WordFrom(false, "", avail - 1, s)
         case Got(w, rest) => Before([Word(w)], Scan(more, 0, avail, rest))
         case _ => Waits([]))
      else Returns([], s)
  }

  lemma ScanEnds(format: string, state: nat, avail: nat, s: string)
    requires state <= 2
    ensures format == "" ==> Scan(format, state, avail, s) == Returns([], s)
    ensures format != "" && s == "" ==> Scan(format, state, avail, s) == Waits([])
  {
  }

  // ---------- input ----------

  function Joined(chunks: seq<string>): string {
    if chunks == [] then "" else chunks[0] + Joined(chunks[1..])
  }

  predicate AllFull(chunks: seq<string>) {
    forall k :: 0 <= k < |chunks| ==> chunks[k] != ""
  }

  class Scanner {
    var chunks: seq<string>  // what the next reads will bring
    var buffer: string
    var count: nat

    predicate Valid()
      reads this
    {
      count <= |buffer| && AllFull(chunks)
    }

    constructor (input: seq<string>)
      requires AllFull(input)
      ensures Valid() && Rest() == Joined(input)
    {
      chunks, buffer, count := input, "", 0;
    }

    /** All that is still to be read, whatever the chunks. */
    function Rest(): string
      requires Valid()
      reads this
    {
      buffer[count..] + Joined(chunks)
    }

    // Reads again if the buffer is used up; false: it waits for ever.
    method Refill() returns (ok: bool)
      requires Valid()
      modifies this
      ensures Valid() && Rest() == old(Rest()) && ok == (Rest() != "")
      ensures ok ==> count < |buffer| && buffer[count] == Rest()[0]
    {
      if count == |buffer| {
        if chunks == [] { return false; }
        buffer := chunks[0];
        count := 0;
        chunks := chunks[1..];
      }
      ok := true;
    }

    method Next()
      requires Valid() && count < |buffer|
      modifies this`count
      ensures Valid() && Rest() == old(Rest())[1..]
    {
      count := count + 1;
    }

    method MatchWhiteSpace() returns (r: Got<()>)
      requires Valid()
      modifies this
      ensures Valid() && r == SkipSpace(old(Rest())) && (r.Got? ==> r.rest == Rest())
    {
      ghost var s := Rest();
      while true
        invariant Valid() && SkipSpace(Rest()) == SkipSpace(s)
        decreases |Rest()|
      {
        var ok := Refill();
        if !ok { return Waiting; }
        if IsSpace(buffer[count]) {
          Next();
        } else {
          return Got((), Rest());
        }
      }
    }

    method Str2Dec() returns (r: Got<Int32>)
      requires Valid()
      modifies this
      ensures Valid() && r == DecFrom(0, false, 0, old(Rest())) && (!r.Waiting? ==> r.rest == Rest())
    {
      var state, negative := 0, false;
      var integer: Int32 := 0;
      ghost var s := Rest();
      while true
        invariant Valid() && 0 <= state <= 2 && DecFrom(state, negative, integer, Rest()) == DecFrom(0, false, 0, s)
        decreases |Rest()|
      {
        var ok := Refill();
        if !ok { return Waiting; }
        var c := buffer[count];
        if state == 0 && c == '-' {
          state, negative := 1, true;
          Next();
        } else if state == 0 && IsSpace(c) {
          Next();
        } else if state <= 1 && IsDigit(c) {
          state, integer := 2, DigitOf(c);
          Next();
        } else if state <= 1 {
          return Failed(Rest());
        } else if IsDigit(c) {
          integer := Wrap(integer * 10);
          integer := Wrap(integer + DigitOf(c));
          Next();
        } else {
          return Got(if negative then Negate(integer) else integer, Rest());
        }
      }
    }

    method Str2Hex() returns (r: Got<Int32>)
      requires Valid()
      modifies this
      ensures Valid() && r == HexFrom(0, 0, old(Rest())) && (!r.Waiting? ==> r.rest == Rest())
    {
      var state := 0;
      var integer: Int32 := 0;
      ghost var s := Rest();
      while true
        invariant Valid() && 0 <= state <= 3 && HexFrom(state, integer, Rest()) == HexFrom(0, 0, s)
        decreases |Rest()|
      {
        var ok := Refill();
        if !ok { return Waiting; }
        var c := buffer[count];
        if state == 0 && c == '0' {
          state := 1;
          Next();
        } else if state == 0 && IsSpace(c) {
          Next();
        } else if state == 1 && c == 'x' {
          state := 2;
          Next();
        } else if state >= 2 && HexOf(c) >= 0 {
          state := 3;
          integer := Wrap(integer * 16);
          integer := Wrap(integer + HexOf(c));
          Next();
        } else if state == 3 {
          return Got(integer, Rest());
        } else {
          return Failed(Rest());
        }
      }
    }

    method Str2Str2(avail: nat) returns (r: Got<string>)
      requires Valid()
      modifies this
      ensures Valid() && r == WordFrom(false, "", avail - 1, old(Rest())) && (r.Got? ==> r.rest == Rest())
    {
      var word, started := "", false;
      ghost var s := Rest();
      while |word| < avail - 1
        invariant Valid() && WordFrom(started, word, avail - 1 - |word|, Rest()) == WordFrom(false, "", avail - 1, s)
        decreases |Rest()|
      {
        var ok := Refill();
        if !ok { return Waiting; }
        var c := buffer[count];
        if !IsSpace(c) {
          started, word := true, word + [c];
          Next();
        } else if started {
          return Got(word, Rest());
        } else {
          Next();
        }
      }
      return Got(word, Rest());
    }

    method Convert(f: char) returns (r: Got<Stored>)
      requires Valid() && count < |buffer| && (f == 'd' || f == 'x' || f == 'c')
      modifies this
      ensures Valid() && r == Converted(f, old(Rest())) && (!r.Waiting? ==> r.rest == Rest())
    {
      if f == 'd' {
        var g := Str2Dec();
        r := AsInt(g);
      } else if f == 'x' {
        var g := Str2Hex();
        r := AsInt(g);
      } else {
        r := Got(Char(buffer[count]), Rest()[1..]);
        Next();
      }
    }

    /** The result depends only on what the chunks give together. */
    method Scanf(format: string) returns (r: Scanned)
      requires Valid()
      modifies this
      ensures Valid() && r == Scan(format, 0, 0, old(Rest())) && (r.Returns? ==> r.rest == Rest())
    {
      hide *;
      var i, state, avail: nat := 0, 0, 0;
      var values: seq<Stored> := [];
      ghost var all := Scan(format, 0, 0, Rest());
      assert format[0..] == format;
      BeforeNothing(all);
      while i < |format|
        invariant 0 <= i <= |format| && 0 <= state <= 2 && Valid()
        invariant Before(values, Scan(format[i..], state, avail, Rest())) == all
      {
        var ok := Refill();
        if !ok {
          ScanEnds(format[i..], state, avail, Rest());
          BeforeEnd(values, Rest());
          return Waits(values);
        }
        assert [format[i]] + format[i + 1..] == format[i..];
        var step;
        step, state, avail := Character(format[i], state, avail, format[i + 1..]);
        BeforeEnd(values, Rest());
        if step.Waiting? { return Waits(values); }
        if step.Failed? { return Returns(values, Rest()); }
        BeforeBoth(values, step.value, Scan(format[i + 1..], state, avail, Rest()));
        values := values + step.value;
        i := i + 1;
      }
      ScanEnds(format[i..], state, avail, Rest());
      BeforeEnd(values, Rest());
      return Returns(values, Rest());
    }

    // One character of the format; what it stores, if anything.
    method Character(f: char, state: nat, avail: nat, ghost more: string) returns (r: Got<seq<Stored>>, state': nat, avail': nat)
      requires Valid() && count < |buffer| && state <= 2
      modifies this
      ensures Valid() && state' <= 2 && (!r.Waiting? ==> r.rest == Rest())
      ensures Scan([f] + more, state, avail, old(Rest()))
        == match r
           case Waiting => Waits([])
           case Failed(rest) => Returns([], rest)
           case Got(v, rest) => Before(v, Scan(more, state', avail', rest))
    {
      assert ([f] + more)[1..] == more;
      hide Converted, WordFrom, SkipSpace, Joined;
      r, state', avail' := Got([], Rest()), 0, avail;
      if state == 0 {
        if f == '%' {
          state' := 1;
        } else if IsSpace(f) {
          var g := MatchWhiteSpace();
          r := if g.Got? then Got([], Rest()) else Waiting;
        } else if f != buffer[count] {
          r := Failed(Rest());
        } else {
          Next();
          r := Got([], Rest());
        }
      } else if state == 1 {
        r, state', avail' := AfterMark(f, avail, more);
      } else if IsDigit(f) {
        state', avail' := 2, avail * 10 + DigitOf(f);
      } else if f == 's' {
        var g := Str2Str2(avail);
        r := if g.Got? then Got([Word(g.value)], Rest()) else Waiting;
      } else {
        r := Failed(Rest());
      }
    }

    method AfterMark(f: char, avail: nat, ghost more: string) returns (r: Got<seq<Stored>>, state': nat, avail': nat)
      requires Valid() && count < |buffer|
      modifies this
      ensures Valid() && state' <= 2 && (!r.Waiting? ==> r.rest == Rest())
      ensures Scan([f] + more, 1, avail, old(Rest()))
        == match r
           case Waiting => Waits([])
           case Failed(rest) => Returns([], rest)
           case Got(v, rest) => Before(v, Scan(more, state', avail', rest))
    {
      assert ([f] + more)[1..] == more;
      hide Converted, WordFrom, SkipSpace, Joined;
      r, state', avail' := Failed(Rest()), 0, avail;
      if f == '%' {
        if f == buffer[count] {
          Next();
          r := Got([], Rest());
        }
      } else if f == 'd' || f == 'x' || f == 'c' {
        var g := Convert(f);
        r := match g case Waiting => Waiting case Failed(rest) => Failed(rest) case Got(v, rest) => Got([v], rest);
      } else if IsDigit(f) {
        state', avail' := 2, DigitOf(f);
        r := Got([], Rest());
      }
    }
  }

  /** However the input is cut into chunks, a call gives the same. */
  method ScanTwice(a: seq<string>, b: seq<string>, format: string) returns (r: Scanned, s: Scanned)
    requires AllFull(a) && AllFull(b) && Joined(a) == Joined(b)
    ensures r == s
  {
    var one := new Scanner(a);
    var two := new Scanner(b);
    r := one.Scanf(format);
    s := two.Scanf(format);
  }

  // ---------- printing and reading back ----------

  const PERCENT_D := ['%', 'd']

  // `%d %d ... %d`
  function ReadFormat(n: nat): string {
    if n == 0 then [] else if n == 1 then PERCENT_D + [] else PERCENT_D + ([' '] + ReadFormat(n - 1))
  }

  // The same and the end of the line.
  function PrintFormat(n: nat): string {
    if n == 0 then ['\n'] else if n == 1 then PERCENT_D + ['\n'] else PERCENT_D + ([' '] + PrintFormat(n - 1))
  }

  function AsArgs(vs: seq<Int32>): seq<Arg> {
    if vs == [] then [] else [D(vs[0])] + AsArgs(vs[1..])
  }

  function AsStored(vs: seq<Int32>): seq<Stored> {
    if vs == [] then [] else [Int(vs[0])] + AsStored(vs[1..])
  }

  function Line(vs: seq<Int32>): string {
    if vs == [] then ['\n']
    else if |vs| == 1 then Decimal(vs[0]) + ['\n']
    else Decimal(vs[0]) + ([' '] + Line(vs[1..]))
  }

  lemma FormatOne(more: string, v: Int32, args: seq<Arg>)
    requires Suits(more, false, args)
    ensures var f := PERCENT_D + more;
      Suits(f, false, [D(v)] + args) && Formatted(f, false, [D(v)] + args) == Decimal(v) + Formatted(more, false, args)
  {
    var f, a := PERCENT_D + more, [D(v)] + args;
    assert f[1..] == ['d'] + more && f[1..][1..] == more && a[1..] == args;
    assert Suits(f[1..], true, a);
    assert Formatted(f[1..], true, a) == Decimal(v) + Formatted(more, false, args);
  }

  lemma FormatPlain(c: char, more: string, args: seq<Arg>)
    requires c != '%' && Suits(more, false, args)
    ensures Suits([c] + more, false, args) && Formatted([c] + more, false, args) == [c] + Formatted(more, false, args)
  {
    assert ([c] + more)[1..] == more;
  }

  /** What the print format gives. */
  lemma {:induction false} PrintsLine(vs: seq<Int32>)
    ensures Suits(PrintFormat(|vs|), false, AsArgs(vs)) && Formatted(PrintFormat(|vs|), false, AsArgs(vs)) == Line(vs)
    decreases |vs|
  {
    FormatPlain('\n', [], []);
    assert ['\n'] + [] == ['\n'];
    if |vs| == 1 {
      assert vs[1..] == [];
      FormatOne(['\n'], vs[0], []);
    } else if vs != [] {
      PrintsLine(vs[1..]);
      FormatPlain(' ', PrintFormat(|vs| - 1), AsArgs(vs[1..]));
      FormatOne([' '] + PrintFormat(|vs| - 1), vs[0], AsArgs(vs[1..]));
    }
  }

  lemma FirstDigit(d: nat, state: nat, negative: bool, u: string)
    requires d < 10 && state <= 1
    ensures DecFrom(state, negative, 0, [DigitChar(d)] + u) == DecFrom(2, negative, d, u)
  {
    var s := [DigitChar(d)] + u;
    assert s[0] == DigitChar(d) && s[1..] == u;
  }

  lemma NextDigitRead(n: nat, d: nat, negative: bool, u: string)
    requires d < 10 && n * 10 + d < LIMIT
    ensures DecFrom(2, negative, n, [DigitChar(d)] + u) == DecFrom(2, negative, n * 10 + d, u)
  {
    var s := [DigitChar(d)] + u;
    assert s[0] == DigitChar(d) && s[1..] == u;
    assert Wrap(n * 10) == n * 10 && Wrap(n * 10 + d) == n * 10 + d;
  }

  // Reading the digits of a number, from the start or after a sign.
  lemma {:induction false} ReadsDigits(n: nat, state: nat, negative: bool, u: string)
    requires n < LIMIT && state <= 1
    ensures DecFrom(state, negative, 0, Digits(n) + u) == DecFrom(2, negative, n, u)
    decreases n
  {
    hide DecFrom, DigitChar;
    if n < 10 {
      FirstDigit(n, state, negative, u);
    } else {
      var d := [DigitChar(n % 10)];
      ReadsDigits(n / 10, state, negative, d + u);
      assert Digits(n) + u == Digits(n / 10) + (d + u);
      NextDigitRead(n / 10, n % 10, negative, u);
    }
  }

  /** Every integer is read back, the least one by wrapping around; what follows it stays. */
  lemma ReadsBack(v: Int32, u: string)
    requires u != "" && !IsDigit(u[0])
    ensures DecFrom(0, false, 0, Decimal(v) + u) == Got(v, u)
  {
    if v == -LIMIT {
      LeastReadsBack(u);
    } else if v < 0 {
      MinusFirst(-v, u);
      ReadsDigits(-v, 1, true, u);
      Stops(-v, true, u);
    } else {
      ReadsDigits(v, 0, false, u);
      Stops(v, false, u);
    }
    hide DecFrom, Digits;
  }

  lemma LeastReadsBack(u: string)
    requires u != "" && !IsDigit(u[0])
    ensures DecFrom(0, false, 0, Decimal(-LIMIT) + u) == Got(-LIMIT, u)
  {
    var n: nat := LIMIT / 10;
    MinusFirst(LIMIT, u);
    LastDigit(u);
    hide DecFrom, Digits;
    ReadsDigits(n, 1, true, ['8'] + u);
    LeastStops(u);
  }

  lemma LastDigit(u: string)
    ensures Digits(LIMIT) + u == Digits(LIMIT / 10) + (['8'] + u) && Decimal(-LIMIT) == "-" + Digits(LIMIT)
  {
    assert DigitChar(8) == '8';
  }

  lemma LeastStops(u: string)
    requires u != "" && !IsDigit(u[0])
    ensures DecFrom(2, true, LIMIT / 10, ['8'] + u) == Got(-LIMIT, u)
  {
    var s := ['8'] + u;
    assert s[0] == '8' && s[1..] == u;
    assert Wrap(Wrap(LIMIT / 10 * 10) + 8) == -LIMIT && Negate(-LIMIT) == -LIMIT;
    assert DecFrom(2, true, LIMIT / 10, s) == DecFrom(2, true, -LIMIT, u);
  }

  lemma Stops(n: nat, negative: bool, u: string)
    requires n < LIMIT && u != "" && !IsDigit(u[0])
    ensures DecFrom(2, negative, n, u) == Got(if negative then 0 - n else n, u)
  {
    assert Wrap(0 - n) == 0 - n;
  }

  lemma MinusFirst(n: nat, u: string)
    ensures DecFrom(0, false, 0, ("-" + Digits(n)) + u) == DecFrom(1, true, 0, Digits(n) + u)
  {
    hide Digits;
    var s := ("-" + Digits(n)) + u;
    assert s[0] == '-' && s[1..] == Digits(n) + u;
  }

  lemma ScanOne(more: string, v: Int32, u: string)
    requires u != "" && !IsDigit(u[0])
    ensures Scan(PERCENT_D + more, 0, 0, Decimal(v) + u) == Before([Int(v)], Scan(more, 0, 0, u))
  {
    var f, s := PERCENT_D + more, Decimal(v) + u;
    assert f[1..] == ['d'] + more && f[1..][1..] == more;
    ReadsBack(v, u);
    DecimalStarts(v);
    hide Decimal, DecFrom;
    assert Scan(f, 0, 0, s) == Scan(f[1..], 1, 0, s);
  }

  lemma ScanSpace(more: string, s: string)
    requires s != "" && !IsSpace(s[0])
    ensures Scan([' '] + more, 0, 0, [' '] + s) == Scan(more, 0, 0, s)
  {
    var f, t := [' '] + more, [' '] + s;
    assert f[0] == ' ' && f[1..] == more && t[0] == ' ' && t[1..] == s;
    assert SkipSpace(t) == SkipSpace(s) == Got((), s);
  }

  /** Reading what was printed gives the numbers that were printed. */
  lemma {:induction false} RoundTrip(vs: seq<Int32>)
    requires vs != []
    ensures Scan(ReadFormat(|vs|), 0, 0, Line(vs)) == Returns(AsStored(vs), ['\n'])
    decreases |vs|
  {
    if |vs| == 1 {
      RoundTripOne(vs);
    } else {
      var more := ReadFormat(|vs| - 1);
      LineStarts(vs[1..]);
      ManyParts(vs);
      RoundTrip(vs[1..]);
      hide *;
      ScanOne([' '] + more, vs[0], [' '] + Line(vs[1..]));
      ScanSpace(more, Line(vs[1..]));
    }
  }

  lemma RoundTripOne(vs: seq<Int32>)
    requires |vs| == 1
    ensures Scan(ReadFormat(1), 0, 0, Line(vs)) == Returns(AsStored(vs), ['\n'])
  {
    ScanOne([], vs[0], ['\n']);
    hide Decimal;
    assert vs[1..] == [];
    assert PERCENT_D + [] == PERCENT_D;
    assert Scan([], 0, 0, ['\n']) == Returns([], ['\n']);
  }

  lemma ManyParts(vs: seq<Int32>)
    requires |vs| > 1
    ensures ReadFormat(|vs|) == PERCENT_D + ([' '] + ReadFormat(|vs| - 1))
    ensures Line(vs) == Decimal(vs[0]) + ([' '] + Line(vs[1..])) && ' ' != '\n' && !IsDigit(' ')
    ensures AsStored(vs) == [Int(vs[0])] + AsStored(vs[1..])
    ensures forall v, r :: Before(v, Returns(r, ['\n'])) == Returns(v + r, ['\n'])
  {
  }

  lemma LineStarts(vs: seq<Int32>)
    requires vs != []
    ensures Line(vs) != "" && !IsSpace(Line(vs)[0])
  {
    DecimalStarts(vs[0]);
  }

  lemma DecimalStarts(v: int)
    ensures Decimal(v) != "" && !IsSpace(Decimal(v)[0])
  {
    if v >= 0 { DigitsStart(v); }
  }

  lemma {:induction false} DigitsStart(n: nat)
    ensures Digits(n) != "" && !IsSpace(Digits(n)[0])
    decreases n
  {
    if n >= 10 { DigitsStart(n / 10); }
  }

  /** The numbers on one line, through the buffer. */
  method PrintLine(vs: seq<Int32>) returns (text: string)
    ensures text == Line(vs)
  {
    PrintsLine(vs);
    var printer := new Printer();
    printer.Printf(PrintFormat(|vs|), AsArgs(vs));
    text := printer.written;
  }

  /** Cut such a line up in any way and read the numbers back. */
  method ReadLine(vs: seq<Int32>, chunks: seq<string>) returns (r: Scanned)
    requires vs != []
    requires AllFull(chunks) && Joined(chunks) == Line(vs)
    ensures r == Returns(AsStored(vs), ['\n'])
  {
    RoundTrip(vs);
    var reader := new Scanner(chunks);
    r := reader.Scanf(ReadFormat(|vs|));
  }

  // ---------- hexadecimal numbers ----------

  lemma NeedsZero(s: string)
    requires s != "" && s[0] != '0' && !IsSpace(s[0])
    ensures HexFrom(0, 0, s) == Failed(s)
  {
  }

  lemma {:induction false} HexStarts(x: nat)
    requires x > 0
    ensures HexDigits(x) != "" && HexDigits(x)[0] != '0' && !IsSpace(HexDigits(x)[0])
    decreases x
  {
    if x >= 16 { HexStarts(x / 16); }
  }

  lemma {:induction false} HexRest(state: nat, integer: Int32, s: string)
    requires state <= 3
    ensures HexFrom(state, integer, s).Got? ==> |HexFrom(state, integer, s).rest| <= |s|
    decreases |s|
  {
    if s != "" {
      var c := s[0];
      if state <= 1 {
        HexRest(0, integer, s[1..]);
        HexRest(1, integer, s[1..]);
        HexRest(2, integer, s[1..]);
      } else if HexOf(c) >= 0 {
        HexRest(3, Wrap(Wrap(integer * 16) + HexOf(c)), s[1..]);
      }
    }
  }

  /** No number is read back as it is printed, because the prefix is missing: a nonzero one fails at its
      first digit, and zero after it unless an `x` happens to follow. */
  lemma HexNotReadBack(x: nat, u: string)
    ensures x > 0 ==> HexFrom(0, 0, HexDigits(x) + u) == Failed(HexDigits(x) + u)
    ensures x == 0 && u != "" && u[0] != 'x' ==> HexFrom(0, 0, HexDigits(x) + u) == Failed(u)
    ensures x < LIMIT ==> HexFrom(0, 0, HexDigits(x) + u) != Got(x, u)
  {
    if x > 0 {
      HexStarts(x);
      NeedsZero(HexDigits(x) + u);
    } else {
      var s := HexDigits(0) + u;
      assert s[0] == '0' && s[1..] == u;
      assert HexFrom(0, 0, s) == HexFrom(1, 0, u);
      if u != "" { HexRest(2, 0, u[1..]); }
    }
  }

  lemma Prefix(t: string)
    ensures HexFrom(0, 0, ['0', 'x'] + t) == HexFrom(2, 0, t)
  {
    var s := ['0', 'x'] + t;
    assert s[0] == '0' && s[1..][0] == 'x' && s[1..][1..] == t;
    assert HexFrom(0, 0, s) == HexFrom(1, 0, s[1..]);
  }

  // ---------- words, characters and widths ----------

  predicate IsBlank(c: char) {
    c == ' ' || c == '\t' || c == '\n'
  }

  predicate Blanks(s: string) {
    forall k :: 0 <= k < |s| ==> IsBlank(s[k])
  }

  predicate IsWord(w: string) {
    w != "" && forall k :: 0 <= k < |w| ==> !IsBlank(w[k])
  }

  lemma {:induction false} SkipsBlanks(sp: string, room: nat, t: string)
    requires Blanks(sp) && room > 0
    ensures WordFrom(false, "", room, sp + t) == WordFrom(false, "", room, t)
    ensures SkipSpace(sp + t) == SkipSpace(t) && DecFrom(0, false, 0, sp + t) == DecFrom(0, false, 0, t)
    ensures HexFrom(0, 0, sp + t) == HexFrom(0, 0, t)
    decreases |sp|
  {
    var s := sp + t;
    if sp == "" {
      assert s == t;
    } else {
      assert s[0] == sp[0] && s[1..] == sp[1..] + t;
      SkipsBlanks(sp[1..], room, t);
    }
  }

  lemma {:induction false} TakesWord(started: bool, word: string, room: nat, w: string, u: string)
    requires |w| <= room && forall k :: 0 <= k < |w| ==> !IsBlank(w[k])
    ensures WordFrom(started, word, room, w + u) == WordFrom(started || w != "", word + w, room - |w|, u)
    decreases |w|
  {
    var s := w + u;
    if w == "" {
      assert s == u && word + w == word;
    } else {
      assert s[0] == w[0] && s[1..] == w[1..] + u;
      TakesWord(true, word + [w[0]], room - 1, w[1..], u);
      assert (word + [w[0]]) + w[1..] == word + w;
    }
  }

  lemma WordEnds(word: string, room: nat, u: string)
    requires u != "" && IsBlank(u[0])
    ensures WordFrom(true, word, room, u) == Got(word, u)
  {
  }

  /** A word with white space before and after it, of less than `n` characters, is read with width `n`. */
  lemma WordRead(n: nat, sp: string, w: string, u: string)
    requires Blanks(sp) && IsWord(w) && |w| < n && u != "" && IsBlank(u[0])
    ensures WordFrom(false, "", n - 1, sp + (w + u)) == Got(w, u)
  {
    SkipsBlanks(sp, n - 1, w + u);
    TakesWord(false, "", n - 1, w, u);
    hide WordFrom;
    assert "" + w == w;
    WordEnds(w, n - 1 - |w|, u);
  }

  /** Of a longer one the first `n - 1` characters are read and the others stay. */
  lemma LongWordRead(n: nat, sp: string, w: string, u: string)
    requires Blanks(sp) && IsWord(w) && n >= 2 && |w| >= n
    ensures WordFrom(false, "", n - 1, sp + (w + u)) == Got(w[..n - 1], w[n - 1..] + u)
  {
    SkipsBlanks(sp, n - 1, w + u);
    TakesWord(false, "", n - 1, w[..n - 1], w[n - 1..] + u);
    assert w[..n - 1] + (w[n - 1..] + u) == w + u;
    assert "" + w[..n - 1] == w[..n - 1];
  }

  lemma DigitText(d: nat)
    requires d < 10
    ensures DigitChar(d) == "0123456789"[d] && IsDigit(DigitChar(d)) && DigitOf(DigitChar(d)) == d
  {
  }

  lemma WidthDigit(d: nat, state: nat, a: nat, more: string, s: string)
    requires d < 10 && 1 <= state <= 2 && s != ""
    ensures Scan([DigitChar(d)] + more, state, a, s) == Scan(more, 2, if state == 1 then d else a * 10 + d, s)
  {
    var f := [DigitChar(d)] + more;
    assert f[0] == DigitChar(d) && f[1..] == more;
    DigitText(d);
  }

  /** The digits of a width are read as that number. */
  lemma {:induction false} WidthRead(n: nat, a: nat, more: string, s: string)
    requires s != ""
    ensures Scan(Digits(n) + more, 1, a, s) == Scan(more, 2, n, s)
    decreases n
  {
    hide Scan, DigitChar;
    if n < 10 {
      WidthDigit(n, 1, a, more, s);
    } else {
      var d := [DigitChar(n % 10)];
      WidthRead(n / 10, a, d + more, s);
      assert Digits(n) + more == Digits(n / 10) + (d + more);
      WidthDigit(n % 10, 2, n / 10, more, s);
    }
  }

  // Outside of a width the last width does not matter.
  lemma {:induction false} OldWidth(format: string, state: nat, a: nat, b: nat, s: string)
    requires state <= 1
    ensures Scan(format, state, a, s) == Scan(format, state, b, s)
    decreases |format|
  {
    if format != "" && s != "" {
      var f, more := format[0], format[1..];
      if state == 0 {
        OldWidth(more, if f == '%' then 1 else 0, a, b, s);
        OldWidth(more, 0, a, b, s[1..]);
        if SkipSpace(s).Got? { OldWidth(more, 0, a, b, SkipSpace(s).rest); }
      } else {
        OldWidth(more, 0, a, b, s[1..]);
        if (f == 'd' || f == 'x' || f == 'c') && Converted(f, s).Got? { OldWidth(more, 0, a, b, Converted(f, s).rest); }
      }
    }
  }

  // `%<n>s`
  function WordFormat(n: nat, more: string): string {
    ['%'] + (Digits(n) + (['s'] + more))
  }

  lemma WordStep(n: nat, more: string, s: string)
    requires s != ""
    ensures var g := WordFrom(false, "", n - 1, s);
      Scan(WordFormat(n, more), 0, 0, s) == if g.Got? then Before([Word(g.value)], Scan(more, 0, 0, g.rest)) else Waits([])
  {
    var f, width := WordFormat(n, more), Digits(n) + (['s'] + more);
    assert f[0] == '%' && f[1..] == width;
    assert Scan(f, 0, 0, s) == Scan(width, 1, 0, s);
    WidthRead(n, 0, ['s'] + more, s);
    assert (['s'] + more)[0] == 's' && (['s'] + more)[1..] == more;
    hide WordFrom;
    var g := WordFrom(false, "", n - 1, s);
    if g.Got? { OldWidth(more, 0, n, 0, g.rest); }
  }

  /** `%<n>s` stores the next word and leaves the input at the white space after it. */
  lemma StoresWord(n: nat, more: string, sp: string, w: string, u: string)
    requires Blanks(sp) && IsWord(w) && |w| < n && u != "" && IsBlank(u[0])
    ensures Scan(WordFormat(n, more), 0, 0, sp + (w + u)) == Before([Word(w)], Scan(more, 0, 0, u))
  {
    hide Scan, WordFrom, WordFormat;
    WordStep(n, more, sp + (w + u));
    WordRead(n, sp, w, u);
  }

  /** Of a word that is too long it stores the beginning and leaves the rest. */
  lemma StoresBeginning(n: nat, more: string, sp: string, w: string, u: string)
    requires Blanks(sp) && IsWord(w) && n >= 2 && |w| >= n
    ensures Scan(WordFormat(n, more), 0, 0, sp + (w + u))
      == Before([Word(w[..n - 1])], Scan(more, 0, 0, w[n - 1..] + u))
  {
    hide Scan, WordFrom, WordFormat;
    WordStep(n, more, sp + (w + u));
    LongWordRead(n, sp, w, u);
  }

  // The plain string after a mark.
  lemma Marked(c: char, more: string, s: string)
    requires s != ""
    ensures Scan(['%'] + ([c] + more), 0, 0, s) == Scan([c] + more, 1, 0, s)
    ensures ([c] + more)[0] == c && ([c] + more)[1..] == more
  {
    var f := ['%'] + ([c] + more);
    assert f[0] == '%' && f[1..] == [c] + more;
  }

  /** `%c` stores the next character, whatever it is; `%%` takes a percent sign. */
  lemma StoresCharacter(more: string, c: char, u: string)
    ensures Scan(['%'] + (['c'] + more), 0, 0, [c] + u) == Before([Char(c)], Scan(more, 0, 0, u))
    ensures Scan(['%'] + (['%'] + more), 0, 0, [c] + u) == if c == '%' then Scan(more, 0, 0, u) else Returns([], [c] + u)
  {
    var s := [c] + u;
    assert s[0] == c && s[1..] == u;
    Marked('c', more, s);
    Marked('%', more, s);
  }

  /** A character outside of a conversion takes that character; white space takes white space of any length. */
  lemma TakesCharacter(f: char, more: string, c: char, u: string)
    requires f != '%' && !IsBlank(f)
    ensures Scan([f] + more, 0, 0, [c] + u) == if c == f then Scan(more, 0, 0, u) else Returns([], [c] + u)
  {
    var format, s := [f] + more, [c] + u;
    assert format[0] == f && format[1..] == more && s[0] == c && s[1..] == u;
  }

  lemma TakesBlanks(f: char, more: string, sp: string, u: string)
    requires IsBlank(f) && Blanks(sp) && u != "" && !IsBlank(u[0])
    ensures Scan([f] + more, 0, 0, sp + u) == Scan(more, 0, 0, u)
  {
    var format := [f] + more;
    assert format[0] == f && format[1..] == more;
    SkipsBlanks(sp, 1, u);
  }

  /** `%d` takes a number after white space and fails at anything else. */
  lemma StoresNumber(more: string, sp: string, v: Int32, u: string)
    requires Blanks(sp) && u != "" && !('0' <= u[0] <= '9')
    ensures Scan(PERCENT_D + more, 0, 0, sp + (Decimal(v) + u)) == Before([Int(v)], Scan(more, 0, 0, u))
    ensures u[0] != '-' && !IsBlank(u[0]) ==> Scan(PERCENT_D + more, 0, 0, sp + u) == Returns([], u)
  {
    hide Decimal, Digits;
    DecimalStarts(v);
    SkipsBlanks(sp, 1, Decimal(v) + u);
    SkipsBlanks(sp, 1, u);
    ReadsBack(v, u);
    NumberStep(more, sp + (Decimal(v) + u));
    NumberStep(more, sp + u);
    hide Scan;
  }

  lemma NumberStep(more: string, s: string)
    requires s != ""
    ensures var g := DecFrom(0, false, 0, s);
      && (g.Got? ==> Scan(PERCENT_D + more, 0, 0, s) == Before([Int(g.value)], Scan(more, 0, 0, g.rest)))
      && (g.Failed? ==> Scan(PERCENT_D + more, 0, 0, s) == Returns([], g.rest))
  {
    hide DecFrom;
    Marked('d', more, s);
    assert PERCENT_D + more == ['%'] + (['d'] + more);
  }

  /** What the conversions of printf other than `%d` write. */
  lemma Writes(more: string, args: seq<Arg>, w: string, c: char, x: Uint32)
    requires Suits(more, false, args)
    ensures Suits(['%'] + (['s'] + more), false, [S(w)] + args)
    ensures Formatted(['%'] + (['s'] + more), false, [S(w)] + args) == w + Formatted(more, false, args)
    ensures Suits(['%'] + (['c'] + more), false, [C(c)] + args)
    ensures Formatted(['%'] + (['c'] + more), false, [C(c)] + args) == [c] + Formatted(more, false, args)
    ensures Suits(['%'] + (['x'] + more), false, [X(x)] + args)
    ensures Formatted(['%'] + (['x'] + more), false, [X(x)] + args) == HexDigits(x) + Formatted(more, false, args)
    ensures Suits(['%'] + (['%'] + more), false, args)
    ensures Formatted(['%'] + (['%'] + more), false, args) == ['%'] + Formatted(more, false, args)
  {
    hide HexDigits;
    WritesOne('s', more, [S(w)] + args, args);
    WritesOne('c', more, [C(c)] + args, args);
    WritesOne('x', more, [X(x)] + args, args);
    WritesOne('%', more, args, args);
    hide Formatted, Suits;
  }

  lemma WritesOne(f: char, more: string, all: seq<Arg>, args: seq<Arg>)
    requires Suits(more, false, args) && if f == '%' then all == args else |all| > 0 && all[1..] == args
    requires f == '%' || (f == 's' && all[0].S?) || (f == 'c' && all[0].C?) || (f == 'x' && all[0].X?)
    ensures var format := ['%'] + ([f] + more);
      && Suits(format, false, all)
      && Formatted(format, false, all) == (if f == '%' then ['%'] else ArgText(all[0])) + Formatted(more, false, args)
  {
    var format := ['%'] + ([f] + more);
    assert format[0] == '%' && format[1..] == [f] + more && ([f] + more)[0] == f && ([f] + more)[1..] == more;
    hide ArgText;
    assert Suits(format[1..], true, all);
    assert Formatted(format, false, all) == "" + Formatted([f] + more, true, all);
  }

  // `%s %s ... %s `
  function WordsPrinted(k: nat): string {
    if k == 0 then [] else ['%'] + (['s'] + ([' '] + WordsPrinted(k - 1)))
  }

  // `%<n>s%<n>s ... %<n>s`
  function WordsRead(n: nat, k: nat): string {
    if k == 0 then [] else WordFormat(n, WordsRead(n, k - 1))
  }

  function WordArgs(ws: seq<string>): seq<Arg> {
    if ws == [] then [] else [S(ws[0])] + WordArgs(ws[1..])
  }

  function Words(ws: seq<string>): (r: seq<Stored>)
    ensures |r| == |ws| && forall k :: 0 <= k < |ws| ==> r[k] == Word(ws[k])
  {
    seq(|ws|, k requires 0 <= k < |ws| => Word(ws[k]))
  }

  // The words with a blank after each.
  function Spread(ws: seq<string>): string {
    if ws == [] then [] else ws[0] + ([' '] + Spread(ws[1..]))
  }

  lemma {:induction false} PrintsWords(ws: seq<string>)
    ensures Suits(WordsPrinted(|ws|), false, WordArgs(ws)) && Formatted(WordsPrinted(|ws|), false, WordArgs(ws)) == Spread(ws)
    decreases |ws|
  {
    if ws != [] {
      var more, args := WordsPrinted(|ws| - 1), WordArgs(ws[1..]);
      PrintsWords(ws[1..]);
      FormatPlain(' ', more, args);
      Writes([' '] + more, args, ws[0], ' ', 0);
    }
  }

  // The input may have white space before the words.
  lemma {:induction false} ReadsWords(n: nat, sp: string, ws: seq<string>)
    requires Blanks(sp) && ws != [] && forall k :: 0 <= k < |ws| ==> IsWord(ws[k]) && |ws[k]| < n
    ensures Scan(WordsRead(n, |ws|), 0, 0, sp + Spread(ws)) == Returns(Words(ws), [' '])
    decreases |ws|
  {
    var more, rest := WordsRead(n, |ws| - 1), Spread(ws[1..]);
    hide Scan, WordFormat, IsWord;
    StoresWord(n, more, sp, ws[0], [' '] + rest);
    if |ws| > 1 {
      ReadsWords(n, [' '], ws[1..]);
      assert Words(ws) == [Word(ws[0])] + Words(ws[1..]);
    } else {
      ScanEnds([], 0, 0, [' ']);
      assert rest == [] && [' '] + rest == [' '];
      assert Words(ws) == [Word(ws[0])] + [];
    }
  }

  /** Words printed with blanks between them are read back through any cut of the text. */
  method WordsThrough(n: nat, ws: seq<string>, chunks: seq<string>) returns (text: string, r: Scanned)
    requires ws != [] && forall k :: 0 <= k < |ws| ==> IsWord(ws[k]) && |ws[k]| < n
    ensures text == Spread(ws)
    ensures AllFull(chunks) && Joined(chunks) == text ==> r == Returns(Words(ws), [' '])
  {
    hide Scan, IsWord, Spread, Words;
    PrintsWords(ws);
    var printer := new Printer();
    printer.Printf(WordsPrinted(|ws|), WordArgs(ws));
    text := printer.written;
    r := Waits([]);
    var full := NoneEmpty(chunks);
    if full {
      ReadsWords(n, [], ws);
      assert [] + Spread(ws) == Spread(ws);
      var reader := new Scanner(chunks);
      r := reader.Scanf(WordsRead(n, |ws|));
    }
  }

  method NoneEmpty(chunks: seq<string>) returns (full: bool)
    ensures full == AllFull(chunks)
  {
    var k := 0;
    while k < |chunks|
      invariant k <= |chunks| && forall j :: 0 <= j < k ==> chunks[j] != ""
    {
      if chunks[k] == "" { return false; }
      k := k + 1;
    }
    return true;
  }

  // ---------- digits by their places ----------

  function PlaceValue(base: nat, ds: seq<nat>): nat {
    if ds == [] then 0 else PlaceValue(base, ds[..|ds| - 1]) * base + ds[|ds| - 1]
  }

  predicate Spells(t: string, ds: seq<nat>, alphabet: string) {
    |t| == |ds| && forall k :: 0 <= k < |ds| ==> ds[k] < |alphabet| && t[k] == alphabet[ds[k]]
  }

  lemma MoreSpelled(t: string, ds: seq<nat>, c: char, d: nat, alphabet: string)
    requires Spells(t, ds, alphabet) && d < |alphabet| && c == alphabet[d]
    ensures Spells(t + [c], ds + [d], alphabet)
  {
  }

  lemma LastPlace(base: nat, high: seq<nat>, d: nat)
    ensures PlaceValue(base, high + [d]) == PlaceValue(base, high) * base + d
  {
    assert (high + [d])[..|high|] == high;
  }

  lemma OneSpelled(c: char, d: nat, alphabet: string, base: nat)
    requires d < |alphabet| && c == alphabet[d]
    ensures Spells([c], [d], alphabet) && PlaceValue(base, [d]) == d
  {
    LastPlace(base, [], d);
    assert PlaceValue(base, []) * base == 0;
    assert [] + [d] == [d];
  }

  /** The decimal text has the value of the number and no zero too many. */
  lemma {:induction false} DigitsSpelled(n: nat) returns (ds: seq<nat>)
    ensures Spells(Digits(n), ds, "0123456789") && PlaceValue(10, ds) == n
    ensures |ds| > 0 && (ds[0] == 0 ==> n == 0 && |ds| == 1)
    decreases n
  {
    DigitText(n % 10);
    hide Spells, DigitChar, PlaceValue;
    if n < 10 {
      OneSpelled(DigitChar(n), n, "0123456789", 10);
      ds := [n];
    } else {
      var high := DigitsSpelled(n / 10);
      MoreSpelled(Digits(n / 10), high, DigitChar(n % 10), n % 10, "0123456789");
      LastPlace(10, high, n % 10);
      ds := high + [n % 10];
    }
  }

  lemma HexText(d: nat)
    requires d < 16
    ensures HexChar(d) == "0123456789abcdef"[d]
  {
  }

  lemma {:induction false} HexSpelled(x: nat) returns (ds: seq<nat>)
    ensures Spells(HexDigits(x), ds, "0123456789abcdef") && PlaceValue(16, ds) == x
    ensures |ds| > 0 && (ds[0] == 0 ==> x == 0 && |ds| == 1)
    decreases x
  {
    HexText(x % 16);
    hide Spells, HexChar, PlaceValue;
    if x < 16 {
      OneSpelled(HexChar(x), x, "0123456789abcdef", 16);
      ds := [x];
    } else {
      var high := HexSpelled(x / 16);
      MoreSpelled(HexDigits(x / 16), high, HexChar(x % 16), x % 16, "0123456789abcdef");
      LastPlace(16, high, x % 16);
      ds := high + [x % 16];
    }
  }

  // A hexadecimal digit in small or capital letters.
  predicate IsHex(c: char, d: nat) {
    d < 16 && (c == "0123456789abcdef"[d] || c == "0123456789ABCDEF"[d])
  }

  lemma HexIsRead(c: char, d: nat)
    requires IsHex(c, d)
    ensures d < 16 && HexOf(c) == d
  {
  }

  predicate SpellsHex(t: string, ds: seq<nat>) {
    |t| == |ds| && forall k :: 0 <= k < |ds| ==> IsHex(t[k], ds[k])
  }

  lemma LastHex(t: string, ds: seq<nat>)
    requires SpellsHex(t, ds) && ds != []
    ensures |t| == |ds| && IsHex(t[|t| - 1], ds[|t| - 1]) && SpellsHex(t[..|t| - 1], ds[..|t| - 1])
  {
    hide IsHex;
  }

  lemma {:induction false} ReadsPlaces(t: string, ds: seq<nat>, u: string)
    requires SpellsHex(t, ds) && ds != []
    ensures HexFrom(2, 0, t + u) == HexFrom(3, Wrap(PlaceValue(16, ds)), u)
    decreases |ds|
  {
    hide *;
    LastHex(t, ds);
    var n := |ds| - 1;
    var high, c := ds[..n], [t[n]];
    HexIsRead(t[n], ds[n]);
    LastPlace(16, high, ds[n]);
    assert high + [ds[n]] == ds && t + u == t[..n] + (c + u);
    if n > 0 {
      ReadsPlaces(t[..n], high, c + u);
      PlaceRead(PlaceValue(16, high), ds[n], 3, t[n], u);
    } else {
      NoPlaces();
      assert high == [] && t[..n] + (c + u) == c + u;
      PlaceRead(0, ds[n], 2, t[n], u);
      WrapMeans(0);
    }
  }

  lemma NoPlaces()
    ensures PlaceValue(16, []) == 0
  {
  }

  lemma PlaceRead(n: nat, d: nat, state: nat, c: char, u: string)
    requires d < 16 && 2 <= state <= 3 && HexOf(c) == d
    ensures HexFrom(state, Wrap(n), [c] + u) == HexFrom(3, Wrap(n * 16 + d), u)
  {
    var s := [c] + u;
    assert s[0] == c && s[1..] == u;
    hide Wrap, HexOf;
    WrapStep(n, 16, d);
  }

  /** 32-bit arithmetic gives the one 32-bit integer that differs by a multiple of 2^32. */
  lemma WrapMeans(x: int)
    ensures (Wrap(x) - x) % (2 * LIMIT) == 0 && (-LIMIT <= x < LIMIT ==> Wrap(x) == x)
  {
  }

  lemma WrapStep(n: nat, base: nat, d: nat)
    requires base == 10 || base == 16
    ensures var w: int := Wrap(n); Wrap(Wrap(w * base) + d) == Wrap(n * base + d)
  {
    var w: int := Wrap(n);
    WrapOf(n, w, base);
    WrapSum(w * base, d);
    WrapSum(n * base, d);
  }

  lemma WrapOf(n: nat, w: int, base: nat)
    requires w == Wrap(n) && (base == 10 || base == 16)
    ensures Wrap(w * base) == Wrap(n * base)
  {
    var k := (n + LIMIT) / (2 * LIMIT);
    assert w == n - k * (2 * LIMIT);
    assert w * base == n * base - (k * base) * (2 * LIMIT);
    hide Wrap;
    WrapPlus(n * base, -(k * base));
  }

  lemma WrapSum(x: int, d: int)
    ensures Wrap(Wrap(x) + d) == Wrap(x + d)
  {
    var k := (x + LIMIT) / (2 * LIMIT);
    assert Wrap(x) == x - k * (2 * LIMIT);
    hide Wrap;
    WrapPlus(x + d, -k);
  }

  lemma WrapPlus(x: int, k: int)
    ensures Wrap(x + k * (2 * LIMIT)) == Wrap(x)
  {
    var q, r := (x + LIMIT) / (2 * LIMIT), (x + LIMIT) % (2 * LIMIT);
    assert x + k * (2 * LIMIT) + LIMIT == (q + k) * (2 * LIMIT) + r;
  }

  /** After white space and the prefix, hexadecimal digits are read by their places, capital or not. */
  lemma ReadsHex(sp: string, t: string, ds: seq<nat>, u: string)
    requires Blanks(sp) && SpellsHex(t, ds) && ds != [] && u != "" && u[0] !in "0123456789abcdefABCDEF"
    ensures HexFrom(0, 0, sp + (['0', 'x'] + (t + u))) == Got(Wrap(PlaceValue(16, ds)), u)
  {
    SkipsBlanks(sp, 1, ['0', 'x'] + (t + u));
    Prefix(t + u);
    ReadsPlaces(t, ds, u);
    if HexOf(u[0]) >= 0 { HexKnown(u[0]); }
    hide Wrap, PlaceValue, SpellsHex;
  }

  lemma SmallIsHex(t: string, ds: seq<nat>)
    requires Spells(t, ds, "0123456789abcdef")
    ensures SpellsHex(t, ds)
  {
  }

  lemma NoBlanks()
    ensures Blanks("")
  {
  }

  lemma WordWrap(x: Uint32)
    ensures Wrap(x) == if x < LIMIT then x else x - 2 * LIMIT
  {
  }

  /** With the prefix written before it every 32-bit word is read back. */
  lemma HexReadBack(x: Uint32, u: string)
    requires u != "" && u[0] !in "0123456789abcdefABCDEF"
    ensures HexFrom(0, 0, ['0', 'x'] + (HexDigits(x) + u)) == Got(if x < LIMIT then x else x - 2 * LIMIT, u)
  {
    hide *;
    var t := HexDigits(x);
    var ds := HexSpelled(x);
    SmallIsHex(t, ds);
    WordWrap(x);
    NoBlanks();
    ReadsHex("", t, ds, u);
    assert "" + (['0', 'x'] + (t + u)) == ['0', 'x'] + (t + u);
  }

  lemma LastSpelled(t: string, ds: seq<nat>, alphabet: string)
    requires Spells(t, ds, alphabet) && ds != []
    ensures var n := |ds| - 1;
      |t| == |ds| && Spells(t[..n], ds[..n], alphabet) && ds[n] < |alphabet| && t[n] == alphabet[ds[n]]
  {
  }

  lemma {:induction false} ReadsDecimalPlaces(t: string, ds: seq<nat>, state: nat, negative: bool, u: string)
    requires Spells(t, ds, "0123456789") && ds != [] && state <= 1
    ensures DecFrom(state, negative, 0, t + u) == DecFrom(2, negative, Wrap(PlaceValue(10, ds)), u)
    decreases |ds|
  {
    hide *;
    LastSpelled(t, ds, "0123456789");
    var n := |ds| - 1;
    var high, c := ds[..n], [t[n]];
    DigitText(ds[n]);
    LastPlace(10, high, ds[n]);
    assert high + [ds[n]] == ds && t + u == t[..n] + (c + u);
    if n > 0 {
      ReadsDecimalPlaces(t[..n], high, state, negative, c + u);
      DigitRead(PlaceValue(10, high), ds[n], negative, u);
    } else {
      OneSpelled(t[n], ds[n], "0123456789", 10);
      assert ds == [ds[n]] && t[..n] + (c + u) == c + u && c == [DigitChar(ds[n])];
      FirstDigit(ds[n], state, negative, u);
      DigitWrap(ds[n]);
    }
  }

  lemma DigitWrap(d: nat)
    requires d < 10
    ensures Wrap(d) == d
  {
  }

  lemma DigitRead(n: nat, d: nat, negative: bool, u: string)
    requires d < 10
    ensures DecFrom(2, negative, Wrap(n), [DigitChar(d)] + u) == DecFrom(2, negative, Wrap(n * 10 + d), u)
  {
    var s := [DigitChar(d)] + u;
    assert s[0] == DigitChar(d) && s[1..] == u;
    DigitText(d);
    hide Wrap, DigitChar;
    WrapStep(n, 10, d);
  }

  /** After white space, decimal digits are read by their places; a minus sign before them negates. */
  lemma ReadsDecimal(sp: string, t: string, ds: seq<nat>, u: string)
    requires Blanks(sp) && Spells(t, ds, "0123456789") && ds != [] && u != "" && !('0' <= u[0] <= '9')
    ensures DecFrom(0, false, 0, sp + (t + u)) == Got(Wrap(PlaceValue(10, ds)), u)
    ensures DecFrom(0, false, 0, sp + (['-'] + (t + u))) == Got(Wrap(0 - PlaceValue(10, ds)), u)
  {
    hide *;
    var v: int := PlaceValue(10, ds);
    SkipsBlanks(sp, 1, t + u);
    SkipsBlanks(sp, 1, ['-'] + (t + u));
    ReadsDecimalPlaces(t, ds, 0, false, u);
    ReadsDecimalPlaces(t, ds, 1, true, u);
    MinusRead(t + u);
    NegateWrap(v);
    DigitsEnd(false, Wrap(v), u);
    DigitsEnd(true, Wrap(v), u);
  }

  lemma DigitsEnd(negative: bool, n: Int32, u: string)
    requires u != "" && !('0' <= u[0] <= '9')
    ensures DecFrom(2, negative, n, u) == Got(if negative then Negate(n) else n, u)
  {
  }

  lemma MinusRead(t: string)
    ensures DecFrom(0, false, 0, ['-'] + t) == DecFrom(1, true, 0, t)
  {
    var s := ['-'] + t;
    assert s[0] == '-' && s[1..] == t;
  }

  lemma NegateWrap(x: int)
    ensures Negate(Wrap(x)) == Wrap(0 - x)
  {
    var k := (x + LIMIT) / (2 * LIMIT);
    var w: int := Wrap(x);
    assert w == x - k * (2 * LIMIT);
    WrapPlus(-x, k);
  }

  lemma HexKnown(c: char)
    requires HexOf(c) >= 0
    ensures c in "0123456789abcdefABCDEF"
  {
    var k := if IsDigit(c) then DigitOf(c) else if c <= 'F' then HexOf(c) + 6 else HexOf(c);
    assert "0123456789abcdefABCDEF"[k] == c;
  }
}
