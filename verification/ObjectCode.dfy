/** MIPS code for straight-line three-address code: every variable and temporary owns a word of the
    frame, found by its printed name. */
module ObjectCode {
  import opened ThreeAddress

  // ---------- the machine ----------

  const SP := 29
  const FP := 30

  datatype Mips =
    | Addi(rt: nat, rs: nat, imm: int)
    | Lw(rt: nat, off: int, base: nat)
    | Sw(rt: nat, off: int, base: nat)
    | Li(rt: nat, imm: int)
    | Move(rd: nat, rs: nat)
    | AddRegs(rd: nat, rs: nat, rt: nat)
    | SubRegs(rd: nat, rs: nat, rt: nat)
    | MulRegs(rd: nat, rs: nat, rt: nat)
    | DivRegs(rs: nat, rt: nat)
    | Mflo(rd: nat)

  // Memory is word by word, by byte address.
  datatype Machine = Machine(regs: map<nat, int>, mem: map<int, int>, lo: int)

  function Reg(m: Machine, r: nat): int {
    if r in m.regs then m.regs[r] else 0
  }

  function Word(m: Machine, a: int): int {
    if a in m.mem then m.mem[a] else 0
  }

  function SetReg(m: Machine, r: nat, v: int): Machine {
    m.(regs := m.regs[r := v])
  }

  // None: division by zero.
  function Do(ins: Mips, m: Machine): Option<Machine> {
    match ins
    case Addi(rt, rs, imm) => Some(SetReg(m, rt, Reg(m, rs) + imm))
    case Lw(rt, off, base) => Some(SetReg(m, rt, Word(m, Reg(m, base) + off)))
    case Sw(rt, off, base) => Some(m.(mem := m.mem[Reg(m, base) + off := Reg(m, rt)]))
    case Li(rt, imm) => Some(SetReg(m, rt, imm))
    case Move(rd, rs) => Some(SetReg(m, rd, Reg(m, rs)))
    case AddRegs(rd, rs, rt) => Some(SetReg(m, rd, Reg(m, rs) + Reg(m, rt)))
    case SubRegs(rd, rs, rt) => Some(SetReg(m, rd, Reg(m, rs) - Reg(m, rt)))
    case MulRegs(rd, rs, rt) => Some(SetReg(m, rd, Reg(m, rs) * Reg(m, rt)))
    case DivRegs(rs, rt) => if Reg(m, rt) == 0 then None else Some(m.(lo := Quotient(Reg(m, rs), Reg(m, rt))))
    case Mflo(rd) => Some(SetReg(m, rd, m.lo))
  }

  function DoAll(ms: seq<Mips>, m: Machine): Option<Machine> {
    if ms == [] then Some(m)
    else
      match Do(ms[0], m)
      case None => None
      case Some(m') => DoAll(ms[1..], m')
  }

  lemma {:induction false} DoBoth(a: seq<Mips>, b: seq<Mips>, m: Machine)
    ensures DoAll(a + b, m) == match DoAll(a, m) case None => None case Some(m') => DoAll(b, m')
    decreases |a|
  {
    if a == [] {
      assert a + b == b;
    } else {
      assert (a + b)[0] == a[0] && (a + b)[1..] == a[1..] + b;
      match Do(a[0], m)
      case None =>
      case Some(m') => DoBoth(a[1..], b, m');
    }
  }

  // ---------- names ----------

  function Digit(d: nat): char
    requires d < 10
  {
    (d + '0' as nat) as char
  }

  function Decimal(n: nat): (s: string)
    ensures s != []
  {
    if n < 10 then [Digit(n)] else Decimal(n / 10) + [Digit(n % 10)]
  }

  lemma {:induction false} DecimalInjective(m: nat, n: nat)
    requires Decimal(m) == Decimal(n)
    ensures m == n
    decreases m
  {
    var s := Decimal(m);
    assert s[|s| - 1] == Digit(m % 10) == Digit(n % 10);
    if m >= 10 && n >= 10 {
      assert s[..|s| - 1] == Decimal(m / 10) == Decimal(n / 10);
      DecimalInjective(m / 10, n / 10);
    } else {
      DecimalLong(m);
      DecimalLong(n);
    }
  }

  lemma DecimalLong(n: nat)
    ensures |Decimal(n)| == 1 <==> n < 10
  {
  }

  predicate IsPlace(a: Operand) {
    a.Variable? || a.Temp?
  }

  function Name(a: Operand): string
    requires IsPlace(a)
  {
    match a
    case Variable(x) => x
    case Temp(n) => "t" + Decimal(n)
  }

  /** Distinct operands of `ops` have distinct printed names. */
  ghost predicate NoClash(ops: set<Operand>) {
    forall a, b :: a in ops && b in ops && IsPlace(a) && IsPlace(b) && Name(a) == Name(b) ==> a == b
  }

  /** That is the case exactly if no program variable has the printed name of a temporary. */
  lemma NoClashMeans(ops: set<Operand>)
    ensures NoClash(ops) <==> forall x, n :: Variable(x) in ops && Temp(n) in ops ==> x != Name(Temp(n))
  {
    if forall x, n :: Variable(x) in ops && Temp(n) in ops ==> x != Name(Temp(n)) {
      forall a, b | a in ops && b in ops && IsPlace(a) && IsPlace(b) && Name(a) == Name(b)
        ensures a == b
      {
        if a.Temp? && b.Temp? {
          assert Name(a)[1..] == Decimal(a.no) && Name(b)[1..] == Decimal(b.no);
          DecimalInjective(a.no, b.no);
        }
      }
    }
  }

  // ---------- the frame ----------

  datatype Frame = Frame(slots: map<string, int>, offset: int)

  /** Every slot is a word between the stack pointer and the frame pointer, and no two names share one. */
  ghost predicate Layout(f: Frame) {
    && f.offset <= 0 && f.offset % 4 == 0
    && (forall x :: x in f.slots ==> f.offset <= f.slots[x] <= -4 && f.slots[x] % 4 == 0)
    && (forall x, y :: x in f.slots && y in f.slots && x != y ==> f.slots[x] != f.slots[y])
  }

  const EMPTY := Frame(map[], 0)

  function WithSlot(f: Frame, x: string): (g: Frame)
    ensures x in g.slots
  {
    if x in f.slots then f else Frame(f.slots[x := f.offset - 4], f.offset - 4)
  }

  lemma LayoutKept(f: Frame, x: string)
    requires Layout(f)
    ensures Layout(WithSlot(f, x))
  {
  }

  // The slots of the operands `ops` hold their values.
  ghost predicate Values(slots: map<string, int>, ops: set<Operand>, m: Machine, st: State) {
    forall a :: a in ops && IsPlace(a) && Name(a) in slots ==> Word(m, Reg(m, FP) + slots[Name(a)]) == Look(st, a)
  }

  /** The stack pointer stands at the offset, and the slots of the operands `ops` hold their values. */
  ghost predicate Holding(f: Frame, ops: set<Operand>, m: Machine, st: State) {
    Reg(m, SP) == Reg(m, FP) + f.offset && Values(f.slots, ops, m, st)
  }

  // ---------- straight-line code ----------

  function Operands(ins: Instr): set<Operand> {
    match ins
    case Assign(d, a) => {d, a}
    case Bin(_, d, a, b) => {d, a, b}
    case _ => {}
  }

  // What an instruction reads.
  function Sources(ins: Instr): set<Operand> {
    match ins
    case Assign(_, a) => {a}
    case Bin(_, _, a, b) => {a, b}
    case _ => {}
  }

  // The variables and temporaries of `these` are among `ops`.
  predicate Within(these: set<Operand>, ops: set<Operand>) {
    forall a :: a in these && IsPlace(a) ==> a in ops
  }

  predicate Straight(ins: Instr) {
    (ins.Assign? || ins.Bin?) && IsPlace(ins.d) && Missing !in Sources(ins)
  }

  // Whatever is read is a constant or has a slot.
  predicate Ready(ins: Instr, f: Frame) {
    forall a :: a in Sources(ins) && IsPlace(a) ==> Name(a) in f.slots
  }

  // The frame after an instruction, and after all of them.
  function FrameAfter(ins: Instr, f: Frame): Frame
    requires Straight(ins)
  {
    WithSlot(f, Name(ins.d))
  }

  predicate AllReady(code: Code, f: Frame)
    requires forall k :: 0 <= k < |code| ==> Straight(code[k])
  {
    code == [] || (Ready(code[0], f) && AllReady(code[1..], FrameAfter(code[0], f)))
  }

  function FrameAll(code: Code, f: Frame): Frame
    requires forall k :: 0 <= k < |code| ==> Straight(code[k])
  {
    if code == [] then f else FrameAll(code[1..], FrameAfter(code[0], f))
  }

  function EffectAll(code: Code, st: State): Option<State> {
    if code == [] then Some(st)
    else
      match Effect(code[0], st)
      case None => None
      case Some(st') => EffectAll(code[1..], st')
  }

  /** From any machine that holds the values of `st` in frame `f`, the machine code ends in one that
      holds the values after `code` in frame `g`; it stops at a division by zero if and only if `code` does. */
  ghost predicate Carries(code: Code, ops: set<Operand>, ms: seq<Mips>, f: Frame, g: Frame) {
    forall m, st :: Holding(f, ops, m, st) ==> CarriesFrom(code, ops, ms, g, m, st)
  }

  ghost predicate CarriesFrom(code: Code, ops: set<Operand>, ms: seq<Mips>, g: Frame, m: Machine, st: State) {
    match EffectAll(code, st)
    case None => DoAll(ms, m) == None
    case Some(st') => DoAll(ms, m).Some? && Holding(g, ops, DoAll(ms, m).value, st')
  }

  lemma CarriesBoth(a: Code, b: Code, ops: set<Operand>, ma: seq<Mips>, mb: seq<Mips>, f: Frame, g: Frame, h: Frame)
    requires Carries(a, ops, ma, f, g) && Carries(b, ops, mb, g, h)
    ensures Carries(a + b, ops, ma + mb, f, h)
  {
    hide Holding, Effect;
    forall m, st | Holding(f, ops, m, st)
      ensures CarriesFrom(a + b, ops, ma + mb, h, m, st)
    {
      assert CarriesFrom(a, ops, ma, g, m, st);
      DoBoth(ma, mb, m);
      EffectBoth(a, b, st);
      if EffectAll(a, st).Some? {
        assert CarriesFrom(b, ops, mb, h, DoAll(ma, m).value, EffectAll(a, st).value);
      }
    }
  }

  lemma {:induction false} EffectBoth(a: Code, b: Code, st: State)
    ensures EffectAll(a + b, st) == match EffectAll(a, st) case None => None case Some(st') => EffectAll(b, st')
    decreases |a|
  {
    hide Effect;
    if a == [] {
      assert a + b == b;
    } else {
      assert (a + b)[0] == a[0] && (a + b)[1..] == a[1..] + b;
      match Effect(a[0], st)
      case None =>
      case Some(st') => EffectBoth(a[1..], b, st');
    }
  }

  // ---------- one instruction ----------

  // An operand into a register; a constant by itself, a variable from its slot.
  function Fetch(a: Operand, f: Frame, r: nat): seq<Mips>
    requires IsPlace(a) ==> Name(a) in f.slots
  {
    if IsPlace(a) then [Lw(r, f.slots[Name(a)], FP)]
    else if a.Constant? then [Li(r, a.val)]
    else []
  }

  // Room for the name if it is new, and the contents of its slot into register `r`.
  function Open(x: string, f: Frame, r: nat): seq<Mips> {
    (if x in f.slots then [] else [Addi(SP, SP, -4)]) + [Lw(r, WithSlot(f, x).slots[x], FP)]
  }

  // Register `r` into the slot of the name, with room for a new one.
  function Store(r: nat, x: string, f: Frame): seq<Mips> {
    (if x in f.slots then [] else [Addi(SP, SP, -4)]) + [Sw(r, WithSlot(f, x).slots[x], FP)]
  }

  lemma KnownSlot(r: nat, x: string, f: Frame)
    requires x in f.slots
    ensures WithSlot(f, x) == f && Store(r, x, f) == [Sw(r, f.slots[x], FP)]
  {
  }

  function Compute(op: Arith): seq<Mips> {
    match op
    case Add => [AddRegs(5, 6, 7)]
    case Sub => [SubRegs(5, 6, 7)]
    case Mul => [MulRegs(5, 6, 7)]
    case Div => [DivRegs(6, 7), Mflo(5)]
  }

  function Body(ins: Instr, g: Frame): seq<Mips>
    requires Straight(ins) && Ready(ins, g)
  {
    match ins
    case Assign(_, a) => Fetch(a, g, 6) + [Move(5, 6)]
    case Bin(op, _, a, b) => Fetch(a, g, 6) + Fetch(b, g, 7) + Compute(op)
    case _ => []
  }

  lemma One(ins: Mips, m: Machine)
    ensures DoAll([ins], m) == Do(ins, m)
  {
    assert [ins][1..] == [];
    match Do(ins, m) case None => case Some(m') => assert DoAll([], m') == Some(m');
  }

  // Registers 5 to 7 and $lo are for work; only they differ.
  ghost predicate Working(m: Machine, n: Machine) {
    m.mem == n.mem && Reg(m, SP) == Reg(n, SP) && Reg(m, FP) == Reg(n, FP)
  }

  lemma ValuesWorking(slots: map<string, int>, ops: set<Operand>, m: Machine, n: Machine, st: State)
    requires Values(slots, ops, m, st) && m.mem == n.mem && Reg(m, FP) == Reg(n, FP)
    ensures Values(slots, ops, n, st)
  {
    hide Name, Look;
  }

  lemma FetchDoes(a: Operand, f: Frame, slots: map<string, int>, ops: set<Operand>, r: nat, m: Machine, st: State)
    requires IsPlace(a) ==> Name(a) in f.slots && Name(a) in slots && f.slots[Name(a)] == slots[Name(a)] && a in ops
    requires a != Missing && 5 <= r <= 7 && Values(slots, ops, m, st)
    ensures DoAll(Fetch(a, f, r), m) == Some(SetReg(m, r, Look(st, a)))
    ensures Working(m, SetReg(m, r, Look(st, a)))
  {
    One(Fetch(a, f, r)[0], m);
  }

  // Afterwards the stack pointer makes room for the name; memory is as it was.
  lemma OpenDoes(x: string, f: Frame, m: Machine) returns (n: Machine)
    requires Reg(m, SP) == Reg(m, FP) + f.offset
    ensures DoAll(Open(x, f, 5), m) == Some(n)
    ensures n.mem == m.mem && Reg(n, FP) == Reg(m, FP) && Reg(n, SP) == Reg(m, FP) + WithSlot(f, x).offset
  {
    var lw := Lw(5, WithSlot(f, x).slots[x], FP);
    if x in f.slots {
      assert Open(x, f, 5) == [lw];
      One(lw, m);
      n := Do(lw, m).value;
    } else {
      assert Open(x, f, 5) == [Addi(SP, SP, -4)] + [lw];
      DoBoth([Addi(SP, SP, -4)], [lw], m);
      One(Addi(SP, SP, -4), m);
      var k := Do(Addi(SP, SP, -4), m).value;
      One(lw, k);
      n := Do(lw, k).value;
    }
  }

  // The value of an instruction that has one.
  function ValueOf(ins: Instr, st: State): Option<int>
    requires Straight(ins)
  {
    match ins
    case Assign(_, a) => Some(Look(st, a))
    case Bin(op, _, a, b) => Calc(op, Look(st, a), Look(st, b))
    case _ => None
  }

  lemma ComputeDoes(op: Arith, m: Machine) returns (n: Option<Machine>)
    ensures n == DoAll(Compute(op), m)
    ensures match Calc(op, Reg(m, 6), Reg(m, 7))
      case None => n == None
      case Some(v) => n.Some? && Working(m, n.value) && Reg(n.value, 5) == v
  {
    n := DoAll(Compute(op), m);
    if op == Div {
      assert Compute(op) == [DivRegs(6, 7)] + [Mflo(5)];
      DoBoth([DivRegs(6, 7)], [Mflo(5)], m);
      One(DivRegs(6, 7), m);
      if Reg(m, 7) != 0 { One(Mflo(5), Do(DivRegs(6, 7), m).value); }
    } else {
      One(Compute(op)[0], m);
    }
  }

  // The operands are fetched and the value is computed into register 5.
  lemma BodyDoes(ins: Instr, f: Frame, g: Frame, ops: set<Operand>, m: Machine, st: State) returns (n: Option<Machine>)
    requires Straight(ins) && Ready(ins, f) && Ready(ins, g) && Within(Sources(ins), ops) && Values(f.slots, ops, m, st)
    requires forall x :: x in f.slots ==> x in g.slots && g.slots[x] == f.slots[x]
    ensures n == DoAll(Body(ins, g), m)
    ensures match ValueOf(ins, st)
      case None => n == None
      case Some(v) => n.Some? && Working(m, n.value) && Reg(n.value, 5) == v
  {
    hide Values, Name;
    match ins
    case Assign(_, a) =>
      FetchDoes(a, g, f.slots, ops, 6, m, st);
      var k := SetReg(m, 6, Look(st, a));
      DoBoth(Fetch(a, g, 6), [Move(5, 6)], m);
      One(Move(5, 6), k);
      n := Do(Move(5, 6), k);
    case Bin(op, _, a, b) =>
      FetchDoes(a, g, f.slots, ops, 6, m, st);
      var k := SetReg(m, 6, Look(st, a));
      ValuesWorking(f.slots, ops, m, k, st);
      FetchDoes(b, g, f.slots, ops, 7, k, st);
      var l := SetReg(k, 7, Look(st, b));
      DoBoth(Fetch(a, g, 6) + Fetch(b, g, 7), Compute(op), m);
      DoBoth(Fetch(a, g, 6), Fetch(b, g, 7), m);
      n := ComputeDoes(op, l);
  }

  // Storing register 5 in the slot of `d` gives `d` its new value and no other operand.
  lemma StoreDoes(d: Operand, v: int, f: Frame, g: Frame, ops: set<Operand>, m: Machine, st: State) returns (n: Machine)
    requires IsPlace(d) && d in ops && NoClash(ops) && Layout(g) && g == WithSlot(f, Name(d))
    requires Values(f.slots, ops, m, st) && Reg(m, 5) == v
    ensures DoAll([Sw(5, g.slots[Name(d)], FP)], m) == Some(n)
    ensures Values(g.slots, ops, n, Put(st, d, v)) && Reg(n, SP) == Reg(m, SP) && Reg(n, FP) == Reg(m, FP)
  {
    var x := Name(d);
    n := Stored(g.slots[x], m);
    StoreSeen(f, g, x, m, n);
    hide Name, NoClash, Layout, DoAll, Word, Reg, WithSlot, Stored;
    forall a | a in ops && IsPlace(a) && Name(a) in g.slots
      ensures Word(n, Reg(n, FP) + g.slots[Name(a)]) == Look(Put(st, d, v), a)
    {
      if Name(a) == x {
        SameName(ops, a, d);
      } else {
        assert Word(m, Reg(m, FP) + f.slots[Name(a)]) == Look(st, a);
      }
    }
  }

  // The machine after storing register 5.
  function Stored(slot: int, m: Machine): (n: Machine)
    ensures DoAll([Sw(5, slot, FP)], m) == Some(n)
  {
    One(Sw(5, slot, FP), m);
    Do(Sw(5, slot, FP), m).value
  }

  // The slot of `x` holds the register, all other slots what they held.
  lemma StoreSeen(f: Frame, g: Frame, x: string, m: Machine, n: Machine)
    requires Layout(g) && g == WithSlot(f, x) && n == Stored(g.slots[x], m)
    ensures Reg(n, SP) == Reg(m, SP) && Reg(n, FP) == Reg(m, FP)
    ensures Word(n, Reg(n, FP) + g.slots[x]) == Reg(m, 5)
    ensures forall y :: y in g.slots && y != x ==>
      y in f.slots && Word(n, Reg(n, FP) + g.slots[y]) == Word(m, Reg(m, FP) + f.slots[y])
  {
    forall y | y in g.slots && y != x
      ensures g.slots[y] != g.slots[x]
    {
    }
  }

  lemma SameName(ops: set<Operand>, a: Operand, b: Operand)
    requires NoClash(ops) && a in ops && b in ops && IsPlace(a) && IsPlace(b) && Name(a) == Name(b)
    ensures a == b
  {
    hide Name;
  }

  /** One instruction: room for its result, its operands, its value, and the value into the slot. */
  function Emitted(ins: Instr, f: Frame): seq<Mips>
    requires Straight(ins) && Ready(ins, f)
  {
    var g := FrameAfter(ins, f);
    Open(Name(ins.d), f, 5) + Body(ins, g) + [Sw(5, g.slots[Name(ins.d)], FP)]
  }

  // Straight-line code over `ops` that can be translated from the empty frame on.
  ghost predicate Meant(code: Code, ops: set<Operand>) {
    (forall k :: 0 <= k < |code| ==> Straight(code[k]) && Within(Operands(code[k]), ops)) && AllReady(code, EMPTY)
  }

  /** All of the code, one instruction after the other. */
  function EmittedAll(code: Code, f: Frame): seq<Mips>
    requires (forall k :: 0 <= k < |code| ==> Straight(code[k])) && AllReady(code, f)
  {
    if code == [] then [] else Emitted(code[0], f) + EmittedAll(code[1..], FrameAfter(code[0], f))
  }

  lemma EmittedCarries(ins: Instr, ops: set<Operand>, f: Frame)
    requires Straight(ins) && Ready(ins, f) && Within(Operands(ins), ops) && NoClash(ops) && Layout(f)
    ensures Carries([ins], ops, Emitted(ins, f), f, FrameAfter(ins, f))
  {
    var g, ms := FrameAfter(ins, f), Emitted(ins, f);
    LayoutKept(f, Name(ins.d));
    forall m, st | Holding(f, ops, m, st)
      ensures CarriesFrom([ins], ops, ms, g, m, st)
    {
      EmittedCarriesFrom(ins, ops, f, g, m, st);
    }
  }

  lemma EmittedCarriesFrom(ins: Instr, ops: set<Operand>, f: Frame, g: Frame, m: Machine, st: State)
    requires Straight(ins) && Ready(ins, f) && Within(Operands(ins), ops) && NoClash(ops) && Layout(g) && g == FrameAfter(ins, f)
    requires Holding(f, ops, m, st)
    ensures CarriesFrom([ins], ops, Emitted(ins, f), g, m, st)
  {
    var x := Name(ins.d);
    var a, b, c := Open(x, f, 5), Body(ins, g), [Sw(5, g.slots[x], FP)];
    DoBoth(a + b, c, m);
    DoBoth(a, b, m);
    EffectOne(ins, st);
    hide Values, Name, NoClash, Layout, DoAll, Body, Open, Operands, Sources, Effect, EffectAll;
    var k := OpenDoes(x, f, m);
    ValuesWorking(f.slots, ops, m, k, st);
    OperandsCover(ins);
    var n := BodyDoes(ins, f, g, ops, k, st);
    if n.Some? {
      ValuesWorking(f.slots, ops, k, n.value, st);
      var after := StoreDoes(ins.d, ValueOf(ins, st).value, f, g, ops, n.value, st);
    }
  }

  lemma OperandsCover(ins: Instr)
    requires Straight(ins)
    ensures ins.d in Operands(ins) && Sources(ins) <= Operands(ins)
  {
  }

  lemma EffectOne(ins: Instr, st: State)
    requires Straight(ins)
    ensures EffectAll([ins], st) == match ValueOf(ins, st) case None => None case Some(v) => Some(Put(st, ins.d, v))
  {
    assert [ins][1..] == [];
    match Effect(ins, st) case None => case Some(st') => assert EffectAll([], st') == Some(st');
  }

  // ---------- the generator ----------

  lemma Group(a: seq<Mips>, b: seq<Mips>, c: seq<Mips>)
    ensures (a + b) + c == a + (b + c)
  {
  }

  lemma Regroup(a: seq<Mips>, b: seq<Mips>, c: seq<Mips>, d: seq<Mips>, e: seq<Mips>)
    ensures (((a + b) + c) + d) + e == a + ((b + (c + d)) + e)
  {
    Group(a + b, c, d);
    Group(a, b, c + d);
    Group(a, b + (c + d), e);
  }

  class Generator {
    var offset: int
    var regs: map<nat, string>        // which name was loaded into a register
    var dataTable: map<string, int>   // the slot of each name
    var out: seq<Mips>

    function Current(): Frame
      reads this
    {
      Frame(dataTable, offset)
    }

    constructor ()
      ensures offset == 0 && regs == map[] && dataTable == map[] && out == [] && Layout(Current())
    {
      offset, regs, dataTable, out := 0, map[], map[], [];
    }

    // A new name gets the next word of the frame.
    method MemoryToRegs(name: string, i: nat)
      modifies this
      ensures Current() == WithSlot(old(Current()), name)
      ensures out == old(out) + Open(name, old(Current()), i)
      ensures regs == old(regs)[i := name]
    {
      if name !in dataTable {
        offset := offset - 4;
        out := out + [Addi(SP, SP, -4)];
        dataTable := dataTable[name := offset];
      }
      out := out + [Lw(i, dataTable[name], FP)];
      assert out == old(out) + Open(name, old(Current()), i);
      regs := regs[i := name];
    }

    // The register goes to the slot of the name it was loaded for; a name without a slot gets one.
    method RegsToMemory(i: nat)
      modifies this
      ensures i !in old(regs) ==> Current() == old(Current()) && out == old(out)
      ensures i in old(regs) ==> var x, f := old(regs)[i], old(Current());
        && Current() == WithSlot(f, x)
        && out == old(out) + Store(i, x, f)
      ensures regs == old(regs) - {i}
    {
      if i !in regs {
        return;
      }
      if regs[i] !in dataTable {
        offset := offset - 4;
        out := out + [Addi(SP, SP, -4)];
        dataTable := dataTable[regs[i] := offset];
      }
      out := out + [Sw(i, dataTable[regs[i]], FP)];
      assert out == old(out) + Store(i, regs[i], old(Current()));
      regs := regs - {i};
    }

    // An operand into register `i`.
    method Load(a: Operand, i: nat)
      requires a != Missing && (IsPlace(a) ==> Name(a) in dataTable)
      modifies this
      ensures Current() == old(Current()) && out == old(out) + Fetch(a, Current(), i)
      ensures forall r :: r != i && r in old(regs) ==> r in regs && regs[r] == old(regs)[r]
    {
      if !a.Constant? {
        MemoryToRegs(Name(a), i);
      } else {
        out := out + [Li(i, a.val)];
      }
    }

    method MakeAssign(left: Operand, right: Operand)
      requires Straight(Assign(left, right)) && Ready(Assign(left, right), Current())
      modifies this
      ensures Current() == FrameAfter(Assign(left, right), old(Current()))
      ensures out == old(out) + Emitted(Assign(left, right), old(Current()))
    {
      MemoryToRegs(Name(left), 5);
      hide Name, Open, WithSlot, Store;
      Load(right, 6);
      out := out + [Move(5, 6)];
      KnownSlot(5, Name(left), Current());
      RegsToMemory(5);
      Regroup(old(out), Open(Name(left), old(Current()), 5), Fetch(right, Current(), 6), [Move(5, 6)],
              [Sw(5, dataTable[Name(left)], FP)]);
    }

    // Addition, subtraction, multiplication and division differ in one place only.
    method MakeArith(op: Arith, res: Operand, op1: Operand, op2: Operand)
      requires Straight(Bin(op, res, op1, op2)) && Ready(Bin(op, res, op1, op2), Current())
      modifies this
      ensures Current() == FrameAfter(Bin(op, res, op1, op2), old(Current()))
      ensures out == old(out) + Emitted(Bin(op, res, op1, op2), old(Current()))
    {
      MemoryToRegs(Name(res), 5);
      hide Name, Open, WithSlot, Fetch, Store, Compute;
      Load(op1, 6);
      Load(op2, 7);
      ghost var fetched := Fetch(op1, Current(), 6) + Fetch(op2, Current(), 7);
      Group(old(out) + Open(Name(res), old(Current()), 5), Fetch(op1, Current(), 6), Fetch(op2, Current(), 7));
      Operate(op);
      KnownSlot(5, Name(res), Current());
      RegsToMemory(5);
      Regroup(old(out), Open(Name(res), old(Current()), 5), fetched, Compute(op), [Sw(5, dataTable[Name(res)], FP)]);
    }

    method Operate(op: Arith)
      modifies this`out
      ensures out == old(out) + Compute(op)
    {
      match op {
        case Add => out := out + [AddRegs(5, 6, 7)];
        case Sub => out := out + [SubRegs(5, 6, 7)];
        case Mul => out := out + [MulRegs(5, 6, 7)];
        case Div =>
          out := out + [DivRegs(6, 7)];
          out := out + [Mflo(5)];
      }
    }

    /** The machine code of straight-line code, one instruction after the other. */
    method MakeObjectCodes(code: Code)
      requires (forall k :: 0 <= k < |code| ==> Straight(code[k])) && AllReady(code, Current())
      modifies this
      ensures Current() == FrameAll(code, old(Current()))
      ensures out == old(out) + EmittedAll(code, old(Current()))
    {
      hide Emitted, Ready, Straight, FrameAfter;
      var p := 0;
      ghost var f0, was, added: seq<Mips> := Current(), out, [];
      assert code[0..] == code;
      while p < |code|
        invariant p <= |code| && out == was + added && AllReady(code[p..], Current())
        invariant FrameAll(code[p..], Current()) == FrameAll(code, f0)
        invariant added + EmittedAll(code[p..], Current()) == EmittedAll(code, f0)
      {
        ghost var f := Current();
        assert code[p..][0] == code[p] && code[p..][1..] == code[p + 1..];
        MakeObjectCode(code[p]);
        Group(was, added, Emitted(code[p], f));
        Group(added, Emitted(code[p], f), EmittedAll(code[p + 1..], Current()));
        added := added + Emitted(code[p], f);
        p := p + 1;
      }
    }

    method MakeObjectCode(ins: Instr)
      requires Straight(ins) && Ready(ins, Current())
      modifies this
      ensures Current() == FrameAfter(ins, old(Current())) && out == old(out) + Emitted(ins, old(Current()))
    {
      hide Emitted, Ready;
      match ins
      case Assign(d, a) => MakeAssign(d, a);
      case Bin(op, d, a, b) => MakeArith(op, d, a, b);
    }
  }

  /** Over distinct names it carries the code: run from a frame that holds the values before, it ends in
      one that holds the values after, and the stack pointer follows the offset. */
  lemma {:induction false} AllCarried(code: Code, ops: set<Operand>, f: Frame)
    requires forall k :: 0 <= k < |code| ==> Straight(code[k]) && Within(Operands(code[k]), ops)
    requires AllReady(code, f) && NoClash(ops) && Layout(f)
    ensures Layout(FrameAll(code, f)) && Carries(code, ops, EmittedAll(code, f), f, FrameAll(code, f))
    decreases |code|
  {
    if code == [] {
      NothingCarries(ops, f);
    } else {
      var ins, rest, g := code[0], code[1..], FrameAfter(code[0], f);
      hide NoClash, Layout, Emitted, Carries, Operands, Ready, Straight, Within, FrameAfter;
      EmittedCarries(ins, ops, f);
      LayoutAfter(ins, f);
      AllCarried(rest, ops, g);
      CarriesBoth([ins], rest, ops, Emitted(ins, f), EmittedAll(rest, g), f, g, FrameAll(rest, g));
      assert [ins] + rest == code;
    }
  }

  lemma LayoutAfter(ins: Instr, f: Frame)
    requires Straight(ins) && Layout(f)
    ensures Layout(FrameAfter(ins, f))
  {
    LayoutKept(f, Name(ins.d));
  }

  lemma NothingCarries(ops: set<Operand>, f: Frame)
    ensures Carries([], ops, [], f, f)
  {
    hide Holding;
    forall m, st | Holding(f, ops, m, st)
      ensures CarriesFrom([], ops, [], f, m, st)
    {
    }
  }

  // ---------- names that clash ----------

  // Storing into the slot of `a` stores into that of `b` too.
  lemma ClashBreaks(ops: set<Operand>, a: Operand, b: Operand)
    requires a in ops && b in ops && IsPlace(a) && IsPlace(b) && Name(a) == Name(b) && a != b
    ensures var code := [Assign(a, Constant(5))];
      Straight(code[0]) && Within(Operands(code[0]), ops) && AllReady(code, EMPTY)
      && !Carries(code, ops, EmittedAll(code, EMPTY), EMPTY, FrameAll(code, EMPTY))
  {
    var ins := Assign(a, Constant(5));
    var code, g := [ins], FrameAfter(ins, EMPTY);
    assert code[1..] == [] && EmittedAll([], g) == [] && EmittedAll(code, EMPTY) == Emitted(ins, EMPTY) + [];
    var ms := Emitted(ins, EMPTY);
    assert EmittedAll(code, EMPTY) == ms && FrameAll(code, EMPTY) == g;
    var m, st := Machine(map[], map[], 0), State(map[], [], []);
    // over the name of `a` alone the code is right
    assert {a} <= ops && NoClash({a});
    EmittedCarries(ins, {a}, EMPTY);
    EffectOne(ins, st);
    hide Emitted, EffectAll, DoAll, Name;
    assert Holding(EMPTY, {a}, m, st) && Holding(EMPTY, ops, m, st);
    assert CarriesFrom(code, {a}, ms, g, m, st);
    assert !CarriesFrom(code, ops, ms, g, m, st);
  }

  /** Exact: all straight-line code over `ops` that reads nothing uninitialised is carried by its machine
      code, from the empty frame, if and only if no two operands of `ops` have the same printed name. */
  lemma NamesDecide(ops: set<Operand>)
    ensures NoClash(ops) <==> forall code: Code :: Meant(code, ops) ==>
      Carries(code, ops, EmittedAll(code, EMPTY), EMPTY, FrameAll(code, EMPTY))
  {
    if NoClash(ops) {
      forall code: Code | Meant(code, ops)
        ensures Carries(code, ops, EmittedAll(code, EMPTY), EMPTY, FrameAll(code, EMPTY))
      {
        AllCarried(code, ops, EMPTY);
      }
    } else {
      var a, b :| a in ops && b in ops && IsPlace(a) && IsPlace(b) && Name(a) == Name(b) && a != b;
      ClashBreaks(ops, a, b);
      assert Meant([Assign(a, Constant(5))], ops);
    }
  }

  // With one operand for both the same machine code is right.
  lemma OneNameCarries(one: Code, f0: Frame, f1: Frame, f2: Frame)
    requires var v, x := Variable("t1"), Variable("x"); one == [Assign(v, Constant(5)), Assign(v, Constant(7)), Assign(x, v)]
    requires f0 == Frame(map[], 0) && f1 == WithSlot(f0, "t1") && f2 == WithSlot(f1, "x")
    ensures Carries(one, {Variable("t1"), Variable("x")}, Emitted(one[0], f0) + Emitted(one[1], f1) + Emitted(one[2], f1), f0, f2)
  {
    var ops := {Variable("t1"), Variable("x")};
    LayoutKept(f0, "t1");
    EmittedCarries(one[0], ops, f0);
    EmittedCarries(one[1], ops, f1);
    EmittedCarries(one[2], ops, f1);
    hide Carries, Emitted;
    CarriesBoth([one[0]], [one[1]], ops, Emitted(one[0], f0), Emitted(one[1], f1), f0, f1, f1);
    CarriesBoth([one[0]] + [one[1]], [one[2]], ops, Emitted(one[0], f0) + Emitted(one[1], f1), Emitted(one[2], f1), f0, f1, f2);
    assert [one[0]] + [one[1]] + [one[2]] == one;
  }

  lemma SameEmitted(one: Code)
    requires var v, x := Variable("t1"), Variable("x"); one == [Assign(v, Constant(5)), Assign(v, Constant(7)), Assign(x, v)]
    ensures Name(Temp(1)) == "t1"
    ensures var f0 := Frame(map[], 0); var f1 := WithSlot(f0, "t1");
      && Emitted(Assign(Temp(1), Constant(5)), f0) == Emitted(one[0], f0)
      && Emitted(Assign(Variable("x"), Temp(1)), f1) == Emitted(one[2], f1)
  {
    assert Decimal(1) == "1";
    assert "t" + "1" == "t1";
  }

  lemma Three(a: Instr, b: Instr, c: Instr, st: State)
    requires a.Assign? && b.Assign? && c.Assign? && Straight(a) && Straight(b) && Straight(c)
    ensures var s1 := Put(st, a.d, Look(st, a.a));
      var s2 := Put(s1, b.d, Look(s1, b.a));
      EffectAll([a, b, c], st) == Some(Put(s2, c.d, Look(s2, c.a)))
  {
    var s1 := Put(st, a.d, Look(st, a.a));
    EffectBoth([a], [b, c], st);
    assert [a] + [b, c] == [a, b, c] && [b] + [c] == [b, c];
    EffectOne(a, st);
    EffectBoth([b], [c], s1);
    EffectOne(b, s1);
    EffectOne(c, Put(s1, b.d, Look(s1, b.a)));
  }

  /** A program variable called `t1` shares its slot with the first temporary: after
      `t1 := #5; <variable t1> := #7; x := t1` the slot of `x` holds 7 instead of 5. */
  lemma SharedSlot(m: Machine, st: State)
    requires Reg(m, SP) == Reg(m, FP)
    ensures var t, v, x := Temp(1), Variable("t1"), Variable("x");
      var code := [Assign(t, Constant(5)), Assign(v, Constant(7)), Assign(x, t)];
      var f1 := WithSlot(Frame(map[], 0), Name(t));
      var ms := Emitted(code[0], Frame(map[], 0)) + Emitted(code[1], f1) + Emitted(code[2], f1);
      && Name(t) == Name(v) && !Carries(code, {t, v, x}, ms, Frame(map[], 0), WithSlot(f1, "x"))
  {
    var t, v, x := Temp(1), Variable("t1"), Variable("x");
    var f0 := Frame(map[], 0);
    var f1 := WithSlot(f0, "t1");
    var f2 := WithSlot(f1, "x");
    assert Decimal(1) == "1" && Name(t) == "t1";
    var code := [Assign(t, Constant(5)), Assign(v, Constant(7)), Assign(x, t)];
    var one := [Assign(v, Constant(5)), Assign(v, Constant(7)), Assign(x, v)];
    var ms := Emitted(code[0], f0) + Emitted(code[1], f1) + Emitted(code[2], f1);
    SameEmitted(one);
    OneNameCarries(one, f0, f1, f2);
    Three(code[0], code[1], code[2], st);
    Three(one[0], one[1], one[2], st);
    hide Emitted, WithSlot, EffectAll, DoAll;
    assert Holding(f0, {v, x}, m, st) && Holding(f0, {t, v, x}, m, st);
    assert CarriesFrom(one, {v, x}, ms, f2, m, st);
    assert !CarriesFrom(code, {t, v, x}, ms, f2, m, st);
  }
}
