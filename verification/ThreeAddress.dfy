/** Three-address code: what a run of it does, and when two programs cannot be told apart. */
module ThreeAddress {

  datatype Option<T> = None | Some(value: T)

  // `Missing` is the absent place of an expression used as a statement.
  datatype Operand = Variable(name: string) | Temp(no: nat) | Constant(val: int) | Missing

  datatype Relop = Eq | Ne | Lt | Le | Gt | Ge

  datatype Arith = Add | Sub | Mul | Div

  datatype Instr =
    | Label(l: nat)
    | Goto(l: nat)
    | IfGoto(rel: Relop, a: Operand, b: Operand, l: nat)
    | Assign(d: Operand, a: Operand)
    | Bin(op: Arith, d: Operand, a: Operand, b: Operand)
    | Return(a: Operand)
    | Read(d: Operand)
    | Write(a: Operand)

  type Code = seq<Instr>

  // An operation or a reading whose result has no place; an assignment to nothing is dropped in the end.
  predicate Unseated(ins: Instr) {
    (ins.Bin? || ins.Read?) && ins.d == Missing
  }

  ghost predicate Hollow(c: Code) {
    exists k :: 0 <= k < |c| && Unseated(c[k])
  }

  lemma HollowCat(a: Code, b: Code)
    ensures Hollow(a + b) <==> Hollow(a) || Hollow(b)
  {
    var c := a + b;
    if Hollow(a) {
      var k :| 0 <= k < |a| && Unseated(a[k]);
      assert c[k] == a[k];
    }
    if Hollow(b) {
      var k :| 0 <= k < |b| && Unseated(b[k]);
      assert c[|a| + k] == b[k];
    }
  }

  lemma HollowOne(ins: Instr)
    ensures Hollow([ins]) <==> Unseated(ins)
  {
    assert [ins][0] == ins;
  }

  /** Values of variables and temporaries, what is left to read, what was written. */
  datatype State = State(env: map<Operand, int>, input: seq<int>, output: seq<int>)

  function Look(st: State, a: Operand): int {
    if a.Constant? then a.val else if a in st.env then st.env[a] else 0
  }

  function Put(st: State, d: Operand, v: int): State {
    if d.Variable? || d.Temp? then st.(env := st.env[d := v]) else st
  }

  predicate Holds(rel: Relop, x: int, y: int) {
    match rel
    case Eq => x == y
    case Ne => x != y
    case Lt => x < y
    case Le => x <= y
    case Gt => x > y
    case Ge => x >= y
  }

  // Division truncates towards zero; there is no result for a zero divisor.
  function Calc(op: Arith, x: int, y: int): Option<int> {
    match op
    case Add => Some(x + y)
    case Sub => Some(x - y)
    case Mul => Some(x * y)
    case Div => if y == 0 then None else Some(Quotient(x, y))
  }

  function Quotient(x: int, y: int): int
    requires y != 0
  {
    if x >= 0 then x / y else -((-x) / y)
  }

  /** The quotient leaves a rest smaller than the divisor and of the sign of the dividend. */
  lemma QuotientTruncates(x: int, y: int)
    requires y != 0
    ensures var r := x - y * Quotient(x, y);
      && (if y > 0 then -y < r < y else y < r < -y)
      && (x >= 0 ==> r >= 0) && (x <= 0 ==> r <= 0)
  {
    if x < 0 {
      var q := (-x) / y;
      assert -x == y * q + (-x) % y;
      assert y * -q == -(y * q);
    } else {
      assert x == y * (x / y) + x % y;
    }
  }

  /** Addition and multiplication count up by ones and by the other factor; subtraction and division
      without a rest undo them. */
  lemma CalcLaws(x: int, y: int, m: int)
    ensures Calc(Add, x, 0) == Some(x) && Calc(Mul, x, 0) == Some(0)
    ensures Calc(Add, x, y) == Some(m) ==> Calc(Add, x, y + 1) == Some(m + 1) && Calc(Sub, m, y) == Some(x)
    ensures Calc(Mul, x, y) == Some(m) ==> Calc(Mul, x, y + 1) == Some(m + x)
    ensures Calc(Mul, x, y) == Some(m) && y != 0 ==> Calc(Div, m, y) == Some(x)
    ensures Calc(Div, x, y) == None <==> y == 0
  {
    if y != 0 { ExactQuotient(x, y); }
    assert x * (y + 1) == x * y + x;
  }

  lemma ExactQuotient(x: int, y: int)
    requires y != 0
    ensures Quotient(x * y, y) == x
  {
    var q := Quotient(x * y, y);
    QuotientTruncates(x * y, y);
    hide Quotient;
    Distributes(x, q, y);
    if x != q {
      BigMultiple(x - q, y);
      assert false;
    }
  }

  lemma Distributes(x: int, q: int, y: int)
    ensures x * y - y * q == (x - q) * y
  {
  }

  lemma BigMultiple(k: int, y: int)
    requires k != 0 && y != 0
    ensures if (k > 0) == (y > 0) then k * y >= y && k * y >= -y else k * y <= y && k * y <= -y
  {
    if k > 0 {
      PositiveMultiple(k, y);
    } else {
      PositiveMultiple(-k, y);
      assert -k * y == -(k * y);
    }
  }

  lemma {:induction false} PositiveMultiple(k: nat, y: int)
    requires k > 0
    ensures if y > 0 then k * y >= y else k * y <= y
  {
    if k > 1 {
      PositiveMultiple(k - 1, y);
      assert k * y == (k - 1) * y + y;
    }
  }

  /** The six relations by the sign of the difference. */
  lemma HoldsBySign(x: int, y: int)
    ensures x == y ==> Holds(Eq, x, y) && Holds(Le, x, y) && Holds(Ge, x, y)
    ensures x == y ==> !Holds(Ne, x, y) && !Holds(Lt, x, y) && !Holds(Gt, x, y)
    ensures y - x > 0 ==> Holds(Ne, x, y) && Holds(Lt, x, y) && Holds(Le, x, y)
    ensures y - x > 0 ==> !Holds(Eq, x, y) && !Holds(Gt, x, y) && !Holds(Ge, x, y)
    ensures y - x < 0 ==> Holds(Ne, x, y) && Holds(Gt, x, y) && Holds(Ge, x, y)
    ensures y - x < 0 ==> !Holds(Eq, x, y) && !Holds(Lt, x, y) && !Holds(Le, x, y)
  {
  }

  // The instructions that only change the state; None: the run cannot go on.
  function Effect(ins: Instr, st: State): Option<State> {
    match ins
    case Assign(d, a) => Some(Put(st, d, Look(st, a)))
    case Bin(op, d, a, b) =>
      (match Calc(op, Look(st, a), Look(st, b))
       case None => None
       case Some(v) => Some(Put(st, d, v)))
    case Read(d) => if st.input == [] then None else Some(Put(st, d, st.input[0]).(input := st.input[1..]))
    case Write(a) => Some(st.(output := st.output + [Look(st, a)]))
    case _ => Some(st)
  }

  datatype Config = At(pc: nat, st: State) | Finished(result: Option<int>, st: State) | Stuck(st: State)

  // The first place where label `l` stands; |p| if there is none.
  function Find(p: Code, l: nat): (k: nat)
    ensures k <= |p|
    ensures k < |p| ==> p[k] == Label(l)
    ensures forall i :: 0 <= i < k ==> p[i] != Label(l)
  {
    if p == [] then 0 else if p[0] == Label(l) then 0 else 1 + Find(p[1..], l)
  }

  function Jump(p: Code, l: nat, st: State): Config {
    if Find(p, l) < |p| then At(Find(p, l), st) else Stuck(st)
  }

  function Step(p: Code, c: Config): Config {
    match c
    case At(pc, st) =>
      if pc >= |p| then Finished(None, st)
      else
        (match p[pc]
         case Label(_) => At(pc + 1, st)
         case Goto(l) => Jump(p, l, st)
         case IfGoto(rel, a, b, l) => if Holds(rel, Look(st, a), Look(st, b)) then Jump(p, l, st) else At(pc + 1, st)
         case Return(a) => Finished(Some(Look(st, a)), st)
         case _ =>
           (match Effect(p[pc], st)
            case None => Stuck(st)
            case Some(st') => At(pc + 1, st')))
    case _ => c
  }

  function Run(p: Code, c: Config, n: nat): Config
    decreases n
  {
    if n == 0 then c else Run(p, Step(p, c), n - 1)
  }

  lemma {:induction false} RunPlus(p: Code, c: Config, m: nat, n: nat)
    ensures Run(p, c, m + n) == Run(p, Run(p, c, m), n)
    decreases m
  {
    if m > 0 { RunPlus(p, Step(p, c), m - 1, n); }
  }

  lemma {:induction false} RunEnded(p: Code, c: Config, n: nat)
    requires !c.At?
    ensures Run(p, c, n) == c
    decreases n
  {
    if n > 0 { RunEnded(p, c, n - 1); }
  }

  // ---------- what can be seen of a run ----------

  // Everything but the program counter.
  function Seen(c: Config): Config {
    match c
    case At(_, st) => At(0, st)
    case _ => c
  }

  ghost predicate Shows(p: Code, st: State, o: Config) {
    exists n: nat :: Seen(Run(p, At(0, st), n)) == o
  }

  /** From every state both programs pass through the same states and end alike, or run on alike. */
  ghost predicate Same(p: Code, q: Code) {
    forall st, o :: Shows(p, st, o) <==> Shows(q, st, o)
  }

  // Every label stands once and every jump has a target.
  ghost predicate Linked(p: Code) {
    && Unique(p)
    && forall i :: 0 <= i < |p| && IsJump(p[i]) ==> Find(p, p[i].l) < |p|
  }

  ghost predicate Unique(p: Code) {
    forall i, j :: 0 <= i < j < |p| && p[i].Label? && p[j].Label? ==> p[i].l != p[j].l
  }

  predicate IsJump(ins: Instr) {
    ins.Goto? || ins.IfGoto?
  }

  lemma UniqueFind(p: Code, k: nat)
    requires Unique(p) && k < |p| && p[k].Label?
    ensures Find(p, p[k].l) == k
  {
  }

  // ---------- simulation ----------

  // One step of `p` from `c` is some steps of `q` from `c'`, and the two stay related.
  ghost predicate Follows(p: Code, q: Code, r: (Config, Config) -> bool, c: Config, c': Config) {
    exists n: nat :: r(Step(p, c), Run(q, c', n))
  }

  ghost predicate Simulates(p: Code, q: Code, r: (Config, Config) -> bool) {
    forall c, c' :: r(c, c') ==> Seen(c) == Seen(c') && Follows(p, q, r, c, c')
  }

  lemma {:induction false} Simulated(p: Code, q: Code, r: (Config, Config) -> bool, c: Config, c': Config, n: nat) returns (m: nat)
    requires Simulates(p, q, r) && r(c, c')
    ensures r(Run(p, c, n), Run(q, c', m))
    decreases n
  {
    if n == 0 { return 0; }
    assert Follows(p, q, r, c, c');
    var k: nat :| r(Step(p, c), Run(q, c', k));
    var rest := Simulated(p, q, r, Step(p, c), Run(q, c', k), n - 1);
    RunPlus(q, c', k, rest);
    return k + rest;
  }

  /** Two programs that simulate each other from the start show the same. */
  lemma Bisimilar(p: Code, q: Code, r: (Config, Config) -> bool, s: (Config, Config) -> bool)
    requires Simulates(p, q, r) && Simulates(q, p, s)
    requires forall st :: r(At(0, st), At(0, st)) && s(At(0, st), At(0, st))
    ensures Same(p, q)
  {
    forall st, o
      ensures Shows(p, st, o) <==> Shows(q, st, o)
    {
      if Shows(p, st, o) {
        var n: nat :| Seen(Run(p, At(0, st), n)) == o;
        var m := Simulated(p, q, r, At(0, st), At(0, st), n);
        assert Seen(Run(q, At(0, st), m)) == o;
      }
      if Shows(q, st, o) {
        var n: nat :| Seen(Run(q, At(0, st), n)) == o;
        var m := Simulated(q, p, s, At(0, st), At(0, st), n);
        assert Seen(Run(p, At(0, st), m)) == o;
      }
    }
  }

  lemma SameSelf(p: Code)
    ensures Same(p, p)
  {
  }

  lemma SameTrans(p: Code, q: Code, r: Code)
    requires Same(p, q) && Same(q, r)
    ensures Same(p, r)
  {
    forall st, o
      ensures Shows(p, st, o) <==> Shows(r, st, o)
    {
      assert Shows(p, st, o) <==> Shows(q, st, o);
    }
  }
}
