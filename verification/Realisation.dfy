/** When a piece of three-address code does what an expression, a condition or a statement means,
    wherever it stands in a program; and how pieces are put together. */
module Realisation {
  import opened ThreeAddress
  import opened SourceLanguage

  // Same input, same output, same program variables; temporaries are free.
  ghost predicate Agree(s: State, t: State) {
    && s.input == t.input && s.output == t.output
    && forall x :: Look(s, Variable(x)) == Look(t, Variable(x))
  }

  // Temporaries up to `lo`, `d` apart, are as they were.
  ghost predicate Keeps(s: State, t: State, lo: nat, d: Operand) {
    forall k: nat :: k <= lo && Temp(k) != d ==> Look(s, Temp(k)) == Look(t, Temp(k))
  }

  ghost predicate Placed(p: Code, i: nat, c: Code) {
    i + |c| <= |p| && p[i..i + |c|] == c
  }

  // A place an expression may be translated to.
  predicate Usable(d: Operand, lo: nat) {
    d == Missing || (d.Temp? && d.no <= lo)
  }

  // A run from `t` has come to `c` with the value `r` in `d`.
  ghost predicate Arrived(r: Res, d: Operand, lo: nat, t: State, c: Config, end: nat) {
    match r
    case Val(v, s) =>
      c.At? && c.pc == end && Agree(s, c.st) && Keeps(t, c.st, lo, d) && (d != Missing ==> Look(c.st, d) == v)
    case Crash(s) => c.Stuck? && s.output == c.st.output
  }

  ghost predicate ExpOk(e: Exp, d: Operand, lo: nat, p: Code, i: nat, end: nat, s: State, t: State) {
    exists n: nat :: Arrived(Eval(e, s), d, lo, t, Run(p, At(i, t), n), end)
  }

  /** `c` computes `e` into `d` and keeps all other temporaries up to `lo`. */
  ghost predicate ExpRuns(e: Exp, d: Operand, lo: nat, c: Code) {
    forall p, i: nat, s, t :: Unique(p) && Placed(p, i, c) && Agree(s, t) ==> ExpOk(e, d, lo, p, i, i + |c|, s, t)
  }

  ghost predicate Branched(r: Res, yes: nat, no: nat, lo: nat, p: Code, t: State, c: Config) {
    match r
    case Val(v, s) => c == Jump(p, if v != 0 then yes else no, c.st) && Agree(s, c.st) && Keeps(t, c.st, lo, Missing)
    case Crash(s) => c.Stuck? && s.output == c.st.output
  }

  ghost predicate CondOk(e: Exp, yes: nat, no: nat, lo: nat, p: Code, i: nat, s: State, t: State) {
    exists n: nat :: Branched(Eval(e, s), yes, no, lo, p, t, Run(p, At(i, t), n))
  }

  /** `c` jumps to `yes` or to `no`, as `e` is true or false, and keeps all temporaries up to `lo`. */
  ghost predicate CondRuns(e: Exp, yes: nat, no: nat, lo: nat, c: Code) {
    forall p, i: nat, s, t :: Unique(p) && Placed(p, i, c) && Agree(s, t) ==> CondOk(e, yes, no, lo, p, i, s, t)
  }

  ghost predicate Matches(o: Outcome, c: Config, end: nat) {
    match o
    case Normal(s) => c.At? && c.pc == end && Agree(s, c.st)
    case Returned(v, s) => c.Finished? && c.result == Some(v) && Agree(s, c.st)
    case Crashed(s) => c.Stuck? && s.output == c.st.output
    case Timeout(s) => c.At? && s.output == c.st.output
  }

  // From `c` the run comes to the outcome `o`, or keeps running for `fuel` steps.
  ghost predicate Reaches(o: Outcome, fuel: nat, p: Code, c: Config, end: nat) {
    exists n: nat :: Matches(o, Run(p, c, n), end) && (o.Timeout? ==> n >= fuel)
  }

  /** `c` does what `s` does: it comes to its own end, returns, or crashes as `s` does, and it runs
      for at least as many steps as `s` runs rounds. */
  ghost predicate StmtRuns(s: Stmt, c: Code) {
    forall p, i: nat, st, t, fuel: nat ::
      Unique(p) && Placed(p, i, c) && Agree(st, t) ==> Reaches(Exec(s, st, fuel), fuel, p, At(i, t), i + |c|)
  }

  ghost predicate AllRun(body: seq<Stmt>, c: Code) {
    forall p, i: nat, st, t, fuel: nat ::
      Unique(p) && Placed(p, i, c) && Agree(st, t) ==> Reaches(ExecAll(body, st, fuel), fuel, p, At(i, t), i + |c|)
  }

  // ---------- pieces of code ----------

  lemma Parts(p: Code, i: nat, a: Code, b: Code)
    requires Placed(p, i, a + b)
    ensures Placed(p, i, a) && Placed(p, i + |a|, b)
  {
    assert p[i..i + |a|] == (a + b)[..|a|];
    assert p[i + |a|..i + |a| + |b|] == (a + b)[|a|..];
  }

  lemma Inside(p: Code, i: nat, c: Code, k: nat)
    requires Placed(p, i, c) && k < |c|
    ensures i + k < |p| && p[i + k] == c[k]
  {
    assert p[i..i + |c|][k] == p[i + k];
  }

  lemma OneMore(p: Code, c: Config, n: nat)
    ensures Run(p, c, n + 1) == Step(p, Run(p, c, n))
  {
    RunPlus(p, c, n, 1);
    assert Run(p, Run(p, c, n), 1) == Step(p, Run(p, c, n));
  }

  // ---------- states ----------

  // Storing into a place disturbs neither the program variables nor the temporaries below.
  lemma PutKeeps(s: State, t: State, u: State, d: Operand, lo: nat, v: int)
    requires Agree(s, u) && Keeps(t, u, lo, Missing) && Usable(d, lo)
    ensures Agree(s, Put(u, d, v)) && Keeps(t, Put(u, d, v), lo, d) && (d != Missing ==> Look(Put(u, d, v), d) == v)
  {
  }

  lemma KeepsSelf(t: State, lo: nat)
    ensures Keeps(t, t, lo, Missing)
  {
  }

  // Of the temporaries kept, those below the place of the result.
  lemma KeepsLess(t: State, u: State, m: nat, d: Operand, lo: nat)
    requires Keeps(t, u, m, d) && lo <= m && (d == Missing || (d.Temp? && d.no > lo))
    ensures Keeps(t, u, lo, Missing)
  {
  }

  // ---------- simple expressions ----------

  lemma CopyRuns(e: Exp, a: Operand, d: Operand, lo: nat)
    requires (e.Num? && a == Constant(e.val)) || (e.Id? && a == Variable(e.name))
    requires Usable(d, lo)
    ensures ExpRuns(e, d, lo, [Assign(d, a)])
  {
    var c := [Assign(d, a)];
    forall p, i: nat, s, t | Unique(p) && Placed(p, i, c) && Agree(s, t)
      ensures ExpOk(e, d, lo, p, i, i + |c|, s, t)
    {
      Inside(p, i, c, 0);
      KeepsSelf(t, lo);
      PutKeeps(s, t, t, d, lo, Look(t, a));
      assert Run(p, At(i, t), 1) == At(i + 1, Put(t, d, Look(t, a)));
      assert Arrived(Eval(e, s), d, lo, t, Run(p, At(i, t), 1), i + |c|);
    }
  }

  lemma InputRuns(d: Operand, lo: nat)
    requires Usable(d, lo)
    ensures ExpRuns(Input, d, lo, [Read(d)])
  {
    var c := [Read(d)];
    forall p, i: nat, s, t | Unique(p) && Placed(p, i, c) && Agree(s, t)
      ensures ExpOk(Input, d, lo, p, i, i + |c|, s, t)
    {
      Inside(p, i, c, 0);
      KeepsSelf(t, lo);
      if t.input != [] { PutKeeps(s, t, t, d, lo, t.input[0]); }
      assert Run(p, At(i, t), 1) == Step(p, At(i, t));
      assert Arrived(Eval(Input, s), d, lo, t, Run(p, At(i, t), 1), i + |c|);
    }
  }

  lemma ParenRuns(e: Exp, d: Operand, lo: nat, c: Code)
    requires ExpRuns(e, d, lo, c)
    ensures ExpRuns(Paren(e), d, lo, c)
  {
    hide Run, Agree, Unique, Placed, Arrived;
    forall p, i: nat, s, t | Unique(p) && Placed(p, i, c) && Agree(s, t)
      ensures ExpOk(Paren(e), d, lo, p, i, i + |c|, s, t)
    {
      assert ExpOk(e, d, lo, p, i, i + |c|, s, t);
      assert Eval(Paren(e), s) == Eval(e, s);
    }
  }

  lemma SetStep(x: string, r: Res, d: Operand, lo: nat, p: Code, t: State, c: Config, k: nat)
    requires Usable(d, lo) && Arrived(r, Temp(lo + 1), lo + 1, t, c, k)
    requires k + 1 < |p| && p[k] == Assign(Variable(x), Temp(lo + 1)) && p[k + 1] == Assign(d, Variable(x))
    ensures Arrived(Stored(x, r), d, lo, t, Step(p, Step(p, c)), k + 2)
  {
    if r.Val? {
      var u := Put(c.st, Variable(x), r.v);
      var s := Put(r.st, Variable(x), r.v);
      KeepsLess(t, c.st, lo + 1, Temp(lo + 1), lo);
      assert Agree(s, u) && Keeps(t, u, lo, Missing);
      PutKeeps(s, t, u, d, lo, r.v);
      assert Step(p, c) == At(k + 1, u);
      assert Step(p, At(k + 1, u)) == At(k + 2, Put(u, d, r.v));
    }
  }

  function Stored(x: string, r: Res): Res {
    match r
    case Val(v, s) => Val(v, Put(s, Variable(x), v))
    case Crash(s) => Crash(s)
  }

  lemma SetRuns(x: string, e: Exp, d: Operand, lo: nat, c: Code)
    requires Usable(d, lo) && ExpRuns(e, Temp(lo + 1), lo + 1, c)
    ensures ExpRuns(Set(x, e), d, lo, c + [Assign(Variable(x), Temp(lo + 1)), Assign(d, Variable(x))])
  {
    hide Run, Agree, Unique, Placed, Arrived, Step;
    var tail := [Assign(Variable(x), Temp(lo + 1)), Assign(d, Variable(x))];
    forall p, i: nat, s, t | Unique(p) && Placed(p, i, c + tail) && Agree(s, t)
      ensures ExpOk(Set(x, e), d, lo, p, i, i + |c + tail|, s, t)
    {
      Parts(p, i, c, tail);
      Inside(p, i + |c|, tail, 0);
      Inside(p, i + |c|, tail, 1);
      assert ExpOk(e, Temp(lo + 1), lo + 1, p, i, i + |c|, s, t);
      var n: nat :| Arrived(Eval(e, s), Temp(lo + 1), lo + 1, t, Run(p, At(i, t), n), i + |c|);
      SetStep(x, Eval(e, s), d, lo, p, t, Run(p, At(i, t), n), i + |c|);
      assert Eval(Set(x, e), s) == Stored(x, Eval(e, s));
      OneMore(p, At(i, t), n);
      OneMore(p, At(i, t), n + 1);
    }
  }

  function Negated(r: Res): Res {
    match r
    case Val(v, s) => Val(0 - v, s)
    case Crash(s) => Crash(s)
  }

  lemma MinusStep(r: Res, d: Operand, lo: nat, p: Code, t: State, c: Config, k: nat)
    requires Usable(d, lo) && Arrived(r, Temp(lo + 1), lo + 1, t, c, k)
    requires k < |p| && p[k] == Bin(Sub, d, Constant(0), Temp(lo + 1))
    ensures Arrived(Negated(r), d, lo, t, Step(p, c), k + 1)
  {
    if r.Val? {
      KeepsLess(t, c.st, lo + 1, Temp(lo + 1), lo);
      PutKeeps(r.st, t, c.st, d, lo, 0 - r.v);
      assert Step(p, c) == At(k + 1, Put(c.st, d, 0 - r.v));
    }
  }

  lemma MinusRuns(e: Exp, d: Operand, lo: nat, c: Code)
    requires Usable(d, lo) && ExpRuns(e, Temp(lo + 1), lo + 1, c)
    ensures ExpRuns(Minus(e), d, lo, c + [Bin(Sub, d, Constant(0), Temp(lo + 1))])
  {
    hide Run, Agree, Unique, Placed, Arrived, Step;
    var tail := [Bin(Sub, d, Constant(0), Temp(lo + 1))];
    forall p, i: nat, s, t | Unique(p) && Placed(p, i, c + tail) && Agree(s, t)
      ensures ExpOk(Minus(e), d, lo, p, i, i + |c + tail|, s, t)
    {
      Parts(p, i, c, tail);
      Inside(p, i + |c|, tail, 0);
      assert ExpOk(e, Temp(lo + 1), lo + 1, p, i, i + |c|, s, t);
      var n: nat :| Arrived(Eval(e, s), Temp(lo + 1), lo + 1, t, Run(p, At(i, t), n), i + |c|);
      MinusStep(Eval(e, s), d, lo, p, t, Run(p, At(i, t), n), i + |c|);
      assert Eval(Minus(e), s) == Negated(Eval(e, s));
      OneMore(p, At(i, t), n);
    }
  }

  // ---------- two operands, left before right ----------

  datatype Two = Two(v: int, w: int, st: State) | Neither(st: State)

  function EvalTwo(a: Exp, b: Exp, s: State): Two {
    match Eval(a, s)
    case Crash(s1) => Neither(s1)
    case Val(v, s1) =>
      match Eval(b, s1)
      case Crash(s2) => Neither(s2)
      case Val(w, s2) => Two(v, w, s2)
  }

  // Both operands are computed and sit in the two temporaries after `lo`.
  ghost predicate BothArrived(r: Two, lo: nat, t: State, c: Config, end: nat) {
    match r
    case Neither(s) => c.Stuck? && s.output == c.st.output
    case Two(v, w, s) =>
      && c.At? && c.pc == end && Agree(s, c.st) && Keeps(t, c.st, lo, Missing)
      && Look(c.st, Temp(lo + 1)) == v && Look(c.st, Temp(lo + 2)) == w
  }

  lemma SecondArrives(v: int, r: Res, lo: nat, mid: nat, t: State, u: State, c: Config, end: nat)
    requires lo + 2 <= mid && Keeps(t, u, lo + 2, Temp(lo + 1)) && Look(u, Temp(lo + 1)) == v
    requires Arrived(r, Temp(lo + 2), mid, u, c, end)
    ensures BothArrived(match r case Val(w, s) => Two(v, w, s) case Crash(s) => Neither(s), lo, t, c, end)
  {
  }

  lemma ExpUse(e: Exp, d: Operand, lo: nat, c: Code, p: Code, i: nat, s: State, t: State)
    requires ExpRuns(e, d, lo, c) && Unique(p) && Placed(p, i, c) && Agree(s, t)
    ensures ExpOk(e, d, lo, p, i, i + |c|, s, t)
  {
    hide Unique, Placed, Agree, ExpOk;
  }

  lemma TwoRun(a: Exp, b: Exp, lo: nat, mid: nat, ca: Code, cb: Code, p: Code, i: nat, s: State, t: State) returns (n: nat)
    requires lo + 2 <= mid && ExpRuns(a, Temp(lo + 1), lo + 2, ca) && ExpRuns(b, Temp(lo + 2), mid, cb)
    requires Unique(p) && Placed(p, i, ca) && Placed(p, i + |ca|, cb) && Agree(s, t)
    ensures BothArrived(EvalTwo(a, b, s), lo, t, Run(p, At(i, t), n), i + |ca| + |cb|)
  {
    hide Run, Eval, Unique, Placed, Agree, Keeps, ExpRuns;
    ExpUse(a, Temp(lo + 1), lo + 2, ca, p, i, s, t);
    n :| Arrived(Eval(a, s), Temp(lo + 1), lo + 2, t, Run(p, At(i, t), n), i + |ca|);
    if Eval(a, s).Val? {
      var s1, t1 := Eval(a, s).st, Run(p, At(i, t), n).st;
      ExpUse(b, Temp(lo + 2), mid, cb, p, i + |ca|, s1, t1);
      var k: nat :| Arrived(Eval(b, s1), Temp(lo + 2), mid, t1, Run(p, At(i + |ca|, t1), k), i + |ca| + |cb|);
      SecondArrives(Eval(a, s).v, Eval(b, s1), lo, mid, t, t1, Run(p, At(i + |ca|, t1), k), i + |ca| + |cb|);
      RunPlus(p, At(i, t), n, k);
      n := n + k;
    }
  }

  function Combined(op: Arith, r: Two): Res {
    match r
    case Neither(s) => Crash(s)
    case Two(v, w, s) => if Calc(op, v, w).None? then Crash(s) else Val(Calc(op, v, w).value, s)
  }

  lemma ArithStep(op: Arith, r: Two, d: Operand, lo: nat, p: Code, t: State, c: Config, k: nat)
    requires Usable(d, lo) && BothArrived(r, lo, t, c, k)
    requires k < |p| && p[k] == Bin(op, d, Temp(lo + 1), Temp(lo + 2))
    ensures Arrived(Combined(op, r), d, lo, t, Step(p, c), k + 1)
  {
    if r.Two? {
      var result := Calc(op, r.v, r.w);
      if result.Some? {
        PutKeeps(r.st, t, c.st, d, lo, result.value);
        assert Step(p, c) == At(k + 1, Put(c.st, d, result.value));
      }
    }
  }

  lemma ArithRuns(op: Arith, a: Exp, b: Exp, d: Operand, lo: nat, mid: nat, ca: Code, cb: Code)
    requires Usable(d, lo) && lo + 2 <= mid
    requires ExpRuns(a, Temp(lo + 1), lo + 2, ca) && ExpRuns(b, Temp(lo + 2), mid, cb)
    ensures ExpRuns(Calculate(op, a, b), d, lo, ca + cb + [Bin(op, d, Temp(lo + 1), Temp(lo + 2))])
  {
    hide Run, Agree, Unique, Placed, Arrived, BothArrived, Step;
    var e, tail := Calculate(op, a, b), [Bin(op, d, Temp(lo + 1), Temp(lo + 2))];
    forall p, i: nat, s, t | Unique(p) && Placed(p, i, ca + cb + tail) && Agree(s, t)
      ensures ExpOk(e, d, lo, p, i, i + |ca + cb + tail|, s, t)
    {
      Parts(p, i, ca + cb, tail);
      Parts(p, i, ca, cb);
      Inside(p, i + |ca + cb|, tail, 0);
      var n := TwoRun(a, b, lo, mid, ca, cb, p, i, s, t);
      ArithStep(op, EvalTwo(a, b, s), d, lo, p, t, Run(p, At(i, t), n), i + |ca| + |cb|);
      assert Eval(e, s) == Combined(op, EvalTwo(a, b, s));
      OneMore(p, At(i, t), n);
    }
  }

  // ---------- conditions ----------

  function Compared(rel: Relop, r: Two): Res {
    match r
    case Neither(s) => Crash(s)
    case Two(v, w, s) => Val(Truth(Holds(rel, v, w)), s)
  }

  lemma {:induction false} EvalCompare(rel: Relop, a: Exp, b: Exp, s: State)
    ensures Eval(Compare(rel, a, b), s) == Compared(rel, EvalTwo(a, b, s))
  {
  }

  lemma CompareStep(rel: Relop, r: Two, yes: nat, no: nat, lo: nat, p: Code, t: State, c: Config, k: nat)
    requires BothArrived(r, lo, t, c, k)
    requires k + 1 < |p| && p[k] == IfGoto(rel, Temp(lo + 1), Temp(lo + 2), yes) && p[k + 1] == Goto(no)
    ensures Branched(Compared(rel, r), yes, no, lo, p, t, Step(p, c)) || Branched(Compared(rel, r), yes, no, lo, p, t, Step(p, Step(p, c)))
  {
    hide Agree, Keeps;
  }

  lemma CompareRuns(rel: Relop, a: Exp, b: Exp, yes: nat, no: nat, lo: nat, mid: nat, ca: Code, cb: Code)
    requires lo + 2 <= mid && ExpRuns(a, Temp(lo + 1), lo + 2, ca) && ExpRuns(b, Temp(lo + 2), mid, cb)
    ensures CondRuns(Compare(rel, a, b), yes, no, lo, ca + cb + [IfGoto(rel, Temp(lo + 1), Temp(lo + 2), yes), Goto(no)])
  {
    hide Run, Agree, Unique, Placed, Branched, BothArrived, Step, Eval, EvalTwo, Compared, ExpRuns;
    var e, tail := Compare(rel, a, b), [IfGoto(rel, Temp(lo + 1), Temp(lo + 2), yes), Goto(no)];
    forall p, i: nat, s, t | Unique(p) && Placed(p, i, ca + cb + tail) && Agree(s, t)
      ensures CondOk(e, yes, no, lo, p, i, s, t)
    {
      Parts(p, i, ca + cb, tail);
      Parts(p, i, ca, cb);
      Inside(p, i + |ca + cb|, tail, 0);
      Inside(p, i + |ca + cb|, tail, 1);
      var n := TwoRun(a, b, lo, mid, ca, cb, p, i, s, t);
      CompareStep(rel, EvalTwo(a, b, s), yes, no, lo, p, t, Run(p, At(i, t), n), i + |ca| + |cb|);
      EvalCompare(rel, a, b, s);
      OneMore(p, At(i, t), n);
      OneMore(p, At(i, t), n + 1);
    }
  }

  lemma NonZeroStep(r: Res, yes: nat, no: nat, lo: nat, p: Code, t: State, c: Config, k: nat)
    requires Arrived(r, Temp(lo + 1), lo + 1, t, c, k)
    requires k + 1 < |p| && p[k] == IfGoto(Ne, Temp(lo + 1), Constant(0), yes) && p[k + 1] == Goto(no)
    ensures Branched(r, yes, no, lo, p, t, Step(p, c)) || Branched(r, yes, no, lo, p, t, Step(p, Step(p, c)))
  {
    if r.Val? { KeepsLess(t, c.st, lo + 1, Temp(lo + 1), lo); }
    hide Agree, Keeps;
  }

  // A condition that is not a comparison or a connective is compared with zero.
  lemma NonZeroRuns(e: Exp, yes: nat, no: nat, lo: nat, c: Code)
    requires ExpRuns(e, Temp(lo + 1), lo + 1, c)
    ensures CondRuns(e, yes, no, lo, c + [IfGoto(Ne, Temp(lo + 1), Constant(0), yes), Goto(no)])
  {
    hide Run, Eval, Agree, Unique, Placed, Branched, Arrived, Step;
    var tail := [IfGoto(Ne, Temp(lo + 1), Constant(0), yes), Goto(no)];
    forall p, i: nat, s, t | Unique(p) && Placed(p, i, c + tail) && Agree(s, t)
      ensures CondOk(e, yes, no, lo, p, i, s, t)
    {
      Parts(p, i, c, tail);
      Inside(p, i + |c|, tail, 0);
      Inside(p, i + |c|, tail, 1);
      assert ExpOk(e, Temp(lo + 1), lo + 1, p, i, i + |c|, s, t);
      var n: nat :| Arrived(Eval(e, s), Temp(lo + 1), lo + 1, t, Run(p, At(i, t), n), i + |c|);
      NonZeroStep(Eval(e, s), yes, no, lo, p, t, Run(p, At(i, t), n), i + |c|);
      OneMore(p, At(i, t), n);
      OneMore(p, At(i, t), n + 1);
    }
  }

  function Inverted(r: Res): Res {
    match r
    case Val(v, s) => Val(Truth(v == 0), s)
    case Crash(s) => Crash(s)
  }

  lemma NotRuns(e: Exp, yes: nat, no: nat, lo: nat, c: Code)
    requires CondRuns(e, no, yes, lo, c)
    ensures CondRuns(Not(e), yes, no, lo, c)
  {
    hide Run, Agree, Keeps, Unique, Placed;
    forall p, i: nat, s, t | Unique(p) && Placed(p, i, c) && Agree(s, t)
      ensures CondOk(Not(e), yes, no, lo, p, i, s, t)
    {
      assert CondOk(e, no, yes, lo, p, i, s, t);
      var n: nat :| Branched(Eval(e, s), no, yes, lo, p, t, Run(p, At(i, t), n));
      assert Eval(Not(e), s) == Inverted(Eval(e, s));
      hide Eval;
      assert Branched(Inverted(Eval(e, s)), yes, no, lo, p, t, Run(p, At(i, t), n));
    }
  }

  // Where the second operand starts, reached through its label.
  lemma AtSecond(p: Code, i: nat, ca: Code, l: nat, cb: Code)
    requires Unique(p) && Placed(p, i, ca + [Label(l)] + cb)
    ensures Placed(p, i, ca) && Placed(p, i + |ca| + 1, cb)
    ensures i + |ca| < |p| && p[i + |ca|] == Label(l) && Find(p, l) == i + |ca|
  {
    Parts(p, i, ca + [Label(l)], cb);
    Parts(p, i, ca, [Label(l)]);
    Inside(p, i + |ca|, [Label(l)], 0);
    UniqueFind(p, i + |ca|);
  }

  // The first operand has led to the label of the second one, which decides.
  lemma SecondDecides(b: Exp, yes: nat, no: nat, l: nat, lo: nat, mid: nat, cb: Code, p: Code, k: nat, s: State, t: State, c: Config)
    returns (n: nat)
    requires lo <= mid && CondRuns(b, yes, no, mid, cb) && Unique(p) && Placed(p, k + 1, cb)
    requires k < |p| && p[k] == Label(l) && Find(p, l) == k
    requires c == Jump(p, l, c.st) && Agree(s, c.st) && Keeps(t, c.st, lo, Missing)
    ensures Branched(Eval(b, s), yes, no, lo, p, t, Run(p, c, n))
  {
    hide Eval, Agree, Placed, Unique;
    assert CondOk(b, yes, no, mid, p, k + 1, s, c.st);
    n :| Branched(Eval(b, s), yes, no, mid, p, c.st, Run(p, At(k + 1, c.st), n));
    RunPlus(p, c, 1, n);
    assert Run(p, c, 1) == At(k + 1, c.st);
    n := n + 1;
  }

  lemma AndRuns(a: Exp, b: Exp, yes: nat, no: nat, l: nat, lo: nat, mid: nat, ca: Code, cb: Code)
    requires lo <= mid && CondRuns(a, l, no, lo, ca) && CondRuns(b, yes, no, mid, cb)
    ensures CondRuns(And(a, b), yes, no, lo, ca + [Label(l)] + cb)
  {
    hide Run, Agree, Keeps, Unique, Placed, Step, CondRuns, Eval;
    var c := ca + [Label(l)] + cb;
    forall p, i: nat, s, t | Unique(p) && Placed(p, i, c) && Agree(s, t)
      ensures CondOk(And(a, b), yes, no, lo, p, i, s, t)
    {
      AtSecond(p, i, ca, l, cb);
      CondUse(a, l, no, lo, ca, p, i, s, t);
      var m: nat :| Branched(Eval(a, s), l, no, lo, p, t, Run(p, At(i, t), m));
      EvalAnd(a, b, s);
      var mid1 := Run(p, At(i, t), m);
      if Eval(a, s).Val? && Eval(a, s).v != 0 {
        var k := SecondDecides(b, yes, no, l, lo, mid, cb, p, i + |ca|, Eval(a, s).st, t, mid1);
        RunPlus(p, At(i, t), m, k);
        BranchTruth(Eval(b, Eval(a, s).st), yes, no, lo, p, t, Run(p, At(i, t), m + k));
      } else {
        assert Branched(Eval(And(a, b), s), yes, no, lo, p, t, mid1);
      }
    }
    CondDone(And(a, b), yes, no, lo, c);
  }

  lemma OrRuns(a: Exp, b: Exp, yes: nat, no: nat, l: nat, lo: nat, mid: nat, ca: Code, cb: Code)
    requires lo <= mid && CondRuns(a, yes, l, lo, ca) && CondRuns(b, yes, no, mid, cb)
    ensures CondRuns(Or(a, b), yes, no, lo, ca + [Label(l)] + cb)
  {
    hide Run, Agree, Keeps, Unique, Placed, Step, CondRuns, Eval;
    var c := ca + [Label(l)] + cb;
    forall p, i: nat, s, t | Unique(p) && Placed(p, i, c) && Agree(s, t)
      ensures CondOk(Or(a, b), yes, no, lo, p, i, s, t)
    {
      AtSecond(p, i, ca, l, cb);
      CondUse(a, yes, l, lo, ca, p, i, s, t);
      var m: nat :| Branched(Eval(a, s), yes, l, lo, p, t, Run(p, At(i, t), m));
      EvalOr(a, b, s);
      var mid1 := Run(p, At(i, t), m);
      if Eval(a, s).Val? && Eval(a, s).v == 0 {
        var k := SecondDecides(b, yes, no, l, lo, mid, cb, p, i + |ca|, Eval(a, s).st, t, mid1);
        RunPlus(p, At(i, t), m, k);
        BranchTruth(Eval(b, Eval(a, s).st), yes, no, lo, p, t, Run(p, At(i, t), m + k));
      } else {
        assert Branched(Eval(Or(a, b), s), yes, no, lo, p, t, mid1);
      }
    }
    CondDone(Or(a, b), yes, no, lo, c);
  }

  lemma CondUse(e: Exp, yes: nat, no: nat, lo: nat, c: Code, p: Code, i: nat, s: State, t: State)
    requires CondRuns(e, yes, no, lo, c) && Unique(p) && Placed(p, i, c) && Agree(s, t)
    ensures CondOk(e, yes, no, lo, p, i, s, t)
  {
    hide Unique, Placed, Agree, CondOk;
  }

  lemma CondDone(e: Exp, yes: nat, no: nat, lo: nat, c: Code)
    requires forall p, i: nat, s, t :: Unique(p) && Placed(p, i, c) && Agree(s, t) ==> CondOk(e, yes, no, lo, p, i, s, t)
    ensures CondRuns(e, yes, no, lo, c)
  {
    hide Unique, Placed, Agree, CondOk;
  }

  // The truth value of a value branches as the value does.
  lemma BranchTruth(r: Res, yes: nat, no: nat, lo: nat, p: Code, t: State, c: Config)
    requires Branched(r, yes, no, lo, p, t, c)
    ensures Branched(AsTruth(r), yes, no, lo, p, t, c)
  {
  }

  lemma {:induction false} EvalAnd(a: Exp, b: Exp, s: State)
    ensures var r := Eval(a, s);
      Eval(And(a, b), s) == if r.Crash? then r else if r.v == 0 then Val(0, r.st) else AsTruth(Eval(b, r.st))
  {
  }

  lemma {:induction false} EvalOr(a: Exp, b: Exp, s: State)
    ensures var r := Eval(a, s);
      Eval(Or(a, b), s) == if r.Crash? then r else if r.v != 0 then Val(1, r.st) else AsTruth(Eval(b, r.st))
  {
  }

  // ---------- the value of a condition ----------

  // 0 is stored first; 1 is stored on the way through `l1`.
  lemma TruthRuns(e: Exp, d: Operand, lo: nat, l1: nat, l2: nat, c: Code)
    requires Usable(d, lo) && (e.Not? || e.And? || e.Or? || e.Compare?) && CondRuns(e, l1, l2, lo, c)
    ensures ExpRuns(e, d, lo, [Assign(d, Constant(0))] + c + [Label(l1), Assign(d, Constant(1)), Label(l2)])
  {
    hide Run, Agree, Keeps, Unique, Placed, Step, CondRuns, Arrived, Branched, Eval;
    var head, tail := [Assign(d, Constant(0))], [Label(l1), Assign(d, Constant(1)), Label(l2)];
    forall p, i: nat, s, t | Unique(p) && Placed(p, i, head + c + tail) && Agree(s, t)
      ensures ExpOk(e, d, lo, p, i, i + |head + c + tail|, s, t)
    {
      Parts(p, i, head + c, tail);
      Parts(p, i, head, c);
      Inside(p, i, head, 0);
      var k := i + 1 + |c|;
      Inside(p, k, tail, 0);
      Inside(p, k, tail, 1);
      Inside(p, k, tail, 2);
      UniqueFind(p, k);
      UniqueFind(p, k + 2);
      var t0 := Put(t, d, 0);
      KeepsSelf(t, lo);
      PutKeeps(s, t, t, d, lo, 0);
      StoreStep(p, i, d, 0, t);
      CondUse(e, l1, l2, lo, c, p, i + 1, s, t0);
      var n: nat :| Branched(Eval(e, s), l1, l2, lo, p, t0, Run(p, At(i + 1, t0), n));
      RunPlus(p, At(i, t), 1, n);
      assert Run(p, At(i, t), 1) == Step(p, At(i, t)) by { OneMore(p, At(i, t), 0); RunZero(p, At(i, t)); }
      TruthIsBit(e, s);
      var b := TruthStep(Eval(e, s), d, lo, l1, l2, p, k, t, t0, Run(p, At(i, t), n + 1));
      RunPlus(p, At(i, t), n + 1, b);
    }
  }

  lemma RunZero(p: Code, c: Config)
    ensures Run(p, c, 0) == c
  {
  }

  lemma StoreStep(p: Code, i: nat, d: Operand, v: int, t: State)
    requires i < |p| && p[i] == Assign(d, Constant(v))
    ensures Step(p, At(i, t)) == At(i + 1, Put(t, d, v))
  {
  }

  lemma TruthStep(r: Res, d: Operand, lo: nat, l1: nat, l2: nat, p: Code, k: nat, t: State, t0: State, c: Config) returns (n: nat)
    requires Usable(d, lo) && t0 == Put(t, d, 0) && Keeps(t, t0, lo, d) && (d != Missing ==> Look(t0, d) == 0)
    requires Branched(r, l1, l2, lo, p, t0, c) && (r.Val? ==> r.v == 0 || r.v == 1)
    requires k + 2 < |p| && p[k] == Label(l1) && p[k + 1] == Assign(d, Constant(1)) && p[k + 2] == Label(l2)
    requires Find(p, l1) == k && Find(p, l2) == k + 2
    ensures Arrived(r, d, lo, t, Run(p, c, n), k + 3)
  {
    hide Agree;
    if r.Crash? { return 0; }
    if r.v == 0 {
      assert Run(p, c, 1) == At(k + 3, c.st);
      return 1;
    }
    assert Run(p, c, 1) == At(k + 1, c.st);
    var u := Put(c.st, d, 1);
    OneMore(p, c, 1);
    OneMore(p, c, 2);
    PutKeeps(r.st, t0, c.st, d, lo, 1);
    return 3;
  }

  lemma {:induction false} TruthIsBit(e: Exp, s: State)
    requires e.Not? || e.And? || e.Or? || e.Compare?
    ensures Eval(e, s).Val? ==> Eval(e, s).v == 0 || Eval(e, s).v == 1
  {
  }

  // ---------- statements ----------

  lemma StmtUse(s: Stmt, c: Code, p: Code, i: nat, st: State, t: State, fuel: nat)
    requires StmtRuns(s, c) && Unique(p) && Placed(p, i, c) && Agree(st, t)
    ensures Reaches(Exec(s, st, fuel), fuel, p, At(i, t), i + |c|)
  {
    hide Unique, Placed, Agree, Reaches, Exec;
  }

  lemma AllUse(body: seq<Stmt>, c: Code, p: Code, i: nat, st: State, t: State, fuel: nat)
    requires AllRun(body, c) && Unique(p) && Placed(p, i, c) && Agree(st, t)
    ensures Reaches(ExecAll(body, st, fuel), fuel, p, At(i, t), i + |c|)
  {
    hide Unique, Placed, Agree, Reaches, ExecAll;
  }

  lemma StmtDone(s: Stmt, c: Code)
    requires forall p, i: nat, st, t, fuel: nat ::
      Unique(p) && Placed(p, i, c) && Agree(st, t) ==> Reaches(Exec(s, st, fuel), fuel, p, At(i, t), i + |c|)
    ensures StmtRuns(s, c)
  {
    hide Unique, Placed, Agree, Reaches, Exec;
  }

  // `m` steps lead to where the rest starts.
  lemma After(p: Code, c: Config, m: nat, o: Outcome, fuel: nat, end: nat)
    requires Reaches(o, fuel, p, Run(p, c, m), end)
    ensures Reaches(o, fuel + if m > 0 then 1 else 0, p, c, end)
  {
    var n: nat :| Matches(o, Run(p, Run(p, c, m), n), end) && (o.Timeout? ==> n >= fuel);
    RunPlus(p, c, m, n);
    assert Matches(o, Run(p, c, m + n), end);
  }

  lemma Less(p: Code, c: Config, o: Outcome, fuel: nat, fuel': nat, end: nat)
    requires Reaches(o, fuel, p, c, end) && fuel' <= fuel
    ensures Reaches(o, fuel', p, c, end)
  {
    var n: nat :| Matches(o, Run(p, c, n), end) && (o.Timeout? ==> n >= fuel);
    assert Matches(o, Run(p, c, n), end);
  }

  // A normal end is followed by one more step, to another place.
  lemma Onward(p: Code, c: Config, o: Outcome, fuel: nat, end: nat, end': nat)
    requires Reaches(o, fuel, p, c, end)
    requires o.Normal? ==> forall st :: Step(p, At(end, st)) == At(end', st)
    ensures Reaches(o, fuel, p, c, end')
  {
    var n: nat :| Matches(o, Run(p, c, n), end) && (o.Timeout? ==> n >= fuel);
    OneMore(p, c, n);
    hide Step;
    if o.Normal? {
      assert Matches(o, Run(p, c, n + 1), end');
    } else {
      assert Matches(o, Run(p, c, n), end');
    }
  }

  lemma Here(p: Code, c: Config, o: Outcome, fuel: nat, end: nat, n: nat)
    requires Matches(o, Run(p, c, n), end) && !o.Timeout?
    ensures Reaches(o, fuel, p, c, end)
  {
  }

  function Done(r: Res): Outcome {
    match r
    case Val(_, s) => Normal(s)
    case Crash(s) => Crashed(s)
  }

  lemma DoneMatches(r: Res, lo: nat, t: State, c: Config, end: nat)
    requires Arrived(r, Missing, lo, t, c, end)
    ensures Matches(Done(r), c, end) && !Done(r).Timeout?
  {
    hide Agree, Keeps;
  }

  lemma {:induction false} ExecDo(e: Exp, st: State, fuel: nat)
    ensures Exec(Do(e), st, fuel) == Done(Eval(e, st))
  {
  }

  lemma DoRuns(e: Exp, lo: nat, c: Code)
    requires ExpRuns(e, Missing, lo, c)
    ensures StmtRuns(Do(e), c)
  {
    hide Run, Eval, Exec, Unique, Placed, Agree, Keeps, ExpRuns, Reaches, Arrived, Matches, Done, StmtRuns;
    forall p, i: nat, st, t, fuel: nat | Unique(p) && Placed(p, i, c) && Agree(st, t)
      ensures Reaches(Exec(Do(e), st, fuel), fuel, p, At(i, t), i + |c|)
    {
      ExecDo(e, st, fuel);
      ExpUse(e, Missing, lo, c, p, i, st, t);
      var n: nat :| Arrived(Eval(e, st), Missing, lo, t, Run(p, At(i, t), n), i + |c|);
      DoneMatches(Eval(e, st), lo, t, Run(p, At(i, t), n), i + |c|);
      Here(p, At(i, t), Done(Eval(e, st)), fuel, i + |c|, n);
    }
    StmtDone(Do(e), c);
  }

  // What the statements with one expression and one instruction after it do with the value.
  function Used(s: Stmt, r: Res): Outcome {
    match r
    case Crash(s1) => Crashed(s1)
    case Val(v, s1) =>
      match s
      case Print(_) => Normal(s1.(output := s1.output + [v]))
      case Init(x, _) => Normal(Put(s1, Variable(x), v))
      case _ => Returned(v, s1)
  }

  function LastInstr(s: Stmt, a: Operand): Instr {
    match s
    case Print(_) => Write(a)
    case Init(x, _) => Assign(Variable(x), a)
    case _ => Return(a)
  }

  lemma UseStep(s: Stmt, r: Res, lo: nat, p: Code, t: State, c: Config, k: nat)
    requires Arrived(r, Temp(lo + 1), lo + 1, t, c, k)
    requires k < |p| && p[k] == LastInstr(s, Temp(lo + 1))
    ensures Matches(Used(s, r), Step(p, c), k + 1)
  {
  }

  lemma {:induction false} ExecUse(s: Stmt, st: State, fuel: nat)
    requires s.Print? || s.Init? || s.Ret?
    ensures Exec(s, st, fuel) == Used(s, Eval(s.e, st))
  {
  }

  lemma UseRuns(s: Stmt, lo: nat, c: Code)
    requires (s.Print? || s.Init? || s.Ret?) && ExpRuns(s.e, Temp(lo + 1), lo + 1, c)
    ensures StmtRuns(s, c + [LastInstr(s, Temp(lo + 1))])
  {
    hide Run, Eval, Exec, Unique, Placed, Agree, Keeps, ExpRuns, Reaches, Step, Used, Arrived, Matches, LastInstr, StmtRuns;
    var tail := [LastInstr(s, Temp(lo + 1))];
    forall p, i: nat, st, t, fuel: nat | Unique(p) && Placed(p, i, c + tail) && Agree(st, t)
      ensures Reaches(Exec(s, st, fuel), fuel, p, At(i, t), i + |c + tail|)
    {
      ExecUse(s, st, fuel);
      Parts(p, i, c, tail);
      Inside(p, i + |c|, tail, 0);
      ExpUse(s.e, Temp(lo + 1), lo + 1, c, p, i, st, t);
      var n: nat :| Arrived(Eval(s.e, st), Temp(lo + 1), lo + 1, t, Run(p, At(i, t), n), i + |c|);
      UseStep(s, Eval(s.e, st), lo, p, t, Run(p, At(i, t), n), i + |c|);
      OneMore(p, At(i, t), n);
      UsedEnds(s, Eval(s.e, st));
      Here(p, At(i, t), Used(s, Eval(s.e, st)), fuel, i + |c| + 1, n + 1);
    }
    StmtDone(s, c + tail);
  }

  lemma {:induction false} UsedEnds(s: Stmt, r: Res)
    ensures !Used(s, r).Timeout?
  {
  }

  // ---------- branches ----------

  // A condition has been decided; its label is where the rest starts.
  lemma Decided(e: Exp, yes: nat, no: nat, lo: nat, c: Code, p: Code, i: nat, st: State, t: State) returns (n: nat, u: State)
    requires CondRuns(e, yes, no, lo, c) && Unique(p) && Placed(p, i, c) && Agree(st, t)
    ensures Eval(e, st).Val? ==> Agree(Eval(e, st).st, u) && Run(p, At(i, t), n) == Jump(p, if Eval(e, st).v != 0 then yes else no, u)
    ensures Eval(e, st).Crash? ==> Run(p, At(i, t), n) == Stuck(u) && u.output == Eval(e, st).st.output
  {
    hide Run, Eval, Unique, Placed, Agree, Keeps, CondRuns, Jump;
    CondUse(e, yes, no, lo, c, p, i, st, t);
    n :| Branched(Eval(e, st), yes, no, lo, p, t, Run(p, At(i, t), n));
    u := Run(p, At(i, t), n).st;
  }

  // From a jump to a label that stands at `k`, the code after it runs.
  lemma FromLabel(p: Code, l: nat, k: nat, u: State, o: Outcome, fuel: nat, end: nat)
    requires k < |p| && p[k] == Label(l) && Find(p, l) == k
    requires Reaches(o, fuel, p, At(k + 1, u), end)
    ensures Reaches(o, fuel + 1, p, Jump(p, l, u), end)
  {
    assert Run(p, At(k, u), 1) == At(k + 1, u);
    After(p, At(k, u), 1, o, fuel, end);
  }

  lemma EndsHere(p: Code, st: State, u: State, fuel: nat, end: nat)
    requires Agree(st, u)
    ensures Reaches(Normal(st), fuel, p, At(end, u), end)
  {
    assert Run(p, At(end, u), 0) == At(end, u);
    Here(p, At(end, u), Normal(st), fuel, end, 0);
  }

  lemma CrashesHere(p: Code, st: State, u: State, fuel: nat, end: nat)
    requires st.output == u.output
    ensures Reaches(Crashed(st), fuel, p, Stuck(u), end)
  {
    assert Run(p, Stuck(u), 0) == Stuck(u);
    Here(p, Stuck(u), Crashed(st), fuel, end, 0);
  }

  lemma IfRuns(e: Exp, s: Stmt, lo: nat, l1: nat, l2: nat, ce: Code, cs: Code)
    requires CondRuns(e, l1, l2, lo, ce) && StmtRuns(s, cs)
    ensures StmtRuns(If(e, s), ce + [Label(l1)] + cs + [Label(l2)])
  {
    var c := ce + [Label(l1)] + cs + [Label(l2)];
    hide Run, Eval, Unique, Placed, Agree, Step, CondRuns, StmtRuns, Reaches, Jump, Matches;
    forall p, i: nat, st, t, fuel: nat | Unique(p) && Placed(p, i, c) && Agree(st, t)
      ensures Reaches(Exec(If(e, s), st, fuel), fuel, p, At(i, t), i + |c|)
    {
      var end := i + |c|;
      AtSecond(p, i, ce + [Label(l1)] + cs, l2, []) by { assert ce + [Label(l1)] + cs + [Label(l2)] + [] == c; }
      AtSecond(p, i, ce, l1, cs);
      var n, u := Decided(e, l1, l2, lo, ce, p, i, st, t);
      var r, o := Eval(e, st), Exec(If(e, s), st, fuel);
      assert Reaches(o, fuel, p, Run(p, At(i, t), n), end) by {
        if r.Crash? {
          CrashesHere(p, r.st, u, fuel, end);
        } else if r.v != 0 {
          StmtUse(s, cs, p, i + |ce| + 1, r.st, u, fuel);
          LabelSteps(p, end - 1);
          Onward(p, At(i + |ce| + 1, u), o, fuel, end - 1, end);
          FromLabel(p, l1, i + |ce|, u, o, fuel, end);
          Less(p, Jump(p, l1, u), o, fuel + 1, fuel, end);
        } else {
          EndsHere(p, r.st, u, fuel, end);
          FromLabel(p, l2, end - 1, u, o, fuel, end);
          Less(p, Jump(p, l2, u), o, fuel + 1, fuel, end);
        }
      }
      After(p, At(i, t), n, o, fuel, end);
      Less(p, At(i, t), o, fuel + if n > 0 then 1 else 0, fuel, end);
    }
    StmtDone(If(e, s), c);
  }

  lemma BetweenLabels(s: Stmt, l1: nat, l2: nat, cs: Code)
    requires StmtRuns(s, cs)
    ensures StmtRuns(s, [] + [Label(l1)] + cs + [Label(l2)])
  {
    var c := [] + [Label(l1)] + cs + [Label(l2)];
    hide Run, Exec, Unique, Placed, Agree, Step, StmtRuns, Reaches;
    forall p, i: nat, st, t, fuel: nat | Unique(p) && Placed(p, i, c) && Agree(st, t)
      ensures Reaches(Exec(s, st, fuel), fuel, p, At(i, t), i + |c|)
    {
      var o, end := Exec(s, st, fuel), i + |c|;
      AtSecond(p, i, [Label(l1)] + cs, l2, []) by { assert [Label(l1)] + cs + [Label(l2)] + [] == c; }
      AtSecond(p, i, [], l1, cs) by { assert [] + [Label(l1)] + cs == [Label(l1)] + cs; }
      StmtUse(s, cs, p, i + 1, st, t, fuel);
      LabelSteps(p, end - 1);
      Onward(p, At(i + 1, t), o, fuel, end - 1, end);
      LabelSteps(p, i);
      OneMore(p, At(i, t), 0);
      RunZero(p, At(i, t));
      After(p, At(i, t), 1, o, fuel, end);
      Less(p, At(i, t), o, fuel + 1, fuel, end);
    }
    StmtDone(s, c);
  }

  lemma LabelSteps(p: Code, k: nat)
    requires k < |p| && p[k].Label?
    ensures forall st :: Step(p, At(k, st)) == At(k + 1, st)
  {
  }

  lemma GotoSteps(p: Code, k: nat, l: nat, m: nat)
    requires k < |p| && p[k] == Goto(l) && m < |p| && Find(p, l) == m
    ensures forall st :: Step(p, At(k, st)) == At(m, st)
  {
  }

  lemma {:induction false} ExecIfElse(e: Exp, s1: Stmt, s2: Stmt, st: State, fuel: nat)
    ensures var r := Eval(e, st);
      Exec(IfElse(e, s1, s2), st, fuel)
        == if r.Crash? then Crashed(r.st) else if r.v != 0 then Exec(s1, r.st, fuel) else Exec(s2, r.st, fuel)
  {
    hide Eval;
  }

  // A labelled statement runs and then goes from `k` to `end`, where the whole statement ends.
  lemma BranchRuns(s: Stmt, cs: Code, l: nat, p: Code, i: nat, st: State, u: State, fuel: nat, end: nat)
    requires StmtRuns(s, cs) && Unique(p) && Placed(p, i + 1, cs) && Agree(st, u)
    requires i < |p| && p[i] == Label(l) && Find(p, l) == i
    requires forall w :: Step(p, At(i + 1 + |cs|, w)) == At(end, w)
    ensures Reaches(Exec(s, st, fuel), fuel, p, Jump(p, l, u), end)
  {
    hide Run, Exec, Unique, Placed, Agree, Step, StmtRuns, Reaches, Jump, Find;
    StmtUse(s, cs, p, i + 1, st, u, fuel);
    Onward(p, At(i + 1, u), Exec(s, st, fuel), fuel, i + 1 + |cs|, end);
    FromLabel(p, l, i, u, Exec(s, st, fuel), fuel, end);
    Less(p, Jump(p, l, u), Exec(s, st, fuel), fuel + 1, fuel, end);
  }

  lemma IfElseRuns(e: Exp, s1: Stmt, s2: Stmt, lo: nat, l1: nat, l2: nat, l3: nat, ce: Code, c1: Code, c2: Code)
    requires CondRuns(e, l1, l2, lo, ce) && StmtRuns(s1, c1) && StmtRuns(s2, c2)
    ensures StmtRuns(IfElse(e, s1, s2), ce + [Label(l1)] + (c1 + [Goto(l3)]) + [Label(l2)] + c2 + [Label(l3)])
  {
    var front := ce + [Label(l1)] + (c1 + [Goto(l3)]);
    var c := front + [Label(l2)] + c2 + [Label(l3)];
    hide *;
    forall p, i: nat, st, t, fuel: nat | Unique(p) && Placed(p, i, c) && Agree(st, t)
      ensures Reaches(Exec(IfElse(e, s1, s2), st, fuel), fuel, p, At(i, t), i + |c|)
    {
      var end := i + |c|;
      AtSecond(p, i, front + [Label(l2)] + c2, l3, []) by { assert front + [Label(l2)] + c2 + [Label(l3)] + [] == c; }
      AtSecond(p, i, front, l2, c2);
      AtSecond(p, i, ce, l1, c1 + [Goto(l3)]);
      var i1, i2 := i + |ce|, i + |front|;
      Parts(p, i1 + 1, c1, [Goto(l3)]);
      Inside(p, i1 + 1 + |c1|, [Goto(l3)], 0);
      LabelSteps(p, end - 1);
      var n, u := Decided(e, l1, l2, lo, ce, p, i, st, t);
      var r, o := Eval(e, st), Exec(IfElse(e, s1, s2), st, fuel);
      ExecIfElse(e, s1, s2, st, fuel);
      assert Reaches(o, fuel, p, Run(p, At(i, t), n), end) by {
        if r.Crash? {
          CrashesHere(p, r.st, u, fuel, end);
        } else if r.v != 0 {
          GotoSteps(p, i1 + 1 + |c1|, l3, end - 1);
          BranchRuns(s1, c1, l1, p, i1, r.st, u, fuel, end - 1);
          Onward(p, Jump(p, l1, u), o, fuel, end - 1, end);
        } else {
          BranchRuns(s2, c2, l2, p, i2, r.st, u, fuel, end);
        }
      }
      After(p, At(i, t), n, o, fuel, end);
      Less(p, At(i, t), o, fuel + if n > 0 then 1 else 0, fuel, end);
    }
    StmtDone(IfElse(e, s1, s2), c);
  }

  // ---------- loops ----------

  lemma {:induction false} LoopFrom(e: Exp, s: Stmt, lo: nat, l1: nat, l2: nat, l3: nat, ce: Code, cs: Code,
                                    p: Code, i: nat, st: State, t: State, fuel: nat)
    requires CondRuns(e, l2, l3, lo, ce) && StmtRuns(s, cs) && Unique(p) && Agree(st, t)
    requires i < |p| && p[i] == Label(l1) && Find(p, l1) == i && Placed(p, i + 1, ce)
    requires var k := i + 1 + |ce|;
      && k + |cs| + 2 < |p| && p[k] == Label(l2) && Find(p, l2) == k && Placed(p, k + 1, cs)
      && p[k + 1 + |cs|] == Goto(l1) && p[k + 2 + |cs|] == Label(l3) && Find(p, l3) == k + 2 + |cs|
    ensures Reaches(Exec(While(e, s), st, fuel), fuel, p, At(i, t), i + |ce| + |cs| + 4)
    decreases fuel
  {
    hide Run, Eval, Unique, Placed, Agree, Step, CondRuns, StmtRuns, Reaches, Jump, Matches;
    var k, end, o := i + 1 + |ce|, i + |ce| + |cs| + 4, Exec(While(e, s), st, fuel);
    if fuel == 0 {
      TimesOut(p, At(i, t), st, end);
      return;
    }
    var n, u := Decided(e, l2, l3, lo, ce, p, i + 1, st, t);
    var r := Eval(e, st);
    assert Reaches(o, fuel, p, Run(p, At(i + 1, t), n), end) by {
      if r.Crash? {
        CrashesHere(p, r.st, u, fuel, end);
      } else if r.v == 0 {
        EndsHere(p, r.st, u, fuel, end);
        FromLabel(p, l3, end - 1, u, o, fuel, end);
        Less(p, Jump(p, l3, u), o, fuel + 1, fuel, end);
      } else {
        StmtUse(s, cs, p, k + 1, r.st, u, fuel);
        var o1 := Exec(s, r.st, fuel);
        GotoSteps(p, k + 1 + |cs|, l1, i);
        Onward(p, At(k + 1, u), o1, fuel, k + 1 + |cs|, i);
        if o1.Normal? {
          var m, w := ArrivesAt(p, At(k + 1, u), o1.st, fuel, i);
          LoopFrom(e, s, lo, l1, l2, l3, ce, cs, p, i, o1.st, w, fuel - 1);
          After(p, At(k + 1, u), m, o, fuel - 1, end);
          Less(p, At(k + 1, u), o, fuel - 1 + if m > 0 then 1 else 0, fuel - 1, end);
        } else {
          OtherEnd(p, At(k + 1, u), o1, fuel, i, end);
          Less(p, At(k + 1, u), o1, fuel, fuel - 1, end);
        }
        FromLabel(p, l2, k, u, o, fuel - 1, end);
      }
    }
    LabelSteps(p, i);
    OneMore(p, At(i, t), 0);
    RunZero(p, At(i, t));
    RunPlus(p, At(i, t), 1, n);
    After(p, At(i, t), n + 1, o, fuel, end);
    Less(p, At(i, t), o, fuel + 1, fuel, end);
  }

  lemma TimesOut(p: Code, c: Config, st: State, end: nat)
    requires c.At? && Agree(st, c.st)
    ensures Reaches(Timeout(st), 0, p, c, end)
  {
    assert Matches(Timeout(st), Run(p, c, 0), end);
  }

  lemma ArrivesAt(p: Code, c: Config, st: State, fuel: nat, end: nat) returns (n: nat, t: State)
    requires Reaches(Normal(st), fuel, p, c, end)
    ensures Run(p, c, n) == At(end, t) && Agree(st, t)
  {
    n :| Matches(Normal(st), Run(p, c, n), end);
    t := Run(p, c, n).st;
  }

  // Only a normal end is at a place.
  lemma OtherEnd(p: Code, c: Config, o: Outcome, fuel: nat, end: nat, end': nat)
    requires Reaches(o, fuel, p, c, end) && !o.Normal?
    ensures Reaches(o, fuel, p, c, end')
  {
    var n: nat :| Matches(o, Run(p, c, n), end) && (o.Timeout? ==> n >= fuel);
    assert Matches(o, Run(p, c, n), end');
  }

  lemma WhileRuns(e: Exp, s: Stmt, lo: nat, l1: nat, l2: nat, l3: nat, ce: Code, cs: Code)
    requires CondRuns(e, l2, l3, lo, ce) && StmtRuns(s, cs)
    ensures StmtRuns(While(e, s), [Label(l1)] + ce + [Label(l2)] + (cs + [Goto(l1)]) + [Label(l3)])
  {
    var front := [Label(l1)] + ce;
    var c := front + [Label(l2)] + (cs + [Goto(l1)]) + [Label(l3)];
    hide *;
    forall p, i: nat, st, t, fuel: nat | Unique(p) && Placed(p, i, c) && Agree(st, t)
      ensures Reaches(Exec(While(e, s), st, fuel), fuel, p, At(i, t), i + |c|)
    {
      AtSecond(p, i, front + [Label(l2)] + (cs + [Goto(l1)]), l3, []) by {
        assert front + [Label(l2)] + (cs + [Goto(l1)]) + [Label(l3)] + [] == c;
      }
      AtSecond(p, i, front, l2, cs + [Goto(l1)]);
      AtSecond(p, i, [], l1, ce) by { assert [] + [Label(l1)] + ce == front; }
      var k := i + 1 + |ce|;
      Parts(p, k + 1, cs, [Goto(l1)]);
      Inside(p, k + 1 + |cs|, [Goto(l1)], 0);
      LoopFrom(e, s, lo, l1, l2, l3, ce, cs, p, i, st, t, fuel);
    }
    StmtDone(While(e, s), c);
  }

  // ---------- sequences ----------

  lemma NothingRuns()
    ensures AllRun([], [])
  {
    forall p, i: nat, st, t, fuel: nat | Unique(p) && Placed(p, i, []) && Agree(st, t)
      ensures Reaches(ExecAll([], st, fuel), fuel, p, At(i, t), i)
    {
      EndsHere(p, st, t, fuel, i);
    }
  }

  lemma AllDone(body: seq<Stmt>, c: Code)
    requires forall p, i: nat, st, t, fuel: nat ::
      Unique(p) && Placed(p, i, c) && Agree(st, t) ==> Reaches(ExecAll(body, st, fuel), fuel, p, At(i, t), i + |c|)
    ensures AllRun(body, c)
  {
    hide Unique, Placed, Agree, Reaches, ExecAll;
  }

  lemma {:induction false} ExecSnoc(body: seq<Stmt>, s: Stmt, st: State, fuel: nat)
    ensures ExecAll(body + [s], st, fuel)
      == var o := ExecAll(body, st, fuel); if o.Normal? then Exec(s, o.st, fuel) else o
  {
    assert (body + [s])[..|body|] == body;
  }

  lemma OneMoreRuns(body: seq<Stmt>, s: Stmt, c: Code, cs: Code)
    requires AllRun(body, c) && StmtRuns(s, cs)
    ensures AllRun(body + [s], c + cs)
  {
    hide Run, Exec, ExecAll, Unique, Placed, Agree, AllRun, StmtRuns, Reaches;
    forall p, i: nat, st, t, fuel: nat | Unique(p) && Placed(p, i, c + cs) && Agree(st, t)
      ensures Reaches(ExecAll(body + [s], st, fuel), fuel, p, At(i, t), i + |c + cs|)
    {
      Parts(p, i, c, cs);
      AllUse(body, c, p, i, st, t, fuel);
      var o1 := ExecAll(body, st, fuel);
      ExecSnoc(body, s, st, fuel);
      var end := i + |c| + |cs|;
      if o1.Normal? {
        var m, w := ArrivesAt(p, At(i, t), o1.st, fuel, i + |c|);
        StmtUse(s, cs, p, i + |c|, o1.st, w, fuel);
        var o := Exec(s, o1.st, fuel);
        After(p, At(i, t), m, o, fuel, end);
        Less(p, At(i, t), o, fuel + if m > 0 then 1 else 0, fuel, end);
      } else {
        OtherEnd(p, At(i, t), o1, fuel, i + |c|, end);
      }
    }
    AllDone(body + [s], c + cs);
  }

  lemma BlockRuns(body: seq<Stmt>, c: Code)
    requires AllRun(body, c)
    ensures StmtRuns(Block(body), c)
  {
    hide Run, ExecAll, Unique, Placed, Agree, AllRun, StmtRuns, Reaches;
    forall p, i: nat, st, t, fuel: nat | Unique(p) && Placed(p, i, c) && Agree(st, t)
      ensures Reaches(Exec(Block(body), st, fuel), fuel, p, At(i, t), i + |c|)
    {
      AllUse(body, c, p, i, st, t, fuel);
    }
    StmtDone(Block(body), c);
  }
}
