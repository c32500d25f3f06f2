/** The statements and expressions of the source language that are translated, and what they mean. */
module SourceLanguage {
  import opened ThreeAddress

  datatype Exp =
    | Num(val: int)
    | Id(name: string)
    | Set(name: string, e: Exp)
    | Calculate(op: Arith, a: Exp, b: Exp)
    | Minus(e: Exp)
    | Paren(e: Exp)
    | Not(e: Exp)
    | And(a: Exp, b: Exp)
    | Or(a: Exp, b: Exp)
    | Compare(rel: Relop, a: Exp, b: Exp)
    | Input

  datatype Stmt =
    | Do(e: Exp)
    | Print(e: Exp)
    | Init(name: string, e: Exp)
    | Block(body: seq<Stmt>)
    | Ret(e: Exp)
    | If(c: Exp, s: Stmt)
    | IfElse(c: Exp, s: Stmt, t: Stmt)
    | While(c: Exp, s: Stmt)

  datatype Res = Val(v: int, st: State) | Crash(st: State)

  function Truth(b: bool): int {
    if b then 1 else 0
  }

  /** The value of an expression: operands from left to right, `&&` and `||` only as far as needed. */
  function Eval(e: Exp, st: State): Res {
    match e
    case Num(v) => Val(v, st)
    case Id(x) => Val(Look(st, Variable(x)), st)
    case Set(x, f) =>
      (match Eval(f, st)
       case Val(v, s1) => Val(v, Put(s1, Variable(x), v))
       case Crash(s1) => Crash(s1))
    case Calculate(op, a, b) =>
      (match Eval(a, st)
       case Crash(s1) => Crash(s1)
       case Val(v, s1) =>
         match Eval(b, s1)
         case Crash(s2) => Crash(s2)
         case Val(w, s2) => if Calc(op, v, w).None? then Crash(s2) else Val(Calc(op, v, w).value, s2))
    case Minus(f) =>
      (match Eval(f, st)
       case Val(v, s1) => Val(0 - v, s1)
       case Crash(s1) => Crash(s1))
    case Paren(f) => Eval(f, st)
    case Not(f) =>
      (match Eval(f, st)
       case Val(v, s1) => Val(Truth(v == 0), s1)
       case Crash(s1) => Crash(s1))
    case And(a, b) =>
      (match Eval(a, st)
       case Crash(s1) => Crash(s1)
       case Val(v, s1) => if v == 0 then Val(0, s1) else AsTruth(Eval(b, s1)))
    case Or(a, b) =>
      (match Eval(a, st)
       case Crash(s1) => Crash(s1)
       case Val(v, s1) => if v != 0 then Val(1, s1) else AsTruth(Eval(b, s1)))
    case Compare(rel, a, b) =>
      (match Eval(a, st)
       case Crash(s1) => Crash(s1)
       case Val(v, s1) =>
         match Eval(b, s1)
         case Crash(s2) => Crash(s2)
         case Val(w, s2) => Val(Truth(Holds(rel, v, w)), s2))
    case Input => if st.input == [] then Crash(st) else Val(st.input[0], st.(input := st.input[1..]))
  }

  function AsTruth(r: Res): Res {
    match r
    case Val(v, st) => Val(Truth(v != 0), st)
    case Crash(st) => Crash(st)
  }

  /** What the operators make of the values of their operands, worked out from left to right. */
  lemma ArithmeticMeans(a: Exp, b: Exp, st: State, v: int, w: int, s1: State, s2: State)
    requires Eval(a, st) == Val(v, s1) && Eval(b, s1) == Val(w, s2)
    ensures Eval(Calculate(Add, a, b), st) == Val(v + w, s2) && Eval(Calculate(Sub, a, b), st) == Val(v - w, s2)
    ensures Eval(Calculate(Mul, a, b), st) == Val(v * w, s2)
    ensures Eval(Calculate(Div, a, b), st) == if w == 0 then Crash(s2) else Val(Quotient(v, w), s2)
  {
    forall op
      ensures Eval(Calculate(op, a, b), st) == if Calc(op, v, w).None? then Crash(s2) else Val(Calc(op, v, w).value, s2)
    {
      hide Calc;
    }
    hide Eval, Quotient;
  }

  lemma ComparisonsMean(a: Exp, b: Exp, st: State, v: int, w: int, s1: State, s2: State)
    requires Eval(a, st) == Val(v, s1) && Eval(b, s1) == Val(w, s2)
    ensures Eval(Compare(Eq, a, b), st) == Val(if v == w then 1 else 0, s2)
    ensures Eval(Compare(Ne, a, b), st) == Val(if v != w then 1 else 0, s2)
    ensures Eval(Compare(Lt, a, b), st) == Val(if v < w then 1 else 0, s2)
    ensures Eval(Compare(Le, a, b), st) == Val(if v <= w then 1 else 0, s2)
    ensures Eval(Compare(Gt, a, b), st) == Val(if v > w then 1 else 0, s2)
    ensures Eval(Compare(Ge, a, b), st) == Val(if v >= w then 1 else 0, s2)
  {
    forall rel
      ensures Eval(Compare(rel, a, b), st) == Val(Truth(Holds(rel, v, w)), s2)
    {
      hide Holds, Truth;
    }
    hide Eval;
  }

  lemma TruthMeans(a: Exp, b: Exp, st: State, v: int, w: int, s1: State, s2: State)
    requires Eval(a, st) == Val(v, s1) && Eval(b, s1) == Val(w, s2)
    ensures Eval(And(a, b), st) == if v == 0 then Val(0, s1) else Val(if w == 0 then 0 else 1, s2)
    ensures Eval(Or(a, b), st) == if v != 0 then Val(1, s1) else Val(if w == 0 then 0 else 1, s2)
    ensures Eval(Not(a), st) == Val(if v == 0 then 1 else 0, s1) && Eval(Minus(a), st) == Val(-v, s1)
  {
  }

  datatype Outcome = Normal(st: State) | Returned(v: int, st: State) | Crashed(st: State) | Timeout(st: State)

  /** What a statement does; `fuel` bounds the rounds of each loop. */
  function Exec(s: Stmt, st: State, fuel: nat): Outcome
    decreases fuel, s
  {
    match s
    case Do(e) =>
      (match Eval(e, st)
       case Val(_, s1) => Normal(s1)
       case Crash(s1) => Crashed(s1))
    case Print(e) =>
      (match Eval(e, st)
       case Val(v, s1) => Normal(s1.(output := s1.output + [v]))
       case Crash(s1) => Crashed(s1))
    case Init(x, e) =>
      (match Eval(e, st)
       case Val(v, s1) => Normal(Put(s1, Variable(x), v))
       case Crash(s1) => Crashed(s1))
    case Block(body) => ExecAll(body, st, fuel)
    case Ret(e) =>
      (match Eval(e, st)
       case Val(v, s1) => Returned(v, s1)
       case Crash(s1) => Crashed(s1))
    case If(c, s) =>
      (match Eval(c, st)
       case Val(v, s1) => if v != 0 then Exec(s, s1, fuel) else Normal(s1)
       case Crash(s1) => Crashed(s1))
    case IfElse(c, s, t) =>
      (match Eval(c, st)
       case Val(v, s1) => if v != 0 then Exec(s, s1, fuel) else Exec(t, s1, fuel)
       case Crash(s1) => Crashed(s1))
    case While(c, s) =>
      if fuel == 0 then Timeout(st)
      else
        (match Eval(c, st)
         case Crash(s1) => Crashed(s1)
         case Val(v, s1) =>
           if v == 0 then Normal(s1)
           else
             match Exec(s, s1, fuel)
             case Normal(s2) => Exec(While(c, s), s2, fuel - 1)
             case o => o)
  }

  function ExecAll(body: seq<Stmt>, st: State, fuel: nat): Outcome
    decreases fuel, body
  {
    if body == [] then Normal(st)
    else
      match ExecAll(body[..|body| - 1], st, fuel)
      case Normal(s1) => Exec(body[|body| - 1], s1, fuel)
      case o => o
  }

  // A condition is translated unless an assignment or an arithmetic operator is on top of it.
  predicate CleanCond(e: Exp)
    decreases e, 0
  {
    match e
    case Not(f) => CleanCond(f)
    case And(a, b) => CleanCond(a) && CleanCond(b)
    case Or(a, b) => CleanCond(a) && CleanCond(b)
    case Compare(_, a, b) => CleanExp(a) && CleanExp(b)
    case Set(_, _) => false
    case Calculate(_, _, _) => false
    case Minus(f) => CleanExp(f)
    case Paren(f) => CleanExp(f)
    case _ => true
  }

  predicate CleanExp(e: Exp)
    decreases e, 1
  {
    match e
    case Set(_, f) => CleanExp(f)
    case Calculate(_, a, b) => CleanExp(a) && CleanExp(b)
    case Minus(f) => CleanExp(f)
    case Paren(f) => CleanExp(f)
    case Num(_) => true
    case Id(_) => true
    case Input => true
    case _ => CleanCond(e)
  }

  predicate CleanStmt(s: Stmt) {
    match s
    case Do(e) => CleanExp(e)
    case Print(e) => CleanExp(e)
    case Init(_, e) => CleanExp(e)
    case Block(body) => forall k :: 0 <= k < |body| ==> CleanStmt(body[k])
    case Ret(e) => CleanExp(e)
    case If(c, t) => CleanCond(c) && CleanStmt(t)
    case IfElse(c, t, u) => CleanCond(c) && CleanStmt(t) && CleanStmt(u)
    case While(c, t) => CleanCond(c) && CleanStmt(t)
  }

  // What is left of the expression if its value is not wanted is assignments.
  predicate PlaceFree(e: Exp) {
    match e
    case Paren(f) => PlaceFree(f)
    case Calculate(_, _, _) => false
    case Minus(_) => false
    case Input => false
    case _ => true
  }

  /** No operation and no reading stands as a statement of its own. */
  predicate Wanted(s: Stmt) {
    match s
    case Do(e) => PlaceFree(e)
    case Block(body) => forall k :: 0 <= k < |body| ==> Wanted(body[k])
    case If(_, t) => Wanted(t)
    case IfElse(_, t, u) => Wanted(t) && Wanted(u)
    case While(_, t) => Wanted(t)
    case _ => true
  }

  // ---------- how many labels a translation takes ----------

  function CondLabels(e: Exp): nat
    decreases e, 0
  {
    match e
    case Not(f) => CondLabels(f)
    case And(a, b) => 1 + CondLabels(a) + CondLabels(b)
    case Or(a, b) => 1 + CondLabels(a) + CondLabels(b)
    case Compare(_, a, b) => ExpLabels(a) + ExpLabels(b)
    case Minus(f) => ExpLabels(f)
    case Paren(f) => ExpLabels(f)
    case _ => 0
  }

  function ExpLabels(e: Exp): nat
    decreases e, 1
  {
    match e
    case Set(_, f) => ExpLabels(f)
    case Calculate(_, a, b) => ExpLabels(a) + ExpLabels(b)
    case Minus(f) => ExpLabels(f)
    case Paren(f) => ExpLabels(f)
    case Num(_) => 0
    case Id(_) => 0
    case Input => 0
    case _ => 2 + CondLabels(e)
  }

  function StmtLabels(s: Stmt): nat {
    match s
    case Do(e) => ExpLabels(e)
    case Print(e) => ExpLabels(e)
    case Init(_, e) => ExpLabels(e)
    case Block(body) => AllLabels(body)
    case Ret(e) => ExpLabels(e)
    case If(c, t) => 2 + CondLabels(c) + StmtLabels(t)
    case IfElse(c, t, u) => 3 + CondLabels(c) + StmtLabels(t) + StmtLabels(u)
    case While(c, t) => 3 + CondLabels(c) + StmtLabels(t)
  }

  function AllLabels(body: seq<Stmt>): nat {
    if body == [] then 0 else AllLabels(body[..|body| - 1]) + StmtLabels(body[|body| - 1])
  }
}
