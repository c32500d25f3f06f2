/** The calculator: an expression string becomes postfix with the help of an explicit operator
    stack and two priority tables; the postfix string is then evaluated on a value stack. */
module Calculator {

  // ---------- tables ----------

  predicate IsOperator(ch: char) {
    ch == '(' || ch == '^' || ch == 'o' || ch == 'm' || ch == 'c' || ch == 'a' || ch == '*' || ch == '/' || ch == '+' || ch == '-' || ch == ')'
  }

  // Priority of an operator on the stack.
  function Isp(ch: char): int {
    if ch == '(' then 1
    else if ch == '^' then 9
    else if ch == 'o' || ch == 'm' || ch == 'c' || ch == 'a' then 7
    else if ch == '*' || ch == '/' then 5
    else if ch == '+' || ch == '-' then 3
    else if ch == ')' then 10
    else 0
  }

  // Priority of an operator that arrives.
  function Icp(ch: char): int
    requires IsOperator(ch)
  {
    if ch == '(' then 10
    else if ch == '^' then 8
    else if ch == 'o' || ch == 'm' || ch == 'c' || ch == 'a' then 6
    else if ch == '*' || ch == '/' then 4
    else if ch == '+' || ch == '-' then 2
    else 1
  }

  // ---------- expressions ----------

  datatype Expr =
    | Num(text: string)
    | Bin(op: char, left: Expr, right: Expr)
    | Pre(op: char, arg: Expr)
    | Paren(inner: Expr)

  function Precedence(op: char): nat {
    if op == '+' || op == '-' then 1 else if op == '*' || op == '/' then 2 else if op == 'o' || op == 'm' || op == 'c' || op == 'a' then 3 else 4
  }

  function Level(e: Expr): nat {
    match e
    case Num(_) => 5
    case Bin(op, _, _) => Precedence(op)
    case Pre(_, _) => 3
    case Paren(_) => 5
  }

  /** Numbers are non-empty and free of operator characters; binary operators associate to the
      left; a prefix operator stands before a power or an atom. */
  predicate WellFormed(e: Expr) {
    match e
    case Num(t) => t != "" && forall i :: 0 <= i < |t| ==> !IsOperator(t[i])
    case Bin(op, l, r) =>
      (op == '+' || op == '-' || op == '*' || op == '/' || op == '^') && WellFormed(l) && WellFormed(r) && Level(l) >= Precedence(op) && Level(r) > Precedence(op)
    case Pre(op, a) => (op == 'o' || op == 'm' || op == 'c' || op == 'a') && WellFormed(a) && Level(a) >= 4
    case Paren(x) => WellFormed(x)
  }

  // Two of the prefix operators are written as three-letter names.
  function Spelling(op: char): string {
    if op == 'c' then "cjg" else if op == 'a' then "arg" else [op]
  }

  function Print(e: Expr): string {
    match e
    case Num(t) => t
    case Bin(op, l, r) => Print(l) + [op] + Print(r)
    case Pre(op, a) => Spelling(op) + Print(a)
    case Paren(x) => "(" + Print(x) + ")"
  }

  function PostOrder(e: Expr): string {
    match e
    case Num(t) => "(" + t + ")"
    case Bin(op, l, r) => PostOrder(l) + PostOrder(r) + [op]
    case Pre(op, a) => PostOrder(a) + [op]
    case Paren(x) => PostOrder(x)
  }

  // ---------- the conversion, step by step ----------

  datatype Scan = Scan(rest: string, stack: string, out: string)

  /** '#' lies at the bottom of the stack and nowhere else. */
  predicate Grounded(st: string) {
    st != "" && st[0] == '#' && forall i :: 0 < i < |st| ==> IsOperator(st[i])
  }

  function Top(st: string): char
    requires st != ""
  {
    st[|st| - 1]
  }

  function Popped(st: string): string
    requires st != ""
  {
    st[..|st| - 1]
  }

  // The stack after popping everything that binds tighter than the incoming `x`, and what was popped.
  function PopWhile(st: string, x: char): (r: (string, string))
    requires Grounded(st) && IsOperator(x)
    ensures Grounded(r.0) && |r.0| <= |st|
    ensures !(Icp(x) < Isp(Top(r.0)))
    ensures Icp(x) < Isp(Top(st)) ==> |r.0| < |st|
  {
    if Icp(x) < Isp(Top(st)) then
      var r := PopWhile(Popped(st), x);
      (r.0, [Top(st)] + r.1)
    else
      (st, "")
  }

  function NumberLength(s: string): (n: nat)
    ensures n <= |s|
    ensures forall i :: 0 <= i < n ==> !IsOperator(s[i])
    ensures n < |s| ==> IsOperator(s[n])
  {
    if s == "" || IsOperator(s[0]) then 0 else 1 + NumberLength(s[1..])
  }

  function Advance(x: char, s: string): nat
    requires s != ""
  {
    if x == 'c' || x == 'a' then (if |s| < 3 then |s| else 3) else 1
  }

  function Step(s: Scan): (r: Scan)
    requires s.rest != "" && Grounded(s.stack)
    ensures Grounded(r.stack) && |r.rest| <= |s.rest|
    ensures |r.rest| < |s.rest| || (r.rest == s.rest && |r.stack| < |s.stack|)
  {
    var x := s.rest[0];
    if IsOperator(x) then
      if Icp(x) > Isp(Top(s.stack)) then
        Scan(s.rest[Advance(x, s.rest)..], s.stack + [x], s.out)
      else if Icp(x) < Isp(Top(s.stack)) then
        var p := PopWhile(s.stack, x);
        Scan(s.rest, p.0, s.out + p.1)
      else if Top(s.stack) == '(' then
        Scan(s.rest[1..], Popped(s.stack), s.out)
      else
        Scan(s.rest, Popped(s.stack), s.out)
    else
      var n := NumberLength(s.rest);
      Scan(s.rest[n..], s.stack, s.out + "(" + s.rest[..n] + ")")
  }

  function Reversed(s: string): string {
    if s == "" then "" else [Top(s)] + Reversed(Popped(s))
  }

  function Finish(s: Scan): string
    requires Grounded(s.stack)
    decreases |s.rest|, |s.stack|
  {
    if s.rest == "" then s.out + Reversed(s.stack[1..]) else Finish(Step(s))
  }

  function PostFix(text: string): string {
    Finish(Scan(text, "#", ""))
  }

  // ---------- reading a whole expression ----------

  predicate IsBinary(c: char) {
    c == '+' || c == '-' || c == '*' || c == '/' || c == '^'
  }

  predicate IsUnary(c: char) {
    c == 'o' || c == 'm' || c == 'c' || c == 'a'
  }

  predicate Operators(s: string) {
    forall i :: 0 <= i < |s| ==> IsBinary(s[i]) || IsUnary(s[i])
  }

  /** Numbers are non-empty and free of operator characters; any operand may stand anywhere. */
  predicate Lexical(e: Expr) {
    match e
    case Num(t) => t != "" && forall i :: 0 <= i < |t| ==> !IsOperator(t[i])
    case Bin(op, l, r) => IsBinary(op) && Lexical(l) && Lexical(r)
    case Pre(op, a) => IsUnary(op) && Lexical(a)
    case Paren(x) => Lexical(x)
  }

  // What `x` leaves of the operators `s`, and what it removes: all that bind at least as tightly, from the top.
  function Cut(s: string, x: char): (r: (string, string))
    ensures |r.0| + |r.1| == |s|
  {
    if s != "" && Precedence(Top(s)) >= Precedence(x) then
      var r := Cut(Popped(s), x);
      (r.0, [Top(s)] + r.1)
    else
      (s, "")
  }

  /** The operators on the stack after the expression, if those before it are `s`, and what is put out meanwhile. */
  function Take(e: Expr, s: string): (string, string)
    decreases e, 1
  {
    match e
    case Num(t) => (s, "(" + t + ")")
    case Bin(op, l, r) =>
      var a := Take(l, s);
      var c := Cut(a.0, op);
      var b := Take(r, c.0 + [op]);
      (b.0, a.1 + c.1 + b.1)
    case Pre(op, a) =>
      var c := Cut(s, op);
      var b := Take(a, c.0 + [op]);
      (b.0, c.1 + b.1)
    case Paren(x) => (s, Converted(x))
  }

  function Converted(e: Expr): string
    decreases e, 2
  {
    var r := Take(e, "");
    r.1 + Reversed(r.0)
  }

  // A stack up to the operators of one pair of parentheses, or of the whole text.
  predicate Floor(st: string) {
    Grounded(st) && (Top(st) == '#' || Top(st) == '(')
  }

  lemma Assoc(a: string, b: string, c: string)
    ensures (a + b) + c == a + (b + c)
  {
  }

  lemma {:induction false} ReversedAppend(a: string, b: string)
    ensures Reversed(a + b) == Reversed(b) + Reversed(a)
    decreases |b|
  {
    if b == "" {
      assert a + b == a;
    } else {
      assert Popped(a + b) == a + Popped(b) && Top(a + b) == Top(b);
      ReversedAppend(a, Popped(b));
      Assoc([Top(b)], Reversed(Popped(b)), Reversed(a));
    }
  }

  lemma {:induction false} PopPending(st: string, p: string, x: char)
    requires Grounded(st) && Grounded(st + p) && IsOperator(x) && !(Icp(x) < Isp(Top(st)))
    requires forall i :: 0 <= i < |p| ==> Icp(x) < Isp(p[i])
    ensures PopWhile(st + p, x) == (st, Reversed(p))
    decreases |p|
  {
    if p == "" {
      assert st + p == st;
    } else {
      assert Popped(st + p) == st + Popped(p);
      PopPending(st, Popped(p), x);
    }
  }

  // An operator that binds less tightly than the top of the stack removes all that bind tighter.
  lemma PopStep(x: char, rest: string, st: string, out: string)
    requires Grounded(st) && IsOperator(x) && Icp(x) < Isp(Top(st))
    ensures var s, p := Scan([x] + rest, st, out), PopWhile(st, x);
      Step(s) == Scan([x] + rest, p.0, out + p.1) && Finish(s) == Finish(Step(s))
  {
    var s := Scan([x] + rest, st, out);
    assert s.rest[0] == x && s.rest != "";
    hide Isp, Icp, PopWhile;
  }

  lemma {:induction false} NumberEnds(t: string, rest: string)
    requires forall i :: 0 <= i < |t| ==> !IsOperator(t[i])
    requires rest == "" || IsOperator(rest[0])
    ensures NumberLength(t + rest) == |t|
  {
    assert forall i :: 0 <= i < |t| ==> (t + rest)[i] == t[i];
    assert rest != "" ==> (t + rest)[|t|] == rest[0];
  }

  // An operator that binds tighter than the top of the stack is pushed.
  lemma PushStep(spelling: string, x: char, rest: string, st: string, out: string)
    requires Grounded(st) && IsOperator(x) && x != ')' && Icp(x) > Isp(Top(st)) && spelling == Spelling(x)
    ensures Grounded(st + [x])
    ensures Finish(Scan(spelling + rest, st, out)) == Finish(Scan(rest, st + [x], out))
  {
    var s := spelling + rest;
    assert s[0] == x && s[Advance(x, s)..] == rest;
    assert Step(Scan(s, st, out)) == Scan(rest, st + [x], out);
  }

  lemma ReadNumber(t: string, rest: string, st: string, out: string)
    requires Lexical(Num(t)) && Grounded(st) && (rest == "" || IsOperator(rest[0]))
    ensures Finish(Scan(t + rest, st, out)) == Finish(Scan(rest, st, out + ("(" + t + ")")))
  {
    NumberEnds(t, rest);
    assert !IsOperator((t + rest)[0]);
    assert (t + rest)[|t|..] == rest && (t + rest)[..|t|] == t;
    assert out + "(" + t + ")" == out + ("(" + t + ")");
  }

  lemma CloseParen(rest: string, st: string, out: string)
    requires Grounded(st)
    ensures Finish(Scan([')'] + rest, st + ['('], out)) == Finish(Scan(rest, st, out))
  {
    var s := Scan([')'] + rest, st + ['('], out);
    assert Popped(st + ['(']) == st && ([')'] + rest)[1..] == rest;
    assert Step(s) == Scan(rest, st, out);
  }

  lemma {:induction false} CutOps(s: string, x: char)
    requires Operators(s)
    ensures Operators(Cut(s, x).0) && Operators(Cut(s, x).1)
    decreases |s|
  {
    if s != "" { CutOps(Popped(s), x); }
  }

  lemma {:induction false} CutPops(st: string, s: string, x: char)
    requires Floor(st) && Operators(s) && (IsBinary(x) || IsUnary(x))
    ensures Grounded(st + s) && PopWhile(st + s, x) == (st + Cut(s, x).0, Cut(s, x).1)
    decreases |s|
  {
    if s == "" {
      assert st + s == st;
    } else {
      assert Popped(st + s) == st + Popped(s) && Top(st + s) == Top(s);
      Parity(Top(s), x);
      CutPops(st, Popped(s), x);
      assert Grounded(st + s);
      hide Grounded, Isp, Icp, Precedence, IsBinary, IsUnary, Operators, Floor, IsOperator;
    }
  }

  lemma Parity(y: char, x: char)
    requires (IsBinary(x) || IsUnary(x)) && (IsBinary(y) || IsUnary(y))
    ensures Icp(x) < Isp(y) <==> Precedence(y) >= Precedence(x)
  {
  }

  // An operator comes in.
  lemma Arrives(x: char, rest: string, st: string, s: string, out: string)
    requires Floor(st) && Operators(s) && (IsBinary(x) || IsUnary(x))
    ensures Operators(Cut(s, x).0 + [x]) && Grounded(st + s) && Grounded(st + (Cut(s, x).0 + [x]))
    ensures Finish(Scan(Spelling(x) + rest, st + s, out))
         == Finish(Scan(rest, st + (Cut(s, x).0 + [x]), out + Cut(s, x).1))
  {
    CutOps(s, x);
    CutPops(st, s, x);
    var kept, gone := Cut(s, x).0, Cut(s, x).1;
    assert Grounded(st + kept) && !(Icp(x) < Isp(Top(st + kept)));
    Popping(x, rest, st + s, out);
    PushAfter(x, rest, st + kept, out + gone);
    Assoc(st, kept, [x]);
  }

  lemma Popping(x: char, rest: string, st: string, out: string)
    requires Grounded(st) && (IsBinary(x) || IsUnary(x))
    ensures var p := PopWhile(st, x);
      Finish(Scan(Spelling(x) + rest, st, out)) == Finish(Scan(Spelling(x) + rest, p.0, out + p.1))
  {
    if Icp(x) < Isp(Top(st)) {
      var more := Spelling(x)[1..] + rest;
      assert Spelling(x) + rest == [x] + more;
      hide Spelling, Icp, Isp, PopWhile;
      PopStep(x, more, st, out);
    } else {
      assert out + "" == out;
    }
  }

  // The levels of stack and input differ in parity, so that nothing binds equally.
  lemma PushAfter(x: char, rest: string, st: string, out: string)
    requires Grounded(st) && (IsBinary(x) || IsUnary(x)) && !(Icp(x) < Isp(Top(st)))
    ensures Grounded(st + [x]) && Finish(Scan(Spelling(x) + rest, st, out)) == Finish(Scan(rest, st + [x], out))
  {
    assert Icp(x) > Isp(Top(st));
    PushStep(Spelling(x), x, rest, st, out);
  }

  // A closing parenthesis removes everything down to the opening one.
  lemma Closes(rest: string, st: string, s: string, out: string)
    requires Grounded(st) && Operators(s)
    ensures Grounded((st + ['(']) + s)
    ensures Finish(Scan([')'] + rest, (st + ['(']) + s, out)) == Finish(Scan(rest, st, out + Reversed(s)))
  {
    var floor := st + ['('];
    assert Grounded(floor + s);
    PopPending(floor, s, ')');
    if s == "" {
      assert floor + s == floor && out + Reversed(s) == out;
    } else {
      assert Top(floor + s) == Top(s);
      PopStep(')', rest, floor + s, out);
    }
    CloseParen(rest, st, out + Reversed(s));
  }

  /** Reading a printed expression, whatever its operands: the stack and the output afterwards. */
  lemma {:induction false} Reads(e: Expr, rest: string, st: string, s: string, out: string)
    requires Lexical(e) && Floor(st) && Operators(s) && (rest == "" || IsOperator(rest[0]))
    ensures Operators(Take(e, s).0) && Grounded(st + s) && Grounded(st + Take(e, s).0)
    ensures Finish(Scan(Print(e) + rest, st + s, out)) == Finish(Scan(rest, st + Take(e, s).0, out + Take(e, s).1))
    decreases e, 0
  {
    match e
    case Num(t) => ReadNumber(t, rest, st + s, out);
    case Bin(op, l, r) =>
      var more := [op] + (Print(r) + rest);
      var a := Take(l, s);
      var c := Cut(a.0, op);
      assert Spelling(op) == [op] && IsOperator(more[0]);
      Reads(l, more, st, s, out);
      Arrives(op, Print(r) + rest, st, a.0, out + a.1);
      Reads(r, rest, st, c.0 + [op], out + a.1 + c.1);
      hide *;
      PrintBin(e, rest);
      Assoc(out + a.1, c.1, Take(r, c.0 + [op]).1);
      Assoc(out, a.1, c.1 + Take(r, c.0 + [op]).1);
      Assoc(a.1, c.1, Take(r, c.0 + [op]).1);
      TakeParts(e, s);
    case Pre(op, a) =>
      var c := Cut(s, op);
      Arrives(op, Print(a) + rest, st, s, out);
      Reads(a, rest, st, c.0 + [op], out + c.1);
      Assoc(Spelling(op), Print(a), rest);
      Assoc(out, c.1, Take(a, c.0 + [op]).1);
    case Paren(x) =>
      ReadsParen(x, rest, st, s, out);
  }

  lemma {:induction false} ReadsParen(x: Expr, rest: string, st: string, s: string, out: string)
    requires Lexical(x) && Floor(st) && Operators(s) && (rest == "" || IsOperator(rest[0]))
    ensures Grounded(st + s)
    ensures Finish(Scan(Print(Paren(x)) + rest, st + s, out)) == Finish(Scan(rest, st + s, out + Converted(x)))
    decreases x, 1
  {
    var floor := (st + s) + ['('];
    var r := Take(x, "");
    assert Grounded(st + s) && Floor(floor) && Icp('(') > Isp(Top(st + s)) && (")" + rest)[0] == ')';
    Reads(x, ")" + rest, floor, "", out);
    assert floor + "" == floor;
    PushStep("(", '(', Print(x) + (")" + rest), st + s, out);
    Closes(rest, st + s, r.0, out + r.1);
    hide Finish, Print, Take, Reversed;
    Assoc("(" + Print(x), ")", rest);
    Assoc("(", Print(x), ")" + rest);
    Assoc(out, r.1, Reversed(r.0));
  }

  lemma PrintBin(e: Expr, rest: string)
    requires e.Bin?
    ensures Print(e) + rest == Print(e.left) + ([e.op] + (Print(e.right) + rest))
  {
    Assoc(Print(e.left) + [e.op], Print(e.right), rest);
    Assoc(Print(e.left), [e.op], Print(e.right) + rest);
  }

  lemma TakeParts(e: Expr, s: string)
    requires e.Bin?
    ensures var a := Take(e.left, s);
      var c := Cut(a.0, e.op);
      var b := Take(e.right, c.0 + [e.op]);
      Take(e, s) == (b.0, a.1 + c.1 + b.1)
  {
  }

  lemma PostFixIsConverted(e: Expr)
    requires Lexical(e)
    ensures PostFix(Print(e)) == Converted(e)
  {
    var r := Take(e, "");
    Reads(e, "", "#", "", "");
    assert Print(e) + "" == Print(e) && "#" + "" == "#" && "" + r.1 == r.1;
    assert ("#" + r.0)[1..] == r.0;
  }

  // ---------- numbers less operators ----------

  // How many values a postfix string leaves.
  function Depth(s: string): int {
    if s == "" then 0
    else Depth(Popped(s)) + if Top(s) == '(' then 1 else if IsBinary(Top(s)) then -1 else 0
  }

  lemma {:induction false} DepthPlus(a: string, b: string)
    ensures Depth(a + b) == Depth(a) + Depth(b)
    decreases |b|
  {
    if b == "" {
      assert a + b == a;
    } else {
      assert Popped(a + b) == a + Popped(b) && Top(a + b) == Top(b);
      DepthPlus(a, Popped(b));
    }
  }

  lemma {:induction false} DepthReversed(s: string)
    ensures Depth(Reversed(s)) == Depth(s) && |Reversed(s)| == |s|
    decreases |s|
  {
    if s != "" {
      DepthReversed(Popped(s));
      DepthPlus([Top(s)], Reversed(Popped(s)));
      assert Popped([Top(s)]) == "" && Top([Top(s)]) == Top(s);
      assert Depth([Top(s)]) == Depth("") + if Top(s) == '(' then 1 else if IsBinary(Top(s)) then -1 else 0;
    }
  }

  lemma {:induction false} DepthText(t: string)
    requires forall i :: 0 <= i < |t| ==> !IsOperator(t[i])
    ensures Depth(t) == 0
    decreases |t|
  {
    if t != "" { DepthText(Popped(t)); }
  }

  lemma DepthOne(c: char)
    ensures Depth([c]) == if c == '(' then 1 else if IsBinary(c) then -1 else 0
  {
    assert Popped([c]) == "" && Top([c]) == c;
  }

  // The beginnings of a number in parentheses.
  lemma DepthNumber(t: string, k: nat)
    requires Lexical(Num(t)) && 0 < k <= |t| + 2
    ensures Depth(("(" + t + ")")[..k]) == 1
  {
    var s := "(" + t + ")";
    DepthOne('(');
    DepthOne(')');
    if k <= |t| + 1 {
      assert s[..k] == "(" + t[..k - 1];
      DepthText(t[..k - 1]);
      DepthPlus("(", t[..k - 1]);
    } else {
      assert s[..k] == s;
      DepthText(t);
      DepthPlus("(", t);
      DepthPlus("(" + t, ")");
    }
  }

  lemma {:induction false} DepthCut(s: string, x: char)
    ensures Depth(Cut(s, x).0) + Depth(Cut(s, x).1) == Depth(s)
    decreases |s|
  {
    if s != "" && Precedence(Top(s)) >= Precedence(x) {
      DepthCut(Popped(s), x);
      DepthPlus([Top(s)], Cut(Popped(s), x).1);
      DepthOne(Top(s));
    }
  }

  /** Nothing is lost: reading adds one value, and as many characters as the postorder has. */
  lemma {:induction false} TakeKeeps(e: Expr, s: string)
    requires Lexical(e)
    ensures |Take(e, s).0| + |Take(e, s).1| == |s| + |PostOrder(e)|
    ensures Depth(Take(e, s).0) + Depth(Take(e, s).1) == Depth(s) + 1
    decreases e, 0
  {
    match e
    case Num(t) =>
      DepthNumber(t, |t| + 2);
      assert ("(" + t + ")")[..|t| + 2] == "(" + t + ")";
    case Bin(op, l, r) =>
      var a := Take(l, s);
      var c := Cut(a.0, op);
      var b := Take(r, c.0 + [op]);
      TakeKeeps(l, s);
      TakeKeeps(r, c.0 + [op]);
      TakeParts(e, s);
      DepthCut(a.0, op);
      DepthOne(op);
      DepthPlus(c.0, [op]);
      DepthPlus(a.1, c.1);
      DepthPlus(a.1 + c.1, b.1);
    case Pre(op, a) =>
      var c := Cut(s, op);
      var b := Take(a, c.0 + [op]);
      TakeKeeps(a, c.0 + [op]);
      DepthCut(s, op);
      DepthOne(op);
      DepthPlus(c.0, [op]);
      DepthPlus(c.1, b.1);
    case Paren(x) =>
      ConvertedKeeps(x);
  }

  lemma {:induction false} ConvertedKeeps(e: Expr)
    requires Lexical(e)
    ensures |Converted(e)| == |PostOrder(e)| && Depth(Converted(e)) == 1
    decreases e, 1
  {
    var r := Take(e, "");
    TakeKeeps(e, "");
    DepthReversed(r.0);
    DepthPlus(r.1, Reversed(r.0));
  }

  /** Each beginning of a postorder leaves a value. */
  lemma {:induction false} PostOrderDepth(e: Expr, k: nat)
    requires Lexical(e) && 0 < k <= |PostOrder(e)|
    ensures Depth(PostOrder(e)[..k]) >= 1 && Depth(PostOrder(e)) == 1
    ensures e.Bin? && |PostOrder(e.left)| < k < |PostOrder(e)| ==> Depth(PostOrder(e)[..k]) >= 2
    decreases e, 1
  {
    match e
    case Num(t) =>
      DepthNumber(t, k);
      DepthNumber(t, |t| + 2);
      assert PostOrder(e)[..|t| + 2] == PostOrder(e);
    case Bin(op, l, r) =>
      BinDepth(e, k);
    case Pre(op, a) =>
      var w := PostOrder(a);
      PostOrderLong(a);
      DepthOne(op);
      DepthPlus(w, [op]);
      PostOrderDepth(a, if k <= |w| then k else |w|);
      if k <= |w| { assert (w + [op])[..k] == w[..k]; } else { assert (w + [op])[..k] == w + [op]; }
    case Paren(x) => PostOrderDepth(x, k);
  }

  lemma {:induction false} BinDepth(e: Expr, k: nat)
    requires e.Bin? && Lexical(e) && 0 < k <= |PostOrder(e)|
    ensures Depth(PostOrder(e)[..k]) >= 1 && Depth(PostOrder(e)) == 1
    ensures |PostOrder(e.left)| < k < |PostOrder(e)| ==> Depth(PostOrder(e)[..k]) >= 2
    decreases e, 0
  {
    var op, l, r := e.op, e.left, e.right;
    var a, b := PostOrder(l), PostOrder(r);
    var w := a + b + [op];
    assert w == PostOrder(e) && Lexical(l) && Lexical(r);
    PostOrderLong(l);
    PostOrderLong(r);
    PostOrderDepth(l, if k <= |a| then k else |a|);
    PostOrderDepth(r, if |a| < k <= |a| + |b| then k - |a| else |b|);
    DepthOne(op);
    DepthPlus(a, b);
    DepthPlus(a + b, [op]);
    hide PostOrder, Lexical, Depth;
    if k <= |a| {
      assert w[..k] == a[..k];
    } else if k <= |a| + |b| {
      assert w[..k] == a + b[..k - |a|];
      DepthPlus(a, b[..k - |a|]);
    } else {
      assert w[..k] == w;
    }
  }

  lemma {:induction false} PostOrderLong(e: Expr)
    ensures Lexical(e) ==> |PostOrder(e)| > 0
  {
    match e
    case Num(_) =>
    case Bin(_, l, r) => PostOrderLong(l);
    case Pre(_, a) => PostOrderLong(a);
    case Paren(x) => PostOrderLong(x);
  }

  // ---------- the weakest operator outside parentheses ----------

  function Weakest(e: Expr): (w: nat)
    ensures w <= 5 && w <= Level(e)
  {
    match e
    case Num(_) => 5
    case Bin(op, l, r) => Least(Precedence(op), Least(Weakest(l), Weakest(r)))
    case Pre(op, a) => Least(3, Weakest(a))
    case Paren(_) => 5
  }

  function Least(a: nat, b: nat): nat {
    if a <= b then a else b
  }

  // From the bottom of the stack up operators bind ever more tightly.
  predicate Rising(s: string) {
    forall i, j :: 0 <= i < j < |s| ==> Precedence(s[i]) < Precedence(s[j])
  }

  predicate AtLeast(s: string, m: nat) {
    forall i :: 0 <= i < |s| ==> Precedence(s[i]) >= m
  }

  // The bottom of the stack with `x` pushed is weaker than all before, or `x`.
  lemma {:induction false} CutRising(s: string, x: char)
    requires Rising(s)
    ensures var kept := Cut(s, x).0; kept <= s && Rising(kept + [x]) && (kept == "" <==> s == "" || Precedence(s[0]) >= Precedence(x))
    decreases |s|
  {
    if s != "" && Precedence(Top(s)) >= Precedence(x) {
      CutRising(Popped(s), x);
    }
  }

  lemma {:induction false} CutAll(s: string, x: char)
    requires AtLeast(s, Precedence(x))
    ensures Cut(s, x) == ("", Reversed(s))
    decreases |s|
  {
    if s != "" { CutAll(Popped(s), x); }
  }

  /** At the bottom stays one of the weakest operators. */
  lemma {:induction false} Bottom(e: Expr, s: string)
    requires Lexical(e) && Rising(s)
    ensures var t := Take(e, s).0;
      && Rising(t)
      && (s != "" ==> t != "" && Precedence(t[0]) <= Precedence(s[0]))
      && (Weakest(e) < 5 ==> t != "" && Precedence(t[0]) <= Weakest(e))
    decreases e
  {
    match e
    case Num(_) =>
    case Bin(op, l, r) =>
      var a := Take(l, s);
      var c := Cut(a.0, op);
      TakeParts(e, s);
      Bottom(l, s);
      CutRising(a.0, op);
      Bottom(r, c.0 + [op]);
    case Pre(op, a) =>
      var c := Cut(s, op);
      CutRising(s, op);
      Bottom(a, c.0 + [op]);
    case Paren(_) =>
  }

  lemma {:induction false} CutAtLeast(s: string, x: char, m: nat)
    requires AtLeast(s, m)
    ensures AtLeast(Cut(s, x).0, m)
    decreases |s|
  {
    if s != "" { CutAtLeast(Popped(s), x, m); }
  }

  lemma {:induction false} TakeAtLeast(e: Expr, s: string, m: nat)
    requires AtLeast(s, m) && Weakest(e) >= m && Lexical(e)
    ensures AtLeast(Take(e, s).0, m)
    decreases e
  {
    match e
    case Num(_) =>
    case Bin(op, l, r) =>
      TakeParts(e, s);
      TakeAtLeast(l, s, m);
      CutAtLeast(Take(l, s).0, op, m);
      TakeAtLeast(r, Cut(Take(l, s).0, op).0 + [op], m);
    case Pre(op, a) =>
      CutAtLeast(s, op, m);
      TakeAtLeast(a, Cut(s, op).0 + [op], m);
    case Paren(_) =>
  }

  lemma {:induction false} CutAbove(x: char, s: string, y: char)
    requires Precedence(x) < Precedence(y)
    ensures Cut([x] + s, y) == ([x] + Cut(s, y).0, Cut(s, y).1)
    decreases |s|
  {
    if s == "" {
      assert [x] + s == [x];
    } else {
      assert Popped([x] + s) == [x] + Popped(s) && Top([x] + s) == Top(s);
      CutAbove(x, Popped(s), y);
    }
  }

  /** An operator that is weaker than all of the expression stays below it. */
  lemma {:induction false} TakeAbove(e: Expr, x: char, s: string)
    requires Lexical(e) && Weakest(e) > Precedence(x)
    ensures Take(e, [x] + s) == ([x] + Take(e, s).0, Take(e, s).1)
    decreases e
  {
    match e
    case Num(_) =>
    case Bin(op, l, r) =>
      var a := Take(l, s);
      TakeParts(e, s);
      TakeParts(e, [x] + s);
      TakeAbove(l, x, s);
      CutAbove(x, a.0, op);
      Assoc([x], Cut(a.0, op).0, [op]);
      TakeAbove(r, x, Cut(a.0, op).0 + [op]);
    case Pre(op, a) =>
      CutAbove(x, s, op);
      Assoc([x], Cut(s, op).0, [op]);
      TakeAbove(a, x, Cut(s, op).0 + [op]);
    case Paren(_) =>
  }

  /** Some beginning of `o` leaves no more than `d` values. */
  ghost predicate Short(o: string, d: int) {
    exists k :: 1 <= k <= |o| && Depth(o[..k]) <= d
  }

  lemma ShortStart(a: string, b: string, d: int)
    requires Short(a, d)
    ensures Short(a + b, d)
  {
    var k :| 1 <= k <= |a| && Depth(a[..k]) <= d;
    assert (a + b)[..k] == a[..k];
  }

  lemma ShortWhole(a: string, b: string)
    requires a != ""
    ensures Short(a + b, Depth(a))
  {
    assert (a + b)[..|a|] == a;
  }

  lemma ShortAfter(a: string, b: string, d: int)
    requires Short(b, d)
    ensures Short(a + b, Depth(a) + d)
  {
    var k :| 1 <= k <= |b| && Depth(b[..k]) <= d;
    assert (a + b)[..|a| + k] == a + b[..k];
    DepthPlus(a, b[..k]);
  }

  // One value may be there if the operator that comes in is a binary one.
  function Slack(w: nat, s: string): int
    requires s != ""
  {
    if Precedence(s[0]) == 3 && w == 3 then 0 else 1
  }

  /** One that is not stronger than all of it is put out too early: at that moment the output has too few values. */
  lemma {:induction false} Emptied(e: Expr, s: string)
    requires Lexical(e) && Rising(s) && s != "" && Weakest(e) <= Precedence(s[0]) <= 4
    ensures Short(Take(e, s).1, Depth(s) + Slack(Weakest(e), s))
    decreases e, 1
  {
    match e
    case Num(_) => assert false;
    case Paren(_) => assert false;
    case Bin(op, l, r) =>
      EmptiedBin(e, s);
    case Pre(op, a) =>
      EmptiedPrefix(e, s);
  }

  lemma {:induction false} EmptiedPrefix(e: Expr, s: string)
    requires e.Pre? && Lexical(e) && Rising(s) && s != "" && Weakest(e) <= Precedence(s[0]) <= 4
    ensures Short(Take(e, s).1, Depth(s) + Slack(Weakest(e), s))
    decreases e, 0
  {
    hide *;
    var op, a := e.op, e.arg;
    var c := Cut(s, op);
    var b := Take(a, c.0 + [op]);
    PreWeakest(e, s);
    BottomPushed(s, op);
    DepthPushed(s, op);
    SlackBounds(Weakest(e), s);
    if c.0 == "" {
      ShortWhole(c.1, b.1);
      Looser(c.1 + b.1, Depth(c.1), Depth(s) + Slack(Weakest(e), s));
    } else {
      SlackBounds(Weakest(a), c.0 + [op]);
      Emptied(a, c.0 + [op]);
      ShortAfter(c.1, b.1, Depth(c.0 + [op]) + Slack(Weakest(a), c.0 + [op]));
    }
  }

  lemma SlackBounds(w: nat, s: string)
    requires s != ""
    ensures 0 <= Slack(w, s) <= 1 && (Precedence(s[0]) != 3 || w != 3 ==> Slack(w, s) == 1) && (Precedence(s[0]) == 3 && w == 3 ==> Slack(w, s) == 0)
  {
  }

  lemma PreWeakest(e: Expr, s: string)
    requires e.Pre? && Lexical(e)
    ensures Lexical(e.arg) && !IsBinary(e.op) && e.op != '(' && Precedence(e.op) == 3
    ensures Weakest(e) <= 3 && Weakest(e) <= Weakest(e.arg) && (Weakest(e) == 3 || Weakest(e) == Weakest(e.arg))
    ensures var c := Cut(s, e.op);
      var b := Take(e.arg, c.0 + [e.op]);
      Take(e, s) == (b.0, c.1 + b.1)
  {
  }

  lemma Place(o: string, d: int) returns (k: nat)
    requires Short(o, d)
    ensures 1 <= k <= |o| && Depth(o[..k]) <= d
  {
    k :| 1 <= k <= |o| && Depth(o[..k]) <= d;
  }

  lemma Looser(o: string, c: int, d: int)
    requires Short(o, c) && c <= d
    ensures Short(o, d)
  {
    var k :| 1 <= k <= |o| && Depth(o[..k]) <= c;
  }

  lemma {:induction false} EmptiedBin(e: Expr, s: string)
    requires e.Bin? && Lexical(e) && Rising(s) && s != "" && Weakest(e) <= Precedence(s[0]) <= 4
    ensures Short(Take(e, s).1, Depth(s) + Slack(Weakest(e), s))
    decreases e, 0
  {
    hide *;
    var op, l, r := e.op, e.left, e.right;
    var a := Take(l, s);
    var c := Cut(a.0, op);
    var b := Take(r, c.0 + [op]);
    BinWeakest(e);
    TakeParts(e, s);
    SlackBounds(Weakest(e), s);
    if Weakest(l) <= Precedence(s[0]) {
      EmptiedLeft(e, s);
      ShortStart(a.1 + c.1, b.1, Depth(s) + Slack(Weakest(e), s));
    } else {
      BottomStays(l, s);
      TakeKeeps(l, s);
      BottomPushed(a.0, op);
      DepthPushed(a.0, op);
      DepthPlus(a.1, c.1);
      if c.0 == "" {
        ShortWhole(a.1 + c.1, b.1);
      } else {
        SlackBounds(Weakest(r), c.0 + [op]);
        Emptied(r, c.0 + [op]);
        Looser(b.1, Depth(c.0 + [op]) + Slack(Weakest(r), c.0 + [op]), Depth(c.0) - 1 + Slack(Weakest(e), s));
        ShortAfter(a.1 + c.1, b.1, Depth(c.0) - 1 + Slack(Weakest(e), s));
      }
    }
  }

  lemma {:induction false} EmptiedLeft(e: Expr, s: string)
    requires e.Bin? && Lexical(e) && Rising(s) && s != "" && Weakest(e.left) <= Precedence(s[0]) <= 4
    ensures var a := Take(e.left, s).1; Short(a + Cut(Take(e.left, s).0, e.op).1, Depth(s) + Slack(Weakest(e), s))
    decreases e.left, 2
  {
    hide *;
    var a := Take(e.left, s);
    BinWeakest(e);
    SlackBounds(Weakest(e), s);
    SlackBounds(Weakest(e.left), s);
    Emptied(e.left, s);
    Looser(a.1, Depth(s) + Slack(Weakest(e.left), s), Depth(s) + Slack(Weakest(e), s));
    ShortStart(a.1, Cut(a.0, e.op).1, Depth(s) + Slack(Weakest(e), s));
  }

  lemma BinWeakest(e: Expr)
    requires e.Bin? && Lexical(e)
    ensures Lexical(e.left) && Lexical(e.right) && IsBinary(e.op) && Precedence(e.op) != 3
    ensures Weakest(e) <= Precedence(e.op) && Weakest(e) <= Weakest(e.left) && Weakest(e) <= Weakest(e.right)
    ensures Weakest(e) == Precedence(e.op) || Weakest(e) == Weakest(e.left) || Weakest(e) == Weakest(e.right)
  {
  }

  lemma BottomStays(l: Expr, s: string)
    requires Lexical(l) && Rising(s) && s != "" && Weakest(l) > Precedence(s[0])
    ensures var t := Take(l, s).0; t != "" && t[0] == s[0] && Rising(t)
  {
    Bottom(l, s);
    TakeAbove(l, s[0], s[1..]);
    assert s == [s[0]] + s[1..];
  }

  lemma DepthPushed(s: string, x: char)
    ensures var c := Cut(s, x);
      Depth(c.0 + [x]) == Depth(c.0) - (if IsBinary(x) then 1 else if x == '(' then -1 else 0) && Depth(c.0) + Depth(c.1) == Depth(s)
  {
    DepthCut(s, x);
    DepthPlus(Cut(s, x).0, [x]);
    DepthOne(x);
  }

  // After pushing `x` the bottom is what it was, or `x` itself, and then `x` is no stronger.
  lemma BottomPushed(s: string, x: char)
    requires Rising(s) && s != ""
    ensures var kept := Cut(s, x).0;
      && Rising(kept + [x]) && |kept| + |Cut(s, x).1| == |s|
      && (kept == "" ==> Precedence(x) <= Precedence(s[0]) && Depth(kept) == 0)
      && (kept != "" ==> (kept + [x])[0] == s[0] && Precedence(x) > Precedence(s[0]))
  {
    CutRising(s, x);
  }

  // ---------- the rules are exact ----------

  /** Where the root is the last of the weakest operators, operands are converted one by one. */
  lemma Splits(op: char, l: Expr, r: Expr)
    requires Lexical(Bin(op, l, r)) && Weakest(l) >= Precedence(op) && Weakest(r) > Precedence(op)
    ensures Converted(Bin(op, l, r)) == Converted(l) + Converted(r) + [op]
  {
    FirstOperand(op, l, r);
    TakeAbove(r, op, "");
    var b := Take(r, "");
    assert [op] + "" == [op];
    ReversedAppend([op], b.0);
    assert Reversed([op]) == [op];
    hide Take, Reversed;
    Assoc(b.1, Reversed(b.0), [op]);
    Assoc(Converted(l), b.1, Reversed(b.0) + [op]);
    Assoc(Converted(l), b.1 + Reversed(b.0), [op]);
  }

  // The operator removes all that is left of its first operand.
  lemma FirstOperand(op: char, l: Expr, r: Expr)
    requires Lexical(Bin(op, l, r)) && Weakest(l) >= Precedence(op)
    ensures Take(Bin(op, l, r), "") == (Take(r, [op]).0, Converted(l) + Take(r, [op]).1)
  {
    TakeParts(Bin(op, l, r), "");
    TakeAtLeast(l, "", Precedence(op));
    CutAll(Take(l, "").0, op);
    assert "" + [op] == [op];
  }

  lemma SplitsPrefix(op: char, a: Expr)
    requires Lexical(Pre(op, a)) && Weakest(a) > 3
    ensures Converted(Pre(op, a)) == Converted(a) + [op]
  {
    PrefixTake(op, a);
    TakeAbove(a, op, "");
    var b := Take(a, "");
    assert [op] + "" == [op];
    ReversedAppend([op], b.0);
    assert Reversed([op]) == [op];
    hide Take, Reversed;
    Assoc(b.1, Reversed(b.0), [op]);
  }

  lemma PrefixTake(op: char, a: Expr)
    ensures Take(Pre(op, a), "") == Take(a, [op])
  {
    assert "" + [op] == [op];
    assert "" + Take(a, [op]).1 == Take(a, [op]).1;
  }

  // A well-formed expression is as weak as its root.
  lemma {:induction false} WeakestRoot(e: Expr)
    requires WellFormed(e)
    ensures Weakest(e) == Level(e) && Lexical(e)
  {
    match e
    case Num(_) =>
    case Bin(_, l, r) =>
      WeakestRoot(l);
      WeakestRoot(r);
    case Pre(_, a) => WeakestRoot(a);
    case Paren(x) => WeakestRoot(x);
  }

  lemma {:induction false} Sufficient(e: Expr)
    requires WellFormed(e)
    ensures Converted(e) == PostOrder(e)
  {
    WeakestRoot(e);
    match e
    case Num(_) =>
    case Bin(op, l, r) =>
      WeakestRoot(l);
      WeakestRoot(r);
      Sufficient(l);
      Sufficient(r);
      Splits(op, l, r);
    case Pre(op, a) =>
      WeakestRoot(a);
      Sufficient(a);
      SplitsPrefix(op, a);
    case Paren(x) => Sufficient(x);
  }

  // The last character of the output is the bottom of the stack.
  lemma LastIsWeakest(e: Expr)
    requires Lexical(e) && Weakest(e) < 5
    ensures Converted(e) != "" && Precedence(Top(Converted(e))) <= Weakest(e)
    ensures Take(e, "").0 != ""
  {
    var s := Take(e, "").0;
    Bottom(e, "");
    assert s == [s[0]] + s[1..];
    ReversedAppend([s[0]], s[1..]);
    assert Reversed([s[0]]) == [s[0]];
  }

  lemma {:induction false} Necessary(e: Expr)
    requires Lexical(e) && Converted(e) == PostOrder(e)
    ensures WellFormed(e)
    decreases e, 1
  {
    match e
    case Num(_) =>
    case Bin(_, _, _) => NecessaryBin(e);
    case Pre(_, _) => NecessaryPrefix(e);
    case Paren(x) =>
      assert Converted(e) == Converted(x) + Reversed("") == Converted(x);
      Necessary(x);
  }

  lemma {:induction false} NecessaryBin(e: Expr)
    requires e.Bin? && Lexical(e) && Converted(e) == PostOrder(e)
    ensures WellFormed(e)
    decreases e, 0
  {
    hide *;
    var op, l, r := e.op, e.left, e.right;
    BinWeakest(e);
    RootOfBin(e);
    LastIsWeakest(e);
    if Weakest(r) > Precedence(op) {
      Splits(op, l, r);
      ConvertedKeeps(l);
      Pieces(Converted(l), Converted(r), PostOrder(l), PostOrder(r), op);
      Necessary(l);
      Necessary(r);
      BinWellFormed(e);
    } else {
      LaterWeakest(op, l, r);
      assert false;
    }
  }

  lemma {:induction false} NecessaryPrefix(e: Expr)
    requires e.Pre? && Lexical(e) && Converted(e) == PostOrder(e)
    ensures WellFormed(e)
    decreases e, 0
  {
    hide *;
    var op, a := e.op, e.arg;
    PreWeakest(e, "");
    RootOfPrefix(e);
    LastIsWeakest(e);
    if Weakest(a) > 3 {
      SplitsPrefix(op, a);
      assert "" + Converted(a) == Converted(a) && "" + PostOrder(a) == PostOrder(a);
      Pieces("", Converted(a), "", PostOrder(a), op);
      Necessary(a);
      PreWellFormed(e);
    } else {
      WeakOperand(op, a);
      assert false;
    }
  }

  lemma BinWellFormed(e: Expr)
    requires e.Bin? && Lexical(e) && WellFormed(e.left) && WellFormed(e.right)
    requires Weakest(e.left) >= Precedence(e.op) && Weakest(e.right) > Precedence(e.op)
    ensures WellFormed(e)
  {
  }

  lemma PreWellFormed(e: Expr)
    requires e.Pre? && Lexical(e) && WellFormed(e.arg) && Weakest(e.arg) > 3
    ensures WellFormed(e)
  {
  }

  lemma Pieces(a: string, b: string, c: string, d: string, op: char)
    requires a + b + [op] == c + d + [op] && |a| == |c|
    ensures a == c && b == d
  {
    var w := a + b + [op];
    assert a == w[..|a|] && c == w[..|a|];
    assert b == w[|a|..|w| - 1] && d == w[|a|..|w| - 1];
  }

  lemma RootOfBin(e: Expr)
    requires e.Bin? && Lexical(e)
    ensures PostOrder(e) == PostOrder(e.left) + PostOrder(e.right) + [e.op] && Top(PostOrder(e)) == e.op && Weakest(e) < 5
  {
  }

  lemma RootOfPrefix(e: Expr)
    requires e.Pre?
    ensures PostOrder(e) == PostOrder(e.arg) + [e.op] && Top(PostOrder(e)) == e.op && Weakest(e) < 5
  {
  }

  // With a later operator that is no stronger, the output comes down to one value too early.
  lemma LaterWeakest(op: char, l: Expr, r: Expr)
    requires Lexical(Bin(op, l, r)) && Weakest(l) >= Precedence(op) >= Weakest(r)
    ensures Converted(Bin(op, l, r)) != PostOrder(Bin(op, l, r))
  {
    hide *;
    var e, b := Bin(op, l, r), Take(r, [op]);
    BinWeakest(e);
    RootOfBin(e);
    Single(op, e);
    FirstOperand(op, l, r);
    LastIsWeakest(e);
    ConvertedKeeps(l);
    ConvertedKeeps(e);
    Emptied(r, [op]);
    SlackBounds(Weakest(r), [op]);
    DepthOne(op);
    DepthReversed(b.0);
    var k := Place(b.1, 0);
    var n := |PostOrder(l)| + k;
    PostOrderDepth(e, n);
    Beginning(Converted(l), b.1, Reversed(b.0), k);
    DepthPlus(Converted(l), b.1[..k]);
  }

  lemma Single(op: char, e: Expr)
    ensures Rising([op]) && Precedence(op) <= 4 && Converted(e) == Take(e, "").1 + Reversed(Take(e, "").0)
  {
  }

  lemma Beginning(a: string, b: string, c: string, k: nat)
    requires k <= |b|
    ensures ((a + b) + c)[..|a| + k] == a + b[..k]
  {
  }

  lemma WeakOperand(op: char, a: Expr)
    requires Lexical(Pre(op, a)) && Weakest(a) == 3
    ensures Converted(Pre(op, a)) != PostOrder(Pre(op, a))
  {
    hide *;
    var e, b := Pre(op, a), Take(a, [op]);
    PreWeakest(e, "");
    Single(op, e);
    PrefixTake(op, a);
    ConvertedKeeps(e);
    Emptied(a, [op]);
    SlackBounds(Weakest(a), [op]);
    DepthOne(op);
    DepthReversed(b.0);
    var k := Place(b.1, 0);
    PostOrderDepth(e, k);
    Beginning("", b.1, Reversed(b.0), k);
    assert "" + b.1 == b.1 && "" + b.1[..k] == b.1[..k];
  }

  /** For every expression tree over numbers and operators, whatever operands stand where, the conversion
      of its printed form is its postorder if and only if it is well-formed. */
  lemma ConversionIsExact(e: Expr)
    requires Lexical(e)
    ensures PostFix(Print(e)) == PostOrder(e) <==> WellFormed(e)
  {
    PostFixIsConverted(e);
    if WellFormed(e) { Sufficient(e); }
    if Converted(e) == PostOrder(e) { Necessary(e); }
  }

  /** The printed form of a well-formed expression is converted to its postorder. */
  lemma PostFixOfPrinted(e: Expr)
    requires WellFormed(e)
    ensures PostFix(Print(e)) == PostOrder(e)
  {
    WeakestRoot(e);
    ConversionIsExact(e);
  }

  /** For a binary operator: exactly if the left operand binds at least as tightly and the right one more tightly. */
  lemma BinaryRule(op: char, l: Expr, r: Expr)
    requires IsBinary(op) && WellFormed(l) && WellFormed(r)
    ensures PostFix(Print(Bin(op, l, r))) == PostOrder(Bin(op, l, r)) <==>
      Level(l) >= Precedence(op) && Level(r) > Precedence(op)
  {
    WeakestRoot(l);
    WeakestRoot(r);
    ConversionIsExact(Bin(op, l, r));
  }

  /** For a prefix operator: exactly if its operand is a power or an atom. */
  lemma PrefixRule(op: char, a: Expr)
    requires IsUnary(op) && WellFormed(a)
    ensures PostFix(Print(Pre(op, a))) == PostOrder(Pre(op, a)) <==> Level(a) >= 4
  {
    WeakestRoot(a);
    ConversionIsExact(Pre(op, a));
  }

  // ---------- evaluation ----------

  /** Arithmetic on the calculator's numbers, left open. */
  datatype Ops<!V> = Ops(
    number: string -> V,
    add: (V, V) -> V, sub: (V, V) -> V, mul: (V, V) -> V, div: (V, V) -> V, pow: (V, V) -> V,
    neg: V -> V, modu: V -> V, conj: V -> V, arg: V -> V,
    isImag: V -> bool, isComp: V -> bool, isZero: V -> bool, isReal: V -> bool)

  // `Fault` is an error branch; `Stuck` stands for a read past the stack or the string.
  datatype Outcome<V> = Value(v: V) | Fault | Stuck

  function Binary<V>(ops: Ops<V>, op: char, b: V, a: V): (r: Outcome<V>)
    ensures !r.Stuck?
  {
    if op == '+' then Value(ops.add(b, a))
    else if op == '-' then Value(ops.sub(b, a))
    else if op == '*' then (if ops.isImag(a) && ops.isComp(b) then Fault else Value(ops.mul(b, a)))
    else if op == '/' then (if ops.isZero(a) then Fault else Value(ops.div(b, a)))
    else if !ops.isReal(a) then Fault else Value(ops.pow(b, a))
  }

  function Unary<V>(ops: Ops<V>, op: char, a: V): V {
    if op == 'o' then ops.neg(a) else if op == 'm' then ops.modu(a) else if op == 'c' then ops.conj(a) else ops.arg(a)
  }

  /** The value of an expression tree, operands from left to right. */
  function Eval<V>(ops: Ops<V>, e: Expr): (r: Outcome<V>)
    ensures !r.Stuck?
  {
    match e
    case Num(t) => Value(ops.number(t))
    case Bin(op, l, r) =>
      var vl := Eval(ops, l);
      if vl.Fault? then Fault else
      var vr := Eval(ops, r);
      if vr.Fault? then Fault else Binary(ops, op, vl.v, vr.v)
    case Pre(op, a) =>
      var va := Eval(ops, a);
      if va.Fault? then Fault else Value(Unary(ops, op, va.v))
    case Paren(x) => Eval(ops, x)
  }

  // Position of the first ')' in `s`, or its length.
  function CloseAt(s: string): (n: nat)
    ensures n <= |s| && (forall i :: 0 <= i < n ==> s[i] != ')') && (n < |s| ==> s[n] == ')')
  {
    if s == "" || s[0] == ')' then 0 else 1 + CloseAt(s[1..])
  }

  // A division or a power looks at its right operand before it asks for the left one.
  predicate FaultsEarly<V>(ops: Ops<V>, op: char, a: V) {
    (op == '/' && ops.isZero(a)) || (op == '^' && !ops.isReal(a))
  }

  /** Running a postfix string on a value stack. */
  function Exec<V>(ops: Ops<V>, code: string, st: seq<V>): Outcome<V>
    decreases |code|
  {
    if code == "" then
      if st == [] then Stuck else Value(st[|st| - 1])
    else if code[0] == '(' then
      var n := CloseAt(code[1..]);
      if n == |code[1..]| then Stuck else Exec(ops, code[n + 2..], st + [ops.number(code[1..n + 1])])
    else if IsBinary(code[0]) then
      if st == [] then Stuck
      else if FaultsEarly(ops, code[0], st[|st| - 1]) then Fault
      else if |st| < 2 then Stuck
      else
        var r := Binary(ops, code[0], st[|st| - 2], st[|st| - 1]);
        if r.Fault? then Fault else Exec(ops, code[1..], st[..|st| - 2] + [r.v])
    else if IsUnary(code[0]) then
      if st == [] then Stuck else Exec(ops, code[1..], st[..|st| - 1] + [Unary(ops, code[0], st[|st| - 1])])
    else
      Stuck
  }

  lemma {:induction false} NumberCloses(t: string, rest: string)
    requires forall i :: 0 <= i < |t| ==> t[i] != ')'
    ensures CloseAt(t + ([')'] + rest)) == |t|
  {
    var s := t + ([')'] + rest);
    assert forall i :: 0 <= i < |t| ==> s[i] == t[i];
    assert s[|t|] == ')';
  }

  lemma ExecNumber<V>(ops: Ops<V>, t: string, rest: string, st: seq<V>)
    requires forall i :: 0 <= i < |t| ==> t[i] != ')'
    ensures Exec(ops, ("(" + t + ")") + rest, st) == Exec(ops, rest, st + [ops.number(t)])
  {
    NumberCloses(t, rest);
    var code := ("(" + t + ")") + rest;
    assert code[1..] == t + ([')'] + rest);
    assert code[|t| + 2..] == rest && code[1..|t| + 1] == t;
  }

  lemma ExecBinary<V>(ops: Ops<V>, op: char, rest: string, st: seq<V>, b: V, a: V)
    requires IsBinary(op)
    ensures var r := Binary(ops, op, b, a);
      Exec(ops, [op] + rest, (st + [b]) + [a]) == (if r.Fault? then Fault else Exec(ops, rest, st + [r.v]))
  {
    var s, code := (st + [b]) + [a], [op] + rest;
    assert code[0] == op && code[1..] == rest;
    assert s[..|s| - 2] == st && s[|s| - 2] == b && s[|s| - 1] == a;
  }

  lemma ExecUnary<V>(ops: Ops<V>, op: char, rest: string, st: seq<V>, a: V)
    requires IsUnary(op)
    ensures Exec(ops, [op] + rest, st + [a]) == Exec(ops, rest, st + [Unary(ops, op, a)])
  {
    var s, code := st + [a], [op] + rest;
    assert code[0] == op && code[1..] == rest;
    assert s[..|s| - 1] == st && s[|s| - 1] == a;
  }

  /** The postorder of an expression pushes its value, or stops at the first fault. */
  lemma {:induction false} ExecPostOrder<V>(ops: Ops<V>, e: Expr, rest: string, st: seq<V>)
    requires WellFormed(e)
    ensures Exec(ops, PostOrder(e) + rest, st) ==
      (match Eval(ops, e) case Value(v) => Exec(ops, rest, st + [v]) case _ => Fault)
    decreases e
  {
    match e
    case Num(t) =>
      ExecNumber(ops, t, rest, st);
    case Bin(op, l, r) =>
      AssocPost(PostOrder(l), PostOrder(r), [op], rest);
      ExecPostOrder(ops, l, PostOrder(r) + ([op] + rest), st);
      if Eval(ops, l).Value? {
        var b := Eval(ops, l).v;
        ExecPostOrder(ops, r, [op] + rest, st + [b]);
        if Eval(ops, r).Value? {
          ExecBinary(ops, op, rest, st, b, Eval(ops, r).v);
        }
      }
    case Pre(op, a) =>
      Assoc(PostOrder(a), [op], rest);
      ExecPostOrder(ops, a, [op] + rest, st);
      if Eval(ops, a).Value? {
        ExecUnary(ops, op, rest, st, Eval(ops, a).v);
      }
    case Paren(x) =>
      ExecPostOrder(ops, x, rest, st);
  }

  lemma AssocPost(a: string, b: string, c: string, d: string)
    ensures (a + b + c) + d == a + (b + (c + d))
  {
  }

  /** Printing, converting and running an expression gives the value of its tree; the value stack is
      never popped when empty. */
  lemma CalculatorIsCorrect<V>(ops: Ops<V>, e: Expr)
    requires WellFormed(e)
    ensures Exec(ops, PostFix(Print(e)), []) == Eval(ops, e) && Exec(ops, PostFix(Print(e)), []) != Stuck
  {
    PostFixOfPrinted(e);
    ExecPostOrder(ops, e, "", []);
    assert PostOrder(e) + "" == PostOrder(e);
  }

  // ---------- which operands an operator gets ----------

  // What the calculator makes of a text.
  function Calculated<V>(ops: Ops<V>, text: string): Outcome<V> {
    Exec(ops, PostFix(text), [])
  }

  /** Arithmetic that only writes down what is to be done and never fails. */
  function FreeOps(): Ops<Expr> {
    Ops((t: string) => Num(t),
        (b: Expr, a: Expr) => Bin('+', b, a), (b: Expr, a: Expr) => Bin('-', b, a), (b: Expr, a: Expr) => Bin('*', b, a),
        (b: Expr, a: Expr) => Bin('/', b, a), (b: Expr, a: Expr) => Bin('^', b, a),
        (a: Expr) => Pre('o', a), (a: Expr) => Pre('m', a), (a: Expr) => Pre('c', a), (a: Expr) => Pre('a', a),
        (a: Expr) => false, (a: Expr) => false, (a: Expr) => false, (a: Expr) => true)
  }

  function Stripped(e: Expr): Expr {
    match e
    case Num(_) => e
    case Bin(op, l, r) => Bin(op, Stripped(l), Stripped(r))
    case Pre(op, a) => Pre(op, Stripped(a))
    case Paren(x) => Stripped(x)
  }

  lemma {:induction false} FreeValue(e: Expr)
    requires WellFormed(e)
    ensures Eval(FreeOps(), e) == Value(Stripped(e))
  {
    match e
    case Num(_) =>
    case Bin(_, l, r) =>
      FreeValue(l);
      FreeValue(r);
    case Pre(_, a) => FreeValue(a);
    case Paren(x) => FreeValue(x);
  }

  /** Over terms the calculator gives back the tree that was printed, without its parentheses: each
      operator gets the operands that stand beside it, in their order. */
  lemma TreeComesBack(e: Expr)
    requires WellFormed(e)
    ensures Calculated(FreeOps(), Print(e)) == Value(Stripped(e))
  {
    CalculatorIsCorrect(FreeOps(), e);
    FreeValue(e);
  }

  /** What the calculator makes of a binary operation from what it makes of the operands, with the
      exact condition for an error at each operator. */
  lemma BinaryCalculated<V>(ops: Ops<V>, op: char, l: Expr, r: Expr, b: V, a: V)
    requires WellFormed(Bin(op, l, r))
    requires Calculated(ops, Print(l)) == Value(b) && Calculated(ops, Print(r)) == Value(a)
    ensures var got := Calculated(ops, Print(Bin(op, l, r)));
      && (op == '+' ==> got == Value(ops.add(b, a)))
      && (op == '-' ==> got == Value(ops.sub(b, a)))
      && (op == '*' ==> got == if ops.isImag(a) && ops.isComp(b) then Fault else Value(ops.mul(b, a)))
      && (op == '/' ==> got == if ops.isZero(a) then Fault else Value(ops.div(b, a)))
      && (op == '^' ==> got == if ops.isReal(a) then Value(ops.pow(b, a)) else Fault)
  {
    CalculatorIsCorrect(ops, l);
    CalculatorIsCorrect(ops, r);
    CalculatorIsCorrect(ops, Bin(op, l, r));
    hide Exec, PostFix, Print;
  }

  lemma PrefixCalculated<V>(ops: Ops<V>, op: char, e: Expr, a: V)
    requires WellFormed(Pre(op, e)) && Calculated(ops, Print(e)) == Value(a)
    ensures var got := Calculated(ops, Print(Pre(op, e)));
      && (op == 'o' ==> got == Value(ops.neg(a)))
      && (op == 'm' ==> got == Value(ops.modu(a)))
      && (op == 'c' ==> got == Value(ops.conj(a)))
      && (op == 'a' ==> got == Value(ops.arg(a)))
  {
    CalculatorIsCorrect(ops, e);
    CalculatorIsCorrect(ops, Pre(op, e));
    hide Exec, PostFix, Print;
  }

  /** An error in an operand is an error of the whole; a number is its own value. */
  lemma ErrorsSpread<V>(ops: Ops<V>, e: Expr)
    requires WellFormed(e)
    ensures e.Num? ==> Calculated(ops, Print(e)) == Value(ops.number(e.text))
    ensures e.Paren? ==> Calculated(ops, Print(e)) == Calculated(ops, Print(e.inner))
    ensures e.Pre? ==> (Calculated(ops, Print(e)) == Fault <==> Calculated(ops, Print(e.arg)) == Fault)
    ensures e.Bin? && (Calculated(ops, Print(e.left)) == Fault || Calculated(ops, Print(e.right)) == Fault) ==>
      Calculated(ops, Print(e)) == Fault
  {
    CalculatorIsCorrect(ops, e);
    match e
    case Num(_) =>
    case Bin(_, l, r) =>
      CalculatorIsCorrect(ops, l);
      CalculatorIsCorrect(ops, r);
    case Pre(_, a) => CalculatorIsCorrect(ops, a);
    case Paren(x) => CalculatorIsCorrect(ops, x);
  }

  predicate IsNumber(t: string) {
    t != "" && forall i :: 0 <= i < |t| ==> !IsOperator(t[i])
  }

  lemma NumParts(t: string)
    requires IsNumber(t)
    ensures WellFormed(Num(t)) && Level(Num(t)) == 5 && Print(Num(t)) == t && PostOrder(Num(t)) == "(" + t + ")"
  {
  }

  lemma BinParts(op: char, l: Expr, r: Expr)
    requires IsBinary(op) && WellFormed(l) && WellFormed(r) && Level(l) >= Precedence(op) && Level(r) > Precedence(op)
    ensures WellFormed(Bin(op, l, r)) && Level(Bin(op, l, r)) == Precedence(op)
    ensures Print(Bin(op, l, r)) == Print(l) + [op] + Print(r)
    ensures PostOrder(Bin(op, l, r)) == PostOrder(l) + PostOrder(r) + [op]
  {
  }

  lemma PreParts(op: char, e: Expr)
    requires IsUnary(op) && WellFormed(e) && Level(e) >= 4
    ensures WellFormed(Pre(op, e)) && Level(Pre(op, e)) == 3
    ensures Print(Pre(op, e)) == Spelling(op) + Print(e) && PostOrder(Pre(op, e)) == PostOrder(e) + [op]
  {
  }

  lemma Order(p: char, q: char)
    requires IsBinary(p) && IsBinary(q)
    ensures Precedence(p) < 5 && Precedence(q) < 5 && (Precedence(p) < Precedence(q) <==> Tighter(p, q))
    ensures Precedence(q) <= 3 <==> q != '^'
  {
  }

  // Of `p` and, after it, `q` the second one comes first.
  predicate Tighter(p: char, q: char) {
    if p == '+' || p == '-' then q != '+' && q != '-' else q == '^' && p != '^'
  }

  /** Of two binary operators between three numbers the second one is applied first exactly if it is `*`,
      `/` or `^` after `+` or `-`, or `^` after `*` or `/`; powers go from left to right. */
  lemma TwoOperators(x: string, p: char, y: string, q: char, z: string)
    requires IsNumber(x) && IsNumber(y) && IsNumber(z) && IsBinary(p) && IsBinary(q)
    ensures Tighter(p, q) ==> PostFix(x + [p] + (y + [q] + z)) == "(" + x + ")" + ("(" + y + ")" + ("(" + z + ")") + [q]) + [p]
    ensures !Tighter(p, q) ==> PostFix(x + [p] + y + [q] + z) == "(" + x + ")" + ("(" + y + ")") + [p] + ("(" + z + ")") + [q]
  {
    hide *;
    NumParts(x);
    NumParts(y);
    NumParts(z);
    Order(p, q);
    var u, v, w := Num(x), Num(y), Num(z);
    if Tighter(p, q) {
      BinParts(q, v, w);
      BinParts(p, u, Bin(q, v, w));
      PostFixOfPrinted(Bin(p, u, Bin(q, v, w)));
    } else {
      BinParts(p, u, v);
      BinParts(q, Bin(p, u, v), w);
      PostFixOfPrinted(Bin(q, Bin(p, u, v), w));
    }
  }

  /** A prefix operator is applied before the binary operator after its number, unless that is `^`. */
  lemma PrefixFirst(u: char, x: string, q: char, y: string)
    requires IsNumber(x) && IsNumber(y) && IsUnary(u) && IsBinary(q)
    ensures q == '^' ==> PostFix(Spelling(u) + (x + [q] + y)) == "(" + x + ")" + ("(" + y + ")") + [q] + [u]
    ensures q != '^' ==> PostFix(Spelling(u) + x + [q] + y) == "(" + x + ")" + [u] + ("(" + y + ")") + [q]
  {
    hide *;
    NumParts(x);
    NumParts(y);
    Order(q, q);
    var v, w := Num(x), Num(y);
    if q == '^' {
      PowerOrder();
      BinParts(q, v, w);
      PreParts(u, Bin(q, v, w));
      PostFixOfPrinted(Pre(u, Bin(q, v, w)));
    } else {
      PreParts(u, v);
      BinParts(q, Pre(u, v), w);
      PostFixOfPrinted(Bin(q, Pre(u, v), w));
    }
  }

  lemma PowerOrder()
    ensures Precedence('^') == 4
  {
  }

  // ---------- the loops ----------

  function From(s: string, i: nat): string {
    if i < |s| then s[i..] else ""
  }

  class Parser<!V> {
    var afterTreat: string
    var postExpression: string

    constructor (text: string)
      ensures afterTreat == text && postExpression == ""
    {
      afterTreat, postExpression := text, "";
    }

    method ToPostFix()
      modifies this`postExpression
      ensures postExpression == old(postExpression) + PostFix(afterTreat)
    {
      var st := "#";
      var len := |afterTreat|;
      var i := 0;
      ghost var start, out := postExpression, "";
      assert From(afterTreat, 0) == afterTreat;
      while i < len
        invariant Grounded(st) && postExpression == start + out
        invariant Finish(Scan(From(afterTreat, i), st, out)) == PostFix(afterTreat)
        decreases len - i, |st|
      {
        var x := afterTreat[i];
        ghost var s := Scan(From(afterTreat, i), st, out);
        Suffixes(afterTreat, i);
        if IsOperator(x) {
          if Icp(x) > Isp(Top(st)) {
            st := st + [x];
            if x == 'c' || x == 'a' {
              i := i + 3;
            } else {
              i := i + 1;
            }
          } else if Icp(x) < Isp(Top(st)) {
            var popped;
            st, popped := PopOperators(st, x);
            out := out + popped;
            postExpression := postExpression + popped;
            Assoc(start, s.out, popped);
          } else {
            if Top(st) == '(' {
              i := i + 1;
            }
            st := Popped(st);
          }
        } else {
          i, out := TakeNumber(i, st, start, out);
        }
        assert Step(s) == Scan(From(afterTreat, i), st, out);
      }
      ghost var rest := st[1..];
      while Top(st) != '#'
        invariant Grounded(st) && postExpression == start + out
        invariant out + Reversed(st[1..]) == PostFix(afterTreat)
        decreases |st|
      {
        LastPopped(st, out);
        Assoc(start, out, [Top(st)]);
        postExpression := postExpression + [Top(st)];
        out := out + [Top(st)];
        st := Popped(st);
      }
      assert st == "#";
    }

    // A number and its parentheses go to the output.
    method TakeNumber(i: nat, ghost st: string, ghost start: string, ghost before: string) returns (n: nat, ghost out: string)
      requires i < |afterTreat| && !IsOperator(afterTreat[i]) && Grounded(st) && postExpression == start + before
      modifies this`postExpression
      ensures i < n <= |afterTreat| && postExpression == start + out
      ensures Step(Scan(From(afterTreat, i), st, before)) == Scan(From(afterTreat, n), st, out)
    {
      n := NumberEnd(afterTreat, i);
      var number := afterTreat[i..n];
      postExpression := postExpression + "(" + number + ")";
      out := before + "(" + number + ")";
      NumberStep(afterTreat, i, n, st, before);
      hide *;
      Assoc(start, before, "(");
      Assoc(start, before + "(", number);
      Assoc(start, before + "(" + number, ")");
    }

    // The inner loop of the conversion: pop while the top binds tighter than `x`.
    method PopOperators(st0: string, x: char) returns (st: string, popped: string)
      requires Grounded(st0) && IsOperator(x)
      ensures (st, popped) == PopWhile(st0, x)
    {
      st, popped := st0, "";
      assert "" + PopWhile(st0, x).1 == PopWhile(st0, x).1;
      while Icp(x) < Isp(Top(st))
        invariant Grounded(st)
        invariant PopWhile(st0, x) == (PopWhile(st, x).0, popped + PopWhile(st, x).1)
        decreases |st|
      {
        Assoc(popped, [Top(st)], PopWhile(Popped(st), x).1);
        popped := popped + [Top(st)];
        st := Popped(st);
      }
      assert popped + "" == popped;
    }

    // The inner loop that copies a number.
    method NumberEnd(s: string, i: nat) returns (n: nat)
      requires i < |s| && !IsOperator(s[i])
      ensures i < n <= |s| && (forall k :: i <= k < n ==> !IsOperator(s[k])) && (n < |s| ==> IsOperator(s[n]))
    {
      n := i + 1;
      while n < |s| && !IsOperator(s[n])
        invariant i < n <= |s| && forall k :: i <= k < n ==> !IsOperator(s[k])
      {
        n := n + 1;
      }
    }

    // The inner loop that finds the end of a number.
    method CloseOf(s: string, i: nat) returns (j: nat)
      requires exists k :: i < k < |s| && s[k] == ')'
      ensures i < j < |s| && s[j] == ')' && forall k :: i < k < j ==> s[k] != ')'
    {
      j := i + 1;
      while s[j] != ')'
        invariant i < j < |s| && forall k :: i < k < j ==> s[k] != ')'
        decreases |s| - j
      {
        j := j + 1;
      }
    }

    // The operator branches: operands come off the stack, the result goes on.
    method Operate(ops: Ops<V>, c: char, st: seq<V>) returns (fault: bool, st': seq<V>)
      requires (IsBinary(c) || IsUnary(c)) && |st| >= 1
      requires IsBinary(c) && !FaultsEarly(ops, c, st[|st| - 1]) ==> |st| >= 2
      ensures IsUnary(c) ==> !fault && st' == st[..|st| - 1] + [Unary(ops, c, st[|st| - 1])]
      ensures IsBinary(c) && FaultsEarly(ops, c, st[|st| - 1]) ==> fault
      ensures IsBinary(c) && !FaultsEarly(ops, c, st[|st| - 1]) ==>
        var r := Binary(ops, c, st[|st| - 2], st[|st| - 1]);
        fault == r.Fault? && (!fault ==> st' == st[..|st| - 2] + [r.v])
    {
      fault, st' := false, st;
      var a := st[|st| - 1];
      if c == '+' {
        st' := st[..|st| - 2] + [ops.add(st[|st| - 2], a)];
      } else if c == '-' {
        st' := st[..|st| - 2] + [ops.sub(st[|st| - 2], a)];
      } else if c == '*' {
        var b := st[|st| - 2];
        if ops.isImag(a) && ops.isComp(b) {
          fault := true;
        } else {
          st' := st[..|st| - 2] + [ops.mul(b, a)];
        }
      } else if c == '/' {
        if ops.isZero(a) {
          fault := true;
        } else {
          st' := st[..|st| - 2] + [ops.div(st[|st| - 2], a)];
        }
      } else if c == 'o' {
        st' := st[..|st| - 1] + [ops.neg(a)];
      } else if c == 'm' {
        st' := st[..|st| - 1] + [ops.modu(a)];
      } else if c == 'c' {
        st' := st[..|st| - 1] + [ops.conj(a)];
      } else if c == 'a' {
        st' := st[..|st| - 1] + [ops.arg(a)];
      } else if !ops.isReal(a) {
        fault := true;
      } else {
        st' := st[..|st| - 2] + [ops.pow(st[|st| - 2], a)];
      }
    }

    // One turn of the evaluation loop.
    method Consume(ops: Ops<V>, code: string, i: nat, st: seq<V>) returns (fault: bool, next: nat, st': seq<V>)
      requires i < |code| && Exec(ops, From(code, i), st) != Stuck
      ensures i < next <= |code|
      ensures fault ==> Exec(ops, From(code, i), st) == Fault
      ensures !fault ==> Exec(ops, From(code, i), st) == Exec(ops, From(code, next), st')
    {
      hide Exec, From, Binary, Unary, FaultsEarly;
      fault := false;
      ExecAt(ops, code, i, st);
      if code[i] == '(' {
        var j := CloseOf(code, i);
        NumberAt(ops, code, i, j, st);
        st' := st + [ops.number(code[i + 1..j])];
        next := j + 1;
      } else {
        fault, st' := Operate(ops, code[i], st);
        next := i + 1;
      }
    }

    method Calculate(ops: Ops<V>) returns (r: Outcome<V>)
      requires Exec(ops, postExpression, []) != Stuck
      modifies this
      ensures r == Exec(ops, old(postExpression), [])
      ensures r.Value? ==> afterTreat == "" && postExpression == ""
      ensures r.Fault? ==> afterTreat == old(afterTreat) && postExpression == old(postExpression)
    {
      var st: seq<V>, code, i := [], postExpression, 0;
      assert From(code, 0) == code;
      hide Exec, From;
      while i < |code|
        invariant 0 <= i <= |code| && Exec(ops, From(code, i), st) == Exec(ops, code, [])
        invariant afterTreat == old(afterTreat) && postExpression == code
      {
        var fault;
        fault, i, st := Consume(ops, code, i, st);
        if fault {
          return Fault;
        }
      }
      ExecEnd(ops, code, st);
      afterTreat, postExpression := "", "";
      return Value(st[|st| - 1]);
    }

    /** From the prepared text of an expression to its value. */
    method Evaluate(ops: Ops<V>, ghost e: Expr) returns (r: Outcome<V>)
      requires WellFormed(e) && afterTreat == Print(e) && postExpression == ""
      modifies this
      ensures r == Eval(ops, e)
    {
      CalculatorIsCorrect(ops, e);
      ToPostFix();
      assert postExpression == PostFix(Print(e));
      r := Calculate(ops);
    }
  }

  /** A printed tree is read back, operands in their order. */
  method ReadBack(e: Expr) returns (tree: Outcome<Expr>)
    requires WellFormed(e)
    ensures tree == Value(Stripped(e))
  {
    var parser := new Parser<Expr>(Print(e));
    tree := parser.Evaluate(FreeOps(), e);
    FreeValue(e);
  }

  lemma Suffixes(s: string, i: nat)
    requires i < |s|
    ensures From(s, i) != "" && From(s, i)[0] == s[i] && From(s, i)[1..] == From(s, i + 1)
    ensures From(s, i)[Advance(s[i], From(s, i))..] == From(s, if s[i] == 'c' || s[i] == 'a' then i + 3 else i + 1)
  {
  }

  lemma NumberStep(text: string, i: nat, n: nat, st: string, before: string)
    requires i < n <= |text| && (forall k :: i <= k < n ==> !IsOperator(text[k])) && (n < |text| ==> IsOperator(text[n]))
    requires Grounded(st)
    ensures Step(Scan(From(text, i), st, before)) == Scan(From(text, n), st, before + "(" + text[i..n] + ")")
  {
    WholeNumber(text, i, n);
  }

  lemma WholeNumber(s: string, i: nat, n: nat)
    requires i < n <= |s| && (forall k :: i <= k < n ==> !IsOperator(s[k])) && (n < |s| ==> IsOperator(s[n]))
    ensures NumberLength(From(s, i)) == n - i && From(s, i)[..n - i] == s[i..n] && From(s, i)[n - i..] == From(s, n)
  {
    assert From(s, i) == s[i..n] + From(s, n);
    NumberEnds(s[i..n], From(s, n));
  }

  lemma LastPopped(st: string, out: string)
    requires Grounded(st) && |st| > 1
    ensures (out + [Top(st)]) + Reversed(Popped(st)[1..]) == out + Reversed(st[1..])
  {
    assert Top(st[1..]) == Top(st) && Popped(st[1..]) == Popped(st)[1..];
    Assoc(out, [Top(st)], Reversed(Popped(st)[1..]));
  }

  // What the next character makes of a run that does not get stuck.
  lemma ExecAt<V>(ops: Ops<V>, s: string, i: nat, st: seq<V>)
    requires i < |s| && Exec(ops, From(s, i), st) != Stuck
    ensures s[i] == '(' ==> exists k :: i < k < |s| && s[k] == ')'
    ensures s[i] != '(' ==> (IsBinary(s[i]) || IsUnary(s[i])) && |st| >= 1
    ensures IsUnary(s[i]) ==>
      Exec(ops, From(s, i), st) == Exec(ops, From(s, i + 1), st[..|st| - 1] + [Unary(ops, s[i], st[|st| - 1])])
    ensures IsBinary(s[i]) && FaultsEarly(ops, s[i], st[|st| - 1]) ==> Exec(ops, From(s, i), st) == Fault
    ensures IsBinary(s[i]) && !FaultsEarly(ops, s[i], st[|st| - 1]) ==>
      |st| >= 2 &&
      var r := Binary(ops, s[i], st[|st| - 2], st[|st| - 1]);
      Exec(ops, From(s, i), st) == if r.Fault? then Fault else Exec(ops, From(s, i + 1), st[..|st| - 2] + [r.v])
  {
    Suffixes(s, i);
    if s[i] == '(' {
      var n := CloseAt(From(s, i)[1..]);
      assert s[i + 1 + n] == ')';
    }
  }

  lemma ExecEnd<V>(ops: Ops<V>, s: string, st: seq<V>)
    requires Exec(ops, From(s, |s|), st) != Stuck
    ensures st != [] && Exec(ops, From(s, |s|), st) == Value(st[|st| - 1])
  {
  }

  lemma NumberAt<V>(ops: Ops<V>, s: string, i: nat, j: nat, st: seq<V>)
    requires i < j < |s| && s[i] == '(' && s[j] == ')' && forall k :: i < k < j ==> s[k] != ')'
    ensures Exec(ops, From(s, i), st) == Exec(ops, From(s, j + 1), st + [ops.number(s[i + 1..j])])
  {
    var t := s[i + 1..j];
    assert From(s, i) == ("(" + t + ")") + From(s, j + 1);
    ExecNumber(ops, t, From(s, j + 1), st);
  }
}
