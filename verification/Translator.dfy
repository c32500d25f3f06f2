/** The translation of expressions, conditions and statements to three-address code. */
module Translator {
  import opened ThreeAddress
  import opened SourceLanguage
  import opened Realisation
  import opened Rewriting

  // ---------- labels ----------

  function Count(c: Code, l: nat): nat {
    if c == [] then 0 else Count(c[..|c| - 1], l) + if c[|c| - 1] == Label(l) then 1 else 0
  }

  lemma {:induction false} CountPlus(a: Code, b: Code)
    ensures forall l: nat :: Count(a + b, l) == Count(a, l) + Count(b, l)
    decreases |b|
  {
    if b == [] {
      assert a + b == a;
    } else {
      assert (a + b)[..|a + b| - 1] == a + b[..|b| - 1];
      CountPlus(a, b[..|b| - 1]);
    }
  }

  lemma CountOne(ins: Instr)
    ensures forall l: nat :: Count([ins], l) == if ins == Label(l) then 1 else 0
  {
    assert [ins][..0] == [];
  }

  // Jumps lead to the labels after `lo` up to `hi`, or out.
  ghost predicate JumpsTo(c: Code, lo: nat, hi: nat, outs: set<nat>) {
    forall k :: 0 <= k < |c| && IsJump(c[k]) ==> lo < c[k].l <= hi || c[k].l in outs
  }

  /** Each label after `lo` up to `hi` stands exactly once in `c`, no other label stands there. */
  ghost predicate Tidy(c: Code, lo: nat, hi: nat, outs: set<nat>) {
    (forall l: nat :: Count(c, l) == if lo < l <= hi then 1 else 0) && JumpsTo(c, lo, hi, outs)
  }

  // A jump back within `c` leads to a label with a plain instruction after it.
  ghost predicate Loops(c: Code) {
    forall f, k :: 0 <= f < k < |c| && IsJump(c[k]) && c[f] == Label(c[k].l) ==> Plain(c[f + 1])
  }

  predicate Starts(c: Code) {
    c != [] && Plain(c[0])
  }

  lemma LoopsCat(a: Code, b: Code)
    requires Loops(a) && Loops(b) && forall k :: 0 <= k < |b| && IsJump(b[k]) ==> Count(a, b[k].l) == 0
    ensures Loops(a + b)
  {
    var c := a + b;
    forall f, k | 0 <= f < k < |c| && IsJump(c[k]) && c[f] == Label(c[k].l)
      ensures Plain(c[f + 1])
    {
      if k < |a| {
        assert IsJump(a[k]) && a[f] == Label(a[k].l);
      } else if f >= |a| {
        assert IsJump(b[k - |a|]) && b[f - |a|] == Label(b[k - |a|].l);
      } else {
        CountHas(a, f, b[k - |a|].l);
      }
    }
  }

  lemma PlainTidy(ins: Instr, n: nat)
    requires !ins.Label? && !IsJump(ins)
    ensures Tidy([ins], n, n, {}) && Loops([ins]) && (Hollow([ins]) <==> Unseated(ins))
  {
    HollowOne(ins);
    CountOne(ins);
  }

  lemma NothingTidy(n: nat, outs: set<nat>)
    ensures Tidy([], n, n, outs) && Loops([]) && !Hollow([])
  {
  }

  lemma JumpTidy(ins: Instr, n: nat, outs: set<nat>)
    requires IsJump(ins) && ins.l in outs
    ensures Tidy([ins], n, n, outs) && Loops([ins]) && !Hollow([ins])
  {
    HollowOne(ins);
    CountOne(ins);
  }

  lemma CatTidy(a: Code, b: Code, lo: nat, mid: nat, hi: nat, outs: set<nat>)
    requires lo <= mid <= hi && Tidy(a, lo, mid, outs) && Tidy(b, mid, hi, outs)
    ensures Tidy(a + b, lo, hi, outs)
    ensures Loops(a) && Loops(b) && (forall l :: l in outs ==> l <= lo) ==> Loops(a + b)
    ensures Hollow(a + b) <==> Hollow(a) || Hollow(b)
  {
    HollowCat(a, b);
    hide Hollow;
    CountPlus(a, b);
    if Loops(a) && Loops(b) && (forall l :: l in outs ==> l <= lo) { LoopsCat(a, b); }
  }

  lemma MoreOuts(a: Code, lo: nat, hi: nat, outs: set<nat>, outs': set<nat>)
    requires Tidy(a, lo, hi, outs) && outs <= outs'
    ensures Tidy(a, lo, hi, outs')
  {
  }

  // No label stands twice.
  lemma {:induction false} TidyUnique(c: Code)
    requires forall l: nat :: Count(c, l) <= 1
    ensures Unique(c)
  {
    forall i, j | 0 <= i < j < |c| && c[i].Label? && c[j].Label?
      ensures c[i].l != c[j].l
    {
      CountAt(c, i, j, c[i].l);
    }
  }

  lemma CountAt(c: Code, i: nat, j: nat, l: nat)
    requires i < j < |c|
    ensures c[i] == Label(l) && c[j] == Label(l) ==> Count(c, l) >= 2
  {
    var a, b := c[..i + 1], c[i + 1..];
    assert c == a + b;
    CountPlus(a, b);
    CountHas(a, i, l);
    CountHas(b, j - i - 1, l);
  }

  lemma {:induction false} CountHas(c: Code, k: nat, l: nat)
    requires k < |c|
    ensures c[k] == Label(l) ==> Count(c, l) >= 1
    decreases |c|
  {
    if k < |c| - 1 { CountHas(c[..|c| - 1], k, l); }
  }

  lemma {:induction false} CountFind(c: Code, l: nat)
    requires Count(c, l) >= 1
    ensures Find(c, l) < |c|
  {
    if !exists k :: 0 <= k < |c| && c[k] == Label(l) {
      NoCount(c, l);
    }
  }

  lemma {:induction false} NoCount(c: Code, l: nat)
    requires !exists k :: 0 <= k < |c| && c[k] == Label(l)
    ensures Count(c, l) == 0
    decreases |c|
  {
    if c != [] {
      assert forall k :: 0 <= k < |c| - 1 ==> c[..|c| - 1][k] == c[k];
      NoCount(c[..|c| - 1], l);
    }
  }

  lemma TidyLinked(c: Code, hi: nat)
    requires Tidy(c, 0, hi, {})
    ensures Linked(c)
  {
    TidyUnique(c);
    forall i | 0 <= i < |c| && IsJump(c[i])
      ensures Find(c, c[i].l) < |c|
    {
      CountFind(c, c[i].l);
    }
  }

  lemma Assoc(a: Code, b: Code, c: Code)
    ensures (a + b) + c == a + (b + c)
  {
  }

  // The expressions that are translated through their condition.
  predicate IsTruth(e: Exp) {
    e.Not? || e.And? || e.Or? || e.Compare?
  }

  class Translator {
    var code: Code
    var tmpCnt: nat
    var labelCnt: nat
    var complaints: nat  // messages about operators that cannot stand on top of a condition

    constructor ()
      ensures code == [] && tmpCnt == 0 && labelCnt == 0 && complaints == 0
    {
      code, tmpCnt, labelCnt, complaints := [], 0, 0, 0;
    }

    method NewTemp() returns (t: Operand)
      modifies this`tmpCnt
      ensures tmpCnt == old(tmpCnt) + 1 && t == Temp(tmpCnt)
    {
      tmpCnt := tmpCnt + 1;
      t := Temp(tmpCnt);
    }

    method NewLabel() returns (l: nat)
      modifies this`labelCnt
      ensures labelCnt == old(labelCnt) + 1 && l == labelCnt
    {
      labelCnt := labelCnt + 1;
      l := labelCnt;
    }

    method Emit(ins: Instr)
      modifies this`code
      ensures code == old(code) + [ins] && EndsInGoto(code) == ins.Goto?
      ensures Spaced(old(code)) && (ins.Goto? ==> !EndsInGoto(old(code))) ==> Spaced(code)
    {
      code := code + [ins];
    }

    // What every translation of an expression keeps, whatever its result.
    twostate predicate Grown(added: Code)
      reads this
    {
      && code == old(code) + added
      && tmpCnt >= old(tmpCnt) && labelCnt >= old(labelCnt) && complaints >= old(complaints)
      && (Spaced(old(code)) ==> Spaced(code))
    }

    // Expressions and statements do not end with a jump.
    twostate predicate EndsOpen()
      reads this
    {
      EndsInGoto(old(code)) || !EndsInGoto(code)
    }

    /** Code that computes `e` into `place`. */
    method TranslateExp(e: Exp, place: Operand) returns (ghost added: Code)
      requires Usable(place, tmpCnt)
      modifies this
      ensures Grown(added) && EndsOpen() && Tidy(added, old(labelCnt), labelCnt, {}) && Loops(added)
      ensures Hollow(added) <==> place == Missing && !PlaceFree(e)
      ensures labelCnt == old(labelCnt) + ExpLabels(e)
      ensures complaints == old(complaints) <==> CleanExp(e)
      ensures CleanExp(e) ==> Starts(added) && ExpRuns(e, place, old(tmpCnt), added)
      decreases e, if IsTruth(e) then 7 else 3
    {
      hide ExpRuns, CondRuns, Hollow, Loops, Tidy, Spaced, EndsInGoto;
      match e
      case Num(v) =>
        added := [Assign(place, Constant(v))];
        Emit(Assign(place, Constant(v)));
        PlainTidy(Assign(place, Constant(v)), labelCnt);
        CopyRuns(e, Constant(v), place, tmpCnt);
      case Id(x) =>
        added := [Assign(place, Variable(x))];
        Emit(Assign(place, Variable(x)));
        PlainTidy(Assign(place, Variable(x)), labelCnt);
        CopyRuns(e, Variable(x), place, tmpCnt);
      case Input =>
        added := [Read(place)];
        Emit(Read(place));
        PlainTidy(Read(place), labelCnt);
        InputRuns(place, tmpCnt);
      case Paren(f) =>
        added := TranslateExp(f, place);
        if CleanExp(f) { ParenRuns(f, place, old(tmpCnt), added); }
      case Set(x, f) =>
        added := TranslateSet(x, f, place);
      case Calculate(op, a, b) =>
        added := TranslateArith(e, place);
      case Minus(f) =>
        added := TranslateMinus(f, place);
      case _ =>
        added := TranslateTruth(e, place);
    }

    method TranslateSet(x: string, f: Exp, place: Operand) returns (ghost added: Code)
      requires Usable(place, tmpCnt)
      modifies this
      ensures Grown(added) && EndsOpen() && Tidy(added, old(labelCnt), labelCnt, {}) && Loops(added)
      ensures !Hollow(added)
      ensures labelCnt == old(labelCnt) + ExpLabels(f)
      ensures complaints == old(complaints) <==> CleanExp(f)
      ensures CleanExp(f) ==> Starts(added) && ExpRuns(Set(x, f), place, old(tmpCnt), added)
      decreases f, 8
    {
      hide ExpRuns, Hollow, Loops, Tidy, Spaced, EndsInGoto, CleanExp;
      var left := Variable(x);
      var t1 := NewTemp();
      ghost var c := TranslateExp(f, t1);
      Emit(Assign(left, t1));
      Emit(Assign(place, left));
      added := c + [Assign(left, t1), Assign(place, left)];
      assert [Assign(left, t1)] + [Assign(place, left)] == [Assign(left, t1), Assign(place, left)];
      PlainTidy(Assign(left, t1), labelCnt);
      PlainTidy(Assign(place, left), labelCnt);
      CatTidy([Assign(left, t1)], [Assign(place, left)], labelCnt, labelCnt, labelCnt, {});
      CatTidy(c, [Assign(left, t1)] + [Assign(place, left)], old(labelCnt), labelCnt, labelCnt, {});
      if CleanExp(f) { SetRuns(x, f, place, old(tmpCnt), c); }
    }

    method TranslateMinus(f: Exp, place: Operand) returns (ghost added: Code)
      requires Usable(place, tmpCnt)
      modifies this
      ensures Grown(added) && EndsOpen() && Tidy(added, old(labelCnt), labelCnt, {}) && Loops(added)
      ensures Hollow(added) <==> place == Missing
      ensures labelCnt == old(labelCnt) + ExpLabels(f)
      ensures complaints == old(complaints) <==> CleanExp(f)
      ensures CleanExp(f) ==> Starts(added) && ExpRuns(Minus(f), place, old(tmpCnt), added)
      decreases f, 8
    {
      hide ExpRuns, Hollow, Loops, Tidy, Spaced, EndsInGoto, CleanExp;
      var t1 := Constant(0);
      var t2 := NewTemp();
      ghost var c := TranslateExp(f, t2);
      Emit(Bin(Sub, place, t1, t2));
      added := c + [Bin(Sub, place, t1, t2)];
      PlainTidy(Bin(Sub, place, t1, t2), labelCnt);
      CatTidy(c, [Bin(Sub, place, t1, t2)], old(labelCnt), labelCnt, labelCnt, {});
      if CleanExp(f) { MinusRuns(f, place, old(tmpCnt), c); }
    }

    // Both operands into the next two temporaries, the left one first.
    method TranslateTwo(e: Exp) returns (t1: Operand, t2: Operand, ghost ca: Code, ghost cb: Code, ghost mid: nat)
      requires e.Calculate? || e.Compare?
      modifies this
      ensures Grown(ca + cb) && Tidy(ca + cb, old(labelCnt), labelCnt, {}) && Loops(ca + cb)
      ensures !Hollow(ca + cb)
      ensures t1 == Temp(old(tmpCnt) + 1) && t2 == Temp(old(tmpCnt) + 2)
      ensures labelCnt == old(labelCnt) + ExpLabels(e.a) + ExpLabels(e.b)
      ensures complaints == old(complaints) <==> CleanExp(e.a) && CleanExp(e.b)
      ensures CleanExp(e.a) && CleanExp(e.b) ==>
        Starts(ca) && old(tmpCnt) + 2 <= mid && ExpRuns(e.a, t1, old(tmpCnt) + 2, ca) && ExpRuns(e.b, t2, mid, cb)
      decreases e, 1
    {
      hide ExpRuns, Hollow, Loops, Tidy, Spaced, EndsInGoto, CleanExp;
      t1 := NewTemp();
      t2 := NewTemp();
      ca := TranslateExp(e.a, t1);
      mid := tmpCnt;
      ghost var between := labelCnt;
      cb := TranslateExp(e.b, t2);
      Assoc(old(code), ca, cb);
      CatTidy(ca, cb, old(labelCnt), between, labelCnt, {});
    }

    method TranslateArith(e: Exp, place: Operand) returns (ghost added: Code)
      requires e.Calculate? && Usable(place, tmpCnt)
      modifies this
      ensures Grown(added) && EndsOpen() && Tidy(added, old(labelCnt), labelCnt, {}) && Loops(added)
      ensures Hollow(added) <==> place == Missing && !PlaceFree(e)
      ensures labelCnt == old(labelCnt) + ExpLabels(e.a) + ExpLabels(e.b)
      ensures complaints == old(complaints) <==> CleanExp(e.a) && CleanExp(e.b)
      ensures CleanExp(e.a) && CleanExp(e.b) ==> Starts(added) && ExpRuns(e, place, old(tmpCnt), added)
      decreases e, 2
    {
      hide ExpRuns, Hollow, Loops, Tidy, Spaced, EndsInGoto, CleanExp;
      var t1, t2, ca, cb, mid := TranslateTwo(e);
      var ins := Bin(e.op, place, t1, t2);
      Emit(ins);
      added := ca + cb + [ins];
      PlainTidy(ins, labelCnt);
      CatTidy(ca + cb, [ins], old(labelCnt), labelCnt, labelCnt, {});
      if CleanExp(e.a) && CleanExp(e.b) { ArithRuns(e.op, e.a, e.b, place, old(tmpCnt), mid, ca, cb); }
    }

    // The value of a condition: 0, overwritten by 1 where the condition is true.
    method TranslateTruth(e: Exp, place: Operand) returns (ghost added: Code)
      requires IsTruth(e) && Usable(place, tmpCnt)
      modifies this
      ensures Grown(added) && EndsOpen() && Tidy(added, old(labelCnt), labelCnt, {}) && Loops(added)
      ensures Hollow(added) <==> place == Missing && !PlaceFree(e)
      ensures labelCnt == old(labelCnt) + 2 + CondLabels(e)
      ensures complaints == old(complaints) <==> CleanCond(e)
      ensures CleanCond(e) ==> Starts(added) && ExpRuns(e, place, old(tmpCnt), added)
      decreases e, 6
    {
      hide ExpRuns, CondRuns, Hollow, Loops, Tidy, Spaced, EndsInGoto, CleanCond;
      var label1 := NewLabel();
      var label2 := NewLabel();
      Emit(Assign(place, Constant(0)));
      ghost var head := [Assign(place, Constant(0))];
      ghost var c := TranslateCond(e, label1, label2);
      Emit(Label(label1));
      Emit(Assign(place, Constant(1)));
      Emit(Label(label2));
      ghost var tail := [Label(label1), Assign(place, Constant(1)), Label(label2)];
      added := head + c + tail;
      assert code == old(code) + head + c + tail;
      Assoc(old(code), head, c);
      Assoc(old(code), head + c, tail);
      TruthTidy(place, label1, label2, c, labelCnt);
      if CleanCond(e) { TruthRuns(e, place, old(tmpCnt), label1, label2, c); }
    }

    /** Code that jumps to `yes` or to `no`, as `e` is true or false. */
    method TranslateCond(e: Exp, yes: nat, no: nat) returns (ghost added: Code)
      requires yes <= labelCnt && no <= labelCnt
      modifies this
      ensures Grown(added) && Tidy(added, old(labelCnt), labelCnt, {yes, no}) && Loops(added)
      ensures !Hollow(added)
      ensures labelCnt == old(labelCnt) + CondLabels(e)
      ensures complaints == old(complaints) <==> CleanCond(e)
      ensures CleanCond(e) ==> Starts(added) && CondRuns(e, yes, no, old(tmpCnt), added)
      ensures e.Set? || e.Calculate? ==> added == []
      decreases e, 5
    {
      hide ExpRuns, CondRuns, Hollow, Loops, Tidy, Spaced, EndsInGoto;
      match e
      case Not(f) =>
        added := TranslateCond(f, no, yes);
        assert {no, yes} == {yes, no};
        if CleanCond(f) { NotRuns(f, yes, no, old(tmpCnt), added); }
      case And(a, b) =>
        added := TranslateAnd(e, yes, no);
      case Or(a, b) =>
        added := TranslateOr(e, yes, no);
      case Compare(rel, a, b) =>
        added := TranslateCompare(e, yes, no);
      case Set(x, f) =>
        complaints := complaints + 1;
        added := [];
        NothingTidy(labelCnt, {yes, no});
      case Calculate(op, a, b) =>
        complaints := complaints + 1;
        added := [];
        NothingTidy(labelCnt, {yes, no});
      case _ =>
        added := TranslateNonZero(e, yes, no);
    }

    method TranslateAnd(e: Exp, yes: nat, no: nat) returns (ghost added: Code)
      requires e.And?
      requires yes <= labelCnt && no <= labelCnt
      modifies this
      ensures Grown(added) && Tidy(added, old(labelCnt), labelCnt, {yes, no}) && Loops(added)
      ensures !Hollow(added)
      ensures labelCnt == old(labelCnt) + 1 + CondLabels(e.a) + CondLabels(e.b)
      ensures complaints == old(complaints) <==> CleanCond(e.a) && CleanCond(e.b)
      ensures CleanCond(e.a) && CleanCond(e.b) ==> Starts(added) && CondRuns(e, yes, no, old(tmpCnt), added)
      decreases e, 0
    {
      hide CondRuns, Hollow, Loops, Tidy, Spaced, EndsInGoto, CleanCond;
      var label1 := NewLabel();
      ghost var ca := TranslateCond(e.a, label1, no);
      ghost var mid, lmid := tmpCnt, labelCnt;
      Emit(Label(label1));
      ghost var cb := TranslateCond(e.b, yes, no);
      added := ca + [Label(label1)] + cb;
      Assoc(old(code), ca, [Label(label1)]);
      Assoc(old(code), ca + [Label(label1)], cb);
      SecondTidy(ca, cb, label1, lmid, labelCnt, {label1, no}, {yes, no});
      if CleanCond(e.a) && CleanCond(e.b) { AndRuns(e.a, e.b, yes, no, label1, old(tmpCnt), mid, ca, cb); }
    }

    method TranslateOr(e: Exp, yes: nat, no: nat) returns (ghost added: Code)
      requires e.Or?
      requires yes <= labelCnt && no <= labelCnt
      modifies this
      ensures Grown(added) && Tidy(added, old(labelCnt), labelCnt, {yes, no}) && Loops(added)
      ensures !Hollow(added)
      ensures labelCnt == old(labelCnt) + 1 + CondLabels(e.a) + CondLabels(e.b)
      ensures complaints == old(complaints) <==> CleanCond(e.a) && CleanCond(e.b)
      ensures CleanCond(e.a) && CleanCond(e.b) ==> Starts(added) && CondRuns(e, yes, no, old(tmpCnt), added)
      decreases e, 0
    {
      hide CondRuns, Hollow, Loops, Tidy, Spaced, EndsInGoto, CleanCond;
      var label1 := NewLabel();
      ghost var ca := TranslateCond(e.a, yes, label1);
      ghost var mid, lmid := tmpCnt, labelCnt;
      Emit(Label(label1));
      ghost var cb := TranslateCond(e.b, yes, no);
      added := ca + [Label(label1)] + cb;
      Assoc(old(code), ca, [Label(label1)]);
      Assoc(old(code), ca + [Label(label1)], cb);
      SecondTidy(ca, cb, label1, lmid, labelCnt, {yes, label1}, {yes, no});
      if CleanCond(e.a) && CleanCond(e.b) { OrRuns(e.a, e.b, yes, no, label1, old(tmpCnt), mid, ca, cb); }
    }

    method TranslateCompare(e: Exp, yes: nat, no: nat) returns (ghost added: Code)
      requires e.Compare?
      requires yes <= labelCnt && no <= labelCnt
      modifies this
      ensures Grown(added) && Tidy(added, old(labelCnt), labelCnt, {yes, no}) && Loops(added)
      ensures !Hollow(added)
      ensures labelCnt == old(labelCnt) + ExpLabels(e.a) + ExpLabels(e.b)
      ensures complaints == old(complaints) <==> CleanExp(e.a) && CleanExp(e.b)
      ensures CleanExp(e.a) && CleanExp(e.b) ==> Starts(added) && CondRuns(e, yes, no, old(tmpCnt), added)
      decreases e, 2
    {
      hide ExpRuns, CondRuns, Hollow, Loops, Tidy, Spaced, EndsInGoto, CleanExp;
      var tmp1, tmp2, ca, cb, mid := TranslateTwo(e);
      added := TwoJumps(e.rel, tmp1, tmp2, yes, no, ca + cb, old(labelCnt), old(code));
      if CleanExp(e.a) && CleanExp(e.b) { CompareRuns(e.rel, e.a, e.b, yes, no, old(tmpCnt), mid, ca, cb); }
    }

    method TranslateNonZero(e: Exp, yes: nat, no: nat) returns (ghost added: Code)
      requires e.Paren? || e.Minus? || e.Num? || e.Id? || e.Input?
      requires yes <= labelCnt && no <= labelCnt
      modifies this
      ensures Grown(added) && Tidy(added, old(labelCnt), labelCnt, {yes, no}) && Loops(added)
      ensures !Hollow(added)
      ensures labelCnt == old(labelCnt) + ExpLabels(e)
      ensures complaints == old(complaints) <==> CleanExp(e)
      ensures CleanExp(e) ==> Starts(added) && CondRuns(e, yes, no, old(tmpCnt), added)
      decreases e, 4
    {
      hide ExpRuns, CondRuns, Hollow, Loops, Tidy, Spaced, EndsInGoto, CleanExp;
      var t1 := NewTemp();
      ghost var c := TranslateExp(e, t1);
      added := TwoJumps(Ne, t1, Constant(0), yes, no, c, old(labelCnt), old(code));
      if CleanExp(e) { NonZeroRuns(e, yes, no, old(tmpCnt), c); }
    }

    // Every condition ends with a conditional jump and a jump.
    method TwoJumps(rel: Relop, a: Operand, b: Operand, yes: nat, no: nat, ghost c: Code, ghost lo: nat, ghost was: Code)
      returns (ghost added: Code)
      requires code == was + c && lo <= labelCnt && Tidy(c, lo, labelCnt, {}) && Loops(c) && yes <= lo && no <= lo
      modifies this`code
      ensures added == c + [IfGoto(rel, a, b, yes), Goto(no)] && code == was + added
      ensures Tidy(added, lo, labelCnt, {yes, no}) && Loops(added) && (Hollow(added) <==> Hollow(c))
      ensures Spaced(old(code)) ==> Spaced(code)
    {
      hide Hollow, Loops, Tidy, Spaced, EndsInGoto;
      Emit(IfGoto(rel, a, b, yes));
      Emit(Goto(no));
      added := c + [IfGoto(rel, a, b, yes), Goto(no)];
      assert [IfGoto(rel, a, b, yes)] + [Goto(no)] == [IfGoto(rel, a, b, yes), Goto(no)];
      Assoc(was, c, [IfGoto(rel, a, b, yes), Goto(no)]);
      JumpTidy(IfGoto(rel, a, b, yes), labelCnt, {yes, no});
      JumpTidy(Goto(no), labelCnt, {yes, no});
      MoreOuts(c, lo, labelCnt, {}, {yes, no});
      CatTidy([IfGoto(rel, a, b, yes)], [Goto(no)], labelCnt, labelCnt, labelCnt, {yes, no});
      CatTidy(c, [IfGoto(rel, a, b, yes)] + [Goto(no)], lo, labelCnt, labelCnt, {yes, no});
    }

    // ---------- statements ----------

    /** Code that does what `s` does. */
    method TranslateStmt(s: Stmt) returns (ghost added: Code)
      modifies this
      ensures Grown(added) && EndsOpen() && Tidy(added, old(labelCnt), labelCnt, {})
      ensures Hollow(added) <==> !Wanted(s)
      ensures labelCnt == old(labelCnt) + StmtLabels(s)
      ensures complaints == old(complaints) <==> CleanStmt(s)
      ensures CleanStmt(s) ==> Loops(added) && StmtRuns(s, added)
      decreases s, 1
    {
      hide ExpRuns, CondRuns, StmtRuns, Hollow, Loops, Tidy, Spaced, EndsInGoto, CleanExp, CleanCond;
      match s
      case Do(e) =>
        added := TranslateExp(e, Missing);
        if CleanExp(e) { DoRuns(e, old(tmpCnt), added); }
      case Block(body) =>
        added := TranslateCompSt(body);
        if CleanStmt(s) { BlockRuns(body, added); }
      case If(c, t) =>
        added := TranslateIf(s);
      case IfElse(c, t, u) =>
        added := TranslateIfElse(s);
      case While(c, t) =>
        added := TranslateWhile(s);
      case _ =>
        added := TranslateUse(s);
    }

    // A value computed into a new temporary and then returned, written or stored.
    method TranslateUse(s: Stmt) returns (ghost added: Code)
      requires s.Print? || s.Init? || s.Ret?
      modifies this
      ensures Grown(added) && EndsOpen() && Tidy(added, old(labelCnt), labelCnt, {})
      ensures !Hollow(added)
      ensures labelCnt == old(labelCnt) + ExpLabels(s.e)
      ensures complaints == old(complaints) <==> CleanExp(s.e)
      ensures CleanExp(s.e) ==> Loops(added) && StmtRuns(s, added)
      decreases s, 0
    {
      hide ExpRuns, StmtRuns, Hollow, Loops, Tidy, Spaced, EndsInGoto, CleanExp;
      var newOp := NewTemp();
      ghost var c := TranslateExp(s.e, newOp);
      var ins := match s case Print(_) => Write(newOp) case Init(x, _) => Assign(Variable(x), newOp) case _ => Return(newOp);
      Emit(ins);
      added := c + [ins];
      Assoc(old(code), c, [ins]);
      PlainTidy(ins, labelCnt);
      CatTidy(c, [ins], old(labelCnt), labelCnt, labelCnt, {});
      if CleanExp(s.e) { UseRuns(s, old(tmpCnt), c); }
    }

    method TranslateCompSt(body: seq<Stmt>) returns (ghost added: Code)
      modifies this
      ensures Grown(added) && EndsOpen() && Tidy(added, old(labelCnt), labelCnt, {})
      ensures Hollow(added) <==> exists k :: 0 <= k < |body| && !Wanted(body[k])
      ensures labelCnt == old(labelCnt) + AllLabels(body)
      ensures complaints == old(complaints) <==> forall k :: 0 <= k < |body| ==> CleanStmt(body[k])
      ensures (forall k :: 0 <= k < |body| ==> CleanStmt(body[k])) ==> Loops(added) && AllRun(body, added)
      decreases body, 0
    {
      hide StmtRuns, AllRun, Hollow, Loops, Tidy, Spaced, EndsInGoto, CleanStmt, Wanted, StmtLabels, AllLabels;
      added := [];
      var i := 0;
      NothingTidy(labelCnt, {});
      NothingRuns();
      LabelsNext(body, 0);
      assert body[..0] == [];
      while i < |body|
        invariant i <= |body| && Grown(added) && EndsOpen() && Tidy(added, old(labelCnt), labelCnt, {})
        invariant labelCnt == old(labelCnt) + AllLabels(body[..i])
        invariant Hollow(added) <==> exists k :: 0 <= k < i && !Wanted(body[k])
        invariant complaints == old(complaints) <==> forall k :: 0 <= k < i ==> CleanStmt(body[k])
        invariant (forall k :: 0 <= k < i ==> CleanStmt(body[k])) ==> Loops(added) && AllRun(body[..i], added)
      {
        ghost var mid, was := labelCnt, complaints;
        ghost var c := TranslateStmt(body[i]);
        Assoc(old(code), added, c);
        CatTidy(added, c, old(labelCnt), mid, labelCnt, {});
        if (forall k :: 0 <= k < i ==> CleanStmt(body[k])) && CleanStmt(body[i]) {
          OneMoreRuns(body[..i], body[i], added, c);
        }
        LabelsNext(body, i);
        assert body[..i] + [body[i]] == body[..i + 1];
        added := added + c;
        i := i + 1;
      }
      assert body[..i] == body;
    }

    method TranslateIf(s: Stmt) returns (ghost added: Code)
      requires s.If?
      modifies this
      ensures Grown(added) && EndsOpen() && Tidy(added, old(labelCnt), labelCnt, {})
      ensures Hollow(added) <==> !Wanted(s)
      ensures labelCnt == old(labelCnt) + 2 + CondLabels(s.c) + StmtLabels(s.s)
      ensures complaints == old(complaints) <==> CleanCond(s.c) && CleanStmt(s.s)
      ensures CleanCond(s.c) && CleanStmt(s.s) ==> Loops(added) && StmtRuns(s, added)
      // without its condition the statement always runs
      ensures (s.c.Set? || s.c.Calculate?) && CleanStmt(s.s) ==> StmtRuns(s.s, added)
      decreases s, 0
    {
      hide CondRuns, StmtRuns, Hollow, Loops, Tidy, Spaced, EndsInGoto, CleanCond, CleanStmt;
      var label1 := NewLabel();
      var label2 := NewLabel();
      ghost var ce := TranslateCond(s.c, label1, label2);
      ghost var mid := labelCnt;
      Emit(Label(label1));
      ghost var cs := TranslateStmt(s.s);
      Emit(Label(label2));
      added := ce + [Label(label1)] + cs + [Label(label2)];
      Assoc(old(code), ce, [Label(label1)]);
      Assoc(old(code), ce + [Label(label1)], cs);
      Assoc(old(code), ce + [Label(label1)] + cs, [Label(label2)]);
      IfTidy(label1, label2, ce, cs, mid, labelCnt);
      if CleanCond(s.c) && CleanStmt(s.s) { IfRuns(s.c, s.s, old(tmpCnt), label1, label2, ce, cs); }
      if (s.c.Set? || s.c.Calculate?) && CleanStmt(s.s) { BetweenLabels(s.s, label1, label2, cs); }
    }

    method TranslateIfElse(s: Stmt) returns (ghost added: Code)
      requires s.IfElse?
      modifies this
      ensures Grown(added) && EndsOpen() && Tidy(added, old(labelCnt), labelCnt, {})
      ensures Hollow(added) <==> !Wanted(s)
      ensures labelCnt == old(labelCnt) + 3 + CondLabels(s.c) + StmtLabels(s.s) + StmtLabels(s.t)
      ensures complaints == old(complaints) <==> CleanCond(s.c) && CleanStmt(s.s) && CleanStmt(s.t)
      ensures CleanCond(s.c) && CleanStmt(s.s) && CleanStmt(s.t) ==> Loops(added) && StmtRuns(s, added)
      decreases s, 0
    {
      hide CondRuns, StmtRuns, Hollow, Loops, Tidy, Spaced, EndsInGoto, CleanCond, CleanStmt;
      var label1 := NewLabel();
      var label2 := NewLabel();
      var label3 := NewLabel();
      ghost var ce := TranslateCond(s.c, label1, label2);
      ghost var mid1 := labelCnt;
      Emit(Label(label1));
      ghost var c1 := TranslateStmt(s.s);
      ghost var mid2 := labelCnt;
      Emit(Goto(label3));
      Emit(Label(label2));
      ghost var c2 := TranslateStmt(s.t);
      Emit(Label(label3));
      ghost var front := ce + [Label(label1)] + (c1 + [Goto(label3)]);
      added := front + [Label(label2)] + c2 + [Label(label3)];
      Assoc(old(code), ce, [Label(label1)]);
      Assoc(old(code) + (ce + [Label(label1)]), c1, [Goto(label3)]);
      Assoc(old(code), ce + [Label(label1)], c1 + [Goto(label3)]);
      Assoc(old(code), front, [Label(label2)]);
      Assoc(old(code), front + [Label(label2)], c2);
      Assoc(old(code), front + [Label(label2)] + c2, [Label(label3)]);
      IfElseTidy(label1, ce, c1, c2, mid1, mid2, labelCnt);
      if CleanCond(s.c) && CleanStmt(s.s) && CleanStmt(s.t) {
        IfElseLoops(label1, ce, c1, c2, mid1, mid2, labelCnt);
        IfElseRuns(s.c, s.s, s.t, old(tmpCnt), label1, label2, label3, ce, c1, c2);
      }
    }

    method TranslateWhile(s: Stmt) returns (ghost added: Code)
      requires s.While?
      modifies this
      ensures Grown(added) && EndsOpen() && Tidy(added, old(labelCnt), labelCnt, {})
      ensures Hollow(added) <==> !Wanted(s)
      ensures labelCnt == old(labelCnt) + 3 + CondLabels(s.c) + StmtLabels(s.s)
      ensures complaints == old(complaints) <==> CleanCond(s.c) && CleanStmt(s.s)
      ensures CleanCond(s.c) && CleanStmt(s.s) ==> Loops(added) && StmtRuns(s, added)
      decreases s, 0
    {
      hide CondRuns, StmtRuns, Hollow, Loops, Tidy, Spaced, EndsInGoto, CleanCond, CleanStmt;
      var label1 := NewLabel();
      var label2 := NewLabel();
      var label3 := NewLabel();
      Emit(Label(label1));
      ghost var ce := TranslateCond(s.c, label2, label3);
      ghost var mid := labelCnt;
      Emit(Label(label2));
      ghost var cs := TranslateStmt(s.s);
      Emit(Goto(label1));
      Emit(Label(label3));
      ghost var front := [Label(label1)] + ce + [Label(label2)];
      added := front + (cs + [Goto(label1)]) + [Label(label3)];
      Assoc(old(code), [Label(label1)], ce);
      Assoc(old(code), [Label(label1)] + ce, [Label(label2)]);
      Assoc(old(code) + front, cs, [Goto(label1)]);
      Assoc(old(code), front, cs + [Goto(label1)]);
      Assoc(old(code), front + (cs + [Goto(label1)]), [Label(label3)]);
      WhileTidy(label1, ce, cs, mid, labelCnt);
      if CleanCond(s.c) && CleanStmt(s.s) {
        WhileLoops(label1, ce, cs, mid, labelCnt);
        WhileRuns(s.c, s.s, old(tmpCnt), label1, label2, label3, ce, cs);
      }
    }
  }

  lemma LabelsNext(body: seq<Stmt>, i: nat)
    requires i <= |body|
    ensures AllLabels([]) == 0
    ensures i < |body| ==> AllLabels(body[..i + 1]) == AllLabels(body[..i]) + StmtLabels(body[i])
  {
    if i < |body| { assert body[..i + 1][..i] == body[..i]; }
  }

  lemma IfTidy(l1: nat, l2: nat, ce: Code, cs: Code, mid: nat, hi: nat)
    requires 0 < l1 && l2 == l1 + 1 && l2 <= mid <= hi && Tidy(ce, l2, mid, {l1, l2}) && Tidy(cs, mid, hi, {})
    ensures Tidy(ce + [Label(l1)] + cs + [Label(l2)], l1 - 1, hi, {})
    ensures Loops(ce) && Loops(cs) ==> Loops(ce + [Label(l1)] + cs + [Label(l2)])
    ensures Hollow(ce + [Label(l1)] + cs + [Label(l2)]) <==> Hollow(ce) || Hollow(cs)
  {
    HollowOne(Label(l1));
    HollowOne(Label(l2));
    HollowCat(ce, [Label(l1)]);
    HollowCat(ce + [Label(l1)], cs);
    HollowCat(ce + [Label(l1)] + cs, [Label(l2)]);
    hide Hollow;
    hide Count;
    CountOne(Label(l1));
    CountOne(Label(l2));
    CountPlus(ce, [Label(l1)]);
    CountPlus(ce + [Label(l1)], cs);
    CountPlus(ce + [Label(l1)] + cs, [Label(l2)]);
    if Loops(ce) && Loops(cs) {
      LoopsCat(ce, [Label(l1)]);
      LoopsCat(ce + [Label(l1)], cs);
      LoopsCat(ce + [Label(l1)] + cs, [Label(l2)]);
    }
  }

  lemma HollowIfElse(l: nat, ce: Code, c1: Code, c2: Code)
    ensures Hollow(ce + [Label(l)] + (c1 + [Goto(l + 2)]) + [Label(l + 1)] + c2 + [Label(l + 2)])
      <==> Hollow(ce) || Hollow(c1) || Hollow(c2)
  {
    var front, b1 := ce + [Label(l)], c1 + [Goto(l + 2)];
    HollowOne(Label(l));
    HollowOne(Label(l + 1));
    HollowOne(Label(l + 2));
    HollowOne(Goto(l + 2));
    hide Hollow;
    HollowCat(ce, [Label(l)]);
    HollowCat(c1, [Goto(l + 2)]);
    HollowCat(front, b1);
    HollowCat(front + b1, [Label(l + 1)]);
    HollowCat(front + b1 + [Label(l + 1)], c2);
    HollowCat(front + b1 + [Label(l + 1)] + c2, [Label(l + 2)]);
  }

  lemma IfElseTidy(l: nat, ce: Code, c1: Code, c2: Code, mid1: nat, mid2: nat, hi: nat)
    requires 0 < l && l + 2 <= mid1 <= mid2 <= hi
    requires Tidy(ce, l + 2, mid1, {l, l + 1}) && Tidy(c1, mid1, mid2, {}) && Tidy(c2, mid2, hi, {})
    ensures Tidy(ce + [Label(l)] + (c1 + [Goto(l + 2)]) + [Label(l + 1)] + c2 + [Label(l + 2)], l - 1, hi, {})
    ensures Hollow(ce + [Label(l)] + (c1 + [Goto(l + 2)]) + [Label(l + 1)] + c2 + [Label(l + 2)]) <==> Hollow(ce) || Hollow(c1) || Hollow(c2)
  {
    HollowIfElse(l, ce, c1, c2);
    hide Hollow;
    hide Count;
    var front := ce + [Label(l)];
    CountOne(Label(l));
    CountOne(Label(l + 1));
    CountOne(Label(l + 2));
    CountOne(Goto(l + 2));
    CountPlus(ce, [Label(l)]);
    CountPlus(c1, [Goto(l + 2)]);
    CountPlus(front, c1 + [Goto(l + 2)]);
    CountPlus(front + (c1 + [Goto(l + 2)]), [Label(l + 1)]);
    CountPlus(front + (c1 + [Goto(l + 2)]) + [Label(l + 1)], c2);
    CountPlus(front + (c1 + [Goto(l + 2)]) + [Label(l + 1)] + c2, [Label(l + 2)]);
  }

  lemma IfElseLoops(l: nat, ce: Code, c1: Code, c2: Code, mid1: nat, mid2: nat, hi: nat)
    requires 0 < l && l + 2 <= mid1 <= mid2 <= hi && Loops(ce) && Loops(c1) && Loops(c2)
    requires Tidy(ce, l + 2, mid1, {l, l + 1}) && Tidy(c1, mid1, mid2, {}) && Tidy(c2, mid2, hi, {})
    ensures Loops(ce + [Label(l)] + (c1 + [Goto(l + 2)]) + [Label(l + 1)] + c2 + [Label(l + 2)])
  {
    hide Count;
    var front, b1 := ce + [Label(l)], c1 + [Goto(l + 2)];
    CountOne(Label(l));
    CountOne(Label(l + 1));
    CountOne(Goto(l + 2));
    CountPlus(ce, [Label(l)]);
    CountPlus(c1, [Goto(l + 2)]);
    CountPlus(front, b1);
    CountPlus(front + b1, [Label(l + 1)]);
    LoopsCat(ce, [Label(l)]);
    LoopsCat(c1, [Goto(l + 2)]);
    LoopsCat(front, b1);
    LoopsCat(front + b1, [Label(l + 1)]);
    LoopsCat(front + b1 + [Label(l + 1)], c2);
    LoopsCat(front + b1 + [Label(l + 1)] + c2, [Label(l + 2)]);
  }

  lemma HollowWhile(l: nat, ce: Code, cs: Code)
    ensures Hollow([Label(l)] + ce + [Label(l + 1)] + (cs + [Goto(l)]) + [Label(l + 2)]) <==> Hollow(ce) || Hollow(cs)
  {
    var front, back := [Label(l)] + ce + [Label(l + 1)], cs + [Goto(l)];
    HollowOne(Label(l));
    HollowOne(Label(l + 1));
    HollowOne(Label(l + 2));
    HollowOne(Goto(l));
    hide Hollow;
    HollowCat([Label(l)], ce);
    HollowCat([Label(l)] + ce, [Label(l + 1)]);
    HollowCat(cs, [Goto(l)]);
    HollowCat(front, back);
    HollowCat(front + back, [Label(l + 2)]);
  }

  lemma WhileTidy(l: nat, ce: Code, cs: Code, mid: nat, hi: nat)
    requires 0 < l && l + 2 <= mid <= hi && Tidy(ce, l + 2, mid, {l + 1, l + 2}) && Tidy(cs, mid, hi, {})
    ensures Tidy([Label(l)] + ce + [Label(l + 1)] + (cs + [Goto(l)]) + [Label(l + 2)], l - 1, hi, {})
    ensures Hollow([Label(l)] + ce + [Label(l + 1)] + (cs + [Goto(l)]) + [Label(l + 2)]) <==> Hollow(ce) || Hollow(cs)
  {
    HollowWhile(l, ce, cs);
    hide Hollow;
    hide Count;
    CountOne(Label(l));
    CountOne(Label(l + 1));
    CountOne(Label(l + 2));
    CountOne(Goto(l));
    CountPlus([Label(l)], ce);
    CountPlus([Label(l)] + ce, [Label(l + 1)]);
    CountPlus(cs, [Goto(l)]);
    CountPlus([Label(l)] + ce + [Label(l + 1)], cs + [Goto(l)]);
    CountPlus([Label(l)] + ce + [Label(l + 1)] + (cs + [Goto(l)]), [Label(l + 2)]);
  }

  // The one jump back leads to the label before the condition, which starts with a plain instruction.
  lemma WhileLoops(l: nat, ce: Code, cs: Code, mid: nat, hi: nat)
    requires 0 < l && l + 2 <= mid <= hi && Tidy(ce, l + 2, mid, {l + 1, l + 2}) && Tidy(cs, mid, hi, {})
    requires Loops(ce) && Loops(cs) && Starts(ce)
    ensures Loops([Label(l)] + ce + [Label(l + 1)] + (cs + [Goto(l)]) + [Label(l + 2)])
  {
    hide Count;
    var front := [Label(l)] + ce + [Label(l + 1)];
    CountOne(Label(l));
    CountOne(Label(l + 1));
    CountPlus([Label(l)], ce);
    CountPlus([Label(l)] + ce, [Label(l + 1)]);
    LoopsCat([Label(l)], ce);
    LoopsCat([Label(l)] + ce, [Label(l + 1)]);
    LoopsCat(front, cs);
    CountPlus(front, cs);
    BackTo(front + cs, l);
    assert front + (cs + [Goto(l)]) == front + cs + [Goto(l)];
    LoopsCat(front + (cs + [Goto(l)]), [Label(l + 2)]);
  }

  lemma BackTo(c: Code, l: nat)
    requires Loops(c) && |c| >= 2 && c[0] == Label(l) && Plain(c[1]) && Count(c, l) <= 1
    ensures Loops(c + [Goto(l)])
  {
    forall f | 0 < f < |c|
      ensures c[f] != Label(l)
    {
      CountAt(c, 0, f, l);
    }
    var d := c + [Goto(l)];
    forall f, k | 0 <= f < k < |d| && IsJump(d[k]) && d[f] == Label(d[k].l)
      ensures Plain(d[f + 1])
    {
      if k < |c| { assert IsJump(c[k]) && c[f] == Label(c[k].l); }
    }
  }

  lemma SecondTidy(ca: Code, cb: Code, l: nat, mid: nat, hi: nat, outs: set<nat>, outs': set<nat>)
    requires 0 < l <= mid <= hi && Tidy(ca, l, mid, outs) && Tidy(cb, mid, hi, outs') && outs <= outs' + {l}
    ensures Tidy(ca + [Label(l)] + cb, l - 1, hi, outs')
    ensures Loops(ca) && Loops(cb) && (forall m :: m in outs' ==> m < l) ==> Loops(ca + [Label(l)] + cb)
    ensures Hollow(ca + [Label(l)] + cb) <==> Hollow(ca) || Hollow(cb)
  {
    HollowOne(Label(l));
    HollowCat(ca, [Label(l)]);
    HollowCat(ca + [Label(l)], cb);
    hide Hollow;
    CountOne(Label(l));
    CountPlus(ca, [Label(l)]);
    CountPlus(ca + [Label(l)], cb);
    if Loops(ca) && Loops(cb) && (forall m :: m in outs' ==> m < l) {
      LoopsCat(ca, [Label(l)]);
      LoopsCat(ca + [Label(l)], cb);
    }
  }

  lemma TruthTidy(d: Operand, l1: nat, l2: nat, c: Code, hi: nat)
    requires 0 < l1 && l2 == l1 + 1 && l2 <= hi && Tidy(c, l2, hi, {l1, l2})
    ensures Tidy([Assign(d, Constant(0))] + c + [Label(l1), Assign(d, Constant(1)), Label(l2)], l1 - 1, hi, {})
    ensures Loops(c) ==> Loops([Assign(d, Constant(0))] + c + [Label(l1), Assign(d, Constant(1)), Label(l2)])
    ensures Hollow([Assign(d, Constant(0))] + c + [Label(l1), Assign(d, Constant(1)), Label(l2)]) <==> Hollow(c)
  {
    HollowCat([Assign(d, Constant(0))], c);
    HollowCat([Assign(d, Constant(0))] + c, [Label(l1), Assign(d, Constant(1)), Label(l2)]);
    assert !Hollow([Assign(d, Constant(0))]) && !Hollow([Label(l1), Assign(d, Constant(1)), Label(l2)]);
    hide Hollow;
    var a, b := [Assign(d, Constant(0))], [Label(l1), Assign(d, Constant(1)), Label(l2)];
    CountOne(Assign(d, Constant(0)));
    CountOne(Assign(d, Constant(1)));
    CountOne(Label(l1));
    CountOne(Label(l2));
    CountPlus([Label(l1)], [Assign(d, Constant(1))]);
    CountPlus([Label(l1)] + [Assign(d, Constant(1))], [Label(l2)]);
    assert b == [Label(l1)] + [Assign(d, Constant(1))] + [Label(l2)];
    CountPlus(a, c);
    CountPlus(a + c, b);
    if Loops(c) {
      LoopsCat(a, c);
      LoopsCat(a + c, b);
    }
  }

  lemma LoopsTame(c: Code)
    requires Linked(c) && Loops(c)
    ensures Good(c)
  {
    forall k | 0 <= k < |c| && IsJump(c[k])
      ensures TameAt(c, Find(c, c[k].l), k)
    {
      var f := Find(c, c[k].l);
      if f < k { assert c[f] == Label(c[k].l); }
    }
  }

  lemma LabelsBelow(c: Code, hi: nat)
    requires Tidy(c, 0, hi, {})
    ensures forall k :: 0 <= k < |c| && (c[k].Label? || IsJump(c[k])) ==> c[k].l <= hi
  {
    forall k | 0 <= k < |c| && c[k].Label?
      ensures c[k].l <= hi
    {
      CountHas(c, k, c[k].l);
    }
  }

  /** A whole program: every label up to `labels` stands exactly once, every jump has a target, and
      the code does what the program does if there were no messages. */
  method Translate(s: Stmt) returns (code: Code, complaints: nat, labels: nat)
    ensures Tidy(code, 0, labels, {}) && Linked(code) && labels == StmtLabels(s)
    ensures forall k :: 0 <= k < |code| && (code[k].Label? || IsJump(code[k])) ==> code[k].l <= labels
    ensures complaints == 0 <==> CleanStmt(s)
    ensures Hollow(code) <==> !Wanted(s)
    ensures Spaced(code)
    ensures CleanStmt(s) ==> Good(code) && StmtRuns(s, code)
    ensures s.If? && (s.c.Set? || s.c.Calculate?) && CleanStmt(s.s) ==> StmtRuns(s.s, code)
  {
    hide StmtRuns, Loops, Tidy, CleanCond, Good;
    var t := new Translator();
    ghost var added;
    if s.If? {
      assert CleanStmt(s) <==> CleanCond(s.c) && CleanStmt(s.s);
      added := t.TranslateIf(s);
    } else {
      added := t.TranslateStmt(s);
    }
    assert [] + added == added;
    TidyLinked(added, t.labelCnt);
    LabelsBelow(added, t.labelCnt);
    if CleanStmt(s) { LoopsTame(added); }
    return t.code, t.complaints, t.labelCnt;
  }
}
