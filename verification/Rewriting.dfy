/** Changes of linked code that cannot be seen: instructions taken out, branches turned round,
    labels merged, jumps sent on. */
module Rewriting {
  import opened ThreeAddress

  function Without(p: Code, i: nat): (q: Code)
    requires i < |p|
    ensures |q| == |p| - 1
    ensures forall k :: 0 <= k < |p| && k != i ==> q[Shift(i, k)] == p[k]
  {
    p[..i] + p[i + 1..]
  }

  // Where place `k` is once place `i` is gone; `i` itself becomes the place after it.
  function Shift(i: nat, k: nat): nat {
    if k <= i then k else k - 1
  }

  function Moved(i: nat, c: Config): Config {
    match c
    case At(pc, st) => At(Shift(i, pc), st)
    case _ => c
  }

  // `q` is `p` without place `i`; apart from that only jumps may differ.
  ghost predicate SameLabels(p: Code, q: Code, i: nat) {
    && |q| + 1 == |p| && i < |p|
    && forall k :: 0 <= k < |p| && k != i && (p[k].Label? || q[Shift(i, k)].Label?) ==> q[Shift(i, k)] == p[k]
  }

  function Unshift(i: nat, k: nat): nat {
    if k < i then k else k + 1
  }

  lemma StillUnique(p: Code, q: Code, i: nat)
    requires Unique(p) && SameLabels(p, q, i)
    ensures Unique(q)
  {
    forall j, k | 0 <= j < k < |q| && q[j].Label? && q[k].Label?
      ensures q[j].l != q[k].l
    {
      assert q[Shift(i, Unshift(i, j))] == p[Unshift(i, j)] && q[Shift(i, Unshift(i, k))] == p[Unshift(i, k)];
    }
  }

  lemma FindMoved(p: Code, q: Code, i: nat, l: nat)
    requires Unique(p) && SameLabels(p, q, i) && p[i] != Label(l) && Find(p, l) < |p|
    ensures Find(q, l) == Shift(i, Find(p, l)) < |q|
  {
    StillUnique(p, q, i);
    var k := Find(p, l);
    assert q[Shift(i, k)] == p[k];
    UniqueFind(q, Shift(i, k));
  }

  // An instruction that is still there does what it did, unless it jumps to place `i`.
  lemma StepMoved(p: Code, q: Code, i: nat, pc: nat, st: State)
    requires Linked(p) && SameLabels(p, q, i) && pc != i
    requires pc < |p| ==> q[Shift(i, pc)] == p[pc] && (IsJump(p[pc]) ==> p[i] != Label(p[pc].l))
    ensures Step(q, At(Shift(i, pc), st)) == Moved(i, Step(p, At(pc, st)))
  {
    if pc < |p| && IsJump(p[pc]) { FindMoved(p, q, i, p[pc].l); }
  }

  // ---------- taking out an instruction that goes to the next place ----------

  ghost predicate StepsMoved(p: Code, q: Code, i: nat) {
    forall pc: nat, st :: pc != i ==> Step(q, At(Shift(i, pc), st)) == Moved(i, Step(p, At(pc, st)))
  }

  ghost predicate GoesOn(p: Code, i: nat) {
    forall st :: Step(p, At(i, st)) == At(i + 1, st)
  }

  // The relation between a run and the run without place `i`; with `never` that place is not visited.
  ghost function Tracks(i: nat, never: bool): (Config, Config) -> bool {
    (c: Config, c': Config) => c' == Moved(i, c) && !(never && c.At? && c.pc == i)
  }

  ghost function TracksBack(i: nat, never: bool): (Config, Config) -> bool {
    (c': Config, c: Config) => c' == Moved(i, c) && !(never && c.At? && c.pc == i)
  }

  lemma OutForth(p: Code, q: Code, i: nat, c: Config)
    requires GoesOn(p, i) && StepsMoved(p, q, i)
    ensures Follows(p, q, Tracks(i, false), c, Moved(i, c))
  {
    var r := Tracks(i, false);
    if c.At? {
      hide Step;
      assert Run(q, Moved(i, c), 1) == Step(q, Moved(i, c));
      if c.pc == i {
        assert r(Step(p, c), Run(q, Moved(i, c), 0));
      } else {
        assert r(Step(p, c), Run(q, Moved(i, c), 1));
      }
    } else {
      assert r(Step(p, c), Run(q, Moved(i, c), 0));
    }
  }

  lemma OutBack(p: Code, q: Code, i: nat, c: Config)
    requires GoesOn(p, i) && StepsMoved(p, q, i)
    ensures Follows(q, p, TracksBack(i, false), Moved(i, c), c)
  {
    var s := TracksBack(i, false);
    if c.At? {
      hide Step;
      assert Run(p, c, 1) == Step(p, c);
      if c.pc == i {
        assert Run(p, c, 2) == Run(p, Step(p, c), 1) == Step(p, At(i + 1, c.st));
        assert s(Step(q, Moved(i, c)), Run(p, c, 2));
      } else {
        assert s(Step(q, Moved(i, c)), Run(p, c, 1));
      }
    } else {
      assert s(Step(q, Moved(i, c)), Run(p, c, 0));
    }
  }

  lemma TakenOut(p: Code, q: Code, i: nat)
    requires GoesOn(p, i) && StepsMoved(p, q, i)
    ensures Same(p, q)
  {
    forall c: Config
      ensures Follows(p, q, Tracks(i, false), c, Moved(i, c)) && Follows(q, p, TracksBack(i, false), Moved(i, c), c)
    {
      OutForth(p, q, i, c);
      OutBack(p, q, i, c);
    }
    Tracked(p, q, i, false);
  }

  lemma Tracked(p: Code, q: Code, i: nat, never: bool)
    requires never ==> i > 0
    requires forall c: Config :: !(never && c.At? && c.pc == i) ==>
      Follows(p, q, Tracks(i, never), c, Moved(i, c)) && Follows(q, p, TracksBack(i, never), Moved(i, c), c)
    ensures Same(p, q)
  {
    hide Step, Follows, Same;
    assert forall c: Config :: Seen(Moved(i, c)) == Seen(c);
    assert forall st: State :: Moved(i, At(0, st)) == At(0, st);
    Bisimilar(p, q, Tracks(i, never), TracksBack(i, never));
  }

  // ---------- taking out what is never reached ----------

  ghost predicate NeverAt(p: Code, i: nat) {
    i > 0 && forall c: Config :: !(c.At? && c.pc == i) ==> !(Step(p, c).At? && Step(p, c).pc == i)
  }

  lemma NeverReached(p: Code, q: Code, i: nat)
    requires NeverAt(p, i) && StepsMoved(p, q, i)
    ensures Same(p, q)
  {
    forall c: Config | !(c.At? && c.pc == i)
      ensures Follows(p, q, Tracks(i, true), c, Moved(i, c)) && Follows(q, p, TracksBack(i, true), Moved(i, c), c)
    {
      NeverForth(p, q, i, c);
      NeverBack(p, q, i, c);
    }
    Tracked(p, q, i, true);
  }

  lemma NeverForth(p: Code, q: Code, i: nat, c: Config)
    requires NeverAt(p, i) && StepsMoved(p, q, i) && !(c.At? && c.pc == i)
    ensures Follows(p, q, Tracks(i, true), c, Moved(i, c))
  {
    var r := Tracks(i, true);
    if c.At? {
      hide Step;
      assert r(Step(p, c), Run(q, Moved(i, c), 1)) by { assert Run(q, Moved(i, c), 1) == Step(q, Moved(i, c)); }
    } else {
      assert r(Step(p, c), Run(q, Moved(i, c), 0));
    }
  }

  lemma NeverBack(p: Code, q: Code, i: nat, c: Config)
    requires NeverAt(p, i) && StepsMoved(p, q, i) && !(c.At? && c.pc == i)
    ensures Follows(q, p, TracksBack(i, true), Moved(i, c), c)
  {
    var s := TracksBack(i, true);
    if c.At? {
      hide Step;
      assert s(Step(q, Moved(i, c)), Run(p, c, 1)) by { assert Run(p, c, 1) == Step(p, c); }
    } else {
      assert s(Step(q, Moved(i, c)), Run(p, c, 0));
    }
  }

  /** No jump stands directly before another one. */
  ghost predicate Spaced(c: Code) {
    forall k :: 0 <= k && k + 1 < |c| && c[k].Goto? ==> !c[k + 1].Goto?
  }

  predicate EndsInGoto(c: Code) {
    c != [] && c[|c| - 1].Goto?
  }

  // ---------- code whose loops start with a plain instruction ----------

  predicate Plain(ins: Instr) {
    ins.Assign? || ins.Bin? || ins.Read? || ins.Write?
  }

  /** Whatever is jumped back to is a label with a plain instruction after it. */
  ghost predicate Tame(p: Code) {
    forall k :: 0 <= k < |p| && IsJump(p[k]) ==> TameAt(p, Find(p, p[k].l), k)
  }

  ghost predicate TameAt(p: Code, f: nat, k: nat) {
    f < k ==> f + 1 < |p| && Plain(p[f + 1])
  }

  ghost predicate Good(p: Code) {
    Linked(p) && Tame(p)
  }

  lemma TameMoved(p: Code, q: Code, i: nat, f: nat, m: nat)
    requires TameAt(p, f, m) && |q| + 1 == |p| && i < |p| && !Plain(p[i]) && m < |p| && m != i
    requires f + 1 < |p| && f + 1 != i && Plain(p[f + 1]) ==> f != i && q[Shift(i, f + 1)] == p[f + 1]
    ensures TameAt(q, Shift(i, f), Shift(i, m))
  {
  }

  // Where a jump leads when place `i` is gone.
  lemma TargetMoved(p: Code, i: nat, m: nat)
    requires Linked(p) && i < |p| && m < |p| && m != i && IsJump(p[m]) && p[i] != Label(p[m].l)
    ensures var q := Without(p, i); Unique(q) && Find(q, p[m].l) == Shift(i, Find(p, p[m].l)) < |q|
  {
    assert SameLabels(p, Without(p, i), i);
    StillUnique(p, Without(p, i), i);
    FindMoved(p, Without(p, i), i, p[m].l);
  }

  lemma WithoutUnique(p: Code, i: nat)
    requires Unique(p) && i < |p|
    ensures Unique(Without(p, i))
  {
    assert SameLabels(p, Without(p, i), i);
    StillUnique(p, Without(p, i), i);
  }

  // Taking out an instruction that is not plain and not jumped to.
  lemma StillGood(p: Code, i: nat)
    requires Good(p) && i < |p| && !Plain(p[i])
    requires p[i].Label? ==> forall k :: 0 <= k < |p| && IsJump(p[k]) ==> p[k].l != p[i].l
    ensures Good(Without(p, i))
  {
    var q := Without(p, i);
    WithoutUnique(p, i);
    forall k | 0 <= k < |q| && IsJump(q[k])
      ensures Find(q, q[k].l) < |q| && TameAt(q, Find(q, q[k].l), k)
    {
      StillGoodAt(p, i, Unshift(i, k));
    }
  }

  lemma StillGoodAt(p: Code, i: nat, m: nat)
    requires Good(p) && i < |p| && m < |p| && m != i && !Plain(p[i]) && IsJump(p[m]) && p[i] != Label(p[m].l)
    ensures var q, k := Without(p, i), Shift(i, m);
      q[k] == p[m] && Find(q, q[k].l) < |q| && TameAt(q, Find(q, q[k].l), k)
  {
    TargetMoved(p, i, m);
    var f := Find(p, p[m].l);
    assert f < |p| && p[f] == Label(p[m].l) && TameAt(p, f, m);
    hide Find, Linked, Tame;
    TameMoved(p, Without(p, i), i, f, m);
  }

  lemma AllStepsMoved(p: Code, i: nat)
    requires Linked(p) && i < |p|
    requires p[i].Label? ==> forall k :: 0 <= k < |p| && IsJump(p[k]) ==> p[k].l != p[i].l
    ensures StepsMoved(p, Without(p, i), i)
  {
    forall pc: nat, st | pc != i
      ensures Step(Without(p, i), At(Shift(i, pc), st)) == Moved(i, Step(p, At(pc, st)))
    {
      StepMoved(p, Without(p, i), i, pc, st);
    }
  }

  /** A jump to the next place can go. */
  lemma GotoNext(p: Code, i: nat)
    requires Good(p) && i + 1 < |p| && p[i].Goto? && p[i + 1] == Label(p[i].l)
    ensures Same(p, Without(p, i)) && Good(Without(p, i))
  {
    UniqueFind(p, i + 1);
    AllStepsMoved(p, i);
    TakenOut(p, Without(p, i), i);
    StillGood(p, i);
  }

  lemma AfterReturnNever(p: Code, i: nat)
    requires i + 1 < |p| && p[i].Return? && p[i + 1].Goto?
    ensures NeverAt(p, i + 1)
  {
    forall c: Config | !(c.At? && c.pc == i + 1)
      ensures !(Step(p, c).At? && Step(p, c).pc == i + 1)
    {
      hide Effect;
    }
  }

  /** A jump after a return can go. */
  lemma GotoAfterReturn(p: Code, i: nat)
    requires Good(p) && i + 1 < |p| && p[i].Return? && p[i + 1].Goto?
    ensures Same(p, Without(p, i + 1)) && Good(Without(p, i + 1))
  {
    AllStepsMoved(p, i + 1);
    AfterReturnNever(p, i);
    hide Step;
    NeverReached(p, Without(p, i + 1), i + 1);
    StillGood(p, i + 1);
  }

  /** A label nobody jumps to can go. */
  lemma UselessLabel(p: Code, i: nat)
    requires Good(p) && i < |p| && p[i].Label?
    requires forall k :: 0 <= k < |p| && IsJump(p[k]) ==> p[k].l != p[i].l
    ensures Same(p, Without(p, i)) && Good(Without(p, i))
  {
    AllStepsMoved(p, i);
    TakenOut(p, Without(p, i), i);
    StillGood(p, i);
  }

  /** An assignment to nothing can go. */
  lemma NoPlace(p: Code, i: nat)
    requires Linked(p) && i < |p| && p[i].Assign? && p[i].d == Missing
    ensures Same(p, Without(p, i)) && Linked(Without(p, i))
  {
    AllStepsMoved(p, i);
    TakenOut(p, Without(p, i), i);
    var q := Without(p, i);
    assert SameLabels(p, q, i);
    StillUnique(p, q, i);
    forall k | 0 <= k < |q| && IsJump(q[k])
      ensures Find(q, q[k].l) < |q|
    {
      assert q[Shift(i, Unshift(i, k))] == p[Unshift(i, k)];
      FindMoved(p, q, i, q[k].l);
    }
  }

  // ---------- two labels at one place ----------

  function SentTo(ins: Instr, l: nat): Instr {
    match ins
    case Goto(_) => Goto(l)
    case IfGoto(rel, a, b, _) => IfGoto(rel, a, b, l)
    case _ => ins
  }

  // Without label `i`; the jumps to it go to the label after it.
  ghost predicate Merged(p: Code, q: Code, i: nat) {
    && i + 1 < |p| && |q| + 1 == |p| && p[i].Label? && p[i + 1].Label?
    && forall k :: 0 <= k < |p| && k != i ==>
         q[Shift(i, k)] == if IsJump(p[k]) && p[k].l == p[i].l then SentTo(p[k], p[i + 1].l) else p[k]
  }

  lemma MergedTargets(p: Code, q: Code, i: nat, k: nat)
    requires Linked(p) && Merged(p, q, i) && k < |p| && k != i && IsJump(p[k])
    ensures Unique(q) && Find(q, q[Shift(i, k)].l) == Shift(i, Find(p, p[k].l)) < |q|
  {
    assert SameLabels(p, q, i);
    StillUnique(p, q, i);
    if p[k].l == p[i].l {
      UniqueFind(p, i);
      UniqueFind(p, i + 1);
      FindMoved(p, q, i, p[i + 1].l);
    } else {
      FindMoved(p, q, i, p[k].l);
    }
  }

  lemma MergedSteps(p: Code, q: Code, i: nat, pc: nat, st: State)
    requires Linked(p) && Merged(p, q, i) && pc != i
    ensures Step(q, At(Shift(i, pc), st)) == Moved(i, Step(p, At(pc, st)))
  {
    hide Effect, Find, Unique, Tame;
    if pc < |p| && IsJump(p[pc]) { MergedTargets(p, q, i, pc); }
  }

  lemma MergedGoodAt(p: Code, q: Code, i: nat, m: nat)
    requires Good(p) && Merged(p, q, i) && m < |p| && m != i && IsJump(p[m])
    ensures var k := Shift(i, m); IsJump(q[k]) && Find(q, q[k].l) < |q| && TameAt(q, Find(q, q[k].l), k)
  {
    MergedTargets(p, q, i, m);
    var f := Find(p, p[m].l);
    assert f < |p| && p[f] == Label(p[m].l) && TameAt(p, f, m);
    hide Find, Linked, Tame;
    TameMoved(p, q, i, f, m);
  }

  lemma MergedGood(p: Code, q: Code, i: nat)
    requires Good(p) && Merged(p, q, i)
    ensures Good(q)
  {
    assert SameLabels(p, q, i);
    StillUnique(p, q, i);
    forall k | 0 <= k < |q| && IsJump(q[k])
      ensures Find(q, q[k].l) < |q| && TameAt(q, Find(q, q[k].l), k)
    {
      var m := Unshift(i, k);
      assert IsJump(p[m]) && Shift(i, m) == k;
      MergedGoodAt(p, q, i, m);
    }
  }

  /** Of two labels at one place the first can go if the jumps to it are sent to the second. */
  lemma MergeLabels(p: Code, q: Code, i: nat)
    requires Linked(p) && Merged(p, q, i)
    ensures Same(p, q) && (Tame(p) ==> Good(q))
  {
    forall pc: nat, st | pc != i
      ensures Step(q, At(Shift(i, pc), st)) == Moved(i, Step(p, At(pc, st)))
    {
      MergedSteps(p, q, i, pc, st);
    }
    TakenOut(p, q, i);
    if Tame(p) { MergedGood(p, q, i); }
  }

  lemma MergedLinked(p: Code, q: Code, i: nat)
    requires Linked(p) && Merged(p, q, i)
    ensures Linked(q)
  {
    assert SameLabels(p, q, i);
    StillUnique(p, q, i);
    hide Find, Unique;
    forall k | 0 <= k < |q| && IsJump(q[k])
      ensures Find(q, q[k].l) < |q|
    {
      var m := Unshift(i, k);
      assert IsJump(p[m]) && Shift(i, m) == k;
      MergedTargets(p, q, i, m);
    }
  }

  lemma StuckNotLooping()
    ensures !Same([Label(1), Label(2), Goto(1)], [Label(2), Goto(1)])
  {
    var p, q := [Label(1), Label(2), Goto(1)], [Label(2), Goto(1)];
    var st := State(map[], [], []);
    assert Step(q, At(0, st)) == At(1, st);
    assert Find(q, 1) == 2;
    assert Step(q, At(1, st)) == Stuck(st);
    assert Run(q, At(0, st), 2) == Run(q, Step(q, At(0, st)), 1) == Run(q, At(1, st), 1) == Step(q, At(1, st));
    assert Shows(q, st, Stuck(st));
    forall n: nat
      ensures Run(p, At(0, st), n).At?
    {
      LoopStays(p, 0, st, n);
    }
    assert !Shows(p, st, Stuck(st));
  }

  lemma {:induction false} LoopStays(p: Code, pc: nat, st: State, n: nat)
    requires p == [Label(1), Label(2), Goto(1)] && pc < 3
    ensures Run(p, At(pc, st), n).At?
    decreases n
  {
    if n > 0 {
      assert Step(p, At(pc, st)) == At((pc + 1) % 3, st);
      LoopStays(p, (pc + 1) % 3, st, n - 1);
    }
  }

  // ---------- a branch over a jump ----------

  function Opposite(rel: Relop): (r: Relop)
    ensures forall x, y :: Holds(r, x, y) <==> !Holds(rel, x, y)
  {
    match rel
    case Eq => Ne
    case Ne => Eq
    case Ge => Lt
    case Le => Gt
    case Gt => Le
    case Lt => Ge
  }

  // `IF a rel b GOTO n; GOTO m; LABEL n` at place `i` has become `IF !(a rel b) GOTO m; LABEL n`.
  ghost predicate Turned(p: Code, q: Code, i: nat) {
    && i + 2 < |p| && |q| + 1 == |p| && p[i].IfGoto? && p[i + 1].Goto? && p[i + 2] == Label(p[i].l)
    && q[i] == IfGoto(Opposite(p[i].rel), p[i].a, p[i].b, p[i + 1].l)
    && forall k :: 0 <= k < |p| && k != i && k != i + 1 ==> q[Shift(i + 1, k)] == p[k]
  }

  predicate Taken(p: Code, i: nat, st: State)
    requires i < |p| && p[i].IfGoto?
  {
    Holds(p[i].rel, Look(st, p[i].a), Look(st, p[i].b))
  }

  // Between the branch and the jump the turned code is still at the branch.
  ghost predicate Turning(p: Code, i: nat, c: Config, c': Config) {
    if !c.At? then c' == c
    else if c.pc == i + 1 then i < |p| && p[i].IfGoto? && c' == At(i, c.st) && !Taken(p, i, c.st)
    else c' == At(Shift(i + 1, c.pc), c.st)
  }

  ghost function TurnForth(p: Code, i: nat): (Config, Config) -> bool {
    (c, c') => Turning(p, i, c, c')
  }

  ghost function TurnBack(p: Code, i: nat): (Config, Config) -> bool {
    (c', c) => Turning(p, i, c, c')
  }

  lemma TurnedFind(p: Code, q: Code, i: nat, l: nat)
    requires Linked(p) && Turned(p, q, i) && Find(p, l) < |p|
    ensures Unique(q) && Find(q, l) == Shift(i + 1, Find(p, l)) < |q| && Find(p, l) != i && Find(p, l) != i + 1
  {
    assert SameLabels(p, q, i + 1);
    StillUnique(p, q, i + 1);
    FindMoved(p, q, i + 1, l);
  }

  lemma TurnedForth(p: Code, q: Code, i: nat, c: Config, c': Config)
    requires Linked(p) && Turned(p, q, i) && Turning(p, i, c, c')
    ensures Follows(p, q, TurnForth(p, i), c, c')
  {
    var r := TurnForth(p, i);
    assert Run(q, c', 0) == c' && Run(q, c', 1) == Step(q, c');
    if !c.At? {
      assert r(Step(p, c), Run(q, c', 0));
    } else if c.pc == i {
      TurnedFind(p, q, i, p[i].l);
      UniqueFind(p, i + 2);
      if Taken(p, i, c.st) {
        assert Turning(p, i, Step(p, c), Step(q, c'));
        assert r(Step(p, c), Run(q, c', 1));
      } else {
        assert r(Step(p, c), Run(q, c', 0));
      }
    } else {
      TurnedStep(p, q, i, c, c');
      assert r(Step(p, c), Run(q, c', 1));
    }
  }

  // Away from the branch one step is one step.
  lemma TurnedStep(p: Code, q: Code, i: nat, c: Config, c': Config)
    requires Linked(p) && Turned(p, q, i) && Turning(p, i, c, c') && c.At? && c.pc != i
    ensures Turning(p, i, Step(p, c), Step(q, c'))
  {
    hide Unique, Find, Effect;
    if c.pc == i + 1 {
      TurnedFind(p, q, i, p[i + 1].l);
    } else if c.pc < |p| {
      assert q[Shift(i + 1, c.pc)] == p[c.pc];
      if IsJump(p[c.pc]) { TurnedFind(p, q, i, p[c.pc].l); }
    }
  }

  lemma TurnedBack(p: Code, q: Code, i: nat, c: Config, c': Config)
    requires Linked(p) && Turned(p, q, i) && Turning(p, i, c, c')
    ensures Follows(q, p, TurnBack(p, i), c', c)
  {
    var s := TurnBack(p, i);
    assert Run(p, c, 0) == c && Run(p, c, 1) == Step(p, c) && Run(p, c, 2) == Step(p, Step(p, c));
    if !c.At? {
      assert s(Step(q, c'), Run(p, c, 0));
    } else if c.pc == i {
      TurnedFind(p, q, i, p[i].l);
      TurnedFind(p, q, i, p[i + 1].l);
      UniqueFind(p, i + 2);
      if Taken(p, i, c.st) {
        assert Turning(p, i, Step(p, c), Step(q, c'));
        assert s(Step(q, c'), Run(p, c, 1));
      } else {
        assert Turning(p, i, Step(p, Step(p, c)), Step(q, c'));
        assert s(Step(q, c'), Run(p, c, 2));
      }
    } else {
      TurnedStep(p, q, i, c, c');
      assert s(Step(q, c'), Run(p, c, 1));
    }
  }

  lemma TurnedGood(p: Code, q: Code, i: nat)
    requires Good(p) && Turned(p, q, i)
    ensures Good(q)
  {
    TurnedFind(p, q, i, p[i].l);
    hide Find, Unique, TameAt;
    forall k | 0 <= k < |q| && IsJump(q[k])
      ensures Find(q, q[k].l) < |q| && TameAt(q, Find(q, q[k].l), k)
    {
      var m := if k == i then i + 1 else Unshift(i + 1, k);
      assert IsJump(p[m]) && p[m].l == q[k].l;
      TurnedFind(p, q, i, p[m].l);
      TurnedTame(p, q, i, Find(p, p[m].l), m, k);
    }
  }

  lemma TurnedTame(p: Code, q: Code, i: nat, f: nat, m: nat, k: nat)
    requires Turned(p, q, i) && TameAt(p, f, m) && f != i && f != i + 1
    requires if k == i then m == i + 1 else m == Unshift(i + 1, k)
    ensures TameAt(q, Shift(i + 1, f), k)
  {
    if f < m {
      assert q[Shift(i + 1, f + 1)] == p[f + 1];
    }
  }

  /** A branch over a jump can be turned round. */
  lemma TurnBranch(p: Code, q: Code, i: nat)
    requires Good(p) && Turned(p, q, i)
    ensures Same(p, q) && Good(q)
  {
    forall c: Config, c': Config | Turning(p, i, c, c')
      ensures Follows(p, q, TurnForth(p, i), c, c') && Follows(q, p, TurnBack(p, i), c', c)
    {
      TurnedForth(p, q, i, c, c');
      TurnedBack(p, q, i, c, c');
    }
    TurnedGood(p, q, i);
    TurnedSame(p, q, i);
  }

  lemma TurnedSame(p: Code, q: Code, i: nat)
    requires forall c: Config, c': Config :: Turning(p, i, c, c') ==>
      Follows(p, q, TurnForth(p, i), c, c') && Follows(q, p, TurnBack(p, i), c', c)
    ensures Same(p, q)
  {
    hide Step, Follows, Same;
    assert forall c: Config, c': Config :: Turning(p, i, c, c') ==> Seen(c) == Seen(c');
    assert forall st: State :: Turning(p, i, At(0, st), At(0, st));
    Bisimilar(p, q, TurnForth(p, i), TurnBack(p, i));
  }

  // ---------- jumps to a jump ----------

  // The jump at `k` to the label at `i` goes where the jump after that label goes.
  ghost predicate Threaded(p: Code, q: Code, i: nat, k: nat) {
    && i + 1 < |p| && k < i && p[i].Label? && p[i + 1].Goto? && p[i + 1].l != p[i].l
    && IsJump(p[k]) && p[k].l == p[i].l && q == p[k := SentTo(p[k], p[i + 1].l)]
  }

  ghost predicate Ahead(i: nat, j: nat, c: Config, c': Config) {
    c' == c || (c.At? && i <= c.pc <= i + 1 && c' == At(j, c.st))
  }

  ghost function AheadForth(i: nat, j: nat): (Config, Config) -> bool {
    (c, c') => Ahead(i, j, c, c')
  }

  ghost function AheadBack(i: nat, j: nat): (Config, Config) -> bool {
    (c', c) => Ahead(i, j, c, c')
  }

  lemma ThreadedFind(p: Code, q: Code, i: nat, k: nat, l: nat)
    requires Linked(p) && Threaded(p, q, i, k)
    ensures Unique(q) && Find(q, l) == Find(p, l)
  {
    assert forall m :: 0 <= m < |p| ==> q[m].Label? == p[m].Label? && (p[m].Label? ==> q[m] == p[m]);
    if Find(p, l) < |p| { UniqueFind(q, Find(p, l)); }
    if Find(q, l) < |q| { UniqueFind(p, Find(q, l)); }
  }

  lemma ThreadedStep(p: Code, q: Code, i: nat, k: nat, c: Config)
    requires Linked(p) && Threaded(p, q, i, k)
    ensures Ahead(i, Find(p, p[i + 1].l), Step(p, c), Step(q, c))
  {
    UniqueFind(p, i);
    hide Unique, Effect;
    if c.At? && c.pc < |p| && IsJump(p[c.pc]) {
      ThreadedFind(p, q, i, k, p[c.pc].l);
      ThreadedFind(p, q, i, k, p[i + 1].l);
    }
    hide Find;
  }

  lemma ThreadedForth(p: Code, q: Code, i: nat, k: nat, c: Config, c': Config)
    requires Linked(p) && Threaded(p, q, i, k) && Ahead(i, Find(p, p[i + 1].l), c, c')
    ensures Follows(p, q, AheadForth(i, Find(p, p[i + 1].l)), c, c')
  {
    var r := AheadForth(i, Find(p, p[i + 1].l));
    assert Run(q, c', 0) == c' && Run(q, c', 1) == Step(q, c');
    if c' == c {
      ThreadedStep(p, q, i, k, c);
      assert r(Step(p, c), Run(q, c', 1));
    } else {
      assert r(Step(p, c), Run(q, c', 0));
    }
  }

  lemma ThreadedBack(p: Code, q: Code, i: nat, k: nat, c: Config, c': Config)
    requires Linked(p) && Threaded(p, q, i, k) && Ahead(i, Find(p, p[i + 1].l), c, c')
    ensures Follows(q, p, AheadBack(i, Find(p, p[i + 1].l)), c', c)
  {
    var j := Find(p, p[i + 1].l);
    var s := AheadBack(i, j);
    assert Run(p, c, 1) == Step(p, c) && Run(p, c, 2) == Step(p, Step(p, c)) && Run(p, c, 3) == Step(p, Step(p, Step(p, c)));
    if c' == c {
      ThreadedStep(p, q, i, k, c);
      assert s(Step(q, c'), Run(p, c, 1));
    } else {
      assert q[j] == p[j] && p[j].Label?;
      assert Step(q, c') == At(j + 1, c.st);
      if c.pc == i {
        assert s(Step(q, c'), Run(p, c, 3));
      } else {
        assert s(Step(q, c'), Run(p, c, 2));
      }
    }
  }

  lemma ThreadedGood(p: Code, q: Code, i: nat, k: nat)
    requires Good(p) && Threaded(p, q, i, k)
    ensures Good(q)
  {
    ThreadedFind(p, q, i, k, p[i].l);
    UniqueFind(p, i);
    hide Unique;
    forall m | 0 <= m < |q| && IsJump(q[m])
      ensures Find(q, q[m].l) < |q| && TameAt(q, Find(q, q[m].l), m)
    {
      ThreadedFind(p, q, i, k, q[m].l);
      var f := Find(p, q[m].l);
      assert TameAt(p, f, if m == k then i + 1 else m);
    }
  }

  /** A jump to a label with a jump after it can go straight to where that jump goes. */
  lemma ThreadJump(p: Code, q: Code, i: nat, k: nat)
    requires Good(p) && Threaded(p, q, i, k)
    ensures Same(p, q) && Good(q)
  {
    var j := Find(p, p[i + 1].l);
    forall c: Config, c': Config | Ahead(i, j, c, c')
      ensures Follows(p, q, AheadForth(i, j), c, c') && Follows(q, p, AheadBack(i, j), c', c)
    {
      ThreadedForth(p, q, i, k, c, c');
      ThreadedBack(p, q, i, k, c, c');
    }
    ThreadedGood(p, q, i, k);
    ThreadedSame(p, q, i, j);
  }

  lemma ThreadedSame(p: Code, q: Code, i: nat, j: nat)
    requires forall c: Config, c': Config :: Ahead(i, j, c, c') ==>
      Follows(p, q, AheadForth(i, j), c, c') && Follows(q, p, AheadBack(i, j), c', c)
    ensures Same(p, q)
  {
    hide Step, Follows, Same;
    assert forall c: Config, c': Config :: Ahead(i, j, c, c') ==> Seen(c) == Seen(c');
    Bisimilar(p, q, AheadForth(i, j), AheadBack(i, j));
  }
}
