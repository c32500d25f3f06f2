/** What it means for whole programs that code realises a statement: same results, same crashes,
    same output, and it runs on for ever exactly if the statement does. */
module WholeProgram {
  import opened ThreeAddress
  import opened SourceLanguage
  import opened Realisation

  // How a run of the whole code shows an outcome.
  ghost predicate Ends(o: Outcome, c: Config) {
    match o
    case Normal(s) => c.Finished? && c.result == None && Agree(s, c.st)
    case Returned(v, s) => c.Finished? && c.result == Some(v) && Agree(s, c.st)
    case Crashed(s) => c.Stuck? && s.output == c.st.output
    case Timeout(_) => false
  }

  lemma FromStart(s: Stmt, p: Code, st: State, t: State, fuel: nat) returns (n: nat)
    requires StmtRuns(s, p) && Unique(p) && Agree(st, t)
    ensures var o := Exec(s, st, fuel);
      Matches(o, Run(p, At(0, t), n), |p|) && (o.Timeout? ==> n >= fuel)
  {
    hide Run, Exec, Unique, Agree, StmtRuns;
    assert Placed(p, 0, p);
    StmtUse(s, p, p, 0, st, t, fuel);
    n :| Matches(Exec(s, st, fuel), Run(p, At(0, t), n), |p|) && (Exec(s, st, fuel).Timeout? ==> n >= fuel);
  }

  /** A statement that ends is matched by a run that ends. */
  lemma EndIsReached(s: Stmt, p: Code, st: State, t: State, fuel: nat) returns (n: nat)
    requires StmtRuns(s, p) && Unique(p) && Agree(st, t) && !Exec(s, st, fuel).Timeout?
    ensures Ends(Exec(s, st, fuel), Run(p, At(0, t), n))
  {
    hide Exec, Unique, Agree, StmtRuns;
    n := FromStart(s, p, st, t, fuel);
    var o := Exec(s, st, fuel);
    if o.Normal? {
      OneMore(p, At(0, t), n);
      n := n + 1;
    }
  }

  // Once ended, a run stays as it is.
  lemma Stays(p: Code, c: Config, m: nat, n: nat)
    requires m <= n && !Run(p, c, m).At?
    ensures Run(p, c, n) == Run(p, c, m)
  {
    RunPlus(p, c, m, n - m);
    RunEnded(p, Run(p, c, m), n - m);
  }

  lemma EndIsUnique(p: Code, c: Config, m: nat, n: nat)
    requires !Run(p, c, m).At? && !Run(p, c, n).At?
    ensures Run(p, c, m) == Run(p, c, n)
  {
    if m <= n { Stays(p, c, m, n); } else { Stays(p, c, n, m); }
  }

  /** A run that ends is the run of a statement that ends, in the same way. */
  lemma EndIsMeant(s: Stmt, p: Code, st: State, t: State, n: nat)
    requires StmtRuns(s, p) && Unique(p) && Agree(st, t) && !Run(p, At(0, t), n).At?
    ensures Ends(Exec(s, st, n), Run(p, At(0, t), n))
  {
    hide Run, Exec, Unique, Agree, StmtRuns, Ends;
    var o := Exec(s, st, n);
    if o.Timeout? {
      var m := FromStart(s, p, st, t, n);
      Stays(p, At(0, t), n, m);
      assert false;
    } else {
      var m := EndIsReached(s, p, st, t, n);
      EndsEnded(o, Run(p, At(0, t), m));
      EndIsUnique(p, At(0, t), m, n);
    }
  }

  lemma EndsEnded(o: Outcome, c: Config)
    requires Ends(o, c)
    ensures !c.At?
  {
  }

  /** The code runs for ever exactly if the statement does. */
  lemma RunsForEver(s: Stmt, p: Code, st: State, t: State)
    requires StmtRuns(s, p) && Unique(p) && Agree(st, t)
    ensures (forall fuel: nat :: Exec(s, st, fuel).Timeout?) <==> (forall n: nat :: Run(p, At(0, t), n).At?)
  {
    hide Run, Exec, Unique, Agree, StmtRuns, Ends;
    if !forall n: nat :: Run(p, At(0, t), n).At? {
      var n: nat :| !Run(p, At(0, t), n).At?;
      EndIsMeant(s, p, st, t, n);
      NoEnd(Exec(s, st, n), Run(p, At(0, t), n));
    }
    if !forall fuel: nat :: Exec(s, st, fuel).Timeout? {
      var fuel: nat :| !Exec(s, st, fuel).Timeout?;
      var n := EndIsReached(s, p, st, t, fuel);
      EndsEnded(Exec(s, st, fuel), Run(p, At(0, t), n));
    }
  }

  lemma NoEnd(o: Outcome, c: Config)
    ensures Ends(o, c) ==> !o.Timeout?
  {
  }

  lemma {:induction false} OutputGrows(p: Code, c: Config, n: nat)
    ensures c.st.output <= Run(p, c, n).st.output
    decreases n
  {
    if n > 0 {
      assert c.st.output <= Step(p, c).st.output;
      OutputGrows(p, Step(p, c), n - 1);
    }
  }

  /** Also while both run on, the code has written no more than the statement with enough rounds has,
      and it gets to whatever the statement has written. */
  lemma OutputSoFar(s: Stmt, p: Code, st: State, t: State, n: nat) returns (m: nat)
    requires StmtRuns(s, p) && Unique(p) && Agree(st, t) && Exec(s, st, n).Timeout?
    ensures Run(p, At(0, t), n).st.output <= Exec(s, st, n).st.output
    ensures Run(p, At(0, t), m).st.output == Exec(s, st, n).st.output
  {
    hide Run, Exec, Unique, Agree, StmtRuns;
    m := FromStart(s, p, st, t, n);
    RunPlus(p, At(0, t), n, m - n);
    OutputGrows(p, Run(p, At(0, t), n), m - n);
  }

  // ---------- meaning, seen from outside ----------

  ghost predicate ShowsEnd(o: Outcome, p: Code, t: State) {
    exists c :: Shows(p, t, c) && Ends(o, c)
  }

  ghost predicate EndIsMeantBy(s: Stmt, st: State, c: Config) {
    exists fuel: nat :: Ends(Exec(s, st, fuel), c)
  }

  ghost predicate ShowsOutput(output: seq<int>, p: Code, t: State) {
    exists c :: Shows(p, t, c) && c.st.output == output
  }

  ghost predicate Written(output: seq<int>, s: Stmt, st: State) {
    exists fuel: nat :: output <= Exec(s, st, fuel).st.output
  }

  /** Whenever the statement ends, so does the code, alike, and the other way round; also in runs that
      do not end the code writes what the statement writes, and nothing else. */
  ghost predicate Means(s: Stmt, p: Code) {
    forall st, t :: Agree(st, t) ==> MeansFrom(s, p, st, t)
  }

  ghost predicate MeansFrom(s: Stmt, p: Code, st: State, t: State) {
    && (forall fuel: nat :: Exec(s, st, fuel).Timeout? || ShowsEnd(Exec(s, st, fuel), p, t))
    && (forall c :: Shows(p, t, c) && !c.At? ==> EndIsMeantBy(s, st, c))
    && (forall fuel: nat :: ShowsOutput(Exec(s, st, fuel).st.output, p, t))
    && (forall c :: Shows(p, t, c) ==> Written(c.st.output, s, st))
  }

  lemma SeenEnd(c: Config)
    requires !c.At? || !Seen(c).At?
    ensures Seen(c) == c
  {
  }

  lemma SeenOutput(c: Config)
    ensures Seen(c).st.output == c.st.output
  {
  }

  lemma EndsOutput(o: Outcome, c: Config)
    requires Ends(o, c)
    ensures o.st.output == c.st.output
  {
  }

  // What a statement has written with some number of rounds, the code writes too.
  lemma OutputIsShown(s: Stmt, p: Code, st: State, t: State, fuel: nat)
    requires StmtRuns(s, p) && Unique(p) && Agree(st, t)
    ensures ShowsOutput(Exec(s, st, fuel).st.output, p, t)
  {
    hide Run, Exec, Unique, Agree, StmtRuns, Ends, Seen;
    var m: nat;
    if Exec(s, st, fuel).Timeout? {
      m := OutputSoFar(s, p, st, t, fuel);
    } else {
      m := EndIsReached(s, p, st, t, fuel);
      EndsOutput(Exec(s, st, fuel), Run(p, At(0, t), m));
    }
    SeenOutput(Run(p, At(0, t), m));
    assert Shows(p, t, Seen(Run(p, At(0, t), m)));
  }

  // What the code has written, the statement with enough rounds writes too.
  lemma OutputIsMeant(s: Stmt, p: Code, st: State, t: State, n: nat)
    requires StmtRuns(s, p) && Unique(p) && Agree(st, t)
    ensures Run(p, At(0, t), n).st.output <= Exec(s, st, n).st.output
  {
    hide Run, Exec, Unique, Agree, StmtRuns, Ends;
    if Exec(s, st, n).Timeout? {
      var m := OutputSoFar(s, p, st, t, n);
    } else {
      var m := EndIsReached(s, p, st, t, n);
      EndsEnded(Exec(s, st, n), Run(p, At(0, t), m));
      EndsOutput(Exec(s, st, n), Run(p, At(0, t), m));
      if n <= m {
        RunPlus(p, At(0, t), n, m - n);
        OutputGrows(p, Run(p, At(0, t), n), m - n);
      } else {
        Stays(p, At(0, t), m, n);
      }
    }
  }

  /** Code that realises a statement means what the statement means. */
  lemma RunsMeans(s: Stmt, p: Code)
    requires StmtRuns(s, p) && Unique(p)
    ensures Means(s, p)
  {
    hide Run, Exec, Unique, Agree, StmtRuns, Ends, Seen;
    forall st, t | Agree(st, t)
      ensures MeansFrom(s, p, st, t)
    {
      forall fuel: nat
        ensures Exec(s, st, fuel).Timeout? || ShowsEnd(Exec(s, st, fuel), p, t)
        ensures ShowsOutput(Exec(s, st, fuel).st.output, p, t)
      {
        EndIsShown(s, p, st, t, fuel);
        OutputIsShown(s, p, st, t, fuel);
      }
      forall c | Shows(p, t, c)
        ensures !c.At? ==> EndIsMeantBy(s, st, c)
        ensures Written(c.st.output, s, st)
      {
        ShownIsMeant(s, p, st, t, c);
      }
    }
  }

  lemma EndIsShown(s: Stmt, p: Code, st: State, t: State, fuel: nat)
    requires StmtRuns(s, p) && Unique(p) && Agree(st, t)
    ensures Exec(s, st, fuel).Timeout? || ShowsEnd(Exec(s, st, fuel), p, t)
  {
    hide Run, Exec, Unique, Agree, StmtRuns, Ends, Seen;
    if !Exec(s, st, fuel).Timeout? {
      var n := EndIsReached(s, p, st, t, fuel);
      var c := Run(p, At(0, t), n);
      EndsEnded(Exec(s, st, fuel), c);
      SeenEnd(c);
      assert Shows(p, t, c);
    }
  }

  lemma ShownIsMeant(s: Stmt, p: Code, st: State, t: State, c: Config)
    requires StmtRuns(s, p) && Unique(p) && Agree(st, t) && Shows(p, t, c)
    ensures !c.At? ==> EndIsMeantBy(s, st, c)
    ensures Written(c.st.output, s, st)
  {
    hide Run, Exec, Unique, Agree, StmtRuns, Ends, Seen;
    var n: nat :| Seen(Run(p, At(0, t), n)) == c;
    SeenOutput(Run(p, At(0, t), n));
    OutputIsMeant(s, p, st, t, n);
    if !c.At? {
      SeenEnd(Run(p, At(0, t), n));
      EndIsMeant(s, p, st, t, n);
    }
  }

  /** Code that cannot be told apart means the same. */
  lemma SameMeans(s: Stmt, p: Code, q: Code)
    requires Means(s, p) && Same(p, q)
    ensures Means(s, q)
  {
    hide Exec, Agree, Ends, Shows;
    forall st, t | Agree(st, t)
      ensures MeansFrom(s, q, st, t)
    {
      assert MeansFrom(s, p, st, t);
      assert forall c :: Shows(p, t, c) <==> Shows(q, t, c);
      forall fuel: nat
        ensures Exec(s, st, fuel).Timeout? || ShowsEnd(Exec(s, st, fuel), q, t)
        ensures ShowsOutput(Exec(s, st, fuel).st.output, q, t)
      {
        SameShown(Exec(s, st, fuel), p, q, t);
      }
    }
  }

  lemma SameShown(o: Outcome, p: Code, q: Code, t: State)
    requires forall c :: Shows(p, t, c) <==> Shows(q, t, c)
    ensures ShowsEnd(o, p, t) <==> ShowsEnd(o, q, t)
    ensures ShowsOutput(o.st.output, p, t) <==> ShowsOutput(o.st.output, q, t)
  {
    hide Shows, Ends;
  }

  // ---------- a condition that is left out ----------

  /** With an arithmetic operator on top of it the condition of an `if` is not translated, and the
      code, which does what the body does, is wrong for `if (0 * 1) write(7);`. */
  lemma DroppedCondition(p: Code)
    requires Unique(p) && StmtRuns(Print(Num(7)), p)
    ensures !Means(If(Calculate(Mul, Num(0), Num(1)), Print(Num(7))), p)
  {
    var wrong := If(Calculate(Mul, Num(0), Num(1)), Print(Num(7)));
    var st := State(map[], [], []);
    assert Exec(wrong, st, 0) == Normal(st);
    assert Exec(Print(Num(7)), st, 0) == Normal(st.(output := [7]));
    if Means(wrong, p) {
      assert Agree(st, st) && MeansFrom(wrong, p, st, st);
      var c :| Shows(p, st, c) && Ends(Normal(st), c);
      var m: nat :| Seen(Run(p, At(0, st), m)) == c;
      SeenEnd(Run(p, At(0, st), m));
      var n := EndIsReached(Print(Num(7)), p, st, st, 0);
      EndIsUnique(p, At(0, st), m, n);
      assert false;
    }
  }
}
