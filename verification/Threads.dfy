/** User-level threads: a fixed table of control blocks and the calls that move the processor
    between them. A thread runs until it makes a call. */
module UserThreads {

  datatype State = Runnable | Running | Blocked | Dead

  /** The table as a value: states, the thread each blocked one waits for, and who runs. */
  datatype Sched = Sched(state: seq<State>, joinid: seq<int>, current: int)

  predicate Sized(s: Sched) {
    |s.state| == |s.joinid| && 0 <= s.current < |s.state|
  }

  ghost predicate Waits(s: Sched, i: int)
    requires Sized(s)
  {
    0 <= i < |s.state| && s.state[i] == Blocked
  }

  /** Following who waits for whom never comes back: ranks rise along every wait. */
  ghost predicate Ranked(s: Sched, rank: seq<nat>)
    requires Sized(s)
  {
    && |rank| == |s.state|
    && (forall i :: Waits(s, i) && 0 <= s.joinid[i] < |s.state| ==> rank[i] < rank[s.joinid[i]])
  }

  ghost predicate Inv(s: Sched) {
    && Sized(s)
    && (s.state[s.current] == Running || s.state[s.current] == Runnable)
    && (forall i :: 0 <= i < |s.state| && s.state[i] == Running ==> i == s.current)
    && (forall i :: Waits(s, i) ==> 0 <= s.joinid[i] < |s.state| && s.state[s.joinid[i]] != Dead)
    && (forall i :: 0 <= i < |s.state| && s.state[i] != Blocked ==> s.joinid[i] == -1)
    && (exists rank :: Ranked(s, rank))
  }

  // ---------- the calls on values ----------

  function Initial(n: nat): Sched
    requires n >= 1
  {
    Sched(seq(n, i => if i == 0 then Running else Dead), seq(n, _ => -1), 0)
  }

  // First dead entry from `i` on, or the table size.
  function FirstDead(state: seq<State>, i: nat): (r: nat)
    requires i <= |state|
    ensures i <= r <= |state| && (r < |state| ==> state[r] == Dead)
    ensures forall k :: i <= k < r ==> state[k] != Dead
    decreases |state| - i
  {
    if i == |state| || state[i] == Dead then i else FirstDead(state, i + 1)
  }

  function Create(s: Sched): (Sched, int)
    requires Sized(s)
  {
    var i := FirstDead(s.state, 0);
    if i < |s.state| then (s.(state := s.state[i := Runnable], joinid := s.joinid[i := -1]), i as int) else (s, -1)
  }

  // The entry after `i`, around the table.
  function Succ(i: int, n: nat): (r: int)
    requires 0 <= i < n
    ensures r == (i + 1) % n
  {
    if i + 1 == n then 0 else i + 1
  }

  // The scan for a runnable entry, around the table from `i`; -1 after `fuel` misses.
  function ScanFrom(state: seq<State>, i: int, fuel: nat): int
    requires 0 <= i < |state|
    decreases fuel
  {
    if fuel == 0 then -1
    else if state[i] == Runnable then i
    else ScanFrom(state, Succ(i, |state|), fuel - 1)
  }

  function NextRunnable(state: seq<State>, current: int): int
    requires 0 <= current < |state|
  {
    ScanFrom(state, Succ(current, |state|), |state|)
  }

  /** The current thread dies and those that wait for it wake up. */
  function Bury(s: Sched): (r: Sched)
    requires Sized(s)
    ensures Sized(r)
  {
    var dead := s.state[s.current := Dead];
    Sched(seq(|s.state|, i requires 0 <= i < |s.state| => if s.joinid[i] == s.current then Runnable else dead[i]),
          seq(|s.state|, i requires 0 <= i < |s.state| => if s.joinid[i] == s.current then -1 else s.joinid[i]),
          s.current)
  }

  function Exit(s: Sched): Sched
    requires Sized(s)
  {
    Bury(s).(current := NextRunnable(Bury(s).state, s.current))
  }

  function Join(s: Sched, t: int): Sched
    requires Sized(s) && 0 <= t < |s.state|
  {
    if s.state[t] == Dead then s
    else Sched(s.state[s.current := Blocked][t := Running], s.joinid[s.current := t], t)
  }

  function Yield(s: Sched): Sched
    requires Sized(s)
  {
    var state := s.state[s.current := Runnable];
    var i := NextRunnable(state, s.current);
    if 0 <= i < |state| then s.(state := state[i := Running], current := i) else s
  }

  // ---------- the scan ----------

  // Steps from `i` to `k` around the table.
  function Distance(i: int, k: int, n: nat): int {
    if k >= i then k - i else k - i + n
  }

  lemma {:induction false} ScanHits(state: seq<State>, i: int, k: int, fuel: nat)
    requires 0 <= i < |state| && 0 <= k < |state| && state[k] == Runnable && Distance(i, k, |state|) < fuel
    ensures var r := ScanFrom(state, i, fuel); 0 <= r < |state| && state[r] == Runnable
    decreases fuel
  {
    if state[i] != Runnable {
      ScanHits(state, Succ(i, |state|), k, fuel - 1);
    }
  }

  lemma {:induction false} ScanMisses(state: seq<State>, i: int, fuel: nat)
    requires 0 <= i < |state| && forall k :: 0 <= k < |state| ==> state[k] != Runnable
    ensures ScanFrom(state, i, fuel) == -1
    decreases fuel
  {
    if fuel > 0 { ScanMisses(state, Succ(i, |state|), fuel - 1); }
  }

  /** The scan ends exactly when something is runnable. */
  lemma ScanStops(state: seq<State>, current: int)
    requires 0 <= current < |state|
    ensures var r := NextRunnable(state, current);
      if exists k :: 0 <= k < |state| && state[k] == Runnable then 0 <= r < |state| && state[r] == Runnable else r == -1
  {
    var start := Succ(current, |state|);
    if k :| 0 <= k < |state| && state[k] == Runnable {
      ScanHits(state, start, k, |state|);
    } else {
      ScanMisses(state, start, |state|);
    }
  }

  // ---------- every call keeps the invariant ----------

  lemma InitialInv(n: nat)
    requires n >= 1
    ensures Inv(Initial(n)) && |Initial(n).state| == n
    ensures Initial(n).current == 0 && Initial(n).state[0] == Running
    ensures forall i :: 0 < i < n ==> Initial(n).state[i] == Dead
  {
    assert Ranked(Initial(n), seq(n, _ => 0));
  }

  lemma CreateInv(s: Sched)
    requires Inv(s)
    ensures Inv(Create(s).0)
    ensures var (s', i) := Create(s); i == -1 <==> forall k :: 0 <= k < |s.state| ==> s.state[k] != Dead
    ensures var (s', i) := Create(s); i != -1 ==> s.state[i] == Dead && s'.state[i] == Runnable && s'.joinid[i] == -1
    // it is the first dead entry, and all others stay as they are
    ensures var (s', i) := Create(s); forall k :: 0 <= k < i ==> s.state[k] != Dead
    ensures var (s', i) := Create(s);
      && s'.current == s.current && |s'.state| == |s.state|
      && forall k :: 0 <= k < |s.state| && k != i ==> s'.state[k] == s.state[k] && s'.joinid[k] == s.joinid[k]
  {
    var rank :| Ranked(s, rank);
    assert Ranked(Create(s).0, rank);
  }

  ghost function Highest(rank: seq<nat>): (h: nat)
    ensures forall i :: 0 <= i < |rank| ==> rank[i] <= h
  {
    if rank == [] then 0
    else
      var h := Highest(rank[1..]);
      assert forall i :: 1 <= i < |rank| ==> rank[i] == rank[1..][i - 1];
      if rank[0] > h then rank[0] else h
  }

  /** Joining is safe exactly when the target is dead, or neither the caller nor blocked. */
  lemma JoinInv(s: Sched, t: int)
    requires Inv(s) && 0 <= t < |s.state|
    ensures Inv(Join(s, t)) <==> s.state[t] == Dead || (t != s.current && s.state[t] != Blocked)
  {
    if s.state[t] != Dead {
      var s' := Join(s, t);
      if t != s.current && s.state[t] != Blocked {
        var rank :| Ranked(s, rank);
        assert Ranked(s', rank[t := Highest(rank) + 1]);
      } else {
        assert s'.state[t] != Blocked && s'.joinid[t] != -1;
      }
    }
  }

  /** A live target runs, and the caller waits for it; a dead target changes nothing. */
  lemma JoinWaits(s: Sched, t: int)
    requires Inv(s) && 0 <= t < |s.state| && t != s.current
    ensures s.state[t] == Dead ==> Join(s, t) == s
    ensures s.state[t] != Dead ==> var i, s' := s.current, Join(s, t);
      && |s'.state| == |s'.joinid| == |s.state|
      && s'.state[i] == Blocked && s'.joinid[i] == t
      && s'.current == t && s'.state[t] == Running
      && (forall k :: 0 <= k < |s.state| && k != t && k != i ==> s'.state[k] == s.state[k])
      && (forall k :: 0 <= k < |s.state| && k != i ==> s'.joinid[k] == s.joinid[k])
  {
  }

  lemma YieldInv(s: Sched)
    requires Inv(s)
    ensures Inv(Yield(s)) && Yield(s).state[Yield(s).current] == Running
    ensures Yield(s).joinid == s.joinid && |Yield(s).state| == |s.state|
    ensures Yield(s).current != s.current ==> s.state[Yield(s).current] == Runnable && Yield(s).state[s.current] == Runnable
    ensures forall i :: 0 <= i < |s.state| && i != s.current && i != Yield(s).current ==> Yield(s).state[i] == s.state[i]
  {
    var state := s.state[s.current := Runnable];
    assert state[s.current] == Runnable;
    ScanStops(state, s.current);
    var rank :| Ranked(s, rank);
    assert Ranked(Yield(s), rank);
  }

  // The thread at the end of the chain of waits that starts at `i`.
  lemma {:induction false} EndOfWaits(s: Sched, rank: seq<nat>, i: int) returns (j: int)
    requires Inv(s) && Ranked(s, rank) && 0 <= i < |s.state| && s.state[i] != Dead
    ensures 0 <= j < |s.state| && s.state[j] != Dead && s.state[j] != Blocked
    ensures if s.state[i] == Blocked then exists k :: Waits(s, k) && s.joinid[k] == j else j == i
    decreases Highest(rank) - rank[i]
  {
    if s.state[i] == Blocked {
      assert Waits(s, i);
      if s.state[s.joinid[i]] == Blocked {
        j := EndOfWaits(s, rank, s.joinid[i]);
      } else {
        j := s.joinid[i];
      }
    } else {
      j := i;
    }
  }

  ghost predicate OthersLive(s: Sched)
    requires Sized(s)
  {
    exists i :: 0 <= i < |s.state| && i != s.current && s.state[i] != Dead
  }

  /** After an exit the scan stops exactly when any other thread was alive. */
  lemma ExitFindsSomeone(s: Sched)
    requires Inv(s)
    ensures OthersLive(s) <==> exists k :: 0 <= k < |s.state| && Bury(s).state[k] == Runnable
  {
    if i :| 0 <= i < |s.state| && i != s.current && s.state[i] != Dead {
      var rank :| Ranked(s, rank);
      var j := EndOfWaits(s, rank, i);
      if j == s.current {
        var k :| Waits(s, k) && s.joinid[k] == j;
        assert Bury(s).state[k] == Runnable;
      } else {
        assert Bury(s).state[j] == Runnable;
      }
    }
  }

  // The next thread has the processor but is still marked runnable.
  lemma ExitInv(s: Sched)
    requires Inv(s) && OthersLive(s)
    ensures Inv(Exit(s)) && Exit(s).state[s.current] == Dead && Exit(s).current != s.current
    ensures Exit(s).state[Exit(s).current] == Runnable
    ensures forall i :: 0 <= i < |s.state| && i != s.current ==>
      Exit(s).state[i] == if Waits(s, i) && s.joinid[i] == s.current then Runnable else s.state[i]
    ensures forall i :: 0 <= i < |s.state| && s.joinid[i] != s.current ==> Exit(s).joinid[i] == s.joinid[i]
  {
    ExitFindsSomeone(s);
    ScanStops(Bury(s).state, s.current);
    var rank :| Ranked(s, rank);
    assert Ranked(Exit(s), rank);
  }

  // ---------- whole runs ----------

  datatype Call = CallCreate | CallExit | CallJoin(thread: int) | CallYield

  /** What a caller has to respect. */
  ghost predicate Allowed(s: Sched, c: Call)
    requires Sized(s)
  {
    match c
    case CallCreate => true
    case CallExit => OthersLive(s)
    case CallJoin(t) => 0 <= t < |s.state| && t != s.current && s.state[t] != Blocked
    case CallYield => true
  }

  ghost function Perform(s: Sched, c: Call): Sched
    requires Sized(s) && Allowed(s, c)
  {
    match c
    case CallCreate => Create(s).0
    case CallExit => Exit(s)
    case CallJoin(t) => Join(s, t)
    case CallYield => Yield(s)
  }

  /** `states` is a run of the table of size `n` under `calls`. */
  ghost predicate Run(n: nat, calls: seq<Call>, states: seq<Sched>) {
    && n >= 1 && |states| == |calls| + 1 && states[0] == Initial(n)
    && forall i :: 0 <= i < |calls| ==>
         Sized(states[i]) && Allowed(states[i], calls[i]) && states[i + 1] == Perform(states[i], calls[i])
  }

  /** In every state of every run one thread at most is running and it is the current one, waits are
      for live threads and form no cycle, and no entry that does not wait remembers a target. */
  lemma {:induction false} RunsKeepInv(n: nat, calls: seq<Call>, states: seq<Sched>, k: nat)
    requires Run(n, calls, states) && k < |states|
    ensures Inv(states[k]) && |states[k].state| == n
  {
    if k == 0 {
      InitialInv(n);
    } else {
      RunsKeepInv(n, calls, states, k - 1);
      var s := states[k - 1];
      match calls[k - 1]
      case CallCreate => CreateInv(s);
      case CallExit => ExitInv(s);
      case CallJoin(t) => JoinInv(s, t);
      case CallYield => YieldInv(s);
    }
  }

  // A yield, or a wait for a live thread, marks the next thread as running.
  ghost predicate Switches(s: Sched, c: Call)
    requires Sized(s) && Allowed(s, c)
  {
    c.CallYield? || (c.CallJoin? && s.state[c.thread] != Dead)
  }

  // Since an exit before place `k` nothing has switched threads.
  ghost predicate JustExited(n: nat, calls: seq<Call>, states: seq<Sched>, k: nat)
    requires Run(n, calls, states) && k < |states|
  {
    exists j :: 0 <= j < k && calls[j].CallExit? && forall i :: j < i < k ==> !Switches(states[i], calls[i])
  }

  /** The current thread is marked as running, except since an exit after which nothing has switched threads. */
  lemma {:induction false} RunningUnlessExited(n: nat, calls: seq<Call>, states: seq<Sched>, k: nat)
    requires Run(n, calls, states) && k < |states|
    ensures Inv(states[k])
    ensures states[k].state[states[k].current] == if JustExited(n, calls, states, k) then Runnable else Running
  {
    RunsKeepInv(n, calls, states, k);
    if k > 0 {
      RunningUnlessExited(n, calls, states, k - 1);
      JustExitedNext(n, calls, states, k);
      var s := states[k - 1];
      match calls[k - 1]
      case CallCreate => CreateInv(s);
      case CallExit => ExitInv(s);
      case CallJoin(t) =>
      case CallYield => YieldInv(s);
    }
  }

  lemma JustExitedNext(n: nat, calls: seq<Call>, states: seq<Sched>, k: nat)
    requires Run(n, calls, states) && 0 < k < |states|
    ensures JustExited(n, calls, states, k) <==>
      calls[k - 1].CallExit? || (!Switches(states[k - 1], calls[k - 1]) && JustExited(n, calls, states, k - 1))
  {
    if JustExited(n, calls, states, k) && !calls[k - 1].CallExit? {
      var j :| 0 <= j < k && calls[j].CallExit? && forall i :: j < i < k ==> !Switches(states[i], calls[i]);
      assert j < k - 1 && !Switches(states[k - 1], calls[k - 1]);
    }
    if !calls[k - 1].CallExit? && !Switches(states[k - 1], calls[k - 1]) && JustExited(n, calls, states, k - 1) {
      var j :| 0 <= j < k - 1 && calls[j].CallExit? && forall i :: j < i < k - 1 ==> !Switches(states[i], calls[i]);
      assert forall i :: j < i < k ==> !Switches(states[i], calls[i]);
    }
  }

  // ---------- waiting ----------

  // No call from place `m` up to place `k` is an exit of thread `t`.
  ghost predicate NotExited(calls: seq<Call>, states: seq<Sched>, t: int, m: nat, k: nat)
    requires m <= k <= |calls| < |states|
  {
    forall j :: m <= j < k ==> !(calls[j].CallExit? && states[j].current == t)
  }

  /** A thread that joins a live one is neither current nor runnable nor running until that one has exited. */
  lemma {:induction false} WaitsUntilExit(n: nat, calls: seq<Call>, states: seq<Sched>, m: nat, t: int, k: nat)
    requires Run(n, calls, states) && m < k < |states| && calls[m] == CallJoin(t) && states[m].state[t] != Dead
    requires NotExited(calls, states, t, m + 1, k)
    ensures var i := states[m].current;
      |states[k].state| == |states[k].joinid| == n && 0 <= i < n
      && states[k].current != i && states[k].state[i] == Blocked && states[k].joinid[i] == t
    decreases k
  {
    var i := states[m].current;
    RunsKeepInv(n, calls, states, m);
    RunsKeepInv(n, calls, states, k - 1);
    RunsKeepInv(n, calls, states, k);
    if k == m + 1 {
      JoinWaits(states[m], t);
    } else {
      WaitsUntilExit(n, calls, states, m, t, k - 1);
      var s := states[k - 1];
      assert Waits(s, i);
      match calls[k - 1]
      case CallCreate => CreateInv(s);
      case CallExit => ExitInv(s);
      case CallJoin(u) => JoinWaits(s, u);
      case CallYield => YieldInv(s);
    }
  }

  /** When that one exits, it becomes runnable. */
  lemma WakesAtExit(n: nat, calls: seq<Call>, states: seq<Sched>, m: nat, t: int, k: nat)
    requires Run(n, calls, states) && m < k < |calls| && calls[m] == CallJoin(t) && states[m].state[t] != Dead
    requires NotExited(calls, states, t, m + 1, k) && calls[k] == CallExit && states[k].current == t
    ensures var i := states[m].current; 0 <= i < |states[k + 1].state| && states[k + 1].state[i] == Runnable
  {
    WaitsUntilExit(n, calls, states, m, t, k);
    RunsKeepInv(n, calls, states, k);
    assert Waits(states[k], states[m].current);
    ExitInv(states[k]);
  }

  // ---------- nobody is passed over ----------

  // The scan does not go past a runnable entry.
  lemma {:induction false} ScanFirst(state: seq<State>, i: int, k: int, fuel: nat)
    requires 0 <= i < |state| && 0 <= k < |state| && state[k] == Runnable && Distance(i, k, |state|) < fuel
    ensures var r := ScanFrom(state, i, fuel);
      0 <= r < |state| && state[r] == Runnable && Distance(i, r, |state|) <= Distance(i, k, |state|)
    decreases fuel
  {
    if state[i] != Runnable {
      ScanFirst(state, Succ(i, |state|), k, fuel - 1);
    }
  }

  ghost function Yields(s: Sched, m: nat): (r: Sched)
    requires Inv(s)
    ensures Inv(r) && |r.state| == |s.state|
    decreases m
  {
    if m == 0 then s else YieldInv(s); Yields(Yield(s), m - 1)
  }

  /** While threads only yield, a runnable thread runs after fewer yields than there are entries. */
  lemma {:induction false} RunnableGetsItsTurn(s: Sched, k: int) returns (m: nat)
    requires Inv(s) && 0 <= k < |s.state| && s.state[k] == Runnable && k != s.current
    ensures m <= Distance(s.current, k, |s.state|) < |s.state|
    ensures Yields(s, m).current == k && Yields(s, m).state[k] == Running
    decreases Distance(s.current, k, |s.state|)
  {
    var s', n := Yield(s), |s.state|;
    YieldInv(s);
    ScanFirst(s.state[s.current := Runnable], Succ(s.current, n), k, n);
    if s'.current == k {
      assert Yields(s', 0) == s';
      m := 1;
    } else {
      var m' := RunnableGetsItsTurn(s', k);
      m := m' + 1;
    }
  }

  // ---------- the table itself ----------

  class ThreadTable {
    const state: array<State>
    const joinid: array<int>
    var current: int

    ghost predicate Valid()
      reads this, state, joinid
    {
      state.Length == joinid.Length && 0 <= current < state.Length
    }

    ghost function View(): Sched
      reads this, state, joinid
    {
      Sched(state[..], joinid[..], current)
    }

    constructor (n: nat)
      requires n >= 1
      ensures Valid() && View() == Initial(n) && fresh(state) && fresh(joinid)
    {
      state := new State[n](i => if i == 0 then Running else Dead);
      joinid := new int[n](_ => -1);
      current := 0;
    }

    method PthreadCreate() returns (ret: int, thread: int)
      requires Valid()
      modifies state, joinid
      ensures Valid() && (View(), thread) == Create(old(View()))
      ensures ret == if thread == -1 then -1 else 0
    {
      var i := 0;
      while i < state.Length && state[i] != Dead
        invariant 0 <= i <= state.Length && FirstDead(state[..], i) == FirstDead(state[..], 0)
      {
        i := i + 1;
      }
      if i != state.Length {
        state[i] := Runnable;
        joinid[i] := -1;
        return 0, i;
      } else {
        return -1, -1;
      }
    }

    // Both callers scan from the entry after the current one.
    method Scan() returns (i: int)
      requires Valid() && NextRunnable(state[..], current) != -1
      ensures i == NextRunnable(state[..], current) && 0 <= i < state.Length
    {
      i := (current + 1) % state.Length;
      ghost var fuel: nat := state.Length;
      assert i == Succ(current, state.Length);
      while state[i] != Runnable
        invariant 0 <= i < state.Length && ScanFrom(state[..], i, fuel) == NextRunnable(state[..], current)
        decreases fuel
      {
        assert (i + 1) % state.Length == Succ(i, state.Length);
        i := (i + 1) % state.Length;
        fuel := fuel - 1;
      }
    }

    method PthreadExit()
      requires Valid() && Inv(View()) && OthersLive(View())
      modifies this`current, state, joinid
      ensures Valid() && View() == Exit(old(View()))
    {
      ghost var s := View();
      state[current] := Dead;
      ghost var dead := s.state[current := Dead];
      var i := 0;
      while i < state.Length
        invariant 0 <= i <= state.Length && current == s.current
        invariant forall k :: 0 <= k < i ==> state[k] == Bury(s).state[k] && joinid[k] == Bury(s).joinid[k]
        invariant forall k :: i <= k < state.Length ==> state[k] == dead[k] && joinid[k] == s.joinid[k]
      {
        if joinid[i] == current {
          joinid[i] := -1;
          state[i] := Runnable;
        }
        i := i + 1;
      }
      assert state[..] == Bury(s).state && joinid[..] == Bury(s).joinid;
      ExitFindsSomeone(s);
      ScanStops(state[..], current);
      i := Scan();
      current := i;
    }

    method PthreadJoin(thread: int)
      requires Valid() && 0 <= thread < state.Length
      modifies this`current, state, joinid
      ensures Valid() && View() == Join(old(View()), thread)
    {
      if state[thread] != Dead {
        state[current] := Blocked;
        joinid[current] := thread;
        state[thread] := Running;
        current := thread;
      }
    }

    method PthreadYield()
      requires Valid()
      modifies this`current, state
      ensures Valid() && View() == Yield(old(View()))
    {
      ghost var s := View();
      state[current] := Runnable;
      assert state[..] == s.state[s.current := Runnable] && state[..][current] == Runnable;
      ScanStops(state[..], current);
      var i := Scan();
      state[i] := Running;
      current := i;
    }
  }
}
