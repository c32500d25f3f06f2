/** The control-flow passes over the instruction list. Label operands are records shared by the
    instructions that mention them: in `code` a label field is the address of a record, and
    `number` holds the label number in each record. */
module CleanUp {
  import opened ThreeAddress
  import opened Rewriting

  const LABELS := 1024

  // ---------- the list with the numbers in place of the records ----------

  predicate HasLabel(ins: Instr) {
    ins.Label? || IsJump(ins)
  }

  predicate InRange(code: Code, number: seq<nat>) {
    forall k :: 0 <= k < |code| && HasLabel(code[k]) ==> code[k].l < |number|
  }

  function Show(ins: Instr, number: seq<nat>): (r: Instr)
    requires HasLabel(ins) ==> ins.l < |number|
    ensures HasLabel(r) == HasLabel(ins) && r.Label? == ins.Label? && IsJump(r) == IsJump(ins)
    ensures HasLabel(r) ==> r.l == number[ins.l]
    ensures !HasLabel(r) ==> r == ins
  {
    match ins
    case Label(l) => Label(number[l])
    case Goto(l) => Goto(number[l])
    case IfGoto(rel, a, b, l) => IfGoto(rel, a, b, number[l])
    case _ => ins
  }

  function Shown(code: Code, number: seq<nat>): (p: Code)
    requires InRange(code, number)
    ensures |p| == |code|
    ensures forall k :: 0 <= k < |code| ==> p[k] == Show(code[k], number)
  {
    seq(|code|, k requires 0 <= k < |code| => Show(code[k], number))
  }

  // Each record is at the address of its number.
  predicate Own(number: seq<nat>) {
    forall r :: 0 <= r < |number| ==> number[r] == r
  }

  lemma IdentityShown(code: Code, number: seq<nat>)
    requires InRange(code, number) && Own(number)
    ensures Shown(code, number) == code
  {
  }

  // What stands at place `k` once place `i` is gone.
  lemma WithoutAt(c: Code, i: nat, k: nat)
    requires i < |c| && k + 1 < |c|
    ensures Without(c, i)[k] == c[Unshift(i, k)]
  {
    assert Without(c, i)[Shift(i, Unshift(i, k))] == c[Unshift(i, k)];
  }

  lemma ShownWithout(code: Code, number: seq<nat>, i: nat)
    requires InRange(code, number) && i < |code|
    ensures InRange(Without(code, i), number)
    ensures Shown(Without(code, i), number) == Without(Shown(code, number), i)
  {
    var q, p := Without(code, i), Shown(code, number);
    hide Show, Without;
    forall k | 0 <= k < |q|
      ensures HasLabel(q[k]) ==> q[k].l < |number|
    {
      WithoutAt(code, i, k);
    }
    hide Shown;
    var q' := Shown(q, number);
    forall k | 0 <= k < |q|
      ensures q'[k] == Without(p, i)[k]
    {
      WithoutAt(code, i, k);
      WithoutAt(p, i, k);
    }
    assert q' == Without(p, i);
  }

  // ---------- what two of the passes make of a list ----------

  predicate IsGotoNext(c: Code, i: nat) {
    i + 1 < |c| && c[i].Goto? && c[i + 1] == Label(c[i].l)
  }

  predicate IsBranchOver(c: Code, i: nat) {
    i + 2 < |c| && c[i].IfGoto? && c[i + 1].Goto? && c[i + 2] == Label(c[i].l)
  }

  function TurnedAt(c: Code, i: nat): Code
    requires IsBranchOver(c, i)
  {
    Without(c[i := IfGoto(Opposite(c[i].rel), c[i].a, c[i].b, c[i + 1].l)], i + 1)
  }

  // From place `i` on; a branch among the last two instructions ends the pass.
  function GotoPass(c: Code, i: nat): Code
    decreases |c| - i
  {
    if i >= |c| then c
    else if IsGotoNext(c, i) then GotoPass(Without(c, i), i + 1)
    else if c[i].IfGoto? && i + 2 >= |c| then c
    else if IsBranchOver(c, i) then GotoPass(TurnedAt(c, i), i + 1)
    else GotoPass(c, i + 1)
  }

  function ReturnPass(c: Code, i: nat): Code
    decreases |c| - i
  {
    if i + 1 >= |c| then c
    else if c[i].Return? && c[i + 1].Goto? then ReturnPass(Without(c, i + 1), i + 1)
    else ReturnPass(c, i + 1)
  }

  class IrList {
    var code: Code
    var number: seq<nat>

    /** The program as it would be printed. */
    ghost function View(): Code
      requires InRange(code, number)
      reads this
    {
      Shown(code, number)
    }

    ghost predicate Valid()
      reads this
    {
      InRange(code, number) && Good(View())
    }

    // Each label has one record; its address is its number.
    constructor (c: Code, labels: nat)
      requires Good(c) && forall k :: 0 <= k < |c| && HasLabel(c[k]) ==> c[k].l <= labels
      ensures Valid() && View() == c && forall r :: 0 <= r < |number| ==> number[r] <= labels
      ensures code == c && Own(number)
    {
      code := c;
      number := seq(labels + 1, k => k);
      new;
      assert Shown(code, number) == c;
    }

    // The code with the numbers in place.
    method Printed() returns (p: Code)
      requires InRange(code, number)
      ensures p == View()
    {
      p := [];
      var k := 0;
      while k < |code|
        invariant k <= |code| && |p| == k
        invariant forall j :: 0 <= j < k ==> p[j] == View()[j]
      {
        p := p + [Show(code[k], number)];
        k := k + 1;
      }
    }

    method Remove(i: nat)
      requires i < |code|
      modifies this`code
      ensures code == Without(old(code), i)
    {
      code := code[..i] + code[i + 1..];
    }

    /** Drops jumps to the next instruction and turns branches over jumps round: some of either is left
        exactly if there was a knot, and so none where no jump stood directly before another one. */
    method OptGoto()
      requires Valid()
      modifies this`code
      ensures Valid() && Same(old(View()), View())
      ensures code == GotoPass(old(code), 0)
      ensures GotoLeft(code) <==> Knotted(old(code))
      ensures Spaced(old(code)) ==> Spaced(code)
      ensures Spaced(old(code)) ==>
        forall k :: 0 <= k && k + 1 < |code| && code[k].Goto? ==> code[k + 1] != Label(code[k].l)
      ensures Spaced(old(code)) ==>
        forall k :: 0 <= k && k + 2 < |code| && code[k].IfGoto? && code[k + 1].Goto? ==> code[k + 2] != Label(code[k].l)
    {
      hide Same, Good, InRange, Spaced, Shown, GotoLeft, Knotted;
      var ic := 0;
      AfterGotoPass(code);
      SameSelf(View());
      while ic < |code|
        invariant Valid() && Same(old(View()), View())
        invariant GotoPass(code, ic) == GotoPass(old(code), 0)
        decreases |code| - ic
      {
        var c1 := code[ic];
        if c1.Goto? {
          if ic + 1 < |code| && code[ic + 1].Label? && c1.l == code[ic + 1].l {
            ghost var p := View();
            DropGoto(ic);
            SameTrans(old(View()), p, View());
          }
        } else if c1.IfGoto? {
          if ic + 1 >= |code| || ic + 2 >= |code| {
            break;
          }
          var c2, c3 := code[ic + 1], code[ic + 2];
          if c2.Goto? && c3.Label? && c1.l == c3.l {
            ghost var p := View();
            Turn(ic);
            SameTrans(old(View()), p, View());
          }
        }
        ic := ic + 1;
      }
    }

    method DropGoto(ic: nat)
      requires Valid() && IsGotoNext(code, ic)
      modifies this`code
      ensures Valid() && Same(old(View()), View()) && code == Without(old(code), ic)
    {
      hide Good;
      ShownWithout(code, number, ic);
      GotoNext(View(), ic);
      Remove(ic);
    }

    method Turn(ic: nat)
      requires Valid() && IsBranchOver(code, ic)
      modifies this`code
      ensures Valid() && Same(old(View()), View()) && code == TurnedAt(old(code), ic)
    {
      hide Good;
      var c1 := code[ic];
      ghost var p := View();
      code := code[ic := IfGoto(Opposite(c1.rel), c1.a, c1.b, code[ic + 1].l)];
      ShownWithout(code, number, ic + 1);
      ghost var mid := Shown(code, number);
      Remove(ic + 1);
      assert forall k :: 0 <= k < |p| && k != ic ==> mid[k] == p[k];
      assert View()[Shift(ic + 1, ic)] == mid[ic];
      TurnBranch(p, View(), ic);
    }

    /** Drops a jump after each return: one is left exactly where two stood. */
    method DeleteGoto()
      requires Valid()
      modifies this`code
      ensures Valid() && Same(old(View()), View())
      ensures code == ReturnPass(old(code), 0)
      ensures ReturnLeft(code) <==> TwoAfterReturn(old(code))
      ensures Spaced(old(code)) ==> Spaced(code) && !ReturnLeft(code)
    {
      hide Same, Good, InRange, Spaced, ReturnLeft, TwoAfterReturn;
      ReturnPassIsExact(code);
      var ic := 0;
      SameSelf(View());
      while ic < |code|
        invariant Valid() && Same(old(View()), View())
        invariant ReturnPass(code, ic) == ReturnPass(old(code), 0)
        decreases |code| - ic
      {
        if code[ic].Return? {
          if ic + 1 >= |code| {
            break;
          }
          if code[ic + 1].Goto? {
            ghost var p := View();
            DropAfterReturn(ic);
            SameTrans(old(View()), p, View());
          }
        }
        ic := ic + 1;
      }
    }

    method DropAfterReturn(ic: nat)
      requires Valid() && ic + 1 < |code| && code[ic].Return? && code[ic + 1].Goto?
      modifies this`code
      ensures Valid() && Same(old(View()), View()) && code == Without(old(code), ic + 1)
    {
      hide Good;
      ShownWithout(code, number, ic + 1);
      GotoAfterReturn(View(), ic);
      Remove(ic + 1);
    }

    // ---------- labels ----------

    method DropLabel(ic: nat)
      requires InRange(code, number) && ic < |code| && code[ic].Label? && !JumpedTo(View(), number[code[ic].l])
      modifies this`code
      ensures code == Without(old(code), ic) && InRange(code, number) && View() == Without(old(View()), ic)
      ensures old(Valid()) ==> Valid() && Same(old(View()), View())
    {
      hide Good;
      ShownWithout(code, number, ic);
      if Valid() { UselessLabel(View(), ic); }
      Remove(ic);
    }

    /** The jumps up to label `ic` go to the label after it, by a change of the records they use. */
    method MergeAt(ic: nat)
      requires InRange(code, number) && ic + 1 < |code| && code[ic].Label? && code[ic + 1].Label?
      modifies this
      ensures code == Without(old(code), ic) && number == Renumbered(old(code), old(number), ic)
      ensures InRange(code, number) && View() == AfterMerge(old(code), old(number), ic)
    {
      ghost var was := number;
      var c1_no := number[code[ic].l];
      ghost var c2_no := number[code[ic + 1].l];
      var p: int := ic;
      while p >= 0
        invariant -1 <= p <= ic && code == old(code) && number == RenumberedFrom(code, was, p + 1, ic)
        decreases p
      {
        RenumberNext(code, was, p, ic);
        if IsJump(code[p]) && number[code[p].l] == c1_no {
          number := number[code[p].l := number[code[ic + 1].l]];
        }
        p := p - 1;
      }
      ShownWithout(code, number, ic);
      Remove(ic);
    }

    /** In a valid list that cannot be seen. */
    method MergeUnseen(ic: nat)
      requires InRange(code, number) && ic + 1 < |code| && code[ic].Label? && code[ic + 1].Label?
      modifies this
      ensures InRange(code, number) && |code| + 1 == |old(code)| && (Hollow(code) <==> Hollow(old(code)))
      ensures (forall r :: 0 <= r < |number| ==> number[r] in old(number))
      ensures forall k :: 0 <= k < |code| ==> View()[k].Label? == old(View())[Unshift(ic, k)].Label?
      ensures old(Valid()) ==> Valid() && Same(old(View()), View()) && Merged(old(View()), View(), ic)
    {
      hide Good, Same, Renumbered, Merged;
      ghost var before := View();
      if Valid() {
        MergeKeeps(code, number, ic);
      }
      RenumberedAmong(code, number, ic);
      HollowWithout(code, ic);
      MergeAt(ic);
      forall k | 0 <= k < |code|
        ensures View()[k].Label? == before[Unshift(ic, k)].Label?
      {
        WithoutAt(old(code), ic, k);
      }
    }

    /** Drops labels nobody jumps to and merges neighbouring labels: afterwards no two labels are
        neighbours; in a valid list every label is jumped to and nothing can be seen of the change. */
    method DeleteUselessLabel()
      requires InRange(code, number) && forall r :: 0 <= r < |number| ==> number[r] < LABELS
      modifies this
      ensures InRange(code, number) && Apart(View(), |View()|) && (Hollow(code) <==> Hollow(old(code)))
      ensures old(Valid()) ==> Valid() && Same(old(View()), View()) && AllJumpedTo(View())
      ensures forall r :: 0 <= r < |number| ==> number[r] < LABELS
    {
      hide Same, Good, Hollow;
      DropUseless();
      ghost var p := View();
      MergeAll();
      if old(Valid()) { SameTrans(old(View()), p, View()); }
    }

    method DropUseless()
      requires InRange(code, number) && forall r :: 0 <= r < |number| ==> number[r] < LABELS
      modifies this`code
      ensures InRange(code, number) && (Hollow(code) <==> Hollow(old(code)))
      ensures AllJumpedTo(View()) && (old(Valid()) ==> Valid() && Same(old(View()), View()))
    {
      hide Same, Good;
      var labelMap := new bool[LABELS](_ => false);
      MarkJumps(labelMap);
      var ic := 0;
      SameSelf(View());
      assert old(View()) == View();
      while ic < |code|
        invariant ic <= |code| && InRange(code, number) && (Hollow(code) <==> Hollow(old(code)))
        invariant old(Valid()) ==> Valid() && Same(old(View()), View())
        invariant forall n: nat :: n < LABELS ==> (labelMap[n] <==> JumpedTo(View(), n))
        invariant forall k :: 0 <= k < ic && View()[k].Label? ==> JumpedTo(View(), View()[k].l)
        decreases |code| - ic
      {
        if code[ic].Label? && !labelMap[number[code[ic].l]] {
          ghost var p := View();
          HollowWithout(code, ic);
          DropLabel(ic);
          if old(Valid()) { SameTrans(old(View()), p, View()); }
          WithoutJumped(p, ic);
        } else {
          ic := ic + 1;
        }
      }
    }

    method MergeAll()
      requires InRange(code, number) && AllJumpedTo(View()) && forall r :: 0 <= r < |number| ==> number[r] < LABELS
      modifies this
      ensures InRange(code, number) && Apart(View(), |View()|) && (Hollow(code) <==> Hollow(old(code)))
      ensures old(Valid()) ==> Valid() && Same(old(View()), View()) && AllJumpedTo(View())
      ensures forall r :: 0 <= r < |number| ==> number[r] < LABELS
    {
      hide Same, Merged, Good, Shown, AllJumpedTo, Apart, Hollow;
      var ic := 0;
      SameSelf(View());
      assert Apart(View(), 0) by { NoneApart(View()); }
      while ic < |code|
        invariant ic <= |code| && InRange(code, number) && Apart(View(), ic) && (Hollow(code) <==> Hollow(old(code)))
        invariant old(Valid()) ==> Valid() && Same(old(View()), View()) && AllJumpedTo(View())
        invariant forall r :: 0 <= r < |number| ==> number[r] < LABELS
        decreases |code| - ic
      {
        NextApart(View(), ic);
        if ic + 1 >= |code| {
          break;
        }
        assert View()[ic].Label? == code[ic].Label? && View()[ic + 1].Label? == code[ic + 1].Label?;
        if code[ic].Label? && code[ic + 1].Label? {
          ghost var p := View();
          MergeUnseen(ic);
          if old(Valid()) {
            SameTrans(old(View()), p, View());
            MergedUsed(p, View(), ic);
          }
          StillApart(p, View(), ic);
        } else {
          ic := ic + 1;
        }
      }
    }

    // Marks the numbers that are jumped to.
    method MarkJumps(labelMap: array<bool>)
      requires InRange(code, number) && labelMap.Length == LABELS && forall n :: 0 <= n < LABELS ==> !labelMap[n]
      requires forall r :: 0 <= r < |number| ==> number[r] < LABELS
      modifies labelMap
      ensures forall n: nat :: n < LABELS ==> (labelMap[n] <==> JumpedTo(View(), n))
    {
      var ic := 0;
      while ic < |code|
        invariant ic <= |code|
        invariant forall n: nat :: n < LABELS ==> (labelMap[n] <==> JumpedBefore(View(), n, ic))
      {
        JumpedNext(View(), ic);
        if IsJump(code[ic]) {
          labelMap[number[code[ic].l]] := true;
        }
        ic := ic + 1;
      }
    }

    /** Sends each jump to a label with a jump after it, if the jump stands before the label, to where
        that jump goes; each such jump gets a label record of its own. Afterwards no jump at all goes to
        a label with a jump after it. */
    method OptLabel()
      requires Valid() && forall r :: 0 <= r < |number| ==> number[r] < LABELS
      modifies this
      ensures Valid() && Same(old(View()), View())
      ensures View() == LabelPass(old(View()), 0)
      ensures forall k, f | 0 <= k < |code| && 0 <= f && f + 1 < |code| && IsJump(View()[k]) ::
        View()[f] == Label(View()[k].l) ==> !View()[f + 1].Goto?
      ensures forall r :: 0 <= r < |number| ==> number[r] < LABELS
    {
      hide Same, Good, Threads;
      var ic := 0;
      SameSelf(View());
      while ic < |code|
        invariant ic <= |code| && Valid() && Same(old(View()), View())
        invariant LabelPass(View(), ic) == LabelPass(old(View()), 0)
        invariant Unchained(View(), ic)
        invariant forall r :: 0 <= r < |number| ==> number[r] < LABELS
        decreases |code| - ic
      {
        if ic + 1 < |code| && code[ic].Label? && code[ic + 1].Goto? {
          ghost var p := View();
          NextUnchained(p, ic);
          ThreadAll(ic);
          SameTrans(old(View()), p, View());
        }
        ic := ic + 1;
      }
    }

    method ThreadAll(ic: nat)
      requires Valid() && ic + 1 < |code| && code[ic].Label? && code[ic + 1].Goto?
      requires forall r :: 0 <= r < |number| ==> number[r] < LABELS
      modifies this
      ensures Valid() && Same(old(View()), View()) && |code| == |old(code)|
      ensures View() == Threads(old(View()), ic, 0)
      ensures forall r :: 0 <= r < |number| ==> number[r] < LABELS
    {
      hide Same, Good;
      var l1 := number[code[ic].l];
      var p: int := ic - 1;
      SameSelf(View());
      assert View() == Threads(View(), ic, ic);
      while p >= 0
        invariant -1 <= p < ic && |code| == |old(code)| && Valid() && Same(old(View()), View())
        invariant View() == Threads(old(View()), ic, p + 1)
        invariant code[ic] == old(code)[ic] && code[ic + 1] == old(code)[ic + 1] && number[code[ic].l] == l1
        invariant forall r :: 0 <= r < |number| ==> number[r] < LABELS
        decreases p
      {
        ghost var before := View();
        ThreadsNext(old(View()), ic, p);
        assert before[ic] == Label(l1) && IsJump(before[p]) == IsJump(code[p]);
        if IsJump(code[p]) && number[code[p].l] == l1 {
          ThreadOne(ic, p);
          SameTrans(old(View()), before, View());
        }
        p := p - 1;
      }
    }

    // The jump at `p` gets a new record with the number of the jump's label.
    method ThreadOne(ic: nat, p: nat)
      requires Valid() && p < ic && ic + 1 < |code| && code[ic].Label? && code[ic + 1].Goto?
      requires IsJump(code[p]) && number[code[p].l] == number[code[ic].l]
      modifies this
      ensures Valid() && Same(old(View()), View())
      ensures View() == old(View())[p := SentTo(old(View())[p], old(View())[ic + 1].l)]
      ensures code == old(code)[p := SentTo(old(code)[p], |old(number)|)]
      ensures number == old(number) + [old(number)[old(code)[ic + 1].l]]
    {
      ghost var before := View();
      var l2 := number[code[ic + 1].l];
      ghost var after := before[p := SentTo(before[p], l2)];
      ShownSent(code, number, p, l2);
      hide Good, Same, SentTo, Show, Shown;
      code := code[p := SentTo(code[p], |number|)];
      number := number + [l2];
      if l2 == before[ic].l {
        assert after == before;
        SameSelf(before);
      } else {
        ThreadJump(before, after, ic, p);
      }
    }

    /** Drops assignments to nothing. */
    method DropUnplaced()
      requires InRange(code, number) && Linked(View())
      modifies this`code
      ensures InRange(code, number) && Linked(View()) && Same(old(View()), View())
      ensures forall k :: 0 <= k < |code| ==> !(code[k].Assign? && code[k].d == Missing)
      ensures Hollow(code) <==> Hollow(old(code))
      ensures AllJumpedTo(old(View())) ==> AllJumpedTo(View())
    {
      hide Same, Linked, Hollow, AllJumpedTo;
      SameSelf(View());
      var p := 0;
      while p < |code|
        invariant p <= |code| && InRange(code, number) && Linked(View()) && Same(old(View()), View())
        invariant Hollow(code) <==> Hollow(old(code))
        invariant AllJumpedTo(old(View())) ==> AllJumpedTo(View())
        invariant forall k :: 0 <= k < p ==> !(code[k].Assign? && code[k].d == Missing)
        decreases |code| - p
      {
        if code[p].Assign? && code[p].d == Missing {
          ghost var before := View();
          ShownWithout(code, number, p);
          HollowWithout(code, p);
          NoPlace(before, p);
          if AllJumpedTo(before) { UsedWithout(before, p); }
          Remove(p);
          SameTrans(old(View()), before, View());
        } else {
          p := p + 1;
        }
      }
    }
  }

  // A jump with a new record of its own.
  lemma ShownSent(code: Code, number: seq<nat>, p: nat, l: nat)
    requires InRange(code, number) && p < |code| && IsJump(code[p])
    ensures var code', number' := code[p := SentTo(code[p], |number|)], number + [l];
      InRange(code', number') && Shown(code', number') == Shown(code, number)[p := SentTo(Shown(code, number)[p], l)]
  {
    var code', number' := code[p := SentTo(code[p], |number|)], number + [l];
    forall k | 0 <= k < |code| && k != p && HasLabel(code[k])
      ensures number'[code[k].l] == number[code[k].l]
    {
    }
    assert number'[|number|] == l;
    assert forall k :: 0 <= k < |code| && k != p ==> Show(code'[k], number') == Show(code[k], number);
  }

  // The jumps from place `m` up to label `i` go where the jump after that label goes.
  function Threads(p: Code, i: nat, m: nat): (q: Code)
    requires i + 1 < |p| && p[i].Label? && p[i + 1].Goto?
    ensures |q| == |p|
    ensures forall k :: 0 <= k < |p| ==>
      q[k] == if m <= k < i && IsJump(p[k]) && p[k].l == p[i].l then SentTo(p[k], p[i + 1].l) else p[k]
  {
    seq(|p|, k requires 0 <= k < |p| =>
      if m <= k < i && IsJump(p[k]) && p[k].l == p[i].l then SentTo(p[k], p[i + 1].l) else p[k])
  }

  lemma ThreadsNext(p: Code, i: nat, m: nat)
    requires i + 1 < |p| && p[i].Label? && p[i + 1].Goto? && m < i
    ensures var q := Threads(p, i, m + 1);
      q[m] == p[m] && q[i] == p[i] && q[i + 1] == p[i + 1]
      && Threads(p, i, m) == if IsJump(p[m]) && p[m].l == p[i].l then q[m := SentTo(p[m], p[i + 1].l)] else q
  {
    var r, q := Threads(p, i, m), Threads(p, i, m + 1);
    forall k | 0 <= k < |p| && k != m
      ensures r[k] == q[k]
    {
    }
    hide SentTo;
    assert r[m] == if IsJump(p[m]) && p[m].l == p[i].l then SentTo(p[m], p[i + 1].l) else p[m];
    assert r == q[m := r[m]];
  }

  function LabelPass(p: Code, i: nat): Code
    decreases |p| - i
  {
    if i + 1 >= |p| then p
    else if p[i].Label? && p[i + 1].Goto? then LabelPass(Threads(p, i, 0), i + 1)
    else LabelPass(p, i + 1)
  }

  // ---------- what the passes leave ----------

  /** A jump to the next instruction or a branch over a jump is left. */
  ghost predicate GotoLeft(c: Code) {
    exists k :: 0 <= k < |c| && (IsGotoNext(c, k) || IsBranchOver(c, k))
  }

  // Of the jumps at `k` and `k + 1` the second one leads to the next instruction and the first one, or a
  // branch over it, to the same place.
  predicate KnotAt(c: Code, k: nat) {
    && k + 2 < |c| && c[k].Goto? && c[k + 1].Goto? && c[k + 2] == Label(c[k + 1].l)
    && (c[k].l == c[k + 1].l || (k > 0 && c[k - 1].IfGoto? && c[k - 1].l == c[k + 1].l))
  }

  ghost predicate Knotted(c: Code) {
    exists k :: 0 <= k < |c| && KnotAt(c, k)
  }

  // What will be left at the end: before place `i` it stands there already, from there on it is a knot.
  predicate LeftAt(c: Code, i: nat, k: nat) {
    || (k + 2 <= i && IsGotoNext(c, k))
    || (k + 3 <= i && IsBranchOver(c, k))
    || (k + 1 >= i && KnotAt(c, k))
  }

  ghost predicate WillBeLeft(c: Code, i: nat) {
    exists k :: 0 <= k < |c| && LeftAt(c, i, k)
  }

  // The places that have just been passed are done.
  ghost predicate Passed(c: Code, i: nat) {
    && (i >= 1 ==> !IsGotoNext(c, i - 1) && !IsBranchOver(c, i - 1))
    && (i >= 2 ==> !IsBranchOver(c, i - 2))
  }

  // What stands around place `k` once place `i` is gone.
  lemma Around(c: Code, i: nat, k: nat)
    requires i < |c| && k + 1 < |c|
    ensures var q := Without(c, i);
      && (1 <= k <= i ==> q[k - 1] == c[k - 1]) && (k > i ==> q[k - 1] == c[k])
      && q[k] == (if k < i then c[k] else c[k + 1])
      && (k + 2 < |c| ==> q[k + 1] == if k + 1 < i then c[k + 1] else c[k + 2])
      && (k + 3 < |c| ==> q[k + 2] == if k + 2 < i then c[k + 2] else c[k + 3])
  {
    WithoutAt(c, i, k);
    if k >= 1 { WithoutAt(c, i, k - 1); }
    if k + 2 < |c| { WithoutAt(c, i, k + 1); }
    if k + 3 < |c| { WithoutAt(c, i, k + 2); }
  }

  lemma DropForth(c: Code, i: nat, k: nat) returns (m: nat)
    requires Passed(c, i) && IsGotoNext(c, i) && k < |c| && LeftAt(c, i, k)
    ensures m + 1 < |c| && LeftAt(Without(c, i), i + 1, m)
  {
    hide Without, Unshift;
    m := if k + 1 < i then k else if k + 1 > i then k - 1 else if c[k].l == c[i].l then k else k - 1;
    Around(c, i, m);
  }

  lemma DropBack(c: Code, i: nat, k: nat) returns (m: nat)
    requires Passed(c, i) && IsGotoNext(c, i) && k + 1 < |c| && LeftAt(Without(c, i), i + 1, k)
    ensures m < |c| && LeftAt(c, i, m)
  {
    hide Without, Unshift;
    Around(c, i, k);
    var q := Without(c, i);
    m := if k >= i then k + 1 else if k + 1 == i || (k + 2 == i && IsBranchOver(q, k)) then i - 1 else k;
  }

  lemma DropPassed(c: Code, i: nat)
    requires Passed(c, i) && IsGotoNext(c, i)
    ensures Passed(Without(c, i), i + 1)
  {
    hide Without;
    Around(c, i, i);
  }

  lemma DropKeeps(c: Code, i: nat)
    requires Passed(c, i) && IsGotoNext(c, i)
    ensures Passed(Without(c, i), i + 1) && (WillBeLeft(Without(c, i), i + 1) <==> WillBeLeft(c, i))
  {
    hide Without, LeftAt;
    var q := Without(c, i);
    DropPassed(c, i);
    hide Passed, IsGotoNext;
    if WillBeLeft(c, i) {
      var k :| 0 <= k < |c| && LeftAt(c, i, k);
      var m := DropForth(c, i, k);
    }
    if WillBeLeft(q, i + 1) {
      var k :| 0 <= k < |q| && LeftAt(q, i + 1, k);
      var m := DropBack(c, i, k);
    }
  }

  lemma AroundTurned(c: Code, i: nat, k: nat)
    requires IsBranchOver(c, i) && k + 1 < |c|
    ensures var q := TurnedAt(c, i);
      && |q| + 1 == |c| && q[i].IfGoto?
      && (1 <= k <= i ==> q[k - 1] == c[k - 1]) && (k > i + 1 ==> q[k - 1] == c[k])
      && (k != i ==> q[k] == if k < i then c[k] else c[k + 1])
      && (k + 2 < |c| && k + 1 != i ==> q[k + 1] == if k + 1 < i then c[k + 1] else c[k + 2])
      && (k + 3 < |c| && k + 2 != i ==> q[k + 2] == if k + 2 < i then c[k + 2] else c[k + 3])
  {
    var turned := c[i := IfGoto(Opposite(c[i].rel), c[i].a, c[i].b, c[i + 1].l)];
    Around(turned, i + 1, k);
    WithoutAt(turned, i + 1, i);
    hide Without, Opposite;
  }

  lemma TurnForth(c: Code, i: nat, k: nat) returns (m: nat)
    requires Passed(c, i) && IsBranchOver(c, i) && k < |c| && LeftAt(c, i, k)
    ensures m + 1 < |c| && LeftAt(TurnedAt(c, i), i + 1, m)
  {
    hide TurnedAt;
    m := if k < i then k else k - 1;
    AroundTurned(c, i, m);
  }

  lemma TurnBack(c: Code, i: nat, k: nat) returns (m: nat)
    requires Passed(c, i) && IsBranchOver(c, i) && k + 1 < |c| && LeftAt(TurnedAt(c, i), i + 1, k)
    ensures m < |c| && LeftAt(c, i, m)
  {
    hide TurnedAt;
    AroundTurned(c, i, k);
    m := if k < i then k else k + 1;
  }

  lemma TurnPassed(c: Code, i: nat)
    requires Passed(c, i) && IsBranchOver(c, i)
    ensures Passed(TurnedAt(c, i), i + 1)
  {
    hide TurnedAt;
    AroundTurned(c, i, i);
  }

  lemma TurnKeeps(c: Code, i: nat)
    requires Passed(c, i) && IsBranchOver(c, i)
    ensures |TurnedAt(c, i)| + 1 == |c|
    ensures Passed(TurnedAt(c, i), i + 1) && (WillBeLeft(TurnedAt(c, i), i + 1) <==> WillBeLeft(c, i))
  {
    hide TurnedAt, LeftAt;
    var q := TurnedAt(c, i);
    AroundTurned(c, i, i);
    TurnPassed(c, i);
    hide Passed, IsBranchOver;
    if WillBeLeft(c, i) {
      var k :| 0 <= k < |c| && LeftAt(c, i, k);
      var m := TurnForth(c, i, k);
    }
    if WillBeLeft(q, i + 1) {
      var k :| 0 <= k < |q| && LeftAt(q, i + 1, k);
      var m := TurnBack(c, i, k);
    }
  }

  lemma SkipKeeps(c: Code, i: nat)
    requires Passed(c, i) && !IsGotoNext(c, i) && !IsBranchOver(c, i)
    ensures Passed(c, i + 1) && (WillBeLeft(c, i + 1) <==> WillBeLeft(c, i))
  {
    if WillBeLeft(c, i) {
      var k :| 0 <= k < |c| && LeftAt(c, i, k);
      assert LeftAt(c, i + 1, k);
    }
    if WillBeLeft(c, i + 1) {
      var k :| 0 <= k < |c| && LeftAt(c, i + 1, k);
      assert LeftAt(c, i, k);
    }
  }

  lemma EndLeaves(c: Code, i: nat)
    requires Passed(c, i) && (i >= |c| || (i + 2 >= |c| && c[i].IfGoto?))
    ensures WillBeLeft(c, i) <==> GotoLeft(c)
  {
    forall k: nat | k < |c|
      ensures LeftAt(c, i, k) <==> IsGotoNext(c, k) || IsBranchOver(c, k)
    {
    }
    hide LeftAt, IsGotoNext, IsBranchOver;
  }

  lemma {:induction false} GotoPassLeaves(c: Code, i: nat)
    requires Passed(c, i)
    ensures GotoLeft(GotoPass(c, i)) <==> WillBeLeft(c, i)
    decreases |c| - i
  {
    hide Passed, WillBeLeft, GotoLeft, TurnedAt;
    if i >= |c| {
      EndLeaves(c, i);
    } else if IsGotoNext(c, i) {
      DropKeeps(c, i);
      GotoPassLeaves(Without(c, i), i + 1);
    } else if c[i].IfGoto? && i + 2 >= |c| {
      EndLeaves(c, i);
    } else if IsBranchOver(c, i) {
      TurnKeeps(c, i);
      GotoPassLeaves(TurnedAt(c, i), i + 1);
    } else {
      SkipKeeps(c, i);
      GotoPassLeaves(c, i + 1);
    }
  }

  /** Exactly knots are left by the pass. */
  lemma GotoPassIsExact(c: Code)
    ensures GotoLeft(GotoPass(c, 0)) <==> Knotted(c)
  {
    GotoPassLeaves(c, 0);
    hide GotoPass, GotoLeft;
    forall k: nat
      ensures LeftAt(c, 0, k) <==> KnotAt(c, k)
    {
    }
    hide KnotAt, LeftAt;
  }

  lemma SpacedUnknotted(c: Code)
    requires Spaced(c)
    ensures !Knotted(c)
  {
  }

  lemma SpacedWithout(c: Code, i: nat)
    requires Spaced(c) && i < |c| && c[i].Goto?
    ensures Spaced(Without(c, i))
  {
    var q := Without(c, i);
    forall k | 0 <= k && k + 1 < |q| && q[k].Goto?
      ensures !q[k + 1].Goto?
    {
      Around(c, i, k);
    }
  }

  lemma SpacedTurned(c: Code, i: nat)
    requires Spaced(c) && IsBranchOver(c, i)
    ensures |TurnedAt(c, i)| + 1 == |c| && Spaced(TurnedAt(c, i))
  {
    SpacedWithout(c[i := IfGoto(Opposite(c[i].rel), c[i].a, c[i].b, c[i + 1].l)], i + 1);
  }

  lemma {:induction false} GotoPassSpaced(c: Code, i: nat)
    requires Spaced(c)
    ensures Spaced(GotoPass(c, i))
    decreases |c| - i
  {
    hide Spaced, TurnedAt;
    if i >= |c| {
    } else if IsGotoNext(c, i) {
      SpacedWithout(c, i);
      GotoPassSpaced(Without(c, i), i + 1);
    } else if c[i].IfGoto? && i + 2 >= |c| {
    } else if IsBranchOver(c, i) {
      SpacedTurned(c, i);
      GotoPassSpaced(TurnedAt(c, i), i + 1);
    } else {
      GotoPassSpaced(c, i + 1);
    }
  }

  lemma NoneLeft(c: Code)
    requires !GotoLeft(c)
    ensures forall k :: 0 <= k && k + 1 < |c| && c[k].Goto? ==> c[k + 1] != Label(c[k].l)
    ensures forall k :: 0 <= k && k + 2 < |c| && c[k].IfGoto? && c[k + 1].Goto? ==> c[k + 2] != Label(c[k].l)
  {
    forall k | 0 <= k && k + 1 < |c| && c[k].Goto?
      ensures c[k + 1] != Label(c[k].l)
    {
      assert !IsGotoNext(c, k);
    }
    forall k | 0 <= k && k + 2 < |c| && c[k].IfGoto? && c[k + 1].Goto?
      ensures c[k + 2] != Label(c[k].l)
    {
      assert !IsBranchOver(c, k);
    }
  }

  lemma AfterGotoPass(c: Code)
    ensures var q := GotoPass(c, 0);
      && (GotoLeft(q) <==> Knotted(c))
      && (Spaced(c) ==> Spaced(q))
      && (Spaced(c) ==> forall k :: 0 <= k && k + 1 < |q| && q[k].Goto? ==> q[k + 1] != Label(q[k].l))
      && (Spaced(c) ==> forall k :: 0 <= k && k + 2 < |q| && q[k].IfGoto? && q[k + 1].Goto? ==> q[k + 2] != Label(q[k].l))
  {
    hide *;
    GotoPassIsExact(c);
    if Spaced(c) {
      SpacedUnknotted(c);
      GotoPassSpaced(c, 0);
      NoneLeft(GotoPass(c, 0));
    }
  }

  /** A jump stands after a return. */
  ghost predicate ReturnLeft(c: Code) {
    exists k :: 0 <= k && k + 1 < |c| && c[k].Return? && c[k + 1].Goto?
  }

  ghost predicate TwoAfterReturn(c: Code) {
    exists k :: 0 <= k < |c| && TwoAt(c, k)
  }

  predicate OneAt(c: Code, k: nat) {
    k + 1 < |c| && c[k].Return? && c[k + 1].Goto?
  }

  predicate TwoAt(c: Code, k: nat) {
    k + 2 < |c| && c[k].Return? && c[k + 1].Goto? && c[k + 2].Goto?
  }

  predicate StaysAt(c: Code, i: nat, k: nat) {
    if k < i then OneAt(c, k) else TwoAt(c, k)
  }

  ghost predicate WillStay(c: Code, i: nat) {
    exists k :: 0 <= k < |c| && StaysAt(c, i, k)
  }

  lemma ReturnDropForth(c: Code, i: nat, k: nat)
    requires OneAt(c, i) && k < |c| && StaysAt(c, i, k)
    ensures var m := if k <= i then k else k - 1; m + 1 < |c| && StaysAt(Without(c, i + 1), i + 1, m)
  {
    hide Without;
    Around(c, i + 1, if k <= i then k else k - 1);
  }

  lemma ReturnDropBack(c: Code, i: nat, k: nat)
    requires OneAt(c, i) && k + 1 < |c| && StaysAt(Without(c, i + 1), i + 1, k)
    ensures var m := if k <= i then k else k + 1; m < |c| && StaysAt(c, i, m)
  {
    hide Without;
    Around(c, i + 1, k);
  }

  lemma ReturnDropKeeps(c: Code, i: nat)
    requires OneAt(c, i)
    ensures WillStay(Without(c, i + 1), i + 1) <==> WillStay(c, i)
  {
    hide Without, StaysAt;
    var q := Without(c, i + 1);
    if WillStay(c, i) {
      var k :| 0 <= k < |c| && StaysAt(c, i, k);
      ReturnDropForth(c, i, k);
    }
    if WillStay(q, i + 1) {
      var k :| 0 <= k < |q| && StaysAt(q, i + 1, k);
      ReturnDropBack(c, i, k);
    }
  }

  lemma ReturnSkipKeeps(c: Code, i: nat)
    requires !OneAt(c, i)
    ensures WillStay(c, i + 1) <==> WillStay(c, i)
  {
    if WillStay(c, i) {
      var k :| 0 <= k < |c| && StaysAt(c, i, k);
      assert StaysAt(c, i + 1, k);
    }
    if WillStay(c, i + 1) {
      var k :| 0 <= k < |c| && StaysAt(c, i + 1, k);
      assert StaysAt(c, i, k);
    }
  }

  lemma ReturnEndLeaves(c: Code, i: nat)
    requires i + 1 >= |c|
    ensures WillStay(c, i) <==> ReturnLeft(c)
  {
    forall k: nat | k < |c|
      ensures StaysAt(c, i, k) <==> OneAt(c, k)
    {
    }
    if ReturnLeft(c) {
      var k :| 0 <= k && k + 1 < |c| && c[k].Return? && c[k + 1].Goto?;
      assert StaysAt(c, i, k);
    }
  }

  lemma {:induction false} ReturnPassLeaves(c: Code, i: nat)
    ensures ReturnLeft(ReturnPass(c, i)) <==> WillStay(c, i)
    decreases |c| - i
  {
    hide WillStay, ReturnLeft;
    if i + 1 >= |c| {
      ReturnEndLeaves(c, i);
    } else if c[i].Return? && c[i + 1].Goto? {
      ReturnDropKeeps(c, i);
      ReturnPassLeaves(Without(c, i + 1), i + 1);
    } else {
      ReturnSkipKeeps(c, i);
      ReturnPassLeaves(c, i + 1);
    }
  }

  /** Exactly where two jumps stand after a return one is left. */
  lemma ReturnPassIsExact(c: Code)
    ensures ReturnLeft(ReturnPass(c, 0)) <==> TwoAfterReturn(c)
    ensures Spaced(c) ==> !TwoAfterReturn(c) && Spaced(ReturnPass(c, 0))
  {
    ReturnPassLeaves(c, 0);
    if Spaced(c) { ReturnPassSpaced(c, 0); }
    hide ReturnPass, ReturnLeft;
    forall k: nat
      ensures StaysAt(c, 0, k) <==> TwoAt(c, k)
    {
    }
    hide StaysAt;
  }

  lemma {:induction false} ReturnPassSpaced(c: Code, i: nat)
    requires Spaced(c)
    ensures Spaced(ReturnPass(c, i))
    decreases |c| - i
  {
    hide Spaced;
    if i + 1 >= |c| {
    } else if c[i].Return? && c[i + 1].Goto? {
      SpacedWithout(c, i + 1);
      ReturnPassSpaced(Without(c, i + 1), i + 1);
    } else {
      ReturnPassSpaced(c, i + 1);
    }
  }

  // No jump goes to a label before place `n` that has a jump after it.
  ghost predicate Unchained(p: Code, n: nat) {
    forall k, f :: 0 <= k < |p| && 0 <= f < n && f + 1 < |p| && IsJump(p[k]) && p[f] == Label(p[k].l) ==> !p[f + 1].Goto?
  }

  lemma ThreadsPlaces(p: Code, i: nat)
    requires i + 1 < |p| && p[i].Label? && p[i + 1].Goto?
    ensures var q := Threads(p, i, 0);
      && (forall k :: 0 <= k < |p| ==> q[k].Goto? == p[k].Goto? && IsJump(q[k]) == IsJump(p[k]))
      && (forall k :: 0 <= k < |p| && p[k].Label? ==> q[k] == p[k])
      && (forall k :: 0 <= k < |p| && q[k].Label? ==> q[k] == p[k])
      && (forall k :: 0 <= k < |p| && IsJump(p[k]) ==> q[k].l == p[k].l || q[k].l == p[i + 1].l)
      && (forall k :: 0 <= k < i && IsJump(p[k]) && p[k].l == p[i].l ==> q[k].l == p[i + 1].l)
  {
  }

  lemma NextUnchained(p: Code, i: nat)
    requires Good(p) && Unchained(p, i) && i + 1 < |p| && p[i].Label? && p[i + 1].Goto?
    ensures Unchained(Threads(p, i, 0), i + 1)
  {
    var q := Threads(p, i, 0);
    NoBackJump(p, i);
    ThreadsPlaces(p, i);
    hide Good, Threads;
    forall k, f | 0 <= k < |q| && 0 <= f < i + 1 && f + 1 < |q| && IsJump(q[k]) && q[f] == Label(q[k].l)
      ensures !q[f + 1].Goto?
    {
      var m := if q[k].l == p[k].l then k else i + 1;
      assert IsJump(p[m]) && p[f] == Label(p[m].l) && (m > i || f != i);
    }
  }

  // ---------- operations without a place stay ----------

  lemma HollowAlike(p: Code, q: Code)
    requires |p| == |q| && forall k :: 0 <= k < |p| ==> Unseated(p[k]) == Unseated(q[k])
    ensures Hollow(p) <==> Hollow(q)
  {
  }

  lemma HollowShown(code: Code, number: seq<nat>)
    requires InRange(code, number)
    ensures Hollow(Shown(code, number)) <==> Hollow(code)
  {
    HollowAlike(Shown(code, number), code);
  }

  lemma HollowWithout(c: Code, i: nat)
    requires i < |c| && !Unseated(c[i])
    ensures Hollow(Without(c, i)) <==> Hollow(c)
  {
    var q := Without(c, i);
    if Hollow(c) {
      var k :| 0 <= k < |c| && Unseated(c[k]);
      assert q[Shift(i, k)] == c[k];
    }
    if Hollow(q) {
      var k :| 0 <= k < |q| && Unseated(q[k]);
      WithoutAt(c, i, k);
    }
  }

  lemma {:induction false} HollowGotoPass(c: Code, i: nat)
    ensures Hollow(GotoPass(c, i)) <==> Hollow(c)
    decreases |c| - i
  {
    hide Hollow;
    if i >= |c| {
    } else if IsGotoNext(c, i) {
      HollowWithout(c, i);
      HollowGotoPass(Without(c, i), i + 1);
    } else if c[i].IfGoto? && i + 2 >= |c| {
    } else if IsBranchOver(c, i) {
      var turned := c[i := IfGoto(Opposite(c[i].rel), c[i].a, c[i].b, c[i + 1].l)];
      HollowAlike(turned, c);
      HollowWithout(turned, i + 1);
      HollowGotoPass(TurnedAt(c, i), i + 1);
    } else {
      HollowGotoPass(c, i + 1);
    }
  }

  lemma {:induction false} HollowReturnPass(c: Code, i: nat)
    ensures Hollow(ReturnPass(c, i)) <==> Hollow(c)
    decreases |c| - i
  {
    hide Hollow;
    if i + 1 >= |c| {
    } else if c[i].Return? && c[i + 1].Goto? {
      HollowWithout(c, i + 1);
      HollowReturnPass(Without(c, i + 1), i + 1);
    } else {
      HollowReturnPass(c, i + 1);
    }
  }

  lemma {:induction false} HollowLabelPass(p: Code, i: nat)
    ensures Hollow(LabelPass(p, i)) <==> Hollow(p)
    decreases |p| - i
  {
    hide Hollow;
    if i + 1 >= |p| {
    } else if p[i].Label? && p[i + 1].Goto? {
      HollowAlike(Threads(p, i, 0), p);
      HollowLabelPass(Threads(p, i, 0), i + 1);
    } else {
      HollowLabelPass(p, i + 1);
    }
  }

  // ---------- labels and the jumps to them ----------

  ghost predicate JumpedTo(p: Code, n: nat) {
    JumpedBefore(p, n, |p|)
  }

  ghost predicate JumpedBefore(p: Code, n: nat, m: nat) {
    exists j :: 0 <= j < m && j < |p| && IsJump(p[j]) && p[j].l == n
  }

  lemma JumpedNext(p: Code, m: nat)
    requires m < |p|
    ensures forall n: nat :: JumpedBefore(p, n, m + 1) <==> JumpedBefore(p, n, m) || (IsJump(p[m]) && p[m].l == n)
  {
    forall n: nat
      ensures JumpedBefore(p, n, m + 1) <==> JumpedBefore(p, n, m) || (IsJump(p[m]) && p[m].l == n)
    {
      if JumpedBefore(p, n, m + 1) {
        var j :| 0 <= j < m + 1 && IsJump(p[j]) && p[j].l == n;
        assert j < m ==> JumpedBefore(p, n, m);
      }
    }
  }

  ghost predicate AllJumpedTo(p: Code) {
    forall k :: 0 <= k < |p| && p[k].Label? ==> JumpedTo(p, p[k].l)
  }

  ghost predicate Apart(p: Code, n: nat) {
    forall k :: 0 <= k < n && k + 1 < |p| ==> !(p[k].Label? && p[k + 1].Label?)
  }

  lemma WithoutJumped(p: Code, i: nat)
    requires i < |p| && !IsJump(p[i])
    ensures forall n: nat :: JumpedTo(Without(p, i), n) <==> JumpedTo(p, n)
  {
    var q := Without(p, i);
    forall n: nat
      ensures JumpedTo(q, n) <==> JumpedTo(p, n)
    {
      if JumpedTo(p, n) {
        var j :| 0 <= j < |p| && IsJump(p[j]) && p[j].l == n;
        assert q[Shift(i, j)] == p[j];
      }
      if JumpedTo(q, n) {
        var j :| 0 <= j < |q| && IsJump(q[j]) && q[j].l == n;
        WithoutAt(p, i, j);
      }
    }
  }

  lemma UsedWithout(p: Code, i: nat)
    requires AllJumpedTo(p) && i < |p| && !IsJump(p[i])
    ensures AllJumpedTo(Without(p, i))
  {
    var q := Without(p, i);
    WithoutJumped(p, i);
    hide JumpedTo;
    forall k | 0 <= k < |q| && q[k].Label?
      ensures JumpedTo(q, q[k].l)
    {
      WithoutAt(p, i, k);
    }
  }

  lemma MergedUsed(p: Code, q: Code, i: nat)
    requires Merged(p, q, i) && AllJumpedTo(p) && Good(p)
    ensures AllJumpedTo(q)
  {
    forall k | 0 <= k < |q| && q[k].Label?
      ensures JumpedTo(q, q[k].l)
    {
      var m := Unshift(i, k);
      assert q[Shift(i, m)] == q[k] && p[m] == q[k];
      assert JumpedTo(p, p[m].l);
      var j :| 0 <= j < |p| && IsJump(p[j]) && p[j].l == p[m].l;
      assert p[m].l != p[i].l;
      assert q[Shift(i, j)] == p[j];
    }
  }

  lemma NoneApart(p: Code)
    ensures Apart(p, 0)
  {
  }

  lemma NextApart(p: Code, n: nat)
    requires Apart(p, n) && n < |p|
    ensures n + 1 >= |p| ==> Apart(p, |p|)
    ensures n + 1 < |p| && !(p[n].Label? && p[n + 1].Label?) ==> Apart(p, n + 1)
  {
  }

  lemma StillApart(p: Code, q: Code, i: nat)
    requires i + 1 < |p| && |q| + 1 == |p| && p[i].Label? && Apart(p, i)
    requires forall k :: 0 <= k < |q| ==> q[k].Label? == p[Unshift(i, k)].Label?
    ensures Apart(q, i)
  {
    forall k | 0 <= k < i && k + 1 < |q|
      ensures !(q[k].Label? && q[k + 1].Label?)
    {
      assert Unshift(i, k) == k && (k + 1 == i || Unshift(i, k + 1) == k + 1);
    }
  }

  // ---------- what the change of records does ----------

  // Some jump from place `m` to place `i` uses the record `r`.
  ghost predicate UsedFrom(code: Code, m: nat, i: nat, r: nat) {
    exists k :: m <= k <= i && k < |code| && IsJump(code[k]) && code[k].l == r
  }

  ghost function RenumberedFrom(code: Code, number: seq<nat>, m: nat, i: nat): (now: seq<nat>)
    requires InRange(code, number) && i + 1 < |code| && code[i].Label? && code[i + 1].Label?
    ensures |now| == |number|
  {
    seq(|number|, r requires 0 <= r < |number| =>
      if number[r] == number[code[i].l] && UsedFrom(code, m, i, r) then number[code[i + 1].l] else number[r])
  }

  /** The records with the number of label `i` that are used by a jump before it get the number of the next label. */
  ghost function Renumbered(code: Code, number: seq<nat>, i: nat): (now: seq<nat>)
    requires InRange(code, number) && i + 1 < |code| && code[i].Label? && code[i + 1].Label?
    ensures |now| == |number|
  {
    RenumberedFrom(code, number, 0, i)
  }

  lemma RenumberedAmong(code: Code, number: seq<nat>, i: nat)
    requires InRange(code, number) && i + 1 < |code| && code[i].Label? && code[i + 1].Label?
    ensures var now := Renumbered(code, number, i); forall r :: 0 <= r < |now| ==> now[r] in number
  {
  }

  lemma RenumberNext(code: Code, number: seq<nat>, m: nat, i: nat)
    requires InRange(code, number) && m <= i && i + 1 < |code| && code[i].Label? && code[i + 1].Label?
    ensures var now, next := RenumberedFrom(code, number, m + 1, i), RenumberedFrom(code, number, m, i);
      && now[code[i + 1].l] == number[code[i + 1].l]
      && next == if IsJump(code[m]) && now[code[m].l] == number[code[i].l] then now[code[m].l := now[code[i + 1].l]] else now
    ensures RenumberedFrom(code, number, i + 1, i) == number
  {
    forall r
      ensures UsedFrom(code, m, i, r) <==> UsedFrom(code, m + 1, i, r) || (IsJump(code[m]) && code[m].l == r)
    {
      if UsedFrom(code, m, i, r) && !UsedFrom(code, m + 1, i, r) {
        var k :| m <= k <= i && k < |code| && IsJump(code[k]) && code[k].l == r;
        assert k == m;
      }
    }
    hide UsedFrom, IsJump;
    NoneUsed(code, i + 1, i);
  }

  lemma NoneUsed(code: Code, m: nat, i: nat)
    requires m > i
    ensures forall r :: !UsedFrom(code, m, i, r)
  {
  }

  ghost function AfterMerge(code: Code, number: seq<nat>, i: nat): Code
    requires InRange(code, number) && i + 1 < |code| && code[i].Label? && code[i + 1].Label?
  {
    Without(Shown(code, Renumbered(code, number, i)), i)
  }

  // Each jump after the labels that has the number of the first one shares its record with a jump before them.
  ghost predicate LaterShare(code: Code, number: seq<nat>, i: nat)
    requires InRange(code, number) && i < |code| && code[i].Label?
  {
    forall k :: i < k < |code| && IsJump(code[k]) && number[code[k].l] == number[code[i].l] ==>
      UsedFrom(code, 0, i, code[k].l)
  }

  /** The change of records leaves every jump a target exactly if each jump after the labels to the first
      of them shares its record with a jump before them, and then nothing can be seen of it. */
  lemma MergeIsExact(code: Code, number: seq<nat>, i: nat)
    requires InRange(code, number) && Linked(Shown(code, number))
    requires i + 1 < |code| && code[i].Label? && code[i + 1].Label?
    ensures Linked(AfterMerge(code, number, i)) <==> LaterShare(code, number, i)
    ensures LaterShare(code, number, i) ==> Same(Shown(code, number), AfterMerge(code, number, i))
  {
    var p, q := Shown(code, number), AfterMerge(code, number, i);
    if LaterShare(code, number, i) {
      AllMerged(code, number, i);
      hide Linked, Same, LaterShare, AfterMerge, Merged;
      MergeLabels(p, q, i);
      MergedLinked(p, q, i);
    } else {
      var k :| i < k < |code| && IsJump(code[k]) && number[code[k].l] == number[code[i].l] && !UsedFrom(code, 0, i, code[k].l);
      LaterJumpIsLost(code, number, i, k);
    }
  }

  lemma AllMerged(code: Code, number: seq<nat>, i: nat)
    requires InRange(code, number) && Unique(Shown(code, number))
    requires i + 1 < |code| && code[i].Label? && code[i + 1].Label? && LaterShare(code, number, i)
    ensures Merged(Shown(code, number), AfterMerge(code, number, i), i)
  {
    var p, q, now := Shown(code, number), AfterMerge(code, number, i), Renumbered(code, number, i);
    forall k | 0 <= k < |p| && k != i
      ensures q[Shift(i, k)] == if IsJump(p[k]) && p[k].l == p[i].l then SentTo(p[k], p[i + 1].l) else p[k]
    {
      assert q[Shift(i, k)] == Show(code[k], now);
      assert k <= i && IsJump(code[k]) ==> UsedFrom(code, 0, i, code[k].l);
      assert p[k].Label? ==> p[k].l != p[i].l;
    }
  }

  lemma LaterJumpIsLost(code: Code, number: seq<nat>, i: nat, k: nat)
    requires InRange(code, number) && Unique(Shown(code, number))
    requires i + 1 < |code| && code[i].Label? && code[i + 1].Label?
    requires i < k < |code| && IsJump(code[k]) && number[code[k].l] == number[code[i].l] && !UsedFrom(code, 0, i, code[k].l)
    ensures !Linked(AfterMerge(code, number, i))
  {
    var p, q, now := Shown(code, number), AfterMerge(code, number, i), Renumbered(code, number, i);
    var l := number[code[i].l];
    assert q[Shift(i, k)] == Show(code[k], now);
    forall m | 0 <= m < |q|
      ensures q[m] != Label(l)
    {
      var j := Unshift(i, m);
      assert Shift(i, j) == m && q[m] == Show(code[j], now);
      if code[j].Label? { assert p[j].Label? && p[i].Label? && p[j].l != p[i].l; }
    }
    assert Find(q, q[Shift(i, k)].l) == |q|;
  }

  // In a valid list no jump stands after two labels and goes back to the first.
  lemma MergeKeeps(code: Code, number: seq<nat>, i: nat)
    requires InRange(code, number) && Good(Shown(code, number))
    requires i + 1 < |code| && code[i].Label? && code[i + 1].Label?
    ensures var p, q := Shown(code, number), AfterMerge(code, number, i);
      Good(q) && Same(p, q) && Merged(p, q, i)
  {
    var p, q := Shown(code, number), AfterMerge(code, number, i);
    NoBackJump(p, i);
    assert p[i + 1].Label?;
    AllMerged(code, number, i);
    hide Same, Merged, AfterMerge;
    MergeLabels(p, q, i);
  }

  /** A loop `LABEL 1; LABEL 2; GOTO 1` is lost that way: it gets stuck instead of running on. */
  lemma LostLoop()
    ensures var code, number := [Label(0), Label(1), Goto(0)], [1, 2];
      && Shown(code, number) == [Label(1), Label(2), Goto(1)]
      && AfterMerge(code, number, 0) == [Label(2), Goto(1)]
      && !Same(Shown(code, number), AfterMerge(code, number, 0))
  {
    var code, number := [Label(0), Label(1), Goto(0)], [1, 2];
    assert !UsedFrom(code, 0, 0, 0) && Renumbered(code, number, 0) == number;
    assert Shown(code, number) == [Label(1), Label(2), Goto(1)];
    assert AfterMerge(code, number, 0) == [Label(2), Goto(1)];
    hide *;
    StuckNotLooping();
  }

  /** With a jump before it that uses the same record the loop is kept. */
  lemma KeptLoop()
    ensures var code, number := [Goto(0), Label(0), Label(1), Goto(0)], [1, 2];
      AfterMerge(code, number, 1) == [Goto(2), Label(2), Goto(2)]
  {
    var code, number := [Goto(0), Label(0), Label(1), Goto(0)], [1, 2];
    assert IsJump(code[0]) && code[0].l == 0;
    assert UsedFrom(code, 0, 1, 0);
    assert Renumbered(code, number, 1) == [2, 2];
    assert Shown(code, [2, 2]) == [Goto(2), Label(2), Label(2), Goto(2)];
  }

  // A label without a plain instruction after it is not jumped back to.
  lemma NoBackJump(p: Code, i: nat)
    requires Good(p) && i < |p| && p[i].Label? && !(i + 1 < |p| && Plain(p[i + 1]))
    ensures forall k :: i < k < |p| && IsJump(p[k]) ==> p[k].l != p[i].l
  {
    UniqueFind(p, i);
    forall k | i < k < |p| && IsJump(p[k])
      ensures p[k].l != p[i].l
    {
      assert TameAt(p, Find(p, p[k].l), k);
    }
  }
}
