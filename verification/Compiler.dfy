/** Translation followed by the control-flow passes. */
module Compiler {
  import opened ThreeAddress
  import opened SourceLanguage
  import opened Realisation
  import opened Rewriting
  import opened WholeProgram
  import Translator
  import opened CleanUp

  // Both passes over labels leave a list in which no two labels are neighbours and each is jumped to.
  ghost predicate LabelsClean(p: Code) {
    Apart(p, |p|) && AllJumpedTo(p)
  }

  /** The control-flow passes in the order in which they are made, and the lists between them; every label
      that is left is jumped to. */
  method Optimize(code: Code, labels: nat)
    returns (result: Code, ghost noGotos: Code, ghost noReturns: Code, ghost clean: Code, ghost sent: Code, ghost last: Code)
    requires Good(code) && labels < LABELS
    requires forall k :: 0 <= k < |code| && HasLabel(code[k]) ==> code[k].l <= labels
    ensures Linked(result) && Same(code, result)
    ensures noGotos == GotoPass(code, 0) && noReturns == ReturnPass(noGotos, 0) && sent == LabelPass(clean, 0)
    ensures LabelsClean(clean) && LabelsClean(last) && AllJumpedTo(result)
    ensures Same(noReturns, clean) && Same(sent, last) && Same(last, result)
    ensures forall k :: 0 <= k < |result| ==> !(result[k].Assign? && result[k].d == Missing)
    ensures Hollow(result) <==> Hollow(code)
  {
    hide Same, Good, InRange, Hollow, AllJumpedTo, Apart, Spaced, GotoPass, ReturnPass, LabelPass;
    var list := new IrList(code, labels);
    ghost var p0 := list.View();
    assert list.code == code && p0 == code;
    HollowShown(list.code, list.number);
    HollowGotoPass(list.code, 0);
    list.OptGoto();
    noGotos := list.View();
    assert noGotos == list.code by { IdentityShown(list.code, list.number); }
    HollowReturnPass(list.code, 0);
    list.DeleteGoto();
    noReturns := list.View();
    assert noReturns == list.code by { IdentityShown(list.code, list.number); }
    SameTrans(p0, noGotos, noReturns);
    list.DeleteUselessLabel();
    clean := list.View();
    SameTrans(p0, noReturns, clean);
    HollowShown(list.code, list.number);
    HollowLabelPass(clean, 0);
    list.OptLabel();
    HollowShown(list.code, list.number);
    sent := list.View();
    SameTrans(p0, clean, sent);
    list.DeleteUselessLabel();
    last := list.View();
    SameTrans(p0, sent, last);
    result := Finish(list);
    SameTrans(p0, last, result);
  }

  method Finish(list: IrList) returns (result: Code)
    requires list.Valid() && AllJumpedTo(list.View())
    modifies list
    ensures Linked(result) && Same(old(list.View()), result)
    ensures forall k :: 0 <= k < |result| ==> !(result[k].Assign? && result[k].d == Missing)
    ensures Hollow(result) <==> Hollow(old(list.code))
    ensures AllJumpedTo(result)
  {
    hide Same, Hollow, AllJumpedTo;
    list.DropUnplaced();
    HollowShown(list.code, list.number);
    result := list.Printed();
  }

  // What comes after the passes looks at the place of each result and stops if there is none.
  method AllSeated(code: Code) returns (ok: bool)
    ensures ok <==> !Hollow(code)
  {
    var k := 0;
    while k < |code|
      invariant k <= |code| && forall j :: 0 <= j < k ==> !Unseated(code[j])
    {
      if Unseated(code[k]) {
        return false;
      }
      k := k + 1;
    }
    return true;
  }

  // The instructions that have a result have a place for it.
  ghost predicate AllPlaced(code: Code) {
    forall k :: 0 <= k < |code| && (code[k].Assign? || code[k].Bin? || code[k].Read?) ==> code[k].d != Missing
  }

  /** A program is compiled if there are no messages, it takes fewer labels than the label table has
      places, and no operation or reading stands as a statement of its own; every result then has a
      place and the code means what the program means. */
  method Compile(s: Stmt) returns (result: Option<Code>)
    ensures result.Some? <==> CleanStmt(s) && StmtLabels(s) < LABELS && Wanted(s)
    ensures result.Some? ==> Linked(result.value) && AllPlaced(result.value) && Means(s, result.value)
    ensures result.Some? ==> AllJumpedTo(result.value)
  {
    var code, complaints, labels := Translator.Translate(s);
    if complaints > 0 || labels >= LABELS {
      return None;
    }
    hide StmtRuns, Means, Same, CleanStmt, Wanted, AllJumpedTo, Spaced;
    RunsMeans(s, code);
    var better, _, _, _, _, _ := Optimize(code, labels);
    SameMeans(s, code, better);
    var ok := AllSeated(better);
    if !ok {
      return None;
    }
    return Some(better);
  }

  /** The code emitted for `if (0 * 1) write(7);` writes 7. */
  method DroppedIf() returns (code: Code)
    ensures Linked(code) && !Means(If(Calculate(Mul, Num(0), Num(1)), Print(Num(7))), code)
  {
    var complaints, labels;
    code, complaints, labels := Translator.Translate(If(Calculate(Mul, Num(0), Num(1)), Print(Num(7))));
    assert CleanStmt(Print(Num(7)));
    hide StmtRuns, Means;
    DroppedCondition(code);
  }
}
