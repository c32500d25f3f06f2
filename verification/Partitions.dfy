/** Ways to put like apples on like plates. */
module Partitions {

  function Put(apple: int, plate: int): nat
    requires apple >= 0 && plate >= 1
    decreases apple, plate
  {
    if apple <= 1 || plate == 1 then 1
    else if plate > apple then Put(apple, apple)
    else Put(apple, plate - 1) + Put(apple - plate, plate)
  }

  function Sum(p: seq<nat>): nat {
    if p == [] then 0 else Sum(p[..|p| - 1]) + p[|p| - 1]
  }

  /** `p` puts `apple` apples on `plate` plates, fuller plates first; plates may stay empty. */
  ghost predicate IsWay(p: seq<nat>, apple: nat, plate: nat) {
    |p| == plate && Sum(p) == apple && forall i, j :: 0 <= i < j < |p| ==> p[i] >= p[j]
  }

  // One apple more on every plate.
  function More(p: seq<nat>): (q: seq<nat>)
    ensures |q| == |p| && forall i :: 0 <= i < |p| ==> q[i] == p[i] + 1
  {
    seq(|p|, i requires 0 <= i < |p| => p[i] + 1)
  }

  function Fewer(p: seq<nat>): (q: seq<nat>)
    requires forall i :: 0 <= i < |p| ==> p[i] > 0
    ensures |q| == |p| && forall i :: 0 <= i < |p| ==> q[i] == p[i] - 1
  {
    seq(|p|, i requires 0 <= i < |p| => p[i] - 1)
  }

  lemma {:induction false} SumMore(p: seq<nat>)
    ensures Sum(More(p)) == Sum(p) + |p|
    decreases |p|
  {
    if p != [] {
      assert More(p)[..|p| - 1] == More(p[..|p| - 1]);
      SumMore(p[..|p| - 1]);
    }
  }

  // An empty plate more in every way.
  ghost function Padded(s: set<seq<nat>>): set<seq<nat>> {
    set p | p in s :: p + [0]
  }

  ghost function Raised(s: set<seq<nat>>): set<seq<nat>> {
    set p | p in s :: More(p)
  }

  // The ways with an empty last plate and the ways with an apple on every plate.
  ghost function Ways(apple: nat, plate: nat): set<seq<nat>>
    requires plate >= 1
    decreases apple + plate
  {
    if plate == 1 then {[apple]}
    else if apple < plate then Padded(Ways(apple, plate - 1))
    else Padded(Ways(apple, plate - 1)) + Raised(Ways(apple - plate, plate))
  }

  lemma EmptyLast(p: seq<nat>, apple: nat, plate: nat)
    requires plate >= 1
    ensures IsWay(p + [0], apple, plate + 1) <==> IsWay(p, apple, plate)
  {
    var q := p + [0];
    assert q[..|q| - 1] == p;
    if IsWay(q, apple, plate + 1) {
      forall i, j | 0 <= i < j < |p| ensures p[i] >= p[j] { assert q[i] >= q[j]; }
    }
  }

  lemma FullLast(p: seq<nat>, apple: nat, plate: nat)
    ensures IsWay(More(p), apple + plate, plate) <==> IsWay(p, apple, plate)
  {
    SumMore(p);
    var q := More(p);
    if IsWay(q, apple + plate, plate) {
      forall i, j | 0 <= i < j < |p| ensures p[i] >= p[j] { assert q[i] >= q[j]; }
    }
  }

  lemma {:induction false} SumBelow(p: seq<nat>, n: nat)
    requires forall i :: 0 <= i < |p| ==> p[i] >= n
    ensures Sum(p) >= |p| * n
    decreases |p|
  {
    if p != [] { SumBelow(p[..|p| - 1], n); }
  }

  lemma {:induction false} WaysSound(p: seq<nat>, apple: nat, plate: nat)
    requires plate >= 1 && p in Ways(apple, plate)
    ensures IsWay(p, apple, plate)
    decreases apple + plate
  {
    hide IsWay;
    if plate == 1 {
      OnePlate(p, apple);
    } else if p in Padded(Ways(apple, plate - 1)) {
      var q :| q in Ways(apple, plate - 1) && p == q + [0];
      WaysSound(q, apple, plate - 1);
      EmptyLast(q, apple, plate - 1);
    } else {
      var q :| q in Ways(apple - plate, plate) && p == More(q);
      WaysSound(q, apple - plate, plate);
      FullLast(q, apple - plate, plate);
    }
  }

  lemma OnePlate(p: seq<nat>, apple: nat)
    ensures IsWay(p, apple, 1) <==> p == [apple]
  {
    if |p| == 1 {
      assert p[..0] == [] && p == [p[0]];
      assert Sum(p) == Sum(p[..0]) + p[0] == p[0];
    }
  }

  lemma {:induction false} WaysComplete(p: seq<nat>, apple: nat, plate: nat)
    requires plate >= 1 && IsWay(p, apple, plate)
    ensures p in Ways(apple, plate)
    decreases apple + plate
  {
    if plate == 1 {
      OnePlate(p, apple);
    } else if p[plate - 1] == 0 {
      var q := TakeEmpty(p, apple, plate);
      hide IsWay;
      WaysComplete(q, apple, plate - 1);
    } else {
      var q := TakeFull(p, apple, plate);
      hide IsWay;
      WaysComplete(q, apple - plate, plate);
    }
  }

  lemma TakeEmpty(p: seq<nat>, apple: nat, plate: nat) returns (q: seq<nat>)
    requires plate >= 2 && IsWay(p, apple, plate) && p[plate - 1] == 0
    ensures p == q + [0] && IsWay(q, apple, plate - 1)
  {
    q := p[..plate - 1];
    assert p == q + [0];
    hide IsWay;
    EmptyLast(q, apple, plate - 1);
  }

  lemma TakeFull(p: seq<nat>, apple: nat, plate: nat) returns (q: seq<nat>)
    requires plate >= 1 && IsWay(p, apple, plate) && p[plate - 1] > 0
    ensures apple >= plate && p == More(q) && IsWay(q, apple - plate, plate)
  {
    SumBelow(p, 1);
    q := Fewer(p);
    assert p == More(q);
    hide IsWay;
    FullLast(q, apple - plate, plate);
  }

  /** `Ways` has all the ways and no others. */
  lemma WaysAreAll(apple: nat, plate: nat)
    requires plate >= 1
    ensures forall p :: p in Ways(apple, plate) <==> IsWay(p, apple, plate)
  {
    forall p
      ensures p in Ways(apple, plate) <==> IsWay(p, apple, plate)
    {
      if p in Ways(apple, plate) { WaysSound(p, apple, plate); }
      if IsWay(p, apple, plate) { WaysComplete(p, apple, plate); }
    }
  }

  lemma {:induction false} SizePadded(s: set<seq<nat>>)
    ensures |Padded(s)| == |s|
    decreases |s|
  {
    if s != {} {
      var x :| x in s;
      var rest := s - {x};
      SizePadded(rest);
      assert Padded(s) == Padded(rest) + {x + [0]};
      forall y | y in rest
        ensures y + [0] != x + [0]
      {
        assert (y + [0])[..|y|] == y && (x + [0])[..|x|] == x;
      }
    }
  }

  lemma {:induction false} SizeRaised(s: set<seq<nat>>)
    ensures |Raised(s)| == |s|
    decreases |s|
  {
    if s != {} {
      var x :| x in s;
      var rest := s - {x};
      SizeRaised(rest);
      assert Raised(s) == Raised(rest) + {More(x)};
      forall y | y in rest
        ensures More(y) != More(x)
      {
        assert Fewer(More(x)) == x && Fewer(More(y)) == y;
      }
    }
  }

  // No way leaves the last plate empty and not empty.
  lemma Disjoint(s: set<seq<nat>>, t: set<seq<nat>>)
    requires forall q :: q in t ==> q != []
    ensures Padded(s) !! Raised(t)
  {
    forall p | p in Padded(s)
      ensures p !in Raised(t)
    {
      assert p[|p| - 1] == 0;
    }
  }

  lemma SizeBoth(apple: nat, plate: nat)
    requires plate >= 2
    ensures |Ways(apple, plate)| == |Ways(apple, plate - 1)| + if apple >= plate then |Ways(apple - plate, plate)| else 0
  {
    SizePadded(Ways(apple, plate - 1));
    if apple >= plate {
      var t := Ways(apple - plate, plate);
      SizeRaised(t);
      forall q | q in t ensures q != [] { WaysSound(q, apple - plate, plate); }
      Disjoint(Ways(apple, plate - 1), t);
    }
  }

  /** The recursion counts the ways. */
  lemma {:induction false} PutCounts(apple: nat, plate: nat)
    requires plate >= 1
    ensures |Ways(apple, plate)| == Put(apple, plate)
    decreases apple + plate
  {
    hide Ways;
    if plate == 1 {
      OneWay(apple);
    } else {
      SizeBoth(apple, plate);
      PutCounts(apple, plate - 1);
      if apple >= plate { PutCounts(apple - plate, plate); }
      if apple < plate { PutNone(apple, plate); }
    }
  }

  lemma OneWay(apple: nat)
    ensures |Ways(apple, 1)| == 1
  {
  }

  // A plate more than there are apples makes no difference.
  lemma PutNone(apple: nat, plate: nat)
    requires plate >= 2 && apple < plate
    ensures Put(apple, plate) == Put(apple, plate - 1)
  {
    if apple > 1 && plate - 1 > apple {
      assert Put(apple, plate) == Put(apple, apple) == Put(apple, plate - 1);
    }
  }

  /** Whatever set holds the ways and no others has as many members as the recursion says. */
  lemma PutIsTheNumberOfWays(apple: nat, plate: nat, all: set<seq<nat>>)
    requires plate >= 1 && forall p :: p in all <==> IsWay(p, apple, plate)
    ensures |all| == Put(apple, plate)
  {
    WaysAreAll(apple, plate);
    assert all == Ways(apple, plate);
    PutCounts(apple, plate);
  }
}
