/** Space and addresses of multi-dimensional arrays of integers. */
module ArrayAddress {
  import opened ThreeAddress
  import opened ObjectCode

  const WIDTH := 4
  const MAX_DIMENSIONS := 100

  // Dimensions are listed along the type chain, outermost first.
  function Cells(d: seq<nat>): nat {
    if d == [] then 1 else d[0] * Cells(d[1..])
  }

  /** The number of cells before the one with the given indices, row by row. */
  function RowMajor(d: seq<nat>, index: seq<nat>): nat
    requires |d| == |index|
  {
    if d == [] then 0 else index[0] * Cells(d[1..]) + RowMajor(d[1..], index[1..])
  }

  predicate InBounds(d: seq<nat>, index: seq<nat>) {
    |d| == |index| && forall k :: 0 <= k < |d| ==> index[k] < d[k]
  }

  /** An address inside the array. */
  lemma {:induction false} RowMajorBelow(d: seq<nat>, index: seq<nat>)
    requires InBounds(d, index)
    ensures RowMajor(d, index) < Cells(d)
    decreases |d|
  {
    if d != [] {
      RowMajorBelow(d[1..], index[1..]);
      Room(index[0], d[0], RowMajor(d[1..], index[1..]), Cells(d[1..]));
    }
  }

  lemma Room(i: nat, n: nat, r: nat, c: nat)
    requires i < n && r < c
    ensures i * c + r < n * c
  {
    assert (i + 1) * c <= n * c by { Monotone(i + 1, n, c); }
    assert (i + 1) * c == i * c + c;
  }

  lemma Monotone(a: nat, b: nat, c: nat)
    requires a <= b
    ensures a * c <= b * c
  {
  }

  /** Different indices have different addresses. */
  lemma {:induction false} RowMajorInjective(d: seq<nat>, a: seq<nat>, b: seq<nat>)
    requires InBounds(d, a) && InBounds(d, b) && RowMajor(d, a) == RowMajor(d, b)
    ensures a == b
    decreases |d|
  {
    if d != [] {
      var c, ra, rb := Cells(d[1..]), RowMajor(d[1..], a[1..]), RowMajor(d[1..], b[1..]);
      RowMajorBelow(d[1..], a[1..]);
      RowMajorBelow(d[1..], b[1..]);
      if a[0] < b[0] {
        Room(a[0], b[0], ra, c);
        assert false;
      } else if b[0] < a[0] {
        Room(b[0], a[0], rb, c);
        assert false;
      }
      RowMajorInjective(d[1..], a[1..], b[1..]);
      assert a == [a[0]] + a[1..] && b == [b[0]] + b[1..];
    }
  }

  /** No cell is left over: each belongs to some indices. */
  lemma {:induction false} EveryCell(d: seq<nat>, n: nat) returns (index: seq<nat>)
    requires n < Cells(d)
    ensures InBounds(d, index) && RowMajor(d, index) == n
    decreases |d|
  {
    if d == [] {
      index := [];
    } else {
      var c := Cells(d[1..]);
      var first := FirstIndex(n, d[0], c);
      var others := EveryCell(d[1..], n - first * c);
      index := [first] + others;
    }
  }

  lemma {:induction false} FirstIndex(n: nat, d: nat, c: nat) returns (i: nat)
    requires n < d * c
    ensures i < d && i * c <= n < i * c + c
    decreases d
  {
    assert d > 0;
    if n < c {
      i := 0;
    } else {
      assert d * c == (d - 1) * c + c;
      var k := FirstIndex(n - c, d - 1, c);
      i := k + 1;
      assert i * c == k * c + c;
    }
  }

  // The first index in which the two differ is smaller in `a`.
  ghost predicate Earlier(a: seq<nat>, b: seq<nat>) {
    |a| == |b| && exists k :: 0 <= k < |a| && a[..k] == b[..k] && a[k] < b[k]
  }

  /** Row by row: the last index counts fastest. */
  lemma {:induction false} RowsInOrder(d: seq<nat>, a: seq<nat>, b: seq<nat>)
    requires InBounds(d, a) && InBounds(d, b) && Earlier(a, b)
    ensures RowMajor(d, a) < RowMajor(d, b)
    decreases |d|
  {
    var k :| 0 <= k < |a| && a[..k] == b[..k] && a[k] < b[k];
    var c, ra := Cells(d[1..]), RowMajor(d[1..], a[1..]);
    if k == 0 {
      RowMajorBelow(d[1..], a[1..]);
      Room(a[0], b[0], ra, c);
    } else {
      assert a[0] == a[..k][0] == b[0];
      assert a[1..][..k - 1] == a[..k][1..] == b[1..][..k - 1] && a[1..][k - 1] < b[1..][k - 1];
      RowsInOrder(d[1..], a[1..], b[1..]);
    }
  }

  /** The next index in a row is the next cell. */
  lemma {:induction false} NextInRow(d: seq<nat>, a: seq<nat>)
    requires d != [] && |a| == |d|
    ensures RowMajor(d, a[|a| - 1 := a[|a| - 1] + 1]) == RowMajor(d, a) + 1
    decreases |d|
  {
    var n := |a| - 1;
    var b := a[n := a[n] + 1];
    if n > 0 {
      assert b[1..] == a[1..][n - 1 := a[n] + 1];
      NextInRow(d[1..], a[1..]);
    } else {
      assert d[1..] == [] && a[1..] == [] && b[1..] == [];
      assert Cells([]) == 1;
    }
  }

  // ---------- the space an array is given ----------

  /** The size in a declaration of space: the product of the dimensions, in bytes. */
  method DecSize(d: seq<nat>) returns (size: nat)
    ensures size == WIDTH * Cells(d)
  {
    size := 1;
    var k := 0;
    while k < |d|
      invariant k <= |d| && size * Cells(d[k..]) == Cells(d)
    {
      assert d[k..][0] == d[k] && d[k..][1..] == d[k + 1..];
      Assoc(size, d[k], Cells(d[k + 1..]));
      size := size * d[k];
      k := k + 1;
    }
    size := size * WIDTH;
  }

  lemma Assoc(a: nat, b: nat, c: nat)
    ensures a * (b * c) == (a * b) * c
  {
  }

  // ---------- the address of an access ----------

  /** The step in bytes of each index: that of the last one is the width of a cell. */
  method Steps(d: seq<nat>) returns (sum: array<nat>)
    requires 1 <= |d| <= MAX_DIMENSIONS
    ensures sum.Length == |d| && fresh(sum)
    ensures forall k :: 0 <= k < |d| ==> sum[k] == WIDTH * Cells(d[k + 1..])
  {
    sum := new nat[|d|];
    sum[|d| - 1] := WIDTH;
    var i: int := |d| - 2;
    assert d[|d| - 1 + 1..] == [];
    while i >= 0
      invariant -1 <= i <= |d| - 2
      invariant forall k :: i < k < |d| ==> sum[k] == WIDTH * Cells(d[k + 1..])
      decreases i
    {
      assert d[i + 1..][0] == d[i + 1] && d[i + 1..][1..] == d[i + 2..];
      Assoc(WIDTH, Cells(d[i + 2..]), d[i + 1]);
      sum[i] := sum[i + 1] * d[i + 1];
      i := i - 1;
    }
  }

  // The values of the indices from place `k` on.
  predicate IndexValues(st: State, temps: seq<nat>, index: seq<nat>)
  {
    |temps| == |index| && forall k :: 0 <= k < |temps| ==> Look(st, Temp(temps[k])) == index[k]
  }

  // The bytes contributed by the indices from place `k` on.
  function Bytes(d: seq<nat>, index: seq<nat>, k: nat): nat
    requires |d| == |index| && k <= |d|
  {
    WIDTH * RowMajor(d[k..], index[k..])
  }

  lemma BytesNext(d: seq<nat>, index: seq<nat>, k: nat)
    requires |d| == |index| && k < |d|
    ensures Bytes(d, index, k) == index[k] * (WIDTH * Cells(d[k + 1..])) + Bytes(d, index, k + 1)
  {
    assert d[k..][1..] == d[k + 1..] && index[k..][1..] == index[k + 1..];
    Assoc(WIDTH, index[k], Cells(d[k + 1..]));
    Assoc(index[k], WIDTH, Cells(d[k + 1..]));
  }

  /** Code for the offset of an access with every index given, from the values of the indices in
      `temps`: the last index is taken first, each product goes to a new temporary, and the products
      are added up in `tmp`. From every state the code leaves the row-major offset there. */
  method OffsetCode(d: seq<nat>, temps: seq<nat>, tmp: nat, next: nat) returns (code: Code)
    requires 1 <= |d| <= MAX_DIMENSIONS && |temps| == |d|
    requires tmp < next && forall k :: 0 <= k < |temps| ==> temps[k] < next && temps[k] != tmp
    ensures forall st, index | IndexValues(st, temps, index) ::
      OffsetIs(st, code, tmp, WIDTH * RowMajor(d, index))
  {
    var sum := Steps(d);
    code := [Assign(Temp(tmp), Constant(0))];
    var depth: nat, tmpCnt: nat := |d|, next;
    forall st, index | IndexValues(st, temps, index)
      ensures Progress(st, code, tmp, next, Bytes(d, index, |d|))
    {
      StartsAtZero(st, tmp, next);
      assert d[|d|..] == [] && index[|d|..] == [];
    }
    while depth > 0
      invariant 0 <= depth <= |d| && tmpCnt >= next
      invariant forall st, index | IndexValues(st, temps, index) :: Progress(st, code, tmp, next, Bytes(d, index, depth))
    {
      depth := depth - 1;
      ghost var before := code;
      code := code + [Bin(Mul, Temp(tmpCnt), Temp(temps[depth]), Constant(sum[depth])),
                      Bin(Add, Temp(tmp), Temp(tmp), Temp(tmpCnt))];
      forall st, index | IndexValues(st, temps, index)
        ensures Progress(st, code, tmp, next, Bytes(d, index, depth))
      {
        assert Progress(st, before, tmp, next, Bytes(d, index, depth + 1));
        BytesNext(d, index, depth);
        AddsOne(st, before, tmp, next, tmpCnt, temps[depth], sum[depth], Bytes(d, index, depth + 1));
      }
      tmpCnt := tmpCnt + 1;
    }
    forall st, index | IndexValues(st, temps, index)
      ensures OffsetIs(st, code, tmp, WIDTH * RowMajor(d, index))
    {
      assert Progress(st, code, tmp, next, Bytes(d, index, 0));
      assert d[0..] == d && index[0..] == index;
    }
  }

  ghost predicate OffsetIs(st: State, code: Code, tmp: nat, v: int) {
    EffectAll(code, st).Some? && Look(EffectAll(code, st).value, Temp(tmp)) == v
  }

  // The sum so far, with all other temporaries below `next` as they were.
  ghost predicate Progress(st: State, code: Code, tmp: nat, next: nat, v: int) {
    && OffsetIs(st, code, tmp, v)
    && forall k: nat :: k < next && k != tmp ==> Look(EffectAll(code, st).value, Temp(k)) == Look(st, Temp(k))
  }

  lemma StartsAtZero(st: State, tmp: nat, next: nat)
    ensures Progress(st, [Assign(Temp(tmp), Constant(0))], tmp, next, 0)
  {
    EffectOne(Assign(Temp(tmp), Constant(0)), st);
  }

  lemma AddsOne(st: State, code: Code, tmp: nat, next: nat, prod: nat, index: nat, step: nat, v: int)
    requires Progress(st, code, tmp, next, v) && tmp < next <= prod && index < next && index != tmp
    ensures var tail := [Bin(Mul, Temp(prod), Temp(index), Constant(step)), Bin(Add, Temp(tmp), Temp(tmp), Temp(prod))];
      Progress(st, code + tail, tmp, next, Look(st, Temp(index)) * step + v)
  {
    var c1, c2 := Bin(Mul, Temp(prod), Temp(index), Constant(step)), Bin(Add, Temp(tmp), Temp(tmp), Temp(prod));
    EffectBoth(code, [c1, c2], st);
    var s := EffectAll(code, st).value;
    EffectBoth([c1], [c2], s);
    assert [c1] + [c2] == [c1, c2];
    EffectOne(c1, s);
    EffectOne(c2, EffectAll([c1], s).value);
  }

  /** So the offset lies in the space of the array, on a cell, and no other indices have it. */
  lemma OffsetInside(d: seq<nat>, a: seq<nat>, b: seq<nat>)
    requires InBounds(d, a) && InBounds(d, b)
    ensures 0 <= WIDTH * RowMajor(d, a) && WIDTH * RowMajor(d, a) + WIDTH <= WIDTH * Cells(d)
    ensures WIDTH * RowMajor(d, a) == WIDTH * RowMajor(d, b) <==> a == b
  {
    RowMajorBelow(d, a);
    if RowMajor(d, a) == RowMajor(d, b) { RowMajorInjective(d, a, b); }
  }
}
