/** Falling letters: a pool of nodes with a free list, and a doubly linked list of the letters on the
    screen. */
module LetterPool {

  const SCR_HEIGHT := 200.0
  const LETTERS := 26

  class Letter {
    var x: real
    var v: real
    var text: int
    var prev: Letter?
    var next: Letter?
  }

  ghost predicate Distinct(ns: seq<Letter>) {
    forall i, j :: 0 <= i < j < |ns| ==> ns[i] != ns[j]
  }

  // The element at place `k`, or null past the end.
  ghost function Nth(ns: seq<Letter>, k: int): Letter? {
    if 0 <= k < |ns| then ns[k] else null
  }

  ghost predicate Forward(ns: seq<Letter>)
    reads set n | n in ns
  {
    forall i {:trigger ns[i].next} :: 0 <= i < |ns| ==> ns[i].next == Nth(ns, i + 1)
  }

  ghost predicate Backward(ns: seq<Letter>)
    reads set n | n in ns
  {
    forall i {:trigger ns[i].prev} :: 0 <= i < |ns| ==> ns[i].prev == Nth(ns, i - 1)
  }

  predicate OffScreen(x: real) {
    x < 0.0 || x + 7.9 > SCR_HEIGHT
  }

  function LeftTop(x: real): nat {
    if x < 0.0 then 1 else 0
  }

  function LeftBottom(x: real): nat {
    if x >= 0.0 && x + 7.9 > SCR_HEIGHT then 1 else 0
  }

  // The letters that are still on the screen at the places `at`, in order.
  ghost function Staying(ns: seq<Letter>, at: map<Letter, real>): seq<Letter>
    requires forall n :: n in ns ==> n in at
  {
    if ns == [] then []
    else
      var n := ns[|ns| - 1];
      Staying(ns[..|ns| - 1], at) + if OffScreen(at[n]) then [] else [n]
  }

  // How many have left the screen at the top, and how many at the bottom.
  ghost function Hits(ns: seq<Letter>, at: map<Letter, real>): nat
    requires forall n :: n in ns ==> n in at
  {
    if ns == [] then 0 else Hits(ns[..|ns| - 1], at) + LeftTop(at[ns[|ns| - 1]])
  }

  ghost function Misses(ns: seq<Letter>, at: map<Letter, real>): nat
    requires forall n :: n in ns ==> n in at
  {
    if ns == [] then 0 else Misses(ns[..|ns| - 1], at) + LeftBottom(at[ns[|ns| - 1]])
  }

  /** Every letter stays, is hit or is missed. */
  lemma {:induction false} AllAccounted(ns: seq<Letter>, at: map<Letter, real>)
    requires forall n :: n in ns ==> n in at
    ensures |Staying(ns, at)| + Hits(ns, at) + Misses(ns, at) == |ns|
  {
    if ns != [] { AllAccounted(ns[..|ns| - 1], at); }
  }

  lemma {:induction false} StayingIn(ns: seq<Letter>, at: map<Letter, real>)
    requires forall n :: n in ns ==> n in at
    ensures forall n :: n in Staying(ns, at) ==> n in ns && !OffScreen(at[n])
    decreases |ns|
  {
    if ns != [] { StayingIn(ns[..|ns| - 1], at); }
  }

  function Above(): real -> bool {
    x => x < 0.0
  }

  function Below(): real -> bool {
    x => x > 192.1
  }

  ghost function Places(ns: seq<Letter>, at: map<Letter, real>, ok: real -> bool): set<nat>
    requires forall n :: n in ns ==> n in at
  {
    set i: nat | i < |ns| && ok(at[ns[i]])
  }

  lemma PlacesNext(ns: seq<Letter>, at: map<Letter, real>, ok: real -> bool)
    requires ns != [] && forall n :: n in ns ==> n in at
    ensures var m := |ns| - 1; |Places(ns, at, ok)| == |Places(ns[..m], at, ok)| + if ok(at[ns[m]]) then 1 else 0
  {
    var m: nat := |ns| - 1;
    var all, before := Places(ns, at, ok), Places(ns[..m], at, ok);
    forall i: nat
      ensures i in all <==> i in before || (i == m && ok(at[ns[m]]))
    {
      assert i < m ==> ns[..m][i] == ns[i];
    }
    assert m !in before;
    hide Places;
    assert all == if ok(at[ns[m]]) then before + {m} else before;
  }

  /** Hits are the letters above the screen, misses those below it. */
  lemma {:induction false} LeftCounted(ns: seq<Letter>, at: map<Letter, real>)
    requires forall n :: n in ns ==> n in at
    ensures Hits(ns, at) == |Places(ns, at, Above())| && Misses(ns, at) == |Places(ns, at, Below())|
    decreases |ns|
  {
    if ns == [] {
      assert Places(ns, at, Above()) == {} && Places(ns, at, Below()) == {};
    } else {
      PlacesNext(ns, at, Above());
      PlacesNext(ns, at, Below());
      hide Places;
      LeftCounted(ns[..|ns| - 1], at);
    }
  }

  lemma {:induction false} StayingAll(ns: seq<Letter>, at: map<Letter, real>, n: Letter)
    requires (forall n :: n in ns ==> n in at) && n in ns && 0.0 <= at[n] <= 192.1
    ensures n in Staying(ns, at)
    decreases |ns|
  {
    var m := |ns| - 1;
    assert ns == ns[..m] + [ns[m]];
    if n in ns[..m] { StayingAll(ns[..m], at, n); }
  }

  /** The others stay, in their order. */
  lemma {:induction false} StayingInOrder(ns: seq<Letter>, at: map<Letter, real>)
    requires forall n :: n in ns ==> n in at
    ensures AllInOrder(ns, Staying(ns, at))
    ensures forall n | n in ns :: n in Staying(ns, at) <==> 0.0 <= at[n] <= 192.1
    decreases |ns|
  {
    StayingIn(ns, at);
    forall n | n in ns && 0.0 <= at[n] <= 192.1
      ensures n in Staying(ns, at)
    {
      StayingAll(ns, at, n);
    }
    if ns != [] {
      var m := |ns| - 1;
      StayingInOrder(ns[..m], at);
      StayingIn(ns[..m], at);
      assert ns == ns[..m] + [ns[m]];
      MoreInOrder(ns[..m], ns[m], Staying(ns[..m], at));
    }
  }

  // The letters of `s` stand in `ns` in this order.
  ghost predicate AllInOrder(ns: seq<Letter>, s: seq<Letter>) {
    forall i, j :: 0 <= i < j < |s| ==> InOrder(ns, s[i], s[j])
  }

  lemma MoreInOrder(rest: seq<Letter>, n: Letter, s: seq<Letter>)
    requires AllInOrder(rest, s) && forall k :: k in s ==> k in rest
    ensures AllInOrder(rest + [n], s) && AllInOrder(rest + [n], s + [n])
  {
    forall i, j | 0 <= i < j < |s + [n]|
      ensures InOrder(rest + [n], (s + [n])[i], (s + [n])[j])
    {
      if j < |s| {
        StillInOrder(rest, n, s[i], s[j]);
      } else {
        assert s[i] in s;
        LastInOrder(rest, n, s[i]);
      }
    }
    assert forall k :: 0 <= k < |s| ==> (s + [n])[k] == s[k];
  }

  lemma StillInOrder(rest: seq<Letter>, n: Letter, a: Letter, b: Letter)
    requires InOrder(rest, a, b)
    ensures InOrder(rest + [n], a, b)
  {
    var p, q :| 0 <= p < q < |rest| && rest[p] == a && rest[q] == b;
    var ns := rest + [n];
    assert ns[p] == a && ns[q] == b;
  }

  lemma LastInOrder(rest: seq<Letter>, n: Letter, a: Letter)
    requires a in rest
    ensures InOrder(rest + [n], a, n)
  {
    var p :| 0 <= p < |rest| && rest[p] == a;
    var ns := rest + [n];
    assert ns[p] == a && ns[|rest|] == n;
  }

  ghost predicate InOrder(ns: seq<Letter>, a: Letter, b: Letter) {
    exists p, q :: 0 <= p < q < |ns| && ns[p] == a && ns[q] == b
  }

  class Game {
    const pool: seq<Letter>    // one more node than letters that can be handed out
    var freeHead: Letter?
    var head: Letter?
    var hit: nat
    var miss: nat
    ghost var created: nat
    ghost var live: seq<Letter>
    ghost var free: seq<Letter>

    function Nodes(): set<Letter> {
      set n | n in pool
    }

    /** The nodes are split into the letters on the screen and the free ones, both well linked; the last
        node of the pool stays the last free one; every letter created is on the screen, hit or missed. */
    ghost predicate Valid()
      reads this, Nodes()
    {
      && |pool| >= 2 && Distinct(pool) && created == |live| + hit + miss
      && (if freeHead == null then Untouched() else Split(live, free) && freeHead == free[0])
      && OnScreen()
    }

    // Before the first letter: all links are null.
    ghost predicate Untouched()
      reads this, Nodes()
    {
      live == [] && free == [] && forall n :: n in pool ==> n.next == null
    }

    ghost predicate OnScreen()
      reads this, Nodes()
    {
      && (forall n :: n in live ==> n in pool)
      && head == Nth(live, 0) && Forward(live) && Backward(live)
    }

    // `ls` and the free list `fs` are all nodes.
    ghost predicate Split(ls: seq<Letter>, fs: seq<Letter>)
      reads this, Nodes()
    {
      && |pool| >= 2 && |fs| >= 1 && |ls| + |fs| == |pool| && Distinct(ls + fs)
      && (forall n :: n in ls ==> n in pool) && (forall n :: n in fs ==> n in pool)
      && Forward(fs) && fs[|fs| - 1] == pool[|pool| - 1]
    }

    constructor (nodes: seq<Letter>)
      requires |nodes| >= 2 && Distinct(nodes) && forall n :: n in nodes ==> n.next == null
      ensures Valid() && pool == nodes && created == 0 && hit == 0 && miss == 0 && live == []
    {
      pool := nodes;
      freeHead, head, hit, miss := null, null, 0, 0;
      created, live, free := 0, [], [];
    }

    // Links all nodes into the free list.
    method LinkAll()
      requires Valid() && freeHead == null
      modifies this`freeHead, this`free, Nodes()
      ensures freeHead == pool[0] && free == pool && Split([], pool)
      ensures forall n :: n in pool ==> n.x == old(n.x) && n.v == old(n.v) && n.text == old(n.text)
    {
      hide Split, OnScreen, Forward;
      var i := 1;
      while i < |pool|
        invariant 1 <= i <= |pool|
        invariant forall k {:trigger pool[k].next} :: 0 <= k < i - 1 ==> pool[k].next == pool[k + 1]
        invariant pool[|pool| - 1].next == null
        invariant forall n :: n in pool ==> n.x == old(n.x) && n.v == old(n.v) && n.text == old(n.text)
      {
        pool[i - 1].next := pool[i];
        i := i + 1;
      }
      freeHead := pool[0];
      free := pool;
      LinkedAll();
    }

    lemma LinkedAll()
      requires |pool| >= 2 && Distinct(pool) && pool[|pool| - 1].next == null
      requires forall k {:trigger pool[k].next} :: 0 <= k < |pool| - 1 ==> pool[k].next == pool[k + 1]
      ensures Split([], pool)
    {
      assert [] + pool == pool;
    }

    /** A node from the free list; the last one is never given away. */
    method NewLetter() returns (ret: Letter)
      requires Valid() && |live| + 1 < |pool|
      modifies this`freeHead, this`free, Nodes()
      ensures freeHead != null && Split(live + [ret], free) && freeHead == free[0] && OnScreen()
      ensures ret.prev == null && ret.next == null
      ensures forall n :: n in live ==> n.x == old(n.x) && n.v == old(n.v) && n.text == old(n.text)
    {
      if freeHead == null {
        LinkAll();
        assert Split(live, free);
      }
      assert |free| >= 2 && free[0].next == free[1];
      TakeFirst(live, free);
      ret := freeHead;
      assert ret in free && ret in Nodes();
      assert ret !in live && ret !in free[1..] by { FirstApart(live, free); }
      freeHead := ret.next;
      free := free[1..];
      ret.prev, ret.next := null, null;
    }

    lemma FirstApart(ls: seq<Letter>, fs: seq<Letter>)
      requires fs != [] && Distinct(ls + fs)
      ensures fs[0] !in ls && fs[0] !in fs[1..]
    {
      var all := ls + fs;
      assert all[|ls|] == fs[0];
      forall i | 0 <= i < |ls| ensures ls[i] != fs[0] { assert all[i] == ls[i]; }
      forall i | 1 <= i < |fs| ensures fs[i] != fs[0] { assert all[|ls| + i] == fs[i]; }
    }

    lemma TakeFirst(ls: seq<Letter>, fs: seq<Letter>)
      requires fs != [] && Distinct(ls + fs)
      ensures Distinct(ls + [fs[0]] + fs[1..])
    {
      assert ls + [fs[0]] + fs[1..] == ls + fs;
    }

    /** A new letter at the front of the list. */
    method CreateLetter(v: real, text: int)
      requires Valid() && |live| + 1 < |pool| && 0 <= text < LETTERS && v > 0.0
      modifies this`freeHead, this`free, this`head, this`live, this`created, Nodes()
      ensures Valid() && created == old(created) + 1 && hit == old(hit) && miss == old(miss)
      ensures live != [] && live[1..] == old(live) && live[0] !in old(live)
      ensures live[0].x == 0.0 && live[0].v == v && live[0].text == text
      ensures forall n :: n in old(live) ==> n.x == old(n.x) && n.v == old(n.v) && n.text == old(n.text)
    {
      var now := NewLetter();
      FreshApart(live, now, free);
      InsertFront(now);
      created := created + 1;
      Set(now, 0.0, v, text);
    }

    method InsertFront(now: Letter)
      requires freeHead != null && Split(live + [now], free) && freeHead == free[0] && OnScreen() && now !in live && now !in free
      requires now.prev == null && now.next == null && now in Nodes()
      modifies this`head, this`live, Nodes()
      ensures live == [now] + old(live) && Split(live, free) && OnScreen()
      ensures forall n :: n in Nodes() ==> n.x == old(n.x) && n.v == old(n.v) && n.text == old(n.text)
    {
      FrontInstead(live, now, free);
      forall m | m in free ensures m !in live { FreshApart(live, now, free); }
      assert forall k :: 1 <= k < |live| ==> live[k] != live[0] by {
        assert live + [now] + free == live + ([now] + free);
        Front(live, [now] + free);
      }
      hide Distinct;
      if head != null {
        assert head in live;
        now.next := head;
        head.prev := now;
      }
      head := now;
      live := [now] + live;
    }

    method Set(n: Letter, x: real, v: real, text: int)
      requires Valid() && n in live
      modifies Nodes()
      ensures Valid() && n.x == x && n.v == v && n.text == text
      ensures forall m :: m in Nodes() && m != n ==> m.x == old(m.x) && m.v == old(m.v) && m.text == old(m.text)
    {
      n.x := x;
      n.v := v;
      n.text := text;
    }

    lemma Front(a: seq<Letter>, b: seq<Letter>)
      requires Distinct(a + b)
      ensures forall i, j :: 0 <= i < j < |a| ==> a[i] != a[j]
    {
      forall i, j | 0 <= i < j < |a| ensures a[i] != a[j] { assert (a + b)[i] == a[i] && (a + b)[j] == a[j]; }
    }

    lemma FreshApart(ls: seq<Letter>, n: Letter, fs: seq<Letter>)
      requires Distinct(ls + [n] + fs)
      ensures n !in ls && n !in fs && forall m :: m in fs ==> m !in ls
    {
      var all := ls + [n] + fs;
      assert all[|ls|] == n;
      forall i | 0 <= i < |ls| ensures ls[i] != n { assert all[i] == ls[i]; }
      forall i | 0 <= i < |fs| ensures fs[i] != n && fs[i] !in ls {
        assert all[|ls| + 1 + i] == fs[i];
        forall j | 0 <= j < |ls| ensures ls[j] != fs[i] { assert all[j] == ls[j]; }
      }
    }

    lemma FrontInstead(ls: seq<Letter>, n: Letter, fs: seq<Letter>)
      requires Distinct(ls + [n] + fs)
      ensures Distinct([n] + ls + fs)
    {
      var a, b := ls + [n] + fs, [n] + ls + fs;
      forall i, j | 0 <= i < j < |b|
        ensures b[i] != b[j]
      {
        assert b[i] == a[if i == 0 then |ls| else if i <= |ls| then i - 1 else i];
        assert b[j] == a[if j <= |ls| then j - 1 else j];
      }
    }

    lemma PartsApart(ls: seq<Letter>, fs: seq<Letter>)
      requires Distinct(ls + fs)
      ensures Distinct(ls) && Distinct(fs) && forall n :: n in fs ==> n !in ls
    {
      var all := ls + fs;
      forall i | 0 <= i < |fs| ensures fs[i] !in ls {
        assert all[|ls| + i] == fs[i];
        forall j | 0 <= j < |ls| ensures ls[j] != fs[i] { assert all[j] == ls[j]; }
      }
      Front(ls, fs);
      forall i, j | 0 <= i < j < |fs| ensures fs[i] != fs[j] { assert all[|ls| + i] == fs[i] && all[|ls| + j] == fs[j]; }
    }

    // A letter leaves the list and becomes the first free node.
    method TakeOut(it: Letter, ghost k: nat)
      requires freeHead != null && Split(live, free) && freeHead == free[0] && OnScreen() && k < |live| && live[k] == it
      modifies this`freeHead, this`free, this`head, this`live, Nodes()
      ensures freeHead == it && free == [it] + old(free) && live == old(live[..k] + live[k + 1..])
      ensures Split(live, free) && OnScreen()
      ensures forall n :: n in Nodes() ==> n.x == old(n.x) && n.v == old(n.v) && n.text == old(n.text)
    {
      hide Forward, Backward, Distinct, Nth;
      PartsApart(live, free);
      MovedApart(live, free, k);
      NextHead(live, free, k);
      ghost var rest := live[..k] + live[k + 1..];
      PartsApart(rest, [it] + free);
      var next := it.next;
      Unlink(it, k);
      assert it in [it] + free && it !in rest && it !in free;
      it.next := freeHead;
      PushedForward(it, free);
      freeHead := it;
      if it == head {
        head := next;
      }
      live := rest;
      free := [it] + free;
    }

    // What stands first once place `k` is gone.
    lemma NextHead(ls: seq<Letter>, fs: seq<Letter>, k: nat)
      requires k < |ls| && Distinct(ls + fs) && Forward(ls) && (forall n :: n in ls ==> n in pool)
      ensures (ls[k] == Nth(ls, 0) <==> k == 0) && ls[k].next == Nth(ls, k + 1)
      ensures Nth(ls[..k] + ls[k + 1..], 0) == if k == 0 then Nth(ls, 1) else Nth(ls, 0)
    {
      assert (ls + fs)[0] == ls[0] && (ls + fs)[k] == ls[k];
    }

    // One node in front of a list that starts where it points to.
    lemma PushedForward(n: Letter, ns: seq<Letter>)
      requires ns != [] && Forward(ns) && n.next == ns[0]
      ensures Forward([n] + ns)
    {
      var more := [n] + ns;
      forall i | 0 <= i < |more|
        ensures more[i].next == Nth(more, i + 1)
      {
        if i > 0 { assert more[i] == ns[i - 1] && more[i].next == Nth(ns, i); }
      }
    }

    lemma MovedApart(ls: seq<Letter>, fs: seq<Letter>, k: nat)
      requires k < |ls| && Distinct(ls + fs)
      ensures Distinct((ls[..k] + ls[k + 1..]) + ([ls[k]] + fs))
    {
      var a, b := ls + fs, (ls[..k] + ls[k + 1..]) + ([ls[k]] + fs);
      forall i, j | 0 <= i < j < |b|
        ensures b[i] != b[j]
      {
        assert b[i] == a[if i < k then i else if i < |ls| - 1 then i + 1 else if i == |ls| - 1 then k else i];
        assert b[j] == a[if j < k then j else if j < |ls| - 1 then j + 1 else if j == |ls| - 1 then k else j];
      }
    }

    // The neighbours are linked to each other.
    method Unlink(node: Letter, ghost k: nat)
      requires Split(live, free) && OnScreen() && k < |live| && live[k] == node
      modifies Nodes()
      ensures node.next == old(node.next) && node.prev == old(node.prev)
      ensures forall n :: n in free ==> n.next == old(n.next) && n.prev == old(n.prev)
      ensures Forward(free)
      ensures Forward(live[..k] + live[k + 1..]) && Backward(live[..k] + live[k + 1..])
      ensures forall n :: n in Nodes() ==> n.x == old(n.x) && n.v == old(n.v) && n.text == old(n.text)
    {
      PartsApart(live, free);
      assert live[k].next == Nth(live, k + 1) && live[k].prev == Nth(live, k - 1);
      var prev, next := node.prev, node.next;
      assert prev != null ==> prev in live;
      assert next != null ==> next in live;
      if prev != null {
        prev.next := next;
      }
      if next != null {
        next.prev := prev;
      }
      ghost var q := live[..k] + live[k + 1..];
      forall i | 0 <= i < |q|
        ensures q[i].next == Nth(q, i + 1) && q[i].prev == Nth(q, i - 1)
      {
        var j := if i < k then i else i + 1;
        assert q[i] == live[j];
        assert old(live[j].next) == Nth(live, j + 1) && old(live[j].prev) == Nth(live, j - 1);
      }
    }

    // One letter moves, and leaves the list if it is off the screen.
    method MoveLetter(it: Letter, ghost k: nat) returns (next: Letter?)
      requires Valid() && k < |live| && live[k] == it
      modifies this`freeHead, this`free, this`head, this`live, this`hit, this`miss, Nodes()
      ensures Valid() && freeHead != null && created == old(created)
      ensures it.x == old(it.x) + old(it.v)
      ensures OffScreen(it.x) ==> live == old(live[..k] + live[k + 1..]) && next == Nth(live, k)
      ensures !OffScreen(it.x) ==> live == old(live) && next == Nth(live, k + 1)
      ensures hit == old(hit) + LeftTop(it.x) && miss == old(miss) + LeftBottom(it.x)
      ensures forall n :: n in Nodes() && n != it ==> n.x == old(n.x)
      ensures forall n :: n in Nodes() ==> n.v == old(n.v) && n.text == old(n.text)
    {
      assert live[k].next == Nth(live, k + 1);
      next := it.next;
      Set(it, it.x + it.v, it.v, it.text);
      if OffScreen(it.x) {
        if it.x < 0.0 {
          hit := hit + 1;
        } else {
          miss := miss + 1;
        }
        TakeOut(it, k);
      }
    }

    // One letter more of those there were at the start.
    lemma NextMoved(was: seq<Letter>, at: map<Letter, real>, m: nat)
      requires m < |was| && forall n :: n in was ==> n in at
      ensures var s, n := Staying(was[..m], at), was[m];
        && Staying(was[..m + 1], at) == (if OffScreen(at[n]) then s else s + [n])
        && Hits(was[..m + 1], at) == Hits(was[..m], at) + LeftTop(at[n])
        && Misses(was[..m + 1], at) == Misses(was[..m], at) + LeftBottom(at[n])
    {
      assert was[..m + 1][..m] == was[..m];
    }

    // What the list is then.
    lemma NextList(ls: seq<Letter>, was: seq<Letter>, at: map<Letter, real>, m: nat)
      requires m < |was| && (forall n :: n in was ==> n in at) && ls == Staying(was[..m], at) + was[m..]
      ensures var k, rest := |Staying(was[..m], at)|, was[m + 1..];
        && k < |ls| && ls[k] == was[m]
        && (if OffScreen(at[was[m]])
            then ls[..k] + ls[k + 1..] == Staying(was[..m + 1], at) + rest && |Staying(was[..m + 1], at)| == k
            else ls == Staying(was[..m + 1], at) + rest && |Staying(was[..m + 1], at)| == k + 1)
    {
      NextMoved(was, at, m);
      hide Staying, Hits, Misses;
      var s := Staying(was[..m], at);
      assert ls[..|s|] == s && ls[|s| + 1..] == was[m + 1..];
    }

    /** One tick of the clock: every letter moves by its speed; those that leave the screen go back to the
        pool and are counted, at the top as hits and at the bottom as misses. */
    method UpdateLetters()
      requires Valid()
      modifies this`freeHead, this`free, this`head, this`live, this`hit, this`miss, Nodes()
      ensures Valid() && created == old(created)
      ensures var at := old(map n | n in live :: n.x + n.v);
        && live == Staying(old(live), at)
        && hit == old(hit) + Hits(old(live), at) && miss == old(miss) + Misses(old(live), at)
        && forall n :: n in live ==> n in at && n.x == at[n] && n.v == old(n.v) && n.text == old(n.text)
    {
      ghost var was := live;
      ghost var at, kept := map n | n in live :: n.x + n.v, map n | n in live :: (n.v, n.text);
      NoneMoved(at, kept);
      MoveAll(was, at, kept);
    }

    lemma NoneMoved(at: map<Letter, real>, kept: map<Letter, (real, int)>)
      requires Valid() && at == (map n | n in live :: n.x + n.v) && kept == map n | n in live :: (n.v, n.text)
      ensures Half(live, at, kept, 0) && Distinct(live) && head == Nth(live, 0)
      ensures live[..0] == [] && Staying([], at) == [] && Hits([], at) == 0 && Misses([], at) == 0
    {
      LiveFacts();
      hide Valid, Distinct, Nth, OffScreen, LeftTop, LeftBottom, Forward, Backward;
      NoneYet(at, kept);
      hide Half;
      assert live[..0] == [];
    }

    lemma NoneYet(at: map<Letter, real>, kept: map<Letter, (real, int)>)
      requires (forall n :: n in live ==> n in Nodes())
      requires at == (map n | n in live :: n.x + n.v) && kept == map n | n in live :: (n.v, n.text)
      ensures Half(live, at, kept, 0)
    {
      assert live[..0] == [] && live[0..] == live && [] + live == live;
      assert Staying(live[..0], at) == [];
    }

    // The first `m` of the letters `was` have moved to `at`, the others are still where they were.
    ghost predicate Half(was: seq<Letter>, at: map<Letter, real>, kept: map<Letter, (real, int)>, m: nat)
      reads this, Nodes()
    {
      && m <= |was| && (forall n :: n in was ==> n in Nodes() && n in at && n in kept)
      && live == Staying(was[..m], at) + was[m..]
      && (forall j {:trigger was[j].x} :: 0 <= j < m ==> was[j].x == at[was[j]])
      && (forall j {:trigger was[j].x} :: m <= j < |was| ==> was[j].x + was[j].v == at[was[j]])
      && (forall n :: n in was ==> n.v == kept[n].0 && n.text == kept[n].1)
    }

    method MoveNext(it: Letter, ghost was: seq<Letter>, ghost at: map<Letter, real>, ghost kept: map<Letter, (real, int)>, ghost m: nat)
      returns (next: Letter?)
      requires Valid() && Half(was, at, kept, m) && Distinct(was) && it == Nth(live, |Staying(was[..m], at)|)
      modifies this`freeHead, this`free, this`head, this`live, this`hit, this`miss, Nodes()
      ensures Valid() && created == old(created)
      ensures Half(was, at, kept, m + 1) && next == Nth(live, |Staying(was[..m + 1], at)|)
      ensures hit == old(hit) + LeftTop(at[was[m]]) && miss == old(miss) + LeftBottom(at[was[m]])
    {
      hide Valid, Distinct, Staying, OffScreen, LeftTop, LeftBottom;
      NextList(live, was, at, m);
      assert it in was && was[m].x + was[m].v == at[was[m]];
      Once(was, m);
      next := MoveLetter(it, |Staying(was[..m], at)|);
    }

    method MoveAll(ghost was: seq<Letter>, ghost at: map<Letter, real>, ghost kept: map<Letter, (real, int)>)
      requires Valid() && Half(was, at, kept, 0) && Distinct(was) && head == Nth(live, 0)
      requires was[..0] == [] && Staying([], at) == [] && Hits([], at) == 0 && Misses([], at) == 0
      modifies this`freeHead, this`free, this`head, this`live, this`hit, this`miss, Nodes()
      ensures Valid() && created == old(created) && live == Staying(was, at)
      ensures hit == old(hit) + Hits(was, at) && miss == old(miss) + Misses(was, at)
      ensures forall n :: n in live ==> n in was && n.x == at[n] && n.v == kept[n].0 && n.text == kept[n].1
    {
      ghost var m := 0;
      assert forall n :: n in was ==> n in at;
      hide Valid, Staying, Hits, Misses, LeftTop, LeftBottom, Distinct, Half;
      var it := head;
      while it != null
        invariant m <= |was| && (forall n :: n in was ==> n in at) && Half(was, at, kept, m)
        invariant it == Nth(live, |Staying(was[..m], at)|) && Valid() && created == old(created)
        invariant hit == old(hit) + Hits(was[..m], at) && miss == old(miss) + Misses(was[..m], at)
        decreases |was| - m
      {
        StillMoving(was, at, kept, m);
        NextMoved(was, at, m);
        it := MoveNext(it, was, at, kept, m);
        m := m + 1;
      }
      AllMoved(was, at, kept, m);
    }

    lemma StillMoving(was: seq<Letter>, at: map<Letter, real>, kept: map<Letter, (real, int)>, m: nat)
      requires Half(was, at, kept, m) && Nth(live, |Staying(was[..m], at)|) != null
      ensures m < |was|
    {
    }

    lemma AllMoved(was: seq<Letter>, at: map<Letter, real>, kept: map<Letter, (real, int)>, m: nat)
      requires Half(was, at, kept, m) && Nth(live, |Staying(was[..m], at)|) == null
      ensures m == |was| && was[..m] == was && live == Staying(was, at)
      ensures forall n :: n in live ==> n in was && n.x == at[n] && n.v == kept[n].0 && n.text == kept[n].1
    {
      var s := Staying(was[..m], at);
      assert |live| == |s| + |was[m..]|;
      assert was[..m] == was;
      StayingIn(was, at);
    }

    lemma Once(ns: seq<Letter>, m: nat)
      requires Distinct(ns) && m < |ns|
      ensures forall j :: 0 <= j < |ns| && j != m ==> ns[j] != ns[m]
    {
    }

    lemma LiveFacts()
      requires Valid()
      ensures Distinct(live) && head == Nth(live, 0) && forall n :: n in live ==> n in Nodes()
    {
      if freeHead != null { PartsApart(live, free); }
    }
  }
}
