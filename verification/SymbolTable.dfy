/** The scoped symbol table: every symbol is linked into the chain of its scope and into the chain
    of its hash bucket, both entered at the head. */
module ScopedSymbols {

  const STACK_SIZE := 1024
  const HASH_SIZE := 0x3fff

  class Sym {
    const name: string
    var down: Sym?   // next in the scope
    var right: Sym?  // next in the bucket

    constructor (n: string)
      ensures name == n && down == null && right == null
    {
      name, down, right := n, null, null;
    }
  }

  // ---------- hashing ----------

  // A C char, sign-extended to 32 bits.
  function Extended(ch: char): bv32 {
    var c := ch as int % 256;
    if c < 128 then c as bv32 else c as bv32 | 0xFFFF_FF00
  }

  function HashStep(val: bv32, ch: char): (r: bv32)
    ensures r & 0x3fff == r
  {
    HashValue((val << 2) + Extended(ch))
  }

  function HashValue(v: bv32): (r: bv32)
    ensures r & 0x3fff == r
  {
    var i := v & !(0x3fff as bv32);
    if i != 0 then (v ^ (i >> 12)) & 0x3fff else v
  }

  function HashFrom(name: string, val: bv32): (r: bv32)
    requires val & 0x3fff == val
    ensures r & 0x3fff == r
    decreases |name|
  {
    if name == "" then val else HashFrom(name[1..], HashStep(val, name[0]))
  }

  // The largest value is HASH_SIZE itself.
  function HashPjw(name: string): (r: nat)
    ensures r <= HASH_SIZE
  {
    HashFrom(name, 0) as nat
  }

  /** It is reached, so that a table of HASH_SIZE buckets is too small; the index lies in such a table
      exactly for the other names. */
  lemma HashReachesSize(name: string)
    ensures HashPjw(name) < HASH_SIZE <==> HashPjw(name) != HASH_SIZE
    ensures HashPjw("XGGXXG") == HASH_SIZE
  {
    var n := "XGGXXG";
    StepsToSize();
    hide HashStep;
    HashOne(n, 0, 0x0058);
    HashOne(n[1..], 0x0058, 0x01a7);
    HashOne(n[2..], 0x01a7, 0x06e3);
    HashOne(n[3..], 0x06e3, 0x1be4);
    HashOne(n[4..], 0x1be4, 0x2fec);
    HashOne(n[5..], 0x2fec, 0x3fff);
    HashNone(n[6..], 0x3fff);
    hide *;
  }

  lemma HashNone(name: string, val: bv32)
    requires name == "" && val & 0x3fff == val
    ensures HashFrom(name, val) == val
  {
  }

  lemma HashOne(name: string, val: bv32, next: bv32)
    requires name != "" && val & 0x3fff == val && next == HashStep(val, name[0])
    ensures HashFrom(name, val) == HashFrom(name[1..], next)
  {
    hide HashStep;
  }

  lemma StepsToSize()
    ensures HashStep(0, 'X') == 0x0058
    ensures HashStep(0x0058, 'G') == 0x01a7
    ensures HashStep(0x01a7, 'G') == 0x06e3
    ensures HashStep(0x06e3, 'X') == 0x1be4
    ensures HashStep(0x1be4, 'X') == 0x2fec
    ensures HashStep(0x2fec, 'G') == 0x3fff
  {
    ExtendedLetters();
    hide Extended;
  }

  lemma ExtendedLetters()
    ensures Extended('X') == 88 && Extended('G') == 71
  {
    assert 'X' as int % 256 == 88 && 'G' as int % 256 == 71;
  }

  // ---------- scopes as values ----------

  // Outermost scope first; within a scope, latest symbol first.
  type Scopes = seq<seq<Sym>>

  /** All live symbols, latest first. */
  ghost function Live(sc: Scopes): seq<Sym> {
    if sc == [] then [] else sc[|sc| - 1] + Live(sc[..|sc| - 1])
  }

  ghost function Bucket(s: seq<Sym>, b: nat): seq<Sym> {
    if s == [] then []
    else if HashPjw(s[0].name) == b then [s[0]] + Bucket(s[1..], b)
    else Bucket(s[1..], b)
  }

  ghost function Head(s: seq<Sym>): Sym? {
    if s == [] then null else s[0]
  }

  ghost predicate Distinct(s: seq<Sym>) {
    forall i, j :: 0 <= i < j < |s| ==> s[i] != s[j]
  }

  // The element after `x` in `s`.
  ghost function NextIn(s: seq<Sym>, x: Sym): Sym? {
    if s == [] then null else if s[0] == x then Head(s[1..]) else NextIn(s[1..], x)
  }

  // The scope in which `x` was declared.
  ghost function ScopeOf(sc: Scopes, x: Sym): seq<Sym> {
    if sc == [] then [] else if x in sc[|sc| - 1] then sc[|sc| - 1] else ScopeOf(sc[..|sc| - 1], x)
  }

  ghost function FirstNamed(s: seq<Sym>, name: string): Sym? {
    if s == [] then null else if s[0].name == name then s[0] else FirstNamed(s[1..], name)
  }

  // ---------- a stack of maps ----------

  ghost function AsMap(scope: seq<Sym>): map<string, Sym> {
    if scope == [] then map[] else AsMap(scope[1..])[scope[0].name := scope[0]]
  }

  ghost function Innermost(maps: seq<map<string, Sym>>, name: string): Sym? {
    if maps == [] then null
    else if name in maps[|maps| - 1] then maps[|maps| - 1][name]
    else Innermost(maps[..|maps| - 1], name)
  }

  ghost function AsMaps(sc: Scopes): (r: seq<map<string, Sym>>)
    ensures |r| == |sc|
  {
    if sc == [] then [] else AsMaps(sc[..|sc| - 1]) + [AsMap(sc[|sc| - 1])]
  }

  lemma {:induction false} FirstNamedAppend(a: seq<Sym>, b: seq<Sym>, name: string)
    ensures FirstNamed(a + b, name) == if FirstNamed(a, name) != null then FirstNamed(a, name) else FirstNamed(b, name)
  {
    if a == [] {
      assert a + b == b;
    } else {
      assert (a + b)[1..] == a[1..] + b;
      FirstNamedAppend(a[1..], b, name);
    }
  }

  lemma {:induction false} ScopeIsMap(scope: seq<Sym>, name: string)
    ensures FirstNamed(scope, name) == if name in AsMap(scope) then AsMap(scope)[name] else null
  {
    if scope != [] { ScopeIsMap(scope[1..], name); }
  }

  /** The latest live symbol of a name is its innermost binding. */
  lemma {:induction false} LatestIsInnermost(sc: Scopes, name: string)
    ensures FirstNamed(Live(sc), name) == Innermost(AsMaps(sc), name)
    decreases |sc|
  {
    if sc != [] {
      var outer, inner := sc[..|sc| - 1], sc[|sc| - 1];
      LatestIsInnermost(outer, name);
      ScopeIsMap(inner, name);
      FirstNamedAppend(inner, Live(outer), name);
      assert AsMaps(sc)[..|sc| - 1] == AsMaps(outer);
    }
  }

  // ---------- buckets ----------

  lemma {:induction false} BucketAppend(a: seq<Sym>, c: seq<Sym>, b: nat)
    ensures Bucket(a + c, b) == Bucket(a, b) + Bucket(c, b)
  {
    if a == [] {
      assert a + c == c;
    } else {
      assert (a + c)[1..] == a[1..] + c;
      BucketAppend(a[1..], c, b);
    }
  }

  lemma {:induction false} BucketMembers(s: seq<Sym>, b: nat)
    ensures forall x :: x in Bucket(s, b) <==> x in s && HashPjw(x.name) == b
    ensures Distinct(s) ==> Distinct(Bucket(s, b))
  {
    if s != [] {
      BucketMembers(s[1..], b);
      assert s == [s[0]] + s[1..];
    }
  }

  // A search along one bucket finds what a search along all symbols finds.
  lemma {:induction false} BucketHasFirst(s: seq<Sym>, name: string)
    ensures FirstNamed(Bucket(s, HashPjw(name)), name) == FirstNamed(s, name)
  {
    if s != [] {
      BucketHasFirst(s[1..], name);
      var b := HashPjw(name);
      if HashPjw(s[0].name) == b {
        assert Bucket(s, b)[1..] == Bucket(s[1..], b);
      }
    }
  }

  lemma {:induction false} NextAt(a: seq<Sym>, x: Sym, c: seq<Sym>)
    requires x !in a
    ensures NextIn(a + [x] + c, x) == Head(c)
  {
    if a == [] {
      assert ([] + [x] + c)[1..] == c;
    } else {
      assert (a + [x] + c)[0] == a[0] && a[0] in a;
      assert (a + [x] + c)[1..] == a[1..] + [x] + c;
      NextAt(a[1..], x, c);
    }
  }

  // Replacing the innermost scope.
  ghost function WithTop(outer: Scopes, r: seq<Sym>): Scopes {
    outer + [r]
  }

  lemma TopParts(outer: Scopes, r: seq<Sym>)
    ensures Live(WithTop(outer, r)) == r + Live(outer)
    ensures forall x :: ScopeOf(WithTop(outer, r), x) == if x in r then r else ScopeOf(outer, x)
  {
    assert WithTop(outer, r)[..|outer|] == outer;
  }

  lemma MapsWithTop(outer: Scopes, r: seq<Sym>)
    ensures AsMaps(WithTop(outer, r)) == AsMaps(outer) + [AsMap(r)]
  {
    assert WithTop(outer, r)[..|outer|] == outer;
  }

  class Table {
    const stack: array<Sym?>      // heads of the scope chains
    const hashTable: array<Sym?>  // heads of the bucket chains
    var stackTop: int
    var structNames: seq<string>
    ghost var scopes: Scopes
    ghost var repr: set<Sym>      // every symbol ever declared

    /** The chains in memory are those of `sc`; the innermost scope hangs from `top`. */
    ghost predicate Holds(sc: Scopes, top: Sym?)
      reads this`repr, stack, hashTable, repr
    {
      && stack.Length == STACK_SIZE && hashTable.Length == HASH_SIZE + 1 && stack != hashTable
      && 1 <= |sc| <= STACK_SIZE && Distinct(Live(sc)) && (forall x :: x in Live(sc) ==> x in repr)
      && (forall d :: 0 <= d < |sc| - 1 ==> stack[d] == Head(sc[d]))
      && stack[|sc| - 1] == top
      && (forall d :: |sc| <= d < STACK_SIZE ==> stack[d] == null)
      && (forall b :: 0 <= b <= HASH_SIZE ==> hashTable[b] == Head(Bucket(Live(sc), b)))
      && (forall x :: x in Live(sc) ==>
            x.down == NextIn(ScopeOf(sc, x), x) && x.right == NextIn(Bucket(Live(sc), HashPjw(x.name)), x))
    }

    ghost predicate Valid()
      reads this, stack, hashTable, repr
    {
      |scopes| == stackTop + 1 && |scopes| >= 1 && Holds(scopes, Head(scopes[|scopes| - 1]))
    }

    constructor ()
      ensures Valid() && scopes == [[]] && repr == {} && structNames == [] && fresh(stack) && fresh(hashTable)
    {
      stack := new Sym?[STACK_SIZE](_ => null);
      hashTable := new Sym?[HASH_SIZE + 1](_ => null);
      stackTop := 0;
      structNames := [];
      scopes := [[]];
      repr := {};
      new;
      TopParts([], []);
      assert WithTop([], []) == [[]];
      assert Live(scopes) == [];
    }

    /** Enter a scope. */
    method Push()
      requires Valid() && stackTop + 1 < STACK_SIZE
      modifies this`stackTop, this`scopes
      ensures Valid() && scopes == old(scopes) + [[]] && stackTop == old(stackTop) + 1
      ensures AsMaps(scopes) == old(AsMaps(scopes)) + [map[]]
    {
      MapsWithTop(scopes, []);
      EmptyScope(scopes);
      stackTop := stackTop + 1;
      scopes := WithTop(scopes, []);
    }

    // An empty innermost scope makes no difference to the chains.
    lemma EmptyScope(sc: Scopes)
      requires 1 <= |sc| < STACK_SIZE
      ensures Holds(sc, Head(sc[|sc| - 1])) <==> Holds(WithTop(sc, []), null)
    {
      TopParts(sc, []);
      var sc' := WithTop(sc, []);
      assert Live(sc') == Live(sc);
      assert forall d :: 0 <= d < |sc| ==> sc'[d] == sc[d];
    }

    /** Leave the innermost scope: its symbols go, everything else is as before. */
    method Pop()
      requires Valid() && stackTop >= 1
      modifies this`stackTop, this`scopes, stack, hashTable
      ensures Valid() && scopes == old(scopes[..|scopes| - 1]) && stackTop == old(stackTop) - 1
      ensures AsMaps(scopes) == old(AsMaps(scopes))[..|scopes|]
    {
      hide AsMaps, AsMap, HashPjw, Bucket;
      MapsWithTop(scopes[..|scopes| - 1], scopes[|scopes| - 1]);
      ghost var outer, r := scopes[..|scopes| - 1], scopes[|scopes| - 1];
      assert WithTop(outer, r) == scopes;
      var p := stack[stackTop];
      stack[stackTop] := null;
      assert Holds(WithTop(outer, r), null);
      hide Holds;
      while p != null
        invariant Holds(WithTop(outer, r), null) && p == Head(r)
        invariant stackTop == old(stackTop)
        decreases |r|
      {
        p := RemoveFirst(p, outer, r);
        r := r[1..];
      }
      assert r == [];
      EmptyScope(outer);
      stackTop := stackTop - 1;
      scopes := outer;
    }

    // The bucket head is moved past `p`; the answer is the next symbol of the scope.
    method RemoveFirst(p: Sym, ghost outer: Scopes, ghost r: seq<Sym>) returns (next: Sym?)
      requires Holds(WithTop(outer, r), null) && r != [] && r[0] == p
      modifies hashTable
      ensures Holds(WithTop(outer, r[1..]), null) && next == Head(r[1..])
    {
      FirstOut(outer, r);
      assert p in Live(WithTop(outer, r));
      hashTable[HashPjw(p.name)] := p.right;
      next := p.down;
      WithoutFirst(outer, r);
    }

    // The first symbol of the innermost scope is the first of all, and of its bucket.
    lemma FirstOut(outer: Scopes, r: seq<Sym>)
      requires r != []
      ensures var all, rest := Live(WithTop(outer, r)), Live(WithTop(outer, r[1..]));
        && all == [r[0]] + rest
        && (forall b :: Bucket(all, b) == if HashPjw(r[0].name) == b then [r[0]] + Bucket(rest, b) else Bucket(rest, b))
        && ScopeOf(WithTop(outer, r), r[0]) == r
    {
      TopParts(outer, r);
      TopParts(outer, r[1..]);
      var all, rest := Live(WithTop(outer, r)), Live(WithTop(outer, r[1..]));
      assert r + Live(outer) == [r[0]] + (r[1..] + Live(outer));
      assert all[1..] == rest;
    }

    // Links between the other symbols do not mention the first one.
    lemma WithoutFirst(outer: Scopes, r: seq<Sym>)
      requires r != [] && Distinct(Live(WithTop(outer, r)))
      ensures Distinct(Live(WithTop(outer, r[1..]))) && r[0] !in Live(WithTop(outer, r[1..]))
      ensures forall x :: x in Live(WithTop(outer, r[1..])) ==>
        && NextIn(ScopeOf(WithTop(outer, r), x), x) == NextIn(ScopeOf(WithTop(outer, r[1..]), x), x)
        && NextIn(Bucket(Live(WithTop(outer, r)), HashPjw(x.name)), x)
             == NextIn(Bucket(Live(WithTop(outer, r[1..])), HashPjw(x.name)), x)
    {
      FirstOut(outer, r);
      TopParts(outer, r);
      TopParts(outer, r[1..]);
      var all, rest := Live(WithTop(outer, r)), Live(WithTop(outer, r[1..]));
      FirstApart(all);
      assert all[1..] == rest && all[0] == r[0];
      hide Distinct, Live, ScopeOf, Bucket, WithTop, HashPjw;
      assert r == [r[0]] + r[1..];
      assert forall x :: x in r <==> x == r[0] || x in r[1..];
      forall x | x in rest
        ensures NextIn(ScopeOf(WithTop(outer, r), x), x) == NextIn(ScopeOf(WithTop(outer, r[1..]), x), x)
        ensures NextIn(Bucket(all, HashPjw(x.name)), x) == NextIn(Bucket(rest, HashPjw(x.name)), x)
      {
        SkipFirst(r[0], Bucket(rest, HashPjw(x.name)), x);
      }
    }

    lemma FirstApart(s: seq<Sym>)
      requires s != [] && Distinct(s)
      ensures Distinct(s[1..]) && s[0] !in s[1..]
    {
      assert forall i :: 0 <= i < |s| - 1 ==> s[1..][i] == s[i + 1];
    }

    lemma SkipFirst(f: Sym, s: seq<Sym>, x: Sym)
      requires f != x
      ensures NextIn([f] + s, x) == NextIn(s, x)
    {
      assert ([f] + s)[1..] == s;
    }

    // ---------- looking up and declaring ----------

    // One step along a bucket.
    lemma StepRight(a: seq<Sym>, x: Sym, c: seq<Sym>, b: nat)
      requires Valid() && Bucket(Live(scopes), b) == a + [x] + c
      ensures x.right == Head(c)
    {
      BucketMembers(Live(scopes), b);
      OnceOnly(a, x, c);
      NextAt(a, x, c);
    }

    // One step along the innermost scope.
    lemma StepDown(a: seq<Sym>, x: Sym, c: seq<Sym>)
      requires Valid() && scopes[|scopes| - 1] == a + [x] + c
      ensures x.down == Head(c)
    {
      var outer := scopes[..|scopes| - 1];
      assert WithTop(outer, a + [x] + c) == scopes;
      TopParts(outer, a + [x] + c);
      Prefix(a + [x] + c, Live(outer));
      OnceOnly(a, x, c);
      assert x in a + [x] + c + Live(outer);
      NextAt(a, x, c);
    }

    lemma OnceOnly(a: seq<Sym>, x: Sym, c: seq<Sym>)
      requires Distinct(a + [x] + c)
      ensures x !in a && x in a + [x] + c
    {
      assert forall i :: 0 <= i < |a| ==> (a + [x] + c)[i] == a[i];
      assert (a + [x] + c)[|a|] == x;
    }

    lemma Prefix(a: seq<Sym>, b: seq<Sym>)
      requires Distinct(a + b)
      ensures Distinct(a)
    {
      assert forall i :: 0 <= i < |a| ==> (a + b)[i] == a[i];
    }

    /** The innermost live binding of `name`, or null. */
    method GetSym(name: string) returns (p: Sym?)
      requires Valid()
      ensures p == FirstNamed(Live(scopes), name)
      ensures p == Innermost(AsMaps(scopes), name)
    {
      hide HashPjw, AsMaps, Innermost, Live, Bucket, Distinct;
      var index := HashPjw(name);
      ghost var all := Bucket(Live(scopes), index);
      ghost var a: seq<Sym>, c: seq<Sym> := [], all;
      assert a + c == all;
      BucketHasFirst(Live(scopes), name);
      LatestIsInnermost(scopes, name);
      p := hashTable[index];
      hide Holds;
      while p != null
        invariant a + c == all && p == Head(c) && FirstNamed(all, name) == FirstNamed(c, name)
        decreases |c|
      {
        if p.name == name { return; }
        assert all == a + [p] + c[1..];
        StepRight(a, p, c[1..], index);
        a, c := a + [p], c[1..];
        p := p.right;
      }
    }

    // The first loop of both declarations: is `name` declared in the innermost scope?
    method InScope(name: string) returns (found: bool)
      requires Valid()
      ensures found == (name in AsMap(scopes[|scopes| - 1]))
    {
      hide HashPjw, AsMap, Bucket, Live, Distinct;
      ghost var r := scopes[|scopes| - 1];
      ghost var a: seq<Sym>, c: seq<Sym> := [], r;
      assert a + c == r;
      ScopeIsMap(r, name);
      var i: Sym? := stack[stackTop];
      hide Holds;
      while i != null
        invariant a + c == r && i == Head(c) && FirstNamed(r, name) == FirstNamed(c, name)
        decreases |c|
      {
        if i.name == name { return true; }
        assert r == a + [i] + c[1..];
        StepDown(a, i, c[1..]);
        a, c := a + [i], c[1..];
        i := i.down;
      }
      return false;
    }

    /** Declare `sym` in the innermost scope unless that scope or the structure table has its name. */
    method PutSym(sym: Sym) returns (ok: bool)
      requires Valid() && sym !in Live(scopes)
      modifies this`scopes, this`repr, stack, hashTable, sym
      ensures repr == if ok then old(repr) + {sym} else old(repr)
      ensures Valid() && ok == (sym.name !in old(AsMap(scopes[|scopes| - 1])) && sym.name !in structNames)
      ensures scopes == if ok then WithTop(old(scopes[..|scopes| - 1]), [sym] + old(scopes[|scopes| - 1]))
                        else old(scopes)
      ensures ok ==> AsMaps(scopes) == old(AsMaps(scopes)[|scopes| - 1 := AsMap(scopes[|scopes| - 1])[sym.name := sym]])
    {
      hide Holds, Live, HashPjw, AsMaps, AsMap;
      var repeated := InScope(sym.name);
      if repeated || sym.name in structNames { return false; }
      ghost var outer, r := scopes[..|scopes| - 1], scopes[|scopes| - 1];
      assert WithTop(outer, r) == scopes;
      Declared(outer, r, sym);
      Link(sym, outer, r);
      scopes := WithTop(outer, [sym] + r);
      return true;
    }

    lemma Declared(outer: Scopes, r: seq<Sym>, sym: Sym)
      ensures AsMaps(WithTop(outer, [sym] + r)) == AsMaps(WithTop(outer, r))[|outer| := AsMap(r)[sym.name := sym]]
    {
      MapsWithTop(outer, r);
      MapsWithTop(outer, [sym] + r);
      assert ([sym] + r)[1..] == r;
    }

    // The new symbol becomes the head of its bucket and of the innermost scope.
    method Link(sym: Sym, ghost outer: Scopes, ghost r: seq<Sym>)
      requires Holds(WithTop(outer, r), Head(r)) && |outer| == stackTop && sym !in Live(WithTop(outer, r))
      modifies this`repr, stack, hashTable, sym
      ensures repr == old(repr) + {sym}
      ensures Holds(WithTop(outer, [sym] + r), sym)
    {
      hide Bucket, Live, ScopeOf, NextIn, Distinct, HashPjw;
      NewFirst(outer, r, sym);
      var index := HashPjw(sym.name);
      var p := hashTable[index];
      sym.down := null;
      sym.right := p;
      hashTable[index] := sym;
      sym.down := stack[stackTop];
      repr := repr + {sym};
      stack[stackTop] := sym;
    }

    lemma NewFirst(outer: Scopes, r: seq<Sym>, sym: Sym)
      requires Distinct(Live(WithTop(outer, r))) && sym !in Live(WithTop(outer, r))
      ensures var all, rest := Live(WithTop(outer, [sym] + r)), Live(WithTop(outer, r));
        && all == [sym] + rest && Distinct(all)
        && ScopeOf(WithTop(outer, [sym] + r), sym) == [sym] + r
        && NextIn([sym] + r, sym) == Head(r)
        && (forall b :: Bucket(all, b) == if HashPjw(sym.name) == b then [sym] + Bucket(rest, b) else Bucket(rest, b))
        && NextIn(Bucket(all, HashPjw(sym.name)), sym) == Head(Bucket(rest, HashPjw(sym.name)))
        && (forall x :: x in rest ==>
             && NextIn(ScopeOf(WithTop(outer, [sym] + r), x), x) == NextIn(ScopeOf(WithTop(outer, r), x), x)
             && NextIn(Bucket(all, HashPjw(x.name)), x) == NextIn(Bucket(rest, HashPjw(x.name)), x))
    {
      var s := [sym] + r;
      assert s[1..] == r;
      FirstOut(outer, s);
      assert Distinct(Live(WithTop(outer, s)));
      WithoutFirst(outer, s);
      assert ([sym] + Bucket(Live(WithTop(outer, r)), HashPjw(sym.name)))[1..] == Bucket(Live(WithTop(outer, r)), HashPjw(sym.name));
    }

    /** Record a structure name unless it is known or is a symbol of the innermost scope. */
    method PutStruct(name: string) returns (ok: bool)
      requires Valid()
      modifies this`structNames
      ensures Valid()
      ensures ok == (name !in old(structNames) && name !in AsMap(scopes[|scopes| - 1]))
      ensures structNames == if ok then old(structNames) + [name] else old(structNames)
    {
      hide Holds, AsMap, Live;
      var known := name in structNames;
      if known { return false; }
      var repeated := InScope(name);
      if repeated { return false; }
      structNames := structNames + [name];
      return true;
    }

    /** Two states with the same scopes have the same heads and the same links. */
    twostate lemma SameChains()
      requires old(Valid()) && Valid() && scopes == old(scopes)
      ensures stack[..] == old(stack[..]) && hashTable[..] == old(hashTable[..])
      ensures forall x :: x in old(repr) && x in Live(scopes) ==> x.down == old(x.down) && x.right == old(x.right)
      ensures forall x :: x in Live(scopes) ==> x in old(repr)
    {
      assert forall i :: 0 <= i < STACK_SIZE ==> stack[i] == old(stack[i]);
      assert forall i :: 0 <= i <= HASH_SIZE ==> hashTable[i] == old(hashTable[i]);
    }

    /** Work inside the innermost scope leaves the scopes around it alone and only adds to it. */
    method Work(tasks: seq<Task>)
      requires Valid() && stackTop + Depth(tasks) < STACK_SIZE
      modifies this`stackTop, this`scopes, this`repr, this`structNames, stack, hashTable
      ensures Valid() && stackTop == old(stackTop)
      ensures scopes[..|scopes| - 1] == old(scopes[..|scopes| - 1])
      ensures Extends(scopes[|scopes| - 1], old(scopes[|scopes| - 1]))
      ensures old(repr) <= repr && fresh(repr - old(repr))
      decreases tasks, 1
    {
      hide Holds, Live;
      var i := 0;
      while i < |tasks|
        invariant i <= |tasks| && Valid() && stackTop == old(stackTop) && stackTop + Depth(tasks[i..]) < STACK_SIZE
        invariant scopes[..|scopes| - 1] == old(scopes[..|scopes| - 1])
        invariant Extends(scopes[|scopes| - 1], old(scopes[|scopes| - 1]))
        invariant old(repr) <= repr && fresh(repr - old(repr))
      {
        Perform(tasks[i], tasks);
        assert tasks[i..][0] == tasks[i] && tasks[i..][1..] == tasks[i + 1..];
        i := i + 1;
      }
    }

    lemma LiveKnown()
      requires Valid()
      ensures forall x :: x in Live(scopes) ==> x in repr
    {
    }

    method Perform(task: Task, ghost tasks: seq<Task>)
      requires task in tasks && Valid() && stackTop + Depth([task]) < STACK_SIZE
      modifies this`stackTop, this`scopes, this`repr, this`structNames, stack, hashTable
      ensures Valid() && stackTop == old(stackTop)
      ensures scopes[..|scopes| - 1] == old(scopes[..|scopes| - 1])
      ensures Extends(scopes[|scopes| - 1], old(scopes[|scopes| - 1]))
      ensures old(repr) <= repr && fresh(repr - old(repr))
      decreases tasks, 0
    {
      hide Holds, Live;
      match task
      case Declare(name) =>
        LiveKnown();
        var sym := new Sym(name);
        var ok := PutSym(sym);
      case DeclareStruct(name) =>
        var ok := PutStruct(name);
      case Use(name) =>
        var p := GetSym(name);
      case Block(body) =>
        InBlock(body);
    }

    /** A block leaves every head and every link of the symbols outside it as it found them. */
    method InBlock(body: seq<Task>)
      requires Valid() && stackTop + 1 + Depth(body) < STACK_SIZE
      modifies this`stackTop, this`scopes, this`repr, this`structNames, stack, hashTable
      ensures Valid() && scopes == old(scopes) && stackTop == old(stackTop)
      ensures stack[..] == old(stack[..]) && hashTable[..] == old(hashTable[..])
      ensures forall x :: x in old(repr) && x in Live(scopes) ==> x.down == old(x.down) && x.right == old(x.right)
      ensures old(repr) <= repr && fresh(repr - old(repr))
      decreases body, 2
    {
      hide Holds, Live;
      Push();
      Work(body);
      Pop();
      SameChains();
    }
  }

  // `s` is `t` with more at the front.
  ghost predicate Extends(s: seq<Sym>, t: seq<Sym>) {
    |t| <= |s| && s[|s| - |t|..] == t
  }

  /** What a compiler does between entering a scope and leaving it. */
  datatype Task = Declare(name: string) | DeclareStruct(name: string) | Use(name: string) | Block(body: seq<Task>)

  function Depth(tasks: seq<Task>): nat {
    if tasks == [] then 0
    else
      var d := if tasks[0].Block? then 1 + Depth(tasks[0].body) else 0;
      if d > Depth(tasks[1..]) then d else Depth(tasks[1..])
  }
}
