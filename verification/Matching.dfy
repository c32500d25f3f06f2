/** Bottleneck bipartite matching: augmenting-path search inside a binary search over the weights. */
module BottleneckMatching {

  // ---------- graphs and matchings ----------

  type Matrix = seq<seq<int>>

  predicate Square(adj: Matrix, k: nat) {
    |adj| == k && forall i :: 0 <= i < k ==> |adj[i]| == k
  }

  /** The edges light enough to be used. */
  predicate Edge(adj: Matrix, k: nat, sup: int, i: int, j: int)
    requires Square(adj, k)
  {
    0 <= i < k && 0 <= j < k && adj[i][j] <= sup
  }

  /** A matching as a set of (row, column) pairs. */
  ghost predicate IsMatching(adj: Matrix, k: nat, sup: int, pairs: set<(int, int)>)
    requires Square(adj, k)
  {
    && (forall p :: p in pairs ==> Edge(adj, k, sup, p.0, p.1))
    && (forall p, q :: p in pairs && q in pairs && p != q ==> p.0 != q.0 && p.1 != q.1)
  }

  ghost predicate Perfect(adj: Matrix, k: nat, sup: int)
    requires Square(adj, k)
  {
    exists pairs :: IsMatching(adj, k, sup, pairs) && |pairs| == k
  }

  ghost predicate IsMaximum(adj: Matrix, k: nat, sup: int, n: int)
    requires Square(adj, k)
  {
    && (exists pairs :: IsMatching(adj, k, sup, pairs) && |pairs| == n)
    && (forall pairs :: IsMatching(adj, k, sup, pairs) ==> |pairs| <= n)
  }

  // ---------- the match array ----------

  /** m[j] is the row matched with column j, or -1. */
  ghost predicate OnEdges(adj: Matrix, k: nat, sup: int, m: seq<int>)
    requires Square(adj, k)
  {
    |m| == k && forall j :: 0 <= j < k && m[j] != -1 ==> Edge(adj, k, sup, m[j], j)
  }

  ghost predicate Apart(m: seq<int>, u: set<int>) {
    forall a, b :: a in u && b in u && 0 <= a < |m| && 0 <= b < |m| && a != b && m[a] != -1 ==> m[a] != m[b]
  }

  ghost predicate HasRow(m: seq<int>, u: set<int>, r: int) {
    exists j :: j in u && 0 <= j < |m| && m[j] == r
  }

  ghost function Range(k: nat): (r: set<int>)
    ensures forall j :: j in r <==> 0 <= j < k
    ensures |r| == k
  {
    if k == 0 then {} else Range(k - 1) + {k - 1}
  }

  ghost function Unvisited(v: seq<bool>): set<int> {
    set j | 0 <= j < |v| && !v[j]
  }

  /** Within the columns `u`, row `i` has been matched in addition to the rows matched before. */
  ghost predicate Augmented(m: seq<int>, m': seq<int>, u: set<int>, i: int) {
    && |m'| == |m|
    && (forall j :: 0 <= j < |m| && j !in u ==> m'[j] == m[j])
    && Apart(m', u)
    && (forall r :: r != -1 ==> (HasRow(m', u, r) <==> r == i || HasRow(m, u, r)))
  }

  /** Columns that are all matched, to rows all of whose neighbours are among these columns. */
  ghost predicate Closed(adj: Matrix, k: nat, sup: int, m: seq<int>, w: set<int>)
    requires Square(adj, k) && |m| == k
  {
    forall j :: j in w ==> 0 <= j < k && m[j] != -1 && Confined(adj, k, sup, m[j], w)
  }

  ghost predicate Confined(adj: Matrix, k: nat, sup: int, i: int, w: set<int>)
    requires Square(adj, k)
  {
    forall j :: Edge(adj, k, sup, i, j) ==> j in w
  }

  ghost function Visited(v: seq<bool>): set<int> {
    set j | 0 <= j < |v| && v[j]
  }

  lemma AugmentThrough(m: seq<int>, m1: seq<int>, u: set<int>, u1: set<int>, i: int, j: int)
    requires j in u && 0 <= j < |m| && j !in u1 && u1 <= u <= Range(|m|)
    requires m[j] != -1 && i != -1 && Apart(m, Range(|m|)) && !HasRow(m, u, i)
    requires Augmented(m, m1, u1, m[j])
    ensures Augmented(m, m1[j := i], u, i)
  {
    var m' := m1[j := i];
    forall r | r != -1 ensures HasRow(m', u, r) <==> r == i || HasRow(m, u, r) {
      if HasRow(m', u, r) && r != i {
        var a :| a in u && 0 <= a < |m'| && m'[a] == r;
        if a in u1 {
          assert HasRow(m1, u1, r);
          if r != m[j] {
            var b :| b in u1 && 0 <= b < |m| && m[b] == r;
          }
        }
      }
      if HasRow(m, u, r) {
        var a :| a in u && 0 <= a < |m| && m[a] == r;
        if a in u1 || a == j {
          if a in u1 { assert HasRow(m, u1, r); }
          assert HasRow(m1, u1, r);
          var b :| b in u1 && 0 <= b < |m| && m1[b] == r;
          assert m'[b] == r;
        } else {
          assert m'[a] == r;
        }
      }
      if r == i { assert m'[j] == r; }
    }
    forall a, b | a in u && b in u && a != b && m'[a] != -1 ensures m'[a] != m'[b] {
      Origin(m, m1, u, u1, i, j, a);
      Origin(m, m1, u, u1, i, j, b);
    }
  }

  // Where the entry at column `a` of the augmented array comes from.
  lemma Origin(m: seq<int>, m1: seq<int>, u: set<int>, u1: set<int>, i: int, j: int, a: int)
    requires j in u && 0 <= j < |m| && j !in u1 && u1 <= u <= Range(|m|) && a in u
    requires m[j] != -1 && !HasRow(m, u, i) && Augmented(m, m1, u1, m[j])
    ensures a != j && a !in u1 ==> m1[a] == m[a]
    ensures a in u1 && m1[a] != -1 ==> m1[a] == m[j] || exists b :: b in u1 && 0 <= b < |m| && m[b] == m1[a]
    ensures a != j && m1[a] != -1 ==> m1[a] != i
  {
    if a in u1 && m1[a] != -1 {
      assert HasRow(m1, u1, m1[a]);
    }
  }

  // ---------- the search ----------

  /** Look for an augmenting path from row `i`. A closed set `w` of columns is never entered with
      success, and every column a failed search has visited belongs to such a set. */
  method FindRec(i: int, visit: array<bool>, m: array<int>, sup: int, k: nat, adj: Matrix, ghost w: set<int>)
    returns (found: bool)
    requires Square(adj, k) && 0 <= i < k && visit.Length == k && m.Length == k
    requires OnEdges(adj, k, sup, m[..]) && Apart(m[..], Range(k)) && Closed(adj, k, sup, m[..], w)
    requires !HasRow(m[..], Unvisited(visit[..]), i)
    modifies visit, m
    ensures Unvisited(visit[..]) <= old(Unvisited(visit[..])) && OnEdges(adj, k, sup, m[..])
    ensures found ==> Augmented(old(m[..]), m[..], old(Unvisited(visit[..])), i)
    ensures found ==> (forall j :: j in w ==> m[..][j] == old(m[..])[j]) && !Confined(adj, k, sup, i, w)
    ensures !found ==> m[..] == old(m[..]) && Confined(adj, k, sup, i, Visited(visit[..]))
    ensures !found ==> Explored(adj, k, sup, m[..], old(visit[..]), visit[..])
    decreases |Unvisited(visit[..])|
  {
    ghost var m0, v0, u := m[..], visit[..], Unvisited(visit[..]);
    hide Augmented, Apart, HasRow, Explored, Closed, OnEdges, Confined, Visited;
    StartExploring(adj, k, sup, m0, v0);
    var j := 0;
    while j < k
      invariant 0 <= j <= k && m[..] == m0 && Unvisited(visit[..]) <= u
      invariant Explored(adj, k, sup, m0, v0, visit[..])
      invariant forall c :: 0 <= c < j && Edge(adj, k, sup, i, c) ==> visit[..][c]
    {
      if adj[i][j] <= sup && !visit[j] {
        ghost var v1 := visit[..];
        assert !v1[j];
        visit[j] := true;
        ghost var v2 := visit[..];
        assert v2 == v1[j := true];
        Marked(v1, j);
        Subset(Unvisited(v1), u);
        if m[j] == -1 {
          m[j] := i;
          assert m[..] == m0[j := i];
          TakeFree(adj, k, sup, m0, u, i, j, w);
          return true;
        }
        OnlyHere(m0, k, j, Unvisited(v2));
        MatchedRow(adj, k, sup, m0, j);
        var r := FindRec(m[j], visit, m, sup, k, adj, w);
        if r {
          ghost var m1 := m[..];
          m[j] := i;
          assert m[..] == m1[j := i];
          TakeOver(adj, k, sup, m0, m1, u, Unvisited(v2), i, j, w);
          return true;
        }
        assert m[..] == m0;
        assert Explored(adj, k, sup, m0, v1[j := true], visit[..]);
        ExploreOn(adj, k, sup, m0, v0, v1, j, visit[..]);
      }
      j := j + 1;
    }
    AllVisited(adj, k, sup, i, visit[..]);
    return false;
  }

  lemma {:induction false} Subset<T>(a: set<T>, b: set<T>)
    requires a <= b
    ensures |a| <= |b|
  {
    if x :| x in a { Subset(a - {x}, b - {x}); }
  }

  lemma StartExploring(adj: Matrix, k: nat, sup: int, m: seq<int>, v: seq<bool>)
    requires Square(adj, k) && |m| == k && |v| == k
    ensures Explored(adj, k, sup, m, v, v)
  {
  }

  lemma TakeFree(adj: Matrix, k: nat, sup: int, m: seq<int>, u: set<int>, i: int, j: int, w: set<int>)
    requires Square(adj, k) && OnEdges(adj, k, sup, m) && Apart(m, Range(k)) && Closed(adj, k, sup, m, w)
    requires Edge(adj, k, sup, i, j) && m[j] == -1 && j in u && u <= Range(k) && !HasRow(m, u, i)
    ensures Augmented(m, m[j := i], u, i) && OnEdges(adj, k, sup, m[j := i])
    ensures (forall c :: c in w ==> 0 <= c < k && m[j := i][c] == m[c]) && !Confined(adj, k, sup, i, w)
  {
    var m' := m[j := i];
    forall r | r != -1 ensures HasRow(m', u, r) <==> r == i || HasRow(m, u, r) {
      if HasRow(m, u, r) {
        var a :| a in u && 0 <= a < |m| && m[a] == r;
        assert m'[a] == r;
      }
      if r == i { assert m'[j] == r; }
    }
  }

  lemma OnlyHere(m: seq<int>, k: nat, j: int, u: set<int>)
    requires |m| == k && Apart(m, Range(k)) && 0 <= j < k && m[j] != -1 && j !in u
    ensures !HasRow(m, u, m[j])
  {
  }

  lemma MatchedRow(adj: Matrix, k: nat, sup: int, m: seq<int>, j: int)
    requires Square(adj, k) && OnEdges(adj, k, sup, m) && 0 <= j < k && m[j] != -1
    ensures 0 <= m[j] < k
  {
  }

  lemma TakeOver(adj: Matrix, k: nat, sup: int, m: seq<int>, m1: seq<int>, u: set<int>, u1: set<int>, i: int, j: int, w: set<int>)
    requires Square(adj, k) && |m| == k && Apart(m, Range(k)) && Closed(adj, k, sup, m, w)
    requires Edge(adj, k, sup, i, j) && m[j] != -1 && j in u && j !in u1 && u1 <= u <= Range(k) && !HasRow(m, u, i)
    requires Augmented(m, m1, u1, m[j]) && OnEdges(adj, k, sup, m1)
    requires (forall c :: c in w ==> 0 <= c < k && m1[c] == m[c]) && !Confined(adj, k, sup, m[j], w)
    ensures Augmented(m, m1[j := i], u, i) && OnEdges(adj, k, sup, m1[j := i])
    ensures (forall c :: c in w ==> m1[j := i][c] == m[c]) && !Confined(adj, k, sup, i, w)
  {
    AugmentThrough(m, m1, u, u1, i, j);
  }

  lemma ExploreOn(adj: Matrix, k: nat, sup: int, m: seq<int>, v0: seq<bool>, v1: seq<bool>, j: int, v2: seq<bool>)
    requires Square(adj, k) && |m| == k && |v0| == |v1| == |v2| == k && 0 <= j < k
    requires Explored(adj, k, sup, m, v0, v1) && !v1[j] && m[j] != -1
    requires Explored(adj, k, sup, m, v1[j := true], v2) && Confined(adj, k, sup, m[j], Visited(v2))
    ensures Explored(adj, k, sup, m, v0, v2)
    ensures v2[j] && forall c :: 0 <= c < k && v1[c] ==> v2[c]
  {
    assert v1[j := true][j];
    forall c | 0 <= c < k && v1[c] ensures v2[c] {
      assert v1[j := true][c];
    }
    forall c | 0 <= c < k && v2[c] && !v0[c] ensures m[c] != -1 && Confined(adj, k, sup, m[c], Visited(v2)) {
      if v1[c] {
        assert Visited(v1) <= Visited(v2);
      } else if c != j {
        assert !v1[j := true][c];
      }
    }
  }

  lemma AllVisited(adj: Matrix, k: nat, sup: int, i: int, v: seq<bool>)
    requires Square(adj, k) && |v| == k
    requires forall c :: 0 <= c < k && Edge(adj, k, sup, i, c) ==> v[c]
    ensures Confined(adj, k, sup, i, Visited(v))
  {
  }

  // What was visited since `v` leads to matched columns whose rows lead only to visited columns.
  ghost predicate Explored(adj: Matrix, k: nat, sup: int, m: seq<int>, v: seq<bool>, v': seq<bool>)
    requires Square(adj, k) && |m| == k && |v| == k && |v'| == k
  {
    && (forall j :: 0 <= j < k && v[j] ==> v'[j])
    && (forall j :: 0 <= j < k && v'[j] && !v[j] ==> m[j] != -1 && Confined(adj, k, sup, m[j], Visited(v')))
  }

  lemma Marked(v: seq<bool>, j: nat)
    requires j < |v| && !v[j]
    ensures Unvisited(v[j := true]) == Unvisited(v) - {j} && |Unvisited(v[j := true])| < |Unvisited(v)|
    ensures Visited(v[j := true]) == Visited(v) + {j}
  {
    assert Unvisited(v[j := true]) == Unvisited(v) - {j};
  }

  // ---------- the maximum matching ----------

  /** After the first `n` rows: `failed` are the rows that were left over, `w` the closed set of
      columns that shows why. */
  ghost predicate Certified(adj: Matrix, k: nat, sup: int, m: seq<int>, n: nat, failed: set<int>, w: set<int>)
    requires Square(adj, k)
  {
    && n <= k && OnEdges(adj, k, sup, m) && Apart(m, Range(k)) && Closed(adj, k, sup, m, w)
    && (forall r :: 0 <= r ==> (HasRow(m, Range(k), r) <==> r < n && r !in failed))
    && (forall r :: r in failed ==> 0 <= r < n && Confined(adj, k, sup, r, w))
  }

  // One row of the left part, with a new visit array.
  method TryRow(i: nat, m: array<int>, sup: int, k: nat, adj: Matrix, ghost failed: set<int>, ghost w: set<int>)
    returns (found: bool, ghost failed': set<int>, ghost w': set<int>)
    requires Square(adj, k) && i < k && m.Length == k && Certified(adj, k, sup, m[..], i, failed, w)
    modifies m
    ensures Certified(adj, k, sup, m[..], i + 1, failed', w')
    ensures |failed'| == |failed| + (if found then 0 else 1)
  {
    hide Augmented, Apart, HasRow, Explored, Closed, OnEdges, Confined, Visited, Unvisited, Certified;
    ghost var m0 := m[..];
    failed', w' := failed, w;
    var visit := new bool[k](_ => false);
    ghost var v0 := visit[..];
    Fresh(v0, k);
    Uncertified(adj, k, sup, m0, i, failed, w);
    found := FindRec(i, visit, m, sup, k, adj, w);
    if found {
      Matched(adj, k, sup, m0, m[..], i, failed, w);
    } else {
      LeftOver(adj, k, sup, m0, v0, visit[..], i, failed, w);
      failed', w' := failed + {i}, w + Visited(visit[..]);
    }
  }

  method FindMaxMatch(adj: Matrix, k: nat, sup: int) returns (matchNum: nat)
    requires Square(adj, k)
    ensures IsMaximum(adj, k, sup, matchNum)
  {
    matchNum := 0;
    var m := new int[k](_ => -1);
    ghost var failed, w := {}, {};
    hide Certified, IsMaximum;
    StartCertificate(adj, k, sup, m[..]);
    var i := 0;
    while i < k
      invariant 0 <= i <= k && Certified(adj, k, sup, m[..], i, failed, w)
      invariant |failed| + matchNum == i
    {
      var found;
      found, failed, w := TryRow(i, m, sup, k, adj, failed, w);
      if found {
        matchNum := matchNum + 1;
      }
      i := i + 1;
    }
    Maximum(adj, k, sup, m[..], failed, w);
  }

  lemma StartCertificate(adj: Matrix, k: nat, sup: int, m: seq<int>)
    requires Square(adj, k) && |m| == k && forall j :: 0 <= j < k ==> m[j] == -1
    ensures Certified(adj, k, sup, m, 0, {}, {})
  {
  }

  lemma Fresh(v: seq<bool>, k: nat)
    requires |v| == k && forall j :: 0 <= j < k ==> !v[j]
    ensures Unvisited(v) == Range(k)
  {
  }

  lemma Uncertified(adj: Matrix, k: nat, sup: int, m: seq<int>, n: nat, failed: set<int>, w: set<int>)
    requires Square(adj, k) && Certified(adj, k, sup, m, n, failed, w)
    ensures OnEdges(adj, k, sup, m) && Apart(m, Range(k)) && Closed(adj, k, sup, m, w) && !HasRow(m, Range(k), n)
    ensures n !in failed
  {
  }

  lemma Matched(adj: Matrix, k: nat, sup: int, m: seq<int>, m': seq<int>, i: nat, failed: set<int>, w: set<int>)
    requires Square(adj, k) && Certified(adj, k, sup, m, i, failed, w) && i < k
    requires Augmented(m, m', Range(k), i) && OnEdges(adj, k, sup, m')
    requires forall j :: j in w && 0 <= j < k ==> m'[j] == m[j]
    ensures Certified(adj, k, sup, m', i + 1, failed, w)
  {
  }

  lemma LeftOver(adj: Matrix, k: nat, sup: int, m: seq<int>, v: seq<bool>, v': seq<bool>, i: nat, failed: set<int>, w: set<int>)
    requires Square(adj, k) && Certified(adj, k, sup, m, i, failed, w) && i < k
    requires |v| == k && |v'| == k && (forall j :: 0 <= j < k ==> !v[j]) && Explored(adj, k, sup, m, v, v')
    requires Confined(adj, k, sup, i, Visited(v'))
    ensures Certified(adj, k, sup, m, i + 1, failed + {i}, w + Visited(v')) && |failed + {i}| == |failed| + 1
  {
    assert Closed(adj, k, sup, m, w + Visited(v')) by {
      forall j | j in w + Visited(v') ensures 0 <= j < k && m[j] != -1 && Confined(adj, k, sup, m[j], w + Visited(v')) {
        if j in w { assert Confined(adj, k, sup, m[j], w); }
      }
    }
    forall r | r in failed + {i} ensures Confined(adj, k, sup, r, w + Visited(v')) {
      if r in failed { assert Confined(adj, k, sup, r, w); }
    }
  }

  // ---------- counting ----------

  /** The rows matched with the columns of `w`. */
  ghost function RowsOf(m: seq<int>, w: set<int>): set<int>
    requires forall j :: j in w ==> 0 <= j < |m|
  {
    set j | j in w :: m[j]
  }

  lemma SomeElement<T>(s: set<T>) returns (x: T)
    requires s != {}
    ensures x in s
  {
    x :| x in s;
  }

  lemma {:induction false} RowsOfSize(m: seq<int>, w: set<int>)
    requires (forall j :: j in w ==> 0 <= j < |m| && m[j] != -1) && Apart(m, w)
    ensures |RowsOf(m, w)| == |w|
  {
    if w == {} {
      assert RowsOf(m, w) == {};
    } else {
      var j := SomeElement(w);
      var rest := w - {j};
      RowsOfSize(m, rest);
      assert RowsOf(m, w) == RowsOf(m, rest) + {m[j]};
      assert m[j] !in RowsOf(m, rest);
    }
  }

  // The pairs recorded for the columns of `w`.
  ghost function PairsOf(m: seq<int>, w: set<int>): set<(int, int)>
    requires forall j :: j in w ==> 0 <= j < |m|
  {
    set j | j in w :: (m[j], j)
  }

  lemma {:induction false} PairsOfSize(m: seq<int>, w: set<int>)
    requires forall j :: j in w ==> 0 <= j < |m|
    ensures |PairsOf(m, w)| == |w|
  {
    if w == {} {
      assert PairsOf(m, w) == {};
    } else {
      var j := SomeElement(w);
      var rest := w - {j};
      PairsOfSize(m, rest);
      assert PairsOf(m, w) == PairsOf(m, rest) + {(m[j], j)};
      assert (m[j], j) !in PairsOf(m, rest);
    }
  }

  /** A matching is no larger than a set of rows and columns that touches all its pairs. */
  lemma {:induction false} CoverBound(pairs: set<(int, int)>, rows: set<int>, cols: set<int>)
    requires forall p :: p in pairs ==> p.0 in rows || p.1 in cols
    requires forall p, q :: p in pairs && q in pairs && p != q ==> p.0 != q.0 && p.1 != q.1
    ensures |pairs| <= |rows| + |cols|
    decreases pairs
  {
    if p :| p in pairs {
      if p.0 in rows {
        CoverBound(pairs - {p}, rows - {p.0}, cols);
      } else {
        CoverBound(pairs - {p}, rows, cols - {p.1});
      }
    }
  }

  ghost function MatchedCols(m: seq<int>, k: nat): set<int>
    requires |m| == k
  {
    set j | j in Range(k) && m[j] != -1
  }

  // The matched rows are those not left over.
  lemma MatchedRows(adj: Matrix, k: nat, sup: int, m: seq<int>, failed: set<int>, w: set<int>)
    requires Square(adj, k) && Certified(adj, k, sup, m, k, failed, w)
    ensures RowsOf(m, MatchedCols(m, k)) == Range(k) - failed && |Range(k) - failed| == k - |failed|
    ensures |MatchedCols(m, k)| == k - |failed|
  {
    var cols := MatchedCols(m, k);
    forall r ensures r in RowsOf(m, cols) <==> r in Range(k) - failed {
      if r in RowsOf(m, cols) {
        var j :| j in cols && m[j] == r;
        assert HasRow(m, Range(k), r);
      }
      if r in Range(k) - failed {
        assert HasRow(m, Range(k), r);
        var j :| j in Range(k) && m[j] == r;
        assert j in cols;
      }
    }
    RowsOfSize(m, cols);
    assert failed <= Range(k);
  }

  /** Koenig's argument: the columns `w` and the rows that are neither left over nor matched into
      `w` touch every edge, and there are as many of them as matched rows. */
  lemma CoverOfEdges(adj: Matrix, k: nat, sup: int, m: seq<int>, failed: set<int>, w: set<int>) returns (rest: set<int>)
    requires Square(adj, k) && Certified(adj, k, sup, m, k, failed, w)
    ensures |rest| + |w| == k - |failed|
    ensures forall i, j :: Edge(adj, k, sup, i, j) ==> i in rest || j in w
  {
    MatchedRows(adj, k, sup, m, failed, w);
    RowsOfSize(m, w);
    rest := Range(k) - failed - RowsOf(m, w);
    forall r | r in RowsOf(m, w) ensures r in Range(k) - failed {
      var j :| j in w && m[j] == r;
      assert j in MatchedCols(m, k);
      assert r in RowsOf(m, MatchedCols(m, k));
    }
    assert RowsOf(m, w) <= Range(k) - failed;
    forall i, j | Edge(adj, k, sup, i, j) ensures i in rest || j in w {
      if i in failed {
        assert Confined(adj, k, sup, i, w);
      } else if i in RowsOf(m, w) {
        var c :| c in w && m[c] == i;
        assert Confined(adj, k, sup, m[c], w);
      }
    }
  }

  lemma Maximum(adj: Matrix, k: nat, sup: int, m: seq<int>, failed: set<int>, w: set<int>)
    requires Square(adj, k) && Certified(adj, k, sup, m, k, failed, w)
    ensures IsMaximum(adj, k, sup, k - |failed|)
  {
    var cols := MatchedCols(m, k);
    MatchedRows(adj, k, sup, m, failed, w);
    PairsOfSize(m, cols);
    assert IsMatching(adj, k, sup, PairsOf(m, cols));
    var rest := CoverOfEdges(adj, k, sup, m, failed, w);
    forall pairs: set<(int, int)> | IsMatching(adj, k, sup, pairs) ensures |pairs| <= k - |failed| {
      CoverBound(pairs, rest, w);
    }
  }

  // ---------- the least bottleneck ----------

  ghost predicate Increasing(s: seq<int>) {
    forall a, b :: 0 <= a <= b < |s| ==> s[a] <= s[b]
  }

  function Inserted(x: int, s: seq<int>): (r: seq<int>)
    requires Increasing(s)
    ensures Increasing(r) && multiset(r) == multiset(s) + multiset{x}
  {
    if s == [] || x <= s[0] then
      [x] + s
    else
      var rest := Inserted(x, s[1..]);
      InsertedBelow(x, s, rest);
      [s[0]] + rest
  }

  lemma InsertedBelow(x: int, s: seq<int>, rest: seq<int>)
    requires s != [] && s[0] < x && Increasing(s) && Increasing(rest) && multiset(rest) == multiset(s[1..]) + multiset{x}
    ensures Increasing([s[0]] + rest) && multiset([s[0]] + rest) == multiset(s) + multiset{x}
  {
    forall a | 0 <= a < |rest| ensures s[0] <= rest[a] {
      assert rest[a] in multiset(rest);
    }
    assert s == [s[0]] + s[1..];
  }

  function SortedWeights(s: seq<int>): (r: seq<int>)
    ensures Increasing(r) && multiset(r) == multiset(s)
  {
    if s == [] then [] else
      assert s == [s[0]] + s[1..];
      Inserted(s[0], SortedWeights(s[1..]))
  }

  lemma SameLength(a: seq<int>, b: seq<int>)
    requires multiset(a) == multiset(b)
    ensures |a| == |b|
  {
    assert |multiset(a)| == |multiset(b)|;
  }

  // Stands for the library's sort.
  method Sort(w: array<int>)
    modifies w
    ensures Increasing(w[..]) && multiset(w[..]) == old(multiset(w[..]))
  {
    var r := SortedWeights(w[..]);
    SameLength(r, w[..]);
    hide SortedWeights, Increasing;
    forall i | 0 <= i < w.Length { w[i] := r[i]; }
    assert w[..] == r;
  }

  ghost predicate IsWeight(adj: Matrix, k: nat, x: int)
    requires Square(adj, k)
  {
    exists i, j :: 0 <= i < k && 0 <= j < k && adj[i][j] == x
  }

  /** `ws` lists the weights of the matrix, and no other numbers. */
  ghost predicate Lists(adj: Matrix, k: nat, ws: seq<int>)
    requires Square(adj, k)
  {
    && (forall i, j :: 0 <= i < k && 0 <= j < k ==> adj[i][j] in ws)
    && (forall x :: x in ws ==> IsWeight(adj, k, x))
  }

  method CollectWeights(adj: Matrix, k: nat) returns (w: array<int>)
    requires Square(adj, k)
    ensures fresh(w) && w.Length == k * k && Lists(adj, k, w[..])
  {
    w := new int[k * k](_ => 0);
    var i := 0;
    ghost var n := 0;
    while i < k
      invariant 0 <= i <= k && n == i * k <= k * k
      invariant forall a, b :: 0 <= a < i && 0 <= b < k ==> adj[a][b] in w[..n]
      invariant forall x :: x in w[..n] ==> IsWeight(adj, k, x)
    {
      RowFits(i, k);
      var j := 0;
      while j < k
        invariant 0 <= j <= k && n == i * k + j <= k * k
        invariant forall a, b :: 0 <= a < i && 0 <= b < k ==> adj[a][b] in w[..n]
        invariant forall b :: 0 <= b < j ==> adj[i][b] in w[..n]
        invariant forall x :: x in w[..n] ==> IsWeight(adj, k, x)
      {
        ghost var was := w[..n];
        w[i * k + j] := adj[i][j];
        n := n + 1;
        assert w[..n] == was + [adj[i][j]];
        j := j + 1;
      }
      i := i + 1;
    }
    assert w[..n] == w[..];
  }

  lemma RowFits(i: nat, k: nat)
    requires i < k
    ensures i * k + k <= k * k && (i + 1) * k == i * k + k
  {
    assert (i + 1) * k <= k * k;
  }

  /** The least weight under which a perfect matching exists. */
  method Match(adj: Matrix, k: nat) returns (least: int)
    requires Square(adj, k) && k >= 1
    ensures Perfect(adj, k, least) && IsWeight(adj, k, least)
    ensures forall sup :: sup < least ==> !Perfect(adj, k, sup)
  {
    var w := CollectWeights(adj, k);
    ghost var ws0 := w[..];
    Sort(w);
    ghost var ws := w[..];
    SameLists(adj, k, ws0, ws);
    hide Perfect, Lists, IsMaximum;
    var s := 0;
    OneWeight(k);
    var e := k * k - 1;
    HeaviestSuffices(adj, k, ws);
    var mid := (s + e) / 2;
    while s != e
      invariant 0 <= s <= e < k * k == w.Length && mid == (s + e) / 2 && w[..] == ws
      invariant Perfect(adj, k, ws[e]) && forall t :: 0 <= t < s ==> !Perfect(adj, k, ws[t])
      decreases e - s
    {
      var matchNum := FindMaxMatch(adj, k, w[mid]);
      PerfectWhenFull(adj, k, ws[mid], matchNum);
      if matchNum == k {
        e := mid;
      } else {
        NoneBelow(adj, k, ws, mid);
        s := mid + 1;
      }
      mid := (s + e) / 2;
    }
    least := w[e];
    Least(adj, k, ws, e);
  }

  lemma OneWeight(k: nat)
    requires k >= 1
    ensures k * k >= 1
  {
  }

  lemma SameLists(adj: Matrix, k: nat, a: seq<int>, b: seq<int>)
    requires Square(adj, k) && Lists(adj, k, a) && multiset(a) == multiset(b)
    ensures Lists(adj, k, b)
  {
    forall x ensures x in a <==> x in b {
      assert x in a <==> x in multiset(a);
      assert x in b <==> x in multiset(b);
    }
  }

  lemma Heavier(adj: Matrix, k: nat, sup: int, sup': int)
    requires Square(adj, k) && sup <= sup' && Perfect(adj, k, sup)
    ensures Perfect(adj, k, sup')
  {
    var pairs: set<(int, int)> :| IsMatching(adj, k, sup, pairs) && |pairs| == k;
    assert IsMatching(adj, k, sup', pairs);
  }

  lemma NoneBelow(adj: Matrix, k: nat, ws: seq<int>, mid: nat)
    requires Square(adj, k) && Increasing(ws) && mid < |ws| && !Perfect(adj, k, ws[mid])
    ensures forall t :: 0 <= t <= mid ==> !Perfect(adj, k, ws[t])
  {
    forall t | 0 <= t <= mid ensures !Perfect(adj, k, ws[t]) {
      if Perfect(adj, k, ws[t]) { Heavier(adj, k, ws[t], ws[mid]); }
    }
  }

  lemma PerfectWhenFull(adj: Matrix, k: nat, sup: int, n: nat)
    requires Square(adj, k) && IsMaximum(adj, k, sup, n)
    ensures n == k <==> Perfect(adj, k, sup)
  {
    if Perfect(adj, k, sup) {
      var pairs: set<(int, int)> :| IsMatching(adj, k, sup, pairs) && |pairs| == n;
      CoverBound(pairs, Range(k), {});
    }
  }

  lemma HeaviestSuffices(adj: Matrix, k: nat, ws: seq<int>)
    requires Square(adj, k) && Lists(adj, k, ws) && Increasing(ws) && ws != []
    ensures Perfect(adj, k, ws[|ws| - 1])
  {
    var m := seq(k, j => j);
    PairsOfSize(m, Range(k));
    forall p | p in PairsOf(m, Range(k)) ensures Edge(adj, k, ws[|ws| - 1], p.0, p.1) {
      var t :| 0 <= t < |ws| && ws[t] == adj[p.0][p.1];
    }
    assert IsMatching(adj, k, ws[|ws| - 1], PairsOf(m, Range(k)));
  }

  // A bound that is not itself a weight does no more than the greatest weight under it.
  lemma Least(adj: Matrix, k: nat, ws: seq<int>, e: nat)
    requires Square(adj, k) && k >= 1 && Lists(adj, k, ws) && Increasing(ws) && e < |ws|
    requires forall t :: 0 <= t < e ==> !Perfect(adj, k, ws[t])
    ensures IsWeight(adj, k, ws[e]) && forall sup :: sup < ws[e] ==> !Perfect(adj, k, sup)
  {
    assert ws[e] in ws;
    forall sup | sup < ws[e] ensures !Perfect(adj, k, sup) {
      if Perfect(adj, k, sup) {
        var pairs: set<(int, int)> :| IsMatching(adj, k, sup, pairs) && |pairs| == k;
        var p: (int, int) := SomeElement(pairs);
        var t :| 0 <= t < |ws| && ws[t] == adj[p.0][p.1];
        while t + 1 < e && ws[t + 1] <= sup
          invariant 0 <= t < e && ws[t] <= sup
        {
          t := t + 1;
        }
        forall q: (int, int) | q in pairs ensures Edge(adj, k, ws[t], q.0, q.1) {
          var z :| 0 <= z < |ws| && ws[z] == adj[q.0][q.1];
          assert z < e;
        }
        assert IsMatching(adj, k, ws[t], pairs);
      }
    }
  }
}
