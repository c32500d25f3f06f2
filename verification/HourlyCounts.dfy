/** Counting the lines of a log for each address and hour, with map, combine, sort and a reducer that
    keeps one running record. */
module HourlyCounts {

  const HOURS := 24
  const NO_IP := "NO"  // the reducer has not seen an address yet

  // ---------- strings ----------

  // The pieces of `s` between occurrences of `c`.
  function Pieces(s: string, c: char): (r: seq<string>)
    ensures r != []
  {
    if s == "" then [""]
    else
      var r := Pieces(s[1..], c);
      if s[0] == c then [""] + r else [[s[0]] + r[0]] + r[1..]
  }

  function DropEmptyEnd(r: seq<string>): seq<string> {
    if r != [] && r[|r| - 1] == "" then DropEmptyEnd(r[..|r| - 1]) else r
  }

  // Splitting at single characters: empty pieces at the end do not count.
  function Split(s: string, c: char): seq<string> {
    if c in s then DropEmptyEnd(Pieces(s, c)) else [s]
  }

  predicate IsDigits(s: string) {
    s != "" && forall k :: 0 <= k < |s| ==> '0' <= s[k] <= '9'
  }

  function DigitsValue(s: string): nat
    requires forall k :: 0 <= k < |s| ==> '0' <= s[k] <= '9'
  {
    if s == "" then 0 else 10 * DigitsValue(s[..|s| - 1]) + (s[|s| - 1] as nat - '0' as nat)
  }

  datatype Option<T> = None | Some(value: T)

  function ParseInt(s: string): Option<int> {
    if IsDigits(s) then Some(DigitsValue(s))
    else if s != "" && s[0] == '-' && IsDigits(s[1..]) then (var v: int := DigitsValue(s[1..]); Some(-v))
    else if s != "" && s[0] == '+' && IsDigits(s[1..]) then Some(DigitsValue(s[1..]))
    else None
  }

  // Strictly before, character by character.
  predicate Before(a: string, b: string) {
    b != "" && (a == "" || a[0] < b[0] || (a[0] == b[0] && Before(a[1..], b[1..])))
  }

  lemma {:induction false} BeforeTrans(a: string, b: string, c: string)
    requires Before(a, b) && Before(b, c)
    ensures Before(a, c)
    decreases |b|
  {
    if a != "" && a[0] == b[0] && b[0] == c[0] { BeforeTrans(a[1..], b[1..], c[1..]); }
  }

  lemma {:induction false} NotBeforeSelf(a: string)
    ensures !Before(a, a)
  {
    if a != "" { NotBeforeSelf(a[1..]); }
  }

  /** What lies between two strings with the same beginning has that beginning. */
  lemma {:induction false} BetweenSharesBeginning(p: string, a: string, b: string, c: string)
    requires p <= a && p <= c && Before(a, b) && Before(b, c)
    ensures p <= b
    decreases |p|
  {
    if p != "" {
      assert a[0] == p[0] == c[0];
      if b[0] == a[0] {
        assert p[1..] <= a[1..] && p[1..] <= c[1..];
        BetweenSharesBeginning(p[1..], a[1..], b[1..], c[1..]);
        assert p == [p[0]] + p[1..] && b == [b[0]] + b[1..];
      }
    }
  }

  // ---------- keys ----------

  function Key(ip: string, hour: string): string {
    ip + "#" + hour
  }

  function IpOf(key: string): string {
    Pieces(key, '#')[0]
  }

  function HourOf(key: string): Option<int> {
    if |Split(key, '#')| >= 2 then ParseInt(Split(key, '#')[1]) else None
  }

  predicate IsHour(h: Option<int>) {
    h.Some? && 0 <= h.value < HOURS
  }

  /** A key the reducer can read. */
  predicate ReadableKey(key: string) {
    '#' in key && IsHour(HourOf(key))
  }

  function HourIn(key: string): (h: nat)
    requires ReadableKey(key)
    ensures h < HOURS && HourOf(key) == Some(h)
  {
    HourOf(key).value
  }

  /** A key whose address is not the word the reducer starts with. */
  predicate GoodKey(key: string) {
    ReadableKey(key) && IpOf(key) != NO_IP
  }

  lemma {:induction false} PiecesOfKey(ip: string, rest: string)
    requires '#' !in ip
    ensures Pieces(Key(ip, rest), '#') == [ip] + Pieces(rest, '#')
  {
    var key := Key(ip, rest);
    if ip == "" {
      assert key[1..] == rest;
    } else {
      assert key[1..] == Key(ip[1..], rest);
      PiecesOfKey(ip[1..], rest);
      assert [ip[0]] + ip[1..] == ip;
    }
  }

  lemma {:induction false} NoPieces(s: string, c: char)
    requires c !in s
    ensures Pieces(s, c) == [s]
  {
    if s != "" {
      NoPieces(s[1..], c);
      assert [s[0]] + s[1..] == s;
    }
  }

  lemma KeyParts(ip: string, hour: string)
    requires '#' !in ip && ParseInt(hour).Some?
    ensures IpOf(Key(ip, hour)) == ip && HourOf(Key(ip, hour)) == ParseInt(hour)
  {
    NoHashInInt(hour);
    NoPieces(hour, '#');
    PiecesOfKey(ip, hour);
    assert Key(ip, hour)[|ip|] == '#';
    assert [ip] + [hour] == [ip, hour];
  }

  lemma NoHashInInt(s: string)
    requires ParseInt(s).Some?
    ensures '#' !in s && s != ""
  {
    if !IsDigits(s) {
      forall k | 0 < k < |s| ensures s[k] != '#' { assert s[k] == s[1..][k - 1]; }
    }
  }

  // A key begins with its address and the mark.
  lemma {:induction false} KeyBegins(key: string)
    requires '#' in key
    ensures IpOf(key) + "#" <= key && '#' !in IpOf(key)
  {
    if key[0] != '#' {
      assert '#' in key[1..];
      KeyBegins(key[1..]);
      assert key == [key[0]] + key[1..];
      assert IpOf(key) == [key[0]] + IpOf(key[1..]);
    }
  }

  lemma {:induction false} BeginningIsIp(ip: string, key: string)
    requires '#' !in ip && ip + "#" <= key
    ensures IpOf(key) == ip
  {
    var rest := key[|ip| + 1..];
    assert key == Key(ip, rest);
    PiecesOfKey(ip, rest);
  }

  /** In a sorted stream the keys of one address stand together. */
  lemma KeysTogether(a: string, b: string, c: string)
    requires '#' in a && '#' in c && IpOf(a) == IpOf(c) && Before(a, b) && Before(b, c)
    ensures IpOf(b) == IpOf(a)
  {
    KeyBegins(a);
    KeyBegins(c);
    BetweenSharesBeginning(IpOf(a) + "#", a, b, c);
    BeginningIsIp(IpOf(a), b);
  }

  // ---------- map ----------

  datatype Pair = Pair(key: string, n: nat)

  predicate Counted(line: string) {
    |Split(line, ' ')| == 10
  }

  function LineIp(line: string): string
    requires Counted(line)
  {
    Split(line, ' ')[0]
  }

  function LineHour(line: string): Option<string>
    requires Counted(line)
  {
    var t := Split(Split(line, ' ')[1], ':');
    if |t| >= 2 then Some(t[1]) else None
  }

  /** A line that is left out, or one with an hour, and with an address that has no mark in it. */
  predicate GoodLine(line: string) {
    Counted(line) ==>
      && LineHour(line).Some? && IsHour(ParseInt(LineHour(line).value))
      && '#' !in LineIp(line)
  }

  predicate HasHour(line: string) {
    Counted(line) ==> LineHour(line).Some?
  }

  // None: there is no hour to take from the line.
  method Map(line: string) returns (out: Option<seq<Pair>>)
    ensures out == if HasHour(line) then Some(Mapped(line)) else None
  {
    var tokens := Split(line, ' ');
    var pairs := [];
    if |tokens| == 10 {
      var time := Split(tokens[1], ':');
      if |time| < 2 {
        return None;
      }
      var outKey := tokens[0] + "#" + time[1];
      pairs := [Pair(outKey, 1)];
    }
    return Some(pairs);
  }

  function Mapped(line: string): seq<Pair>
    requires HasHour(line)
  {
    if Counted(line) then [Pair(Key(LineIp(line), LineHour(line).value), 1)] else []
  }

  function MapAll(log: seq<string>): seq<Pair>
    requires forall k :: 0 <= k < |log| ==> GoodLine(log[k])
  {
    if log == [] then []
    else
      assert GoodLine(log[|log| - 1]);
      MapAll(log[..|log| - 1]) + Mapped(log[|log| - 1])
  }

  // The pairs a record cell is about.
  predicate Selected(key: string, ip: string, hour: nat) {
    IpOf(key) == ip && HourOf(key) == Some(hour)
  }

  predicate LineSelected(line: string, ip: string, hour: nat)
    requires GoodLine(line)
  {
    Counted(line) && LineIp(line) == ip && ParseInt(LineHour(line).value) == Some(hour)
  }

  /** How many lines an address has in an hour. */
  function LineCount(log: seq<string>, ip: string, hour: nat): nat
    requires forall k :: 0 <= k < |log| ==> GoodLine(log[k])
  {
    if log == [] then 0
    else
      LineCount(log[..|log| - 1], ip, hour) + if LineSelected(log[|log| - 1], ip, hour) then 1 else 0
  }

  // ---------- weights ----------

  /** The numbers of the pairs whose key is chosen. */
  function Weight(ps: seq<Pair>, chosen: string -> bool): nat {
    if ps == [] then 0 else Weight(ps[..|ps| - 1], chosen) + if chosen(ps[|ps| - 1].key) then ps[|ps| - 1].n else 0
  }

  lemma {:induction false} WeightPlus(a: seq<Pair>, b: seq<Pair>, chosen: string -> bool)
    ensures Weight(a + b, chosen) == Weight(a, chosen) + Weight(b, chosen)
    decreases |b|
  {
    if b == [] {
      assert a + b == a;
    } else {
      assert (a + b)[..|a + b| - 1] == a + b[..|b| - 1];
      WeightPlus(a, b[..|b| - 1], chosen);
    }
  }

  lemma RemoveOne(b: seq<Pair>, x: Pair, chosen: string -> bool) returns (c: seq<Pair>)
    requires x in b
    ensures multiset(c) == multiset(b) - multiset{x}
    ensures Weight(b, chosen) == Weight(c, chosen) + if chosen(x.key) then x.n else 0
  {
    var k :| 0 <= k < |b| && b[k] == x;
    c := b[..k] + b[k + 1..];
    assert b == b[..k] + [x] + b[k + 1..];
    WeightPlus(b[..k], b[k + 1..], chosen);
    WeightPlus(b[..k] + [x], b[k + 1..], chosen);
    WeightPlus(b[..k], [x], chosen);
    assert [x][..0] == [];
  }

  lemma {:induction false} WeightOrder(a: seq<Pair>, b: seq<Pair>, chosen: string -> bool)
    requires multiset(a) == multiset(b)
    ensures Weight(a, chosen) == Weight(b, chosen)
    decreases |a|
  {
    if a == [] {
      assert |multiset(b)| == 0;
    } else {
      var x := a[|a| - 1];
      assert a == a[..|a| - 1] + [x];
      assert multiset(a[..|a| - 1]) == multiset(a) - multiset{x};
      assert x in multiset(b);
      var c := RemoveOne(b, x, chosen);
      WeightOrder(a[..|a| - 1], c, chosen);
    }
  }

  function SelectedBy(ip: string, hour: nat): string -> bool {
    key => Selected(key, ip, hour)
  }

  /** What the map gives weighs as much as there are lines. */
  lemma {:induction false} MapWeighs(log: seq<string>, ip: string, hour: nat)
    requires forall k :: 0 <= k < |log| ==> GoodLine(log[k])
    ensures Weight(MapAll(log), SelectedBy(ip, hour)) == LineCount(log, ip, hour)
    decreases |log|
  {
    if log != [] {
      var line := log[|log| - 1];
      MapWeighs(log[..|log| - 1], ip, hour);
      WeightPlus(MapAll(log[..|log| - 1]), Mapped(line), SelectedBy(ip, hour));
      MappedWeighs(line, ip, hour);
    }
  }

  lemma MappedWeighs(line: string, ip: string, hour: nat)
    requires GoodLine(line)
    ensures Weight(Mapped(line), SelectedBy(ip, hour))
      == if LineSelected(line, ip, hour) then 1 else 0
  {
    if Counted(line) {
      KeyParts(LineIp(line), LineHour(line).value);
      assert Mapped(line)[..0] == [];
    }
  }

  // ---------- combine ----------

  function Sum(values: seq<nat>): nat {
    if values == [] then 0 else Sum(values[..|values| - 1]) + values[|values| - 1]
  }

  method Combine(key: string, values: seq<nat>) returns (out: Pair)
    ensures out == Pair(key, Sum(values))
  {
    var sum, k := 0, 0;
    while k < |values|
      invariant k <= |values| && sum == Sum(values[..k])
    {
      assert values[..k + 1][..k] == values[..k];
      sum := sum + values[k];
      k := k + 1;
    }
    assert values[..k] == values;
    out := Pair(key, sum);
  }

  function WithKey(key: string, values: seq<nat>): seq<Pair> {
    if values == [] then [] else WithKey(key, values[..|values| - 1]) + [Pair(key, values[|values| - 1])]
  }

  /** Some pairs with the same key have been replaced by one with their sum. */
  ghost predicate Combined(a: seq<Pair>, b: seq<Pair>) {
    exists key, values, rest :: values != [] && CombinedBy(a, b, key, values, rest)
  }

  ghost predicate CombinedBy(a: seq<Pair>, b: seq<Pair>, key: string, values: seq<nat>, rest: seq<Pair>) {
    multiset(a) == multiset(rest + WithKey(key, values)) && multiset(b) == multiset(rest + [Pair(key, Sum(values))])
  }

  lemma {:induction false} WithKeyWeighs(key: string, values: seq<nat>, chosen: string -> bool)
    ensures Weight(WithKey(key, values), chosen) == if chosen(key) then Sum(values) else 0
    decreases |values|
  {
    if values != [] {
      WithKeyWeighs(key, values[..|values| - 1], chosen);
      var last := [Pair(key, values[|values| - 1])];
      WeightPlus(WithKey(key, values[..|values| - 1]), last, chosen);
      assert last[..0] == [];
    }
  }

  lemma {:induction false} WithKeyKeys(key: string, values: seq<nat>)
    ensures forall x :: x in WithKey(key, values) ==> x.key == key
    ensures values != [] ==> Pair(key, values[|values| - 1]) in WithKey(key, values)
    decreases |values|
  {
    if values != [] { WithKeyKeys(key, values[..|values| - 1]); }
  }

  ghost predicate HasKey(ps: seq<Pair>, key: string) {
    exists k :: 0 <= k < |ps| && ps[k].key == key
  }

  lemma CombinedWeighs(a: seq<Pair>, b: seq<Pair>, chosen: string -> bool)
    requires Combined(a, b)
    ensures Weight(a, chosen) == Weight(b, chosen)
  {
    var key, values, rest :| values != [] && CombinedBy(a, b, key, values, rest);
    var parts, one := WithKey(key, values), [Pair(key, Sum(values))];
    WeightOrder(a, rest + parts, chosen);
    WeightOrder(b, rest + one, chosen);
    WeightPlus(rest, parts, chosen);
    WeightPlus(rest, one, chosen);
    WithKeyWeighs(key, values, chosen);
    assert one[..0] == [];
  }

  lemma CombinedKeys(a: seq<Pair>, b: seq<Pair>)
    requires Combined(a, b)
    ensures forall key :: HasKey(a, key) <==> HasKey(b, key)
  {
    var key, values, rest :| values != [] && CombinedBy(a, b, key, values, rest);
    var parts, one := WithKey(key, values), [Pair(key, Sum(values))];
    OnlyKey(key, values);
    assert multiset(a) == multiset(rest + parts) && multiset(b) == multiset(rest + one);
    hide HasKey, WithKey, Sum;
    forall k
      ensures HasKey(a, k) <==> HasKey(b, k)
    {
      SameKeys(a, rest, parts, k);
      SameKeys(b, rest, one, k);
    }
  }

  lemma OnlyKey(key: string, values: seq<nat>)
    requires values != []
    ensures forall k :: HasKey(WithKey(key, values), k) <==> k == key
    ensures forall k, n :: HasKey([Pair(key, n)], k) <==> k == key
  {
    WithKeyKeys(key, values);
    var parts := WithKey(key, values);
    assert parts[|parts| - 1].key == key;
    forall k, n
      ensures HasKey([Pair(key, n)], k) <==> k == key
    {
      assert [Pair(key, n)][0].key == key;
    }
  }

  lemma SameKeys(a: seq<Pair>, b: seq<Pair>, c: seq<Pair>, key: string)
    requires multiset(a) == multiset(b + c)
    ensures HasKey(a, key) <==> HasKey(b, key) || HasKey(c, key)
  {
    if HasKey(a, key) {
      var k :| 0 <= k < |a| && a[k].key == key;
      assert a[k] in multiset(b + c);
      assert a[k] in b || a[k] in c;
    }
    if HasKey(b, key) {
      var k :| 0 <= k < |b| && b[k].key == key;
      assert (b + c)[k] in multiset(a);
    }
    if HasKey(c, key) {
      var k :| 0 <= k < |c| && c[k].key == key;
      assert (b + c)[|b| + k] in multiset(a);
    }
  }

  /** However often the combiner is applied, and to whatever. */
  ghost predicate CombinedRun(run: seq<seq<Pair>>) {
    run != [] && forall k :: 0 <= k < |run| - 1 ==> Combined(run[k], run[k + 1])
  }

  lemma {:induction false} CombinedRunKeeps(run: seq<seq<Pair>>, chosen: string -> bool)
    requires CombinedRun(run)
    ensures Weight(run[0], chosen) == Weight(run[|run| - 1], chosen)
    ensures forall key :: HasKey(run[0], key) <==> HasKey(run[|run| - 1], key)
    decreases |run|
  {
    if |run| > 1 {
      assert Combined(run[|run| - 2], run[|run| - 1]);
      hide Combined, Weight, HasKey;
      CombinedRunKeeps(run[..|run| - 1], chosen);
      CombinedWeighs(run[|run| - 2], run[|run| - 1], chosen);
      CombinedKeys(run[|run| - 2], run[|run| - 1]);
    }
  }

  // ---------- sort ----------

  datatype Group = Group(key: string, values: seq<nat>)

  // Keys strictly increasing, all of them readable.
  ghost predicate Ordered(gs: seq<Group>) {
    && (forall i, j :: 0 <= i < j < |gs| ==> Before(gs[i].key, gs[j].key))
    && (forall i :: 0 <= i < |gs| ==> ReadableKey(gs[i].key))
  }

  // Keys strictly increasing, all of them good.
  ghost predicate Sorted(gs: seq<Group>) {
    && (forall i, j :: 0 <= i < j < |gs| ==> Before(gs[i].key, gs[j].key))
    && (forall i :: 0 <= i < |gs| ==> GoodKey(gs[i].key))
  }

  ghost predicate HasGroup(gs: seq<Group>, key: string) {
    exists i :: 0 <= i < |gs| && gs[i].key == key
  }

  function IsKey(key: string): string -> bool {
    k => k == key
  }

  /** What a reducer is given: the keys whose address is its own, in order, each with all its numbers. */
  ghost predicate Shuffled(ps: seq<Pair>, mine: string -> bool, gs: seq<Group>) {
    && Ordered(gs)
    && (forall key :: HasGroup(gs, key) <==> HasKey(ps, key) && mine(IpOf(key)))
    && (forall i :: 0 <= i < |gs| ==> Sum(gs[i].values) == Weight(ps, IsKey(gs[i].key)))
  }

  // ---------- reduce ----------

  datatype Record = Record(ip: string, total: nat, cells: seq<nat>)

  function AllCells(): (r: seq<nat>)
    ensures |r| == HOURS && forall h :: 0 <= h < HOURS ==> r[h] == 0
  {
    seq(HOURS, _ => 0)
  }

  function CellOf(gs: seq<Group>, ip: string, hour: nat): nat {
    if gs == [] then 0
    else
      var g := gs[|gs| - 1];
      CellOf(gs[..|gs| - 1], ip, hour) + if Selected(g.key, ip, hour) then Sum(g.values) else 0
  }

  function CellsOf(gs: seq<Group>, ip: string): (r: seq<nat>)
    ensures |r| == HOURS && forall h :: 0 <= h < HOURS ==> r[h] == CellOf(gs, ip, h)
  {
    seq(HOURS, h requires 0 <= h < HOURS => CellOf(gs, ip, h))
  }

  ghost predicate HasIp(gs: seq<Group>, ip: string) {
    exists i :: 0 <= i < |gs| && IpOf(gs[i].key) == ip
  }

  /** The records of all addresses of `gs` but `open`, each once and complete. */
  ghost predicate Records(out: seq<Record>, gs: seq<Group>, open: string) {
    && (forall k :: 0 <= k < |out| ==> out[k] == Record(out[k].ip, Sum(CellsOf(gs, out[k].ip)), CellsOf(gs, out[k].ip)))
    && (forall j, k :: 0 <= j < k < |out| ==> out[j].ip != out[k].ip)
    && (forall ip :: (exists k :: 0 <= k < |out| && out[k].ip == ip) <==> HasIp(gs, ip) && ip != open)
  }

  /** The records of all addresses of `gs`, each once and complete. */
  ghost predicate Complete(out: seq<Record>, gs: seq<Group>) {
    && (forall k :: 0 <= k < |out| ==> out[k] == Record(out[k].ip, Sum(CellsOf(gs, out[k].ip)), CellsOf(gs, out[k].ip)))
    && (forall j, k :: 0 <= j < k < |out| ==> out[j].ip != out[k].ip)
    && (forall ip :: (exists k :: 0 <= k < |out| && out[k].ip == ip) <==> HasIp(gs, ip))
  }

  /** No record is about the word the reducer starts with. */
  ghost predicate OfAddresses(out: seq<Record>) {
    forall k :: 0 <= k < |out| ==> out[k].ip != NO_IP
  }

  // One group more changes the cells of its own address only, and there one cell.
  lemma NextCells(gs: seq<Group>, g: Group, ip: string)
    requires ReadableKey(g.key)
    ensures CellsOf(gs + [g], ip)
      == if IpOf(g.key) == ip then
           CellsOf(gs, ip)[HourIn(g.key) := CellsOf(gs, ip)[HourIn(g.key)] + Sum(g.values)]
         else CellsOf(gs, ip)
  {
    assert (gs + [g])[..|gs|] == gs;
  }

  lemma NextIps(gs: seq<Group>, g: Group)
    ensures forall ip :: HasIp(gs + [g], ip) <==> HasIp(gs, ip) || IpOf(g.key) == ip
  {
    forall ip
      ensures HasIp(gs + [g], ip) <==> HasIp(gs, ip) || IpOf(g.key) == ip
    {
      var more := gs + [g];
      assert more[|gs|] == g;
      if HasIp(gs, ip) {
        var i :| 0 <= i < |gs| && IpOf(gs[i].key) == ip;
        assert more[i] == gs[i];
      }
    }
  }

  lemma RecordIp(out: seq<Record>, gs: seq<Group>, open: string, k: nat)
    requires Records(out, gs, open) && k < |out|
    ensures HasIp(gs, out[k].ip) && out[k].ip != open
  {
    var ip := out[k].ip;
    assert exists j :: 0 <= j < |out| && out[j].ip == ip;
  }

  // Another group of the open address leaves the records complete.
  lemma SameIp(out: seq<Record>, gs: seq<Group>, g: Group, open: string)
    requires Records(out, gs, open) && GoodKey(g.key) && (IpOf(g.key) == open)
    ensures Records(out, gs + [g], open)
  {
    NextIps(gs, g);
    forall k | 0 <= k < |out|
      ensures out[k].ip != open && CellsOf(gs + [g], out[k].ip) == CellsOf(gs, out[k].ip)
    {
      RecordIp(out, gs, open, k);
      NextCells(gs, g, out[k].ip);
    }
    hide CellsOf, HasIp, IpOf;
  }

  // The open address gets its record, because the new group belongs to an address not seen so far.
  lemma NewIp(out: seq<Record>, gs: seq<Group>, g: Group, open: string)
    requires Records(out, gs, open) && GoodKey(g.key) && IpOf(g.key) != open && HasIp(gs, open) && !HasIp(gs, IpOf(g.key))
    ensures Records(out + [Record(open, Sum(CellsOf(gs, open)), CellsOf(gs, open))], gs + [g], IpOf(g.key))
  {
    var more := out + [Record(open, Sum(CellsOf(gs, open)), CellsOf(gs, open))];
    NextIps(gs, g);
    Closed(out, gs, open);
    forall k | 0 <= k < |more|
      ensures CellsOf(gs + [g], more[k].ip) == CellsOf(gs, more[k].ip)
    {
      NextCells(gs, g, more[k].ip);
      if k < |out| { RecordIp(out, gs, open, k); }
    }
    hide CellsOf, HasIp, IpOf;
  }

  // With the record of the open address all addresses have their record.
  lemma Closed(out: seq<Record>, gs: seq<Group>, open: string)
    requires Records(out, gs, open) && HasIp(gs, open)
    ensures forall none | !HasIp(gs, none) ::
      Records(out + [Record(open, Sum(CellsOf(gs, open)), CellsOf(gs, open))], gs, none)
  {
    var more := out + [Record(open, Sum(CellsOf(gs, open)), CellsOf(gs, open))];
    hide CellsOf, HasIp;
    forall ip
      ensures (exists k :: 0 <= k < |more| && more[k].ip == ip) <==> HasIp(gs, ip)
    {
      if ip == open {
        assert more[|out|].ip == ip;
      } else if k :| 0 <= k < |out| && out[k].ip == ip {
        assert more[k].ip == ip;
      }
    }
  }

  // In a sorted stream an address that is left does not come back.
  lemma NotSeen(gs: seq<Group>, g: Group)
    requires Sorted(gs + [g]) && gs != [] && IpOf(gs[|gs| - 1].key) != IpOf(g.key)
    ensures !HasIp(gs, IpOf(g.key))
  {
    var more := gs + [g];
    var last := |gs| - 1;
    if HasIp(gs, IpOf(g.key)) {
      var i :| 0 <= i < |gs| && IpOf(gs[i].key) == IpOf(g.key);
      assert more[i] == gs[i] && more[last] == gs[last] && more[|gs|] == g;
      KeysTogether(more[i].key, more[last].key, more[|gs|].key);
    }
  }

  lemma {:induction false} NoCells(gs: seq<Group>, ip: string)
    requires !HasIp(gs, ip)
    ensures CellsOf(gs, ip) == AllCells()
    decreases |gs|
  {
    if gs != [] {
      var g := gs[|gs| - 1];
      assert IpOf(g.key) != ip;
      var rest := gs[..|gs| - 1];
      NextIps(rest, g);
      assert gs == rest + [g];
      NoCells(rest, ip);
      assert forall h :: 0 <= h < HOURS ==> CellOf(gs, ip, h) == CellsOf(gs[..|gs| - 1], ip)[h] == 0;
    }
  }

  lemma LastGood(gs: seq<Group>, g: Group)
    requires Sorted(gs + [g])
    ensures GoodKey(g.key) && ReadableKey(g.key)
  {
    assert (gs + [g])[|gs|] == g;
  }

  lemma FirstIp(out: seq<Record>, g: Group)
    requires Records(out, [], NO_IP) && GoodKey(g.key)
    ensures Records(out, [] + [g], IpOf(g.key)) && CellsOf([], IpOf(g.key)) == CellsOf([], NO_IP)
  {
    NextIps([], g);
    if out != [] { RecordIp(out, [], NO_IP, 0); }
  }

  /** The groups `gs` are in the records `out`, except those of the last address `ip`, which are in `cells`. */
  ghost predicate SeenIn(gs: seq<Group>, ip: string, cells: seq<nat>, out: seq<Record>) {
    && Sorted(gs) && ip == (if gs == [] then NO_IP else IpOf(gs[|gs| - 1].key))
    && cells == CellsOf(gs, ip) && Records(out, gs, ip)
  }

  // What the reducer has after one more group.
  lemma SeenNext(gs: seq<Group>, g: Group, ip: string, cells: seq<nat>, out: seq<Record>)
    requires Sorted(gs + [g]) && SeenIn(gs, ip, cells, out)
    ensures GoodKey(g.key) && ReadableKey(g.key) && |cells| == HOURS
    ensures var cur, t := IpOf(g.key), HourIn(g.key);
      if ip != NO_IP && ip != cur then
        SeenIn(gs + [g], cur, AllCells()[t := Sum(g.values)], out + [Record(ip, Sum(cells), cells)])
      else
        SeenIn(gs + [g], cur, cells[t := cells[t] + Sum(g.values)], out)
  {
    LastGood(gs, g);
    hide *;
    if gs == [] {
      SeenFirst(gs, g, ip, cells, out);
    } else if IpOf(g.key) == ip {
      SeenSame(gs, g, ip, cells, out);
    } else {
      SeenOther(gs, g, ip, cells, out);
    }
  }

  lemma SeenFirst(gs: seq<Group>, g: Group, ip: string, cells: seq<nat>, out: seq<Record>)
    requires Sorted(gs + [g]) && SeenIn(gs, ip, cells, out) && GoodKey(g.key) && ReadableKey(g.key) && gs == []
    ensures ip == NO_IP && |cells| == HOURS
    ensures var t := HourIn(g.key); SeenIn(gs + [g], IpOf(g.key), cells[t := cells[t] + Sum(g.values)], out)
  {
    assert (gs + [g])[|gs|] == g;
    NextCells(gs, g, IpOf(g.key));
    FirstIp(out, g);
    hide Sorted, Records, CellsOf, HourOf, IpOf, Sum;
  }

  lemma SeenSame(gs: seq<Group>, g: Group, ip: string, cells: seq<nat>, out: seq<Record>)
    requires Sorted(gs + [g]) && SeenIn(gs, ip, cells, out) && GoodKey(g.key) && ReadableKey(g.key) && gs != [] && IpOf(g.key) == ip
    ensures |cells| == HOURS
    ensures var t := HourIn(g.key); SeenIn(gs + [g], IpOf(g.key), cells[t := cells[t] + Sum(g.values)], out)
  {
    hide *;
    var t := HourIn(g.key);
    SeenParts(gs, ip, cells, out);
    NextCells(gs, g, ip);
    SameIp(out, gs, g, ip);
    SeenJoin(gs, g, cells[t := cells[t] + Sum(g.values)], out);
  }

  lemma SeenOther(gs: seq<Group>, g: Group, ip: string, cells: seq<nat>, out: seq<Record>)
    requires Sorted(gs + [g]) && SeenIn(gs, ip, cells, out) && GoodKey(g.key) && ReadableKey(g.key) && gs != [] && IpOf(g.key) != ip
    ensures ip != NO_IP && |cells| == HOURS
    ensures SeenIn(gs + [g], IpOf(g.key), AllCells()[HourIn(g.key) := Sum(g.values)], out + [Record(ip, Sum(cells), cells)])
  {
    hide *;
    var cur, t := IpOf(g.key), HourIn(g.key);
    SeenParts(gs, ip, cells, out);
    LastIp(gs);
    NotSeen(gs, g);
    NewIp(out, gs, g, ip);
    NextCells(gs, g, cur);
    NoCells(gs, cur);
    SeenJoin(gs, g, AllCells()[t := Sum(g.values)], out + [Record(ip, Sum(cells), cells)]);
  }

  lemma SeenParts(gs: seq<Group>, ip: string, cells: seq<nat>, out: seq<Record>)
    requires SeenIn(gs, ip, cells, out) && gs != []
    ensures Sorted(gs) && ip == IpOf(gs[|gs| - 1].key) && ip != NO_IP && cells == CellsOf(gs, ip) && Records(out, gs, ip)
  {
    assert GoodKey(gs[|gs| - 1].key);
  }

  lemma SeenJoin(gs: seq<Group>, g: Group, cells: seq<nat>, out: seq<Record>)
    requires Sorted(gs + [g]) && cells == CellsOf(gs + [g], IpOf(g.key)) && Records(out, gs + [g], IpOf(g.key))
    ensures SeenIn(gs + [g], IpOf(g.key), cells, out)
  {
    assert (gs + [g])[|gs|] == g;
    hide Sorted, Records, CellsOf, IpOf;
  }

  lemma LastIp(gs: seq<Group>)
    requires gs != []
    ensures HasIp(gs, IpOf(gs[|gs| - 1].key))
  {
  }

  class Reducer {
    var cnt: array<nat>
    var ip: string
    var outputs: seq<Record>

    constructor Setup()
      ensures fresh(cnt) && cnt.Length == HOURS && cnt[..] == AllCells() && ip == NO_IP && outputs == [] && Seen([])
    {
      cnt := new nat[HOURS](_ => 0);
      ip := NO_IP;
      outputs := [];
    }

    /** The groups seen so far are in the records, except those of the last address, which are in `cnt`. */
    ghost predicate Seen(gs: seq<Group>)
      reads this, cnt
    {
      cnt.Length == HOURS && SeenIn(gs, ip, cnt[..], outputs)
    }

    // Writes the record of the current address.
    method Flush()
      requires cnt.Length == HOURS
      modifies this`outputs
      ensures outputs == old(outputs) + [Record(ip, Sum(cnt[..]), cnt[..])]
    {
      var sum, i := 0, 0;
      while i < HOURS
        invariant 0 <= i <= HOURS && sum == Sum(cnt[..i])
      {
        assert cnt[..i + 1][..i] == cnt[..i];
        sum := sum + cnt[i];
        i := i + 1;
      }
      assert cnt[..HOURS] == cnt[..];
      outputs := outputs + [Record(ip, sum, cnt[..])];
    }

    /** One more key with its numbers: the record of another address is written first. */
    method Reduce(key: string, values: seq<nat>)
      requires cnt.Length == HOURS && ReadableKey(key)
      modifies this, cnt
      ensures cnt == old(cnt) && ip == IpOf(key)
      ensures var t := HourIn(key);
        if old(ip) != NO_IP && old(ip) != ip then
          outputs == old(outputs + [Record(ip, Sum(cnt[..]), cnt[..])]) && cnt[..] == AllCells()[t := Sum(values)]
        else
          outputs == old(outputs) && cnt[..] == old(cnt[..])[t := old(cnt[..])[t] + Sum(values)]
    {
      hide HourOf, HourIn, ReadableKey, IpOf, Sum;
      var curIP := IpOf(key);
      var time := HourIn(key);
      if curIP != ip && ip != NO_IP {
        Flush();
        ip := curIP;
        forall i | 0 <= i < HOURS { cnt[i] := 0; }
        assert cnt[..] == AllCells();
      }
      if ip == NO_IP {
        ip := curIP;
      }
      var pair := Combine(key, values);
      cnt[time] := cnt[time] + pair.n;
    }

    /** One more group of an ordered stream. */
    method ReduceNext(g: Group, ghost gs: seq<Group>)
      requires cnt.Length == HOURS && ReadableKey(g.key) && OfAddresses(outputs)
      requires Sorted(gs + [g]) ==> Seen(gs)
      modifies this, cnt
      ensures cnt == old(cnt) && OfAddresses(outputs)
      ensures Sorted(gs + [g]) ==> Seen(gs + [g])
    {
      hide SeenIn, Sorted, ReadableKey, HourIn, IpOf, Sum, AllCells;
      if Sorted(gs + [g]) {
        SeenNext(gs, g, ip, cnt[..], outputs);
      }
      Reduce(g.key, g.values);
    }

    lemma LastSeen(gs: seq<Group>)
      requires Seen(gs) && gs != []
      ensures HasIp(gs, ip)
    {
    }

    method Finish()
      requires cnt.Length == HOURS
      modifies this`outputs
      ensures outputs == old(outputs) + if ip == NO_IP then [] else [Record(ip, Sum(cnt[..]), cnt[..])]
    {
      if ip == NO_IP {
        return;
      }
      Flush();
    }

    /** After all groups every address has its record, if none of them is the word at the start. */
    method Cleanup(ghost gs: seq<Group>)
      requires cnt.Length == HOURS && OfAddresses(outputs)
      requires Sorted(gs) ==> Seen(gs)
      modifies this`outputs
      ensures OfAddresses(outputs) && (Sorted(gs) ==> Records(outputs, gs, NO_IP))
    {
      if ip != NO_IP && Sorted(gs) {
        LastSeen(gs);
        NoNoIp(gs);
        Closed(outputs, gs, ip);
      }
      Finish();
    }

    lemma NoNoIp(gs: seq<Group>)
      requires Sorted(gs)
      ensures !HasIp(gs, NO_IP)
    {
    }
  }

  /** A reducer given an ordered stream writes one complete record for every address in it if and only
      if the word it starts with is not among them. */
  method RunReducer(gs: seq<Group>) returns (out: seq<Record>)
    requires Ordered(gs)
    ensures OfAddresses(out)
    ensures Complete(out, gs) <==> !HasIp(gs, NO_IP)
  {
    hide Sorted, SeenIn, Complete, HasIp, IpOf, ReadableKey, Ordered;
    var r := new Reducer.Setup();
    var k := 0;
    assert gs[..0] == [];
    while k < |gs|
      invariant k <= |gs| && fresh(r) && fresh(r.cnt) && r.cnt.Length == HOURS
      invariant OfAddresses(r.outputs)
      invariant Sorted(gs[..k]) ==> r.Seen(gs[..k])
    {
      assert gs[..k] + [gs[k]] == gs[..k + 1];
      SortedPart(gs[..k + 1], k);
      assert gs[..k + 1][..k] == gs[..k];
      OrderedAt(gs, k);
      r.ReduceNext(gs[k], gs[..k]);
      k := k + 1;
    }
    assert gs[..k] == gs;
    r.Cleanup(gs);
    out := r.outputs;
    CompleteOrNot(out, gs);
  }

  lemma OrderedAt(gs: seq<Group>, k: nat)
    requires Ordered(gs) && k < |gs|
    ensures ReadableKey(gs[k].key)
  {
  }

  lemma CompleteOrNot(out: seq<Record>, gs: seq<Group>)
    requires Ordered(gs) && OfAddresses(out) && (Sorted(gs) ==> Records(out, gs, NO_IP))
    ensures Complete(out, gs) <==> !HasIp(gs, NO_IP)
  {
    if HasIp(gs, NO_IP) {
      assert !exists k :: 0 <= k < |out| && out[k].ip == NO_IP;
    } else {
      assert Sorted(gs);
      hide CellsOf, HasIp, Ordered, Sorted;
    }
  }

  lemma SortedPart(gs: seq<Group>, k: nat)
    requires k <= |gs|
    ensures Sorted(gs) ==> Sorted(gs[..k])
  {
  }

  /** The word the reducer starts with is no good as an address: its lines go to the next address. */
  method WordAsAddress() returns (out: seq<Record>)
    ensures out == [Record("X", 2, AllCells()[1 := 1][2 := 1])]
  {
    WordKeys();
    hide Key, IpOf, HourOf, HourIn, ReadableKey, Sum, AllCells, Sorted, Reducer.Seen;
    var r := new Reducer.Setup();
    assert r.cnt[..] == AllCells();
    r.Reduce(Key("NO", "1"), [1]);
    assert r.cnt[..] == AllCells()[1 := 1];
    r.Reduce(Key("X", "2"), [1]);
    r.Finish();
    out := r.outputs;
  }

  lemma WordKeys()
    ensures IpOf(Key("NO", "1")) == "NO" && HourOf(Key("NO", "1")) == Some(1)
    ensures IpOf(Key("X", "2")) == "X" && HourOf(Key("X", "2")) == Some(2)
    ensures ReadableKey(Key("NO", "1")) && ReadableKey(Key("X", "2"))
    ensures Sum([1]) == 1 && Sum(AllCells()[1 := 1][2 := 1]) == 2
  {
    OneDigit('1');
    OneDigit('2');
    KeyParts("NO", "1");
    KeyParts("X", "2");
    assert [1][..0] == [];
    SumZeros(HOURS);
    SumUpdate(AllCells(), 1, 1);
    SumUpdate(AllCells()[1 := 1], 2, 1);
  }

  lemma {:induction false} SumUpdate(s: seq<nat>, k: nat, v: nat)
    requires k < |s|
    ensures Sum(s[k := v]) == Sum(s) - s[k] + v
    decreases |s|
  {
    var t := s[k := v];
    if k < |s| - 1 {
      assert t[..|t| - 1] == s[..|s| - 1][k := v];
      SumUpdate(s[..|s| - 1], k, v);
    } else {
      assert t[..|t| - 1] == s[..|s| - 1];
    }
  }

  lemma {:induction false} SumZeros(n: nat)
    ensures Sum(seq(n, _ => 0)) == 0
  {
    if n > 0 {
      assert seq(n, _ => 0)[..n - 1] == seq(n - 1, _ => 0);
      SumZeros(n - 1);
    }
  }

  lemma OneDigit(c: char)
    requires '0' <= c <= '9'
    ensures DigitsValue([c]) == c as nat - '0' as nat && ParseInt([c]) == Some(DigitsValue([c]))
  {
    assert [c][..0] == "";
  }

  // ---------- the whole job ----------

  // The numbers of each selected key, key by key.
  function KeyByKey(gs: seq<Group>, ps: seq<Pair>, ip: string, hour: nat): nat {
    if gs == [] then 0
    else
      var key := gs[|gs| - 1].key;
      KeyByKey(gs[..|gs| - 1], ps, ip, hour) + if Selected(key, ip, hour) then Weight(ps, IsKey(key)) else 0
  }

  ghost predicate DistinctKeys(gs: seq<Group>) {
    forall i, j :: 0 <= i < j < |gs| ==> gs[i].key != gs[j].key
  }

  lemma {:induction false} OnePairMore(gs: seq<Group>, ps: seq<Pair>, p: Pair, ip: string, hour: nat)
    requires DistinctKeys(gs)
    ensures KeyByKey(gs, ps + [p], ip, hour)
      == KeyByKey(gs, ps, ip, hour) + if Selected(p.key, ip, hour) && HasGroup(gs, p.key) then p.n else 0
    decreases |gs|
  {
    hide Selected;
    if gs != [] {
      var rest, g := gs[..|gs| - 1], gs[|gs| - 1];
      OnePairMore(rest, ps, p, ip, hour);
      assert (ps + [p])[..|ps|] == ps;
      assert gs == rest + [g];
      GroupNext(rest, g, p.key);
    }
  }

  lemma GroupNext(gs: seq<Group>, g: Group, key: string)
    ensures HasGroup(gs + [g], key) <==> HasGroup(gs, key) || g.key == key
  {
    var more := gs + [g];
    assert more[|gs|] == g;
    if HasGroup(gs, key) {
      var i :| 0 <= i < |gs| && gs[i].key == key;
      assert more[i] == gs[i];
    }
  }

  lemma {:induction false} KeysAddUp(gs: seq<Group>, ps: seq<Pair>, ip: string, hour: nat)
    requires DistinctKeys(gs) && forall key :: HasKey(ps, key) && Selected(key, ip, hour) ==> HasGroup(gs, key)
    ensures KeyByKey(gs, ps, ip, hour) == Weight(ps, SelectedBy(ip, hour))
    decreases |ps|
  {
    hide Selected;
    if ps == [] {
      NoPairs(gs, ip, hour);
    } else {
      var rest, p := ps[..|ps| - 1], ps[|ps| - 1];
      forall key | HasKey(rest, key)
        ensures HasKey(ps, key)
      {
        var k :| 0 <= k < |rest| && rest[k].key == key;
        assert ps[k].key == key;
      }
      assert HasKey(ps, p.key);
      KeysAddUp(gs, rest, ip, hour);
      OnePairMore(gs, rest, p, ip, hour);
      assert ps == rest + [p];
    }
  }

  lemma {:induction false} NoPairs(gs: seq<Group>, ip: string, hour: nat)
    ensures KeyByKey(gs, [], ip, hour) == 0
    decreases |gs|
  {
    if gs != [] { NoPairs(gs[..|gs| - 1], ip, hour); }
  }

  lemma {:induction false} CellIsKeyByKey(gs: seq<Group>, ps: seq<Pair>, ip: string, hour: nat)
    requires forall i :: 0 <= i < |gs| ==> Sum(gs[i].values) == Weight(ps, IsKey(gs[i].key))
    ensures CellOf(gs, ip, hour) == KeyByKey(gs, ps, ip, hour)
    decreases |gs|
  {
    if gs != [] { CellIsKeyByKey(gs[..|gs| - 1], ps, ip, hour); }
  }

  lemma OrderedDistinct(gs: seq<Group>)
    requires Ordered(gs)
    ensures DistinctKeys(gs)
  {
    forall i, j | 0 <= i < j < |gs|
      ensures gs[i].key != gs[j].key
    {
      NotBeforeSelf(gs[i].key);
    }
  }

  /** A cell weighs what all the pairs it is about weigh. */
  lemma CellsWeigh(ps: seq<Pair>, mine: string -> bool, gs: seq<Group>, ip: string, hour: nat)
    requires Shuffled(ps, mine, gs) && mine(ip)
    ensures CellOf(gs, ip, hour) == Weight(ps, SelectedBy(ip, hour))
  {
    OrderedDistinct(gs);
    CellIsKeyByKey(gs, ps, ip, hour);
    hide Ordered, HasGroup, HasKey, CellOf, Weight;
    forall key | HasKey(ps, key) && Selected(key, ip, hour)
      ensures HasGroup(gs, key)
    {
      assert mine(IpOf(key));
    }
    KeysAddUp(gs, ps, ip, hour);
  }

  ghost predicate InLog(log: seq<string>, ip: string) {
    exists k :: 0 <= k < |log| && Counted(log[k]) && LineIp(log[k]) == ip
  }

  ghost predicate KeyFor(ps: seq<Pair>, ip: string) {
    exists key :: HasKey(ps, key) && IpOf(key) == ip
  }

  lemma {:induction false} MapHasIps(log: seq<string>, ip: string)
    requires forall k :: 0 <= k < |log| ==> GoodLine(log[k])
    ensures KeyFor(MapAll(log), ip) <==> InLog(log, ip)
    decreases |log|
  {
    if log != [] {
      var rest, line := log[..|log| - 1], log[|log| - 1];
      MapHasIps(rest, ip);
      assert InLog(log, ip) <==> InLog(rest, ip) || (Counted(line) && LineIp(line) == ip) by { LogNext(rest, line, ip); assert rest + [line] == log; }
      PairsNext(MapAll(rest), Mapped(line), ip);
      if Counted(line) {
        KeyParts(LineIp(line), LineHour(line).value);
        OneKeyFor(Mapped(line)[0], ip);
      }
    }
  }

  lemma LogNext(log: seq<string>, line: string, ip: string)
    ensures InLog(log + [line], ip) <==> InLog(log, ip) || (Counted(line) && LineIp(line) == ip)
  {
    var more := log + [line];
    assert more[|log|] == line;
    if InLog(log, ip) {
      var k :| 0 <= k < |log| && Counted(log[k]) && LineIp(log[k]) == ip;
      assert more[k] == log[k];
    }
  }

  lemma PairsNext(a: seq<Pair>, b: seq<Pair>, ip: string)
    ensures KeyFor(a + b, ip) <==> KeyFor(a, ip) || KeyFor(b, ip)
  {
    forall key
      ensures HasKey(a + b, key) <==> HasKey(a, key) || HasKey(b, key)
    {
      SameKeys(a + b, a, b, key);
    }
  }

  lemma OneKeyFor(p: Pair, ip: string)
    ensures KeyFor([p], ip) <==> IpOf(p.key) == ip
  {
    assert [p][0].key == p.key;
    assert HasKey([p], p.key);
  }

  lemma GroupsHaveIps(ps: seq<Pair>, mine: string -> bool, gs: seq<Group>, ip: string)
    requires Shuffled(ps, mine, gs)
    ensures HasIp(gs, ip) <==> KeyFor(ps, ip) && mine(ip)
  {
    if HasIp(gs, ip) {
      var i :| 0 <= i < |gs| && IpOf(gs[i].key) == ip;
      assert HasGroup(gs, gs[i].key);
    }
    if KeyFor(ps, ip) && mine(ip) {
      var key :| HasKey(ps, key) && IpOf(key) == ip;
      assert HasGroup(gs, key);
    }
  }

  /** What the records of a reducer should be: those of its own addresses in the log, one each, with the
      number of lines of every hour and their sum. */
  ghost predicate Right(log: seq<string>, mine: string -> bool, out: seq<Record>)
    requires forall k :: 0 <= k < |log| ==> GoodLine(log[k])
  {
    && (forall ip :: (exists k :: 0 <= k < |out| && out[k].ip == ip) <==> InLog(log, ip) && mine(ip))
    && (forall j, k :: 0 <= j < k < |out| ==> out[j].ip != out[k].ip)
    && (forall k :: 0 <= k < |out| ==> |out[k].cells| == HOURS && out[k].total == Sum(out[k].cells))
    && (forall k, h: nat :: 0 <= k < |out| && h < HOURS ==> out[k].cells[h] == LineCount(log, out[k].ip, h))
  }

  /** Whatever the combiner did, whichever addresses are a reducer's own: its records are right if and
      only if the log has no line of its own whose address is the word the reducer starts with. */
  lemma JobCounts(log: seq<string>, run: seq<seq<Pair>>, mine: string -> bool, gs: seq<Group>, out: seq<Record>)
    requires forall k :: 0 <= k < |log| ==> GoodLine(log[k])
    requires CombinedRun(run) && run[0] == MapAll(log)
    requires Shuffled(run[|run| - 1], mine, gs)
    requires OfAddresses(out) && (Complete(out, gs) <==> !HasIp(gs, NO_IP))
    ensures Right(log, mine, out) <==> !(InLog(log, NO_IP) && mine(NO_IP))
  {
    IpsOfJob(log, run, mine, gs, NO_IP);
    if InLog(log, NO_IP) && mine(NO_IP) {
      assert !exists k :: 0 <= k < |out| && out[k].ip == NO_IP;
    } else {
      CompleteIsRight(log, run, mine, gs, out);
    }
  }

  lemma CompleteIsRight(log: seq<string>, run: seq<seq<Pair>>, mine: string -> bool, gs: seq<Group>, out: seq<Record>)
    requires forall k :: 0 <= k < |log| ==> GoodLine(log[k])
    requires CombinedRun(run) && run[0] == MapAll(log)
    requires Shuffled(run[|run| - 1], mine, gs) && Complete(out, gs)
    ensures Right(log, mine, out)
  {
    var ps := run[|run| - 1];
    forall ip
      ensures HasIp(gs, ip) <==> InLog(log, ip) && mine(ip)
    {
      IpsOfJob(log, run, mine, gs, ip);
    }
    forall k, h: nat | 0 <= k < |out| && h < HOURS
      ensures out[k].cells[h] == LineCount(log, out[k].ip, h)
    {
      var ip := out[k].ip;
      assert HasIp(gs, ip);
      CellsWeigh(ps, mine, gs, ip, h);
      CombinedRunKeeps(run, SelectedBy(ip, h));
      MapWeighs(log, ip, h);
    }
  }

  lemma IpsOfJob(log: seq<string>, run: seq<seq<Pair>>, mine: string -> bool, gs: seq<Group>, ip: string)
    requires forall k :: 0 <= k < |log| ==> GoodLine(log[k])
    requires CombinedRun(run) && run[0] == MapAll(log) && Shuffled(run[|run| - 1], mine, gs)
    ensures HasIp(gs, ip) <==> InLog(log, ip) && mine(ip)
  {
    CombinedRunKeeps(run, SelectedBy(ip, 0));
    MapHasIps(log, ip);
    GroupsHaveIps(run[|run| - 1], mine, gs, ip);
  }

  // ---------- all reducers ----------

  /** The addresses of reducer `r`, by hash. */
  function Share(hash: string -> nat, parts: nat, r: nat): string -> bool
    requires parts > 0
  {
    ip => hash(ip) % parts == r
  }

  ghost predicate HasRecord(outs: seq<seq<Record>>, ip: string) {
    exists r, k :: 0 <= r < |outs| && 0 <= k < |outs[r]| && outs[r][k].ip == ip
  }

  /** Exactly one record for each address of the log, in all files together, and every record complete. */
  ghost predicate AllRight(log: seq<string>, outs: seq<seq<Record>>)
    requires forall k :: 0 <= k < |log| ==> GoodLine(log[k])
  {
    && (forall ip :: HasRecord(outs, ip) <==> InLog(log, ip))
    && (forall r, k, q, j :: 0 <= r < |outs| && 0 <= k < |outs[r]| && 0 <= q < |outs| && 0 <= j < |outs[q]| ==>
          outs[r][k].ip == outs[q][j].ip ==> r == q && k == j)
    && (forall r, k :: 0 <= r < |outs| && 0 <= k < |outs[r]| ==> Counts(log, outs[r][k]))
  }

  // A record with the lines of every hour and their sum.
  ghost predicate Counts(log: seq<string>, rec: Record)
    requires forall k :: 0 <= k < |log| ==> GoodLine(log[k])
  {
    && |rec.cells| == HOURS && rec.total == Sum(rec.cells)
    && forall h: nat :: h < HOURS ==> rec.cells[h] == LineCount(log, rec.ip, h)
  }

  // What each reducer is given and has written.
  ghost predicate Reduced(ps: seq<Pair>, hash: string -> nat, streams: seq<seq<Group>>, outs: seq<seq<Record>>) {
    && |streams| == |outs| > 0
    && forall r :: 0 <= r < |outs| ==>
         && Shuffled(ps, Share(hash, |outs|, r), streams[r])
         && OfAddresses(outs[r]) && (Complete(outs[r], streams[r]) <==> !HasIp(streams[r], NO_IP))
  }

  /** The whole job, for any log, any applications of the combiner, any hash and any number of reducers:
      it is right if and only if no line has the word as its address with which a reducer starts. */
  lemma JobIsRight(log: seq<string>, run: seq<seq<Pair>>, hash: string -> nat, streams: seq<seq<Group>>, outs: seq<seq<Record>>)
    requires forall k :: 0 <= k < |log| ==> GoodLine(log[k])
    requires CombinedRun(run) && run[0] == MapAll(log) && Reduced(run[|run| - 1], hash, streams, outs)
    ensures AllRight(log, outs) <==> !InLog(log, NO_IP)
  {
    hide Shuffled, Complete, HasIp, Right, InLog, LineCount, CombinedRun, GoodLine;
    if InLog(log, NO_IP) {
      assert !HasRecord(outs, NO_IP);
    } else {
      forall r | 0 <= r < |outs|
        ensures Right(log, Share(hash, |outs|, r), outs[r])
      {
        JobCounts(log, run, Share(hash, |outs|, r), streams[r], outs[r]);
      }
      SharesAddUp(log, hash, outs);
    }
  }

  lemma SharesAddUp(log: seq<string>, hash: string -> nat, outs: seq<seq<Record>>)
    requires outs != [] && forall k :: 0 <= k < |log| ==> GoodLine(log[k])
    requires forall r :: 0 <= r < |outs| ==> Right(log, Share(hash, |outs|, r), outs[r])
    ensures AllRight(log, outs)
  {
    hide InLog, LineCount, GoodLine, Sum;
    forall r, k | 0 <= r < |outs| && 0 <= k < |outs[r]|
      ensures Counts(log, outs[r][k]) && InLog(log, outs[r][k].ip) && hash(outs[r][k].ip) % |outs| == r
    {
      OfShare(log, hash, |outs|, r, outs[r], k);
    }
    forall ip | InLog(log, ip)
      ensures HasRecord(outs, ip)
    {
      var r := hash(ip) % |outs|;
      assert Right(log, Share(hash, |outs|, r), outs[r]);
      var k :| 0 <= k < |outs[r]| && outs[r][k].ip == ip;
    }
    forall r, k, q, j | 0 <= r < |outs| && 0 <= k < |outs[r]| && 0 <= q < |outs| && 0 <= j < |outs[q]| && outs[r][k].ip == outs[q][j].ip
      ensures r == q && k == j
    {
      assert Right(log, Share(hash, |outs|, r), outs[r]);
    }
  }

  lemma OfShare(log: seq<string>, hash: string -> nat, parts: nat, r: nat, out: seq<Record>, k: nat)
    requires parts > 0 && (forall i :: 0 <= i < |log| ==> GoodLine(log[i]))
    requires Right(log, Share(hash, parts, r), out) && k < |out|
    ensures Counts(log, out[k]) && InLog(log, out[k].ip) && hash(out[k].ip) % parts == r
  {
    hide InLog, LineCount, GoodLine, Sum;
    var ip := out[k].ip;
    assert exists j :: 0 <= j < |out| && out[j].ip == ip;
    assert Share(hash, parts, r)(ip);
  }

  // ---------- the text of a line ----------

  // The parts with `c` between them.
  function Join(parts: seq<string>, c: char): string
    requires parts != []
  {
    if |parts| == 1 then parts[0] else parts[0] + ([c] + Join(parts[1..], c))
  }

  lemma {:induction false} PiecesFirst(part: string, c: char, rest: string)
    requires c !in part
    ensures Pieces(part + ([c] + rest), c) == [part] + Pieces(rest, c)
  {
    var s := part + ([c] + rest);
    if part == "" {
      assert s[0] == c && s[1..] == rest;
    } else {
      assert s[0] == part[0] && s[1..] == part[1..] + ([c] + rest);
      PiecesFirst(part[1..], c, rest);
      assert [part[0]] + part[1..] == part;
    }
  }

  lemma {:induction false} PiecesJoined(parts: seq<string>, c: char)
    requires parts != [] && forall k :: 0 <= k < |parts| ==> c !in parts[k]
    ensures Pieces(Join(parts, c), c) == parts
    decreases |parts|
  {
    if |parts| == 1 {
      NoPieces(parts[0], c);
    } else {
      PiecesJoined(parts[1..], c);
      PiecesFirst(parts[0], c, Join(parts[1..], c));
    }
  }

  /** Splitting gives back what was joined, if the last part is not empty. */
  lemma SplitJoined(parts: seq<string>, c: char)
    requires parts != [] && (forall k :: 0 <= k < |parts| ==> c !in parts[k]) && parts[|parts| - 1] != ""
    ensures Split(Join(parts, c), c) == parts
  {
    var s := Join(parts, c);
    PiecesJoined(parts, c);
    if |parts| > 1 {
      assert s[|parts[0]|] == c;
    }
  }

  // A date with the time of day: the hour stands between the first two colons.
  lemma SplitTime(date: string, hour: string, rest: string)
    requires ':' !in date && ':' !in hour && hour != ""
    ensures var t := Split(date + ([':'] + (hour + ([':'] + rest))), ':'); |t| >= 2 && t[1] == hour
  {
    var s := date + ([':'] + (hour + ([':'] + rest)));
    PiecesFirst(date, ':', hour + ([':'] + rest));
    PiecesFirst(hour, ':', rest);
    assert s[|date|] == ':';
    EndDropped([date, hour] + Pieces(rest, ':'), 1);
    assert [date] + ([hour] + Pieces(rest, ':')) == [date, hour] + Pieces(rest, ':');
  }

  // Dropping empty parts at the end stops at a part that is not empty.
  lemma {:induction false} EndDropped(parts: seq<string>, k: nat)
    requires k < |parts| && parts[k] != ""
    ensures k < |DropEmptyEnd(parts)| && DropEmptyEnd(parts)[k] == parts[k]
    decreases |parts|
  {
    if parts[|parts| - 1] == "" { EndDropped(parts[..|parts| - 1], k); }
  }

  /** A request as it is written in the log: the address, the time, and eight more fields. */
  datatype Visit = Visit(ip: string, date: string, hour: nat, rest: string, fields: seq<string>)

  // Two digits.
  function HourText(h: nat): string
    requires h < HOURS
  {
    ["0123456789"[h / 10], "0123456789"[h % 10]]
  }

  predicate IsVisit(v: Visit) {
    && ' ' !in v.ip && '#' !in v.ip && ' ' !in v.date && ':' !in v.date && ' ' !in v.rest && v.hour < HOURS
    && |v.fields| == 8 && forall k :: 0 <= k < 8 ==> v.fields[k] != "" && ' ' !in v.fields[k]
  }

  function LineOf(v: Visit): string
    requires IsVisit(v)
  {
    v.ip + ([' '] + (TimeText(v.date, HourText(v.hour), v.rest) + ([' '] + Join(v.fields, ' '))))
  }

  function TimeText(date: string, hour: string, rest: string): string {
    date + ([':'] + (hour + ([':'] + rest)))
  }

  lemma TwoDigits(a: char, b: char)
    requires '0' <= a <= '9' && '0' <= b <= '9'
    ensures ParseInt([a, b]) == Some(10 * (a as int - '0' as int) + (b as int - '0' as int))
  {
    assert [a, b][..1] == [a];
    OneDigit(a);
  }

  /** The hours are read as numbers. */
  lemma HourIsRead(h: nat)
    requires h < HOURS
    ensures ParseInt(HourText(h)) == Some(h) && ' ' !in HourText(h) && ':' !in HourText(h)
  {
    TwoDigits("0123456789"[h / 10], "0123456789"[h % 10]);
  }

  lemma NoBlank(date: string, hour: string, rest: string)
    requires ' ' !in date && ' ' !in hour && ' ' !in rest
    ensures ' ' !in TimeText(date, hour, rest)
  {
  }

  lemma JoinedTwo(a: string, b: string, parts: seq<string>, c: char)
    requires parts != []
    ensures Join([a, b] + parts, c) == a + ([c] + (b + ([c] + Join(parts, c))))
  {
    var all := [a, b] + parts;
    assert all[1..] == [b] + parts && all[1..][1..] == parts;
  }

  // The fields of a line.
  lemma FieldsOfLine(ip: string, time: string, fields: seq<string>)
    requires ' ' !in ip && ' ' !in time && fields != []
    requires forall k :: 0 <= k < |fields| ==> fields[k] != "" && ' ' !in fields[k]
    ensures Split(ip + ([' '] + (time + ([' '] + Join(fields, ' ')))), ' ') == [ip, time] + fields
  {
    hide *;
    var parts := [ip, time] + fields;
    forall k | 0 <= k < |parts|
      ensures ' ' !in parts[k]
    {
      assert parts[k] == if k == 0 then ip else if k == 1 then time else fields[k - 2];
    }
    assert parts[|parts| - 1] == fields[|fields| - 1];
    SplitJoined(parts, ' ');
    JoinedTwo(ip, time, fields, ' ');
  }

  /** A request gives the one pair of its address and the text of its hour. */
  lemma MapsVisit(v: Visit)
    requires IsVisit(v)
    ensures HasHour(LineOf(v)) && Mapped(LineOf(v)) == [Pair(v.ip + "#" + HourText(v.hour), 1)]
    ensures GoodLine(LineOf(v)) && Counted(LineOf(v)) && LineIp(LineOf(v)) == v.ip
    ensures forall ip, h: nat :: LineSelected(LineOf(v), ip, h) <==> v.ip == ip && v.hour == h
  {
    var hour := HourText(v.hour);
    HourIsRead(v.hour);
    HourHasNoBlank(v.hour);
    NoBlank(v.date, hour, v.rest);
    FieldsOfLine(v.ip, TimeText(v.date, hour, v.rest), v.fields);
    SplitTime(v.date, hour, v.rest);
    hide Split, ParseInt, Join, HourText;
    assert LineHour(LineOf(v)) == Some(hour);
  }

  lemma HourHasNoBlank(h: nat)
    requires h < HOURS
    ensures ' ' !in HourText(h) && HourText(h) != ""
  {
  }

  /** A line of another number of fields is left out, and one without a colon in its second field
      ends the map. */
  lemma OtherLines(fields: seq<string>)
    requires fields != [] && forall k :: 0 <= k < |fields| ==> fields[k] != "" && ' ' !in fields[k]
    ensures var line := Join(fields, ' ');
      && (|fields| != 10 ==> HasHour(line) && Mapped(line) == [])
      && (|fields| == 10 && ':' !in fields[1] ==> !HasHour(line))
  {
    SplitJoined(fields, ' ');
  }

  // ---------- the job on requests ----------

  predicate AreVisits(vs: seq<Visit>) {
    forall k :: 0 <= k < |vs| ==> IsVisit(vs[k])
  }

  function Lines(vs: seq<Visit>): (log: seq<string>)
    requires AreVisits(vs)
    ensures |log| == |vs| && forall k :: 0 <= k < |vs| ==> log[k] == LineOf(vs[k])
  {
    seq(|vs|, k requires 0 <= k < |vs| => LineOf(vs[k]))
  }

  function Chosen(vs: seq<Visit>, ip: string, h: nat): set<nat> {
    set k: nat | k < |vs| && vs[k].ip == ip && vs[k].hour == h
  }

  lemma GoodLines(vs: seq<Visit>)
    requires AreVisits(vs)
    ensures forall k :: 0 <= k < |Lines(vs)| ==> GoodLine(Lines(vs)[k])
  {
    hide GoodLine, IsVisit, LineOf;
    forall k | 0 <= k < |vs|
      ensures GoodLine(Lines(vs)[k])
    {
      MapsVisit(vs[k]);
    }
  }

  /** The lines counted for an address and an hour are the requests of that address in that hour. */
  lemma {:induction false} VisitsCounted(vs: seq<Visit>, ip: string, h: nat)
    requires AreVisits(vs) && forall k :: 0 <= k < |Lines(vs)| ==> GoodLine(Lines(vs)[k])
    ensures LineCount(Lines(vs), ip, h) == |Chosen(vs, ip, h)|
    decreases |vs|
  {
    hide GoodLine, IsVisit, LineOf, LineSelected;
    if vs == [] {
      assert Chosen(vs, ip, h) == {};
    } else {
      var n: nat := |vs| - 1;
      var rest := vs[..n];
      GoodLines(rest);
      VisitsCounted(rest, ip, h);
      assert Lines(vs)[..n] == Lines(rest);
      MapsVisit(vs[n]);
      LastChosen(vs, ip, h);
    }
  }

  lemma LastChosen(vs: seq<Visit>, ip: string, h: nat)
    requires vs != []
    ensures var n := |vs| - 1;
      |Chosen(vs, ip, h)| == |Chosen(vs[..n], ip, h)| + if vs[n].ip == ip && vs[n].hour == h then 1 else 0
  {
    var n: nat := |vs| - 1;
    var all, before := Chosen(vs, ip, h), Chosen(vs[..n], ip, h);
    forall k: nat
      ensures k in all <==> k in before || (k == n && vs[n].ip == ip && vs[n].hour == h)
    {
      assert k < n ==> vs[..n][k] == vs[k];
    }
    assert n !in before;
    hide Chosen;
    assert all == if vs[n].ip == ip && vs[n].hour == h then before + {n} else before;
  }

  lemma VisitsInLog(vs: seq<Visit>, ip: string)
    requires AreVisits(vs)
    ensures InLog(Lines(vs), ip) <==> exists k :: 0 <= k < |vs| && vs[k].ip == ip
  {
    hide Counted, LineIp, IsVisit, LineOf;
    forall k | 0 <= k < |vs|
      ensures Counted(Lines(vs)[k]) && LineIp(Lines(vs)[k]) == vs[k].ip
    {
      MapsVisit(vs[k]);
    }
    if k :| 0 <= k < |vs| && vs[k].ip == ip {
      assert Counted(Lines(vs)[k]);
    }
  }

  /** The whole job on a log of requests, none of them from the address `NO`: in all files together there is
      one record for each address, and its cells hold how many requests came from it in each hour. */
  lemma JobCountsVisits(vs: seq<Visit>, run: seq<seq<Pair>>, hash: string -> nat, streams: seq<seq<Group>>, outs: seq<seq<Record>>)
    requires AreVisits(vs) && forall k :: 0 <= k < |Lines(vs)| ==> GoodLine(Lines(vs)[k])
    requires forall k :: 0 <= k < |vs| ==> vs[k].ip != NO_IP
    requires CombinedRun(run) && run[0] == MapAll(Lines(vs)) && Reduced(run[|run| - 1], hash, streams, outs)
    ensures forall ip :: HasRecord(outs, ip) <==> exists k :: 0 <= k < |vs| && vs[k].ip == ip
    ensures forall r, k, q, j :: 0 <= r < |outs| && 0 <= k < |outs[r]| && 0 <= q < |outs| && 0 <= j < |outs[q]| ==>
      outs[r][k].ip == outs[q][j].ip ==> r == q && k == j
    ensures forall r, k, h: nat :: 0 <= r < |outs| && 0 <= k < |outs[r]| && h < HOURS ==>
      |outs[r][k].cells| == HOURS && outs[r][k].cells[h] == |Chosen(vs, outs[r][k].ip, h)|
    ensures forall r, k :: 0 <= r < |outs| && 0 <= k < |outs[r]| ==> outs[r][k].total == Sum(outs[r][k].cells)
  {
    var log := Lines(vs);
    VisitsInLog(vs, NO_IP);
    JobIsRight(log, run, hash, streams, outs);
    hide GoodLine, Reduced, CombinedRun, InLog, HasRecord, Lines, AreVisits, LineCount, Chosen, MapAll, Sum;
    forall ip
      ensures HasRecord(outs, ip) <==> exists k :: 0 <= k < |vs| && vs[k].ip == ip
    {
      VisitsInLog(vs, ip);
    }
    forall r, k, h: nat | 0 <= r < |outs| && 0 <= k < |outs[r]| && h < HOURS
      ensures |outs[r][k].cells| == HOURS && outs[r][k].cells[h] == |Chosen(vs, outs[r][k].ip, h)|
    {
      assert Counts(log, outs[r][k]);
      VisitsCounted(vs, outs[r][k].ip, h);
    }
  }
}
