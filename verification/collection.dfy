/** The collection run in ao3.py's main block: every unordered pair of roster
    characters (a character paired with itself included), the row recorded
    for it, and the paced sequence of searches that fills in the counts. */
module Collection {
  import opened Wrappers
  import opened Wrangling
  import opened WorkCount

  /** Seconds slept between two consecutive searches. */
  const SleepPeriod: nat := 5

  /** One roster entry: a name and a gender code ("f", "m", "other"). */
  datatype Character = Character(name: string, gender: string)

  /** One output row before its count is known; `kind` is the `type` column. */
  datatype Row = Row(a: string, b: string, kind: string, selfcest: bool)

  /** One row of the written table. */
  datatype Record = Record(row: Row, count: nat)

  /** What the run does, in order: a pause of some seconds, or a search
      request for a query. */
  datatype Action = Pause(seconds: nat) | Search(query: string)

  /** Lexicographic order on index pairs: the order the pairs are produced in. */
  predicate PairBefore(p: (nat, nat), q: (nat, nat)) {
    p.0 < q.0 || (p.0 == q.0 && p.1 < q.1)
  }

  /** The pairs whose first index is `i`: (i, i), (i, i + 1), ..., (i, n - 1). */
  function Block(i: nat, n: nat): (ps: seq<(nat, nat)>)
    requires i < n
    ensures |ps| == n - i
    ensures forall k :: 0 <= k < |ps| ==> ps[k] == (i, i + k)
  {
    seq(n - i, k requires 0 <= k < n - i => (i, i + k))
  }

  /** `combinations_with_replacement(range(i, n), 2)` as index pairs: every
      (x, y) with i <= x <= y < n exactly once, in lexicographic order. */
  function PairsFrom(i: nat, n: nat): (ps: seq<(nat, nat)>)
    requires i <= n
    ensures forall k :: 0 <= k < |ps| ==> i <= ps[k].0 <= ps[k].1 < n
    ensures forall x, y :: i <= x <= y < n ==> (x, y) in ps
    ensures forall k, k' :: 0 <= k < k' < |ps| ==> PairBefore(ps[k], ps[k'])
    decreases n - i
  {
    if i == n then []
    else
      var block, rest := Block(i, n), PairsFrom(i + 1, n);
      assert forall y :: i <= y < n ==> block[y - i] == (i, y);
      block + rest
  }

  /** There are (n - i)(n - i + 1) / 2 pairs with indices from i to n - 1. */
  lemma {:induction false} PairsFromLength(i: nat, n: nat)
    requires i <= n
    ensures 2 * |PairsFrom(i, n)| == (n - i) * (n - i + 1)
    decreases n - i
  {
    if i < n {
      var m := n - i;
      assert PairsFrom(i, n) == Block(i, n) + PairsFrom(i + 1, n);
      PairsFromLength(i + 1, n);
      assert m * (m + 1) == 2 * m + (m - 1) * m;
    }
  }

  function IndexPairs(n: nat): (ps: seq<(nat, nat)>)
    ensures |ps| == n * (n + 1) / 2
  {
    PairsFromLength(0, n);
    PairsFrom(0, n)
  }

  function CountSelf(ps: seq<(nat, nat)>): nat
  {
    if |ps| == 0 then 0 else (if ps[0].0 == ps[0].1 then 1 else 0) + CountSelf(ps[1..])
  }

  lemma {:induction false} CountSelfAppend(a: seq<(nat, nat)>, b: seq<(nat, nat)>)
    ensures CountSelf(a + b) == CountSelf(a) + CountSelf(b)
    decreases |a|
  {
    if |a| == 0 {
      assert a + b == b;
    } else {
      assert (a + b)[1..] == a[1..] + b;
      CountSelfAppend(a[1..], b);
    }
  }

  lemma {:induction false} CountSelfNone(ps: seq<(nat, nat)>)
    requires forall k :: 0 <= k < |ps| ==> ps[k].0 < ps[k].1
    ensures CountSelf(ps) == 0
    decreases |ps|
  {
    if |ps| > 0 {
      CountSelfNone(ps[1..]);
    }
  }

  /** Exactly one pair per index pairs it with itself. */
  lemma {:induction false} CountSelfPairs(i: nat, n: nat)
    requires i <= n
    ensures CountSelf(PairsFrom(i, n)) == n - i
    decreases n - i
  {
    if i < n {
      CountSelfPairs(i + 1, n);
      CountSelfStep(i, n);
    } else {
      CountSelfEmpty(n);
    }
  }

  lemma CountSelfEmpty(n: nat)
    ensures CountSelf(PairsFrom(n, n)) == 0
  {
    assert PairsFrom(n, n) == [];
  }

  /** The pairs starting at `i` add exactly one selfcest pair to the rest. */
  lemma CountSelfStep(i: nat, n: nat)
    requires i < n
    requires CountSelf(PairsFrom(i + 1, n)) == n - (i + 1)
    ensures CountSelf(PairsFrom(i, n)) == n - i
  {
    var block, rest := Block(i, n), PairsFrom(i + 1, n);
    assert PairsFrom(i, n) == block + rest;
    BlockCountSelf(i, n);
    CountSelfAppend(block, rest);
  }

  /** The pairs with first index `i` pair it with itself exactly once. */
  lemma BlockCountSelf(i: nat, n: nat)
    requires i < n
    ensures CountSelf(Block(i, n)) == 1
  {
    var block := Block(i, n);
    CountSelfNone(block[1..]);
  }

  /** The row for the pair of roster entries `x` (earlier) and `y`. */
  function MakeRow(x: Character, y: Character): (r: Row)
    ensures r.a == x.name && r.b == y.name
    ensures r.selfcest <==> r.a == r.b
    ensures r.kind == x.gender + "/" + y.gender
  {
    Row(x.name, y.name, x.gender + "/" + y.gender, x.name == y.name)
  }

  /** The table of pairs built from the (already gender-sorted) roster. */
  function Enumerate(roster: seq<Character>): (rows: seq<Row>)
    ensures |rows| == |roster| * (|roster| + 1) / 2
    ensures forall k :: 0 <= k < |rows| ==> (rows[k].selfcest <==> rows[k].a == rows[k].b)
    ensures forall i, j :: 0 <= i <= j < |roster| ==> MakeRow(roster[i], roster[j]) in rows
  {
    var ps := IndexPairs(|roster|);
    var rows := seq(|ps|, k requires 0 <= k < |ps| => MakeRow(roster[ps[k].0], roster[ps[k].1]));
    RowsCoverPairs(roster, ps, rows);
    rows
  }

  lemma RowsCoverPairs(roster: seq<Character>, ps: seq<(nat, nat)>, rows: seq<Row>)
    requires ps == IndexPairs(|roster|)
    requires |rows| == |ps|
    requires forall k :: 0 <= k < |ps| ==> ps[k].1 < |roster|
    requires forall k :: 0 <= k < |ps| ==> rows[k] == MakeRow(roster[ps[k].0], roster[ps[k].1])
    ensures forall i, j :: 0 <= i <= j < |roster| ==> MakeRow(roster[i], roster[j]) in rows
  {
    forall i, j | 0 <= i <= j < |roster|
      ensures MakeRow(roster[i], roster[j]) in rows
    {
      assert (i, j) in ps;
      var k :| 0 <= k < |ps| && ps[k] == (i, j);
      assert rows[k] == MakeRow(roster[i], roster[j]);
    }
  }

  predicate DistinctNames(roster: seq<Character>) {
    forall i, j :: 0 <= i < j < |roster| ==> roster[i].name != roster[j].name
  }

  function CountSelfcest(rows: seq<Row>): nat
  {
    if |rows| == 0 then 0 else (if rows[0].selfcest then 1 else 0) + CountSelfcest(rows[1..])
  }

  lemma {:induction false} CountSelfcestMatches(rows: seq<Row>, ps: seq<(nat, nat)>)
    requires |rows| == |ps|
    requires forall k :: 0 <= k < |ps| ==> (rows[k].selfcest <==> ps[k].0 == ps[k].1)
    ensures CountSelfcest(rows) == CountSelf(ps)
    decreases |ps|
  {
    if |ps| > 0 {
      CountSelfcestMatches(rows[1..], ps[1..]);
    }
  }

  /** With distinct names, exactly one row per character is a selfcest row. */
  lemma SelfcestCount(roster: seq<Character>)
    requires DistinctNames(roster)
    ensures CountSelfcest(Enumerate(roster)) == |roster|
  {
    var ps := IndexPairs(|roster|);
    var rows := Enumerate(roster);
    forall k | 0 <= k < |ps|
      ensures rows[k].selfcest <==> ps[k].0 == ps[k].1
    {
      assert rows[k] == MakeRow(roster[ps[k].0], roster[ps[k].1]);
    }
    CountSelfcestMatches(rows, ps);
    CountSelfPairs(0, |roster|);
  }

  /** The search query for each row, in row order. */
  function Queries(rows: seq<Row>): (qs: seq<string>)
    ensures |qs| == |rows|
  {
    seq(|rows|, k requires 0 <= k < |rows| => Query(RelationshipTag(rows[k].a, rows[k].b)))
  }

  /** The searches for `qs` with a pause before every search but the first. */
  function Paced(qs: seq<string>): (acts: seq<Action>)
    ensures |acts| == if |qs| == 0 then 0 else 2 * |qs| - 1
    ensures forall i :: 0 <= i < |acts| ==>
      (acts[i].Search? <==> i % 2 == 0)
      && (acts[i].Search? ==> acts[i].query == qs[i / 2])
      && (acts[i].Pause? ==> acts[i].seconds == SleepPeriod)
    decreases |qs|
  {
    if |qs| == 0 then []
    else if |qs| == 1 then [Search(qs[0])]
    else
      var front := qs[..|qs| - 1];
      assert forall k :: 0 <= k < |front| ==> front[k] == qs[k];
      Paced(front) + [Pause(SleepPeriod), Search(qs[|qs| - 1])]
  }

  function CountPauses(acts: seq<Action>): nat
  {
    if |acts| == 0 then 0
    else CountPauses(acts[..|acts| - 1]) + (if acts[|acts| - 1].Pause? then 1 else 0)
  }

  /** A run of n searches sleeps n - 1 times. */
  lemma {:induction false} PauseCount(qs: seq<string>)
    requires |qs| > 0
    ensures CountPauses(Paced(qs)) == |qs| - 1
    decreases |qs|
  {
    if |qs| > 1 {
      var front := qs[..|qs| - 1];
      var p := Paced(front);
      var acts := p + [Pause(SleepPeriod), Search(qs[|qs| - 1])];
      assert Paced(qs) == acts;
      assert acts[..|acts| - 1] == p + [Pause(SleepPeriod)];
      assert (p + [Pause(SleepPeriod)])[..|p|] == p;
      PauseCount(front);
    }
  }

  lemma EnumerateRow(roster: seq<Character>, k: nat)
    requires k < |Enumerate(roster)|
    ensures var p := IndexPairs(|roster|)[k];
      p.0 <= p.1 < |roster| && Enumerate(roster)[k] == MakeRow(roster[p.0], roster[p.1])
  {
  }

  /** `r` is the row of some pair of roster positions i <= j. */
  predicate RowOfPair(roster: seq<Character>, r: Row) {
    exists i, j :: 0 <= i <= j < |roster| && r == MakeRow(roster[i], roster[j])
  }

  /** The table holds nothing else: every row is the row of some pair of
      roster positions i <= j. */
  lemma EnumerateOnlyPairs(roster: seq<Character>)
    ensures forall k :: 0 <= k < |Enumerate(roster)| ==> RowOfPair(roster, Enumerate(roster)[k])
  {
    forall k | 0 <= k < |Enumerate(roster)|
      ensures RowOfPair(roster, Enumerate(roster)[k])
    {
      EnumerateRow(roster, k);
      var p := IndexPairs(|roster|)[k];
      assert 0 <= p.0 <= p.1 < |roster| && Enumerate(roster)[k] == MakeRow(roster[p.0], roster[p.1]);
    }
  }

  lemma PairOfMultiset<T>(a: T, b: T, c: T, d: T)
    requires multiset{a, b} == multiset{c, d}
    ensures (a == c && b == d) || (a == d && b == c)
  {
    assert c in multiset{a, b};
    if c == a {
      assert multiset{a, b} - multiset{a} == multiset{b};
      assert multiset{c, d} - multiset{c} == multiset{d};
    } else {
      assert multiset{a, b} - multiset{b} == multiset{a};
      assert multiset{c, d} - multiset{c} == multiset{d};
    }
  }

  /** Names without '/' or '(' and pairwise distinct give every row of the
      table its own search query: no pairing is counted under another's tag. */
  lemma QueriesDistinct(roster: seq<Character>, k: nat, k': nat)
    requires DistinctNames(roster)
    requires forall i :: 0 <= i < |roster| ==> '/' !in roster[i].name && '(' !in roster[i].name
    requires k < k' < |Enumerate(roster)|
    ensures Queries(Enumerate(roster))[k] != Queries(Enumerate(roster))[k']
  {
    var rows := Enumerate(roster);
    var ps := IndexPairs(|roster|);
    EnumerateRow(roster, k);
    EnumerateRow(roster, k');
    var p, p' := ps[k], ps[k'];
    assert PairBefore(p, p');
    QueryDeterminesPair(rows[k].a, rows[k].b, rows[k'].a, rows[k'].b);
    if Queries(rows)[k] == Queries(rows)[k'] && rows[k].a == rows[k'].a && rows[k].b == rows[k'].b {
      SameNameSamePosition(roster, p.0, p'.0);
      SameNameSamePosition(roster, p.1, p'.1);
    }
  }

  /** In a roster of distinct names, a name sits at one position only. */
  lemma SameNameSamePosition(roster: seq<Character>, i: nat, j: nat)
    requires DistinctNames(roster)
    requires i < |roster| && j < |roster| && roster[i].name == roster[j].name
    ensures i == j
  {
  }

  /** For names free of '/' and '(', the search query determines the
      unordered pair of names. */
  lemma QueryDeterminesPair(a: string, b: string, c: string, d: string)
    requires '/' !in a && '/' !in b && '/' !in c && '/' !in d
    requires '(' !in a && '(' !in b && '(' !in c && '(' !in d
    ensures Query(RelationshipTag(a, b)) == Query(RelationshipTag(c, d)) ==>
      (a == c && b == d) || (a == d && b == c)
  {
    var t, t' := RelationshipTag(a, b), RelationshipTag(c, d);
    if Query(t) == Query(t') {
      assert Query(t)[1..|Query(t)| - 1] == t;
      TagDeterminesPair(a, b, c, d);
      PairOfMultiset(a, b, c, d);
    }
  }

  /** One more search extends the paced run by a pause (if it is not the
      first search) and the search itself. */
  lemma PacedStep(qs: seq<string>, i: nat)
    requires i < |qs|
    ensures Paced(qs[..i + 1]) ==
      Paced(qs[..i]) + (if i == 0 then [] else [Pause(SleepPeriod)]) + [Search(qs[i])]
  {
    var next := qs[..i + 1];
    assert next[..|next| - 1] == qs[..i];
    if i == 0 {
      assert Paced(qs[..i]) == [];
    }
  }

  /** The searches for `qs` in order, pausing before each one after the first;
      the first failing search ends the run with its error. `server(k, q)` is
      the archive's answer to the k-th request of the run, for query `q`. */
  method RunSearches(qs: seq<string>, server: (nat, string) -> Response)
    returns (actions: seq<Action>, issued: nat, outcome: Result<seq<nat>, FetchError>)
    ensures issued <= |qs|
    ensures actions == Paced(qs[..issued])
    ensures outcome.Success? ==>
      && issued == |qs|
      && |outcome.value| == |qs|
      && forall k :: 0 <= k < |qs| ==> WorkCountOf(server(k, qs[k])) == Success(outcome.value[k])
    ensures outcome.Failure? ==>
      && 0 < issued
      && WorkCountOf(server(issued - 1, qs[issued - 1])) == Failure(outcome.error)
      && forall k :: 0 <= k < issued - 1 ==> WorkCountOf(server(k, qs[k])).Success?
  {
    actions := [];
    issued := 0;
    var counts: seq<nat> := [];
    var started := false;
    while issued < |qs|
      invariant issued <= |qs|
      invariant started <==> issued > 0
      invariant |counts| == issued
      invariant actions == Paced(qs[..issued])
      invariant forall k :: 0 <= k < issued ==> WorkCountOf(server(k, qs[k])) == Success(counts[k])
    {
      PacedStep(qs, issued);
      if started {
        actions := actions + [Pause(SleepPeriod)];
      } else {
        started := true;
      }
      actions := actions + [Search(qs[issued])];
      var r := WorkCountOf(server(issued, qs[issued]));
      issued := issued + 1;
      match r {
        case Failure(e) =>
          outcome := Failure(e);
          return;
        case Success(c) =>
          counts := counts + [c];
      }
    }
    outcome := Success(counts);
  }

  /** The main block: a search per row of the table, and on success the table
      with its count column filled in. A failure propagates and no table is
      written. */
  method Collect(rows: seq<Row>, server: (nat, string) -> Response)
    returns (actions: seq<Action>, issued: nat, outcome: Result<seq<Record>, FetchError>)
    ensures issued <= |rows|
    ensures actions == Paced(Queries(rows)[..issued])
    ensures outcome.Success? ==>
      && issued == |rows|
      && |outcome.value| == |rows|
      && forall k :: 0 <= k < |rows| ==>
           outcome.value[k].row == rows[k]
           && WorkCountOf(server(k, Queries(rows)[k])) == Success(outcome.value[k].count)
    ensures outcome.Failure? ==>
      && 0 < issued
      && WorkCountOf(server(issued - 1, Queries(rows)[issued - 1])) == Failure(outcome.error)
      && forall k :: 0 <= k < issued - 1 ==> WorkCountOf(server(k, Queries(rows)[k])).Success?
  {
    var qs := Queries(rows);
    var counts;
    actions, issued, counts := RunSearches(qs, server);
    match counts {
      case Failure(e) =>
        outcome := Failure(e);
      case Success(cs) =>
        outcome := Success(seq(|rows|, k requires 0 <= k < |rows| => Record(rows[k], cs[k])));
    }
  }
}
