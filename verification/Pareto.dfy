/** Marking the schemes that no other scheme on the same board beats on latency, traffic and heap. */
module Pareto {

  datatype Key = Key(scheme: string, board: string)

  datatype Cost = Cost(latency: real, traffic: real, heap: int)

  /** At least as good everywhere and better somewhere. */
  predicate Dominates(a: Cost, b: Cost) {
    && a.latency <= b.latency && a.traffic <= b.traffic && a.heap <= b.heap
    && (a.latency < b.latency || a.traffic < b.traffic || a.heap < b.heap)
  }

  lemma DominanceIsStrictOrder(a: Cost, b: Cost, c: Cost)
    ensures !Dominates(a, a)
    ensures Dominates(a, b) ==> !Dominates(b, a)
    ensures Dominates(a, b) && Dominates(b, c) ==> Dominates(a, c)
  {
  }

  /** Another measured scheme on the board of `k` dominates it: the test in the source's loop. */
  predicate IsDominated(base: map<Key, Cost>, k: Key)
    requires k in base
  {
    exists o :: o in base && o.board == k.board && o != k && Dominates(base[o], base[k])
  }

  predicate OnFrontier(base: map<Key, Cost>, k: Key) {
    k in base && !IsDominated(base, k)
  }

  function Mark(base: map<Key, Cost>, k: Key): (mark: string)
    ensures mark == "yes" || mark == "no"
  {
    if OnFrontier(base, k) then "yes" else "no"
  }

  /** Lowering one cost and raising none dominates, and nothing else does. */
  lemma DominatesIff(a: Cost, b: Cost)
    ensures Dominates(a, b) <==>
              && !(a.latency > b.latency) && !(a.traffic > b.traffic) && !(a.heap > b.heap)
              && a != b
    ensures a.latency < b.latency && a.traffic == b.traffic && a.heap == b.heap ==> Dominates(a, b)
    ensures a.latency == b.latency && a.traffic < b.traffic && a.heap == b.heap ==> Dominates(a, b)
    ensures a.latency == b.latency && a.traffic == b.traffic && a.heap < b.heap ==> Dominates(a, b)
  {
  }

  /** A scheme that beats every other on its board in some one of the costs is on the frontier. */
  lemma BestIsOnFrontier(base: map<Key, Cost>, k: Key)
    requires k in base
    requires || (forall o :: o in base && o.board == k.board && o != k ==> base[k].latency < base[o].latency)
             || (forall o :: o in base && o.board == k.board && o != k ==> base[k].traffic < base[o].traffic)
             || (forall o :: o in base && o.board == k.board && o != k ==> base[k].heap < base[o].heap)
    ensures OnFrontier(base, k)
  {
  }

  // ---- What the frontier is -------------------------------------------------------------------

  /** `f` is on the frontier of the board of `k` and beats `k`. */
  ghost predicate Covers(base: map<Key, Cost>, f: Key, k: Key)
    requires k in base
  {
    OnFrontier(base, f) && f.board == k.board && Dominates(base[f], base[k])
  }

  ghost function Dominators(base: map<Key, Cost>, k: Key): set<Key>
    requires k in base
  {
    set o | o in base && o.board == k.board && Dominates(base[o], base[k])
  }

  lemma SubsetIsSmaller(a: set<Key>, b: set<Key>)
    requires a < b
    ensures |a| < |b|
  {
    assert b == a + (b - a);
    assert b - a != {};
  }

  /** Every measured scheme that is off the frontier is beaten by one that is on it: going from
      dominator to dominator must end. */
  lemma {:induction false} OffFrontierIsCovered(base: map<Key, Cost>, k: Key) returns (f: Key)
    requires k in base && !OnFrontier(base, k)
    ensures Covers(base, f, k)
    decreases |Dominators(base, k)|
  {
    var o :| o in base && o.board == k.board && o != k && Dominates(base[o], base[k]);
    if OnFrontier(base, o) {
      f := o;
    } else {
      assert Dominators(base, o) < Dominators(base, k) by {
        assert o in Dominators(base, k) && o !in Dominators(base, o);
      }
      SubsetIsSmaller(Dominators(base, o), Dominators(base, k));
      f := OffFrontierIsCovered(base, o);
    }
  }

  /** A board with a measured scheme has a scheme on the frontier. */
  lemma FrontierIsNotEmpty(base: map<Key, Cost>, k: Key) returns (f: Key)
    requires k in base
    ensures OnFrontier(base, f) && f.board == k.board
  {
    if OnFrontier(base, k) {
      f := k;
    } else {
      f := OffFrontierIsCovered(base, k);
    }
  }

  /** Nothing measured on the board, itself included, dominates a scheme on the frontier. */
  lemma FrontierIsAntichain(base: map<Key, Cost>, f: Key, g: Key)
    requires OnFrontier(base, f) && g in base && f.board == g.board
    ensures !Dominates(base[g], base[f])
  {
    DominanceIsStrictOrder(base[f], base[f], base[f]);
  }

  /** A row is marked "no" exactly when its scheme was never measured or a marked row beats it. */
  lemma MarkedNoIff(base: map<Key, Cost>, k: Key)
    ensures Mark(base, k) == "no" <==> k !in base || exists f :: Covers(base, f, k)
  {
    if k in base && !OnFrontier(base, k) {
      var f := OffFrontierIsCovered(base, k);
    } else if k in base {
      forall f | Covers(base, f, k)
        ensures false
      {
        FrontierIsAntichain(base, k, f);
      }
    }
  }

  /** `s` beats or contains every measured scheme of the board. */
  ghost predicate IsCover(base: map<Key, Cost>, board: string, s: set<Key>) {
    && (forall f :: f in s ==> f in base && f.board == board)
    && (forall k :: k in base && k.board == board && k !in s ==>
          exists f :: f in s && Dominates(base[f], base[k]))
  }

  ghost function Frontier(base: map<Key, Cost>, board: string): set<Key> {
    set k | k in base && k.board == board && OnFrontier(base, k)
  }

  /** The frontier is the least set of schemes that beats everything else on the board. */
  lemma FrontierIsLeastCover(base: map<Key, Cost>, board: string, s: set<Key>)
    ensures IsCover(base, board, Frontier(base, board))
    ensures IsCover(base, board, s) ==> Frontier(base, board) <= s
  {
    forall k | k in base && k.board == board && k !in Frontier(base, board)
      ensures exists f :: f in Frontier(base, board) && Dominates(base[f], base[k])
    {
      var f := OffFrontierIsCovered(base, k);
      assert f in Frontier(base, board);
    }
    if IsCover(base, board, s) {
      forall k | k in Frontier(base, board)
        ensures k in s
      {
        forall f | f in s
          ensures !Dominates(base[f], base[k])
        {
          FrontierIsAntichain(base, k, f);
        }
      }
    }
  }

  // ---- The loops ------------------------------------------------------------------------------

  /** One row of the derived summary */
  class Row {
    const key: Key
    var pareto: string

    constructor (key: Key)
      ensures this.key == key && pareto == ""
    {
      this.key := key;
      pareto := "";
    }
  }

  /** The frontier of one board, candidate by candidate. */
  method FindFrontier(base: map<Key, Cost>, board: string) returns (frontier: set<Key>)
    ensures frontier == Frontier(base, board)
  {
    var candidates := set k | k in base && k.board == board;
    frontier := {};
    var todo := candidates;
    while todo != {}
      invariant todo <= candidates
      invariant frontier == Frontier(base, board) - todo
    {
      var key :| key in todo;
      var dominated := exists o :: o in candidates && o != key && Dominates(base[o], base[key]);
      assert dominated == IsDominated(base, key);
      if !dominated {
        frontier := frontier + {key};
      }
      todo := todo - {key};
    }
  }

  method MarkBoard(base: map<Key, Cost>, rows: seq<Row>, board: string, frontier: set<Key>)
    requires frontier == Frontier(base, board)
    modifies rows
    ensures forall r :: r in rows && r.key.board == board ==> r.pareto == Mark(base, r.key)
    ensures forall r :: r in rows && r.key.board != board ==> r.pareto == old(r.pareto)
  {
    for i := 0 to |rows|
      invariant forall j :: 0 <= j < i && rows[j].key.board == board ==> rows[j].pareto == Mark(base, rows[j].key)
      invariant forall r :: r in rows && r.key.board != board ==> r.pareto == old(r.pareto)
    {
      if rows[i].key in frontier {
        rows[i].pareto := "yes";
      } else if rows[i].key.board == board {
        rows[i].pareto := "no";
      }
    }
  }

  /** Every row is marked according to its own key, whatever the order of the boards and rows. */
  method MarkRows(base: map<Key, Cost>, rows: seq<Row>)
    modifies rows
    ensures forall r :: r in rows ==> r.pareto == Mark(base, r.key)
  {
    hide Mark;
    var boards := set r | r in rows :: r.key.board;
    while boards != {}
      invariant boards <= set r | r in rows :: r.key.board
      invariant forall r :: r in rows && r.key.board !in boards ==> r.pareto == Mark(base, r.key)
    {
      var board :| board in boards;
      var frontier := FindFrontier(base, board);
      MarkBoard(base, rows, board, frontier);
      boards := boards - {board};
    }
  }
}
