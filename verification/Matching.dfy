/** Greedy matching of captured TCP streams to the attempts that the firmware logged. */
module Matching {
  import opened Common

  // ---- Which attempts are candidates ----------------------------------------------------------

  /** A numeric CSV cell: the column may be absent, and the cell may be empty. */
  datatype Cell = Absent | Empty | Number(value: real)

  datatype Attempt = Attempt(scheme: string, board: string, campaign: string, run: int,
                             tcpStart: Cell, start: Cell)

  datatype Meta = Meta(scheme: string, board: string, campaign: string)

  /** The time that the filter tests: the TCP start column, and the other one only when that column is
      absent. No number counts as 0. */
  function TestedStart(a: Attempt): real {
    var cell := if a.tcpStart.Absent? then a.start else a.tcpStart;
    if cell.Number? then cell.value else 0.0
  }

  predicate IsCandidate(a: Attempt, meta: Meta) {
    && a.scheme == meta.scheme && a.board == meta.board && a.campaign == meta.campaign
    && TestedStart(a) > 0.0
  }

  /** The time that the loop compares: the TCP start if there is one, and the other start if not. */
  function UsedStart(a: Attempt): real
    requires a.tcpStart.Number? || a.start.Number?
  {
    if a.tcpStart.Number? then a.tcpStart.value else a.start.value
  }

  /** Every candidate has a time to compare, and it is the one that was tested. */
  lemma CandidateHasStart(a: Attempt, meta: Meta)
    requires IsCandidate(a, meta)
    ensures a.tcpStart.Number? || a.start.Number?
    ensures UsedStart(a) == TestedStart(a)
  {
  }

  /** An attempt with a good start time is dropped exactly when its TCP column exists without a
      positive time in it. */
  lemma DroppedIff(a: Attempt, meta: Meta)
    requires a.scheme == meta.scheme && a.board == meta.board && a.campaign == meta.campaign
    requires a.start.Number? && a.start.value > 0.0
    ensures !IsCandidate(a, meta) <==>
              a.tcpStart.Empty? || (a.tcpStart.Number? && a.tcpStart.value <= 0.0)
  {
  }

  function Candidates(attempts: seq<Attempt>, meta: Meta): (r: seq<Attempt>)
    ensures forall i :: 0 <= i < |r| ==> IsCandidate(r[i], meta)
  {
    if attempts == [] then []
    else
      var rest := Candidates(attempts[..|attempts|-1], meta);
      if IsCandidate(attempts[|attempts|-1], meta) then rest + [attempts[|attempts|-1]] else rest
  }

  /** An attempt of the scheme, board and campaign of `meta` whose start is a positive time: that of the
      TCP column, or the other one if the log has no TCP column. */
  predicate Qualifies(a: Attempt, meta: Meta) {
    && a.scheme == meta.scheme && a.board == meta.board && a.campaign == meta.campaign
    && match a.tcpStart
       case Number(x) => x > 0.0
       case Empty => false
       case Absent => a.start.Number? && a.start.value > 0.0
  }

  /** `places` are the indices, in ascending order, at which `attempts` qualify. */
  ghost predicate ArePlaces(places: seq<nat>, attempts: seq<Attempt>, meta: Meta) {
    && (forall i, k :: 0 <= i < k < |places| ==> places[i] < places[k])
    && (forall i :: 0 <= i < |places| ==> places[i] < |attempts|)
    && (forall p: nat :: p < |attempts| ==> (p in places <==> Qualifies(attempts[p], meta)))
  }

  lemma PlacesSnoc(before: seq<nat>, attempts: seq<Attempt>, a: Attempt, meta: Meta)
    requires ArePlaces(before, attempts, meta)
    ensures ArePlaces(if Qualifies(a, meta) then before + [|attempts|] else before, attempts + [a], meta)
  {
    hide Qualifies;
    var places := if Qualifies(a, meta) then before + [|attempts|] else before;
    forall p: nat | p < |attempts + [a]|
      ensures p in places <==> Qualifies((attempts + [a])[p], meta)
    {
      if p < |attempts| {
        assert (attempts + [a])[p] == attempts[p];
        assert p in places <==> p in before;
      }
    }
  }

  lemma QualifiesIff(a: Attempt, meta: Meta)
    ensures IsCandidate(a, meta) <==> Qualifies(a, meta)
  {
  }

  ghost predicate AreAt(found: seq<Attempt>, attempts: seq<Attempt>, places: seq<nat>) {
    && |found| == |places|
    && forall i :: 0 <= i < |places| ==> places[i] < |attempts| && found[i] == attempts[places[i]]
  }

  lemma AreAtSnoc(found: seq<Attempt>, attempts: seq<Attempt>, places: seq<nat>, a: Attempt)
    requires AreAt(found, attempts, places)
    ensures AreAt(found, attempts + [a], places)
    ensures AreAt(found + [a], attempts + [a], places + [|attempts|])
  {
  }

  lemma CandidatesSnoc(attempts: seq<Attempt>, a: Attempt, meta: Meta)
    ensures Candidates(attempts + [a], meta)
         == if Qualifies(a, meta) then Candidates(attempts, meta) + [a] else Candidates(attempts, meta)
  {
    QualifiesIff(a, meta);
    assert (attempts + [a])[..|attempts|] == attempts;
  }

  /** The candidates are the attempts that qualify, each as often as it was logged and in the order of the
      log: candidate `i` is the attempt at the `i`-th of these places. */
  lemma {:induction false} CandidatesAreSelected(attempts: seq<Attempt>, meta: Meta) returns (places: seq<nat>)
    ensures ArePlaces(places, attempts, meta) && AreAt(Candidates(attempts, meta), attempts, places)
  {
    if attempts == [] {
      places := [];
    } else {
      hide Qualifies, ArePlaces, AreAt, Candidates;
      var before, a := attempts[..|attempts|-1], attempts[|attempts|-1];
      assert attempts == before + [a];
      places := CandidatesAreSelected(before, meta);
      PlacesSnoc(places, before, a, meta);
      AreAtSnoc(Candidates(before, meta), before, places, a);
      CandidatesSnoc(before, a, meta);
      if Qualifies(a, meta) {
        places := places + [|before|];
      }
    }
  }

  lemma CandidateIff(attempts: seq<Attempt>, meta: Meta, a: Attempt)
    ensures a in Candidates(attempts, meta) <==> a in attempts && Qualifies(a, meta)
  {
    var places := CandidatesAreSelected(attempts, meta);
    var all := Candidates(attempts, meta);
    if a in attempts && Qualifies(a, meta) {
      var p: nat :| p < |attempts| && attempts[p] == a;
      assert p in places;
      var i :| 0 <= i < |places| && places[i] == p;
      assert all[i] == a;
    }
    if a in all {
      var i :| 0 <= i < |all| && all[i] == a;
      assert places[i] in places;
    }
  }

  function StartTimes(candidates: seq<Attempt>): (t: seq<real>)
    ensures |t| == |candidates|
  {
    seq(|candidates|, i requires 0 <= i < |candidates| => TestedStart(candidates[i]))
  }

  // ---- The greedy assignment ------------------------------------------------------------------

  /** The absolute difference. */
  function Distance(x: real, y: real): (d: real)
    ensures d >= x - y && d >= y - x && (d == x - y || d == y - x)
  {
    if x < y then y - x else x - y
  }

  /** Candidate `j` comes before `k` in `min(choices)` for a stream that starts at `c`. */
  predicate Nearer(c: real, times: seq<real>, j: nat, k: nat)
    requires j < |times| && k < |times|
  {
    var x, y := Distance(c, times[j]), Distance(c, times[k]);
    x < y || (x == y && j <= k)
  }

  /** The candidates that no match has used up */
  function Unused(times: seq<real>, matches: seq<Option<nat>>): (u: set<nat>)
    ensures forall j: nat :: j in u <==> j < |times| && Some(j) !in matches
  {
    set j: nat | 0 <= j < |times| && Some(j) !in matches
  }

  ghost predicate InRange(unused: set<nat>, times: seq<real>) {
    forall j :: j in unused ==> j < |times|
  }

  /** What the body of the loop settles for one stream: the nearest unused candidate if it is within
      the window, and nothing otherwise. */
  ghost predicate Chooses(c: real, times: seq<real>, unused: set<nat>, window: real, choice: Option<nat>)
    requires InRange(unused, times)
  {
    match choice
    case None => forall j :: j in unused ==> Distance(c, times[j]) > window
    case Some(j) =>
      && j in unused && Distance(c, times[j]) <= window
      && forall k :: k in unused ==> Nearer(c, times, j, k)
  }

  /** Every stream in turn chooses among what the earlier ones left. */
  ghost predicate IsGreedy(starts: seq<real>, times: seq<real>, window: real, matches: seq<Option<nat>>) {
    && |matches| == |starts|
    && forall i :: 0 <= i < |starts| ==>
         Chooses(starts[i], times, Unused(times, matches[..i]), window, matches[i])
  }

  lemma ChoiceIsUnique(c: real, times: seq<real>, unused: set<nat>, window: real, x: Option<nat>, y: Option<nat>)
    requires InRange(unused, times)
    requires Chooses(c, times, unused, window, x) && Chooses(c, times, unused, window, y)
    ensures x == y
  {
  }

  lemma GreedyPrefix(starts: seq<real>, times: seq<real>, window: real, m: seq<Option<nat>>)
    requires IsGreedy(starts, times, window, m) && starts != []
    ensures IsGreedy(starts[..|starts|-1], times, window, m[..|starts|-1])
  {
    hide Chooses;
    var k := |starts| - 1;
    forall i | 0 <= i < k
      ensures Chooses(starts[..k][i], times, Unused(times, m[..k][..i]), window, m[..k][i])
    {
      assert m[..k][..i] == m[..i];
    }
  }

  /** There is only one greedy assignment. */
  lemma {:induction false} GreedyIsUnique(starts: seq<real>, times: seq<real>, window: real,
                                          x: seq<Option<nat>>, y: seq<Option<nat>>)
    requires IsGreedy(starts, times, window, x) && IsGreedy(starts, times, window, y)
    ensures x == y
  {
    hide Chooses;
    if starts != [] {
      var k := |starts| - 1;
      GreedyPrefix(starts, times, window, x);
      GreedyPrefix(starts, times, window, y);
      GreedyIsUnique(starts[..k], times, window, x[..k], y[..k]);
      ChoiceIsUnique(starts[k], times, Unused(times, x[..k]), window, x[k], y[k]);
      assert x == x[..k] + [x[k]] && y == y[..k] + [y[k]];
    }
  }

  // ---- What any input gets --------------------------------------------------------------------

  /** No attempt is given to two streams. */
  lemma MatchesAreDistinct(starts: seq<real>, times: seq<real>, window: real, m: seq<Option<nat>>, i: nat, k: nat)
    requires IsGreedy(starts, times, window, m) && i < k < |m| && m[k].Some?
    ensures m[i] != m[k]
  {
    assert m[i] == m[..k][i];
    assert m[i] in m[..k];
  }

  /** A match is an attempt within the window of the stream. */
  lemma MatchesAreClose(starts: seq<real>, times: seq<real>, window: real, m: seq<Option<nat>>, i: nat)
    requires IsGreedy(starts, times, window, m) && i < |m| && m[i].Some?
    ensures m[i].value < |times| && Distance(starts[i], times[m[i].value]) <= window
  {
  }

  /** A stream stays unmatched only if no attempt that is still unused at the end is near it. */
  lemma MatchingIsMaximal(starts: seq<real>, times: seq<real>, window: real, m: seq<Option<nat>>, i: nat, j: nat)
    requires IsGreedy(starts, times, window, m) && i < |m| && m[i].None?
    requires j in Unused(times, m)
    ensures Distance(starts[i], times[j]) > window
  {
    assert j in Unused(times, m[..i]);
  }

  // ---- Recovering the truth -------------------------------------------------------------------

  ghost predicate TrueFor(c: real, times: seq<real>, window: real, jitter: real, t: Option<nat>) {
    match t
    case None => forall j :: 0 <= j < |times| ==> Distance(c, times[j]) > window
    case Some(j) => j < |times| && Distance(c, times[j]) <= jitter
  }

  /** `truth[i]` is the attempt that stream `i` belongs to, if it is a candidate. Streams start within
      `jitter` of their attempts; streams of no candidate are outside everyone's window. */
  ghost predicate IsTruth(starts: seq<real>, times: seq<real>, window: real, jitter: real, truth: seq<Option<nat>>) {
    && |truth| == |starts|
    && (forall i :: 0 <= i < |starts| ==> TrueFor(starts[i], times, window, jitter, truth[i]))
    && (forall i, k :: 0 <= i < k < |truth| && truth[k].Some? ==> truth[i] != truth[k])
  }

  ghost predicate Apart(times: seq<real>, gap: real) {
    forall j, k :: 0 <= j < |times| && 0 <= k < |times| && j != k ==> Distance(times[j], times[k]) > gap
  }

  /** The true attempt is nearer than any other. */
  lemma TruthIsNearest(c: real, times: seq<real>, jitter: real, j: nat, k: nat)
    requires Apart(times, 2.0 * jitter) && j < |times| && k < |times|
    requires Distance(c, times[j]) <= jitter
    ensures Nearer(c, times, j, k)
  {
  }

  /** If attempts are more than twice the jitter apart, and the window is not smaller than the jitter,
      every stream is given its own attempt: in any order of the streams, and with any attempts that
      left no stream. */
  lemma {:induction false} GreedyRecoversTruth(starts: seq<real>, times: seq<real>, window: real, jitter: real,
                                               truth: seq<Option<nat>>)
    requires IsTruth(starts, times, window, jitter, truth)
    requires jitter <= window && Apart(times, 2.0 * jitter)
    ensures IsGreedy(starts, times, window, truth)
  {
    hide Apart, Nearer;
    forall i | 0 <= i < |starts|
      ensures Chooses(starts[i], times, Unused(times, truth[..i]), window, truth[i])
    {
      assert TrueFor(starts[i], times, window, jitter, truth[i]);
      if truth[i].Some? {
        var j := truth[i].value;
        assert forall k :: 0 <= k < i ==> truth[..i][k] == truth[k];
        assert Some(j) !in truth[..i];
        forall k | k in Unused(times, truth[..i])
          ensures Nearer(starts[i], times, j, k)
        {
          TruthIsNearest(starts[i], times, jitter, j, k);
        }
      }
    }
  }

  /** Any greedy assignment is the truth. */
  lemma MatchingIsTrue(starts: seq<real>, times: seq<real>, window: real, jitter: real,
                       truth: seq<Option<nat>>, matches: seq<Option<nat>>)
    requires IsTruth(starts, times, window, jitter, truth) && IsGreedy(starts, times, window, matches)
    requires jitter <= window && Apart(times, 2.0 * jitter)
    ensures matches == truth
  {
    GreedyRecoversTruth(starts, times, window, jitter, truth);
    GreedyIsUnique(starts, times, window, matches, truth);
  }

  /** A stream halfway between two attempts goes to the first of them; if the attempts are at most
      twice the jitter apart, it may belong to the second. */
  lemma HalfwayIsLost(times: seq<real>, window: real, jitter: real, j: nat, k: nat)
    requires 0.0 <= jitter <= window && j < k < |times| && Distance(times[j], times[k]) <= 2.0 * jitter
    ensures var starts, truth := [(times[j] + times[k]) / 2.0], [Some(k)];
            IsTruth(starts, times, window, jitter, truth) && !IsGreedy(starts, times, window, truth)
  {
    var c := (times[j] + times[k]) / 2.0;
    var truth: seq<Option<nat>> := [Some(k)];
    assert truth[..0] == [];
    assert j in Unused(times, []) && !Nearer(c, times, k, j);
    assert !Chooses(c, times, Unused(times, truth[..0]), window, truth[0]);
  }

  /** Whatever the streams and whoever they belong to, the loop finds out. */
  ghost predicate AlwaysRecovers(times: seq<real>, window: real, jitter: real) {
    forall starts, truth :: IsTruth(starts, times, window, jitter, truth) ==> IsGreedy(starts, times, window, truth)
  }

  lemma DistanceIsSymmetric(x: real, y: real)
    ensures Distance(x, y) == Distance(y, x)
  {
  }

  /** The exact condition, for a window that is not smaller than the jitter: all attempts are more than
      twice the jitter apart. */
  lemma RecoversIffApart(times: seq<real>, window: real, jitter: real)
    requires 0.0 <= jitter <= window
    ensures AlwaysRecovers(times, window, jitter) <==> Apart(times, 2.0 * jitter)
  {
    hide IsTruth, IsGreedy, Distance;
    if Apart(times, 2.0 * jitter) {
      forall starts, truth | IsTruth(starts, times, window, jitter, truth)
        ensures IsGreedy(starts, times, window, truth)
      {
        GreedyRecoversTruth(starts, times, window, jitter, truth);
      }
    } else {
      var j, k :| 0 <= j < |times| && 0 <= k < |times| && j != k && !(Distance(times[j], times[k]) > 2.0 * jitter);
      DistanceIsSymmetric(times[j], times[k]);
      HalfwayIsLost(times, window, jitter, if j < k then j else k, if j < k then k else j);
    }
  }

  /** An instance: two attempts exactly twice the jitter apart, and what the loop does instead. */
  lemma SeparationIsTight(jitter: real, window: real)
    requires 0.0 < jitter <= window
    ensures var starts, times := [2.0 * jitter], [jitter, 3.0 * jitter];
            && IsTruth(starts, times, window, jitter, [Some(1)])
            && !IsGreedy(starts, times, window, [Some(1)])
            && IsGreedy(starts, times, window, [Some(0)])
  {
    var times, m: seq<Option<nat>> := [jitter, 3.0 * jitter], [Some(0)];
    HalfwayIsLost(times, window, jitter, 0, 1);
    assert (times[0] + times[1]) / 2.0 == 2.0 * jitter;
    assert m[..0] == [];
    assert Unused(times, []) == {0, 1};
  }

  // ---- The loop -------------------------------------------------------------------------------

  /** One row of the capture table */
  class Capture {
    const start: real
    var run: int
    var matchMethod: string

    constructor (start: real, run: int)
      ensures this.start == start && this.run == run && matchMethod == "sequential"
    {
      this.start := start;
      this.run := run;
      matchMethod := "sequential";
    }
  }

  function Starts(captures: seq<Capture>): (s: seq<real>)
    ensures |s| == |captures|
  {
    seq(|captures|, i requires 0 <= i < |captures| => captures[i].start)
  }

  /** `min(choices)` over a non-empty set of indices. */
  method PickNearest(c: real, times: seq<real>, unused: set<nat>) returns (best: nat)
    requires InRange(unused, times) && unused != {}
    ensures best in unused && forall k :: k in unused ==> Nearer(c, times, best, k)
  {
    best :| best in unused;
    var todo := unused - {best};
    while todo != {}
      invariant todo <= unused && best in unused
      invariant forall k :: k in unused && k !in todo ==> Nearer(c, times, best, k)
    {
      var j :| j in todo;
      if !Nearer(c, times, best, j) {
        best := j;
      }
      todo := todo - {j};
    }
  }

  /** What a matched or unmatched row says. */
  ghost predicate Written(capture: Capture, choice: Option<nat>, candidates: seq<Attempt>)
    reads capture
  {
    match choice
    case None => capture.run == -1 && capture.matchMethod == "unmatched"
    case Some(j) => j < |candidates| && capture.run == candidates[j].run && capture.matchMethod == "epoch"
  }

  method FindCandidates(attempts: seq<Attempt>, meta: Meta) returns (candidates: seq<Attempt>)
    ensures candidates == Candidates(attempts, meta)
    ensures forall a :: a in candidates <==> a in attempts && Qualifies(a, meta)
  {
    candidates := [];
    for i := 0 to |attempts|
      invariant candidates == Candidates(attempts[..i], meta)
    {
      assert attempts[..i+1][..i] == attempts[..i];
      if IsCandidate(attempts[i], meta) {
        candidates := candidates + [attempts[i]];
      }
    }
    assert attempts[..|attempts|] == attempts;
    forall a
      ensures a in candidates <==> a in attempts && Qualifies(a, meta)
    {
      CandidateIff(attempts, meta, a);
    }
  }

  /** If the nearest is outside the window, all are. */
  lemma NoneNear(c: real, times: seq<real>, unused: set<nat>, window: real, j: nat)
    requires InRange(unused, times) && j in unused
    requires forall k :: k in unused ==> Nearer(c, times, j, k)
    requires Distance(c, times[j]) > window
    ensures Chooses(c, times, unused, window, None)
  {
    forall k | k in unused
      ensures Distance(c, times[k]) > window
    {
      assert Nearer(c, times, j, k);
    }
  }

  /** The body of the loop. */
  method MatchOne(capture: Capture, candidates: seq<Attempt>, times: seq<real>, unused: set<nat>, window: real)
    returns (choice: Option<nat>)
    requires InRange(unused, times) && |times| == |candidates|
    modifies capture
    ensures Chooses(capture.start, times, unused, window, choice)
    ensures Written(capture, choice, candidates)
  {
    hide Nearer;
    choice := None;
    if unused != {} {
      var j := PickNearest(capture.start, times, unused);
      if Distance(capture.start, times[j]) > window {
        NoneNear(capture.start, times, unused, window, j);
      } else {
        choice := Some(j);
      }
    }
    if choice.Some? {
      capture.run := candidates[choice.value].run;
      capture.matchMethod := "epoch";
    } else {
      capture.run := -1;
      capture.matchMethod := "unmatched";
    }
  }

  lemma GreedySnoc(starts: seq<real>, c: real, times: seq<real>, window: real, m: seq<Option<nat>>, choice: Option<nat>)
    requires IsGreedy(starts, times, window, m) && Chooses(c, times, Unused(times, m), window, choice)
    ensures IsGreedy(starts + [c], times, window, m + [choice])
  {
    hide Chooses;
    var n := m + [choice];
    forall i | 0 <= i < |n|
      ensures Chooses((starts + [c])[i], times, Unused(times, n[..i]), window, n[i])
    {
      if i < |m| {
        assert n[..i] == m[..i];
      } else {
        assert n[..i] == m;
      }
    }
  }

  lemma UseUp(times: seq<real>, m: seq<Option<nat>>, choice: Option<nat>)
    ensures Unused(times, m + [choice])
         == if choice.Some? then Unused(times, m) - {choice.value} else Unused(times, m)
  {
  }

  lemma NothingYet(times: seq<real>, window: real, all: set<nat>)
    requires forall k: nat :: k in all <==> k < |times|
    ensures IsGreedy([], times, window, []) && all == Unused(times, [])
  {
  }

  /** A match is an attempt that qualifies and whose own start is within the window. */
  lemma MatchIsGenuine(starts: seq<real>, attempts: seq<Attempt>, meta: Meta, window: real,
                       matches: seq<Option<nat>>, i: nat)
    requires IsGreedy(starts, StartTimes(Candidates(attempts, meta)), window, matches)
    requires i < |matches| && matches[i].Some? && matches[i].value < |Candidates(attempts, meta)|
    ensures var a := Candidates(attempts, meta)[matches[i].value];
            && a in attempts && Qualifies(a, meta) && Distance(starts[i], UsedStart(a)) <= window
  {
    hide Candidates;
    var all := Candidates(attempts, meta);
    var a := all[matches[i].value];
    CandidateIff(attempts, meta, a);
    CandidateHasStart(a, meta);
    MatchesAreClose(starts, StartTimes(all), window, matches, i);
  }

  /** `match_attempt_runs` writes the greedy assignment into the capture rows. */
  method MatchAttemptRuns(captures: seq<Capture>, attempts: seq<Attempt>, meta: Meta, window: real)
    returns (ghost matches: seq<Option<nat>>)
    requires forall i, k :: 0 <= i < k < |captures| ==> captures[i] != captures[k]
    modifies captures
    ensures IsGreedy(Starts(captures), StartTimes(Candidates(attempts, meta)), window, matches)
    ensures forall i :: 0 <= i < |captures| ==> Written(captures[i], matches[i], Candidates(attempts, meta))
    ensures forall i :: 0 <= i < |captures| ==>
              captures[i].matchMethod == (if matches[i].Some? then "epoch" else "unmatched")
    ensures forall i :: 0 <= i < |captures| && matches[i].None? ==> captures[i].run == -1
    ensures forall i :: 0 <= i < |captures| && captures[i].matchMethod == "epoch" ==>
              exists a :: a in attempts && Qualifies(a, meta) && captures[i].run == a.run
                          && Distance(captures[i].start, UsedStart(a)) <= window
  {
    hide IsGreedy, Chooses, Candidates, Unused, StartTimes, Qualifies, Distance, UsedStart;
    var candidates := FindCandidates(attempts, meta);
    var times := StartTimes(candidates);
    ghost var starts := Starts(captures);
    var unused: set<nat> := {};
    for j := 0 to |times|
      invariant forall k: nat :: k in unused <==> k < j
    {
      unused := unused + {j};
    }
    matches := [];
    NothingYet(times, window, unused);
    assert starts[..0] == [];
    for i := 0 to |captures|
      invariant |matches| == i && unused == Unused(times, matches)
      invariant IsGreedy(starts[..i], times, window, matches)
      invariant forall k :: 0 <= k < i ==> Written(captures[k], matches[k], candidates)
    {
      var choice := MatchOne(captures[i], candidates, times, unused, window);
      GreedySnoc(starts[..i], starts[i], times, window, matches, choice);
      assert starts[..i+1] == starts[..i] + [starts[i]];
      UseUp(times, matches, choice);
      if choice.Some? {
        unused := unused - {choice.value};
      }
      matches := matches + [choice];
    }
    assert starts[..|captures|] == starts;
    forall i | 0 <= i < |captures| && captures[i].matchMethod == "epoch"
      ensures exists a :: a in attempts && Qualifies(a, meta) && captures[i].run == a.run
                          && Distance(captures[i].start, UsedStart(a)) <= window
    {
      MatchIsGenuine(starts, attempts, meta, window, matches, i);
      assert candidates[matches[i].value] in candidates;
    }
  }
}
