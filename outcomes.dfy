/** What the promise of `Solver.search` implies for the caller: what each way
    of ending tells about the puzzle, and how the clock and the sink bound the
    work done. */
module Outcomes {
  import opened StateSpace
  import opened Checkpoints
  import opened Frontier
  import opened Progress
  import opened Sokoban

  /** A search that ran out of states has visited every state reachable from
      the start, so no reachable state other than the start is a goal: an
      exhausted search is a proof that the puzzle cannot be solved. */
  lemma ExhaustedMeansUnsolvable<S(!new), M>(game: Game<S, M>, start: S, universe: set<S>, heuristic: S -> int,
                                             timeUp: nat -> bool, cancelled: nat -> bool,
                                             numExpanded: nat, reports: seq<Report>,
                                             discovered: set<S>, expanded: seq<S>, s: S)
    requires Searched(game, start, universe, heuristic, timeUp, cancelled, Exhausted, numExpanded, reports, discovered, expanded)
    requires Reachable(game, start, s) && s != start
    ensures s in discovered && !game.isGoal(s)
  {
    var p :| |p| > 0 && p[0] == start && p[|p| - 1] == s && IsPath(game, p);
    PathStaysInside(game, discovered, p);
  }

  /** A puzzle with no reachable goal other than the start is never reported solved. */
  lemma UnsolvableNeverSolved<S(!new), M>(game: Game<S, M>, start: S, universe: set<S>, heuristic: S -> int,
                                          timeUp: nat -> bool, cancelled: nat -> bool,
                                          outcome: Outcome<S>, numExpanded: nat, reports: seq<Report>,
                                          discovered: set<S>, expanded: seq<S>)
    requires Searched(game, start, universe, heuristic, timeUp, cancelled, outcome, numExpanded, reports, discovered, expanded)
    requires forall s :: Reachable(game, start, s) && s != start ==> !game.isGoal(s)
    ensures !outcome.Solved?
  {
  }

  /** When one move from the start reaches a goal, the search finds a goal on
      its first expansion (the first iteration is never a check point, so it
      cannot be stopped), and reports one expansion. */
  lemma OneMoveSolvedAtOnce<S(!new), M>(game: Game<S, M>, start: S, universe: set<S>, heuristic: S -> int,
                                        timeUp: nat -> bool, cancelled: nat -> bool,
                                        outcome: Outcome<S>, numExpanded: nat, reports: seq<Report>,
                                        discovered: set<S>, expanded: seq<S>, k: nat)
    requires Searched(game, start, universe, heuristic, timeUp, cancelled, outcome, numExpanded, reports, discovered, expanded)
    requires k < |game.moves(start)| && game.next(start, game.moves(start)[k]) != start
    requires game.isGoal(game.next(start, game.moves(start)[k]))
    ensures outcome.Solved? && numExpanded == 1
  {
  }

  /** No state is expanded twice, and the first state expanded is the start. */
  lemma NoStateExpandedTwice<S(!new), M>(game: Game<S, M>, start: S, universe: set<S>, heuristic: S -> int,
                                         timeUp: nat -> bool, cancelled: nat -> bool,
                                         outcome: Outcome<S>, numExpanded: nat, reports: seq<Report>,
                                         discovered: set<S>, expanded: seq<S>)
    requires Searched(game, start, universe, heuristic, timeUp, cancelled, outcome, numExpanded, reports, discovered, expanded)
    ensures forall a, b :: 0 <= a < b < numExpanded ==> expanded[a] != expanded[b]
    ensures numExpanded > 0 ==> expanded[0] == start
  {
    DistinctMeans(expanded);
  }

  /** The first check point at which the clock says the time is up, or the sink
      that the search is cancelled, is the last: no further state is expanded. */
  lemma StopsAtFirstSignal<S(!new), M>(game: Game<S, M>, start: S, universe: set<S>, heuristic: S -> int,
                                       timeUp: nat -> bool, cancelled: nat -> bool,
                                       outcome: Outcome<S>, numExpanded: nat, reports: seq<Report>,
                                       discovered: set<S>, expanded: seq<S>, n: nat)
    requires Searched(game, start, universe, heuristic, timeUp, cancelled, outcome, numExpanded, reports, discovered, expanded)
    requires Fires(n) && (timeUp(n) || cancelled(n))
    ensures numExpanded <= n
    ensures numExpanded == n && !outcome.Solved? && !outcome.Exhausted? ==>
      (if timeUp(n) then outcome.TimedOut? else outcome.Cancelled?)
  {
    NoStopMeans(numExpanded, timeUp, cancelled);
  }

  /** With a time limit of 0 the clock says the time is up at the first check
      point, after one expansion: the search ends with at most one expansion,
      and never as cancelled. */
  lemma ZeroTimeLimit<S(!new), M>(game: Game<S, M>, start: S, universe: set<S>, heuristic: S -> int,
                                  timeUp: nat -> bool, cancelled: nat -> bool,
                                  outcome: Outcome<S>, numExpanded: nat, reports: seq<Report>,
                                  discovered: set<S>, expanded: seq<S>)
    requires Searched(game, start, universe, heuristic, timeUp, cancelled, outcome, numExpanded, reports, discovered, expanded)
    requires forall n :: timeUp(n)
    ensures numExpanded <= 1 && !outcome.Cancelled?
  {
    CounterSchedule(1);
    StopsAtFirstSignal(game, start, universe, heuristic, timeUp, cancelled, outcome, numExpanded, reports, discovered, expanded, 1);
  }

  /** When no state offers more than `bound` moves (four directions on a Sokoban
      board), the visited set never holds more than `1 + bound * numExpanded` states. */
  lemma VisitedBound<S(!new), M>(game: Game<S, M>, start: S, universe: set<S>, heuristic: S -> int,
                                 timeUp: nat -> bool, cancelled: nat -> bool,
                                 outcome: Outcome<S>, numExpanded: nat, reports: seq<Report>,
                                 discovered: set<S>, expanded: seq<S>, bound: nat)
    requires Searched(game, start, universe, heuristic, timeUp, cancelled, outcome, numExpanded, reports, discovered, expanded)
    requires forall s :: |game.moves(s)| <= bound
    ensures |discovered| <= 1 + bound * numExpanded
  {
    MovesOfBound(game, expanded, bound);
  }

  /** The goal found is the first one met in the order of the moves of the last
      expanded state: the successor by every earlier move was already visited,
      so it is either the start or not a goal. */
  lemma FirstGoalInMoveOrder<S(!new), M>(game: Game<S, M>, start: S, universe: set<S>, heuristic: S -> int,
                                         timeUp: nat -> bool, cancelled: nat -> bool,
                                         outcome: Outcome<S>, numExpanded: nat, reports: seq<Report>,
                                         discovered: set<S>, expanded: seq<S>, j: nat)
    requires Searched(game, start, universe, heuristic, timeUp, cancelled, outcome, numExpanded, reports, discovered, expanded)
    requires outcome.Solved? && j < outcome.move
    ensures var last := expanded[|expanded| - 1];
      var s := game.next(last, game.moves(last)[j]);
      s in discovered && (game.isGoal(s) ==> s == start)
  {
    var last := expanded[|expanded| - 1];
    assert game.next(last, game.moves(last)[j]) in FirstSuccessors(game, last, outcome.move);
  }

  /** The states were polled from the queue in best-first order: each had been
      discovered by the expansion of the states polled before it and not polled
      yet, and its heuristic value was no larger than that of any other state
      then waiting in the queue. */
  lemma PolledBestFirst<S(!new), M>(game: Game<S, M>, start: S, universe: set<S>, heuristic: S -> int,
                                    timeUp: nat -> bool, cancelled: nat -> bool,
                                    outcome: Outcome<S>, numExpanded: nat, reports: seq<Report>,
                                    discovered: set<S>, expanded: seq<S>)
    requires Searched(game, start, universe, heuristic, timeUp, cancelled, outcome, numExpanded, reports, discovered, expanded)
    ensures var polled := Polled(outcome, expanded);
      forall j :: 0 <= j < |polled| ==>
        polled[j] in Discovered(game, start, polled[..j]) && polled[j] !in polled[..j] &&
        forall s :: s in Discovered(game, start, polled[..j]) && s !in polled[..j] ==> heuristic(polled[j]) <= heuristic(s)
  {
    BestFirstMeans(game, start, heuristic, Polled(outcome, expanded));
  }
}
