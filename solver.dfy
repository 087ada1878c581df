/** The search engine of the solver: class `Solver` with its field `endState`
    and its method `search`. */
module Sokoban {
  import opened StateSpace
  import opened Checkpoints
  import opened Frontier
  import opened Progress

  /** How a call of `search` ended. The solver itself tells these apart only
      through `endState`; they are named here so that contracts can speak of them.
      A goal is recorded with the index of the move that reached it; a stop at a
      check point with the state polled there, which is not expanded. */
  datatype Outcome<S> = Solved(goal: S, move: nat) | Exhausted | TimedOut(polled: S) | Cancelled(polled: S)

  /** The expanded states whose moves were all enumerated: all of them, except
      the last one when one of its successors was a goal. */
  function Finished<S>(outcome: Outcome<S>, expanded: seq<S>): (done: seq<S>)
  {
    if outcome.Solved? && expanded != [] then expanded[..|expanded| - 1] else expanded
  }

  /** The states polled from the queue: the expanded ones and, after a stop at a
      check point, the one polled there. */
  function Polled<S>(outcome: Outcome<S>, expanded: seq<S>): (states: seq<S>)
  {
    if outcome.TimedOut? || outcome.Cancelled? then expanded + [outcome.polled] else expanded
  }

  /** A search that found a goal while expanding `cur` had finished the states before it. */
  lemma FinishedSolved<S>(outcome: Outcome<S>, expanded: seq<S>, cur: S)
    requires outcome.Solved?
    ensures Finished(outcome, expanded + [cur]) == expanded
  {
    assert (expanded + [cur])[..|expanded|] == expanded;
  }

  /** What holds of the counters at the head of the search loop: one expansion per
      expanded state, one inspection per enumerated move, at most one new visited
      state per inspection, and the check counter `i` as the schedule gives it. */
  ghost predicate CountInv<S, M>(game: Game<S, M>, expanded: seq<S>, visited: set<S>,
                                 numExpanded: nat, numInspected: nat, i: nat)
  {
    numExpanded == |expanded| && numInspected == MovesOf(game, expanded) &&
    |visited| <= 1 + numInspected && i == Counter(numExpanded)
  }

  /** An iteration that expands `cur` completely keeps the counters in step. */
  lemma CountStep<S, M>(game: Game<S, M>, expanded: seq<S>, visited: set<S>, numExpanded: nat, numInspected: nat, i: nat,
                        cur: S, expanded': seq<S>, visited': set<S>, numExpanded': nat, numInspected': nat, i': nat,
                        newStates: nat)
    requires CountInv(game, expanded, visited, numExpanded, numInspected, i)
    requires expanded' == expanded + [cur] && numExpanded' == numExpanded + 1
    requires i' == (if IsCheckPoint(numExpanded, i) then 0 else i) + 1
    requires |visited'| == |visited| + newStates && numInspected + newStates <= numInspected'
    requires numInspected' == numInspected + |game.moves(cur)|
    ensures CountInv(game, expanded', visited', numExpanded', numInspected', i')
  {
    MovesOfSnoc(game, expanded, cur);
  }

  /** What a finished search leaves in its visited set `discovered` and its
      sequence of expanded states. A goal found is, among the moves of the last
      expanded state, the successor by move `outcome.move`; it is unvisited and
      reachable from the start, and the visited set is then what the finished
      states discovered plus the successors by the moves before that one.
      Otherwise the visited set is what the expanded states discovered. The
      visited set is sound; no state is expanded twice and the start first; each
      finished state has all its successors visited; and when the queue ran
      empty, every visited state was expanded and no move leads out of the
      visited set. */
  ghost predicate SearchedStates<S(!new), M>(game: Game<S, M>, start: S, universe: set<S>,
                                             outcome: Outcome<S>, discovered: set<S>, expanded: seq<S>)
  {
    (outcome.Solved? ==>
       expanded != [] &&
       var last := expanded[|expanded| - 1];
       outcome.move < |game.moves(last)| && outcome.goal == game.next(last, game.moves(last)[outcome.move]) &&
       game.isGoal(outcome.goal) && outcome.goal != start && outcome.goal !in discovered &&
       discovered == Discovered(game, start, Finished(outcome, expanded)) + FirstSuccessors(game, last, outcome.move) &&
       Reachable(game, start, outcome.goal)) &&
    (!outcome.Solved? ==> discovered == Discovered(game, start, expanded)) &&
    VisitedSound(game, start, universe, discovered) &&
    ExpansionOrder(start, expanded, discovered) &&
    ExpandedInto(game, Finished(outcome, expanded), discovered) &&
    (outcome.Exhausted? ==> AllExpanded(discovered, expanded) && Closed(game, discovered))
  }

  /** The progress reports of a finished search: one per check point passed (the
      one where the search stopped included), as `Logged` says, then a final one
      with the number of expanded nodes and, as the number of boxes on goals,
      that of the goal found or 0. The final inspected count is one per move
      enumerated: all moves of the expanded states, or, when a goal was found,
      those of the finished states and the moves of the last state up to and
      including the one that reached the goal. It bounds the visited set. */
  ghost predicate SearchedReports<S, M>(game: Game<S, M>, outcome: Outcome<S>, numExpanded: nat,
                                        reports: seq<Report>, discovered: set<S>, expanded: seq<S>)
  {
    Logged(game, reports, Polled(outcome, expanded), if outcome.TimedOut? || outcome.Cancelled? then numExpanded + 1 else numExpanded) &&
    var last := reports[|reports| - 1];
    last.expanded == numExpanded &&
    last.filled == (if outcome.Solved? then game.boxesOnGoal(outcome.goal) else 0) &&
    |discovered| <= 1 + last.inspected &&
    last.inspected == if outcome.Solved? then MovesOf(game, Finished(outcome, expanded)) + outcome.move + 1
                      else MovesOf(game, expanded)
  }

  /** The states of a search that found `goal` by move `move` of `cur`. */
  lemma SolvedStates<S(!new), M>(game: Game<S, M>, start: S, universe: set<S>,
                                 queue: multiset<S>, visited: set<S>, expanded: seq<S>,
                                 cur: S, added: seq<S>, visited': set<S>, goal: S, move: nat)
    requires FrontierInv(game, start, universe, queue, visited, expanded) && cur in queue
    requires Grows(game, universe, cur, visited, added, visited')
    requires move < |game.moves(cur)| && goal == game.next(cur, game.moves(cur)[move])
    requires game.isGoal(goal) && goal !in visited' && visited' == visited + FirstSuccessors(game, cur, move)
    ensures SearchedStates(game, start, universe, Solved(goal, move), visited', expanded + [cur])
  {
    FrontierGrow(game, start, universe, queue, visited, expanded, cur, added, visited');
    CoreFacts(game, start, universe, queue - multiset{cur} + multiset(added), visited', expanded + [cur]);
    FinishedSolved(Solved(goal, move), expanded, cur);
    assert cur in visited && Step(game, cur, goal);
    ReachableStep(game, start, cur, goal);
  }

  /** The states of a search that stopped at a check point, or ran out of states. */
  lemma StoppedStates<S(!new), M>(game: Game<S, M>, start: S, universe: set<S>,
                                  queue: multiset<S>, visited: set<S>, expanded: seq<S>, outcome: Outcome<S>)
    requires FrontierInv(game, start, universe, queue, visited, expanded)
    requires outcome.TimedOut? || outcome.Cancelled? || (outcome.Exhausted? && queue == multiset{})
    ensures SearchedStates(game, start, universe, outcome, visited, expanded)
  {
    CoreFacts(game, start, universe, queue, visited, expanded);
    if outcome.Exhausted? {
      ExhaustedFacts(game, start, universe, queue, visited, expanded);
    }
  }

  /** The reports of a search that found `goal` by move `move` of `cur`, its
      `n + 1`-th expansion, after `inspected` inspections. */
  lemma SolvedReports<S, M>(game: Game<S, M>, reports: seq<Report>, final: Report, goal: S, move: nat,
                            expanded: seq<S>, visited: set<S>, n: nat, numInspected: nat, i: nat,
                            cur: S, visited': set<S>, newStates: nat, inspected: nat)
    requires CountInv(game, expanded, visited, n, numInspected, i)
    requires |reports| == ChecksBelow(n + 1) && CheckReports(game, reports, expanded + [cur])
    requires |visited'| == |visited| + newStates && newStates <= move
    requires inspected == numInspected + move + 1
    requires final.expanded == n + 1 && final.inspected == inspected && final.filled == game.boxesOnGoal(goal)
    ensures SearchedReports(game, Solved(goal, move), n + 1, reports + [final], visited', expanded + [cur])
  {
    assert (expanded + [cur])[..n] == expanded;
    FinalReport(game, reports, expanded + [cur], n + 1, n, final);
    FinishedSolved(Solved(goal, move), expanded, cur);
  }

  /** The reports of a search that stopped at a check point, or ran out of states. */
  lemma StoppedReports<S, M>(game: Game<S, M>, outcome: Outcome<S>, reports: seq<Report>, final: Report,
                             expanded: seq<S>, visited: set<S>, n: nat, numInspected: nat, i: nat)
    requires !outcome.Solved?
    requires CountInv(game, expanded, visited, n, numInspected, i)
    requires |reports| == ChecksBelow(if outcome.Exhausted? then n else n + 1)
    requires CheckReports(game, reports, Polled(outcome, expanded))
    requires final.expanded == n && final.inspected == numInspected && final.filled == 0
    ensures SearchedReports(game, outcome, n, reports + [final], visited, expanded)
  {
    var polled := Polled(outcome, expanded);
    assert polled[..n] == expanded;
    FinalReport(game, reports, polled, if outcome.Exhausted? then n else n + 1, n, final);
  }

  /** What the expansion of `cur` has done once its first `k` moves are
      inspected without meeting a goal: the states of `added` are new, queued and
      visited, and the visited set has grown by the successors by those moves. */
  ghost predicate ExpandedUpTo<S(!new), M>(game: Game<S, M>, universe: set<S>, cur: S, queue: multiset<S>, visited: set<S>,
                                           k: nat, added: seq<S>, queue': multiset<S>, visited': set<S>)
  {
    Grows(game, universe, cur, visited, added, visited') &&
    queue' == queue + multiset(added) && |visited'| == |visited| + |added| && |added| <= k &&
    visited' == visited + FirstSuccessors(game, cur, k)
  }

  /** A successor by the `k`-th move that is already visited changes nothing. */
  lemma ExpandSkip<S(!new), M>(game: Game<S, M>, universe: set<S>, cur: S, queue: multiset<S>, visited: set<S>,
                               k: nat, added: seq<S>, queue': multiset<S>, visited': set<S>)
    requires ExpandedUpTo(game, universe, cur, queue, visited, k, added, queue', visited')
    requires k < |game.moves(cur)| && game.next(cur, game.moves(cur)[k]) in visited'
    ensures ExpandedUpTo(game, universe, cur, queue, visited, k + 1, added, queue', visited')
  {
    FirstSuccessorsNext(game, cur, k);
  }

  /** An unvisited, non-goal successor by the `k`-th move is queued and visited. */
  lemma ExpandAdd<S(!new), M>(game: Game<S, M>, universe: set<S>, cur: S, queue: multiset<S>, visited: set<S>,
                              k: nat, added: seq<S>, queue': multiset<S>, visited': set<S>)
    requires ExpandedUpTo(game, universe, cur, queue, visited, k, added, queue', visited')
    requires cur in universe && Closed(game, universe) && k < |game.moves(cur)|
    requires game.next(cur, game.moves(cur)[k]) !in visited' && !game.isGoal(game.next(cur, game.moves(cur)[k]))
    ensures var b := game.next(cur, game.moves(cur)[k]);
      ExpandedUpTo(game, universe, cur, queue, visited, k + 1, added + [b], queue' + multiset{b}, visited' + {b})
  {
    var b := game.next(cur, game.moves(cur)[k]);
    assert Step(game, cur, b);
    DistinctSnoc(added, b);
    FirstSuccessorsNext(game, cur, k);
  }

  /** The expansion of `cur` (the loop over its available moves): each successor
      is inspected, in the order of the moves; one not yet visited is either a
      goal, which ends the expansion and is returned, or is added to both the
      queue and the visited set. `added` lists the states added, in order, and
      `move` is the index of the move that reached the goal, or the number of
      moves when no goal was met. The visited set grows by the successors by the
      moves before `move`, so the goal returned is the first unvisited goal in
      the order of the moves. */
  method ExpandState<S(==, !new), M>(game: Game<S, M>, ghost universe: set<S>, cur: S,
                                     queue: multiset<S>, visited: set<S>, numInspected: nat)
    returns (found: Option<S>, queue': multiset<S>, visited': set<S>, numInspected': nat,
             ghost added: seq<S>, ghost move: nat)
    requires cur in visited && visited <= universe && Closed(game, universe)
    ensures Grows(game, universe, cur, visited, added, visited')
    ensures queue' == queue + multiset(added) && |visited'| == |visited| + |added| && |added| <= move
    ensures visited' == visited + FirstSuccessors(game, cur, move)
    ensures found == None ==> move == |game.moves(cur)| && numInspected' == numInspected + move
    ensures found.Some? ==>
      move < |game.moves(cur)| && found.value == game.next(cur, game.moves(cur)[move]) &&
      game.isGoal(found.value) && found.value !in visited' && numInspected' == numInspected + move + 1
  {
    found, queue', visited', numInspected', added := None, queue, visited, numInspected, [];
    var moves := game.moves(cur);
    for k := 0 to |moves|
      invariant ExpandedUpTo(game, universe, cur, queue, visited, k, added, queue', visited')
      invariant numInspected' == numInspected + k
    {
      var nextState := game.next(cur, moves[k]);
      numInspected' := numInspected' + 1;
      if nextState !in visited' {
        if game.isGoal(nextState) {
          found, move := Some(nextState), k;
          return;
        }
        ExpandAdd(game, universe, cur, queue, visited, k, added, queue', visited');
        queue' := queue' + multiset{nextState};
        visited' := visited' + {nextState};
        added := added + [nextState];
      } else {
        ExpandSkip(game, universe, cur, queue, visited, k, added, queue', visited');
      }
    }
    move := |moves|;
  }

  /** Everything that holds at the head of the search loop: the frontier
      invariant, the best-first order of the expanded states, the counters, the
      reports made so far, and no stop at a check point passed. */
  ghost predicate SearchInv<S(!new), M>(game: Game<S, M>, start: S, universe: set<S>, heuristic: S -> int,
                                        timeUp: nat -> bool, cancelled: nat -> bool,
                                        queue: multiset<S>, visited: set<S>, expanded: seq<S>,
                                        reports: seq<Report>, numExpanded: nat, numInspected: nat, i: nat)
  {
    FrontierInv(game, start, universe, queue, visited, expanded) &&
    BestFirst(game, start, heuristic, expanded) &&
    CountInv(game, expanded, visited, numExpanded, numInspected, i) &&
    ReportInv(game, reports, expanded) &&
    NoStopBefore(numExpanded, timeUp, cancelled)
  }

  /** At the head of the search loop every queued state is visited, queued once,
      and not yet expanded; the visited set is at most one larger than the number
      of moves enumerated; and the check counter is within `0..Interval`. */
  lemma LoopHeadFacts<S(!new), M>(game: Game<S, M>, start: S, universe: set<S>, heuristic: S -> int,
                                  timeUp: nat -> bool, cancelled: nat -> bool,
                                  queue: multiset<S>, visited: set<S>, expanded: seq<S>,
                                  reports: seq<Report>, numExpanded: nat, numInspected: nat, i: nat)
    requires SearchInv(game, start, universe, heuristic, timeUp, cancelled, queue, visited, expanded, reports, numExpanded, numInspected, i)
    ensures forall s :: s in queue ==> queue[s] == 1 && s in visited && s !in expanded
    ensures |visited| <= 1 + numInspected && i <= Interval
  {
    CounterSchedule(numExpanded);
  }

  /** What a finished search promises: `numExpanded` counts the expanded states;
      the states and the reports are as `SearchedStates` and `SearchedReports`
      say; the states were polled in best-first order by `heuristic`; a
      time-limit or cancellation stop happens only at a check point, before the
      polled state is counted, with the clock consulted first; and no earlier
      check point found the time up or a cancellation. */
  ghost predicate Searched<S(!new), M>(game: Game<S, M>, start: S, universe: set<S>, heuristic: S -> int,
                                       timeUp: nat -> bool, cancelled: nat -> bool,
                                       outcome: Outcome<S>, numExpanded: nat, reports: seq<Report>,
                                       discovered: set<S>, expanded: seq<S>)
  {
    numExpanded == |expanded| &&
    SearchedStates(game, start, universe, outcome, discovered, expanded) &&
    BestFirst(game, start, heuristic, Polled(outcome, expanded)) &&
    (outcome.TimedOut? ==> Fires(numExpanded) && timeUp(numExpanded)) &&
    (outcome.Cancelled? ==> Fires(numExpanded) && !timeUp(numExpanded) && cancelled(numExpanded)) &&
    NoStopBefore(numExpanded, timeUp, cancelled) &&
    SearchedReports(game, outcome, numExpanded, reports, discovered, expanded)
  }

  /** Before the first iteration: the start queued and visited, all counters 0,
      no report made. */
  lemma SearchInit<S(!new), M>(game: Game<S, M>, start: S, universe: set<S>, heuristic: S -> int,
                               timeUp: nat -> bool, cancelled: nat -> bool)
    requires start in universe
    ensures SearchInv(game, start, universe, heuristic, timeUp, cancelled, multiset{start}, {start}, [], [], 0, 0, 0)
  {
    FrontierInit(game, start, universe, heuristic);
  }

  /** An iteration that polls `cur`, passes the check point (if it is one) with a
      report and no stop, and expands `cur` completely without meeting a goal,
      keeps the loop invariant and decreases the termination measure. */
  lemma SearchStep<S(!new), M>(game: Game<S, M>, start: S, universe: set<S>, heuristic: S -> int,
                               timeUp: nat -> bool, cancelled: nat -> bool,
                               queue: multiset<S>, visited: set<S>, expanded: seq<S>,
                               reports: seq<Report>, n: nat, numInspected: nat, i: nat,
                               cur: S, report: Report, added: seq<S>,
                               queue': multiset<S>, visited': set<S>, reports': seq<Report>,
                               numInspected': nat, i': nat)
    requires SearchInv(game, start, universe, heuristic, timeUp, cancelled, queue, visited, expanded, reports, n, numInspected, i)
    requires IsMinimal(heuristic, queue, cur)
    requires IsCheckPoint(n, i) ==> !timeUp(n) && !cancelled(n)
    requires report.expanded == n && report.inspected == numInspected && report.filled == game.boxesOnGoal(cur)
    requires reports' == if IsCheckPoint(n, i) then reports + [report] else reports
    requires i' == (if IsCheckPoint(n, i) then 0 else i) + 1
    requires Grows(game, universe, cur, visited, added, visited') && visited' == visited + Successors(game, cur)
    requires queue' == queue - multiset{cur} + multiset(added) && |visited'| == |visited| + |added|
    requires numInspected' == numInspected + |game.moves(cur)| && |added| <= |game.moves(cur)|
    ensures SearchInv(game, start, universe, heuristic, timeUp, cancelled, queue', visited', expanded + [cur], reports', n + 1, numInspected', i')
    ensures 2 * (|universe| - |visited'|) + |queue'| < 2 * (|universe| - |visited|) + |queue|
  {
    FrontierStep(game, start, universe, queue, visited, expanded, cur, added, visited');
    PollBestFirst(game, start, universe, heuristic, queue, visited, expanded, cur);
    CountStep(game, expanded, visited, n, numInspected, i, cur, expanded + [cur], visited', n + 1, numInspected', i', |added|);
    ReportStep(game, reports, expanded, cur, report, reports');
    NoStopStep(n, timeUp, cancelled);
  }

  /** An iteration that polls `cur` and meets the unvisited goal `goal` by move
      `move` of `cur` ends a search as promised. */
  lemma SearchSolved<S(!new), M>(game: Game<S, M>, start: S, universe: set<S>, heuristic: S -> int,
                                 timeUp: nat -> bool, cancelled: nat -> bool,
                                 queue: multiset<S>, visited: set<S>, expanded: seq<S>,
                                 reports: seq<Report>, n: nat, numInspected: nat, i: nat,
                                 cur: S, report: Report, added: seq<S>, visited': set<S>,
                                 reports': seq<Report>, inspected: nat, goal: S, move: nat, final: Report)
    requires SearchInv(game, start, universe, heuristic, timeUp, cancelled, queue, visited, expanded, reports, n, numInspected, i)
    requires IsMinimal(heuristic, queue, cur)
    requires IsCheckPoint(n, i) ==> !timeUp(n) && !cancelled(n)
    requires report.expanded == n && report.inspected == numInspected && report.filled == game.boxesOnGoal(cur)
    requires reports' == if IsCheckPoint(n, i) then reports + [report] else reports
    requires Grows(game, universe, cur, visited, added, visited') && |visited'| == |visited| + |added| && |added| <= move
    requires move < |game.moves(cur)| && goal == game.next(cur, game.moves(cur)[move])
    requires game.isGoal(goal) && goal !in visited' && visited' == visited + FirstSuccessors(game, cur, move)
    requires inspected == numInspected + move + 1
    requires final.expanded == n + 1 && final.inspected == inspected && final.filled == game.boxesOnGoal(goal)
    ensures Searched(game, start, universe, heuristic, timeUp, cancelled, Solved(goal, move), n + 1,
                     reports' + [final], visited', expanded + [cur])
  {
    var outcome, expanded' := Solved(goal, move), expanded + [cur];
    assert BestFirst(game, start, heuristic, expanded') by {
      PollBestFirst(game, start, universe, heuristic, queue, visited, expanded, cur);
    }
    assert SearchedReports(game, outcome, n + 1, reports' + [final], visited', expanded') by {
      ReportStep(game, reports, expanded, cur, report, reports');
      SolvedReports(game, reports', final, goal, move, expanded, visited, n, numInspected, i, cur, visited', |added|, inspected);
    }
    assert SearchedStates(game, start, universe, outcome, visited', expanded') by {
      SolvedStates(game, start, universe, queue, visited, expanded, cur, added, visited', goal, move);
    }
    NoStopStep(n, timeUp, cancelled);
  }

  /** A search that stops at a check point after `n` expansions (the clock or the
      sink answering there, the state `outcome.polled` having been polled from
      `queue`), or whose queue ran empty, ends as promised once the final report
      is made. */
  lemma SearchStopped<S(!new), M>(game: Game<S, M>, start: S, universe: set<S>, heuristic: S -> int,
                                  timeUp: nat -> bool, cancelled: nat -> bool,
                                  queue: multiset<S>, visited: set<S>, expanded: seq<S>,
                                  reports: seq<Report>, n: nat, numInspected: nat, i: nat,
                                  outcome: Outcome<S>, report: Report, reports': seq<Report>, final: Report)
    requires SearchInv(game, start, universe, heuristic, timeUp, cancelled, queue, visited, expanded, reports, n, numInspected, i)
    requires !outcome.Solved?
    requires outcome.Exhausted? ==> queue == multiset{} && reports' == reports
    requires outcome.TimedOut? ==> IsCheckPoint(n, i) && timeUp(n)
    requires outcome.Cancelled? ==> IsCheckPoint(n, i) && !timeUp(n) && cancelled(n)
    requires !outcome.Exhausted? ==>
      IsMinimal(heuristic, queue, outcome.polled) && reports' == reports + [report] &&
      report.expanded == n && report.inspected == numInspected && report.filled == game.boxesOnGoal(outcome.polled)
    requires final.expanded == n && final.inspected == numInspected && final.filled == 0
    ensures Searched(game, start, universe, heuristic, timeUp, cancelled, outcome, n, reports' + [final], visited, expanded)
  {
    StoppedStates(game, start, universe, queue, visited, expanded, outcome);
    if !outcome.Exhausted? {
      PollBestFirst(game, start, universe, heuristic, queue, visited, expanded, outcome.polled);
      ReportStep(game, reports, expanded, outcome.polled, report, reports');
    }
    StoppedReports(game, outcome, reports', final, expanded, visited, n, numInspected, i);
  }

  class Solver<S(==, !new), !M> {
    /** The puzzle: the moves, successors and goal test of its states. */
    const game: Game<S, M>

    /** The state the search starts from. */
    var startState: S

    /** The goal state found by the last successful search; `None` until one succeeds. */
    var endState: Option<S>

    /** A solver for a parsed puzzle whose initial state is `start`; no solution yet. */
    constructor (game: Game<S, M>, start: S)
      ensures this.game == game && startState == start && endState == None
    {
      this.game := game;
      startState := start;
      endState := None;
    }

    /** Best-first search from `startState`, in the order `heuristic` gives
        (smaller first), returning the number of expanded nodes. `timeUp(n)` and
        `cancelled(n)` are what the clock and the progress sink answer at the
        check point reached after `n` expansions; `universe` is a finite set of
        states, closed under moves, that holds the start (a puzzle has finitely
        many states). The ghost results record how the search ended, the progress
        reports made, the final visited set and the states expanded, in order. */
    method Search(heuristic: S -> int, timeUp: nat -> bool, cancelled: nat -> bool, ghost universe: set<S>)
      returns (numExpanded: nat, ghost outcome: Outcome<S>, ghost reports: seq<Report>,
               ghost discovered: set<S>, ghost expanded: seq<S>)
      requires startState in universe && Closed(game, universe)
      modifies this`endState
      // endState is written only when a goal is found
      ensures endState == if outcome.Solved? then Some(outcome.goal) else old(endState)
      ensures Searched(game, startState, universe, heuristic, timeUp, cancelled, outcome, numExpanded, reports, discovered, expanded)
    {
      numExpanded := 0;
      var numInspected: nat := 0;
      var queue: multiset<S> := multiset{startState};
      var visited: set<S> := {startState};
      var i: nat := 0;
      reports, expanded := [], [];
      outcome := Exhausted;
      SearchInit(game, startState, universe, heuristic, timeUp, cancelled);
      // the queue and the reports at the head of the last iteration, and the report of its check point
      ghost var queue0, reports0, report := queue, reports, Report(0, 0, 0, 0);

      while queue != multiset{}
        invariant SearchInv(game, startState, universe, heuristic, timeUp, cancelled, queue, visited, expanded, reports, numExpanded, numInspected, i)
        invariant endState == old(endState) && outcome == Exhausted
        decreases 2 * (|universe| - |visited|) + |queue|
      {
        queue0, reports0 := queue, reports;
        ghost var numExpanded0, i0 := numExpanded, i;
        var curState;
        curState, queue := Poll(heuristic, queue);
        report := Report(numExpanded, numInspected, |queue|, game.boxesOnGoal(curState));

        if numExpanded == 1 || i == Interval {
          reports := reports + [report];
          if timeUp(numExpanded) || cancelled(numExpanded) {
            outcome := if timeUp(numExpanded) then TimedOut(curState) else Cancelled(curState);
            break;
          }
          i := 0;
        }
        i := i + 1;
        numExpanded := numExpanded + 1;

        var found, queue', visited', numInspected', added, move := ExpandState(game, universe, curState, queue, visited, numInspected);
        if found.Some? {
          endState := found;
          ghost var final := Report(numExpanded, numInspected', |queue'|, game.boxesOnGoal(found.value));
          SearchSolved(game, startState, universe, heuristic, timeUp, cancelled, queue0, visited, expanded, reports0,
                       numExpanded0, numInspected, i0, curState, report, added, visited', reports, numInspected',
                       found.value, move, final);
          reports := reports + [final];
          outcome := Solved(found.value, move);
          expanded := expanded + [curState];
          discovered := visited';
          return;
        }
        SearchStep(game, startState, universe, heuristic, timeUp, cancelled, queue0, visited, expanded, reports0,
                   numExpanded0, numInspected, i0, curState, report, added, queue', visited', reports, numInspected', i);
        queue, visited, numInspected := queue', visited', numInspected';
        expanded := expanded + [curState];
      }

      ghost var final := Report(numExpanded, numInspected, |queue|, 0);
      if outcome.Exhausted? {
        queue0, reports0 := queue, reports;
      }
      SearchStopped(game, startState, universe, heuristic, timeUp, cancelled, queue0, visited, expanded, reports0, numExpanded,
                    numInspected, i, outcome, report, reports, final);
      discovered := visited;
      reports := reports + [final];
    }
  }
}
