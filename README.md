# Sokoban solver search engine, in Dafny

This project models the search engine of a Sokoban solver: the method
`Solver.search` and the field `endState` of class `Solver`. The search is a
best-first search over game states. A priority queue (the frontier) is
ordered by a caller-supplied heuristic, and a visited set keeps any state from
being queued twice. At fixed check points the search reports progress and
stops when the time limit is reached or the progress sink asks it to cancel.
It returns as soon as an unvisited successor of the polled state is a goal,
and it records that state in `endState`. It always returns the number of
expanded nodes.

Modules, leaf first:

- `StateSpace` (`statespace.dfy`) holds what the search asks of a state. The
  solver's `State`, `Map` and `Direction` classes are not part of this model.
  A state is any type with equality and a move is any type. The record `Game`
  holds the four queries the search makes: the available moves, the state
  after a move, the goal test and the number of boxes on goals. This module
  also defines paths, reachability and closed sets of states.
- `Checkpoints` (`checkpoints.dfy`) models the check condition
  `numExpanded == 1 || i == interval` and the counter `i`. It derives their
  schedule in closed form.
- `Frontier` (`frontier.dfy`) models the priority queue as a multiset. Its
  `poll` returns any element of least key. The module states the invariant
  that links the queue, the visited set and the sequence of expanded states.
- `Progress` (`progress.dfy`) records calls of `onProgressUpdate` as a ghost
  trace of reports. It also states which check points did not stop the
  search.
- `Sokoban` (`solver.dfy`) holds the class `Solver`, its constructor and
  `Search`, the move loop `ExpandState`, and the loop invariant with one
  lemma for each way out of the loop.
- `Outcomes` (`outcomes.dfy`) states what `Search`'s promise implies for a
  caller. An exhausted search proves that the puzzle has no reachable goal.
  A goal one move away is found on the first expansion. A time limit of 0
  allows at most one expansion. The visited set is bounded by the number of
  moves.

The model replaces the source's external dependencies like this:

- The heuristic `Comparator<State>` becomes an integer key `heuristic: S -> int`.
  Smaller keys come first.
- The clock test `System.currentTimeMillis() - start >= limit` becomes the
  oracle `timeUp(n)`: the clock's answer at the check point reached after `n`
  expansions.
- `progress.isCancelled()` becomes the oracle `cancelled(n)` in the same way.
- `printProgress` is fixed to `true`.
- Termination uses a ghost `universe`: a finite set of states that contains
  the start and is closed under moves. A Sokoban board has finitely many
  configurations. The loop measure is `2 * (|universe| - |visited|) + |queue|`.

Facts about the code that the model makes explicit:

- The first iteration has `numExpanded == 0` and `i == 0`, so it never
  checks. The first check comes at the second poll, after one expansion.
  Later checks come after 201, 401, ... expansions
  (`Checkpoints.CounterSchedule`). A search that finds a goal on its first
  expansion never consults the clock or the sink.
- The expanded counts of successive progress reports never decrease, but they
  need not increase. After a break, the check-point report and the final
  report carry the same count (`Progress.FinalReport`).
- Java's `PriorityQueue` promises no order among equal keys, so
  `Frontier.Poll` may return any element of least key.
- The goal returned is the first unvisited goal in the order of the polled
  state's moves. The inspected count then includes the move that reached it,
  but none of the moves after it (`Sokoban.ExpandState`).

## Model

| member | source | states |
|---|---|---|
| `Sokoban.Solver.constructor` | app/src/main/java/Sokoban/Solver.java:50-54 | A new solver has its start state and no end state (`endState == None`, Java's `null`). |
| `Sokoban.Solver.Search` | app/src/main/java/Sokoban/Solver.java:84-140 | `endState` is set to the goal found when the search succeeds and otherwise keeps its old value. The return value is the number of expanded states. All of `Sokoban.Searched` holds. The goal is the successor by move `move` of the last expanded state, and the visited set is what the earlier expansions discovered plus the successors by the moves before `move`. Without a goal, the visited set is exactly what the expansions discovered. States are polled in best-first order. Stops happen only at check points, with the clock consulted first. Each check-point report carries the expanded count, the moves of the states expanded so far and the polled state's boxes on goals. The final report carries the expanded count, the goal's boxes on goals (or 0) and the inspected count: all moves of the expanded states, or, on success, those of the finished states plus `move + 1`. |
| `Frontier.Poll` | app/src/main/java/Sokoban/Solver.java:98 | `queue.poll()` removes and returns an element whose key is no larger than any other queued key, and the queue shrinks by one. |
| `Frontier.MinimalExists` | app/src/main/java/Sokoban/Solver.java:97-98 | A non-empty queue always has an element of least key, so `poll` cannot fail inside the loop. |
| `Sokoban.ExpandState` | app/src/main/java/Sokoban/Solver.java:117-133 | The moves are inspected in order, one inspection each. The result `move` is the index of the first move whose successor is unvisited and a goal, and that successor is returned after exactly `move + 1` inspections. Without a goal, `move` is the number of moves and the inspected count rises by exactly that. The visited set grows by exactly the successors by the moves before `move`. The states added to the queue and the visited set are new, distinct and not goals. |
| `Sokoban.ExpandAdd` | app/src/main/java/Sokoban/Solver.java:121-131 | An unvisited, non-goal successor by the `k`-th move goes into both the queue and the visited set, which then hold the successors by the first `k + 1` moves. |
| `Sokoban.ExpandSkip` | app/src/main/java/Sokoban/Solver.java:117-121 | An already visited successor by the `k`-th move changes nothing, and the visited set still holds the successors by the first `k + 1` moves. |
| `Sokoban.SearchInit` | app/src/main/java/Sokoban/Solver.java:85-94 | After initialisation, the queue is exactly `{start}`, the visited set is exactly `{start}`, and all counters are 0: the loop invariant holds. |
| `Sokoban.LoopHeadFacts` | app/src/main/java/Sokoban/Solver.java:97-131 | At the loop head every queued state is visited, queued once and not yet expanded. Also `|visited| <= 1 + numInspected` and `0 <= i <= interval`. |
| `Sokoban.SearchStep` | app/src/main/java/Sokoban/Solver.java:97-133 | An iteration that polls a state of least key, passes its check point without stopping and finds no goal keeps the invariant. The best-first order is extended, the visited set gains exactly the polled state's successors, `numExpanded` rises by one, the counter `i` follows the reset-then-increment rule, and the termination measure decreases. |
| `Sokoban.SearchSolved` | app/src/main/java/Sokoban/Solver.java:97-128 | On goal detection by move `move` the found state is a goal. It is not the start, was not visited, is the first unvisited goal among the polled state's moves, and is reachable from the start. The final report carries the current `numExpanded`, the goal's boxes on goals, and the moves of the finished states plus `move + 1` as the inspected count. |
| `Sokoban.SearchStopped` | app/src/main/java/Sokoban/Solver.java:97-139 | A time-limit or cancellation break happens only at a check point, before the polled state is counted, and the report made there names the polled state. When the queue runs empty, every visited state has been expanded and no move leads outside the visited set. The final report carries `numExpanded`, the moves of all expanded states and `filled = 0`. |
| `Sokoban.CountStep` | app/src/main/java/Sokoban/Solver.java:114-119 | One expansion per iteration that is not broken on, and one inspection per enumerated move. |
| `Sokoban.SolvedStates` | app/src/main/java/Sokoban/Solver.java:121-128 | On goal detection the visited set is what the finished states discovered plus the successors by the moves before the goal's, and the goal is reachable and unvisited. |
| `Sokoban.StoppedStates` | app/src/main/java/Sokoban/Solver.java:97-113 | On a break or when the queue runs empty, the visited set is exactly what the expanded states discovered, and it is sound. |
| `Sokoban.SolvedReports` | app/src/main/java/Sokoban/Solver.java:124-128 | The report made on success completes the report log with the current counters and the goal's boxes on goals. |
| `Sokoban.StoppedReports` | app/src/main/java/Sokoban/Solver.java:136-139 | The final report after a break or exhaustion completes the log, with `filled = 0` and the inspected count equal to the moves of all expanded states. |
| `Checkpoints.CounterSchedule` | app/src/main/java/Sokoban/Solver.java:100-115 | The counter `i` stays within `0..interval`. The check fires exactly when `numExpanded % 200 == 1`: after 1, 201, 401, ... expansions, and never at the first iteration. |
| `Checkpoints.ChecksBelowValue` | app/src/main/java/Sokoban/Solver.java:100-113 | The number of check points passed before `n` expansions is `(n - 2) / 200 + 1` for `n >= 2`, and 0 otherwise. |
| `Checkpoints.FiresAtCheckPoint` | app/src/main/java/Sokoban/Solver.java:100 | A check that fires after `n` expansions is the check point numbered by the checks passed before it. |
| `Progress.NoStopMeans` | app/src/main/java/Sokoban/Solver.java:106-110 | No check point passed before the last one found the time up or the search cancelled. |
| `Progress.ReportStep` | app/src/main/java/Sokoban/Solver.java:100-104 | An iteration reports once at a check point and never elsewhere. The `r`-th report carries the check point's expanded count, the moves of the states expanded before it (`MovesOf(expanded[..CheckPoint(r)])`), and the boxes on goals of the state polled there. |
| `Progress.CheckReportsExtend` | app/src/main/java/Sokoban/Solver.java:100-104 | Reports already made keep describing the states polled when they were made, however many states are polled later. |
| `Progress.FinalReport` | app/src/main/java/Sokoban/Solver.java:124-127 | With the final report added, the expanded and inspected counts of successive reports never decrease. |
| `Frontier.FrontierInit` | app/src/main/java/Sokoban/Solver.java:88-92 | A queue and a visited set that both hold exactly the start state satisfy the frontier invariant, and nothing has been polled. |
| `Frontier.FrontierStep` | app/src/main/java/Sokoban/Solver.java:117-133 | Polling a state and queueing its unvisited successors, each inserted into the visited set at the same time, keeps the frontier invariant. Every visited state is either queued exactly once or expanded, and never both. The visited set stays exactly what the expanded states discovered. |
| `Frontier.PollBestFirst` | app/src/main/java/Sokoban/Solver.java:98 | Polling an element of least key extends the best-first order: the polled state was discovered, not polled before, and has a key no larger than any discovered, unpolled state. |
| `Frontier.BestFirstMeans` | app/src/main/java/Sokoban/Solver.java:97-98 | The best-first order, stated for each position of the polled sequence. |
| `Frontier.AddKeepsPartition` | app/src/main/java/Sokoban/Solver.java:130-131 | States new to the visited set, added to both collections, keep every queued state queued exactly once. |
| `Frontier.ExhaustedFacts` | app/src/main/java/Sokoban/Solver.java:97 | When the queue is empty, every visited state has been expanded and the visited set is closed under moves. |
| `StateSpace.MovesOfBound` | app/src/main/java/Sokoban/Solver.java:117-119 | When no state offers more than `bound` moves, expanding `k` states inspects at most `bound * k` successors. |
| `StateSpace.MovesOfPrefix` | app/src/main/java/Sokoban/Solver.java:117-119 | The inspected count never decreases as more states are expanded. |
| `StateSpace.FirstSuccessorsNext` | app/src/main/java/Sokoban/Solver.java:117-121 | Inspecting one more move adds its successor to the successors seen so far. |
| `StateSpace.DiscoveredSnoc` | app/src/main/java/Sokoban/Solver.java:117-131 | Expanding one more state adds all its successors to what was discovered. |
| `Outcomes.ExhaustedMeansUnsolvable` | app/src/main/java/Sokoban/Solver.java:97-139 | A search that runs out of states has visited every reachable state, and none of them except the start is a goal. |
| `Outcomes.UnsolvableNeverSolved` | app/src/main/java/Sokoban/Solver.java:121-128 | A puzzle with no reachable goal is never reported solved. |
| `Outcomes.OneMoveSolvedAtOnce` | app/src/main/java/Sokoban/Solver.java:97-128 | A goal one move from the start is found on the first expansion, with `numExpanded == 1`. |
| `Outcomes.NoStateExpandedTwice` | app/src/main/java/Sokoban/Solver.java:119-131 | The start is expanded first and no state is expanded twice. |
| `Outcomes.FirstGoalInMoveOrder` | app/src/main/java/Sokoban/Solver.java:117-128 | On success, the successor by every move before the goal's was already visited, so it is the start or not a goal: the goal is the first unvisited one in move order. |
| `Outcomes.PolledBestFirst` | app/src/main/java/Sokoban/Solver.java:97-98 | Every polled state had been discovered by the expansion of the states polled before it, was not polled before, and had the least heuristic value among the states then waiting in the queue. |
| `Outcomes.StopsAtFirstSignal` | app/src/main/java/Sokoban/Solver.java:100-113 | At the first check point where the clock says the time is up or the sink says cancel, the search stops. The time-up test comes first. |
| `Outcomes.ZeroTimeLimit` | app/src/main/java/Sokoban/Solver.java:100-110 | With the time already up at every check, the search expands at most one state and never ends as cancelled. |
| `Outcomes.VisitedBound` | app/src/main/java/Sokoban/Solver.java:117-131 | With at most four moves per state, the visited set holds at most `1 + 4 * numExpanded` states. |

## Left out

- `SolverActivity` as a whole is not part of this model. That includes the
  Android activity and background-task plumbing, the progress text views, and
  cancellation on pause. It is user-interface code.
- The two-phase driver in `SolverActivity` (a precise heuristic for three
  quarters of the budget, then a coarse one) is not modelled. It computes its
  budgets in floating point, and it only composes two independent calls of
  `search`.
- `Map.parse`, `State`, `Direction`, `Heuristics` and the path recovery
  `directionPath()` are not part of this model. The record `Game` stands in for
  them with total functions and no other assumptions.
- The wall clock and `isCancelled()` are oracles indexed by the number of
  expansions at the check point. The start-time argument of `onProgressUpdate`
  is dropped with the clock.
- `printProgress` is taken as `true`. With it `false`, only the reports would
  disappear.
- Java's `int` counters are unbounded naturals, and their overflow is not
  modelled. `numInspected` would overflow first, since it rises once per
  enumerated move (up to four per expansion), so after about 2^31 / 4
  expansions. `search` itself accepts any `int` time limit; it is the caller in
  `SolverActivity` that bounds the time, with three quarters and one quarter of
  `Solver.searchLimit` (one minute), and a search that short does not come near
  that count.
- `interval` is taken as its initial value 200 (the constant
  `Checkpoints.Interval`). In the code it is a static field that is not final,
  and `search` reads it on every iteration, but nothing in `Solver.java` or
  `SolverActivity.java` assigns it. With another value the check schedule
  (`Checkpoints.CounterSchedule`, `Checkpoints.ChecksBelowValue`) would change
  with it. With `interval == 0`
  even the first iteration would check.
- The `PriorityQueue` (initial capacity 1000) and the `HashSet` are a
  multiset and a set. Hashing, `equals`/`hashCode` consistency and capacity
  growth are not modelled.
- The heuristic is an integer key rather than a `Comparator`. On the finitely
  many states of one puzzle, any total preorder can be written as such a key.
  A comparator that is not a total preorder is not modelled.
- `Sokoban.Solver.Search`: the queue size passed in each progress report is
  recorded but not constrained by the contract. It is a display-only value. It
  follows from the invariant (the queue holds exactly the discovered states not
  yet expanded), but it is not stated.
  Which of several states with the same least key is polled is left open,
  because `PriorityQueue` does not specify it.
- `Sokoban.Solver.Search`: the ghost parameter `universe` (a finite set of
  states closed under moves that contains the start) is a requirement the Java
  code does not state. It stands for the finiteness of a board's
  configurations and is used only for termination.
