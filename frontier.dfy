/** The priority queue of `Solver.search`, ordered by the heuristic. */
module Frontier {
  import opened StateSpace

  /** `x` is in `queue` and no element of `queue` comes before it by `key`: an
      element `PriorityQueue.poll` may return (ties are broken in no promised order). */
  predicate IsMinimal<S>(key: S -> int, queue: multiset<S>, x: S)
  {
    x in queue && forall y :: y in queue ==> key(x) <= key(y)
  }

  /** A non-empty queue always has an element `poll` may return. */
  lemma {:induction false} MinimalExists<S>(key: S -> int, queue: multiset<S>)
    requires queue != multiset{}
    ensures exists x :: IsMinimal(key, queue, x)
    decreases |queue|
  {
    var a :| a in queue;
    var rest := queue - multiset{a};
    assert queue == rest + multiset{a};
    if rest == multiset{} {
      assert forall y :: y in queue ==> y == a;
      assert IsMinimal(key, queue, a);
    } else {
      MinimalExists(key, rest);
      var b :| IsMinimal(key, rest, b);
      assert forall y :: y in queue ==> y == a || y in rest;
      if key(a) <= key(b) {
        assert IsMinimal(key, queue, a);
      } else {
        assert IsMinimal(key, queue, b);
      }
    }
  }

  /** `PriorityQueue.poll` on a non-empty queue: removes and returns an element
      of least key; which one of several with that key is left open. */
  method Poll<S(==)>(key: S -> int, queue: multiset<S>) returns (x: S, rest: multiset<S>)
    requires queue != multiset{}
    ensures IsMinimal(key, queue, x)
    ensures rest == queue - multiset{x} && |rest| == |queue| - 1
  {
    MinimalExists(key, queue);
    x :| IsMinimal(key, queue, x);
    rest := queue - multiset{x};
  }

  /** Every visited state is either waiting in the queue, exactly once, or has been
      expanded, and never both. */
  ghost predicate Partitioned<S>(queue: multiset<S>, visited: set<S>, expanded: seq<S>)
  {
    (forall s :: s in queue ==> queue[s] == 1 && s in visited && s !in expanded) &&
    (forall s :: s in expanded ==> s in visited) &&
    (forall s :: s in visited ==> s in queue || s in expanded)
  }

  /** Every move of every expanded state leads into `visited`. */
  ghost predicate ExpandedInto<S, M>(game: Game<S, M>, expanded: seq<S>, visited: set<S>)
  {
    forall p, k :: p in expanded && 0 <= k < |game.moves(p)| ==> game.next(p, game.moves(p)[k]) in visited
  }

  /** `visited'` is `visited` with the states of `added`, which are new to it,
      pairwise distinct, successors of `cur`, not goals, and inside `universe`. */
  ghost predicate Grows<S(!new), M>(game: Game<S, M>, universe: set<S>, cur: S,
                              visited: set<S>, added: seq<S>, visited': set<S>)
  {
    (forall s :: s in visited' <==> s in visited || s in added) &&
    Distinct(added) && (forall a :: a in added ==> a !in visited && Step(game, cur, a) && !game.isGoal(a)) &&
    visited' <= universe
  }

  /** What holds of the queue and the visited set once the states of `expanded`
      have been expanded in that order (the last one possibly only in part): the
      start is visited and expanded first; visited states lie in `universe`, are
      reachable from the start and, apart from the start, are not goals; every
      visited state is queued once or expanded once. */
  ghost predicate FrontierCore<S(!new), M>(game: Game<S, M>, start: S, universe: set<S>,
                                           queue: multiset<S>, visited: set<S>, expanded: seq<S>)
  {
    start in visited && visited <= universe && |visited| <= |universe| &&
    Partitioned(queue, visited, expanded) &&
    (expanded == [] ==> queue == multiset{start}) &&
    (expanded != [] ==> expanded[0] == start) &&
    Distinct(expanded) &&
    (forall s :: s in visited ==> Reachable(game, start, s)) &&
    (forall s :: s in visited && s != start ==> !game.isGoal(s))
  }

  /** What holds at the head of the search loop: in addition, expanded states
      have all their successors visited, and the visited set is exactly the
      start and the successors of the expanded states. */
  ghost predicate FrontierInv<S(!new), M>(game: Game<S, M>, start: S, universe: set<S>,
                                          queue: multiset<S>, visited: set<S>, expanded: seq<S>)
  {
    FrontierCore(game, start, universe, queue, visited, expanded) &&
    ExpandedInto(game, expanded, visited) &&
    visited == Discovered(game, start, expanded)
  }

  /** The states of `xs` were polled in best-first order: each one had been
      discovered by the expansion of those before it, had not been polled before,
      and had a key no larger than that of any state discovered and not yet
      polled, that is, of any state then waiting in the queue. */
  ghost predicate BestFirst<S(!new), M>(game: Game<S, M>, start: S, key: S -> int, xs: seq<S>)
  {
    xs == [] ||
    var before, x := xs[..|xs| - 1], xs[|xs| - 1];
    BestFirst(game, start, key, before) &&
    x in Discovered(game, start, before) && x !in before &&
    forall s :: s in Discovered(game, start, before) && s !in before ==> key(x) <= key(s)
  }

  /** `BestFirst`, stated for each position. */
  lemma {:induction false} BestFirstMeans<S(!new), M>(game: Game<S, M>, start: S, key: S -> int, xs: seq<S>)
    requires BestFirst(game, start, key, xs)
    ensures forall j :: 0 <= j < |xs| ==>
      xs[j] in Discovered(game, start, xs[..j]) && xs[j] !in xs[..j] &&
      forall s :: s in Discovered(game, start, xs[..j]) && s !in xs[..j] ==> key(xs[j]) <= key(s)
  {
    if xs != [] {
      var before := xs[..|xs| - 1];
      BestFirstMeans(game, start, key, before);
      forall j | 0 <= j < |xs|
        ensures xs[j] in Discovered(game, start, xs[..j]) && xs[j] !in xs[..j] &&
                forall s :: s in Discovered(game, start, xs[..j]) && s !in xs[..j] ==> key(xs[j]) <= key(s)
      {
        if j < |before| {
          assert xs[j] == before[j] && xs[..j] == before[..j];
        } else {
          assert xs[..j] == before;
        }
      }
    }
  }

  /** Polling an element of least key at the head of the search loop extends the
      best-first order. */
  lemma PollBestFirst<S(!new), M>(game: Game<S, M>, start: S, universe: set<S>, key: S -> int,
                                  queue: multiset<S>, visited: set<S>, expanded: seq<S>, cur: S)
    requires FrontierInv(game, start, universe, queue, visited, expanded) && BestFirst(game, start, key, expanded)
    requires IsMinimal(key, queue, cur)
    ensures BestFirst(game, start, key, expanded + [cur])
  {
    var xs := expanded + [cur];
    assert xs[..|xs| - 1] == expanded && xs[|xs| - 1] == cur;
    forall s | s in Discovered(game, start, expanded) && s !in expanded ensures key(cur) <= key(s) {
      assert s in queue;
    }
  }

  /** What the visited set of a search always satisfies: it holds the start, lies
      in `universe`, and its states are reachable from the start and, apart from
      the start, are not goals. */
  ghost predicate VisitedSound<S(!new), M>(game: Game<S, M>, start: S, universe: set<S>, visited: set<S>)
  {
    start in visited && visited <= universe &&
    (forall s :: s in visited ==> Reachable(game, start, s)) &&
    (forall s :: s in visited && s != start ==> !game.isGoal(s))
  }

  /** The states expanded by a search: the start first, none twice, all visited. */
  ghost predicate ExpansionOrder<S>(start: S, expanded: seq<S>, visited: set<S>)
  {
    (expanded != [] ==> expanded[0] == start) && Distinct(expanded) &&
    forall s :: s in expanded ==> s in visited
  }

  /** Every visited state has been expanded. */
  ghost predicate AllExpanded<S>(visited: set<S>, expanded: seq<S>)
  {
    forall s :: s in visited ==> s in expanded
  }

  /** The core invariant, stated for the visited set and the expanded states alone. */
  lemma CoreFacts<S(!new), M>(game: Game<S, M>, start: S, universe: set<S>,
                              queue: multiset<S>, visited: set<S>, expanded: seq<S>)
    requires FrontierCore(game, start, universe, queue, visited, expanded)
    ensures VisitedSound(game, start, universe, visited)
    ensures ExpansionOrder(start, expanded, visited)
  {
  }

  /** With the queue empty, every visited state has been expanded and, as each
      expanded state has its successors visited, no move leads out of the visited set. */
  lemma ExhaustedFacts<S(!new), M>(game: Game<S, M>, start: S, universe: set<S>,
                                  queue: multiset<S>, visited: set<S>, expanded: seq<S>)
    requires FrontierInv(game, start, universe, queue, visited, expanded) && queue == multiset{}
    ensures AllExpanded(visited, expanded) && Closed(game, visited)
  {
    forall s | s in visited ensures s in expanded {
      assert s !in queue;
    }
  }

  /** The search starts with the start state queued and visited, nothing expanded. */
  lemma FrontierInit<S(!new), M>(game: Game<S, M>, start: S, universe: set<S>, key: S -> int)
    requires start in universe
    ensures FrontierInv(game, start, universe, multiset{start}, {start}, [])
    ensures BestFirst(game, start, key, [])
  {
    ReachableStart(game, start);
    SubsetSize({start}, universe);
  }

  /** Polling `cur` moves it from the queue to the expanded states. */
  lemma PollKeepsPartition<S>(queue: multiset<S>, visited: set<S>, expanded: seq<S>, cur: S)
    requires Partitioned(queue, visited, expanded) && cur in queue
    ensures Partitioned(queue - multiset{cur}, visited, expanded + [cur])
  {
    var q := queue - multiset{cur};
    assert q[cur] == 0;
    forall s | s in q ensures q[s] == 1 && s in visited && s !in expanded + [cur] {
      assert queue[s] == q[s];
    }
  }

  /** States new to `visited` and added to both collections keep the partition. */
  lemma AddKeepsPartition<S>(queue: multiset<S>, visited: set<S>, expanded: seq<S>, added: seq<S>, visited': set<S>)
    requires Partitioned(queue, visited, expanded)
    requires Distinct(added) && forall a :: a in added ==> a !in visited
    requires forall s :: s in visited' <==> s in visited || s in added
    ensures Partitioned(queue + multiset(added), visited', expanded)
  {
    var q := queue + multiset(added);
    forall s | s in q ensures q[s] == 1 && s in visited' && s !in expanded {
      DistinctCount(added, s);
    }
    forall s | s in visited' ensures s in q || s in expanded {
      if s in added {
        DistinctCount(added, s);
      }
    }
  }

  /** Polling `cur` and adding some of its unvisited successors `added` (none of
      them a goal) to the queue and the visited set keeps the core invariant, and
      the states expanded before `cur` keep their successors visited. */
  lemma FrontierGrow<S(!new), M>(game: Game<S, M>, start: S, universe: set<S>,
                                 queue: multiset<S>, visited: set<S>, expanded: seq<S>,
                                 cur: S, added: seq<S>, visited': set<S>)
    requires FrontierInv(game, start, universe, queue, visited, expanded) && cur in queue
    requires Grows(game, universe, cur, visited, added, visited')
    ensures FrontierCore(game, start, universe, queue - multiset{cur} + multiset(added), visited', expanded + [cur])
    ensures ExpandedInto(game, expanded, visited')
  {
    PollKeepsPartition(queue, visited, expanded, cur);
    AddKeepsPartition(queue - multiset{cur}, visited, expanded + [cur], added, visited');
    SubsetSize(visited', universe);
    DistinctSnoc(expanded, cur);
    assert cur in visited;
    forall a | a in added ensures Reachable(game, start, a) {
      ReachableStep(game, start, cur, a);
    }
    if expanded == [] {
      assert (expanded + [cur])[0] == start;
    }
  }

  /** Expanding a polled state `cur` completely, with its unvisited successors
      `added` (none of them a goal) queued and visited, keeps the invariant. */
  lemma FrontierStep<S(!new), M>(game: Game<S, M>, start: S, universe: set<S>,
                                 queue: multiset<S>, visited: set<S>, expanded: seq<S>,
                                 cur: S, added: seq<S>, visited': set<S>)
    requires FrontierInv(game, start, universe, queue, visited, expanded) && cur in queue
    requires Grows(game, universe, cur, visited, added, visited')
    requires visited' == visited + Successors(game, cur)
    ensures FrontierInv(game, start, universe, queue - multiset{cur} + multiset(added), visited', expanded + [cur])
  {
    FrontierGrow(game, start, universe, queue, visited, expanded, cur, added, visited');
    DiscoveredSnoc(game, start, expanded, cur);
  }
}
