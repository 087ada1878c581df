/** The game as the search sees it. The solver's `State`, `Map` and `Direction`
    classes are not part of this model: a state is any type with equality, a move
    any type, and the few queries the search makes of a state are total functions. */
module StateSpace {

  /** A possibly absent value; `None` stands for Java's `null`. */
  datatype Option<+T> = None | Some(value: T)

  /** The queries `Solver.search` makes of a state: the moves available in it
      (`getAvailableMoves`), the state after one of them (`State.getStateAfterMove`),
      the goal test (`isGoalReached`) and the number of boxes on goal cells
      (`getNumBoxesInGoal`, used only in progress reports). */
  datatype Game<!S, !M> = Game(
    moves: S -> seq<M>,
    next: (S, M) -> S,
    isGoal: S -> bool,
    boxesOnGoal: S -> int)

  /** `b` is the state after one of the moves available in `a`. */
  ghost predicate Step<S, M>(game: Game<S, M>, a: S, b: S)
  {
    exists k :: 0 <= k < |game.moves(a)| && game.next(a, game.moves(a)[k]) == b
  }

  /** Each state of `p` is one move away from the state before it. */
  ghost predicate IsPath<S, M>(game: Game<S, M>, p: seq<S>)
  {
    |p| <= 1 || (IsPath(game, p[..|p| - 1]) && Step(game, p[|p| - 2], p[|p| - 1]))
  }

  /** No available move leads out of `states`. */
  ghost predicate Closed<S, M>(game: Game<S, M>, states: set<S>)
  {
    forall s, k :: s in states && 0 <= k < |game.moves(s)| ==> game.next(s, game.moves(s)[k]) in states
  }

  /** The number of moves enumerated when the states of `xs` are expanded one after another. */
  function MovesOf<S, M>(game: Game<S, M>, xs: seq<S>): (total: nat)
  {
    if xs == [] then 0 else MovesOf(game, xs[..|xs| - 1]) + |game.moves(xs[|xs| - 1])|
  }

  lemma MovesOfSnoc<S, M>(game: Game<S, M>, xs: seq<S>, x: S)
    ensures MovesOf(game, xs + [x]) == MovesOf(game, xs) + |game.moves(x)|
  {
    assert (xs + [x])[..|xs|] == xs;
  }

  /** Expanding a longer prefix of `xs` enumerates no fewer moves. */
  lemma {:induction false} MovesOfPrefix<S, M>(game: Game<S, M>, xs: seq<S>, a: nat, b: nat)
    requires a <= b <= |xs|
    ensures MovesOf(game, xs[..a]) <= MovesOf(game, xs[..b])
    decreases b - a
  {
    if a < b {
      MovesOfPrefix(game, xs, a, b - 1);
      assert xs[..b] == xs[..b - 1] + [xs[b - 1]];
      MovesOfSnoc(game, xs[..b - 1], xs[b - 1]);
    }
  }

  /** When no state offers more than `bound` moves (four directions on a Sokoban board),
      expanding `xs` enumerates at most `bound * |xs|` moves. */
  lemma {:induction false} MovesOfBound<S, M>(game: Game<S, M>, xs: seq<S>, bound: nat)
    requires forall s :: s in xs ==> |game.moves(s)| <= bound
    ensures MovesOf(game, xs) <= bound * |xs|
  {
    if xs != [] {
      var init := xs[..|xs| - 1];
      assert forall s :: s in init ==> s in xs;
      MovesOfBound(game, init, bound);
      assert xs[|xs| - 1] in xs;
      assert bound * |xs| == bound * |init| + bound;
    }
  }

  /** The states reached from `s` by its first `k` available moves. */
  ghost function FirstSuccessors<S, M>(game: Game<S, M>, s: S, k: nat): (reached: set<S>)
  {
    set j | 0 <= j < k && j < |game.moves(s)| :: game.next(s, game.moves(s)[j])
  }

  /** The states reached from `s` by one of its available moves. */
  ghost function Successors<S, M>(game: Game<S, M>, s: S): (reached: set<S>)
  {
    FirstSuccessors(game, s, |game.moves(s)|)
  }

  /** One more move adds its successor. */
  lemma FirstSuccessorsNext<S, M>(game: Game<S, M>, s: S, k: nat)
    requires k < |game.moves(s)|
    ensures FirstSuccessors(game, s, k + 1) == FirstSuccessors(game, s, k) + {game.next(s, game.moves(s)[k])}
  {
    var b := game.next(s, game.moves(s)[k]);
    assert b in FirstSuccessors(game, s, k + 1);
  }

  /** The start and every successor of a state of `xs`: what a search has
      discovered once it has expanded the states of `xs` completely. */
  ghost function Discovered<S, M>(game: Game<S, M>, start: S, xs: seq<S>): (found: set<S>)
  {
    if xs == [] then {start} else Discovered(game, start, xs[..|xs| - 1]) + Successors(game, xs[|xs| - 1])
  }

  /** Expanding one more state adds its successors to what was discovered. */
  lemma DiscoveredSnoc<S, M>(game: Game<S, M>, start: S, xs: seq<S>, x: S)
    ensures Discovered(game, start, xs + [x]) == Discovered(game, start, xs) + Successors(game, x)
  {
    assert (xs + [x])[..|xs|] == xs;
  }

  /** A path that starts inside a closed set never leaves it. */
  lemma {:induction false} PathStaysInside<S, M>(game: Game<S, M>, states: set<S>, p: seq<S>)
    requires Closed(game, states) && IsPath(game, p)
    requires |p| > 0 && p[0] in states
    ensures forall j :: 0 <= j < |p| ==> p[j] in states
  {
    if |p| > 1 {
      var init := p[..|p| - 1];
      PathStaysInside(game, states, init);
      var k :| 0 <= k < |game.moves(p[|p| - 2])| && game.next(p[|p| - 2], game.moves(p[|p| - 2])[k]) == p[|p| - 1];
      assert p[|p| - 2] == init[|init| - 1];
      forall j | 0 <= j < |p| ensures p[j] in states {
        if j < |p| - 1 {
          assert p[j] == init[j];
        }
      }
    }
  }

  /** A subset is no larger than its superset. */
  lemma {:induction false} SubsetSize<T>(a: set<T>, b: set<T>)
    requires a <= b
    ensures |a| <= |b|
    decreases |a|
  {
    if a != {} {
      var x :| x in a;
      SubsetSize(a - {x}, b - {x});
    }
  }

  /** Some path of moves leads from `start` to `s`. */
  ghost predicate Reachable<S(!new), M>(game: Game<S, M>, start: S, s: S)
  {
    exists p :: |p| > 0 && p[0] == start && p[|p| - 1] == s && IsPath(game, p)
  }
  /** The start is reachable from itself by the empty sequence of moves. */
  lemma ReachableStart<S(!new), M>(game: Game<S, M>, start: S)
    ensures Reachable(game, start, start)
  {
    assert IsPath(game, [start]);
  }
  /** One more move from a reachable state leads to a reachable state. */
  lemma ReachableStep<S(!new), M>(game: Game<S, M>, start: S, a: S, b: S)
    requires Reachable(game, start, a) && Step(game, a, b)
    ensures Reachable(game, start, b)
  {
    var p :| |p| > 0 && p[0] == start && p[|p| - 1] == a && IsPath(game, p);
    var q := p + [b];
    assert q[..|q| - 1] == p && q[|q| - 2] == a;
    assert q[0] == start && q[|q| - 1] == b;
  }

  /** No element occurs twice in `xs`. */
  ghost predicate Distinct<S>(xs: seq<S>)
  {
    xs == [] || (Distinct(xs[..|xs| - 1]) && xs[|xs| - 1] !in xs[..|xs| - 1])
  }

  /** Appending an element not yet present keeps a sequence free of repetitions. */
  lemma DistinctSnoc<S>(xs: seq<S>, x: S)
    requires Distinct(xs) && x !in xs
    ensures Distinct(xs + [x])
  {
    assert (xs + [x])[..|xs|] == xs;
  }

  /** `Distinct`, stated for each pair of positions. */
  lemma {:induction false} DistinctMeans<S>(xs: seq<S>)
    requires Distinct(xs)
    ensures forall a, b :: 0 <= a < b < |xs| ==> xs[a] != xs[b]
  {
    if xs != [] {
      var init := xs[..|xs| - 1];
      DistinctMeans(init);
      forall a, b | 0 <= a < b < |xs| ensures xs[a] != xs[b] {
        assert xs[a] == init[a];
        if b < |init| {
          assert xs[b] == init[b];
        }
      }
    }
  }

  /** An element occurs at most once in a sequence of distinct elements. */
  lemma {:induction false} DistinctCount<S>(xs: seq<S>, x: S)
    requires Distinct(xs)
    ensures multiset(xs)[x] == if x in xs then 1 else 0
  {
    if xs != [] {
      var init := xs[..|xs| - 1];
      assert xs == init + [xs[|xs| - 1]];
      DistinctCount(init, x);
    }
  }
}
