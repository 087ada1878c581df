/** The progress sink `SolverProgress` as the search uses it: a call of
    `onProgressUpdate` is recorded as a report; `isCancelled` is an answer the
    search is given (see `Sokoban.Solver.Search`). */
module Progress {
  import opened StateSpace
  import opened Checkpoints

  /** One call of `onProgressUpdate`: nodes expanded, successors inspected,
      queue size and boxes on goal cells (the start-time argument is left out
      with the clock). */
  datatype Report = Report(expanded: nat, inspected: nat, queued: nat, filled: int)

  /** No check point passed before `m` expansions found the time up or a
      cancellation (`timeUp(n)` and `cancelled(n)` are the answers of the clock and
      of the sink at the check point after `n` expansions). */
  ghost predicate NoStopBefore(m: nat, timeUp: nat -> bool, cancelled: nat -> bool)
  {
    m == 0 || (NoStopBefore(m - 1, timeUp, cancelled) && (Fires(m - 1) ==> !timeUp(m - 1) && !cancelled(m - 1)))
  }

  /** Passing the check point `m` (if it is one) extends `NoStopBefore` by one. */
  lemma NoStopStep(m: nat, timeUp: nat -> bool, cancelled: nat -> bool)
    requires NoStopBefore(m, timeUp, cancelled)
    requires Fires(m) ==> !timeUp(m) && !cancelled(m)
    ensures NoStopBefore(m + 1, timeUp, cancelled)
  {
  }

  /** `NoStopBefore`, stated for each check point. */
  lemma {:induction false} NoStopMeans(m: nat, timeUp: nat -> bool, cancelled: nat -> bool)
    requires NoStopBefore(m, timeUp, cancelled)
    ensures forall n: nat :: n < m && Fires(n) ==> !timeUp(n) && !cancelled(n)
  {
    if m > 0 {
      NoStopMeans(m - 1, timeUp, cancelled);
    }
  }

  /** `report` is the one made at the check point reached after `n` expansions,
      the states of `polled` having been polled in that order: it gives `n`, one
      inspection per move of the first `n` of them, and the number of boxes on
      goal cells of the one polled at that point. */
  ghost predicate ReportAt<S, M>(game: Game<S, M>, report: Report, polled: seq<S>, n: nat)
  {
    n < |polled| && report.expanded == n && report.inspected == MovesOf(game, polled[..n]) &&
    report.filled == game.boxesOnGoal(polled[n])
  }

  /** `reports` were made at the first `|reports|` check points, in order. */
  ghost predicate CheckReports<S, M>(game: Game<S, M>, reports: seq<Report>, polled: seq<S>)
  {
    forall r :: 0 <= r < |reports| ==> ReportAt(game, reports[r], polled, CheckPoint(r))
  }

  /** Polling more states leaves the reports already made as they were. */
  lemma CheckReportsExtend<S, M>(game: Game<S, M>, reports: seq<Report>, polled: seq<S>, more: seq<S>)
    requires CheckReports(game, reports, polled)
    ensures CheckReports(game, reports, polled + more)
  {
    forall r | 0 <= r < |reports| ensures ReportAt(game, reports[r], polled + more, CheckPoint(r)) {
      var n := CheckPoint(r);
      assert (polled + more)[..n] == polled[..n];
    }
  }

  /** What holds of the reports at the head of the search loop, the states of
      `expanded` having been expanded: one report was made at each check point
      passed, as `CheckReports` says. */
  ghost predicate ReportInv<S, M>(game: Game<S, M>, reports: seq<Report>, expanded: seq<S>)
  {
    |reports| == ChecksBelow(|expanded|) && CheckReports(game, reports, expanded)
  }

  /** An iteration that polls `cur` after the expansion of `expanded` reports
      once if it is at a check point, and not otherwise. */
  lemma ReportStep<S, M>(game: Game<S, M>, reports: seq<Report>, expanded: seq<S>, cur: S,
                         report: Report, reports': seq<Report>)
    requires ReportInv(game, reports, expanded)
    requires report.expanded == |expanded| && report.inspected == MovesOf(game, expanded)
    requires report.filled == game.boxesOnGoal(cur)
    requires reports' == if Fires(|expanded|) then reports + [report] else reports
    ensures |reports'| == ChecksBelow(|expanded| + 1) && CheckReports(game, reports', expanded + [cur])
  {
    var polled := expanded + [cur];
    CheckReportsExtend(game, reports, expanded, [cur]);
    if Fires(|expanded|) {
      FiresAtCheckPoint(|expanded|);
      assert polled[..|expanded|] == expanded;
      forall r | 0 <= r < |reports'| ensures ReportAt(game, reports'[r], polled, CheckPoint(r)) {
        if r < |reports| {
          assert reports'[r] == reports[r];
        }
      }
    }
  }

  /** The reports of a finished search that passed the check points below `m`,
      the states of `polled` having been polled: one report at each of them, as
      `CheckReports` says, then one final report; the counts of expanded and of
      inspected nodes never decrease from one report to the next. */
  ghost predicate Logged<S, M>(game: Game<S, M>, reports: seq<Report>, polled: seq<S>, m: nat)
  {
    |reports| >= 1 && |reports| - 1 == ChecksBelow(m) &&
    CheckReports(game, reports[..|reports| - 1], polled) &&
    forall a, b :: 0 <= a <= b < |reports| ==>
      reports[a].expanded <= reports[b].expanded && reports[a].inspected <= reports[b].inspected
  }

  /** The final report, made after the check points below `m` with no fewer
      expanded nodes than the last of them and no fewer inspections than the
      first `k` polled states had moves, completes the log. */
  lemma FinalReport<S, M>(game: Game<S, M>, reports: seq<Report>, polled: seq<S>, m: nat, k: nat, final: Report)
    requires |reports| == ChecksBelow(m) && CheckReports(game, reports, polled)
    requires m <= k + 1 && k <= |polled| && m <= final.expanded + 1
    requires MovesOf(game, polled[..k]) <= final.inspected
    ensures Logged(game, reports + [final], polled, m)
  {
    var all := reports + [final];
    assert all[..|all| - 1] == reports;
    forall a, b | 0 <= a <= b < |all| ensures all[a].expanded <= all[b].expanded && all[a].inspected <= all[b].inspected {
      if a < |reports| {
        assert all[a] == reports[a];
        CheckPointBelow(m, a);
        if b < |reports| {
          assert all[b] == reports[b];
          MovesOfPrefix(game, polled, CheckPoint(a), CheckPoint(b));
        } else {
          MovesOfPrefix(game, polled, CheckPoint(a), k);
        }
      }
    }
  }
}
