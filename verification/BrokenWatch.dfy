/**
  The alarm of a broken watch over runs: `runFailureAlert` of apps/worker/src/alerting.ts for the checks of one listing.
  The alarm and the write of `brokenReportedAt` are two awaits, and the threshold is a setting each check reads anew.
*/
module BrokenWatches {
  import opened AlertRules

  /** What becomes of an alarm that is due: not delivered, delivered but not stored, as its write rejects, or both. */
  datatype Fate = Silent | Lost | Saved

  /**
    One check of the listing. A stale one leaves its run and no alerting. Behind a good one the flag is cleared, unless
    an error ends the alerting before.
  */
  datatype Attempt =
    | Stale(ok: bool)
    | Good(cleared: bool)
    | Bad(threshold: nat, fate: Fate)

  /** `at` is the number of runs by then. */
  datatype Alarm = Alarm(at: nat, threshold: nat, stored: bool)

  /** `runs` are newest first, true stands for `ok`; `reported` is `brokenReportedAt !== null`. */
  datatype Watch = Watch(runs: seq<bool>, reported: bool, alarms: seq<Alarm>)

  predicate Worked(attempt: Attempt) { attempt.Good? || (attempt.Stale? && attempt.ok) }

  function Window(runs: seq<bool>, threshold: nat): seq<bool> {
    if |runs| < threshold then runs else runs[..threshold]
  }

  predicate AlarmIsDue(w: Watch, threshold: nat) {
    ShouldReportBroken(LeadingFailures(Window(w.runs, threshold)), w.reported, threshold)
  }

  /** The alerting behind a recorded check. */
  function Alerted(w: Watch, attempt: Attempt): Watch {
    match attempt
    case Stale(_) => w
    case Good(cleared) => w.(reported := w.reported && !cleared)
    case Bad(threshold, fate) =>
      if !AlarmIsDue(w, threshold) || fate == Silent then w
      else Watch(w.runs, fate == Saved, w.alarms + [Alarm(|w.runs|, threshold, fate == Saved)])
  }

  function AfterAttempt(w: Watch, attempt: Attempt): Watch {
    Alerted(w.(runs := [Worked(attempt)] + w.runs), attempt)
  }

  function WatchAfter(attempts: seq<Attempt>): Watch {
    if attempts == [] then Watch([], false, [])
    else AfterAttempt(WatchAfter(attempts[..|attempts| - 1]), attempts[|attempts| - 1])
  }

  /** The stored runs and `brokenReportedAt` of one listing. */
  class BrokenWatch {
    var runs: seq<bool>
    var reported: bool
    ghost var alarms: seq<Alarm>

    ghost function View(): Watch
      reads this
    {
      Watch(runs, reported, alarms)
    }

    constructor ()
      ensures View() == WatchAfter([])
    {
      runs, reported := [], false;
      alarms := [];
    }

    /** `persist` adds the run of every check, stale or not. */
    method Record(ok: bool)
      modifies this
      ensures View() == old(View()).(runs := [ok] + old(runs))
    {
      runs := [ok] + runs;
    }

    /** `runFailureAlert`. */
    method RunFailureAlert(attempt: Attempt)
      requires !attempt.Stale?
      modifies this
      ensures View() == Alerted(old(View()), attempt)
    {
      if attempt.Good? {
        if reported && attempt.cleared {
          reported := false;
        }
        return;
      }
      var window := Window(runs, attempt.threshold);
      var failures := CountLeadingFailures(window);
      if !ShouldReportBroken(failures, reported, attempt.threshold) {
        return;
      }
      if attempt.fate != Silent {
        alarms := alarms + [Alarm(|runs|, attempt.threshold, attempt.fate == Saved)];
        if attempt.fate == Saved {
          reported := true;
        }
      }
    }
  }

  // ----- What holds of every run -----

  /** One of the checks from `i` up to `j` was ok. */
  ghost predicate OkBetween(attempts: seq<Attempt>, i: nat, j: nat) {
    exists k :: i <= k < j && k < |attempts| && Worked(attempts[k])
  }

  /** One of them cleared the flag. */
  ghost predicate ClearedBetween(attempts: seq<Attempt>, i: nat, j: nat) {
    exists k :: i <= k < j && k < |attempts| && attempts[k] == Good(true)
  }

  /** The last `threshold` checks up to the alarm all failed, the one that raised it included. */
  ghost predicate Closes(attempts: seq<Attempt>, alarm: Alarm) {
    && alarm.threshold <= alarm.at && 0 < alarm.at <= |attempts| && !Worked(attempts[alarm.at - 1])
    && (forall k :: alarm.at - alarm.threshold <= k < alarm.at ==> !Worked(attempts[k]))
  }

  ghost predicate RunsAre(runs: seq<bool>, attempts: seq<Attempt>) {
    |runs| == |attempts| && forall k :: 0 <= k < |runs| ==> runs[k] == Worked(attempts[|attempts| - 1 - k])
  }

  ghost predicate WatchOk(attempts: seq<Attempt>, w: Watch) {
    && RunsAre(w.runs, attempts)
    && (forall a :: 0 <= a < |w.alarms| ==> Closes(attempts, w.alarms[a]))
    && (forall a :: 0 < a < |w.alarms| && w.alarms[a - 1].stored ==>
          ClearedBetween(attempts, w.alarms[a - 1].at, w.alarms[a].at))
    && (w.reported ==> w.alarms != [] && w.alarms[|w.alarms| - 1].stored)
    && (!w.reported && w.alarms != [] && w.alarms[|w.alarms| - 1].stored ==>
          ClearedBetween(attempts, w.alarms[|w.alarms| - 1].at, |attempts|))
  }

  lemma {:induction false} LeadingFailuresAtLeast(window: seq<bool>, n: nat)
    requires LeadingFailures(window) >= n
    ensures n <= |window| && forall k :: 0 <= k < n ==> !window[k]
    decreases n
  {
    if n > 0 {
      LeadingFailuresAtLeast(window[1..], n - 1);
      forall k | 0 <= k < n ensures !window[k] {
        if k > 0 { assert window[k] == window[1..][k - 1]; }
      }
    }
  }

  lemma {:induction false} AllFailures(window: seq<bool>)
    requires forall k :: 0 <= k < |window| ==> !window[k]
    ensures LeadingFailures(window) == |window|
  {
    if window != [] { AllFailures(window[1..]); }
  }

  lemma Cleared(attempts: seq<Attempt>, k: nat, i: nat, j: nat)
    requires i <= k < j && k < |attempts| && attempts[k] == Good(true)
    ensures ClearedBetween(attempts, i, j)
  {
  }

  lemma ClearedGrows(attempts: seq<Attempt>, last: Attempt, i: nat, j: nat)
    requires ClearedBetween(attempts, i, j)
    ensures ClearedBetween(attempts + [last], i, j) && ClearedBetween(attempts + [last], i, j + 1)
  {
    var k :| i <= k < j && k < |attempts| && attempts[k] == Good(true);
    Cleared(attempts + [last], k, i, j);
    Cleared(attempts + [last], k, i, j + 1);
  }

  lemma RunsGrow(runs: seq<bool>, attempts: seq<Attempt>, last: Attempt)
    requires RunsAre(runs, attempts)
    ensures RunsAre([Worked(last)] + runs, attempts + [last])
  {
  }

  lemma DueCloses(attempts: seq<Attempt>, w: Watch, threshold: nat)
    requires RunsAre(w.runs, attempts) && AlarmIsDue(w, threshold) && attempts != []
    requires !Worked(attempts[|attempts| - 1])
    ensures Closes(attempts, Alarm(|w.runs|, threshold, true)) && Closes(attempts, Alarm(|w.runs|, threshold, false))
  {
    LeadingFailuresAtLeast(Window(w.runs, threshold), threshold);
    forall k | |attempts| - threshold <= k < |attempts| ensures !Worked(attempts[k]) {
      assert w.runs[|attempts| - 1 - k] == Window(w.runs, threshold)[|attempts| - 1 - k];
    }
  }

  lemma RecordKeepsOk(attempts: seq<Attempt>, w: Watch, last: Attempt)
    requires WatchOk(attempts, w)
    ensures WatchOk(attempts + [last], w.(runs := [Worked(last)] + w.runs))
  {
    var longer := attempts + [last];
    RunsGrow(w.runs, attempts, last);
    forall a | 0 <= a < |w.alarms| ensures Closes(longer, w.alarms[a]) {
      assert Closes(attempts, w.alarms[a]);
    }
    forall a | 0 < a < |w.alarms| && w.alarms[a - 1].stored
      ensures ClearedBetween(longer, w.alarms[a - 1].at, w.alarms[a].at)
    {
      ClearedGrows(attempts, last, w.alarms[a - 1].at, w.alarms[a].at);
    }
    if !w.reported && w.alarms != [] && w.alarms[|w.alarms| - 1].stored {
      ClearedGrows(attempts, last, w.alarms[|w.alarms| - 1].at, |attempts|);
    }
  }

  lemma AlertKeepsOk(attempts: seq<Attempt>, w: Watch)
    requires attempts != [] && WatchOk(attempts, w)
    ensures WatchOk(attempts, Alerted(w, attempts[|attempts| - 1]))
  {
    var last := attempts[|attempts| - 1];
    match last {
      case Stale(_) =>
      case Good(cleared) =>
        if cleared && w.reported {
          assert Closes(attempts, w.alarms[|w.alarms| - 1]);
          Cleared(attempts, |attempts| - 1, w.alarms[|w.alarms| - 1].at, |attempts|);
        }
      case Bad(threshold, _) =>
        if AlarmIsDue(w, threshold) { DueCloses(attempts, w, threshold); }
    }
  }

  lemma {:induction false} WatchIsOk(attempts: seq<Attempt>)
    ensures WatchOk(attempts, WatchAfter(attempts))
  {
    if attempts != [] {
      var front, last := attempts[..|attempts| - 1], attempts[|attempts| - 1];
      var w := WatchAfter(front);
      WatchIsOk(front);
      RecordKeepsOk(front, w, last);
      assert front + [last] == attempts;
      AlertKeepsOk(attempts, w.(runs := [Worked(last)] + w.runs));
    }
  }

  /**
    Over every run each alarm closes a streak of as many failed checks as the threshold its own check had read, and
    between two alarms some check cleared the flag, unless the write of the earlier alarm was lost.
  */
  lemma OneAlarmPerStreak(attempts: seq<Attempt>, a: nat)
    requires a < |WatchAfter(attempts).alarms|
    ensures var alarms := WatchAfter(attempts).alarms;
      && Closes(attempts, alarms[a])
      && (0 < a && alarms[a - 1].stored ==> ClearedBetween(attempts, alarms[a - 1].at, alarms[a].at))
  {
    WatchIsOk(attempts);
  }

  // ----- When a streak is reported twice -----

  /** If a run goes on to raise another alarm, some check between the last one so far and that one was ok. */
  ghost predicate NextAlarmNeedsOk(attempts: seq<Attempt>, more: seq<Attempt>) {
    var alarms, longer := WatchAfter(attempts).alarms, WatchAfter(attempts + more).alarms;
    0 < |alarms| < |longer| ==> OkBetween(attempts + more, alarms[|alarms| - 1].at, longer[|alarms|].at)
  }

  lemma {:induction false} AlarmsGrow(attempts: seq<Attempt>, more: seq<Attempt>)
    ensures WatchAfter(attempts).alarms <= WatchAfter(attempts + more).alarms
    ensures var alarms, longer := WatchAfter(attempts).alarms, WatchAfter(attempts + more).alarms;
      forall a :: |alarms| <= a < |longer| ==> longer[a].at > |attempts|
  {
    if more == [] {
      assert attempts + more == attempts;
    } else {
      var front := more[..|more| - 1];
      AlarmsGrow(attempts, front);
      WatchIsOk(attempts + front);
      assert (attempts + more)[..|attempts + more| - 1] == attempts + front;
    }
  }

  lemma StoredAlarmNeedsOk(attempts: seq<Attempt>, more: seq<Attempt>)
    requires var alarms := WatchAfter(attempts).alarms; alarms != [] && alarms[|alarms| - 1].stored
    ensures NextAlarmNeedsOk(attempts, more)
  {
    var alarms, longer := WatchAfter(attempts).alarms, WatchAfter(attempts + more).alarms;
    AlarmsGrow(attempts, more);
    if |alarms| < |longer| {
      assert longer[|alarms| - 1] == alarms[|alarms| - 1];
      OneAlarmPerStreak(attempts + more, |alarms|);
      var k :| && alarms[|alarms| - 1].at <= k < longer[|alarms|].at
               && k < |attempts + more| && (attempts + more)[k] == Good(true);
      assert Worked((attempts + more)[k]);
    }
  }

  lemma OkSinceIsOkBetween(attempts: seq<Attempt>, more: seq<Attempt>)
    requires var alarms := WatchAfter(attempts).alarms;
      alarms != [] && OkBetween(attempts, alarms[|alarms| - 1].at, |attempts|)
    ensures NextAlarmNeedsOk(attempts, more)
  {
    var alarms, longer := WatchAfter(attempts).alarms, WatchAfter(attempts + more).alarms;
    AlarmsGrow(attempts, more);
    if |alarms| < |longer| {
      var k :| alarms[|alarms| - 1].at <= k < |attempts| && Worked(attempts[k]);
      assert Worked((attempts + more)[k]) && k < longer[|alarms|].at;
    }
  }

  /** A streak without an ok check since its alarm is long enough for the same threshold once more. */
  lemma StillDue(attempts: seq<Attempt>, runs: seq<bool>, last: Alarm, more: Attempt)
    requires RunsAre(runs, attempts) && Closes(attempts, last) && !OkBetween(attempts, last.at, |attempts|)
    requires !Worked(more)
    ensures LeadingFailures(Window([false] + runs, last.threshold)) == last.threshold
  {
    var longer := attempts + [more];
    RunsGrow(runs, attempts, more);
    var window := Window([false] + runs, last.threshold);
    forall k | 0 <= k < |window| ensures !window[k] {
      var j := |attempts| - k;
      assert window[k] == Worked(longer[j]);
      assert j < |attempts| ==> longer[j] == attempts[j];
    }
    AllFailures(window);
  }

  lemma NoOkSince(attempts: seq<Attempt>, more: Attempt, i: nat)
    requires !OkBetween(attempts, i, |attempts|) && !Worked(more)
    ensures !OkBetween(attempts + [more], i, |attempts| + 1)
  {
    var longer := attempts + [more];
    forall k | i <= k < |longer| ensures !Worked(longer[k]) {
      assert k < |attempts| ==> longer[k] == attempts[k];
    }
  }

  /** So one more failure raises an alarm again that was not stored. */
  lemma UnstoredAlarmIsRepeated(attempts: seq<Attempt>) returns (more: seq<Attempt>)
    requires WatchAfter(attempts).alarms != []
    requires var last := WatchAfter(attempts).alarms[|WatchAfter(attempts).alarms| - 1];
      !last.stored && !OkBetween(attempts, last.at, |attempts|)
    ensures !NextAlarmNeedsOk(attempts, more)
  {
    var w := WatchAfter(attempts);
    var last := w.alarms[|w.alarms| - 1];
    more := [Bad(last.threshold, Saved)];
    WatchIsOk(attempts);
    StillDue(attempts, w.runs, last, more[0]);
    NoOkSince(attempts, more[0], last.at);
    assert (attempts + more)[..|attempts + more| - 1] == attempts;
    assert WatchAfter(attempts + more).alarms == w.alarms + [Alarm(|w.runs| + 1, last.threshold, true)];
  }

  /**
    Over every run and every way it can go on: before the next alarm some check is sure to be ok if and only if the
    write of the last alarm was not lost, or a check has been ok since. Otherwise the very next failure can report the
    same streak once more.
  */
  lemma NextAlarmNeedsOkIff(attempts: seq<Attempt>)
    requires WatchAfter(attempts).alarms != []
    ensures var alarms := WatchAfter(attempts).alarms; var last := alarms[|alarms| - 1];
      (forall more :: NextAlarmNeedsOk(attempts, more)) <==> last.stored || OkBetween(attempts, last.at, |attempts|)
  {
    var alarms := WatchAfter(attempts).alarms;
    var last := alarms[|alarms| - 1];
    if last.stored {
      forall more ensures NextAlarmNeedsOk(attempts, more) { StoredAlarmNeedsOk(attempts, more); }
    } else if OkBetween(attempts, last.at, |attempts|) {
      forall more ensures NextAlarmNeedsOk(attempts, more) { OkSinceIsOkBetween(attempts, more); }
    } else {
      var more := UnstoredAlarmIsRepeated(attempts);
    }
  }

  /** The shortest such run. */
  lemma LostMarkRepeatsTheAlarm()
    ensures WatchAfter([Bad(1, Lost), Bad(1, Saved)]).alarms == [Alarm(1, 1, false), Alarm(2, 1, true)]
  {
    var first, both := [Bad(1, Lost)], [Bad(1, Lost), Bad(1, Saved)];
    assert first[..0] == [] && both[..1] == first;
    assert Window([false], 1) == [false] && Window([false] + [false], 1) == [false];
    AllFailures([false]);
    assert WatchAfter(first) == Watch([false], false, [Alarm(1, 1, false)]);
  }
}
