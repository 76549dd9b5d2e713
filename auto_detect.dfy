/**
 * `AutoDetector`: remembers which scheduled jobs ran recently and, when a
 * user message reads as a completion, closes the recent jobs that are still
 * pending, or the most recently created pending task when no job ran
 * recently.
 *
 * The recent-jobs file is the field `recentJobs` (job id to epoch seconds);
 * an absent file is the empty map.
 */
module AutoDetect {
  import opened Strings
  import opened CompletionMatcher
  import opened TaskRecords
  import opened Tracker

  /** How long `add_recent_job` keeps an entry. */
  const RECENT_RETENTION_HOURS := 24

  /** The default window of `check_for_completions`. */
  const DEFAULT_MAX_AGE_HOURS := 2

  /**
   * The cutoff `hours` hours before `now`: exactly `hours * 3600` epoch seconds
   * earlier (the source subtracts on local time, which differs across a
   * daylight-saving change).
   */
  function Cutoff(now: int, hours: int): int
  {
    now - hours * SECONDS_PER_HOUR
  }

  /** The jobs `get_recent_job_ids(hours)` reports: those run strictly after the cutoff. */
  function RecentWindow(recent: map<JobId, int>, now: int, hours: int): (window: set<JobId>)
    ensures window <= recent.Keys
    ensures forall k :: k in window <==> k in recent && recent[k] > Cutoff(now, hours)
  {
    set k | k in recent && recent[k] > Cutoff(now, hours)
  }

  /** The recent-jobs map after `add_recent_job(jobId)` at time `now`. */
  function Recorded(recent: map<JobId, int>, jobId: JobId, now: int): (r: map<JobId, int>)
    ensures jobId in r && r[jobId] == now
    ensures forall k :: k in r <==> k == jobId || (k in recent && recent[k] > Cutoff(now, RECENT_RETENTION_HOURS))
    ensures forall k :: k in r && k != jobId ==> r[k] == recent[k]
    ensures forall k :: k in r ==> r[k] > Cutoff(now, RECENT_RETENTION_HOURS)
  {
    var added := recent[jobId := now];
    map k | k in added && added[k] > Cutoff(now, RECENT_RETENTION_HOURS) :: added[k]
  }

  /** A job just recorded is in every window of positive length read at the same time. */
  lemma RecordedIsRecent(recent: map<JobId, int>, jobId: JobId, now: int, hours: int)
    requires hours > 0
    ensures jobId in RecentWindow(Recorded(recent, jobId, now), now, hours)
  {
  }

  /** A wider window reports every job a narrower one does. */
  lemma WindowMonotone(recent: map<JobId, int>, now: int, hours: int, wider: int)
    requires hours <= wider
    ensures RecentWindow(recent, now, hours) <= RecentWindow(recent, now, wider)
  {
  }

  /**
   * Pruning loses nothing a later read can see: from any time after the
   * recording, a window of at most 24 hours reports the same jobs with or
   * without the entries `add_recent_job` dropped.
   */
  lemma PruningHidesNothing(recent: map<JobId, int>, jobId: JobId, recordedAt: int, now: int, hours: int)
    requires recordedAt <= now && hours <= RECENT_RETENTION_HOURS
    ensures RecentWindow(Recorded(recent, jobId, recordedAt), now, hours) == RecentWindow(recent[jobId := recordedAt], now, hours)
  {
    var pruned, kept := Recorded(recent, jobId, recordedAt), recent[jobId := recordedAt];
    forall k | k in RecentWindow(kept, now, hours)
      ensures k in RecentWindow(pruned, now, hours)
    {
      assert kept[k] > Cutoff(now, hours) >= Cutoff(recordedAt, RECENT_RETENTION_HOURS);
    }
  }

  /** `best` is a pending task with the greatest `created_at` (missing ones count as 1970-01-01). */
  ghost predicate IsLatest(pending: map<JobId, Task>, best: JobId)
  {
    && best in pending
    && forall k :: k in pending ==> LexLe(CreatedKey(pending[k]), CreatedKey(pending[best]))
  }

  /**
   * `max(pending_tasks.keys(), key=created_at)`: keeps the first key seen
   * among those with the greatest key, the order being the dict's.
   */
  method MostRecentJob(tasks: map<JobId, Task>) returns (best: JobId)
    requires tasks != map[]
    ensures IsLatest(tasks, best)
  {
    var todo := tasks.Keys;
    best :| best in todo;
    todo := todo - {best};
    LexLeReflexive(CreatedKey(tasks[best]));
    while todo != {}
      invariant todo <= tasks.Keys && best in tasks
      invariant forall k :: k in tasks && k !in todo ==> LexLe(CreatedKey(tasks[k]), CreatedKey(tasks[best]))
      decreases todo
    {
      var jobId :| jobId in todo;
      if LexLt(CreatedKey(tasks[best]), CreatedKey(tasks[jobId])) {
        LexLeTotal(CreatedKey(tasks[best]), CreatedKey(tasks[jobId]));
        forall k | k in tasks && k !in todo
          ensures LexLe(CreatedKey(tasks[k]), CreatedKey(tasks[jobId]))
        {
          LexLeTransitive(CreatedKey(tasks[k]), CreatedKey(tasks[best]), CreatedKey(tasks[jobId]));
        }
        LexLeReflexive(CreatedKey(tasks[jobId]));
        best := jobId;
      }
      todo := todo - {jobId};
    }
  }

  /**
   * The jobs an auto-detection closes: with recent jobs in the window, every
   * one of them still pending, once each; with none, the latest pending task;
   * with neither, nothing.
   */
  ghost predicate ChosenClosing(s: Store, window: set<JobId>, closed: seq<JobId>)
  {
    if window != {} then Enumerates(closed, window * s.pending.Keys)
    else if s.pending != map[] then |closed| == 1 && IsLatest(s.pending, closed[0])
    else closed == []
  }

  /** The completion method recorded for an auto-detection over `window`. */
  function AutoMethod(window: set<JobId>): CompletionMethod
  {
    if window != {} then AutoDetected else AutoDetectedFallback
  }

  /** `s` after the pending tasks `keys` are completed with method `m` at `at`. */
  function ClosedStore(s: Store, keys: set<JobId>, m: CompletionMethod, at: string): Store
    requires keys <= s.pending.Keys
  {
    Store(s.pending - keys, s.completed + (map k | k in keys :: CompletedTask(s.pending[k], at, m)), s.overdue - keys)
  }

  /** The set of ids listed in `ids`. */
  function Elements(ids: seq<JobId>): (keys: set<JobId>)
    ensures forall k :: k in keys <==> k in ids
  {
    set k | k in ids
  }

  /** The ids of `ids` that are keys of `p`, in the order of `ids`. */
  function PendingAmong(ids: seq<JobId>, p: map<JobId, Task>): seq<JobId>
    decreases |ids|
  {
    if |ids| == 0 then []
    else
      var r := PendingAmong(ids[..|ids| - 1], p);
      if ids[|ids| - 1] in p then r + [ids[|ids| - 1]] else r
  }

  /**
   * `PendingAmong` keeps exactly the listed ids that are keys of `p`, none
   * twice when `ids` has no repeats, and is no longer than `ids`.
   */
  lemma {:induction false} PendingAmongMembers(ids: seq<JobId>, p: map<JobId, Task>)
    ensures forall k :: k in PendingAmong(ids, p) <==> k in ids && k in p
    ensures (forall a, b :: 0 <= a < b < |ids| ==> ids[a] != ids[b]) ==>
      forall a, b :: 0 <= a < b < |PendingAmong(ids, p)| ==> PendingAmong(ids, p)[a] != PendingAmong(ids, p)[b]
    ensures |PendingAmong(ids, p)| <= |ids|
    decreases |ids|
  {
    if |ids| > 0 {
      PendingAmongMembers(ids[..|ids| - 1], p);
    }
  }

  /** The messages `mark_completed` returns for the pending tasks `closed`, in order. */
  function ClosedMessages(pending: map<JobId, Task>, closed: seq<JobId>): (msgs: seq<string>)
    requires forall k :: k in closed ==> k in pending
    ensures |msgs| == |closed|
    ensures forall i :: 0 <= i < |closed| ==> msgs[i] == CompletedMessage(pending[closed[i]].taskName)
  {
    seq(|closed|, i requires 0 <= i < |closed| => CompletedMessage(pending[closed[i]].taskName))
  }

  /**
   * An auto-detection over `window` applied to the store `s` gives `s'`: the
   * chosen jobs are completed at `at` with the method the window calls for.
   */
  ghost predicate AutoClosed(s: Store, s': Store, window: set<JobId>, closed: seq<JobId>, at: string)
  {
    && ChosenClosing(s, window, closed)
    && Elements(closed) <= s.pending.Keys
    && s' == ClosedStore(s, Elements(closed), AutoMethod(window), at)
  }

  /**
   * What `check_for_completions` does to the tracker's store `s`, giving `s'`,
   * given the recent-jobs map: nothing unless the message is a completion
   * message, otherwise the chosen jobs are closed.
   */
  ghost predicate Checked(s: Store, s': Store, recent: map<JobId, int>, messageText: string, now: Instant, maxAgeHours: int, closed: seq<JobId>)
  {
    if !IsCompletionMessage(messageText) then closed == [] && s' == s
    else AutoClosed(s, s', RecentWindow(recent, now.epoch, maxAgeHours), closed, now.iso)
  }

  /** The reply of `check_for_completions`: `None` when nothing was closed. */
  function CheckReply(pending: map<JobId, Task>, closed: seq<JobId>): Option<seq<string>>
    requires forall k :: k in closed ==> k in pending
  {
    if closed == [] then None else Some(ClosedMessages(pending, closed))
  }

  /**
   * An auto-detection closes only tasks that were pending, each once; every
   * closed task is completed with an automatic method, at `at`, with its
   * pending record; every other key keeps its entries; `pending` and
   * `completed` stay disjoint when they were.
   */
  lemma AutoClosedEffect(s: Store, s': Store, window: set<JobId>, closed: seq<JobId>, at: string)
    requires AutoClosed(s, s', window, closed, at)
    ensures forall k :: k in closed ==> k in s.pending
    ensures forall i, j :: 0 <= i < j < |closed| ==> closed[i] != closed[j]
    ensures forall k :: k in closed ==>
      && k !in s'.pending && k !in s'.overdue && k in s'.completed
      && s'.completed[k] == CompletedTask(s.pending[k], at, AutoMethod(window))
    ensures forall k :: k !in closed ==>
      (k in s'.pending <==> k in s.pending) && (k in s.pending ==> s'.pending[k] == s.pending[k])
      && (k in s'.completed <==> k in s.completed) && (k in s.completed ==> s'.completed[k] == s.completed[k])
      && (k in s'.overdue <==> k in s.overdue) && (k in s.overdue ==> s'.overdue[k] == s.overdue[k])
    ensures s.pending.Keys !! s.completed.Keys ==> s'.pending.Keys !! s'.completed.Keys
  {
    if window == {} && s.pending != map[] {
      assert closed == [closed[0]];
    }
    ClosedStoreEffect(s, Elements(closed), AutoMethod(window), at);
  }

  /** Closing `keys` moves exactly those records from `pending` to `completed`. */
  lemma ClosedStoreEffect(s: Store, keys: set<JobId>, m: CompletionMethod, at: string)
    requires keys <= s.pending.Keys
    ensures var s' := ClosedStore(s, keys, m, at);
      && (forall k :: k in keys ==>
        k !in s'.pending && k in s'.completed && s'.completed[k] == CompletedTask(s.pending[k], at, m) && k !in s'.overdue)
      && (forall k :: k !in keys ==>
        (k in s'.pending <==> k in s.pending) && (k in s.pending ==> s'.pending[k] == s.pending[k])
        && (k in s'.completed <==> k in s.completed) && (k in s.completed ==> s'.completed[k] == s.completed[k])
        && (k in s'.overdue <==> k in s.overdue) && (k in s.overdue ==> s'.overdue[k] == s.overdue[k]))
      && (s.pending.Keys !! s.completed.Keys ==> s'.pending.Keys !! s'.completed.Keys)
  {
  }

  /** A message that is not a completion message changes nothing and closes nothing. */
  lemma NonCompletionChangesNothing(s: Store, s': Store, recent: map<JobId, int>, messageText: string, now: Instant, maxAgeHours: int, closed: seq<JobId>)
    requires Checked(s, s', recent, messageText, now, maxAgeHours, closed)
    requires !IsCompletionMessage(messageText)
    ensures s' == s && CheckReply(s.pending, closed) == None
  {
  }

  /**
   * With recent jobs in the window but none of them pending, nothing is
   * closed: the fallback only runs when the window is empty.
   */
  lemma NoFallbackWhenRecentJobsDone(s: Store, s': Store, window: set<JobId>, closed: seq<JobId>, at: string)
    requires AutoClosed(s, s', window, closed, at)
    requires window != {} && window !! s.pending.Keys
    ensures closed == [] && s' == s
  {
    assert window * s.pending.Keys == {};
    EnumeratesSize(closed, {});
    ClosedStoreNone(s, AutoDetected, at);
  }

  /**
   * With no recent job in the window, exactly one task is closed, a
   * latest-created pending one, with the fallback method.
   */
  lemma FallbackClosesLatest(s: Store, s': Store, window: set<JobId>, closed: seq<JobId>, at: string)
    requires AutoClosed(s, s', window, closed, at)
    requires window == {} && s.pending != map[]
    ensures |closed| == 1 && IsLatest(s.pending, closed[0])
    ensures s'.pending == s.pending - {closed[0]}
    ensures s'.completed == s.completed[closed[0] := CompletedTask(s.pending[closed[0]], at, AutoDetectedFallback)]
  {
    assert Elements(closed) == {} + {closed[0]};
    ClosedStoreStep(s, {}, closed[0], AutoDetectedFallback, at);
    ClosedStoreNone(s, AutoDetectedFallback, at);
  }

  /** With nothing pending, nothing is closed and the store is unchanged, whatever the window. */
  lemma NothingPendingNothingClosed(s: Store, s': Store, window: set<JobId>, closed: seq<JobId>, at: string)
    requires AutoClosed(s, s', window, closed, at)
    requires s.pending == map[]
    ensures closed == [] && s' == s
  {
    if window != {} {
      assert window * s.pending.Keys == {};
      EnumeratesSize(closed, {});
    }
    ClosedStoreNone(s, AutoMethod(window), at);
  }

  /**
   * Detecting twice over the same non-empty window closes nothing the second
   * time: no recent job is completed twice.
   */
  lemma SecondCheckClosesNothing(s: Store, s1: Store, s2: Store, window: set<JobId>, closed1: seq<JobId>, closed2: seq<JobId>, at1: string, at2: string)
    requires window != {}
    requires AutoClosed(s, s1, window, closed1, at1)
    requires AutoClosed(s1, s2, window, closed2, at2)
    ensures closed2 == [] && s2 == s1
  {
    assert window * s1.pending.Keys == {} by {
      forall k | k in window * s.pending.Keys
        ensures k !in s1.pending
      {
        assert k in Elements(closed1);
      }
    }
    NoFallbackWhenRecentJobsDone(s1, s2, window, closed2, at2);
  }

  /** The reply of `process_message` for a recorded job. */
  function AddedJobMessage(jobId: JobId): string
  {
    "📋 Added job " + jobId + " to recent tracking"
  }

  /** The separator `process_message` joins with: a backslash and an `n`, not a newline. */
  const REPLY_SEPARATOR := "\\n"

  class AutoDetector {
    const tracker: TaskTracker
    var recentJobs: map<JobId, int>

    /** A detector over a tracker loaded with `loaded` and the recorded jobs `recent`. */
    constructor (loaded: Store, recent: map<JobId, int>)
      ensures fresh(tracker) && tracker.Snapshot() == loaded && recentJobs == recent
    {
      tracker := new TaskTracker(loaded);
      recentJobs := recent;
    }

    /** `get_recent_job_ids`: every job run in the last `hours` hours, once each. */
    method GetRecentJobIds(now: int, hours: int) returns (ids: seq<JobId>)
      ensures Enumerates(ids, RecentWindow(recentJobs, now, hours))
    {
      var cutoffTimestamp := Cutoff(now, hours);
      ids := [];
      var todo := recentJobs.Keys;
      while todo != {}
        invariant todo <= recentJobs.Keys
        invariant forall k :: k in ids <==> k in recentJobs && k !in todo && recentJobs[k] > cutoffTimestamp
        invariant forall i, j :: 0 <= i < j < |ids| ==> ids[i] != ids[j]
        decreases todo
      {
        var jobId :| jobId in todo;
        if recentJobs[jobId] > cutoffTimestamp {
          ids := ids + [jobId];
        }
        todo := todo - {jobId};
      }
    }

    /** `add_recent_job`: records `jobId` as run at `now` and drops entries older than 24 hours. */
    method AddRecentJob(jobId: JobId, now: int)
      modifies this
      ensures recentJobs == Recorded(old(recentJobs), jobId, now)
    {
      recentJobs := recentJobs[jobId := now];
      var cutoff := Cutoff(now, RECENT_RETENTION_HOURS);
      recentJobs := map k | k in recentJobs && recentJobs[k] > cutoff :: recentJobs[k];
    }

    /**
     * `check_for_completions`: closes the jobs `ChosenClosing` allows and
     * returns their messages. Also returns the closed ids in the order used.
     */
    method CheckForCompletions(messageText: string, now: Instant, maxAgeHours: int) returns (results: Option<seq<string>>, closed: seq<JobId>)
      modifies tracker
      ensures Checked(old(tracker.Snapshot()), tracker.Snapshot(), recentJobs, messageText, now, maxAgeHours, closed)
      ensures forall k :: k in closed ==> k in old(tracker.pending)
      ensures results == CheckReply(old(tracker.pending), closed)
    {
      closed := [];
      var completionDetected := DetectCompletionPhrase(messageText);
      if !completionDetected {
        return None, [];
      }
      var recentJobIds := GetRecentJobIds(now.epoch, maxAgeHours);
      ghost var s0 := tracker.Snapshot();
      ghost var window := RecentWindow(recentJobs, now.epoch, maxAgeHours);
      var msgs: seq<string> := [];
      if |recentJobIds| > 0 {
        msgs, closed := CloseRecentJobs(recentJobIds, now);
        RecentJobsClosed(s0, tracker.Snapshot(), window, recentJobIds, closed, now.iso);
      } else {
        assert window == {};
        msgs, closed := CloseFallback(now);
      }
      if |msgs| > 0 {
        results := Some(msgs);
      } else {
        results := None;
      }
    }

    /**
     * The branch of `check_for_completions` for an empty window: completes a
     * latest-created pending task, if there is one, with the fallback method.
     */
    method CloseFallback(now: Instant) returns (msgs: seq<string>, closed: seq<JobId>)
      modifies tracker
      ensures AutoClosed(old(tracker.Snapshot()), tracker.Snapshot(), {}, closed, now.iso)
      ensures forall k :: k in closed ==> k in old(tracker.pending)
      ensures msgs == ClosedMessages(old(tracker.pending), closed)
    {
      ghost var s0 := tracker.Snapshot();
      if tracker.pending != map[] {
        var result, mostRecentJob := CloseMostRecentJob(now);
        msgs, closed := [result], [mostRecentJob];
        assert Elements(closed) == {mostRecentJob};
      } else {
        msgs, closed := [], [];
        ClosedStoreNone(s0, AutoDetectedFallback, now.iso);
      }
    }

    /**
     * The fallback of `check_for_completions`: completes a latest-created
     * pending task with the fallback method.
     */
    method CloseMostRecentJob(now: Instant) returns (msg: string, mostRecentJob: JobId)
      requires tracker.pending != map[]
      modifies tracker
      ensures IsLatest(old(tracker.pending), mostRecentJob)
      ensures tracker.Snapshot() == ClosedStore(old(tracker.Snapshot()), {mostRecentJob}, AutoDetectedFallback, now.iso)
      ensures msg == CompletedMessage(old(tracker.pending)[mostRecentJob].taskName)
    {
      ghost var s0 := tracker.Snapshot();
      mostRecentJob := MostRecentJob(tracker.pending);
      msg := tracker.MarkCompleted(mostRecentJob, AutoDetectedFallback, now);
      ClosedStoreStep(s0, {}, mostRecentJob, AutoDetectedFallback, now.iso);
      ClosedStoreNone(s0, AutoDetectedFallback, now.iso);
      assert {} + {mostRecentJob} == {mostRecentJob};
    }

    /**
     * The loop of `check_for_completions` over the recent jobs: completes each
     * one still pending, in order, with the auto-detection method.
     */
    method CloseRecentJobs(recentJobIds: seq<JobId>, now: Instant) returns (msgs: seq<string>, closed: seq<JobId>)
      requires forall a, b :: 0 <= a < b < |recentJobIds| ==> recentJobIds[a] != recentJobIds[b]
      modifies tracker
      ensures closed == PendingAmong(recentJobIds, old(tracker.pending))
      ensures Elements(closed) == Elements(recentJobIds) * old(tracker.pending).Keys
      ensures forall a, b :: 0 <= a < b < |closed| ==> closed[a] != closed[b]
      ensures tracker.Snapshot() == ClosedStore(old(tracker.Snapshot()), Elements(closed), AutoDetected, now.iso)
      ensures msgs == ClosedMessages(old(tracker.pending), closed)
    {
      ghost var s0 := tracker.Snapshot();
      ghost var closedKeys: set<JobId> := {};
      msgs, closed := [], [];
      ClosedStoreNone(s0, AutoDetected, now.iso);
      var i := 0;
      while i < |recentJobIds|
        invariant 0 <= i <= |recentJobIds|
        invariant closed == PendingAmong(recentJobIds[..i], s0.pending)
        invariant forall k :: k in closedKeys <==> k in closed
        invariant closedKeys <= s0.pending.Keys
        invariant tracker.Snapshot() == ClosedStore(s0, closedKeys, AutoDetected, now.iso)
        invariant msgs == ClosedMessages(s0.pending, closed)
      {
        var jobId := recentJobIds[i];
        RecentJobStep(s0.pending, recentJobIds, i, closed);
        if jobId in tracker.pending {
          var result := tracker.MarkCompleted(jobId, AutoDetected, now);
          ClosedStoreStep(s0, closedKeys, jobId, AutoDetected, now.iso);
          ClosedMessagesStep(s0.pending, closed, jobId);
          msgs := msgs + [result];
          closed := closed + [jobId];
          closedKeys := closedKeys + {jobId};
        }
        i := i + 1;
      }
      assert recentJobIds[..i] == recentJobIds;
      PendingAmongMembers(recentJobIds, s0.pending);
      assert closedKeys == Elements(closed);
    }

    /**
     * `process_message`: a message that comes with a (non-empty) job id only
     * records the job; any other message is checked for completions over the
     * default two-hour window, and the messages are joined.
     */
    method ProcessMessage(messageText: string, jobId: Option<JobId>, now: Instant) returns (reply: Option<string>, closed: seq<JobId>)
      modifies this, tracker
      ensures jobId.Some? && jobId.value != "" ==>
        && recentJobs == Recorded(old(recentJobs), jobId.value, now.epoch)
        && tracker.Snapshot() == old(tracker.Snapshot())
        && reply == Some(AddedJobMessage(jobId.value))
        && closed == []
      ensures !(jobId.Some? && jobId.value != "") ==>
        && recentJobs == old(recentJobs)
        && Checked(old(tracker.Snapshot()), tracker.Snapshot(), recentJobs, messageText, now, DEFAULT_MAX_AGE_HOURS, closed)
        && (forall k :: k in closed ==> k in old(tracker.pending))
        && reply == (if closed == [] then None else Some(Join(ClosedMessages(old(tracker.pending), closed), REPLY_SEPARATOR)))
    {
      if jobId.Some? && jobId.value != "" {
        AddRecentJob(jobId.value, now.epoch);
        return Some(AddedJobMessage(jobId.value)), [];
      }
      var results;
      results, closed := CheckForCompletions(messageText, now, DEFAULT_MAX_AGE_HOURS);
      if results.Some? && |results.value| > 0 {
        reply := Some(Join(results.value, REPLY_SEPARATOR));
      } else {
        reply := None;
      }
    }
  }

  /** Closing one more pending id extends the closed store by one completion. */
  lemma ClosedStoreStep(s: Store, keys: set<JobId>, id: JobId, m: CompletionMethod, at: string)
    requires keys <= s.pending.Keys && id in s.pending && id !in keys
    ensures var before := ClosedStore(s, keys, m, at);
      ClosedStore(s, keys + {id}, m, at)
        == Store(before.pending - {id}, before.completed[id := CompletedTask(s.pending[id], at, m)], before.overdue - {id})
  {
    var before, after := ClosedStore(s, keys, m, at), ClosedStore(s, keys + {id}, m, at);
    assert after.pending == before.pending - {id};
    assert after.overdue == before.overdue - {id};
    ClosedCompletedStep(s, keys, id, m, at);
  }

  /** The `completed` part of `ClosedStoreStep`. */
  lemma ClosedCompletedStep(s: Store, keys: set<JobId>, id: JobId, m: CompletionMethod, at: string)
    requires keys <= s.pending.Keys && id in s.pending && id !in keys
    ensures ClosedStore(s, keys + {id}, m, at).completed == ClosedStore(s, keys, m, at).completed[id := CompletedTask(s.pending[id], at, m)]
  {
    CompletionsStep(s.pending, keys, id, m, at);
    MergeUpdate(s.completed, map k | k in keys :: CompletedTask(s.pending[k], at, m), id, CompletedTask(s.pending[id], at, m));
  }

  /** The completion records of `keys + {id}` are those of `keys` plus the one for `id`. */
  lemma CompletionsStep(pending: map<JobId, Task>, keys: set<JobId>, id: JobId, m: CompletionMethod, at: string)
    requires keys <= pending.Keys && id in pending
    ensures (map k | k in keys + {id} :: CompletedTask(pending[k], at, m))
         == (map k | k in keys :: CompletedTask(pending[k], at, m))[id := CompletedTask(pending[id], at, m)]
  {
  }

  /** Closing one more id adds its completion message at the end. */
  lemma ClosedMessagesStep(pending: map<JobId, Task>, closed: seq<JobId>, id: JobId)
    requires (forall k :: k in closed ==> k in pending) && id in pending
    ensures ClosedMessages(pending, closed + [id]) == ClosedMessages(pending, closed) + [CompletedMessage(pending[id].taskName)]
  {
    var before, after := ClosedMessages(pending, closed), ClosedMessages(pending, closed + [id]);
    assert |after| == |before| + 1;
    forall i | 0 <= i < |after|
      ensures after[i] == (before + [CompletedMessage(pending[id].taskName)])[i]
    {
      if i < |closed| {
        assert (closed + [id])[i] == closed[i];
      }
    }
  }

  /**
   * One more step of the loop over `ids`: its id has not been closed yet, and
   * it joins the closed ids exactly when it is a key of `p`.
   */
  lemma RecentJobStep(p: map<JobId, Task>, ids: seq<JobId>, i: nat, closed: seq<JobId>)
    requires i < |ids| && forall a, b :: 0 <= a < b < |ids| ==> ids[a] != ids[b]
    requires closed == PendingAmong(ids[..i], p)
    ensures ids[i] !in closed
    ensures ids[..i + 1] == ids[..i] + [ids[i]]
    ensures PendingAmong(ids[..i + 1], p) == if ids[i] in p then closed + [ids[i]] else closed
  {
    assert ids[..i + 1][..i] == ids[..i];
    PendingAmongMembers(ids[..i], p);
  }

  /** Closing the pending ones among a non-empty listing of the window is an auto-detection over it. */
  lemma RecentJobsClosed(s: Store, s': Store, window: set<JobId>, ids: seq<JobId>, closed: seq<JobId>, at: string)
    requires Enumerates(ids, window) && |ids| > 0
    requires Elements(closed) == Elements(ids) * s.pending.Keys
    requires forall a, b :: 0 <= a < b < |closed| ==> closed[a] != closed[b]
    requires s' == ClosedStore(s, Elements(closed), AutoDetected, at)
    ensures AutoClosed(s, s', window, closed, at)
  {
    assert ids[0] in window;
    assert Elements(closed) == window * s.pending.Keys;
  }

  /** Closing nothing changes nothing. */
  lemma ClosedStoreNone(s: Store, m: CompletionMethod, at: string)
    ensures ClosedStore(s, {}, m, at) == s
  {
    assert ClosedStore(s, {}, m, at).completed == s.completed;
  }
}
