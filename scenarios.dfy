/**
 * Client code driving the two classes through typical usage scenarios of
 * the task tracker: tracking then listing, completing twice, five follow-ups of a
 * fresh task, and the two ways a completion message closes a task.
 */
module Scenarios {
  import opened Strings
  import opened CompletionMatcher
  import opened TaskRecords
  import opened Tracker
  import opened AutoDetect

  /** Tracking a task and then listing the pending tasks gives back a fresh record for it. */
  method TrackThenList(tracker: TaskTracker, jobId: JobId, taskName: string, scheduledTime: int, now: Instant)
    returns (tasks: map<JobId, Task>)
    modifies tracker
    ensures tasks == old(tracker.pending)[jobId := Task(taskName, scheduledTime, Some(now.iso), Some(0))]
  {
    var msg := tracker.MarkPending(jobId, taskName, scheduledTime, now);
    tasks := tracker.GetPendingTasks();
  }

  /** Completing the same task twice: the second call is not found and the first completion stays. */
  method CompleteThenRetry(tracker: TaskTracker, jobId: JobId, now: Instant, later: Instant)
    returns (first: string, second: string)
    requires jobId in tracker.pending
    modifies tracker
    ensures first == CompletedMessage(old(tracker.pending)[jobId].taskName)
    ensures second == NOT_FOUND_MESSAGE
    ensures jobId !in tracker.pending
    ensures jobId in tracker.completed && tracker.completed[jobId] == CompletedTask(old(tracker.pending)[jobId], now.iso, Manual)
  {
    first := tracker.MarkCompleted(jobId, Manual, now);
    second := tracker.MarkCompleted(jobId, Manual, later);
  }

  /**
   * Five follow-ups of a task never followed up before escalate through the
   * four tiers and stay at the last, and the count reaches five.
   */
  method FollowUpFiveTimes(tracker: TaskTracker, jobId: JobId) returns (msgs: seq<string>)
    requires jobId in tracker.pending && FollowUpCount(tracker.pending[jobId]) == 0
    modifies tracker
    ensures var name := old(tracker.pending)[jobId].taskName;
      msgs == ["🔔 Recordatorio: " + name, "🔄 Pendiente: " + name, "⚠️ Aún pendiente: " + name,
               "❗ PENDIENTE: " + name, "❗ PENDIENTE: " + name]
    ensures jobId in tracker.pending && FollowUpCount(tracker.pending[jobId]) == 5
  {
    ghost var t0 := tracker.pending[jobId];
    msgs := [];
    var i := 0;
    while i < 5
      invariant 0 <= i <= 5 && |msgs| == i
      invariant jobId in tracker.pending && FollowUpCount(tracker.pending[jobId]) == i
      invariant tracker.pending[jobId].taskName == t0.taskName
      invariant forall k :: 0 <= k < i ==> msgs[k] == FollowUpPrefix(k) + ": " + t0.taskName
    {
      var msg := tracker.CreateFollowUpMessage(jobId, tracker.pending[jobId]);
      msgs := msgs + [msg];
      i := i + 1;
    }
    FollowUpSeriesCounts(t0, 5);
    FreshTaskEscalation(t0);
    assert msgs == FollowUpSeries(t0, 5);
  }

  /**
   * "listo" while job-5 is pending and ran just now: job-5 is completed as
   * auto-detected and the reply names its task.
   */
  method ListoWithRecentJob(t: Task, now: Instant) returns (detector: AutoDetector, results: Option<seq<string>>)
    ensures detector.tracker.pending == map[]
    ensures detector.tracker.completed == map["job-5" := CompletedTask(t, now.iso, AutoDetected)]
    ensures results == Some([CompletedMessage(t.taskName)])
  {
    detector := new AutoDetector(Store(map["job-5" := t], map[], map[]), map["job-5" := now.epoch]);
    WholeWordIsCompletion("listo", 0, "listo");
    assert RecentWindow(detector.recentJobs, now.epoch, DEFAULT_MAX_AGE_HOURS) == {"job-5"};
    var closed;
    results, closed := detector.CheckForCompletions("listo", now, DEFAULT_MAX_AGE_HOURS);
    RecentJobClosed(t, detector.tracker.Snapshot(), closed, now.iso);
  }

  /** An auto-detection over the window {job-5} with job-5 the only pending task closes exactly it. */
  lemma RecentJobClosed(t: Task, s': Store, closed: seq<JobId>, at: string)
    requires AutoClosed(Store(map["job-5" := t], map[], map[]), s', {"job-5"}, closed, at)
    ensures closed == ["job-5"]
    ensures s' == Store(map[], map["job-5" := CompletedTask(t, at, AutoDetected)], map[])
    ensures CheckReply(map["job-5" := t], closed) == Some([CompletedMessage(t.taskName)])
  {
    EnumeratesSize(closed, {"job-5"});
    assert closed[0] in {"job-5"};
    assert Elements(closed) == {"job-5"};
    assert ClosedMessages(map["job-5" := t], closed) == [CompletedMessage(t.taskName)];
  }

  /**
   * With no recent job, "done" closes exactly the later-created of two pending
   * tasks, with the fallback method.
   */
  method FallbackPicksLatest(a: Task, b: Task, t1: string, t2: string, now: Instant) returns (detector: AutoDetector, results: Option<seq<string>>)
    requires a.createdAt == Some(t1) && b.createdAt == Some(t2) && LexLt(t1, t2)
    ensures detector.tracker.pending == map["A" := a]
    ensures detector.tracker.completed == map["B" := CompletedTask(b, now.iso, AutoDetectedFallback)]
    ensures results == Some([CompletedMessage(b.taskName)])
  {
    detector := new AutoDetector(Store(map["A" := a, "B" := b], map[], map[]), map[]);
    WholeWordIsCompletion("done", 0, "done");
    assert RecentWindow(map[], now.epoch, DEFAULT_MAX_AGE_HOURS) == {};
    var closed;
    results, closed := detector.CheckForCompletions("done", now, DEFAULT_MAX_AGE_HOURS);
    LatestOfTwoClosed(a, b, t1, t2, detector.tracker.Snapshot(), closed, now.iso);
  }

  /** The fallback over two pending tasks closes the one created later. */
  lemma LatestOfTwoClosed(a: Task, b: Task, t1: string, t2: string, s': Store, closed: seq<JobId>, at: string)
    requires a.createdAt == Some(t1) && b.createdAt == Some(t2) && LexLt(t1, t2)
    requires AutoClosed(Store(map["A" := a, "B" := b], map[], map[]), s', {}, closed, at)
    ensures closed == ["B"]
    ensures s' == Store(map["A" := a], map["B" := CompletedTask(b, at, AutoDetectedFallback)], map[])
    ensures CheckReply(map["A" := a, "B" := b], closed) == Some([CompletedMessage(b.taskName)])
  {
    ghost var s := Store(map["A" := a, "B" := b], map[], map[]);
    FallbackClosesLatest(s, s', {}, closed, at);
    LexLtIsStrict(t1, t2);
    if LexLe(t2, t1) {
      LexLeAntisymmetric(t1, t2);
    }
    assert !LexLe(CreatedKey(b), CreatedKey(a));
    assert s.pending - {"B"} == map["A" := a];
    assert ClosedMessages(s.pending, closed) == [CompletedMessage(b.taskName)];
  }
}
