/**
 * `TaskTracker`: the completions store and the operations that change it in
 * place. The three maps of the completions file are the fields `pending`,
 * `completed` and `overdue`; every method states its whole effect on them.
 */
module Tracker {
  import opened Strings
  import opened CompletionMatcher
  import opened TaskRecords

  class TaskTracker {
    var pending: map<JobId, Task>
    var completed: map<JobId, CompletedTask>
    var overdue: map<JobId, int>

    /** A tracker over the maps read from the completions file (all empty when there is none). */
    constructor (loaded: Store)
      ensures Snapshot() == loaded
    {
      pending := loaded.pending;
      completed := loaded.completed;
      overdue := loaded.overdue;
    }

    /** The three maps as one value. */
    function Snapshot(): Store
      reads this
    {
      Store(pending, completed, overdue)
    }

    /** `mark_pending`: stores a fresh record under `jobId`, replacing any earlier one. */
    method MarkPending(jobId: JobId, taskName: string, scheduledTime: int, now: Instant) returns (msg: string)
      modifies this
      ensures pending == old(pending)[jobId := NewTask(taskName, scheduledTime, now)]
      ensures completed == old(completed) && overdue == old(overdue)
      ensures msg == TrackingMessage(taskName)
    {
      pending := pending[jobId := NewTask(taskName, scheduledTime, now)];
      msg := TrackingMessage(taskName);
    }

    /** `mark_completed`: moves a pending record to `completed`, or reports it as not found. */
    method MarkCompleted(jobId: JobId, completionMethod: CompletionMethod, now: Instant) returns (msg: string)
      modifies this
      ensures (Snapshot(), msg) == Complete(old(Snapshot()), jobId, completionMethod, now.iso)
      ensures old(jobId in pending) ==>
        && pending == old(pending) - {jobId}
        && completed == old(completed)[jobId := CompletedTask(old(pending)[jobId], now.iso, completionMethod)]
        && overdue == old(overdue) - {jobId}
        && msg == CompletedMessage(old(pending)[jobId].taskName)
      ensures old(jobId !in pending) ==>
        pending == old(pending) && completed == old(completed) && overdue == old(overdue) && msg == NOT_FOUND_MESSAGE
      ensures old(pending.Keys !! completed.Keys) ==> pending.Keys !! completed.Keys
    {
      if jobId in pending {
        var taskInfo := pending[jobId];
        pending := pending - {jobId};
        completed := completed[jobId := CompletedTask(taskInfo, now.iso, completionMethod)];
        overdue := overdue - {jobId};
        msg := CompletedMessage(taskInfo.taskName);
      } else {
        msg := NOT_FOUND_MESSAGE;
      }
    }

    /**
     * `detect_completion`: when the message is a completion message, completes
     * every listed id in order (one message each, not-found ones included), or
     * reports that there is nothing to mark when no id is given.
     */
    method DetectCompletion(messageText: string, recentJobIds: seq<JobId>, now: Instant) returns (results: Option<seq<string>>)
      modifies this
      ensures !IsCompletionMessage(messageText) ==> results == None && Snapshot() == old(Snapshot())
      ensures IsCompletionMessage(messageText) && |recentJobIds| == 0 ==>
        results == Some([NO_RECENT_TASKS_MESSAGE]) && Snapshot() == old(Snapshot())
      ensures IsCompletionMessage(messageText) && |recentJobIds| > 0 ==>
        var (after, msgs) := CompleteEach(old(Snapshot()), recentJobIds, AutoDetected, now.iso);
        Snapshot() == after && results == Some(msgs)
    {
      var detected := DetectCompletionPhrase(messageText);
      if !detected {
        return None;
      }
      if |recentJobIds| == 0 {
        return Some([NO_RECENT_TASKS_MESSAGE]);
      }
      var msgs: seq<string> := [];
      var i := 0;
      while i < |recentJobIds|
        invariant 0 <= i <= |recentJobIds|
        invariant (Snapshot(), msgs) == CompleteEach(old(Snapshot()), recentJobIds[..i], AutoDetected, now.iso)
      {
        var msg := MarkCompleted(recentJobIds[i], AutoDetected, now);
        msgs := msgs + [msg];
        assert recentJobIds[..i + 1][..i] == recentJobIds[..i];
        i := i + 1;
      }
      assert recentJobIds[..i] == recentJobIds;
      results := Some(msgs);
    }

    /** `get_pending_tasks`: the pending map itself. */
    method GetPendingTasks() returns (tasks: map<JobId, Task>)
      ensures tasks == pending
    {
      tasks := pending;
    }

    /** `get_overdue_tasks`: the pending entries strictly older than the threshold, unchanged. */
    method GetOverdueTasks(now: int, hoursThreshold: int) returns (due: map<JobId, Task>)
      ensures due == Overdue(pending, now, hoursThreshold)
    {
      due := map[];
      var todo := pending.Keys;
      while todo != {}
        invariant todo <= pending.Keys
        invariant forall k :: k in due <==> k in pending && k !in todo && now - pending[k].scheduledTime > hoursThreshold * SECONDS_PER_HOUR
        invariant forall k :: k in due ==> due[k] == pending[k]
        decreases todo
      {
        var jobId :| jobId in todo;
        var taskInfo := pending[jobId];
        if now - taskInfo.scheduledTime > hoursThreshold * SECONDS_PER_HOUR {
          due := due[jobId := taskInfo];
        }
        todo := todo - {jobId};
      }
    }

    /**
     * `create_follow_up_message`: the message for the count read from
     * `taskInfo`, and that count plus one stored in the pending record.
     */
    method CreateFollowUpMessage(jobId: JobId, taskInfo: Task) returns (msg: string)
      requires jobId in pending
      modifies this
      ensures msg == FollowUpMessage(taskInfo)
      ensures pending == old(pending)[jobId := FollowedUp(old(pending)[jobId], FollowUpCount(taskInfo))]
      ensures completed == old(completed) && overdue == old(overdue)
    {
      var followUpCount := FollowUpCount(taskInfo);
      var taskName := taskInfo.taskName;
      var prefix;
      if followUpCount == 0 {
        prefix := "🔔 Recordatorio";
      } else if followUpCount == 1 {
        prefix := "🔄 Pendiente";
      } else if followUpCount == 2 {
        prefix := "⚠️ Aún pendiente";
      } else {
        prefix := "❗ PENDIENTE";
      }
      pending := pending[jobId := FollowedUp(pending[jobId], followUpCount)];
      msg := prefix + ": " + taskName;
    }

    /**
     * `generate_daily_summary`: follows up every task overdue by 24 hours and
     * lists every other pending task by name. Also returns the two id orders it
     * used, which the source leaves to dict iteration order.
     */
    method GenerateDailySummary(now: int) returns (summary: string, overdueIds: seq<JobId>, otherIds: seq<JobId>)
      modifies this
      ensures completed == old(completed) && overdue == old(overdue)
      ensures old(pending) == map[] ==>
        summary == NO_PENDING_MESSAGE && overdueIds == [] && otherIds == [] && pending == old(pending)
      ensures old(pending) != map[] ==>
        var due := Overdue(old(pending), now, DEFAULT_OVERDUE_HOURS);
        && Enumerates(overdueIds, due.Keys)
        && Enumerates(otherIds, old(pending).Keys - due.Keys)
        && pending == WithFollowUps(old(pending), due.Keys)
        && summary == Join(SummaryLines(FollowUpMessages(old(pending), overdueIds), TaskNames(old(pending), otherIds)), "\n")
    {
      var due := GetOverdueTasks(now, DEFAULT_OVERDUE_HOURS);
      if pending == map[] && due == map[] {
        summary, overdueIds, otherIds := NO_PENDING_MESSAGE, [], [];
        return;
      }
      ghost var p0 := pending;
      var overdueLines;
      overdueLines, overdueIds := OverdueSection(due);
      // The source's `pending` is the live dict, so the counts just stored are
      // visible here; it is never empty at this point.
      var recentPending := map k | k in pending && k !in due :: pending[k];
      assert recentPending.Keys == p0.Keys - due.Keys;
      var pendingLines;
      pendingLines, otherIds := PendingSection(recentPending);
      TaskNamesAgree(recentPending, p0, otherIds);
      var lines := overdueLines + pendingLines + [SUMMARY_FOOTER];
      assert lines == SummaryLines(FollowUpMessages(p0, overdueIds), TaskNames(p0, otherIds));
      summary := Join(lines, "\n");
    }

    /** The overdue part of `generate_daily_summary`: a header and one follow-up line per overdue task. */
    method OverdueSection(due: map<JobId, Task>) returns (lines: seq<string>, ids: seq<JobId>)
      requires forall k :: k in due ==> k in pending && due[k] == pending[k]
      modifies this
      ensures Enumerates(ids, due.Keys)
      ensures lines == Section(OVERDUE_HEADER, FollowUpMessages(old(pending), ids))
      ensures pending == WithFollowUps(old(pending), due.Keys)
      ensures completed == old(completed) && overdue == old(overdue)
    {
      if due == map[] {
        lines, ids := [], [];
        assert pending == WithFollowUps(pending, due.Keys);
      } else {
        ghost var p0 := pending;
        var bullets;
        bullets, ids := FollowUpEach(due);
        FollowUpBullets(p0, ids, bullets);
        var k :| k in due;
        assert k in ids;
        lines := [OVERDUE_HEADER] + bullets;
      }
    }

    /** The pending part of `generate_daily_summary`: a header and one line per remaining task. */
    method PendingSection(tasks: map<JobId, Task>) returns (lines: seq<string>, ids: seq<JobId>)
      ensures Enumerates(ids, tasks.Keys)
      ensures lines == Section(PENDING_HEADER, TaskNames(tasks, ids))
    {
      if tasks == map[] {
        lines, ids := [], [];
      } else {
        var bullets;
        bullets, ids := ListNames(tasks);
        NameBullets(tasks, ids, bullets);
        var k :| k in tasks;
        assert k in ids;
        lines := [PENDING_HEADER] + bullets;
      }
    }

    /** The follow-up loop of `generate_daily_summary`: one follow-up per overdue task, in some order. */
    method FollowUpEach(due: map<JobId, Task>) returns (bullets: seq<string>, ids: seq<JobId>)
      requires forall k :: k in due ==> k in pending && due[k] == pending[k]
      modifies this
      ensures Enumerates(ids, due.Keys)
      ensures |bullets| == |ids|
      ensures forall i :: 0 <= i < |ids| ==> bullets[i] == Bullet(FollowUpMessage(old(pending)[ids[i]]))
      ensures pending == WithFollowUps(old(pending), due.Keys)
      ensures completed == old(completed) && overdue == old(overdue)
    {
      bullets, ids := [], [];
      var todo := due.Keys;
      while todo != {}
        invariant todo <= due.Keys
        invariant forall k :: k in ids <==> k in due && k !in todo
        invariant forall i, j :: 0 <= i < j < |ids| ==> ids[i] != ids[j]
        invariant pending == WithFollowUps(old(pending), due.Keys - todo)
        invariant |bullets| == |ids|
        invariant forall i :: 0 <= i < |ids| ==> bullets[i] == Bullet(FollowUpMessage(old(pending)[ids[i]]))
        invariant completed == old(completed) && overdue == old(overdue)
        decreases todo
      {
        var jobId :| jobId in todo;
        var msg := CreateFollowUpMessage(jobId, due[jobId]);
        bullets := bullets + [Bullet(msg)];
        ids := ids + [jobId];
        todo := todo - {jobId};
      }
    }

    /** The listing loop of `generate_daily_summary`: one line per task name, in some order. */
    method ListNames(tasks: map<JobId, Task>) returns (bullets: seq<string>, ids: seq<JobId>)
      ensures Enumerates(ids, tasks.Keys)
      ensures |bullets| == |ids|
      ensures forall i :: 0 <= i < |ids| ==> bullets[i] == Bullet(tasks[ids[i]].taskName)
    {
      bullets, ids := [], [];
      var todo := tasks.Keys;
      while todo != {}
        invariant todo <= tasks.Keys
        invariant forall k :: k in ids <==> k in tasks && k !in todo
        invariant forall i, j :: 0 <= i < j < |ids| ==> ids[i] != ids[j]
        invariant |bullets| == |ids|
        invariant forall i :: 0 <= i < |ids| ==> bullets[i] == Bullet(tasks[ids[i]].taskName)
        decreases todo
      {
        var jobId :| jobId in todo;
        bullets := bullets + [Bullet(tasks[jobId].taskName)];
        ids := ids + [jobId];
        todo := todo - {jobId};
      }
    }
  }
}
