/**
 * The records of the task tracker and the pure meaning of its operations.
 *
 * The tracker keeps three maps keyed by job id: `pending` (tasks awaiting
 * confirmation), `completed` (tasks confirmed, with how and when) and `overdue`
 * (a legacy counter map that is only ever cleared). The functions here say what
 * one completion, a run of completions, the overdue filter, a follow-up and the
 * daily summary do; the classes in `Tracker` and `AutoDetect` are proved to do
 * exactly that.
 */
module TaskRecords {
  import opened Strings

  datatype Option<T> = None | Some(value: T)

  type JobId = string

  /** The current time as one operation reads it: epoch seconds and its ISO-8601 text. */
  datatype Instant = Instant(epoch: int, iso: string)

  /**
   * A pending task. `scheduledTime` is the scheduled instant in epoch seconds;
   * `createdAt` and `followUpCount` may be missing from a stored record, and the
   * code reads them with defaults.
   */
  datatype Task = Task(taskName: string, scheduledTime: int, createdAt: Option<string>, followUpCount: Option<int>)

  datatype CompletionMethod = Manual | AutoDetected | AutoDetectedFallback

  /** A completed record: the pending record plus `completed_at` and `completion_method`. */
  datatype CompletedTask = CompletedTask(task: Task, completedAt: string, completionMethod: CompletionMethod)

  /** The three maps of the completions file. */
  datatype Store = Store(pending: map<JobId, Task>, completed: map<JobId, CompletedTask>, overdue: map<JobId, int>)

  const SECONDS_PER_HOUR := 3600

  /** The hours after which a pending task is overdue, unless the caller says otherwise. */
  const DEFAULT_OVERDUE_HOURS := 24

  /** The `created_at` assumed for a record that has none. */
  const DEFAULT_CREATED_AT := "1970-01-01"

  /** `task_info.get('created_at', '1970-01-01')`. */
  function CreatedKey(t: Task): string
  {
    match t.createdAt
    case Some(c) => c
    case None => DEFAULT_CREATED_AT
  }

  /** `task_info.get("follow_up_count", 0)`. */
  function FollowUpCount(t: Task): int
  {
    match t.followUpCount
    case Some(n) => n
    case None => 0
  }

  /** The record `mark_pending` stores. */
  function NewTask(taskName: string, scheduledTime: int, now: Instant): Task
  {
    Task(taskName, scheduledTime, Some(now.iso), Some(0))
  }

  // ---------------------------------------------------------------------------
  // Result messages

  function TrackingMessage(taskName: string): string
  {
    "📋 Tracking task: " + taskName
  }

  function CompletedMessage(taskName: string): string
  {
    "✅ Completed: " + taskName
  }

  const NOT_FOUND_MESSAGE := "❌ Task not found in pending list"

  const NO_RECENT_TASKS_MESSAGE := "🔍 Completion detected but no recent tasks to mark"

  /** A success message names the task and cannot be mistaken for the failure message. */
  lemma CompletedMessageNamesTask(taskName: string)
    ensures CompletedMessage(taskName) != NOT_FOUND_MESSAGE
    ensures |CompletedMessage(taskName)| >= |taskName|
    ensures CompletedMessage(taskName)[|CompletedMessage(taskName)| - |taskName|..] == taskName
  {
    assert CompletedMessage(taskName)[0] == '✅' != NOT_FOUND_MESSAGE[0];
  }

  // ---------------------------------------------------------------------------
  // mark_completed

  /** `mark_completed(id, m)` on a store: the new store and the returned message. */
  function Complete(s: Store, id: JobId, m: CompletionMethod, at: string): (Store, string)
  {
    if id in s.pending then
      var t := s.pending[id];
      (Store(s.pending - {id}, s.completed[id := CompletedTask(t, at, m)], s.overdue - {id}), CompletedMessage(t.taskName))
    else
      (s, NOT_FOUND_MESSAGE)
  }

  /**
   * A completion moves the record from `pending` to `completed`, keeps
   * `pending` and `completed` disjoint when they were, and touches no other key.
   */
  lemma CompleteMoves(s: Store, id: JobId, m: CompletionMethod, at: string)
    requires id in s.pending
    ensures var (s', msg) := Complete(s, id, m, at);
      && s'.pending.Keys == s.pending.Keys - {id}
      && id in s'.completed && s'.completed[id] == CompletedTask(s.pending[id], at, m)
      && id !in s'.overdue
      && msg == CompletedMessage(s.pending[id].taskName)
      && (forall k :: k != id ==> (k in s'.pending <==> k in s.pending) && (k in s.pending ==> s'.pending[k] == s.pending[k]))
      && (forall k :: k != id ==> (k in s'.completed <==> k in s.completed) && (k in s.completed ==> s'.completed[k] == s.completed[k]))
      && (forall k :: k != id ==> (k in s'.overdue <==> k in s.overdue) && (k in s.overdue ==> s'.overdue[k] == s.overdue[k]))
      && (s.pending.Keys !! s.completed.Keys ==> s'.pending.Keys !! s'.completed.Keys)
  {
  }

  /** An id that is not pending is reported as not found and nothing changes. */
  lemma CompleteNotFound(s: Store, id: JobId, m: CompletionMethod, at: string)
    requires id !in s.pending
    ensures Complete(s, id, m, at) == (s, NOT_FOUND_MESSAGE)
  {
  }

  /** Completing twice: the second call fails and leaves the first completion as it was. */
  lemma CompleteTwice(s: Store, id: JobId, m: CompletionMethod, at: string, m2: CompletionMethod, at2: string)
    ensures var (s1, _) := Complete(s, id, m, at);
      Complete(s1, id, m2, at2) == (s1, NOT_FOUND_MESSAGE)
  {
  }

  /** `mark_completed(id, m)` for each id of `ids` in order, collecting the messages. */
  function CompleteEach(s: Store, ids: seq<JobId>, m: CompletionMethod, at: string): (Store, seq<string>)
    decreases |ids|
  {
    if |ids| == 0 then (s, [])
    else
      var (s1, msgs) := CompleteEach(s, ids[..|ids| - 1], m, at);
      var (s2, msg) := Complete(s1, ids[|ids| - 1], m, at);
      (s2, msgs + [msg])
  }

  /** The message `mark_completed` returns for `ids[i]` when the ids are completed in order. */
  function EachMessage(s: Store, ids: seq<JobId>, i: nat): string
    requires i < |ids|
  {
    if ids[i] in s.pending && ids[i] !in ids[..i] then CompletedMessage(s.pending[ids[i]].taskName)
    else NOT_FOUND_MESSAGE
  }

  /**
   * Completing a list of ids: one message per id; an id that is pending at its
   * first occurrence is completed, every other occurrence is not found;
   * `pending` loses exactly the listed ids, `completed` gains exactly the
   * pending ones among them, `overdue` loses those.
   */
  lemma CompleteEachEffect(s: Store, ids: seq<JobId>, m: CompletionMethod, at: string)
    ensures var (s', msgs) := CompleteEach(s, ids, m, at);
      && |msgs| == |ids|
      && (forall i :: 0 <= i < |ids| ==> msgs[i] == EachMessage(s, ids, i))
      && s'.pending == s.pending - (set k | k in ids)
      && s'.completed == s.completed + (map k | k in ids && k in s.pending :: CompletedTask(s.pending[k], at, m))
      && s'.overdue == s.overdue - (set k | k in ids && k in s.pending)
  {
    CompleteEachMessages(s, ids, m, at);
    CompleteEachPending(s, ids, m, at);
    CompleteEachCompleted(s, ids, m, at);
    CompleteEachOverdue(s, ids, m, at);
  }

  lemma {:induction false} CompleteEachPending(s: Store, ids: seq<JobId>, m: CompletionMethod, at: string)
    ensures CompleteEach(s, ids, m, at).0.pending == s.pending - (set k | k in ids)
  {
    if |ids| > 0 {
      var n := |ids| - 1;
      CompleteEachPending(s, ids[..n], m, at);
      assert (set k | k in ids) == (set k | k in ids[..n]) + {ids[n]} by {
        assert ids == ids[..n] + [ids[n]];
      }
    }
  }

  lemma {:induction false} CompleteEachMessages(s: Store, ids: seq<JobId>, m: CompletionMethod, at: string)
    ensures |CompleteEach(s, ids, m, at).1| == |ids|
    ensures forall i :: 0 <= i < |ids| ==> CompleteEach(s, ids, m, at).1[i] == EachMessage(s, ids, i)
  {
    if |ids| > 0 {
      var n := |ids| - 1;
      var prefix := ids[..n];
      CompleteEachMessages(s, prefix, m, at);
      CompleteEachPending(s, prefix, m, at);
      var (s1, msgs1) := CompleteEach(s, prefix, m, at);
      assert ids[n] in s1.pending <==> ids[n] in s.pending && ids[n] !in prefix;
      forall i | 0 <= i < n
        ensures EachMessage(s, prefix, i) == EachMessage(s, ids, i)
      {
        assert ids[..i] == prefix[..i];
      }
    }
  }

  lemma {:induction false} CompleteEachCompleted(s: Store, ids: seq<JobId>, m: CompletionMethod, at: string)
    ensures CompleteEach(s, ids, m, at).0.completed
         == s.completed + (map k | k in ids && k in s.pending :: CompletedTask(s.pending[k], at, m))
  {
    if |ids| > 0 {
      var n := |ids| - 1;
      var prefix, x := ids[..n], ids[n];
      CompleteEachCompleted(s, prefix, m, at);
      CompleteEachPending(s, prefix, m, at);
      assert ids == prefix + [x];
      AddedStep(s.pending, prefix, x, m, at);
      if x in s.pending && x !in prefix {
        MergeUpdate(s.completed, map k | k in prefix && k in s.pending :: CompletedTask(s.pending[k], at, m), x, CompletedTask(s.pending[x], at, m));
      }
    }
  }

  /** The completion records of the pending ids of `prefix + [x]`, from those of `prefix`. */
  lemma AddedStep(pending: map<JobId, Task>, prefix: seq<JobId>, x: JobId, m: CompletionMethod, at: string)
    ensures var added1 := map k | k in prefix && k in pending :: CompletedTask(pending[k], at, m);
      (map k | k in prefix + [x] && k in pending :: CompletedTask(pending[k], at, m))
        == if x in pending && x !in prefix then added1[x := CompletedTask(pending[x], at, m)] else added1
  {
    var added1 := map k | k in prefix && k in pending :: CompletedTask(pending[k], at, m);
    var added := map k | k in prefix + [x] && k in pending :: CompletedTask(pending[k], at, m);
    if x in pending && x !in prefix {
      assert added == added1[x := CompletedTask(pending[x], at, m)];
    } else {
      assert added == added1;
    }
  }

  /** Updating the right operand of a map union updates the union. */
  lemma MergeUpdate<K, V>(a: map<K, V>, b: map<K, V>, k: K, v: V)
    ensures a + b[k := v] == (a + b)[k := v]
  {
  }

  lemma {:induction false} CompleteEachOverdue(s: Store, ids: seq<JobId>, m: CompletionMethod, at: string)
    ensures CompleteEach(s, ids, m, at).0.overdue == s.overdue - (set k | k in ids && k in s.pending)
  {
    if |ids| > 0 {
      var n := |ids| - 1;
      var prefix, x := ids[..n], ids[n];
      CompleteEachOverdue(s, prefix, m, at);
      CompleteEachPending(s, prefix, m, at);
      var s1 := CompleteEach(s, prefix, m, at).0;
      assert ids == prefix + [x];
      if x in s1.pending {
        assert (set k | k in ids && k in s.pending) == (set k | k in prefix && k in s.pending) + {x};
      } else {
        assert (set k | k in ids && k in s.pending) == (set k | k in prefix && k in s.pending);
      }
    }
  }

  /** A run of completions keeps `pending` and `completed` disjoint. */
  lemma CompleteEachKeepsDisjoint(s: Store, ids: seq<JobId>, m: CompletionMethod, at: string)
    requires s.pending.Keys !! s.completed.Keys
    ensures var (s', _) := CompleteEach(s, ids, m, at);
      s'.pending.Keys !! s'.completed.Keys && s'.pending.Keys <= s.pending.Keys
  {
    CompleteEachEffect(s, ids, m, at);
  }

  // ---------------------------------------------------------------------------
  // get_overdue_tasks

  /** The pending entries scheduled more than `hoursThreshold` hours before `now`. */
  function Overdue(pending: map<JobId, Task>, now: int, hoursThreshold: int): map<JobId, Task>
  {
    map k | k in pending && now - pending[k].scheduledTime > hoursThreshold * SECONDS_PER_HOUR :: pending[k]
  }

  /** The overdue entries are unchanged pending entries; a larger threshold selects fewer. */
  lemma OverdueIsSubmap(pending: map<JobId, Task>, now: int, h: int, h2: int)
    ensures forall k :: k in Overdue(pending, now, h) ==> k in pending && Overdue(pending, now, h)[k] == pending[k]
    ensures h <= h2 ==> Overdue(pending, now, h2).Keys <= Overdue(pending, now, h).Keys
  {
  }

  /** A task scheduled 30 hours ago is overdue after 24 hours but not after 48. */
  lemma OverdueScenario(pending: map<JobId, Task>, id: JobId, now: int)
    requires id in pending && pending[id].scheduledTime == now - 30 * SECONDS_PER_HOUR
    ensures id in Overdue(pending, now, 24) && id !in Overdue(pending, now, 48)
  {
  }

  // ---------------------------------------------------------------------------
  // create_follow_up_message

  /** The escalation tier a follow-up count selects: 0, 1 and 2 by name, else the last. */
  function FollowUpTier(count: int): (tier: nat)
    ensures tier <= 3
  {
    if count == 0 then 0 else if count == 1 then 1 else if count == 2 then 2 else 3
  }

  const TIER_PREFIXES: seq<string> := ["🔔 Recordatorio", "🔄 Pendiente", "⚠️ Aún pendiente", "❗ PENDIENTE"]

  function FollowUpPrefix(count: int): string
  {
    TIER_PREFIXES[FollowUpTier(count)]
  }

  /** The message for a task at its current count. */
  function FollowUpMessage(t: Task): string
  {
    FollowUpPrefix(FollowUpCount(t)) + ": " + t.taskName
  }

  /** The record after one follow-up: the count it was read with, plus one. */
  function FollowedUp(t: Task, count: int): (t': Task)
    ensures FollowUpCount(t') == count + 1
    ensures t'.taskName == t.taskName && t'.scheduledTime == t.scheduledTime && t'.createdAt == t.createdAt
  {
    t.(followUpCount := Some(count + 1))
  }

  /** Each follow-up escalates one tier until the last, which repeats. */
  lemma FollowUpEscalates(count: int)
    requires count >= 0
    ensures FollowUpTier(count + 1) == if FollowUpTier(count) < 3 then FollowUpTier(count) + 1 else 3
    ensures FollowUpTier(count) <= FollowUpTier(count + 1)
  {
  }

  /** The messages of `n` successive follow-ups of one task. */
  function FollowUpSeries(t: Task, n: nat): seq<string>
    decreases n
  {
    if n == 0 then [] else [FollowUpMessage(t)] + FollowUpSeries(FollowedUp(t, FollowUpCount(t)), n - 1)
  }

  /** The `i`-th of successive follow-ups uses the count it started with plus `i`. */
  lemma {:induction false} FollowUpSeriesCounts(t: Task, n: nat)
    decreases n
    ensures |FollowUpSeries(t, n)| == n
    ensures forall i :: 0 <= i < n ==> FollowUpSeries(t, n)[i] == FollowUpPrefix(FollowUpCount(t) + i) + ": " + t.taskName
  {
    if n > 0 {
      var t' := FollowedUp(t, FollowUpCount(t));
      FollowUpSeriesCounts(t', n - 1);
      forall i | 0 < i < n
        ensures FollowUpSeries(t, n)[i] == FollowUpPrefix(FollowUpCount(t) + i) + ": " + t.taskName
      {
        assert FollowUpSeries(t, n)[i] == FollowUpSeries(t', n - 1)[i - 1];
      }
    }
  }

  /** A fresh task escalates Recordatorio, Pendiente, Aún pendiente, PENDIENTE, PENDIENTE. */
  lemma FreshTaskEscalation(t: Task)
    requires FollowUpCount(t) == 0
    ensures FollowUpSeries(t, 5) == [
      "🔔 Recordatorio: " + t.taskName, "🔄 Pendiente: " + t.taskName, "⚠️ Aún pendiente: " + t.taskName,
      "❗ PENDIENTE: " + t.taskName, "❗ PENDIENTE: " + t.taskName]
  {
    FollowUpSeriesCounts(t, 5);
    var series := FollowUpSeries(t, 5);
    assert series[0] == FollowUpPrefix(0) + ": " + t.taskName;
    assert series[1] == FollowUpPrefix(1) + ": " + t.taskName;
    assert series[2] == FollowUpPrefix(2) + ": " + t.taskName;
    assert series[3] == FollowUpPrefix(3) + ": " + t.taskName;
    assert series[4] == FollowUpPrefix(4) + ": " + t.taskName;
    assert TIER_PREFIXES[0] + ": " == "🔔 Recordatorio: ";
    assert TIER_PREFIXES[1] + ": " == "🔄 Pendiente: ";
    assert TIER_PREFIXES[2] + ": " == "⚠️ Aún pendiente: ";
    assert TIER_PREFIXES[3] + ": " == "❗ PENDIENTE: ";
  }

  // ---------------------------------------------------------------------------
  // generate_daily_summary

  const NO_PENDING_MESSAGE := "✅ No tienes tareas pendientes"
  const OVERDUE_HEADER := "❗ **Tareas Vencidas:**"
  const PENDING_HEADER := "\n📋 **Tareas Pendientes:**"
  const SUMMARY_FOOTER := "\nResponde 'listo [tarea]' para marcar como completada"

  function Bullet(item: string): string
  {
    "  • " + item
  }

  function Bullets(items: seq<string>): (lines: seq<string>)
    ensures |lines| == |items|
    ensures forall i :: 0 <= i < |items| ==> lines[i] == Bullet(items[i])
  {
    if |items| == 0 then [] else Bullets(items[..|items| - 1]) + [Bullet(items[|items| - 1])]
  }

  /** A header and its bullets, or nothing for an empty section. */
  function Section(header: string, items: seq<string>): seq<string>
  {
    if |items| == 0 then [] else [header] + Bullets(items)
  }

  /** The lines of a summary with the given follow-ups and plain task names. */
  function SummaryLines(followUps: seq<string>, names: seq<string>): seq<string>
  {
    Section(OVERDUE_HEADER, followUps) + Section(PENDING_HEADER, names) + [SUMMARY_FOOTER]
  }

  /** The follow-up messages of the tasks `ids`, in that order. */
  function FollowUpMessages(pending: map<JobId, Task>, ids: seq<JobId>): (msgs: seq<string>)
    requires forall k :: k in ids ==> k in pending
    ensures |msgs| == |ids|
    ensures forall i :: 0 <= i < |ids| ==> msgs[i] == FollowUpMessage(pending[ids[i]])
  {
    if |ids| == 0 then [] else FollowUpMessages(pending, ids[..|ids| - 1]) + [FollowUpMessage(pending[ids[|ids| - 1]])]
  }

  /** The names of the tasks `ids`, in that order. */
  function TaskNames(pending: map<JobId, Task>, ids: seq<JobId>): (names: seq<string>)
    requires forall k :: k in ids ==> k in pending
    ensures |names| == |ids|
    ensures forall i :: 0 <= i < |ids| ==> names[i] == pending[ids[i]].taskName
  {
    if |ids| == 0 then [] else TaskNames(pending, ids[..|ids| - 1]) + [pending[ids[|ids| - 1]].taskName]
  }

  /** Lines built one bullet per follow-up message are the bullets of those messages. */
  lemma FollowUpBullets(pending: map<JobId, Task>, ids: seq<JobId>, lines: seq<string>)
    requires forall k :: k in ids ==> k in pending
    requires |lines| == |ids|
    requires forall i :: 0 <= i < |ids| ==> lines[i] == Bullet(FollowUpMessage(pending[ids[i]]))
    ensures lines == Bullets(FollowUpMessages(pending, ids))
  {
    var expected := Bullets(FollowUpMessages(pending, ids));
    assert |expected| == |lines|;
    forall i | 0 <= i < |ids|
      ensures lines[i] == expected[i]
    {
    }
  }

  /** Lines built one bullet per task name are the bullets of those names. */
  lemma NameBullets(pending: map<JobId, Task>, ids: seq<JobId>, lines: seq<string>)
    requires forall k :: k in ids ==> k in pending
    requires |lines| == |ids|
    requires forall i :: 0 <= i < |ids| ==> lines[i] == Bullet(pending[ids[i]].taskName)
    ensures lines == Bullets(TaskNames(pending, ids))
  {
    var expected := Bullets(TaskNames(pending, ids));
    assert |expected| == |lines|;
    forall i | 0 <= i < |ids|
      ensures lines[i] == expected[i]
    {
    }
  }

  /** The names of `ids` depend only on the names stored under them. */
  lemma TaskNamesAgree(a: map<JobId, Task>, b: map<JobId, Task>, ids: seq<JobId>)
    requires forall k :: k in ids ==> k in a && k in b && a[k].taskName == b[k].taskName
    ensures TaskNames(a, ids) == TaskNames(b, ids)
  {
    var x, y := TaskNames(a, ids), TaskNames(b, ids);
    assert |x| == |y|;
    forall i | 0 <= i < |ids|
      ensures x[i] == y[i]
    {
    }
  }

  /** `pending` after one follow-up of each task in `keys`. */
  function WithFollowUps(pending: map<JobId, Task>, keys: set<JobId>): map<JobId, Task>
  {
    map k | k in pending :: if k in keys then FollowedUp(pending[k], FollowUpCount(pending[k])) else pending[k]
  }

  /**
   * A summary's follow-ups advance the count of each task in `keys` by one
   * and leave every other pending record, and every name and schedule, as it was.
   */
  lemma WithFollowUpsCounts(pending: map<JobId, Task>, keys: set<JobId>)
    ensures WithFollowUps(pending, keys).Keys == pending.Keys
    ensures forall k :: k in pending && k in keys ==>
      && FollowUpCount(WithFollowUps(pending, keys)[k]) == FollowUpCount(pending[k]) + 1
      && WithFollowUps(pending, keys)[k].taskName == pending[k].taskName
      && WithFollowUps(pending, keys)[k].scheduledTime == pending[k].scheduledTime
    ensures forall k :: k in pending && k !in keys ==> WithFollowUps(pending, keys)[k] == pending[k]
  {
  }

  /** `ids` lists each element of `keys` exactly once. */
  ghost predicate Enumerates(ids: seq<JobId>, keys: set<JobId>)
  {
    && (forall i, j :: 0 <= i < j < |ids| ==> ids[i] != ids[j])
    && (forall k :: k in ids <==> k in keys)
  }

  /**
   * The two sections of a summary: every pending task is listed in exactly one
   * of them, and only the overdue ones are followed up.
   */
  lemma SummarySections(pending: map<JobId, Task>, now: int, overdueIds: seq<JobId>, otherIds: seq<JobId>)
    requires Enumerates(overdueIds, Overdue(pending, now, DEFAULT_OVERDUE_HOURS).Keys)
    requires Enumerates(otherIds, pending.Keys - Overdue(pending, now, DEFAULT_OVERDUE_HOURS).Keys)
    ensures forall k :: k in pending ==> (k in overdueIds) != (k in otherIds)
    ensures forall k :: k in overdueIds + otherIds ==> k in pending
    ensures |overdueIds| + |otherIds| == |pending|
  {
    var due := Overdue(pending, now, DEFAULT_OVERDUE_HOURS).Keys;
    EnumeratesSize(overdueIds, due);
    EnumeratesSize(otherIds, pending.Keys - due);
    SplitSize(pending.Keys, due);
  }

  /** A subset and the rest of the set together have the size of the set. */
  lemma SplitSize(all: set<JobId>, part: set<JobId>)
    requires part <= all
    ensures |all| == |part| + |all - part|
  {
    assert all == part + (all - part);
  }

  /** A list that enumerates a set is as long as the set is large. */
  lemma {:induction false} EnumeratesSize(ids: seq<JobId>, keys: set<JobId>)
    requires Enumerates(ids, keys)
    ensures |ids| == |keys|
  {
    if |ids| > 0 {
      var n := |ids| - 1;
      assert Enumerates(ids[..n], keys - {ids[n]}) by {
        forall k ensures k in ids[..n] <==> k in keys - {ids[n]} {
          if k in ids[..n] {
            var i :| 0 <= i < n && ids[..n][i] == k;
            assert ids[i] != ids[n];
          }
          if k in ids && k != ids[n] {
            var i :| 0 <= i < |ids| && ids[i] == k;
            assert i < n && ids[..n][i] == k;
          }
        }
      }
      EnumeratesSize(ids[..n], keys - {ids[n]});
    } else {
      assert forall k :: k !in keys;
      assert keys == {};
    }
  }
}
