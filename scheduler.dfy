/** One pass of SchedulerService.StartAsync's loop: the query window, the
    fetch, the pick of the newest archive file, the webhook retry loop and
    the wait before the next pass. The clock, the server, the directory
    listing, the file contents and the webhook's answers are inputs; the
    waits are recorded, not slept. */
module SchedulerService {
  import opened Base
  import opened Calendar
  import opened Text
  import opened JsonValues
  import opened Config
  import opened RequestLogModel
  import opened Grouping
  import opened SeqJsonLogReader
  import opened SeqQuery
  import opened WebhookPayloadSender

  /** A file of the backup directory as FileInfo exposes it; the write time
      is in ticks. */
  datatype FileInfo = FileInfo(name: string, lastWriteTime: int)

  function WrittenAt(f: FileInfo): real { f.lastWriteTime as real }

  /** The "*.json" search pattern. */
  predicate IsJsonFile(f: FileInfo) { EndsWith(f.name, ".json") }

  /** Directory.GetFiles(dir, "*.json"), in listing order. */
  function JsonFiles(files: seq<FileInfo>): seq<FileInfo>
  {
    Where(files, IsJsonFile)
  }

  /** .OrderByDescending(f => f.LastWriteTime).FirstOrDefault() */
  function LatestFile(files: seq<FileInfo>): Option<FileInfo>
  {
    var sorted := SortDescending(JsonFiles(files), WrittenAt);
    if sorted == [] then None else Some(sorted[0])
  }

  /** The file picked is a "*.json" file written no earlier than any other,
      and the first listed among those written at that same moment; there
      is none exactly when the directory holds no "*.json" file. */
  lemma LatestIsNewest(files: seq<FileInfo>)
    ensures LatestFile(files).None? <==> forall i :: 0 <= i < |files| ==> !IsJsonFile(files[i])
    ensures LatestFile(files).Some? ==>
      var f := LatestFile(files).value;
      && f in files && IsJsonFile(f)
      && (forall i :: 0 <= i < |files| && IsJsonFile(files[i]) ==> files[i].lastWriteTime <= f.lastWriteTime)
      && |WithKey(JsonFiles(files), WrittenAt, WrittenAt(f))| > 0
      && f == WithKey(JsonFiles(files), WrittenAt, WrittenAt(f))[0]
  {
    var json := JsonFiles(files);
    var sorted := SortDescending(json, WrittenAt);
    if sorted != [] {
      var f := sorted[0];
      assert f in multiset(sorted);
      assert f in json;
      SortDescendingSorted(json, WrittenAt);
      forall i | 0 <= i < |files| && IsJsonFile(files[i])
        ensures files[i].lastWriteTime <= f.lastWriteTime
      {
        assert files[i] in multiset(json);
        assert files[i] in sorted;
        var k :| 0 <= k < |sorted| && sorted[k] == files[i];
        if k > 0 {
          assert WrittenAt(sorted[0]) >= WrittenAt(sorted[k]);
        }
      }
      SortDescendingStable(json, WrittenAt, WrittenAt(f));
      assert WithKey(sorted, WrittenAt, WrittenAt(f))[0] == f;
    } else {
      assert |json| == |sorted| == 0;
    }
  }

  // The webhook retry loop.

  /** How the retry loop ended. */
  datatype RetryEnd =
    | Delivered      // an attempt returned true
    | Exhausted      // every allowed attempt returned false
    | DelayRejected  // Task.Delay refused a negative interval (ArgumentOutOfRangeException)
    | WaitsForever   // Task.Delay(-1): the wait never ends

  /** The milliseconds handed to Task.Delay: RetryIntervalBySec * 1000 in
      unchecked int arithmetic. */
  function RetryDelay(webhook: WebhookConfig): int32
  {
    Wrap32(webhook.retryIntervalBySec as int * 1000)
  }

  /** The answer to the i-th POST; attempts beyond the script fail as an
      unreachable server. */
  function OutcomeAt(outcomes: seq<PostOutcome>, i: nat): PostOutcome
  {
    if i < |outcomes| then outcomes[i] else Threw(HttpRequest)
  }

  predicate Succeeds(logs: seq<RequestLog>, config: AppConfig, outcomes: seq<PostOutcome>, i: nat)
  {
    SendLogsAsync(logs, config, OutcomeAt(outcomes, i)).sent
  }

  /** The attempts RetryCount allows. */
  function AllowedAttempts(webhook: WebhookConfig): nat
  {
    if webhook.retryCount < 0 then 0 else webhook.retryCount as nat
  }

  /** The retry loop: at most RetryCount attempts, stopping at the first
      success, with a wait after every failed attempt, the last included. */
  method RetrySend(logs: seq<RequestLog>, config: AppConfig, outcomes: seq<PostOutcome>)
    returns (attempts: nat, delays: seq<int>, end: RetryEnd)
    ensures attempts <= AllowedAttempts(config.webhook)
    ensures forall j :: 0 <= j < attempts - 1 ==> !Succeeds(logs, config, outcomes, j)
    ensures end == Delivered <==> attempts > 0 && Succeeds(logs, config, outcomes, attempts - 1)
    ensures |delays| == if end == Delivered then attempts - 1 else attempts
    ensures forall j :: 0 <= j < |delays| ==> delays[j] == RetryDelay(config.webhook) as int
    ensures end == Exhausted ==> attempts == AllowedAttempts(config.webhook) && (attempts > 0 ==> RetryDelay(config.webhook) >= 0)
    ensures end == DelayRejected ==> attempts == 1 && RetryDelay(config.webhook) < -1
    ensures end == WaitsForever ==> attempts == 1 && RetryDelay(config.webhook) == -1
  {
    attempts, delays, end := 0, [], Exhausted;
    var i := 0;
    while i < config.webhook.retryCount as int
      invariant 0 <= i <= AllowedAttempts(config.webhook)
      invariant attempts == i && |delays| == i
      invariant forall j :: 0 <= j < i ==> !Succeeds(logs, config, outcomes, j) && delays[j] == RetryDelay(config.webhook) as int
      invariant i > 0 ==> RetryDelay(config.webhook) >= 0
    {
      var success := SendLogsAsync(logs, config, OutcomeAt(outcomes, i)).sent;
      attempts := attempts + 1;
      if success {
        end := Delivered;
        return;
      }
      var ms := RetryDelay(config.webhook);
      delays := delays + [ms as int];
      if ms < -1 {
        end := DelayRejected;
        return;
      }
      if ms == -1 {
        end := WaitsForever;
        return;
      }
      i := i + 1;
    }
  }

  // One pass of the loop.

  /** What the push of the newest archive came to. */
  datatype Push =
    | Off                                  // Webhook.SendFilteredLogs is false
    | Unlisted(fault: Fault)               // listing the backup directory threw; caught and logged
    | NoBackup                             // no "*.json" file to push
    | Skipped(file: string, fault: Fault)  // reading or mapping the file threw; caught and logged
    | Pushed(file: string, logs: seq<RequestLog>, attempts: nat, delays: seq<int>, end: RetryEnd)

  /** What comes after the push. */
  datatype Next =
    | Stalled                 // a retry wait that never ends
    | Sleeps(minutes: int32)  // Task.Delay(TimeSpan.FromMinutes(IntervalMinutes)), then the next pass
    | Stops(fault: Fault)     // that delay was refused, and the exception ends StartAsync

  datatype Cycle =
    | Disabled                                                   // StartAsync returns at once
    | Faulted(fault: Fault)                                      // the window or the fetch threw out of StartAsync
    | Completed(window: Window, saved: seq<Json>, push: Push, next: Next)

  /** The largest interval Task.Delay(TimeSpan) accepts, in milliseconds. */
  const MaxDelayMs: int := 0xFFFF_FFFE

  /** The records of a file's elements: a null document maps to no records
      (`raw?.Select(...).ToList() ?? new()`). */
  function MapFile(raw: Option<seq<Json>>, firstId: nat): Result<seq<RequestLog>>
  {
    if raw.None? then Ok([]) else MapEach(raw.value, firstId)
  }

  /** The window of a pass: now plus each offset, as UTC times. */
  function CycleWindow(config: AppConfig, now: DateTime): Result<Window>
    requires IsValid(now)
  {
    var start := AddMinutes(now, config.scheduler.queryStartOffsetMinutes as int);
    var end := AddMinutes(now, config.scheduler.queryEndOffsetMinutes as int);
    if start.None? || end.None? then Err(ArgumentOutOfRange("DateTime.AddMinutes"))
    else Ok(Window(start.value, end.value, "Z"))
  }

  /** What the push of a pass promises: off exactly when sending is switched
      off; unlisted exactly when the listing failed; no backup exactly when
      the listing has no "*.json" file; otherwise the newest file, skipped
      when reading or mapping it failed, or pushed with the records it maps
      to, at most the allowed attempts, every attempt before the last one
      failed, delivered exactly when the last one succeeded, one delay of
      RetryDelay milliseconds after each failed attempt, exhausted only after
      every allowed attempt, and a refused or endless wait only after the
      first attempt, for a delay below -1 or of -1. */
  predicate PushMeets(config: AppConfig, archive: Result<seq<FileInfo>>, contents: string -> Result<Option<seq<Json>>>,
                      firstId: nat, outcomes: seq<PostOutcome>, push: Push)
  {
    && (push.Off? <==> !config.webhook.sendFilteredLogs)
    && (config.webhook.sendFilteredLogs ==> (push.Unlisted? <==> archive.Err?))
    && (config.webhook.sendFilteredLogs && archive.Ok? ==> (push.NoBackup? <==> LatestFile(archive.value).None?))
    && (push.Skipped? || push.Pushed? ==>
          archive.Ok? && LatestFile(archive.value).Some? && push.file == LatestFile(archive.value).value.name)
    && (push.Skipped? ==>
          contents(push.file).Err? || MapFile(contents(push.file).value, firstId).Err?)
    && (push.Pushed? ==>
          && contents(push.file).Ok?
          && MapFile(contents(push.file).value, firstId) == Ok(push.logs))
    && (push.Pushed? ==>
          && push.attempts <= AllowedAttempts(config.webhook)
          && (push.end == Delivered <==> push.attempts > 0 && Succeeds(push.logs, config, outcomes, push.attempts - 1))
          && (forall j :: 0 <= j < push.attempts - 1 ==> !Succeeds(push.logs, config, outcomes, j))
          && |push.delays| == (if push.end == Delivered then push.attempts - 1 else push.attempts)
          && (forall j :: 0 <= j < |push.delays| ==> push.delays[j] == RetryDelay(config.webhook) as int)
          && (push.end == Exhausted ==> push.attempts == AllowedAttempts(config.webhook) && (push.attempts > 0 ==> RetryDelay(config.webhook) >= 0))
          && (push.end == DelayRejected ==> push.attempts == 1 && RetryDelay(config.webhook) < -1)
          && (push.end == WaitsForever ==> push.attempts == 1 && RetryDelay(config.webhook) == -1))
  }

  /** The push of the newest archive file, when Webhook.SendFilteredLogs
      is set: read it, map every element, then run the retry loop. A fault
      in reading or mapping is caught, and the pass goes on. */
  method PushLatest(config: AppConfig, archive: Result<seq<FileInfo>>, contents: string -> Result<Option<seq<Json>>>,
                    firstId: nat, outcomes: seq<PostOutcome>)
    returns (push: Push)
    ensures PushMeets(config, archive, contents, firstId, outcomes, push)
  {
    if !config.webhook.sendFilteredLogs {
      return Off;
    }
    if archive.Err? {
      return Unlisted(archive.error);
    }
    var latest := LatestFile(archive.value);
    if latest.None? {
      return NoBackup;
    }
    var file := latest.value.name;
    var raw := contents(file);
    if raw.Err? {
      return Skipped(file, raw.error);
    }
    var logs := MapFile(raw.value, firstId);
    if logs.Err? {
      return Skipped(file, logs.error);
    }
    var attempts, delays, end := RetrySend(logs.value, config, outcomes);
    return Pushed(file, logs.value, attempts, delays, end);
  }

  /** StartAsync's first check and one pass of its loop, with the token not
      yet cancelled. `archive` is the backup directory's listing after the
      fetch (the fetch has just created the directory, so a failure here
      is an I/O error), `contents` what reading and deserialising a file gives, and
      `outcomes` the webhook's answers in turn. */
  method RunCycle(config: AppConfig, now: DateTime, replies: seq<Reply>, archive: Result<seq<FileInfo>>,
                  contents: string -> Result<Option<seq<Json>>>, firstId: nat, outcomes: seq<PostOutcome>)
    returns (c: Cycle)
    requires IsValid(now)
    ensures c.Disabled? <==> !config.scheduler.enabled
    ensures c.Faulted? ==> CycleWindow(config, now).Err? || Run(config, CycleWindow(config, now).value, replies, None).error.Some?
    ensures c.Completed? ==>
      && CycleWindow(config, now) == Ok(c.window)
      && Run(config, c.window, replies, None).error.None?
      && c.saved == Run(config, c.window, replies, None).events
    ensures c.Completed? ==> PushMeets(config, archive, contents, firstId, outcomes, c.push)
    ensures c.Completed? ==> (c.next.Stalled? <==> c.push.Pushed? && c.push.end == WaitsForever)
    ensures c.Completed? && c.next.Sleeps? ==> c.next.minutes == config.scheduler.intervalMinutes
    ensures c.Completed? && !c.next.Stalled? ==>
      (c.next.Sleeps? <==> 0 <= config.scheduler.intervalMinutes as int * 60000 <= MaxDelayMs)
  {
    if !config.scheduler.enabled {
      return Disabled;
    }
    var window := CycleWindow(config, now);
    if window.Err? {
      return Faulted(window.error);
    }
    var writer := new ArrayWriter();
    var urls, headers, outcome := QueryAsync(config, window.value, replies, writer);
    if outcome.Err? {
      return Faulted(outcome.error);
    }
    var push := PushLatest(config, archive, contents, firstId, outcomes);
    var next: Next;
    if push.Pushed? && push.end == WaitsForever {
      next := Stalled;
    } else if 0 <= config.scheduler.intervalMinutes as int * 60000 <= MaxDelayMs {
      next := Sleeps(config.scheduler.intervalMinutes);
    } else {
      next := Stops(ArgumentOutOfRange("Task.Delay"));
    }
    return Completed(window.value, writer.values, push, next);
  }

  /** The window starts and ends the configured numbers of minutes from now. */
  lemma WindowFromOffsets(config: AppConfig, now: DateTime)
    requires IsValid(now) && CycleWindow(config, now).Ok?
    ensures var w := CycleWindow(config, now).value;
      && ToSeconds(w.start) == ToSeconds(now) + 60 * config.scheduler.queryStartOffsetMinutes as int
      && ToSeconds(w.end) == ToSeconds(now) + 60 * config.scheduler.queryEndOffsetMinutes as int
      && w.zone == "Z"
  {
  }

  /** A newest file with an element that has no Properties cannot be mapped:
      the push of that pass is skipped, though the folder reader would have
      dropped the element. */
  lemma StrayElementSkipsPush(raw: seq<Json>, firstId: nat, k: nat)
    requires k < |raw| && !IsLogElement(raw[k])
    ensures MapFile(Some(raw), firstId).Err?
  {
    UnfilteredMappingFailsOnStray(raw, firstId, k);
  }
}
