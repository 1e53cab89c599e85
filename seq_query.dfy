/** SeqQuery.QueryAsync: fetch the events of a window from the Seq server
    page by page, each request continuing after the last event of the
    previous page, and stream them into one JSON array. The server is a
    script of replies, one per request, and the output file is the writer's
    buffer. */
module SeqQuery {
  import opened Base
  import opened Text
  import opened Calendar
  import opened JsonValues
  import opened Config
  import opened UriEscape

  /** The body of a successful reply, as JsonSerializer reads it into a
      List<JsonElement>: not JSON at all, the literal null, or a list. */
  datatype Payload = Malformed | NullList | Events(items: seq<Json>)

  /** What one GET yields: an HttpRequestException, or a response. */
  datatype Reply = Unreachable | Response(status: int, payload: Payload)

  /** The query window, and the "K" text the round-trip format gives its kind. */
  datatype Window = Window(start: DateTime, end: DateTime, zone: string)

  /** The Seq filter expression; the configured names are inserted as they
      are, without quoting. */
  function Filter(config: AppConfig): string
  {
    "Application = '" + config.applicationName + "' and @Level = 'Information' and LogType = '" + config.logType + "'"
  }

  /** The URL of one request: the afterId parameter only once a page has
      named the last event read. */
  function EventsUrl(config: AppConfig, window: Window, afterId: Option<string>): string
  {
    TrimEnd(config.seqUrl, '/') + "/api/events?count=" + IntToString(config.pageSize as int)
      + "&start=" + FormatRoundTrip(window.start, window.zone)
      + "&end=" + FormatRoundTrip(window.end, window.zone)
      + "&filter=" + EscapeDataString(Filter(config))
      + (if afterId.Some? then "&afterId=" + afterId.value else "")
  }

  /** The default request headers: the API key only when it is not blank. */
  function Headers(config: AppConfig): (headers: seq<(string, string)>)
    ensures |headers| <= 1
    ensures headers != [] <==> !IsNullOrWhiteSpace(config.apiKey)
    ensures forall i :: 0 <= i < |headers| ==> headers[i] == ("X-Seq-ApiKey", config.apiKey.value)
  {
    if IsNullOrWhiteSpace(config.apiKey) then [] else [("X-Seq-ApiKey", config.apiKey.value)]
  }

  /** data.LastOrDefault().GetProperty("Id").GetString() on a non-empty page. */
  function NextAfterId(items: seq<Json>): Result<Option<string>>
    requires |items| > 0
  {
    var id :- GetProperty(items[|items| - 1], "Id");
    GetString(id)
  }

  /** What a run leaves behind: the URLs requested, the events written, whether
      the array was closed, and the exception that ended it, if any. */
  datatype Trace = Trace(cursors: seq<Option<string>>, events: seq<Json>, closed: bool, error: Option<Fault>)

  /** `cursors` and `events` came before the rest of the run `t`. */
  function Then(cursors: seq<Option<string>>, events: seq<Json>, t: Trace): Trace
  {
    Trace(cursors + t.cursors, events + t.events, t.closed, t.error)
  }

  /** What the loop does with one reply: stop, leaving what was written,
      or go on after writing a full page. */
  datatype Step =
    | Stop(events: seq<Json>, closed: bool, error: Option<Fault>)
    | Continue(items: seq<Json>, next: Option<string>)

  /** One pass of the loop body over a reply. */
  function Answer(config: AppConfig, reply: Reply): Step
  {
    if reply.Unreachable? then Stop([], false, Some(HttpRequest))
    else if !IsSuccessStatusCode(reply.status) then Stop([], true, None)
    else if reply.payload.Malformed? then Stop([], false, Some(JsonParse))
    else if reply.payload.NullList? || reply.payload.items == [] then Stop([], true, None)
    else
      var items := reply.payload.items;
      match NextAfterId(items)
      case Err(f) => Stop(items, false, Some(f))
      case Ok(next) => if |items| < config.pageSize as int then Stop(items, true, None) else Continue(items, next)
  }

  /** The loop, request by request. A request the script has no reply for
      fails as an unreachable server. */
  function Run(config: AppConfig, window: Window, replies: seq<Reply>, afterId: Option<string>): Trace
    decreases |replies|
  {
    if replies == [] then Trace([afterId], [], false, Some(HttpRequest))
    else match Answer(config, replies[0])
      case Stop(events, closed, error) => Trace([afterId], events, closed, error)
      case Continue(items, next) => Then([afterId], items, Run(config, window, replies[1..], next))
  }

  /** Utf8JsonWriter writing one top-level array: the values written so far,
      and whether the array was opened and closed. */
  class ArrayWriter {
    var started: bool
    var values: seq<Json>
    var ended: bool

    constructor()
      ensures !started && values == [] && !ended
    {
      started, values, ended := false, [], false;
    }

    method WriteStartArray()
      requires !started
      modifies this
      ensures started && values == old(values) && ended == old(ended)
    {
      started := true;
    }

    /** JsonSerializer.Serialize(writer, item) inside the array. */
    method WriteValue(v: Json)
      requires started && !ended
      modifies this
      ensures started && !ended && values == old(values) + [v]
    {
      values := values + [v];
    }

    method WriteEndArray()
      requires started && !ended
      modifies this
      ensures started && ended && values == old(values)
    {
      ended := true;
    }
  }

  lemma ThenAssociates(cursors: seq<Option<string>>, events: seq<Json>, cursor: Option<string>, items: seq<Json>, t: Trace)
    ensures Then(cursors, events, Then([cursor], items, t)) == Then(cursors + [cursor], events + items, t)
  {
    assert cursors + ([cursor] + t.cursors) == cursors + [cursor] + t.cursors;
    assert events + (items + t.events) == events + items + t.events;
  }

  /** foreach (var item in data) JsonSerializer.Serialize(writer, item); */
  method WritePage(writer: ArrayWriter, data: seq<Json>)
    requires writer.started && !writer.ended
    modifies writer
    ensures writer.started && !writer.ended
    ensures writer.values == old(writer.values) + data
  {
    var j := 0;
    while j < |data|
      invariant 0 <= j <= |data|
      invariant writer.started && !writer.ended
      invariant writer.values == old(writer.values) + data[..j]
    {
      writer.WriteValue(data[j]);
      j := j + 1;
    }
    assert data[..j] == data;
  }

  /** Run from the k-th reply on: one pass of the loop, then the rest. */
  lemma RunFrom(config: AppConfig, window: Window, replies: seq<Reply>, k: nat, afterId: Option<string>)
    requires k <= |replies|
    ensures Run(config, window, replies[k..], afterId) ==
        if k == |replies| then Trace([afterId], [], false, Some(HttpRequest))
        else match Answer(config, replies[k])
          case Stop(events, closed, error) => Trace([afterId], events, closed, error)
          case Continue(items, next) => Then([afterId], items, Run(config, window, replies[k + 1..], next))
  {
    if k < |replies| {
      assert replies[k..][0] == replies[k];
      assert replies[k..][1..] == replies[k + 1..];
    }
  }

  /** What a step leaves written to the array. */
  function Written(step: Step): seq<Json>
  {
    match step
    case Stop(events, _, _) => events
    case Continue(items, _) => items
  }

  /** One pass of the loop body after the GET: check the status, read the
      page, write its events and take the Id of the last one. */
  method ReadPage(config: AppConfig, reply: Reply, writer: ArrayWriter) returns (step: Step)
    requires writer.started && !writer.ended
    modifies writer
    ensures step == Answer(config, reply)
    ensures writer.started && !writer.ended
    ensures writer.values == old(writer.values) + Written(step)
  {
    if reply.Unreachable? {
      return Stop([], false, Some(HttpRequest));
    }
    if !IsSuccessStatusCode(reply.status) {
      return Stop([], true, None);
    }
    if reply.payload.Malformed? {
      return Stop([], false, Some(JsonParse));
    }
    if reply.payload.NullList? || reply.payload.items == [] {
      return Stop([], true, None);
    }
    var data := reply.payload.items;
    WritePage(writer, data);
    var next := NextAfterId(data);
    if next.Err? {
      return Stop(data, false, Some(next.error));
    }
    if |data| < config.pageSize as int {
      return Stop(data, true, None);
    }
    return Continue(data, next.value);
  }

  /** A pass that stops leaves the array open exactly when an exception
      escapes. */
  lemma StopClosedUnlessFault(config: AppConfig, reply: Reply)
    requires Answer(config, reply).Stop?
    ensures Answer(config, reply).closed <==> Answer(config, reply).error.None?
  {
  }

  /** The URLs of the requests that carried these afterIds. */
  function Urls(config: AppConfig, window: Window, cursors: seq<Option<string>>): (urls: seq<string>)
    ensures |urls| == |cursors|
  {
    if cursors == [] then []
    else Urls(config, window, cursors[..|cursors| - 1]) + [EventsUrl(config, window, cursors[|cursors| - 1])]
  }

  lemma {:induction false} UrlsAt(config: AppConfig, window: Window, cursors: seq<Option<string>>, i: nat)
    requires i < |cursors|
    ensures Urls(config, window, cursors)[i] == EventsUrl(config, window, cursors[i])
    decreases |cursors|
  {
    if i < |cursors| - 1 {
      UrlsAt(config, window, cursors[..|cursors| - 1], i);
    }
  }

  /** QueryAsync: the requests made, the headers sent and the total printed at
      the end, or the exception that escaped; the writer holds what the run
      wrote. */
  method QueryAsync(config: AppConfig, window: Window, replies: seq<Reply>, writer: ArrayWriter)
    returns (urls: seq<string>, headers: seq<(string, string)>, outcome: Result<nat>)
    requires !writer.started && writer.values == [] && !writer.ended
    modifies writer
    ensures headers == Headers(config)
    ensures urls == Urls(config, window, Run(config, window, replies, None).cursors)
    ensures writer.values == Run(config, window, replies, None).events
    ensures writer.started && writer.ended == Run(config, window, replies, None).closed
    ensures outcome.Ok? <==> Run(config, window, replies, None).error.None?
    ensures outcome.Ok? ==> outcome.value == |writer.values|
    ensures outcome.Err? ==> Run(config, window, replies, None).error == Some(outcome.error)
  {
    headers := Headers(config);
    ghost var whole := Run(config, window, replies, None);
    writer.WriteStartArray();
    var afterId: Option<string> := None;
    var total := 0;
    var k := 0;
    urls := [];
    ghost var cursors: seq<Option<string>> := [];
    while true
      invariant 0 <= k <= |replies|
      invariant writer.started && !writer.ended
      invariant total == |writer.values|
      invariant urls == Urls(config, window, cursors)
      invariant whole == Then(cursors, writer.values, Run(config, window, replies[k..], afterId))
      decreases |replies| - k
    {
      ghost var before := writer.values;
      RunFrom(config, window, replies, k, afterId);
      assert (cursors + [afterId])[..|cursors|] == cursors;
      urls := urls + [EventsUrl(config, window, afterId)];
      cursors := cursors + [afterId];
      if k == |replies| {
        outcome := Err(HttpRequest);
        return;
      }
      var step := ReadPage(config, replies[k], writer);
      total := total + |Written(step)|;
      if step.Stop? {
        StopClosedUnlessFault(config, replies[k]);
        if step.closed {
          break;
        }
        outcome := Err(step.error.value);
        return;
      }
      ThenAssociates(cursors[..|cursors| - 1], before, afterId, step.items, Run(config, window, replies[k + 1..], step.next));
      afterId := step.next;
      k := k + 1;
    }
    writer.WriteEndArray();
    outcome := Ok(total);
  }

  // Properties of the loop.

  /** The array is closed exactly when no exception escaped: a failed
      status, an empty page and a short page all fall through to
      WriteEndArray; an exception skips it. */
  lemma {:induction false} ClosedUnlessException(config: AppConfig, window: Window, replies: seq<Reply>, afterId: Option<string>)
    ensures Run(config, window, replies, afterId).closed <==> Run(config, window, replies, afterId).error.None?
    decreases |replies|
  {
    if replies != [] && Answer(config, replies[0]).Continue? {
      ClosedUnlessException(config, window, replies[1..], Answer(config, replies[0]).next);
    }
  }

  /** A pass of the loop goes on only after a full, well-formed page, and
      then continues after the Id of that page's last event. */
  lemma ContinueAfterFullPage(config: AppConfig, reply: Reply)
    requires Answer(config, reply).Continue?
    ensures reply.Response? && IsSuccessStatusCode(reply.status) && reply.payload.Events?
    ensures Answer(config, reply).items == reply.payload.items
    ensures |reply.payload.items| >= config.pageSize as int && |reply.payload.items| > 0
    ensures NextAfterId(reply.payload.items) == Ok(Answer(config, reply).next)
  {
  }

  /** A reply contributes nothing, or its whole page; a response whose
      status is not a success contributes nothing. */
  lemma StopWritesWholePageOrNothing(config: AppConfig, reply: Reply)
    requires Answer(config, reply).Stop?
    ensures var e := Answer(config, reply).events;
      e == [] || (reply.Response? && IsSuccessStatusCode(reply.status) && reply.payload.Events? && e == reply.payload.items)
    ensures reply.Response? && !IsSuccessStatusCode(reply.status) ==> Answer(config, reply) == Stop([], true, None)
  {
  }

  /** The first request carries no afterId unless given one; each later
      request carries the afterId the previous reply produced. */
  lemma {:induction false} RequestsBounded(config: AppConfig, window: Window, replies: seq<Reply>, afterId: Option<string>)
    ensures var t := Run(config, window, replies, afterId);
      1 <= |t.cursors| <= |replies| + 1 && t.cursors[0] == afterId
    decreases |replies|
  {
    if replies != [] && Answer(config, replies[0]).Continue? {
      RequestsBounded(config, window, replies[1..], Answer(config, replies[0]).next);
    }
  }

  lemma {:induction false} RequestsFollowCursor(config: AppConfig, window: Window, replies: seq<Reply>, afterId: Option<string>)
    ensures var t := Run(config, window, replies, afterId);
      |t.cursors| <= |replies| + 1 && forall j :: 0 <= j < |t.cursors| - 1 ==>
        Answer(config, replies[j]).Continue? && t.cursors[j + 1] == Answer(config, replies[j]).next
    decreases |replies|
  {
    var t := Run(config, window, replies, afterId);
    RequestsBounded(config, window, replies, afterId);
    if replies != [] && Answer(config, replies[0]).Continue? {
      var next := Answer(config, replies[0]).next;
      var rest := Run(config, window, replies[1..], next);
      RequestsFollowCursor(config, window, replies[1..], next);
      RequestsBounded(config, window, replies[1..], next);
      assert t.cursors == [afterId] + rest.cursors;
      forall j | 0 <= j < |t.cursors| - 1
        ensures Answer(config, replies[j]).Continue? && t.cursors[j + 1] == Answer(config, replies[j]).next
      {
        assert t.cursors[j + 1] == rest.cursors[j];
        if j > 0 {
          assert replies[1..][j - 1] == replies[j];
        }
      }
    }
  }

  /** What one reply adds to the output. */
  function Appended(config: AppConfig, reply: Reply): seq<Json>
  {
    Written(Answer(config, reply))
  }

  /** The contributions of a run of replies, in order. */
  function Pages(config: AppConfig, replies: seq<Reply>): seq<Json>
  {
    if replies == [] then [] else Appended(config, replies[0]) + Pages(config, replies[1..])
  }

  /** The output is the pages of the replies answered, one after another, in
      the order received. */
  lemma {:induction false} OutputIsPagesInOrder(config: AppConfig, window: Window, replies: seq<Reply>, afterId: Option<string>)
    ensures var t := Run(config, window, replies, afterId);
      var answered := if |t.cursors| <= |replies| then |t.cursors| else |replies|;
      t.events == Pages(config, replies[..answered])
    decreases |replies|
  {
    var t := Run(config, window, replies, afterId);
    RequestsBounded(config, window, replies, afterId);
    if replies != [] {
      var answer := Answer(config, replies[0]);
      if answer.Continue? {
        var rest := Run(config, window, replies[1..], answer.next);
        OutputIsPagesInOrder(config, window, replies[1..], answer.next);
        RequestsBounded(config, window, replies[1..], answer.next);
        var n := if |rest.cursors| <= |replies[1..]| then |rest.cursors| else |replies[1..]|;
        assert replies[..n + 1][1..] == replies[1..][..n];
      } else {
        assert replies[..1][1..] == [];
      }
    }
  }

  lemma DivUnique(e: int, p: int, q: int, r: int)
    requires p > 0 && 0 <= r < p && e == q * p + r
    ensures e / p == q
  {
    var k := q - e / p;
    assert k * p == e % p - r;
    if k > 0 {
      assert false;
    } else if k < 0 {
      assert false;
    }
  }

  /** Every reply a well-behaved server gives: a success with a page of at
      most PageSize events. */
  predicate IsPaged(config: AppConfig, replies: seq<Reply>)
  {
    forall i :: 0 <= i < |replies| ==>
      replies[i].Response? && IsSuccessStatusCode(replies[i].status) && replies[i].payload.Events?
      && |replies[i].payload.items| <= config.pageSize as int
  }

  lemma PagedTail(config: AppConfig, replies: seq<Reply>)
    requires replies != [] && IsPaged(config, replies)
    ensures IsPaged(config, replies[1..])
  {
    forall i | 0 <= i < |replies[1..]|
      ensures replies[1..][i] == replies[i + 1]
    {
    }
  }

  lemma FullPageStep(p: int, n: int, rest: int)
    requires 0 <= rest - n * p < p
    ensures 0 <= (p + rest) - (n + 1) * p < p
  {
    assert (n + 1) * p == n * p + p;
  }

  /** The events of a normal run: a full page per request but the last,
      which is short. */
  lemma {:induction false} RequestCountShape(config: AppConfig, window: Window, replies: seq<Reply>, afterId: Option<string>)
    requires config.pageSize > 0 && IsPaged(config, replies)
    requires Run(config, window, replies, afterId).error.None?
    ensures var t := Run(config, window, replies, afterId);
      0 <= |t.events| - (|t.cursors| - 1) * config.pageSize as int < config.pageSize as int
    decreases |replies|
  {
    var t := Run(config, window, replies, afterId);
    var p := config.pageSize as int;
    if replies != [] && Answer(config, replies[0]).Continue? {
      var next := Answer(config, replies[0]).next;
      var items := replies[0].payload.items;
      var rest := Run(config, window, replies[1..], next);
      assert t == Then([afterId], items, rest);
      PagedTail(config, replies);
      RequestCountShape(config, window, replies[1..], next);
      var n := |rest.cursors| - 1;
      assert |items| == p;
      assert |t.cursors| - 1 == n + 1;
      assert |t.events| == p + |rest.events|;
      FullPageStep(p, n, |rest.events|);
    } else {
      assert |t.cursors| - 1 == 0;
      assert |t.events| < p;
    }
  }

  /** Against a server that answers every request with a page of at most
      PageSize events, a run that ends normally makes one request per full
      page plus one: a short page is the last, and when every page is full
      the extra request finds an empty one. */
  lemma RequestCount(config: AppConfig, window: Window, replies: seq<Reply>, afterId: Option<string>)
    requires config.pageSize > 0 && IsPaged(config, replies)
    requires Run(config, window, replies, afterId).error.None?
    ensures var t := Run(config, window, replies, afterId);
      |t.cursors| == |t.events| / config.pageSize as int + 1
  {
    var t := Run(config, window, replies, afterId);
    var p := config.pageSize as int;
    RequestCountShape(config, window, replies, afterId);
    DivUnique(|t.events|, p, |t.cursors| - 1, |t.events| - (|t.cursors| - 1) * p);
  }

  // A worked run: PageSize 2, and pages of two, two and one events.

  function Event(id: string): Json
  {
    JObject([("Id", JString(id))])
  }

  function Page(ids: seq<string>): Reply
  {
    Response(200, Events(seq(|ids|, i requires 0 <= i < |ids| => Event(ids[i]))))
  }

  lemma EventId(id: string)
    ensures NextAfterId([Event(id)]) == Ok(Some(id))
    ensures forall other :: NextAfterId([Event(other), Event(id)]) == Ok(Some(id))
  {
    assert Member([("Id", JString(id))], "Id") == Some(JString(id));
  }

  /** Three requests: none, then after "b", then after "d"; all five events
      are written in order and the array is closed after the short page. */
  lemma ShortLastPage(window: Window)
    ensures var config := DefaultConfig.(pageSize := 2);
      Run(config, window, [Page(["a", "b"]), Page(["c", "d"]), Page(["e"])], None)
        == Trace([None, Some("b"), Some("d")], [Event("a"), Event("b"), Event("c"), Event("d"), Event("e")], true, None)
  {
    var config := DefaultConfig.(pageSize := 2);
    var replies := [Page(["a", "b"]), Page(["c", "d"]), Page(["e"])];
    EventId("b");
    EventId("d");
    EventId("e");
    assert Page(["a", "b"]).payload.items == [Event("a"), Event("b")];
    assert Page(["c", "d"]).payload.items == [Event("c"), Event("d")];
    assert Page(["e"]).payload.items == [Event("e")];
    assert Answer(config, replies[0]) == Continue([Event("a"), Event("b")], Some("b"));
    assert Answer(config, replies[1]) == Continue([Event("c"), Event("d")], Some("d"));
    assert Answer(config, replies[2]) == Stop([Event("e")], true, None);
    assert replies[1..][1..] == [replies[2]];
    assert Run(config, window, replies[2..], Some("d")) == Trace([Some("d")], [Event("e")], true, None);
    assert replies[1..] == replies[1..][..1] + replies[2..];
  }

  /** When every page is full, one more request finds the empty page that
      ends the loop: two pages of two events take three requests. */
  lemma FullPagesThenEmpty(window: Window)
    ensures var config := DefaultConfig.(pageSize := 2);
      Run(config, window, [Page(["a", "b"]), Page(["c", "d"]), Page([])], None)
        == Trace([None, Some("b"), Some("d")], [Event("a"), Event("b"), Event("c"), Event("d")], true, None)
  {
    var config := DefaultConfig.(pageSize := 2);
    var replies := [Page(["a", "b"]), Page(["c", "d"]), Page([])];
    EventId("b");
    EventId("d");
    assert Page(["a", "b"]).payload.items == [Event("a"), Event("b")];
    assert Page(["c", "d"]).payload.items == [Event("c"), Event("d")];
    assert Page([]).payload.items == [];
    assert Answer(config, replies[0]) == Continue([Event("a"), Event("b")], Some("b"));
    assert Answer(config, replies[1]) == Continue([Event("c"), Event("d")], Some("d"));
    assert Answer(config, replies[2]) == Stop([], true, None);
    assert replies[1..][1..] == [replies[2]];
    assert Run(config, window, replies[2..], Some("d")) == Trace([Some("d")], [], true, None);
  }
}
