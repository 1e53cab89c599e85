/** WebhookPayloadSender.SendLogsAsync: the guard, the POST it builds and how
    the outcome of that POST is classified. The exchange with the server is
    a value the caller supplies; nothing propagates out of the method. */
module WebhookPayloadSender {
  import opened Base
  import opened Text
  import opened Calendar
  import opened JsonValues
  import opened Config
  import opened RequestLogModel

  /** What HttpClient.PostAsync came to: an exception (no such host, a URL
      HttpClient refuses, a timeout), or a response with its status code. */
  datatype PostOutcome = Threw(fault: Fault) | Responded(status: int)

  /** The POST handed to HttpClient: its URL, the default request header
      (None when TryAddWithoutValidation refuses the name) and the body. */
  datatype Post = Post(url: string, header: Option<(string, string)>, body: Json)

  /** What one call did: the POST it made, if it got that far, and the bool
      it returned. */
  datatype Delivery = Delivery(post: Option<Post>, sent: bool)

  /** A tchar of section 5.6.2 of RFC 9110. */
  predicate IsTokenChar(c: char)
  {
    || ('A' <= c <= 'Z') || ('a' <= c <= 'z') || ('0' <= c <= '9')
    || c == '!' || c == '#' || c == '$' || c == '%' || c == '&' || c == '\'' || c == '*'
    || c == '+' || c == '-' || c == '.' || c == '^' || c == '_' || c == '`' || c == '|' || c == '~'
  }

  /** A token (section 5.6.2 of RFC 9110): the header names
      TryAddWithoutValidation accepts. */
  predicate IsToken(s: string)
  {
    |s| > 0 && forall i :: 0 <= i < |s| ==> IsTokenChar(s[i])
  }

  /** `Webhook.Header ?? "Authorization"` */
  function HeaderName(webhook: WebhookConfig): string
  {
    if webhook.header.Some? then webhook.header.value else "Authorization"
  }

  /** DefaultRequestHeaders.TryAddWithoutValidation(name, Webhook.Token): the
      token goes out verbatim (a null token as an empty value); a name that
      is not a token is refused and no header is sent. */
  function Header(webhook: WebhookConfig): Option<(string, string)>
  {
    var name := HeaderName(webhook);
    if IsToken(name) then Some((name, if webhook.token.Some? then webhook.token.value else "")) else None
  }

  /** One RequestLog as JsonSerializer writes it: its public properties, by
      their declared names and in declaration order. The Guid text of the Id
      is represented by the construction number. */
  function LogJson(log: RequestLog): Json
  {
    JObject([
      ("Id", JString(NatToString(log.id))),
      ("Timestamp", JString(FormatIso(log.timestamp))),
      ("TraceId", JString(log.traceId)),
      ("Route", JString(log.route)),
      ("Method", JString(log.httpMethod)),
      ("Query", JString(log.query)),
      ("RequestBody", JString(log.requestBody)),
      ("UserName", JString(log.userName)),
      ("StaffId", JString(log.staffId)),
      ("CompanyId", JString(log.companyId)),
      ("CompanyDepartmentId", JString(log.companyDepartmentId)),
      ("RemoteIP", JString(log.remoteIP)),
      ("UserAgent", JString(log.userAgent)),
      ("StatusCode", JNumber(log.statusCode as int)),
      ("Duration", JNumber(log.duration as int)),
      ("RequestSize", JNumber(log.requestSize as int)),
      ("ResponseSize", JNumber(log.responseSize as int))])
  }

  /** JsonSerializer.Serialize(logs): the whole list as one JSON array. */
  function Body(logs: seq<RequestLog>): (body: Json)
    ensures body.JArray? && |body.items| == |logs|
  {
    JArray(seq(|logs|, i requires 0 <= i < |logs| => LogJson(logs[i])))
  }

  /** The guard: sending is switched on and a URL is configured. */
  predicate WillSend(config: AppConfig)
  {
    config.webhook.sendFilteredLogs && !IsNullOrWhiteSpace(config.webhook.url)
  }

  /** SendLogsAsync(logs, config), the POST answered with `outcome`. */
  function SendLogsAsync(logs: seq<RequestLog>, config: AppConfig, outcome: PostOutcome): (r: Delivery)
    ensures r.post.Some? <==> WillSend(config)
    ensures r.sent <==> WillSend(config) && outcome.Responded? && IsSuccessStatusCode(outcome.status)
  {
    if !config.webhook.sendFilteredLogs || IsNullOrWhiteSpace(config.webhook.url) then Delivery(None, false)
    else
      var post := Post(config.webhook.url.value, Header(config.webhook), Body(logs));
      match outcome
      case Threw(_) => Delivery(Some(post), false)
      case Responded(status) => Delivery(Some(post), IsSuccessStatusCode(status))
  }

  /** The POST goes to the configured URL, carries the configured header name
      (defaulted only when no name is configured) with the token verbatim, no
      header at all when the configured name is not a token, and the whole
      list as its body, whatever the server answers. */
  lemma PostTarget(logs: seq<RequestLog>, config: AppConfig, outcome: PostOutcome)
    requires WillSend(config)
    ensures var post := SendLogsAsync(logs, config, outcome).post.value;
      var token := if config.webhook.token.Some? then config.webhook.token.value else "";
      && post.url == config.webhook.url.value
      && (config.webhook.header.None? ==> post.header == Some(("Authorization", token)))
      && (config.webhook.header.Some? && IsToken(config.webhook.header.value) ==> post.header == Some((config.webhook.header.value, token)))
      && (config.webhook.header.Some? && !IsToken(config.webhook.header.value) ==> post.header.None?)
      && post.body == Body(logs)
  {
    assert IsToken("Authorization");
  }

  /** An empty header name is kept rather than replaced by "Authorization";
      TryAddWithoutValidation then refuses it and the POST carries no header. */
  lemma EmptyHeaderNameIsKept(webhook: WebhookConfig)
    requires webhook.header == Some("")
    ensures HeaderName(webhook) == "" && Header(webhook).None?
  {
  }

  /** A status outside 2xx gives false even though the server answered; a
      redirect is one. */
  lemma RedirectIsFailure(logs: seq<RequestLog>, config: AppConfig)
    requires WillSend(config)
    ensures !SendLogsAsync(logs, config, Responded(302)).sent
    ensures SendLogsAsync(logs, config, Responded(204)).sent
  {
  }

  // One lemma per property: each needs the names after it to differ.

  lemma FindsId(log: RequestLog)
    ensures Member(LogJson(log).members, "Id") == Some(JString(NatToString(log.id)))
  {
    MemberAt(LogJson(log).members, "Id", 0);
  }

  lemma FindsTimestamp(log: RequestLog)
    ensures Member(LogJson(log).members, "Timestamp") == Some(JString(FormatIso(log.timestamp)))
  {
    MemberAt(LogJson(log).members, "Timestamp", 1);
  }

  lemma FindsTraceId(log: RequestLog)
    ensures Member(LogJson(log).members, "TraceId") == Some(JString(log.traceId))
  {
    MemberAt(LogJson(log).members, "TraceId", 2);
  }

  lemma FindsRoute(log: RequestLog)
    ensures Member(LogJson(log).members, "Route") == Some(JString(log.route))
  {
    MemberAt(LogJson(log).members, "Route", 3);
  }

  lemma FindsMethod(log: RequestLog)
    ensures Member(LogJson(log).members, "Method") == Some(JString(log.httpMethod))
  {
    MemberAt(LogJson(log).members, "Method", 4);
  }

  lemma FindsQuery(log: RequestLog)
    ensures Member(LogJson(log).members, "Query") == Some(JString(log.query))
  {
    MemberAt(LogJson(log).members, "Query", 5);
  }

  lemma FindsRequestBody(log: RequestLog)
    ensures Member(LogJson(log).members, "RequestBody") == Some(JString(log.requestBody))
  {
    MemberAt(LogJson(log).members, "RequestBody", 6);
  }

  lemma FindsUserName(log: RequestLog)
    ensures Member(LogJson(log).members, "UserName") == Some(JString(log.userName))
  {
    MemberAt(LogJson(log).members, "UserName", 7);
  }

  lemma FindsStaffId(log: RequestLog)
    ensures Member(LogJson(log).members, "StaffId") == Some(JString(log.staffId))
  {
    MemberAt(LogJson(log).members, "StaffId", 8);
  }

  lemma FindsCompanyId(log: RequestLog)
    ensures Member(LogJson(log).members, "CompanyId") == Some(JString(log.companyId))
  {
    MemberAt(LogJson(log).members, "CompanyId", 9);
  }

  lemma FindsCompanyDepartmentId(log: RequestLog)
    ensures Member(LogJson(log).members, "CompanyDepartmentId") == Some(JString(log.companyDepartmentId))
  {
    MemberAt(LogJson(log).members, "CompanyDepartmentId", 10);
  }

  lemma FindsRemoteIP(log: RequestLog)
    ensures Member(LogJson(log).members, "RemoteIP") == Some(JString(log.remoteIP))
  {
    MemberAt(LogJson(log).members, "RemoteIP", 11);
  }

  lemma FindsUserAgent(log: RequestLog)
    ensures Member(LogJson(log).members, "UserAgent") == Some(JString(log.userAgent))
  {
    MemberAt(LogJson(log).members, "UserAgent", 12);
  }

  lemma FindsStatusCode(log: RequestLog)
    ensures Member(LogJson(log).members, "StatusCode") == Some(JNumber(log.statusCode as int))
  {
    MemberAt(LogJson(log).members, "StatusCode", 13);
  }

  lemma FindsDuration(log: RequestLog)
    ensures Member(LogJson(log).members, "Duration") == Some(JNumber(log.duration as int))
  {
    MemberAt(LogJson(log).members, "Duration", 14);
  }

  lemma FindsRequestSize(log: RequestLog)
    ensures Member(LogJson(log).members, "RequestSize") == Some(JNumber(log.requestSize as int))
  {
    MemberAt(LogJson(log).members, "RequestSize", 15);
  }

  lemma FindsResponseSize(log: RequestLog)
    ensures Member(LogJson(log).members, "ResponseSize") == Some(JNumber(log.responseSize as int))
  {
    MemberAt(LogJson(log).members, "ResponseSize", 16);
  }

  /** Every property of the i-th log can be read back from the i-th element
      of the body by its name. */
  lemma BodyReadsBack(logs: seq<RequestLog>, i: nat)
    requires i < |logs|
    ensures GetProperty(Body(logs).items[i], "Id") == Ok(JString(NatToString(logs[i].id)))
    ensures GetProperty(Body(logs).items[i], "Timestamp") == Ok(JString(FormatIso(logs[i].timestamp)))
    ensures GetProperty(Body(logs).items[i], "TraceId") == Ok(JString(logs[i].traceId))
    ensures GetProperty(Body(logs).items[i], "Route") == Ok(JString(logs[i].route))
    ensures GetProperty(Body(logs).items[i], "Method") == Ok(JString(logs[i].httpMethod))
    ensures GetProperty(Body(logs).items[i], "Query") == Ok(JString(logs[i].query))
    ensures GetProperty(Body(logs).items[i], "RequestBody") == Ok(JString(logs[i].requestBody))
    ensures GetProperty(Body(logs).items[i], "UserName") == Ok(JString(logs[i].userName))
    ensures GetProperty(Body(logs).items[i], "StaffId") == Ok(JString(logs[i].staffId))
    ensures GetProperty(Body(logs).items[i], "CompanyId") == Ok(JString(logs[i].companyId))
    ensures GetProperty(Body(logs).items[i], "CompanyDepartmentId") == Ok(JString(logs[i].companyDepartmentId))
    ensures GetProperty(Body(logs).items[i], "RemoteIP") == Ok(JString(logs[i].remoteIP))
    ensures GetProperty(Body(logs).items[i], "UserAgent") == Ok(JString(logs[i].userAgent))
    ensures GetProperty(Body(logs).items[i], "StatusCode") == Ok(JNumber(logs[i].statusCode as int))
    ensures GetProperty(Body(logs).items[i], "Duration") == Ok(JNumber(logs[i].duration as int))
    ensures GetProperty(Body(logs).items[i], "RequestSize") == Ok(JNumber(logs[i].requestSize as int))
    ensures GetProperty(Body(logs).items[i], "ResponseSize") == Ok(JNumber(logs[i].responseSize as int))
  {
    assert Body(logs).items[i] == LogJson(logs[i]);
    FindsId(logs[i]);
    FindsTimestamp(logs[i]);
    FindsTraceId(logs[i]);
    FindsRoute(logs[i]);
    FindsMethod(logs[i]);
    FindsQuery(logs[i]);
    FindsRequestBody(logs[i]);
    FindsUserName(logs[i]);
    FindsStaffId(logs[i]);
    FindsCompanyId(logs[i]);
    FindsCompanyDepartmentId(logs[i]);
    FindsRemoteIP(logs[i]);
    FindsUserAgent(logs[i]);
    FindsStatusCode(logs[i]);
    FindsDuration(logs[i]);
    FindsRequestSize(logs[i]);
    FindsResponseSize(logs[i]);
  }
}
