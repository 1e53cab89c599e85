/** SeqJsonLogReader: typed lookups in a raw event's property bag, the mapping
    of a raw event onto a RequestLog, and the element filter applied while
    reading archive files. */
module SeqJsonLogReader {
  import opened Base
  import opened Calendar
  import opened JsonValues
  import opened RequestLogModel
  import Grouping

  /** What a lookup accepts as the Value of a same-named entry. */
  datatype Want = Text | Int32Value | Int64Value

  /** The outcome of testing one entry of the Properties array. */
  datatype Verdict = Pass | Take(value: Json) | Throw(fault: Fault)

  predicate Fits(v: Json, want: Want)
  {
    match want
    case Text => v.JString?
    case Int32Value => v.JNumber? && Int32Min <= v.n <= Int32Max
    case Int64Value => v.JNumber? && Int64Min <= v.n <= Int64Max
  }

  /** The test on a Value once its entry's Name matched: a string lookup
      takes strings and passes over anything else; TryGetInt32/TryGetInt64
      take a number in range, pass over a number out of range, and throw on
      a Value that is not a number at all. */
  function Accept(v: Json, want: Want): (verdict: Verdict)
    ensures verdict.Take? ==> verdict.value == v && Fits(v, want)
    ensures verdict.Throw? <==> want != Text && !v.JNumber?
  {
    if Fits(v, want) then Take(v)
    else if want != Text && !v.JNumber? then Throw(InvalidOperation("value is not a number"))
    else Pass
  }

  /** One iteration of the lookup loops: TryGetProperty("Name") throws on an
      entry that is not an object; GetString throws on a Name that is neither
      a string nor null; an entry without a Value is passed over. */
  function Classify(prop: Json, name: string, want: Want): (verdict: Verdict)
    ensures verdict.Take? ==> Fits(verdict.value, want)
  {
    if !prop.JObject? then Throw(InvalidOperation("property entry is not an object"))
    else match Member(prop.members, "Name")
      case None => Pass
      case Some(n) =>
        match GetString(n)
        case Err(f) => Throw(f)
        case Ok(None) => Pass
        case Ok(Some(s)) =>
          if s != name then Pass
          else match Member(prop.members, "Value")
            case None => Pass
            case Some(v) => Accept(v, want)
  }

  /** The foreach of GetPropString / GetPropInt / GetPropLong: the first
      entry that is not passed over decides, returning its Value or raising
      its exception; when every entry is passed over there is no match. */
  function FindFirst(items: seq<Json>, name: string, want: Want): (r: Result<Option<Json>>)
    ensures r.Ok? && r.value.Some? ==> Fits(r.value.value, want)
  {
    if items == [] then Ok(None)
    else match Classify(items[0], name, want)
      case Take(v) => Ok(Some(v))
      case Throw(f) => Err(f)
      case Pass => FindFirst(items[1..], name, want)
  }

  /** No match exactly when every entry is passed over. */
  lemma {:induction false} FindFirstNone(items: seq<Json>, name: string, want: Want)
    ensures FindFirst(items, name, want) == Ok(None)
      <==> forall i :: 0 <= i < |items| ==> Classify(items[i], name, want) == Pass
  {
    if items != [] {
      FindFirstNone(items[1..], name, want);
      assert forall i :: 1 <= i < |items| ==> items[i] == items[1..][i - 1];
    }
  }

  /** The entry at `i`, the first one not passed over, decides the scan:
      its Value is returned, or its exception raised. */
  lemma {:induction false} FindFirstDecides(items: seq<Json>, name: string, want: Want, i: nat)
    requires i < |items| && !Classify(items[i], name, want).Pass?
    requires forall j :: 0 <= j < i ==> Classify(items[j], name, want) == Pass
    ensures FindFirst(items, name, want)
      == match Classify(items[i], name, want)
         case Take(v) => Ok(Some(v))
         case Throw(f) => Err(f)
         case Pass => Ok(None)
  {
    if i > 0 {
      assert Classify(items[0], name, want) == Pass;
      assert forall j :: 0 <= j < i - 1 ==> items[1..][j] == items[j + 1];
      FindFirstDecides(items[1..], name, want, i - 1);
    }
  }

  /** A scan over entries none of which throws does not throw. */
  lemma {:induction false} FindFirstNoThrow(items: seq<Json>, name: string, want: Want)
    requires forall i :: 0 <= i < |items| ==> !Classify(items[i], name, want).Throw?
    ensures FindFirst(items, name, want).Ok?
  {
    if items != [] {
      assert forall i :: 1 <= i < |items| ==> items[1..][i - 1] == items[i];
      FindFirstNoThrow(items[1..], name, want);
    }
  }

  /** props.EnumerateArray() throws unless Properties is an array. */
  function Scan(props: Json, name: string, want: Want): Result<Option<Json>>
  {
    if !props.JArray? then Err(InvalidOperation("Properties is not an array"))
    else FindFirst(props.items, name, want)
  }

  /** GetPropString: the text, or None (null) when nothing matches. */
  function GetPropString(props: Json, name: string): Result<Option<string>>
  {
    var found :- Scan(props, name, Text);
    Ok(if found.Some? then Some(found.value.s) else None)
  }

  /** GetPropInt: the number, or 0 when nothing matches. */
  function GetPropInt(props: Json, name: string): Result<int32>
  {
    var found :- Scan(props, name, Int32Value);
    Ok(if found.Some? then found.value.n as int32 else 0)
  }

  /** GetPropLong: the number, or 0 when nothing matches. */
  function GetPropLong(props: Json, name: string): Result<int64>
  {
    var found :- Scan(props, name, Int64Value);
    Ok(if found.Some? then found.value.n as int64 else 0)
  }

  /** JsonElement.GetDateTime: FormatException for a text in none of the
      ISO 8601 forms ParseIso reads, InvalidOperationException for any other
      kind. The value keeps the text's date and time of day; an offset is
      not applied. */
  function GetDateTime(element: Json): (r: Result<DateTime>)
    ensures r.Ok? <==> element.JString? && ParseIso(element.s).Some?
    ensures r.Ok? ==> r.value == ParseIso(element.s).value && IsValid(r.value)
  {
    if !element.JString? then Err(InvalidOperation("not a string"))
    else match ParseIso(element.s)
      case None => Err(BadFormat(element.s))
      case Some(dt) => Ok(dt)
  }

  function OrElse(s: Option<string>, default: string): string
  {
    if s.Some? then s.value else default
  }

  /** What a text lookup contributes to the record when it does not throw. */
  function TextOrDefault(props: Json, name: string, default: string): string
  {
    match GetPropString(props, name)
    case Ok(Some(s)) => s
    case _ => default
  }

  /** What a 64-bit lookup contributes to the record when it does not throw. */
  function LongOrZero(props: Json, name: string): int
  {
    match GetPropLong(props, name)
    case Ok(n) => n
    case _ => 0
  }

  // The schema: which raw property lands in which record field, in the
  // order the object initialiser of MapToLogEntry reads them.

  /** The text properties with the default each field keeps when the lookup
      finds nothing. */
  const TextSchema: seq<(string, string)> :=
    [("TraceId", Absent), ("Route", Absent), ("Method", Absent), ("Query", Absent),
     ("RequestBody", ""), ("UserName", Absent), ("StaffId", Absent), ("CompanyId", Absent),
     ("CompanyDepartmentId", Absent), ("RemoteIP", Absent), ("UserAgent", Absent)]

  /** The 64-bit properties: Duration, RequestSize and ResponseSize in turn. */
  const LongNames: seq<string> := ["Duration", "RequestBytes", "ResponseBytes"]

  /** The text fields of a record, in TextSchema order. */
  function TextFields(r: RequestLog): seq<string>
  {
    [r.traceId, r.route, r.httpMethod, r.query, r.requestBody, r.userName, r.staffId,
     r.companyId, r.companyDepartmentId, r.remoteIP, r.userAgent]
  }

  /** The 64-bit fields of a record, in LongNames order. */
  function LongFields(r: RequestLog): seq<int>
  {
    [r.duration, r.requestSize, r.responseSize]
  }

  /** The text lookups run one after the other; the first that throws stops
      the initialiser. */
  function ReadTexts(props: Json, schema: seq<(string, string)>): (r: Result<seq<string>>)
    ensures r.Ok? ==> |r.value| == |schema|
  {
    if schema == [] then Ok([])
    else
      var first :- GetPropString(props, schema[0].0);
      var rest :- ReadTexts(props, schema[1..]);
      Ok([OrElse(first, schema[0].1)] + rest)
  }

  /** The text lookups all run unless one throws; each field gets its
      lookup's text or its default. */
  lemma {:induction false} ReadTextsSpec(props: Json, schema: seq<(string, string)>)
    ensures ReadTexts(props, schema).Ok? <==> forall k :: 0 <= k < |schema| ==> GetPropString(props, schema[k].0).Ok?
    ensures ReadTexts(props, schema).Ok? ==> forall k :: 0 <= k < |schema| ==>
      ReadTexts(props, schema).value[k] == TextOrDefault(props, schema[k].0, schema[k].1)
  {
    if schema != [] {
      ReadTextsSpec(props, schema[1..]);
      assert forall k :: 1 <= k < |schema| ==> schema[k] == schema[1..][k - 1];
    }
  }

  /** The 64-bit lookups run one after the other. */
  function ReadLongs(props: Json, names: seq<string>): (r: Result<seq<int64>>)
    ensures r.Ok? ==> |r.value| == |names|
  {
    if names == [] then Ok([])
    else
      var first :- GetPropLong(props, names[0]);
      var rest :- ReadLongs(props, names[1..]);
      Ok([first] + rest)
  }

  lemma {:induction false} ReadLongsSpec(props: Json, names: seq<string>)
    ensures ReadLongs(props, names).Ok? <==> forall k :: 0 <= k < |names| ==> GetPropLong(props, names[k]).Ok?
    ensures ReadLongs(props, names).Ok? ==> forall k :: 0 <= k < |names| ==>
      ReadLongs(props, names).value[k] == LongOrZero(props, names[k])
  {
    if names != [] {
      ReadLongsSpec(props, names[1..]);
      assert forall k :: 1 <= k < |names| ==> names[k] == names[1..][k - 1];
    }
  }

  /** The record the initialiser builds from the values it read. */
  function Assemble(id: nat, timestamp: DateTime, texts: seq<string>, statusCode: int32, longs: seq<int64>): (r: RequestLog)
    requires |texts| == |TextSchema| && |longs| == |LongNames|
    ensures TextFields(r) == texts && LongFields(r) == longs
    ensures r.id == id && r.timestamp == timestamp && r.statusCode == statusCode
  {
    RequestLog(
      id, timestamp,
      texts[0], texts[1], texts[2], texts[3], texts[4], texts[5], texts[6], texts[7], texts[8], texts[9], texts[10],
      statusCode, longs[0], longs[1], longs[2])
  }

  /** MapToLogEntry: Properties is fetched first, then the object initialiser
      runs its assignments in order, each of which may throw. `id` is the
      fresh identifier of the new record; the raw event's own Id is never
      read. */
  function MapToLogEntry(log: Json, id: nat): (r: Result<RequestLog>)
    ensures r.Ok? ==> IsLogElement(log) && GetProperty(log, "Timestamp").Ok?
    ensures r.Ok? ==> r.value.id == id && IsValid(r.value.timestamp)
  {
    var props :- GetProperty(log, "Properties");
    var stamp :- GetProperty(log, "Timestamp");
    var timestamp :- GetDateTime(stamp);
    ReadRecord(props, timestamp, id)
  }

  /** The initialiser's lookups, once the timestamp has been read. */
  function ReadRecord(props: Json, timestamp: DateTime, id: nat): (r: Result<RequestLog>)
    ensures r.Ok? ==> r.value.id == id && r.value.timestamp == timestamp
  {
    var texts :- ReadTexts(props, TextSchema);
    var statusCode :- GetPropInt(props, "StatusCode");
    var longs :- ReadLongs(props, LongNames);
    Ok(Assemble(id, timestamp, texts, statusCode, longs))
  }

  /** Every text field holds the first string-valued same-named property or
      its default ("-", or "" for RequestBody), StatusCode the first
      same-named number that fits 32 bits, and Duration, RequestSize and
      ResponseSize the first same-named numbers that fit 64 bits under the
      raw names Duration, RequestBytes and ResponseBytes; 0 when there is
      none. */
  lemma MappedFields(log: Json, id: nat)
    requires MapToLogEntry(log, id).Ok?
    ensures GetProperty(log, "Properties").Ok?
    ensures GetDateTime(GetProperty(log, "Timestamp").value) == Ok(MapToLogEntry(log, id).value.timestamp)
    ensures var r := MapToLogEntry(log, id).value;
      var props := GetProperty(log, "Properties").value;
      && (forall k :: 0 <= k < |TextSchema| ==>
            TextFields(r)[k] == TextOrDefault(props, TextSchema[k].0, TextSchema[k].1))
      && GetPropInt(props, "StatusCode") == Ok(r.statusCode)
      && (forall k :: 0 <= k < |LongNames| ==> LongFields(r)[k] == LongOrZero(props, LongNames[k]))
  {
    var props := GetProperty(log, "Properties").value;
    ReadTextsSpec(props, TextSchema);
    ReadLongsSpec(props, LongNames);
  }

  // Properties of the mapping.

  /** Ten text fields fall back to "-" and RequestBody to "", StatusCode to
      0 and the three 64-bit fields to 0: an event whose Properties array is
      empty maps to the freshly constructed record with only its timestamp
      set. */
  lemma EmptyPropertiesGiveDefaults(log: Json, id: nat)
    requires GetProperty(log, "Properties") == Ok(JArray([]))
    requires GetProperty(log, "Timestamp").Ok? && GetDateTime(GetProperty(log, "Timestamp").value).Ok?
    ensures MapToLogEntry(log, id)
      == Ok(NewRequestLog(id).(timestamp := GetDateTime(GetProperty(log, "Timestamp").value).value))
  {
    var r := MapToLogEntry(log, id);
    var expected := NewRequestLog(id).(timestamp := GetDateTime(GetProperty(log, "Timestamp").value).value);
    ReadTextsSpec(JArray([]), TextSchema);
    ReadLongsSpec(JArray([]), LongNames);
    assert r.Ok?;
    assert TextFields(r.value) == TextFields(expected);
    assert LongFields(r.value) == LongFields(expected);
  }

  /** The names read with TryGetInt32 / TryGetInt64. */
  const NumericNames: seq<string> := ["StatusCode", "Duration", "RequestBytes", "ResponseBytes"]

  /** An entry of the property bag none of the lookups can throw on: an
      object whose Name is missing, null or a string, and whose Value, when
      the Name is a numeric field's, is missing or a number. */
  predicate TidyEntry(prop: Json)
  {
    && prop.JObject?
    && match Member(prop.members, "Name")
       case None => true
       case Some(n) =>
         || n.JNull?
         || (n.JString? && (n.s in NumericNames ==>
               var v := Member(prop.members, "Value"); v.None? || v.value.JNumber?))
  }

  lemma TidyEntryNeverThrows(prop: Json, name: string, want: Want)
    requires TidyEntry(prop)
    requires want != Text ==> name in NumericNames
    ensures !Classify(prop, name, want).Throw?
  {
  }

  lemma TidyScanSucceeds(props: Json, name: string, want: Want)
    requires props.JArray? && forall i :: 0 <= i < |props.items| ==> TidyEntry(props.items[i])
    requires want != Text ==> name in NumericNames
    ensures Scan(props, name, want).Ok?
  {
    forall i | 0 <= i < |props.items|
      ensures !Classify(props.items[i], name, want).Throw?
    {
      TidyEntryNeverThrows(props.items[i], name, want);
    }
    FindFirstNoThrow(props.items, name, want);
  }

  /** The mapping succeeds on every event whose Timestamp parses and whose
      Properties is an array of tidy entries. */
  lemma {:induction false} TidyEventMaps(log: Json, id: nat)
    requires GetProperty(log, "Properties").Ok? && GetProperty(log, "Timestamp").Ok?
    requires GetDateTime(GetProperty(log, "Timestamp").value).Ok?
    requires var props := GetProperty(log, "Properties").value;
      props.JArray? && forall i :: 0 <= i < |props.items| ==> TidyEntry(props.items[i])
    ensures MapToLogEntry(log, id).Ok?
  {
    var props := GetProperty(log, "Properties").value;
    forall k | 0 <= k < |TextSchema|
      ensures GetPropString(props, TextSchema[k].0).Ok?
    {
      TidyScanSucceeds(props, TextSchema[k].0, Text);
    }
    TidyScanSucceeds(props, "StatusCode", Int32Value);
    forall k | 0 <= k < |LongNames|
      ensures GetPropLong(props, LongNames[k]).Ok?
    {
      assert LongNames[k] in NumericNames;
      TidyScanSucceeds(props, LongNames[k], Int64Value);
    }
    ReadTextsSpec(props, TextSchema);
    ReadLongsSpec(props, LongNames);
  }

  /** A StatusCode carried as a string is not skipped like a mistyped text
      property: TryGetInt32 throws and the whole mapping fails. */
  lemma TextStatusCodeFails(stamp: Json, id: nat)
    requires GetDateTime(stamp).Ok?
    ensures var entry := JObject([("Name", JString("StatusCode")), ("Value", JString("200"))]);
      MapToLogEntry(JObject([("Timestamp", stamp), ("Properties", JArray([entry]))]), id).Err?
  {
    var entry := JObject([("Name", JString("StatusCode")), ("Value", JString("200"))]);
    EventMembers(stamp, JArray([entry]));
    EntryMembers("StatusCode", JString("200"));
    assert Classify(entry, "StatusCode", Int32Value).Throw?;
    assert GetPropInt(JArray([entry]), "StatusCode").Err?;
  }

  /** An event without a StaffId entry keeps the sentinel. */
  lemma MissingStaffIdIsAbsent(stamp: Json, id: nat)
    requires GetDateTime(stamp).Ok?
    ensures var entry := JObject([("Name", JString("Route")), ("Value", JString("/home"))]);
      var r := MapToLogEntry(JObject([("Timestamp", stamp), ("Properties", JArray([entry]))]), id);
      r.Ok? && r.value.staffId == Absent
  {
    var entry := JObject([("Name", JString("Route")), ("Value", JString("/home"))]);
    var log := JObject([("Timestamp", stamp), ("Properties", JArray([entry]))]);
    var props := JArray([entry]);
    EventMembers(stamp, props);
    EntryMembers("Route", JString("/home"));
    assert TidyEntry(entry);
    TidyEventMaps(log, id);
    MappedFields(log, id);
    var r := MapToLogEntry(log, id).value;
    assert Classify(entry, "StaffId", Text) == Pass;
    FindFirstNone([entry], "StaffId", Text);
    assert GetPropString(props, "StaffId") == Ok(None);
    assert TextFields(r)[6] == TextOrDefault(props, "StaffId", Absent) == Absent;
  }

  /** A StaffId entry whose Value is a number is passed over like a missing
      one: the field keeps the sentinel. */
  lemma NumericStaffIdIsAbsent(stamp: Json, id: nat)
    requires GetDateTime(stamp).Ok?
    ensures var entry := JObject([("Name", JString("StaffId")), ("Value", JNumber(42))]);
      var r := MapToLogEntry(JObject([("Timestamp", stamp), ("Properties", JArray([entry]))]), id);
      r.Ok? && r.value.staffId == Absent
  {
    var entry := JObject([("Name", JString("StaffId")), ("Value", JNumber(42))]);
    var log := JObject([("Timestamp", stamp), ("Properties", JArray([entry]))]);
    var props := JArray([entry]);
    EventMembers(stamp, props);
    EntryMembers("StaffId", JNumber(42));
    assert TidyEntry(entry);
    TidyEventMaps(log, id);
    MappedFields(log, id);
    var r := MapToLogEntry(log, id).value;
    assert Classify(entry, "StaffId", Text) == Pass;
    FindFirstNone([entry], "StaffId", Text);
    assert GetPropString(props, "StaffId") == Ok(None);
    assert TextFields(r)[6] == TextOrDefault(props, "StaffId", Absent) == Absent;
  }

  /** The two lookups on a property-bag entry written as {"Name": name, "Value": v}. */
  lemma EntryMembers(name: string, v: Json)
    ensures var members := [("Name", JString(name)), ("Value", v)];
      Member(members, "Name") == Some(JString(name)) && Member(members, "Value") == Some(v)
  {
    var members := [("Name", JString(name)), ("Value", v)];
    assert members[..1] == [("Name", JString(name))];
    assert "Name" != "Value";
  }

  /** The two lookups on a raw event written as {"Timestamp": t, "Properties": p}. */
  lemma EventMembers(t: Json, p: Json)
    ensures var log := JObject([("Timestamp", t), ("Properties", p)]);
      GetProperty(log, "Timestamp") == Ok(t) && GetProperty(log, "Properties") == Ok(p)
  {
    var members := [("Timestamp", t), ("Properties", p)];
    assert members[..1] == [("Timestamp", t)];
    assert "Timestamp" != "Properties";
    assert Member(members, "Properties") == Some(p);
    assert Member(members, "Timestamp") == Member(members[..1], "Timestamp") == Some(t);
  }

  /** Of several same-named entries the first one holding a string wins;
      earlier ones of another kind are passed over. */
  lemma {:induction false} FirstStringWins(props: seq<Json>, name: string, i: nat, s: string)
    requires i < |props| && props[i] == JObject([("Name", JString(name)), ("Value", JString(s))])
    requires forall j :: 0 <= j < i ==> Classify(props[j], name, Text) == Pass
    ensures FindFirst(props, name, Text) == Ok(Some(JString(s)))
    ensures GetPropString(JArray(props), name) == Ok(Some(s))
  {
    if i == 0 {
      EntryMembers(name, JString(s));
    } else {
      FirstStringWins(props[1..], name, i - 1, s);
    }
  }

  // Reading archive files (ReadAllLogsInFolderAsync, line 40) and the
  // scheduler's unfiltered mapping of a whole file.

  /** The element filter: an object that has a Properties member. */
  predicate IsLogElement(log: Json)
  {
    log.JObject? && Member(log.members, "Properties").Some?
  }

  /** The elements that survive the filter, in order: exactly the log
      elements of the input, none dropped and none reordered. */
  function KeptElements(logs: seq<Json>): (kept: seq<Json>)
    ensures forall k :: 0 <= k < |kept| ==> IsLogElement(kept[k])
    ensures forall i :: 0 <= i < |logs| && IsLogElement(logs[i]) ==> logs[i] in kept
    ensures |kept| <= |logs|
    ensures kept == Grouping.Where(logs, IsLogElement)
  {
    if logs == [] then []
    else
      assert logs == [logs[0]] + logs[1..];
      if IsLogElement(logs[0]) then [logs[0]] + KeptElements(logs[1..])
      else KeptElements(logs[1..])
  }

  /** Every element mapped in order, the first failure stopping the rest;
      records get consecutive identifiers starting at `firstId`. */
  function MapEach(logs: seq<Json>, firstId: nat): (r: Result<seq<RequestLog>>)
    ensures r.Ok? ==> |r.value| == |logs|
  {
    if logs == [] then Ok([])
    else
      var first := MapToLogEntry(logs[0], firstId);
      if first.Err? then Err(first.error)
      else
        var rest := MapEach(logs[1..], firstId + 1);
        if rest.Err? then Err(rest.error)
        else Ok([first.value] + rest.value)
  }

  /** The k-th record of a mapped file is the mapping of the k-th element
      under the k-th identifier. */
  lemma {:induction false} MapEachAt(logs: seq<Json>, firstId: nat, k: nat, id: nat)
    requires MapEach(logs, firstId).Ok? && k < |logs| && id == firstId + k
    ensures MapToLogEntry(logs[k], id) == Ok(MapEach(logs, firstId).value[k])
    ensures MapEach(logs, firstId).value[k].id == id
  {
    var first := MapToLogEntry(logs[0], firstId);
    var rest := MapEach(logs[1..], firstId + 1);
    assert first.Ok? && rest.Ok?;
    assert MapEach(logs, firstId).value == [first.value] + rest.value;
    if k > 0 {
      MapEachAt(logs[1..], firstId + 1, k - 1, id);
      assert logs[1..][k - 1] == logs[k];
    }
  }

  /** The specification of the element loop: elements failing the filter
      are dropped before mapping. */
  function MapKept(logs: seq<Json>, firstId: nat): Result<seq<RequestLog>>
  {
    if logs == [] then Ok([])
    else if !IsLogElement(logs[0]) then MapKept(logs[1..], firstId)
    else
      var first :- MapToLogEntry(logs[0], firstId);
      var rest :- MapKept(logs[1..], firstId + 1);
      Ok([first] + rest)
  }

  /** Filtering then mapping: the elements dropped by the filter are never
      mapped, and what is kept is mapped exactly as the scheduler maps a
      whole file. */
  lemma {:induction false} MapKeptIsMapEachOfKept(logs: seq<Json>, firstId: nat)
    ensures MapKept(logs, firstId) == MapEach(KeptElements(logs), firstId)
  {
    if logs != [] {
      MapKeptIsMapEachOfKept(logs[1..], firstId);
      MapKeptIsMapEachOfKept(logs[1..], firstId + 1);
      if IsLogElement(logs[0]) {
        var kept := KeptElements(logs);
        assert kept[0] == logs[0] && kept[1..] == KeptElements(logs[1..]);
      }
    }
  }

  /** An element without Properties is dropped by the folder reader but
      makes the scheduler's unfiltered mapping fail. */
  lemma {:induction false} UnfilteredMappingFailsOnStray(logs: seq<Json>, firstId: nat, k: nat)
    requires k < |logs| && !IsLogElement(logs[k])
    ensures MapEach(logs, firstId).Err?
  {
    if MapEach(logs, firstId).Ok? {
      MapEachAt(logs, firstId, k, firstId + k);
    }
  }

  function Prepend(entries: seq<RequestLog>, r: Result<seq<RequestLog>>): Result<seq<RequestLog>>
  {
    if r.Ok? then Ok(entries + r.value) else r
  }

  /** A step of the element loop over an element the filter rejects. */
  lemma MapKeptSkip(logs: seq<Json>, i: nat, id: nat)
    requires i < |logs| && !IsLogElement(logs[i])
    ensures MapKept(logs[i..], id) == MapKept(logs[i + 1..], id)
  {
    assert logs[i..][1..] == logs[i + 1..];
  }

  /** A step of the element loop over an element whose mapping throws. */
  lemma MapKeptFail(logs: seq<Json>, i: nat, id: nat)
    requires i < |logs| && IsLogElement(logs[i]) && MapToLogEntry(logs[i], id).Err?
    ensures MapKept(logs[i..], id) == Err(MapToLogEntry(logs[i], id).error)
  {
  }

  lemma PrependTwice(a: seq<RequestLog>, b: seq<RequestLog>, r: Result<seq<RequestLog>>)
    ensures Prepend(a, Prepend(b, r)) == Prepend(a + b, r)
  {
    if r.Ok? {
      assert a + (b + r.value) == a + b + r.value;
    }
  }

  lemma MapKeptCons(s: seq<Json>, id: nat, entry: RequestLog)
    requires s != [] && IsLogElement(s[0]) && MapToLogEntry(s[0], id) == Ok(entry)
    ensures MapKept(s, id) == Prepend([entry], MapKept(s[1..], id + 1))
  {
  }

  /** A step of the element loop over an element that maps to `entry`. */
  lemma MapKeptTake(entries: seq<RequestLog>, logs: seq<Json>, i: nat, id: nat, entry: RequestLog)
    requires i < |logs| && IsLogElement(logs[i]) && MapToLogEntry(logs[i], id) == Ok(entry)
    ensures Prepend(entries, MapKept(logs[i..], id)) == Prepend(entries + [entry], MapKept(logs[i + 1..], id + 1))
  {
    var s := logs[i..];
    assert s[0] == logs[i] && s[1..] == logs[i + 1..];
    MapKeptCons(s, id, entry);
    PrependTwice(entries, [entry], MapKept(logs[i + 1..], id + 1));
  }

  /** The element loop of ReadAllLogsInFolderAsync over one file's
      elements: skip what the filter rejects, map the rest and append them
      to the entry list; a mapping exception ends the read. */
  method ReadLogElements(logs: seq<Json>, firstId: nat) returns (r: Result<seq<RequestLog>>)
    ensures r == MapKept(logs, firstId)
  {
    var entries: seq<RequestLog> := [];
    var nextId := firstId;
    var i := 0;
    assert logs[0..] == logs;
    var whole := MapKept(logs, firstId);
    assert whole.Ok? ==> [] + whole.value == whole.value;
    while i < |logs|
      invariant 0 <= i <= |logs|
      invariant whole == Prepend(entries, MapKept(logs[i..], nextId))
    {
      var log := logs[i];
      if IsLogElement(log) {
        var entry := MapToLogEntry(log, nextId);
        if entry.Err? {
          MapKeptFail(logs, i, nextId);
          return Err(entry.error);
        }
        MapKeptTake(entries, logs, i, nextId, entry.value);
        entries := entries + [entry.value];
        nextId := nextId + 1;
      } else {
        MapKeptSkip(logs, i, nextId);
      }
      i := i + 1;
    }
    assert logs[i..] == [];
    assert entries + [] == entries;
    r := Ok(entries);
  }

  /** The element loop collects one record per element the filter keeps. */
  lemma MapKeptCount(logs: seq<Json>, firstId: nat)
    requires MapKept(logs, firstId).Ok?
    ensures |MapKept(logs, firstId).value| == |KeptElements(logs)|
  {
    MapKeptIsMapEachOfKept(logs, firstId);
  }
}
