/** The fixed-schema record every raw event is normalised into. */
module RequestLogModel {
  import opened Base
  import opened Calendar

  /** The sentinel a text field holds when the raw event does not supply it. */
  const Absent: string := "-"

  /** One request as RequestLog declares it. The Id is Guid.NewGuid() at
      construction; the model stands for it by the construction's sequence
      number, which the caller supplies. */
  datatype RequestLog = RequestLog(
    id: nat,
    timestamp: DateTime,
    traceId: string,
    route: string,
    httpMethod: string,
    query: string,
    requestBody: string,
    userName: string,
    staffId: string,
    companyId: string,
    companyDepartmentId: string,
    remoteIP: string,
    userAgent: string,
    statusCode: int32,
    duration: int64,
    requestSize: int64,
    responseSize: int64)

  /** `new RequestLog()` before any initialiser of the caller runs: every
      text field but RequestBody is the sentinel, RequestBody is empty, the
      numbers are zero and the timestamp is DateTime.MinValue. */
  function NewRequestLog(id: nat): RequestLog
  {
    RequestLog(id, MinValue, Absent, Absent, Absent, Absent, "", Absent, Absent, Absent, Absent, Absent, Absent, 0, 0, 0, 0)
  }
}
