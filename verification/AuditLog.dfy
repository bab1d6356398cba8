/** The audit log request that every part of Lumberjack passes around. */
module AuditLog {

  datatype Option<+T> = None | Some(value: T)

  /** google.protobuf.Value; a Struct is its field map. */
  datatype Value =
    | NullValue
    | BoolValue(b: bool)
    | NumberValue(n: real)
    | StringValue(s: string)
    | StructValue(fields: map<string, Value>)
    | ListValue(values: seq<Value>)

  type Struct = map<string, Value>

  /** Protobuf enums are open: a number that has no name is still a value. */
  datatype LogMode = ModeUnspecified | FailClose | BestEffort | ModeNumber(number: int)

  datatype LogType =
    TypeUnspecified | AdminActivity | DataAccess | ConsentEvent | SystemEvent | TypeNumber(number: int)

  datatype RpcStatus = RpcStatus(code: int, message: string)

  /** The fields of google.cloud.audit.AuditLog that Lumberjack reads or writes. */
  datatype Payload = Payload(
    serviceName: string,
    methodName: string,
    resourceName: string,
    principalEmail: Option<string>,   // None: AuthenticationInfo is nil
    metadata: Option<Struct>,
    reason: Option<seq<string>>,      // RequestMetadata.RequestAttributes.Reason
    request: Option<Struct>,
    response: Option<Struct>,
    status: Option<RpcStatus>)

  datatype Request = Request(
    payload: Option<Payload>,
    logType: LogType,
    labels: map<string, string>,
    mode: LogMode,
    operation: Option<string>,
    justificationToken: string)

  function WithStatus(r: Request, status: RpcStatus): Request {
    if r.payload.None? then r else r.(payload := Some(r.payload.value.(status := Some(status))))
  }

  function WithRequest(r: Request, s: Option<Struct>): Request {
    if r.payload.None? then r else r.(payload := Some(r.payload.value.(request := s)))
  }

  function WithResponse(r: Request, s: Option<Struct>): Request {
    if r.payload.None? then r else r.(payload := Some(r.payload.value.(response := s)))
  }

  /** A pointer to a request: what processors are given and mutate. */
  class RequestRef {
    var val: Request

    constructor (r: Request)
      ensures val == r
    {
      val := r;
    }
  }

  predicate ShouldFailClose(m: LogMode) {
    m == FailClose
  }

  /** The mode that is in force when several places may set one. */
  function FirstSpecified(modes: seq<LogMode>): LogMode {
    if modes == [] then ModeUnspecified
    else if modes[0] != ModeUnspecified then modes[0]
    else FirstSpecified(modes[1..])
  }
}
