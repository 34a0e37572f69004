/** Wire-level values shared by the pipeline: decoded JSON trees, envelopes and payloads. */
module Protocol {

  datatype Option<+T> = None | Some(value: T)

  datatype Value =
    | Null
    | Bool(b: bool)
    | Num(n: int)
    | Str(s: string)
    | List(items: seq<Value>)
    | Obj(fields: map<string, Value>)

  datatype MessageType = Hello | HelloAck | Heartbeat | Command | Ack | Result | Status | ErrorMessage

  /** What decoding the raw payload into a JSON object yields: an error (the bytes are kept),
      the literal `null`, or an object. */
  datatype Payload =
    | Undecodable(raw: string)
    | NullPayload
    | Object(fields: map<string, Value>)

  datatype Envelope = Envelope(
    version: string,
    kind: MessageType,
    messageId: string,
    correlationId: string,
    deviceId: string,
    timestamp: int,
    payload: Payload)

  datatype CommandState = Queued | Running | Succeeded | Failed | TimedOut | Rejected | Cancelled

  datatype ResultPayload = ResultPayload(
    commandId: string,
    action: string,
    state: CommandState,
    exitCode: int,
    stdout: string,
    stderr: string,
    outputTruncated: bool,
    startedAt: int,
    endedAt: int,
    durationMs: int,
    errorCode: string)

  datatype CommandPayload = CommandPayload(
    commandId: string,
    action: string,
    args: map<string, Value>,
    timeoutSec: Option<int>)

  /** Durations and instants are integers counting nanoseconds. */
  const SECOND: int := 1_000_000_000
  const MINUTE: int := 60 * SECOND
  const MAX_INT64: int := 0x7FFF_FFFF_FFFF_FFFF
  const MIN_INT64: int := -0x8000_0000_0000_0000
  const TWO64: int := 0x1_0000_0000_0000_0000

  /** The value a 64-bit signed machine integer holds after an operation whose exact result is x. */
  function Wrap64(x: int): (r: int)
    ensures MIN_INT64 <= r <= MAX_INT64
    ensures MIN_INT64 <= x <= MAX_INT64 ==> r == x
  {
    (x - MIN_INT64) % TWO64 + MIN_INT64
  }
}
