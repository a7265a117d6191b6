/** Message types and the fixed payload sizes of the 64-bit ABI. */
module Wire {
  import opened Bytes

  const MARKET_DATA: byte := 1
  const SIGNAL: byte := 2
  const NEW_ORDER: byte := 3
  const ACK: byte := 5
  const FILL: byte := 6
  const REJECT: byte := 7
  const HEARTBEAT: byte := 8
  const RISK_STATE: byte := 9

  /** Size of the payload structure of a message type; 0 for a type that has none. */
  function PayloadSize(messageType: nat): (size: nat)
    ensures size <= 104
  {
    if messageType == MARKET_DATA then 104
    else if messageType == SIGNAL || messageType == NEW_ORDER || messageType == FILL then 72
    else if messageType == ACK || messageType == RISK_STATE then 64
    else if messageType == REJECT || messageType == HEARTBEAT then 56
    else 0
  }

  /** An envelope as the codecs see it: a type and the raw bytes of the union member in use. */
  datatype RawEnvelope = RawEnvelope(messageType: byte, payload: seq<byte>)

  type Envelope = e: RawEnvelope | |e.payload| == PayloadSize(e.messageType) witness RawEnvelope(0, [])

  /** Both transports refuse an envelope whose type has no payload. */
  predicate HasPayload(e: Envelope) {
    PayloadSize(e.messageType) != 0
  }
}
