/** The values that travel between the peers: instructions and state updates. */
module Wire {
  import opened Prelude

  datatype Viewport = Viewport(columns: u64, rows: u64)

  datatype SessionControl = SessionControl(kind: u32, payload: seq<byte>)

  /** One entry of an instruction batch; any subset of its parts may be present. */
  datatype Instruction = Instruction(
    bytes: Option<seq<byte>>,
    viewport: Option<Viewport>,
    marker: Option<u64>,
    control: Option<SessionControl>)

  function HostBytes(value: seq<byte>): Instruction {
    Instruction(Some(value), None, None, None)
  }

  function Resize(columns: u64, rows: u64): Instruction {
    Instruction(None, Some(Viewport(columns, rows)), None, None)
  }

  function Control(control: SessionControl): Instruction {
    Instruction(None, None, None, Some(control))
  }

  function EchoAck(value: u64): Instruction {
    Instruction(None, None, Some(value), None)
  }

  /** A decoded state update; `delta` is the instruction batch its delta field encodes. */
  datatype StateUpdate = StateUpdate(
    base: u64,
    target: u64,
    acknowledged: u64,
    discardBefore: u64,
    delta: seq<Instruction>)

  // The state number reserved for shutdown.
  const SHUTDOWN_STATE: u64 := U64_MAX
}
