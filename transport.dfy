/**
 * The send side of the WebSocket stream, reduced to the log of what it was
 * given. Connecting, the handshake, receiving and closing are not modelled
 * here: received messages reach the model as a sequence (see Acquisition).
 */
module Transport {

  class Channel {
    /** Every message passed to `send_message`, in order. */
    var sent: seq<string>

    constructor ()
      ensures sent == []
    {
      sent := [];
    }

    /** `send_message(msg)`: appends to the log. */
    method SendMessage(msg: string)
      modifies this
      ensures sent == old(sent) + [msg]
    {
      sent := sent + [msg];
    }
  }
}
