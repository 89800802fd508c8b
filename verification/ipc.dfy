/** The bounded message channel between the browser and one child process. */
module Ipc {
  import opened Wrappers

  const IPC_VERSION := 1
  const MAX_IPC_MESSAGE_BYTES := 4 * 1024 * 1024
  const MAX_QUEUE := 1000

  datatype Command =
    | Navigate(url: string)
    | RenderFrame(html: string)
    | FetchResource(url: string, verb: string)
    | PlayMedia(src: string)
    | Heartbeat
    | Shutdown

  datatype Message = Message(
    version: nat, senderId: nat, senderGeneration: nat, targetId: nat, targetGeneration: nat, sequence: nat,
    command: Command)

  datatype IpcError =
    | ChannelClosed
    | MessageTooLarge
    | SendQueueFull
    | VersionMismatch
    | StaleGeneration
    | IdentityMismatch
    | ReplayRejected
    | ReceiveQueueFull

  /** The length of a message's JSON text. */
  type Encoding = Message -> nat

  datatype Channel = Channel(
    senderId: nat, senderGeneration: nat, targetId: nat, targetGeneration: nat, sequence: nat,
    sendQueue: seq<Message>, receiveQueue: seq<Message>, closed: bool, lastReceived: nat)

  function NewChannel(senderId: nat, senderGeneration: nat, targetId: nat, targetGeneration: nat): (c: Channel) {
    Channel(senderId, senderGeneration, targetId, targetGeneration, 1, [], [], false, 0)
  }

  /** The message a channel sends next. */
  function NextMessage(c: Channel, command: Command): (m: Message) {
    Message(IPC_VERSION, c.senderId, c.senderGeneration, c.targetId, c.targetGeneration, c.sequence, command)
  }

  /** A refused message still uses up its sequence number, unless the channel is closed. */
  function Send(c: Channel, command: Command, encoding: Encoding): (r: (Channel, Option<IpcError>)) {
    if c.closed then (c, Some(ChannelClosed))
    else
      var message := NextMessage(c, command);
      var next := c.(sequence := c.sequence + 1);
      if encoding(message) > MAX_IPC_MESSAGE_BYTES then (next, Some(MessageTooLarge))
      else if |c.sendQueue| >= MAX_QUEUE then (next, Some(SendQueueFull))
      else (next.(sendQueue := c.sendQueue + [message]), None)
  }

  function DeliverError(c: Channel, m: Message): (e: Option<IpcError>) {
    if c.closed then Some(ChannelClosed)
    else if m.version != IPC_VERSION then Some(VersionMismatch)
    else if m.targetGeneration != c.targetGeneration then Some(StaleGeneration)
    else if m.targetId != c.targetId || m.senderId != c.senderId || m.senderGeneration != c.senderGeneration
    then Some(IdentityMismatch)
    else if m.sequence <= c.lastReceived then Some(ReplayRejected)
    else if |c.receiveQueue| >= MAX_QUEUE then Some(ReceiveQueueFull)
    else None
  }

  function Deliver(c: Channel, m: Message): (r: (Channel, Option<IpcError>)) {
    var error := DeliverError(c, m);
    if error.Some? then (c, error)
    else (c.(lastReceived := m.sequence, receiveQueue := c.receiveQueue + [m]), None)
  }

  function Receive(c: Channel): (r: (Channel, Option<Message>)) {
    if c.closed || c.receiveQueue == [] then (c, None)
    else (c.(receiveQueue := c.receiveQueue[1..]), Some(c.receiveQueue[0]))
  }

  function Close(c: Channel): (r: Channel) {
    c.(closed := true, sendQueue := [], receiveQueue := [])
  }

  /** The channel as the program runs it. */
  class IpcChannel {
    const senderId: nat
    const senderGeneration: nat
    const targetId: nat
    const targetGeneration: nat
    var sequence: nat
    var sendQueue: seq<Message>
    var receiveQueue: seq<Message>
    var closed: bool
    var lastReceived: nat

    constructor (senderId: nat, senderGeneration: nat, targetId: nat, targetGeneration: nat)
      ensures State() == NewChannel(senderId, senderGeneration, targetId, targetGeneration)
    {
      this.senderId, this.senderGeneration := senderId, senderGeneration;
      this.targetId, this.targetGeneration := targetId, targetGeneration;
      sequence, sendQueue, receiveQueue, closed, lastReceived := 1, [], [], false, 0;
    }

    function State(): (c: Channel)
      reads this
    {
      Channel(senderId, senderGeneration, targetId, targetGeneration, sequence, sendQueue, receiveQueue, closed,
              lastReceived)
    }

    method SendCommand(command: Command, encoding: Encoding) returns (error: Option<IpcError>)
      modifies this
      ensures (State(), error) == Send(old(State()), command, encoding)
    {
      if closed {
        return Some(ChannelClosed);
      }
      var message := NextMessage(State(), command);
      sequence := sequence + 1;
      if encoding(message) > MAX_IPC_MESSAGE_BYTES {
        return Some(MessageTooLarge);
      }
      if |sendQueue| >= MAX_QUEUE {
        return Some(SendQueueFull);
      }
      sendQueue := sendQueue + [message];
      return None;
    }

    method DeliverIncoming(message: Message) returns (error: Option<IpcError>)
      modifies this
      ensures (State(), error) == Deliver(old(State()), message)
    {
      if closed {
        return Some(ChannelClosed);
      }
      if message.version != IPC_VERSION {
        return Some(VersionMismatch);
      }
      if message.targetGeneration != targetGeneration {
        return Some(StaleGeneration);
      }
      if message.targetId != targetId || message.senderId != senderId || message.senderGeneration != senderGeneration {
        return Some(IdentityMismatch);
      }
      if message.sequence <= lastReceived {
        return Some(ReplayRejected);
      }
      if |receiveQueue| >= MAX_QUEUE {
        return Some(ReceiveQueueFull);
      }
      lastReceived := message.sequence;
      receiveQueue := receiveQueue + [message];
      return None;
    }

    method ReceiveNext() returns (message: Option<Message>)
      modifies this
      ensures (State(), message) == Receive(old(State()))
    {
      if closed || receiveQueue == [] {
        return None;
      }
      message := Some(receiveQueue[0]);
      receiveQueue := receiveQueue[1..];
    }

    method CloseChannel()
      modifies this
      ensures State() == Close(old(State()))
    {
      closed, sendQueue, receiveQueue := true, [], [];
    }
  }
}
