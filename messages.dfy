/**
 * The records the core hands to its queues: irc.message.Message (what
 * MessageQueue.addMessage receives) and irc.account.Task (what the account
 * manager's task queue receives). Their fields are the ones the core sets;
 * a field the core leaves unset (Java null) is None.
 */
module Messages {

  import opened Wrappers

  datatype MessageType =
    | NormalMessage
    | ActionMessage
    | WhisperMessage
    | SubNotify
    | BanNotify
    | ClearText
    | HostingNotify
    | HostedNotify
    | JtvNotify

  /** The payload in Message.extra; NoExtra is Java null. */
  datatype Extra =
    | NoExtra
    | Flag(flag: bool)             // a Boolean marker ("anything other than null")
    | Receiver(receiver: string)   // the receiver of a whisper
    | PaneRef(paneChannel: string) // the chat pane asking for a CLEAR_TEXT

  datatype Message = Message(
    kind: MessageType,
    channel: Option<string>,
    sender: Option<string>,
    content: Option<string>,
    extra: Extra)

  datatype TaskType = JoinChannel | LeaveChannel | Disconnect

  datatype Task = Task(kind: TaskType, channel: Option<string>)
}
