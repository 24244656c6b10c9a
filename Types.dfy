/**
 * The values the command pipeline works on: the command attribute that
 * describes each command, inbound messages, worlds, replies and log entries.
 */
module Types {

  /**
   * A permission level. The source compares `PermissionLevel` enum members
   * (None below Owner) by their underlying value; a natural number keeps
   * exactly that ordering.
   */
  type PermissionLevel = nat

  /** Whether a command body returns `void` or an awaitable `Task`. */
  datatype HandlerKind = Sync | Async

  /** The `[Command(...)]` attribute of one command body. */
  datatype CommandInfo = CommandInfo(
    name: string,
    description: string,
    category: string,
    level: PermissionLevel,
    usage: string,
    aliases: seq<string>,
    kind: HandlerKind)

  /** Only `Text` messages can carry commands; every other kind is ignored. */
  datatype MessageType = Text | Other

  datatype Message = Message(id: string, senderId: string, messageType: MessageType, content: string)

  /** A text reply sent to the conversation of user `to`. */
  datatype Reply = Reply(to: string, text: string)

  /** `Msg(...)` writes an `Info` line, `Error(text, exception)` an `Error` one. */
  datatype LogEntry = Info(text: string) | Error(text: string, error: string)

  /** What running a command body did: finished, or raised an exception with this message. */
  datatype HandlerOutcome = Completed | Failed(error: string)

  /** The body of `info` was run with this message and these arguments. */
  datatype Invocation = Invocation(info: CommandInfo, message: Message, args: seq<string>)

  /** A world known to the world manager; `isUserspace` marks the local userspace world. */
  datatype World = World(
    name: string,
    rawName: string,
    sessionId: string,
    isUserspace: bool,
    activeUserCount: nat,
    userCount: nat,
    accessLevel: string)
}
