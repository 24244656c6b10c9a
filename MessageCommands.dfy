/**
 * The inbound-message pipeline of `MessageCommands`: the pending-response
 * table is offered every message first; an unclaimed `Text` message that
 * starts with "/" is split on single spaces, its first token looked up in the
 * command dictionary, gated on the sender's permission level, and its body run
 * inside a catch that turns any failure into an "Error: " reply.
 *
 * The tokenise, lookup and permission decision is pure (`Decide`, `Handle`);
 * the dictionary fill, the pending-response table and the reply and log
 * streams live in the `Dispatcher` class, whose methods change them in place.
 */
module MessageCommands {
  import opened Wrappers
  import opened Strings
  import opened Types
  import opened Registry

  const NoPermissionReply := "You do not have permission to use that command."
  const UnknownCommandReply := "Unknown command"

  /** The log line written when a command body fails. */
  function FailureLogText(senderId: string, cmd: string): string
  {
    "Failed to execute command from " + senderId + ": " + cmd
  }

  /** A command message split on single spaces: the "/name" token and the arguments after it. */
  datatype Tokens = Tokens(head: string, args: seq<string>)

  predicate IsCommandText(msg: Message)
  {
    msg.messageType == Text && StartsWith(msg.content, "/")
  }

  function Tokenize(content: string): (t: Tokens)
    requires StartsWith(content, "/")
    ensures |t.head| >= 1 && t.head[0] == '/'
    ensures ' ' !in t.head
    ensures forall i :: 0 <= i < |t.args| ==> ' ' !in t.args[i]
  {
    var tokens := Split(content, ' ');
    Tokens(tokens[0], tokens[1..])
  }

  /** The command token: the head without its "/", lower-cased. */
  function CommandName(t: Tokens): string
    requires |t.head| >= 1
  {
    Lower(t.head[1..])
  }

  /** Re-joining the head and the arguments with single spaces gives back the message text. */
  lemma TokenizeRoundTrip(content: string)
    requires StartsWith(content, "/")
    ensures Join(" ", [Tokenize(content).head] + Tokenize(content).args) == content
  {
    var tokens := Split(content, ' ');
    JoinSplit(content, ' ');
    assert [tokens[0]] + tokens[1..] == tokens;
  }

  /**
   * Conversely, a head token and arguments without spaces, joined with single
   * spaces, tokenise back into that head and those arguments; so
   * "/reqInvite My World Name" has the arguments "My", "World" and "Name".
   */
  lemma TokenizeJoined(head: string, args: seq<string>)
    requires |head| >= 1 && head[0] == '/' && ' ' !in head
    requires forall i :: 0 <= i < |args| ==> ' ' !in args[i]
    ensures StartsWith(Join(" ", [head] + args), "/")
    ensures Tokenize(Join(" ", [head] + args)) == Tokens(head, args)
  {
    JoinedTokensSplitBack(head, args);
    JoinedStartsWithSlash(head, args);
    TokenizeBySplit(Join(" ", [head] + args), head, args);
  }

  /** The joined text begins with the head token, hence with "/". */
  lemma JoinedStartsWithSlash(head: string, args: seq<string>)
    requires |head| >= 1 && head[0] == '/'
    ensures StartsWith(Join(" ", [head] + args), "/")
  {
    var parts := [head] + args;
    JoinStartsWithFirst(" ", parts);
    assert parts[0] == head;
  }

  /** A text whose pieces are `[head] + args` tokenises into that head and those arguments. */
  lemma TokenizeBySplit(content: string, head: string, args: seq<string>)
    requires StartsWith(content, "/")
    requires Split(content, ' ') == [head] + args
    ensures Tokenize(content) == Tokens(head, args)
  {
    assert ([head] + args)[1..] == args;
  }

  /** Space-free tokens joined with single spaces split back into the same tokens. */
  lemma JoinedTokensSplitBack(head: string, args: seq<string>)
    requires ' ' !in head
    requires forall i :: 0 <= i < |args| ==> ' ' !in args[i]
    ensures Split(Join(" ", [head] + args), ' ') == [head] + args
  {
    var parts := [head] + args;
    forall i | 0 <= i < |parts| ensures ' ' !in parts[i] {
      if i > 0 { assert parts[i] == args[i - 1]; }
    }
    SplitJoin(parts, ' ');
  }

  /** Where one inbound message ends up once the pending-response table has let it pass. */
  datatype Decision =
    | Ignored                         // not a Text message, or no leading "/"
    | Unregistered(cmd: string)       // no such command: returns without a reply
    | Denied(cmd: string)             // the command needs a higher level
    | UnknownCommand(cmd: string)     // the "Unknown command" branch
    | Run(info: CommandInfo, cmd: string, args: seq<string>)

  /**
   * The tokenise, lookup and permission decision, in the order the source
   * takes it: the missing-command test comes before the permission test, so
   * the later "Unknown command" test can never succeed.
   */
  function Decide(commands: Commands, msg: Message, permissionOf: string -> PermissionLevel): (r: Decision)
    ensures r.Ignored? <==> !IsCommandText(msg)
    ensures !r.UnknownCommand?
    ensures r.Run? ==>
              && IsCommandText(msg)
              && r.cmd == CommandName(Tokenize(msg.content))
              && r.cmd in commands && r.info == commands[r.cmd]
              && r.info.level <= permissionOf(msg.senderId)
  {
    if msg.messageType != Text || !StartsWith(msg.content, "/") then Ignored
    else
      var tokens := Tokenize(msg.content);
      var cmd := CommandName(tokens);
      var found := if cmd in commands then Some(commands[cmd]) else None;
      if found.None? then Unregistered(cmd)
      else if found.value.level > permissionOf(msg.senderId) then Denied(cmd)
      else if found.None? then UnknownCommand(cmd)
      else Run(found.value, cmd, tokens.args)
  }

  /** What handling one unclaimed message adds to the replies, the log and the handler runs. */
  datatype Effects = Effects(replies: seq<Reply>, log: seq<LogEntry>, invoked: seq<Invocation>)

  /**
   * What a command body does when called with the message and the arguments:
   * for a `Task`-returning body, the outcome of awaiting it.
   */
  type HandlerRun = (CommandInfo, Message, seq<string>) -> HandlerOutcome

  function Handle(commands: Commands, msg: Message, permissionOf: string -> PermissionLevel, run: HandlerRun): (r: Effects)
    ensures |r.replies| <= 1 && |r.invoked| <= 1
    ensures r.log != [] <==> r.invoked != []
  {
    match Decide(commands, msg, permissionOf)
    case Ignored => Effects([], [], [])
    case Unregistered(_) => Effects([], [], [])
    case Denied(_) => Effects([Reply(msg.senderId, NoPermissionReply)], [], [])
    case UnknownCommand(_) => Effects([Reply(msg.senderId, UnknownCommandReply)], [], [])
    case Run(info, cmd, args) =>
      var started := [Info("Executing command: " + cmd)];
      var call := Invocation(info, msg, args);
      match run(info, msg, args)
      case Completed => Effects([], started, [call])
      case Failed(e) =>
        Effects([Reply(msg.senderId, "Error: " + e)],
                started + [Info("whatHuh"), Error(FailureLogText(msg.senderId, cmd), e)],
                [call])
  }

  /** The `Error` entries of a log, in order. */
  function ErrorEntries(log: seq<LogEntry>): (r: seq<LogEntry>)
    ensures |r| <= |log|
    ensures forall e {:trigger e in r} :: e in r <==> e in log && e.Error?
    ensures |r| == |log| <==> forall i :: 0 <= i < |log| ==> log[i].Error?
  {
    if log == [] then []
    else if log[0].Error? then [log[0]] + ErrorEntries(log[1..])
    else ErrorEntries(log[1..])
  }

  /** Filtering a log in two parts keeps the order: the first part's errors, then the second's. */
  lemma {:induction false} ErrorEntriesAppend(a: seq<LogEntry>, b: seq<LogEntry>)
    ensures ErrorEntries(a + b) == ErrorEntries(a) + ErrorEntries(b)
  {
    if a == [] {
      assert a + b == b;
    } else {
      ErrorEntriesStep(a, b);
      ErrorEntriesAppend(a[1..], b);
    }
  }

  /** One step of the filter on `a` and on `a + b`: the head is kept iff it is an error. */
  lemma ErrorEntriesStep(a: seq<LogEntry>, b: seq<LogEntry>)
    requires a != []
    ensures ErrorEntries(a) == (if a[0].Error? then [a[0]] else []) + ErrorEntries(a[1..])
    ensures ErrorEntries(a + b) == (if a[0].Error? then [a[0]] else []) + ErrorEntries(a[1..] + b)
  {
    assert (a + b)[0] == a[0];
    assert (a + b)[1..] == a[1..] + b;
  }

  /** A message that is not a `Text` message starting with "/" produces nothing at all. */
  lemma NonCommandIgnored(commands: Commands, msg: Message, permissionOf: string -> PermissionLevel, run: HandlerRun)
    requires !IsCommandText(msg)
    ensures Handle(commands, msg, permissionOf, run) == Effects([], [], [])
  {
  }

  /** A command token missing from the dictionary gives no reply, no log line and runs nothing. */
  lemma UnregisteredIsSilent(commands: Commands, msg: Message, permissionOf: string -> PermissionLevel, run: HandlerRun)
    requires IsCommandText(msg)
    requires CommandName(Tokenize(msg.content)) !in commands
    ensures Decide(commands, msg, permissionOf) == Unregistered(CommandName(Tokenize(msg.content)))
    ensures Handle(commands, msg, permissionOf, run) == Effects([], [], [])
  {
  }

  /** No message whatsoever is answered with "Unknown command". */
  lemma UnknownCommandUnreachable(commands: Commands, msg: Message, permissionOf: string -> PermissionLevel, run: HandlerRun)
    ensures !Decide(commands, msg, permissionOf).UnknownCommand?
    ensures forall r :: r in Handle(commands, msg, permissionOf, run).replies ==> r.text != UnknownCommandReply
  {
    var d := Decide(commands, msg, permissionOf);
    if d.Run? {
      var outcome := run(d.info, msg, d.args);
      if outcome.Failed? {
        assert ("Error: " + outcome.error)[0] == 'E';
      }
    }
  }

  /**
   * A body runs exactly when the message is a command whose token is in the
   * dictionary and whose level is at most the sender's; it then runs once,
   * with the registered command and the arguments after the token.
   */
  lemma HandlerRunsIffPermitted(commands: Commands, msg: Message, permissionOf: string -> PermissionLevel, run: HandlerRun)
    ensures var e := Handle(commands, msg, permissionOf, run);
            |e.invoked| > 0 <==>
              && IsCommandText(msg)
              && CommandName(Tokenize(msg.content)) in commands
              && commands[CommandName(Tokenize(msg.content))].level <= permissionOf(msg.senderId)
    ensures var e := Handle(commands, msg, permissionOf, run);
            |e.invoked| > 0 ==>
              var t := Tokenize(msg.content);
              e.invoked == [Invocation(commands[CommandName(t)], msg, t.args)]
  {
  }

  /**
   * A registered command above the sender's level is answered with exactly
   * the no-permission reply, and nothing runs and nothing is logged.
   */
  lemma PermissionDenied(commands: Commands, msg: Message, permissionOf: string -> PermissionLevel, run: HandlerRun)
    requires IsCommandText(msg)
    requires CommandName(Tokenize(msg.content)) in commands
    requires commands[CommandName(Tokenize(msg.content))].level > permissionOf(msg.senderId)
    ensures Handle(commands, msg, permissionOf, run) == Effects([Reply(msg.senderId, NoPermissionReply)], [], [])
  {
  }

  /**
   * A failing body leaves exactly one `Error` log entry naming the sender
   * and the command, and exactly one reply, "Error: " followed by the
   * failure's message. Synchronous and `Task`-returning bodies share the
   * same `run` outcome, so this covers both kinds.
   */
  lemma HandlerFailureReported(commands: Commands, msg: Message, permissionOf: string -> PermissionLevel, run: HandlerRun)
    requires Decide(commands, msg, permissionOf).Run?
    requires run(Decide(commands, msg, permissionOf).info, msg, Decide(commands, msg, permissionOf).args).Failed?
    ensures var d := Decide(commands, msg, permissionOf);
            var e := Handle(commands, msg, permissionOf, run);
            var error := run(d.info, msg, d.args).error;
            && e.replies == [Reply(msg.senderId, "Error: " + error)]
            && ErrorEntries(e.log) == [Error(FailureLogText(msg.senderId, d.cmd), error)]
            && |e.invoked| == 1
  {
    var d := Decide(commands, msg, permissionOf);
    var error := run(d.info, msg, d.args).error;
    var log := Handle(commands, msg, permissionOf, run).log;
    assert |log| == 3 && !log[0].Error? && !log[1].Error? && log[2].Error?;
    assert log[1..][1..][1..] == [];
    assert ErrorEntries(log) == ErrorEntries(log[1..]) == ErrorEntries(log[1..][1..]);
  }

  /** A body that completes leaves no reply and no `Error` entry: the body answers for itself. */
  lemma HandlerSuccessSilent(commands: Commands, msg: Message, permissionOf: string -> PermissionLevel, run: HandlerRun)
    requires Decide(commands, msg, permissionOf).Run?
    requires run(Decide(commands, msg, permissionOf).info, msg, Decide(commands, msg, permissionOf).args).Completed?
    ensures Handle(commands, msg, permissionOf, run).replies == []
    ensures ErrorEntries(Handle(commands, msg, permissionOf, run).log) == []
  {
    var log := Handle(commands, msg, permissionOf, run).log;
    assert log[1..] == [];
  }

  /** One waiter of the pending-response table (a `TaskCompletionSource`). */
  type Waiter = nat

  /** Waiter `waiter` was completed with `message`. */
  datatype Fulfilment = Fulfilment(waiter: Waiter, message: Message)

  /**
   * The process-wide state of `MessageCommands`: the command dictionary, the
   * table of pending responses keyed by conversation (one per sender), and
   * what the pipeline has observably done so far.
   */
  class Dispatcher {
    var commands: Commands
    var responseTasks: map<string, Waiter>
    var nextWaiter: Waiter
    var fulfilled: seq<Fulfilment>
    var outbox: seq<Reply>
    var log: seq<LogEntry>
    var invocations: seq<Invocation>
    /** `OnMessageReceived` is subscribed to the message stream (`HookIntoMessages`). */
    var hooked: bool

    /**
     * Waiters are created once each; a waiter in the table has not been
     * completed yet; no waiter sits under two keys; and no waiter has been
     * completed twice.
     */
    ghost predicate Valid()
      reads this`responseTasks, this`nextWaiter, this`fulfilled
    {
      && (forall k :: k in responseTasks ==> responseTasks[k] < nextWaiter)
      && (forall k1, k2 :: k1 in responseTasks && k2 in responseTasks && k1 != k2 ==>
            responseTasks[k1] != responseTasks[k2])
      && (forall i :: 0 <= i < |fulfilled| ==> fulfilled[i].waiter < nextWaiter)
      && (forall i, k :: 0 <= i < |fulfilled| && k in responseTasks ==> fulfilled[i].waiter != responseTasks[k])
      && (forall i, j :: 0 <= i < j < |fulfilled| ==> fulfilled[i].waiter != fulfilled[j].waiter)
    }

    constructor ()
      ensures Valid()
      ensures commands == map[] && responseTasks == map[] && nextWaiter == 0
      ensures fulfilled == [] && outbox == [] && log == [] && invocations == []
      ensures !hooked
    {
      commands := map[];
      responseTasks := map[];
      nextWaiter := 0;
      fulfilled := [];
      outbox := [];
      log := [];
      invocations := [];
      hooked := false;
    }

    /**
     * Fills the dictionary, command by command: the lower-cased name, then
     * each lower-cased alias. `ok` is false when some key was already present
     * (the `Dictionary.Add` that throws): the entries added before it stay,
     * and the message handler is not subscribed. Only a fill that completes
     * goes on to hook `OnMessageReceived` into the message stream.
     */
    method Init(infos: seq<CommandInfo>) returns (ok: bool)
      requires Valid()
      modifies this`commands, this`hooked
      ensures Valid()
      ensures ok <==> Register(old(commands), infos).Some?
      ensures ok ==> commands == Register(old(commands), infos).value
      ensures hooked == (old(hooked) || ok)
      ensures forall k :: k in old(commands) ==> k in commands && commands[k] == old(commands)[k]
      ensures forall k :: k in commands && k !in old(commands) ==> commands[k] in infos
    {
      var i := 0;
      while i < |infos|
        invariant 0 <= i <= |infos|
        invariant Register(old(commands), infos) == Register(commands, infos[i..])
        invariant hooked == old(hooked)
        invariant forall k :: k in old(commands) ==> k in commands && commands[k] == old(commands)[k]
        invariant forall k :: k in commands && k !in old(commands) ==> commands[k] in infos
      {
        assert infos[i..][1..] == infos[i + 1..];
        var added := AddCommand(infos[i]);
        if !added {
          return false;
        }
        i := i + 1;
      }
      hooked := true;
      return true;
    }

    /**
     * Adds one command: its lower-cased name, then each lower-cased alias.
     * `ok` is false at the first key already present; the keys added before
     * it stay.
     */
    method AddCommand(info: CommandInfo) returns (ok: bool)
      modifies this`commands
      ensures ok <==> AddKeys(old(commands), Names(info), info).Some?
      ensures ok ==> commands == AddKeys(old(commands), Names(info), info).value
      ensures forall k :: k in old(commands) ==> k in commands && commands[k] == old(commands)[k]
      ensures forall k :: k in commands && k !in old(commands) ==> commands[k] == info
    {
      assert Names(info)[1..] == info.aliases;
      var cmdName := Lower(info.name);
      if cmdName in commands {
        return false;
      }
      commands := commands[cmdName := info];
      var j := 0;
      while j < |info.aliases|
        invariant 0 <= j <= |info.aliases|
        invariant AddKeys(old(commands), Names(info), info) == AddKeys(commands, info.aliases[j..], info)
        invariant forall k :: k in old(commands) ==> k in commands && commands[k] == old(commands)[k]
        invariant forall k :: k in commands && k !in old(commands) ==> commands[k] == info
      {
        assert info.aliases[j..][1..] == info.aliases[j + 1..];
        var alias := Lower(info.aliases[j]);
        if alias in commands {
          return false;
        }
        commands := commands[alias := info];
        j := j + 1;
      }
      return true;
    }

    /**
     * Registers a waiter for the next message of conversation `key`. A waiter
     * already under `key` is replaced and will never be completed.
     */
    method AwaitResponse(key: string) returns (w: Waiter)
      requires Valid()
      modifies this`responseTasks, this`nextWaiter
      ensures Valid()
      ensures w == old(nextWaiter) && nextWaiter == w + 1
      ensures responseTasks == old(responseTasks)[key := w]
      ensures forall i :: 0 <= i < |fulfilled| ==> fulfilled[i].waiter != w
    {
      w := nextWaiter;
      responseTasks := responseTasks[key := w];
      nextWaiter := nextWaiter + 1;
    }

    /**
     * Handles one inbound message. A waiter for the sender's conversation is
     * taken out of the table and then completed with the message, and nothing
     * else happens; otherwise the table stays as it was and the message goes
     * through the command pipeline.
     */
    method OnMessageReceived(msg: Message, permissionOf: string -> PermissionLevel, run: HandlerRun)
      requires Valid() && hooked
      modifies this`responseTasks, this`fulfilled, this`outbox, this`log, this`invocations
      ensures Valid()
      ensures msg.senderId in old(responseTasks) ==>
                && responseTasks == old(responseTasks) - {msg.senderId}
                && fulfilled == old(fulfilled) + [Fulfilment(old(responseTasks)[msg.senderId], msg)]
                && outbox == old(outbox) && log == old(log) && invocations == old(invocations)
      ensures msg.senderId !in old(responseTasks) ==>
                && responseTasks == old(responseTasks) && fulfilled == old(fulfilled)
                && var e := Handle(commands, msg, permissionOf, run);
                   && outbox == old(outbox) + e.replies
                   && log == old(log) + e.log
                   && invocations == old(invocations) + e.invoked
    {
      var key := msg.senderId;
      if key in responseTasks {
        var waiter := responseTasks[key];
        responseTasks := responseTasks - {key};
        fulfilled := fulfilled + [Fulfilment(waiter, msg)];
        return;
      }
      Dispatch(msg, permissionOf, run);
    }

    /**
     * The command pipeline for a message no waiter claimed: tokenise, look
     * up, check the permission, then run the body inside its catch.
     */
    method Dispatch(msg: Message, permissionOf: string -> PermissionLevel, run: HandlerRun)
      modifies this`outbox, this`log, this`invocations
      ensures var e := Handle(commands, msg, permissionOf, run);
              && outbox == old(outbox) + e.replies
              && log == old(log) + e.log
              && invocations == old(invocations) + e.invoked
    {
      var key := msg.senderId;
      match Decide(commands, msg, permissionOf)
      case Ignored =>
      case Unregistered(_) =>
      case Denied(_) =>
        outbox := outbox + [Reply(key, NoPermissionReply)];
      case UnknownCommand(_) =>
        // The source's "Unknown command" reply sits here; `Decide` answers
        // `Unregistered` for a missing token first, so this case is dead.
        assert false;
      case Run(info, cmd, args) =>
        log := log + [Info("Executing command: " + cmd)];
        invocations := invocations + [Invocation(info, msg, args)];
        var outcome := run(info, msg, args);
        if outcome.Failed? {
          log := log + [Info("whatHuh"), Error(FailureLogText(key, cmd), outcome.error)];
          outbox := outbox + [Reply(key, "Error: " + outcome.error)];
        }
    }
  }

  /** A list whose contents are changed in place. */
  class StringList {
    var items: seq<string>

    constructor (items: seq<string>)
      ensures this.items == items
    {
      this.items := items;
    }
  }

  /** The world start-up parameters, as far as auto-invites go. */
  class WorldStartupParameters {
    var autoInviteUsernames: StringList?

    constructor (autoInviteUsernames: StringList?)
      ensures this.autoInviteUsernames == autoInviteUsernames
    {
      this.autoInviteUsernames := autoInviteUsernames;
    }
  }

  /**
   * Before a world starts: hands a copy of the auto-invite list to the code
   * that runs after start-up and empties the list itself, so that the engine
   * sends no invites of its own. With no list, hands over nothing.
   */
  method Prefix(info: WorldStartupParameters) returns (state: Option<seq<string>>)
    modifies info.autoInviteUsernames
    ensures info.autoInviteUsernames == null ==> state == None
    ensures info.autoInviteUsernames != null ==>
              && state == Some(old(info.autoInviteUsernames.items))
              && info.autoInviteUsernames.items == []
  {
    if info.autoInviteUsernames == null {
      return None;
    }
    state := Some(info.autoInviteUsernames.items);
    info.autoInviteUsernames.items := [];
  }
}
