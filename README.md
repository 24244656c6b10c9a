# HeadlessTweaks message commands, modelled in Dafny

This project models the text-command pipeline of the HeadlessTweaks headless-server mod:

- **the command dictionary** that `MessageCommands.Init` fills. Every command's lower-cased name and every lower-cased alias become keys. A key that is already present makes `Dictionary.Add` throw, and start-up fails.
- **`OnMessageReceived`**, which handles each inbound message in a fixed order:
  1. It offers the message to the pending-response table `responseTasks`. This table maps a conversation (one per sender) to one waiter. A waiter that is present is removed first and then completed with the message, and nothing else happens.
  2. Otherwise, a `Text` message starting with `/` is split on single spaces, and its first token, without the `/` and lower-cased, is looked up.
  3. The command is gated on the sender's permission level.
  4. The command body runs inside a catch. It is awaited when it returns a `Task`. Any failure becomes one `Error` log entry and the reply `"Error: " + message`.
- **`Prefix`**, which hands a copy of the auto-invite list to the post-start code and empties the list.
- **the decision logic of four common commands**: `/help` (one command's details, or the listing), `/optOut` (toggling the sender in the opt-out list), `/reqInvite` (choosing a world by name, session id or index) and `/worlds` (the numbered list of joinable worlds).

Files:
- `Strings.dfy`: `ToLower` (ASCII), `Split(' ')` (empty pieces kept), `string.Join` and decimal rendering, with split/join round-trip lemmas in both directions.
- `Types.dfy`: the command attribute (`CommandInfo`), messages, worlds, replies and log entries.
- `Registry.dfy`: the dictionary fill as functions, with its success condition and its contents.
- `MessageCommands.dfy`:
  - the pure tokenise/lookup/permission decision (`Decide`) and its effects (`Handle`);
  - the `Dispatcher` class, holding the dictionary, the pending-response table and the reply, log and invocation streams, whose methods change them in place;
  - `Prefix`.
- `CommonCommands.dfy`: the command bodies' logic.

Behaviour of the code worth noting:

- **"Unknown command" is never sent.** The dispatcher returns silently when the token is not in the dictionary (`MessageCommands.cs:100`), before the "Unknown command" branch (`MessageCommands.cs:108-112`). That branch is kept in `Decide` and proved unreachable. An unknown command produces no reply.
- **A failed start-up keeps a partial dictionary, but never dispatches with it.** When a name collides, the entries added before the collision remain; the registry is not rolled back. The throw also skips the Harmony patch and `RunPostInit(HookIntoMessages)` (`MessageCommands.cs:46-52`), so `OnMessageReceived` is never subscribed. In the model, only a successful `Init` sets `hooked`, and `OnMessageReceived` requires it.
- **`/reqInvite` does not trim the world name.** The result of `worldName.Trim()` (`CommonCommands.cs:161`) is discarded, so the name matched is the untrimmed argument text.
- **`/worlds` and `/reqInvite` can number worlds differently.** `/worlds` numbers only the worlds the sender can join. `/reqInvite <n>` indexes all non-userspace worlds. The two agree when the sender can join every such world, provided no world's raw name or session id is the typed number (`WorldsIndexSelectsSameWorld`): `/reqInvite` matches by name first, so a world named "0" wins over index 0 (`WorldNameShadowsIndex`). When some world cannot be joined, they can differ (`WorldsIndexCanDiffer`).

External services are parameters of the model:
- `GetUserPermissionLevel` is `permissionOf: string -> PermissionLevel`.
- `CanUserJoin` is `canJoin: (World, string) -> bool`.
- `int.TryParse` is `parseInt: string -> Option<int>`.
- Running a command body (awaiting it when it is asynchronous) is `run: HandlerRun`, which yields `Completed` or `Failed(message)`.
- The focused world is a parameter of `/reqInvite`.

Replies are appended to an outbox, log lines to a log. A completed waiter is recorded as `Fulfilment(waiter, message)`.

## Model

| member | source | states |
|---|---|---|
| `MessageCommands.Dispatcher.Init` | HeadlessTweaks/MessageCommands.cs:33-52 | fills the dictionary in place, name then aliases per command; succeeds exactly when the functional fill `Register` does, and then holds exactly its result; on failure the old entries stay and every added entry is one of the commands; the message handler is hooked exactly when the fill completes |
| `MessageCommands.Dispatcher.AddCommand` | HeadlessTweaks/MessageCommands.cs:35-43 | adds one command's lower-cased name, then each lower-cased alias, in place; succeeds exactly when the functional `AddKeys` does and then holds exactly its result; on failure the old entries stay and every added entry is this command |
| `Registry.InitSucceedsIffDistinct` | HeadlessTweaks/MessageCommands.cs:33-44 | from the empty dictionary, construction succeeds iff the list of lower-cased names and aliases has no repeated key |
| `Registry.RegisterSucceeds` | HeadlessTweaks/MessageCommands.cs:37-42 | the fill fails iff some key repeats or is already present (the throwing `Dictionary.Add`) |
| `Registry.RegisterResult` | HeadlessTweaks/MessageCommands.cs:35-42 | after a successful fill, every command's lower-cased name and each lower-cased alias map to that command; old entries are kept; no other key is added |
| `Registry.AddKeysSucceeds` | HeadlessTweaks/MessageCommands.cs:37-43 | adding one command's keys succeeds iff they are pairwise distinct after lower-casing and none is present |
| `Registry.AddKeysResult` | HeadlessTweaks/MessageCommands.cs:37-43 | adding one command's keys keeps old entries and maps each new key to the command |
| `Registry.KeyListLowercase` | HeadlessTweaks/MessageCommands.cs:35-42 | every dictionary key is already lower case |
| `Registry.ResolveAnyCasing` | HeadlessTweaks/MessageCommands.cs:35-42 | any casing of a command's name or alias, lower-cased, resolves to that command |
| `MessageCommands.Dispatcher.AwaitResponse` | HeadlessTweaks/MessageCommands.cs:22 | registers a new, never-completed waiter under a conversation key, replacing any earlier one |
| `MessageCommands.Dispatcher.OnMessageReceived` | HeadlessTweaks/MessageCommands.cs:55-139 | runs only once a successful start-up has hooked it; a waiter for the sender is removed and then completed with the message, the rest of the table and all outputs unchanged; with no waiter the table is unchanged and replies, log and runs grow by exactly `Handle`'s effects; every waiter is completed at most once |
| `MessageCommands.Dispatcher.Dispatch` | HeadlessTweaks/MessageCommands.cs:84-139 | for an unclaimed message, the replies, log and runs grow by exactly `Handle`'s effects, in the order the pipeline produces them |
| `MessageCommands.Tokenize` | HeadlessTweaks/MessageCommands.cs:89-91 | the head token starts with "/" and no token holds a space; `TokenizeRoundTrip` and `TokenizeJoined` show it is the inverse of joining with single spaces |
| `MessageCommands.Decide` | HeadlessTweaks/MessageCommands.cs:84-112 | a message is ignored iff it is not a `Text` message starting with "/"; the "Unknown command" decision is never taken; a run always names the lower-cased token's registered command at a level the sender has; `UnregisteredIsSilent`, `PermissionDenied` and `HandlerRunsIffPermitted` give the other cases |
| `MessageCommands.Handle` | HeadlessTweaks/MessageCommands.cs:84-139 | at most one reply and at most one body run per message, and log lines exactly when a body runs; `HandlerFailureReported` and `HandlerSuccessSilent` give the two outcomes |
| `MessageCommands.TokenizeRoundTrip` | HeadlessTweaks/MessageCommands.cs:89-91 | joining the head token and the arguments with single spaces gives back the message text |
| `MessageCommands.TokenizeJoined` | HeadlessTweaks/MessageCommands.cs:89-91 | space-free head and arguments joined with spaces tokenise back into the same head and arguments in order |
| `MessageCommands.NonCommandIgnored` | HeadlessTweaks/MessageCommands.cs:84-87 | a message that is not `Text` or does not start with "/" produces no reply, no log line and runs nothing |
| `MessageCommands.UnregisteredIsSilent` | HeadlessTweaks/MessageCommands.cs:94-100 | a command token missing from the dictionary produces no reply, no log line and runs nothing |
| `MessageCommands.UnknownCommandUnreachable` | HeadlessTweaks/MessageCommands.cs:94-112 | the "Unknown command" decision is never taken and no reply is ever "Unknown command" |
| `MessageCommands.HandlerRunsIffPermitted` | HeadlessTweaks/MessageCommands.cs:94-131 | a body runs iff the token is registered and its level is at most the sender's; then it runs once with the registered command and the tokens after the command token |
| `MessageCommands.PermissionDenied` | HeadlessTweaks/MessageCommands.cs:102-106 | a registered command above the sender's level yields exactly the no-permission reply and nothing else |
| `MessageCommands.HandlerFailureReported` | HeadlessTweaks/MessageCommands.cs:116-139 | a failing body of either kind yields exactly one `Error` log entry naming sender and command, and exactly the reply "Error: " + message |
| `MessageCommands.HandlerSuccessSilent` | HeadlessTweaks/MessageCommands.cs:116-132 | a body that completes leaves no dispatcher reply and no `Error` entry |
| `MessageCommands.Prefix` | HeadlessTweaks/MessageCommands.cs:147-156 | with a list, the saved state is a copy of its old contents and the same list object is emptied; without one, the state is null |
| `MessageCommands.ErrorEntries` | HeadlessTweaks/MessageCommands.cs:137 | holds exactly the `Error` entries of the log, and is the whole log iff every entry is an error |
| `MessageCommands.ErrorEntriesAppend` | HeadlessTweaks/MessageCommands.cs:137 | the error entries of two log parts are those of the first followed by those of the second, so order and count are kept |
| `CommonCommands.Help` | HeadlessTweaks/MsgCommands/CommonCommands.cs:31-115 | "Command 'x' not found" alike for a missing command and one above the sender's level; otherwise "/" + canonical name + " " + usage, description, "Category: ", then "Aliases:" and "/" + each alias in order; the listing shows each canonical entry the sender may use exactly once and no other entry |
| `CommonCommands.ListingNamesEachCommandOnce` | HeadlessTweaks/MsgCommands/CommonCommands.cs:87-90 | in a dictionary built by the start-up fill, two different listed keys belong to different commands, so the alias filter lists each command at most once |
| `CommonCommands.HelpAgreesWithDispatch` | HeadlessTweaks/MsgCommands/CommonCommands.cs:37-52 | `/help x` shows details iff dispatching "/x" for the same sender would run the command |
| `CommonCommands.ListedCommandRuns` | HeadlessTweaks/MsgCommands/CommonCommands.cs:87-100 | every listed lower-case, space-free key, typed as "/key", dispatches to that command for the same sender |
| `CommonCommands.RemoveFirst` | HeadlessTweaks/MsgCommands/CommonCommands.cs:126 | removes one occurrence of the id (none if absent), keeping the rest of the list |
| `CommonCommands.OptOut` | HeadlessTweaks/MsgCommands/CommonCommands.cs:121-133 | the list becomes the toggle of the sender; reply "Opted in to auto-invites" when it was present, "Opted out of auto-invites" otherwise |
| `CommonCommands.ToggleKeepsOthers` | HeadlessTweaks/MsgCommands/CommonCommands.cs:124-133 | no other id's membership or number of occurrences changes |
| `CommonCommands.RemoveFirstAt` | HeadlessTweaks/MsgCommands/CommonCommands.cs:126 | exactly the first occurrence of the id is removed, the rest of the list kept in order |
| `CommonCommands.Toggle` | HeadlessTweaks/MsgCommands/CommonCommands.cs:123-133 | afterwards the sender is in the list unless it was there exactly once; `ToggleKeepsOthers`, `ToggleFlips` and `ToggleTwice` say the rest |
| `CommonCommands.ToggleFlips` | HeadlessTweaks/MsgCommands/CommonCommands.cs:124-133 | on a list without repeats the sender's membership flips and the list stays without repeats |
| `CommonCommands.ToggleTwice` | HeadlessTweaks/MsgCommands/CommonCommands.cs:124-133 | on a list without repeats, toggling twice restores the contents, and the exact list when the sender started opted in |
| `CommonCommands.NonUserspace` | HeadlessTweaks/MsgCommands/CommonCommands.cs:162 | keeps exactly the worlds other than the userspace world |
| `CommonCommands.NonUserspaceAppend` | HeadlessTweaks/MsgCommands/CommonCommands.cs:162-175 | the filter keeps list order and multiplicity (it distributes over concatenation, and a single world stays iff it is not the userspace world), so `/reqInvite <n>` counts in session-list order |
| `CommonCommands.FirstMatch` | HeadlessTweaks/MsgCommands/CommonCommands.cs:164 | the index of the first world whose raw name or session id equals the name; none when no world matches |
| `CommonCommands.SelectWorld` | HeadlessTweaks/MsgCommands/CommonCommands.cs:153-181 | only a call with arguments can fail to select, and with arguments only a non-userspace world of the list is selected; `ReqInviteFocused`, `SelectByName` and `SelectFallback` give each stage |
| `CommonCommands.ReqInvite` | HeadlessTweaks/MsgCommands/CommonCommands.cs:151-193 | an invite goes only to a world the sender can join, and only to the focused world or a non-userspace world of the list; `InviteOnlyIfJoinable` gives the refusal |
| `CommonCommands.ReqInviteFocused` | HeadlessTweaks/MsgCommands/CommonCommands.cs:154-157 | with no arguments the focused world is asked for, whatever list it is in: invited if the sender can join it, otherwise "You can't join " + its name |
| `CommonCommands.SelectByName` | HeadlessTweaks/MsgCommands/CommonCommands.cs:154-164 | the first non-userspace world matching the joined arguments by raw name or session id is selected |
| `CommonCommands.SelectFallback` | HeadlessTweaks/MsgCommands/CommonCommands.cs:165-181 | with no match: an in-range number selects that index; out of range replies "World index out of range"; a non-number replies "No world found with the name " + name |
| `CommonCommands.SelectedIsCandidate` | HeadlessTweaks/MsgCommands/CommonCommands.cs:160-181 | with arguments, a selected world is always a non-userspace world of the list |
| `CommonCommands.InviteOnlyIfJoinable` | HeadlessTweaks/MsgCommands/CommonCommands.cs:184-192 | an invite is sent iff the selected world can be joined; otherwise the reply is "You can't join " + name |
| `CommonCommands.Worlds` | HeadlessTweaks/MsgCommands/CommonCommands.cs:227-237 | line i is "[i] " followed by the summary of the i-th joinable non-userspace world, numbered 0, 1, 2, ... |
| `CommonCommands.Joinable` | HeadlessTweaks/MsgCommands/CommonCommands.cs:231 | never longer than the session list; `JoinableMembers` gives its members and `JoinableAppend` its order |
| `Strings.NatToStringInjective` | HeadlessTweaks/MsgCommands/CommonCommands.cs:233 | different numbers render differently, so the "[i]" labels of `/worlds` never repeat |
| `CommonCommands.JoinableAppend` | HeadlessTweaks/MsgCommands/CommonCommands.cs:230-235 | the `/worlds` filter keeps list order and multiplicity, so the numbering follows the session list |
| `CommonCommands.JoinableMembers` | HeadlessTweaks/MsgCommands/CommonCommands.cs:231 | the listed worlds are exactly the non-userspace worlds the sender can join |
| `CommonCommands.JoinableWhenAllJoinable` | HeadlessTweaks/MsgCommands/CommonCommands.cs:231 | if every non-userspace world is joinable, `/worlds` lists exactly the non-userspace worlds |
| `CommonCommands.WorldsIndexSelectsSameWorld` | HeadlessTweaks/MsgCommands/CommonCommands.cs:167-175 | if every world is joinable and no world's raw name or session id is the typed number, the number `/worlds` shows selects the same world in `/reqInvite` |
| `CommonCommands.WorldNameShadowsIndex` | HeadlessTweaks/MsgCommands/CommonCommands.cs:164-175 | with every world joinable, a world named by the typed number is invited instead of the world `/worlds` shows under that number |
| `CommonCommands.WorldsIndexCanDiffer` | HeadlessTweaks/MsgCommands/CommonCommands.cs:230-235 | with an unjoinable world first and neither world named by the number, `/worlds` shows the second as [0] but `/reqInvite 0` refuses the first |

## Left out

- Network and messaging I/O are not modelled:
  - the `HubClient == null` early return and the awaited `MarkMessagesRead` (`MessageCommands.cs:62-70`);
  - `SendTextMessage`, `SendInviteMessage` and `BatchMessageHelper`, which are replaced by returned or appended reply strings, so how replies are batched into messages is not modelled.
- Reflection is replaced by an explicit list of `CommandInfo` values: command discovery, `GetCustomAttribute` and `Delegate.CreateDelegate`. The source's `ReturnType == typeof(Task)` choice becomes the `kind` field. Awaiting an asynchronous body surfaces its failure exactly as a synchronous throw, so both kinds run through the same `run` outcome. A body whose signature does not fit the delegate is not modelled.
- Concurrency is not modelled. Messages are handled one at a time, and the resumption of a completed waiter is recorded as a `Fulfilment` value.
- The code that registers waiters in `responseTasks` is not part of this model. `AwaitResponse` stands for it and assumes a new waiter replaces an existing entry for the key.
- `Postfix` is not modelled: it is a `Task.Run` over friend lookups and network sends. Harmony patching and engine hooks are left out too.
- Not modelled: the world-changing command bodies (`PlayTestSound`, `SpawnBox`, `ExplodeTest`, `MakeUserBigger`, `MakeUserSmaller`, `MySetUserScale`, `MonopackTest`, `MonopackFoldersTest`), together with `GetSessionOrb` (its `GetWorldOrUserWorld` is not part of this model), `FindUserFromUserMessagesOrArgs`, `MarkAllRead`, `Owo`, `ThrowError` and `ThrowErrorAsync`. The last two are covered generically by `run` returning `Failed`.
- Saving the configuration (`config.Set`, `Save`) after `/optOut` is not modelled.
- `ReqInvite`'s `AllowUserToJoin` and the invite it sends are represented by the `Invited(world)` result. A null focused world is not modelled.
- Several behaviours are left abstract:
  - `GetUserPermissionLevel`, `CanUserJoin` and `int.TryParse` are parameters;
  - `ToLower` is ASCII-only, not culture-aware;
  - the help listing's order is whatever the dictionary enumerates, and is not stated;
  - the `PermissionLevel` enum is a natural number with the same order.
- CommonCommands.ToggleFlips: assumes the opt-out list has no repeated id. With a repeat, `List.Remove` drops only one occurrence and the sender stays in the list; `Toggle`'s own contract and `ToggleKeepsOthers` hold regardless.
- CommonCommands.ToggleTwice: assumes the opt-out list has no repeated id, like `ToggleFlips`. With a repeat, the first toggle removes one copy, the second removes another, and the contents are not restored.
