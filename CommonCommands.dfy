/**
 * The decision logic inside the common command bodies: `/help` (one
 * command's details, or the listing), `/optOut` (toggle membership of the
 * auto-invite opt-out list), `/reqInvite` (choose a world by name, session id
 * or index) and `/worlds` (numbered list of joinable worlds).
 */
module CommonCommands {
  import opened Wrappers
  import opened Strings
  import opened Types
  import opened Registry
  import MessageCommands

  // ---------------------------------------------------------------- /help

  function NotFoundReply(commandStr: string): string
  {
    "Command '" + commandStr + "' not found"
  }

  /** `/help x` shows details exactly when x names a command (in any case) the sender may use. */
  predicate HelpFinds(commands: Commands, commandStr: string, senderLevel: PermissionLevel)
  {
    Lower(commandStr) in commands && commands[Lower(commandStr)].level <= senderLevel
  }

  /** The listing shows an entry whose key is its command's own name (not an alias) and that the sender may use. */
  predicate Listed(commands: Commands, senderLevel: PermissionLevel, key: string)
  {
    key in commands && Lower(commands[key].name) == Lower(key) && commands[key].level <= senderLevel
  }

  function ListingLine(info: CommandInfo): string
  {
    info.name + " - " + info.description
      + (if |info.aliases| > 0 then "\nAliases: " + Join(", ", info.aliases) else "")
  }

  /**
   * `/help` with arguments: the details of the command named by the first
   * one, or "not found" both when it is missing and when it is above the
   * sender's level. Without arguments: one line per canonical entry the
   * sender may use, in the dictionary's enumeration order, which is left
   * open; `shown` are the keys listed.
   */
  method Help(commands: Commands, args: seq<string>, senderLevel: PermissionLevel)
    returns (lines: seq<string>, shown: seq<string>)
    ensures |args| > 0 ==> shown == []
    ensures |args| > 0 && !HelpFinds(commands, args[0], senderLevel) ==> lines == [NotFoundReply(args[0])]
    ensures |args| > 0 && HelpFinds(commands, args[0], senderLevel) ==>
              var info := commands[Lower(args[0])];
              && |lines| == 3 + (if |info.aliases| > 0 then 1 + |info.aliases| else 0)
              && lines[0] == "/" + info.name + " " + info.usage
              && lines[1] == info.description
              && lines[2] == "Category: " + info.category
              && (|info.aliases| > 0 ==>
                    && lines[3] == "Aliases:"
                    && forall j :: 0 <= j < |info.aliases| ==> lines[4 + j] == "/" + info.aliases[j])
    ensures |args| == 0 ==>
              && NoDuplicates(shown)
              && (forall k :: k in shown <==> Listed(commands, senderLevel, k))
              && |lines| == |shown|
              && forall i :: 0 <= i < |shown| ==> shown[i] in commands && lines[i] == ListingLine(commands[shown[i]])
  {
    shown := [];
    if |args| > 0 {
      var commandStr := args[0];
      var key := Lower(commandStr);
      if key !in commands {
        lines := [NotFoundReply(commandStr)];
        return;
      }
      var info := commands[key];
      if senderLevel < info.level {
        lines := [NotFoundReply(commandStr)];
        return;
      }
      lines := ["/" + info.name + " " + info.usage, info.description, "Category: " + info.category];
      if |info.aliases| > 0 {
        lines := lines + ["Aliases:"];
        var j := 0;
        while j < |info.aliases|
          invariant 0 <= j <= |info.aliases|
          invariant |lines| == 4 + j
          invariant lines[0] == "/" + info.name + " " + info.usage
          invariant lines[1] == info.description
          invariant lines[2] == "Category: " + info.category
          invariant lines[3] == "Aliases:"
          invariant forall m :: 0 <= m < j ==> lines[4 + m] == "/" + info.aliases[m]
        {
          lines := lines + ["/" + info.aliases[j]];
          j := j + 1;
        }
      }
      return;
    }
    // Alias entries are dropped and entries above the sender's level skipped
    // in the same pass over the dictionary.
    var remaining := commands.Keys;
    lines := [];
    while remaining != {}
      invariant remaining <= commands.Keys
      invariant NoDuplicates(shown)
      invariant forall k :: k in shown ==> k !in remaining && Listed(commands, senderLevel, k)
      invariant forall k :: k in commands && k !in remaining && Listed(commands, senderLevel, k) ==> k in shown
      invariant |lines| == |shown|
      invariant forall i :: 0 <= i < |shown| ==> shown[i] in commands && lines[i] == ListingLine(commands[shown[i]])
      decreases remaining
    {
      var key :| key in remaining;
      remaining := remaining - {key};
      var info := commands[key];
      if Lower(info.name) == Lower(key) && info.level <= senderLevel {
        shown := shown + [key];
        lines := lines + [ListingLine(info)];
      }
    }
  }

  /**
   * In a dictionary built by the start-up fill, two different listed keys
   * belong to two different commands: the listing names every command at
   * most once, whatever its aliases.
   */
  lemma ListingNamesEachCommandOnce(infos: seq<CommandInfo>, commands: Commands, senderLevel: PermissionLevel,
                                    k1: string, k2: string)
    requires Register(map[], infos) == Some(commands)
    requires Listed(commands, senderLevel, k1) && Listed(commands, senderLevel, k2) && k1 != k2
    ensures commands[k1] != commands[k2]
  {
    RegisterResult(map[], infos, commands);
    KeyListLowercase(infos);
  }

  /**
   * `/help x` and the command "/x" agree: for a token without spaces, help
   * shows the details exactly when dispatch would run the command for the
   * same sender.
   */
  lemma HelpAgreesWithDispatch(commands: Commands, x: string, msg: Types.Message,
                               permissionOf: string -> PermissionLevel)
    requires ' ' !in x
    requires msg.messageType == Text && msg.content == "/" + x
    ensures MessageCommands.Decide(commands, msg, permissionOf).Run? <==>
              HelpFinds(commands, x, permissionOf(msg.senderId))
  {
    assert ' ' !in msg.content;
    SplitWithoutSep(msg.content, ' ');
    assert msg.content[1..] == x;
  }

  /** Every entry of the listing is a command the sender can run by typing "/" and its key. */
  lemma ListedCommandRuns(commands: Commands, key: string, msg: Types.Message,
                          permissionOf: string -> PermissionLevel)
    requires Listed(commands, permissionOf(msg.senderId), key)
    requires ' ' !in key && Lower(key) == key
    requires msg.messageType == Text && msg.content == "/" + key
    ensures MessageCommands.Decide(commands, msg, permissionOf) == MessageCommands.Run(commands[key], key, [])
  {
    assert ' ' !in msg.content;
    SplitWithoutSep(msg.content, ' ');
    assert msg.content[1..] == key;
  }

  // -------------------------------------------------------------- /optOut

  /** `List.Remove`: drops the first occurrence of `id`, if any. */
  function RemoveFirst(ids: seq<string>, id: string): (r: seq<string>)
    ensures id !in ids ==> r == ids
    ensures multiset(r) == multiset(ids) - multiset{id}
  {
    if ids == [] then []
    else
      assert ids == [ids[0]] + ids[1..];
      if ids[0] == id then ids[1..]
      else [ids[0]] + RemoveFirst(ids[1..], id)
  }

  /**
   * Exactly the first occurrence goes: when `ids[i]` is the first `id`, the
   * result is the list without position `i`, the rest in the same order.
   */
  lemma {:induction false} RemoveFirstAt(ids: seq<string>, id: string, i: nat)
    requires i < |ids| && ids[i] == id
    requires forall j :: 0 <= j < i ==> ids[j] != id
    ensures RemoveFirst(ids, id) == ids[..i] + ids[i + 1..]
  {
    if i == 0 {
      assert ids[..0] + ids[1..] == ids[1..];
    } else {
      var tail := ids[1..];
      forall j | 0 <= j < i - 1 ensures tail[j] != id {
        assert tail[j] == ids[j + 1];
      }
      RemoveFirstAt(tail, id, i - 1);
      RemoveFirstCons(ids, id);
      SpliceAfterHead(ids, i);
    }
  }

  /** Removing position `i` of `ids` is keeping the head and removing position `i - 1` of the tail. */
  lemma SpliceAfterHead(ids: seq<string>, i: nat)
    requires 0 < i < |ids|
    ensures [ids[0]] + (ids[1..][..i - 1] + ids[1..][i..]) == ids[..i] + ids[i + 1..]
  {
    assert ids[1..][..i - 1] == ids[1..i];
    assert ids[1..][i..] == ids[i + 1..];
    assert ids[..i] == [ids[0]] + ids[1..i];
  }

  /** Past a head that is not `id`, removal goes on in the tail. */
  lemma RemoveFirstCons(ids: seq<string>, id: string)
    requires |ids| > 0 && ids[0] != id
    ensures RemoveFirst(ids, id) == [ids[0]] + RemoveFirst(ids[1..], id)
  {
  }

  /** The opt-out list after `/optOut` from `id`: removed when present, appended otherwise. */
  function Toggle(ids: seq<string>, id: string): (r: seq<string>)
    ensures id in r <==> multiset(ids)[id] != 1
  {
    if id in ids then
      var r := RemoveFirst(ids, id);
      assert multiset(r)[id] == multiset(ids)[id] - 1;
      r
    else ids + [id]
  }

  /** The auto-invite opt-out list of the configuration, changed in place. */
  class OptOutList {
    var ids: seq<string>

    constructor (ids: seq<string>)
      ensures this.ids == ids
    {
      this.ids := ids;
    }
  }

  method OptOut(list: OptOutList, senderId: string) returns (reply: string)
    modifies list
    ensures list.ids == Toggle(old(list.ids), senderId)
    ensures reply == if senderId in old(list.ids) then "Opted in to auto-invites" else "Opted out of auto-invites"
  {
    if senderId in list.ids {
      list.ids := RemoveFirst(list.ids, senderId);
      reply := "Opted in to auto-invites";
    } else {
      list.ids := list.ids + [senderId];
      reply := "Opted out of auto-invites";
    }
  }

  /** Toggling never changes how often any other id occurs in the list. */
  lemma ToggleKeepsOthers(ids: seq<string>, id: string, other: string)
    requires other != id
    ensures multiset(Toggle(ids, id))[other] == multiset(ids)[other]
    ensures other in Toggle(ids, id) <==> other in ids
  {
  }

  /** On a list without repeats, toggling flips the sender's membership and keeps the list free of repeats. */
  lemma {:induction false} ToggleFlips(ids: seq<string>, id: string)
    requires NoDuplicates(ids)
    ensures id in Toggle(ids, id) <==> id !in ids
    ensures NoDuplicates(Toggle(ids, id))
  {
    var r := Toggle(ids, id);
    if id in ids {
      assert multiset(ids)[id] == 1 by { NoDuplicatesCountOne(ids, id); }
      assert multiset(r)[id] == 0;
      CountAtMostOneNoDuplicates(r, ids);
    } else {
      forall i, j | 0 <= i < j < |r| ensures r[i] != r[j] {
        if j == |ids| { assert r[i] == ids[i]; assert ids[i] in ids; }
        else { assert r[i] == ids[i] && r[j] == ids[j]; }
      }
    }
  }

  /** Toggling twice restores the list's contents; from "not opted out" it restores the list exactly. */
  lemma ToggleTwice(ids: seq<string>, id: string)
    requires NoDuplicates(ids)
    ensures multiset(Toggle(Toggle(ids, id), id)) == multiset(ids)
    ensures id !in ids ==> Toggle(Toggle(ids, id), id) == ids
  {
    ToggleFlips(ids, id);
    if id !in ids {
      RemoveLast(ids, id);
    }
  }

  lemma {:induction false} RemoveLast(ids: seq<string>, id: string)
    requires id !in ids
    ensures RemoveFirst(ids + [id], id) == ids
  {
    if ids != [] {
      AppendAfterHead(ids, id);
      RemoveFirstCons(ids + [id], id);
      RemoveLast(ids[1..], id);
    }
  }

  /** Head and tail of a list with one element appended. */
  lemma AppendAfterHead(ids: seq<string>, id: string)
    requires ids != []
    ensures (ids + [id])[0] == ids[0]
    ensures (ids + [id])[1..] == ids[1..] + [id]
    ensures [ids[0]] + ids[1..] == ids
  {
  }

  lemma {:induction false} NoDuplicatesCountOne(ids: seq<string>, id: string)
    requires NoDuplicates(ids) && id in ids
    ensures multiset(ids)[id] == 1
  {
    var tail := ids[1..];
    assert multiset(ids) == multiset{ids[0]} + multiset(tail) by {
      assert ids == [ids[0]] + tail;
    }
    assert NoDuplicates(tail) by {
      forall a, b | 0 <= a < b < |tail| ensures tail[a] != tail[b] {
        assert tail[a] == ids[a + 1] && tail[b] == ids[b + 1];
      }
    }
    if ids[0] == id {
      assert id !in tail by {
        forall b | 0 <= b < |tail| ensures tail[b] != id {
          assert tail[b] == ids[b + 1];
        }
      }
    } else {
      NoDuplicatesCountOne(tail, id);
    }
  }

  /** A list whose counts are at most those of a list without repeats has no repeats. */
  lemma CountAtMostOneNoDuplicates(r: seq<string>, ids: seq<string>)
    requires NoDuplicates(ids)
    requires multiset(r) <= multiset(ids)
    ensures NoDuplicates(r)
  {
    forall i, j | 0 <= i < j < |r| ensures r[i] != r[j] {
      if r[i] == r[j] {
        assert r == r[..i] + [r[i]] + r[i + 1..j] + [r[j]] + r[j + 1..];
        assert multiset(r)[r[i]] >= 2;
        assert r[i] in ids by { assert r[i] in multiset(ids); }
        NoDuplicatesCountOne(ids, r[i]);
        assert false;
      }
    }
  }

  // ----------------------------------------------------------- /reqInvite

  /** The worlds other than the userspace world, in order. */
  function NonUserspace(worlds: seq<World>): (r: seq<World>)
    ensures |r| <= |worlds|
    ensures forall w {:trigger w in r} :: w in r <==> w in worlds && !w.isUserspace
  {
    if worlds == [] then []
    else
      var last := worlds[|worlds| - 1];
      assert worlds == worlds[..|worlds| - 1] + [last];
      NonUserspace(worlds[..|worlds| - 1]) + (if last.isUserspace then [] else [last])
  }

  /**
   * The filter keeps order and multiplicity: a single world stays exactly
   * when it is not the userspace world, and filtering a concatenation
   * concatenates the filtered parts, so `/reqInvite <n>` counts in list order.
   */
  lemma {:induction false} NonUserspaceAppend(a: seq<World>, b: seq<World>)
    ensures NonUserspace(a + b) == NonUserspace(a) + NonUserspace(b)
    ensures |a| == 1 ==> NonUserspace(a) == (if a[0].isUserspace then [] else a)
    decreases |b|
  {
    if |a| == 1 {
      assert [] + [a[0]] == a;
      NonUserspaceSnoc([], a[0]);
    }
    if b == [] {
      assert a + b == a;
    } else {
      var init, last := b[..|b| - 1], b[|b| - 1];
      assert b == init + [last];
      assert a + b == (a + init) + [last];
      NonUserspaceSnoc(a + init, last);
      NonUserspaceSnoc(init, last);
      NonUserspaceAppend(a, init);
    }
  }

  /** One step of the filter from the back: the last world is kept iff it is not the userspace world. */
  lemma NonUserspaceSnoc(init: seq<World>, w: World)
    ensures NonUserspace(init + [w]) == NonUserspace(init) + (if w.isUserspace then [] else [w])
  {
    assert (init + [w])[..|init|] == init;
  }

  predicate NameMatches(w: World, name: string)
  {
    w.rawName == name || w.sessionId == name
  }

  /** The index of the first world whose raw name or session id is `name`. */
  function FirstMatch(ws: seq<World>, name: string): (r: Option<nat>)
    ensures r.Some? ==> r.value < |ws| && NameMatches(ws[r.value], name)
    ensures r.Some? ==> forall j :: 0 <= j < r.value ==> !NameMatches(ws[j], name)
    ensures r.None? ==> forall j :: 0 <= j < |ws| ==> !NameMatches(ws[j], name)
  {
    if ws == [] then None
    else if NameMatches(ws[0], name) then Some(0)
    else match FirstMatch(ws[1..], name)
      case None => None
      case Some(i) => Some(i + 1)
  }

  datatype Selection = Selected(world: World) | NotSelected(reply: string)

  /**
   * The world `/reqInvite` picks: the focused world without arguments;
   * otherwise the first non-userspace world named by the arguments joined
   * with spaces (untrimmed), else that text read as an index into the
   * non-userspace worlds.
   */
  function SelectWorld(worlds: seq<World>, focused: World, args: seq<string>,
                       parseInt: string -> Option<int>): (r: Selection)
    ensures r.NotSelected? ==> |args| > 0
    ensures |args| > 0 && r.Selected? ==> r.world in worlds && !r.world.isUserspace
  {
    if |args| < 1 then Selected(focused)
    else
      var worldName := Join(" ", args);
      var candidates := NonUserspace(worlds);
      match FirstMatch(candidates, worldName)
      case Some(i) => assert candidates[i] in candidates; Selected(candidates[i])
      case None =>
        match parseInt(worldName)
        case Some(n) =>
          if n < 0 || n >= |candidates| then NotSelected("World index out of range")
          else assert candidates[n] in candidates; Selected(candidates[n])
        case None => NotSelected("No world found with the name " + worldName)
  }

  /** Either the sender was allowed in and sent an invite to `world`, or got `reply`. */
  datatype InviteResult = Invited(world: World) | Refused(reply: string)

  function ReqInvite(worlds: seq<World>, focused: World, args: seq<string>, senderId: string,
                     canJoin: (World, string) -> bool, parseInt: string -> Option<int>): (r: InviteResult)
    ensures r.Invited? ==> canJoin(r.world, senderId)
    ensures r.Invited? ==> r.world == focused || (r.world in worlds && !r.world.isUserspace)
  {
    match SelectWorld(worlds, focused, args, parseInt)
    case NotSelected(reply) => Refused(reply)
    case Selected(w) => if !canJoin(w, senderId) then Refused("You can't join " + w.name) else Invited(w)
  }

  /** Without arguments the focused world is the one asked for, whatever list it is in. */
  lemma ReqInviteFocused(worlds: seq<World>, focused: World, senderId: string,
                         canJoin: (World, string) -> bool, parseInt: string -> Option<int>)
    ensures ReqInvite(worlds, focused, [], senderId, canJoin, parseInt) ==
              (if canJoin(focused, senderId) then Invited(focused) else Refused("You can't join " + focused.name))
  {
  }

  /** The first non-userspace world whose raw name or session id is the joined arguments is the one picked. */
  lemma SelectByName(worlds: seq<World>, focused: World, args: seq<string>, parseInt: string -> Option<int>, i: nat)
    requires |args| > 0
    requires i < |NonUserspace(worlds)| && NameMatches(NonUserspace(worlds)[i], Join(" ", args))
    requires forall j :: 0 <= j < i ==> !NameMatches(NonUserspace(worlds)[j], Join(" ", args))
    ensures SelectWorld(worlds, focused, args, parseInt) == Selected(NonUserspace(worlds)[i])
  {
  }

  /** With arguments, whatever is picked is a non-userspace world of the list. */
  lemma SelectedIsCandidate(worlds: seq<World>, focused: World, args: seq<string>, parseInt: string -> Option<int>)
    requires |args| > 0
    requires SelectWorld(worlds, focused, args, parseInt).Selected?
    ensures SelectWorld(worlds, focused, args, parseInt).world in worlds
    ensures !SelectWorld(worlds, focused, args, parseInt).world.isUserspace
  {
  }

  /**
   * With no matching name, a numeric text selects the non-userspace world at
   * that index when it is in range and replies "World index out of range"
   * otherwise; a non-numeric text replies that no world has that name.
   */
  lemma SelectFallback(worlds: seq<World>, focused: World, args: seq<string>, parseInt: string -> Option<int>)
    requires |args| > 0
    requires forall w :: w in worlds && !w.isUserspace ==> !NameMatches(w, Join(" ", args))
    ensures var s := SelectWorld(worlds, focused, args, parseInt);
            var ws := NonUserspace(worlds);
            match parseInt(Join(" ", args))
            case Some(n) =>
              if 0 <= n < |ws| then s == Selected(ws[n]) else s == NotSelected("World index out of range")
            case None => s == NotSelected("No world found with the name " + Join(" ", args))
  {
  }

  /** An invite is sent exactly for a selected world the sender can join; every other case only replies. */
  lemma InviteOnlyIfJoinable(worlds: seq<World>, focused: World, args: seq<string>, senderId: string,
                             canJoin: (World, string) -> bool, parseInt: string -> Option<int>, w: World)
    ensures ReqInvite(worlds, focused, args, senderId, canJoin, parseInt) == Invited(w) <==>
              SelectWorld(worlds, focused, args, parseInt) == Selected(w) && canJoin(w, senderId)
    ensures SelectWorld(worlds, focused, args, parseInt) == Selected(w) && !canJoin(w, senderId) ==>
              ReqInvite(worlds, focused, args, senderId, canJoin, parseInt) == Refused("You can't join " + w.name)
  {
  }

  // -------------------------------------------------------------- /worlds

  /** The non-userspace worlds `senderId` can join, in order. */
  function Joinable(worlds: seq<World>, senderId: string, canJoin: (World, string) -> bool): (r: seq<World>)
    ensures |r| <= |worlds|
  {
    if worlds == [] then []
    else
      var last := worlds[|worlds| - 1];
      assert worlds == worlds[..|worlds| - 1] + [last];
      Joinable(worlds[..|worlds| - 1], senderId, canJoin)
        + (if !last.isUserspace && canJoin(last, senderId) then [last] else [])
  }

  /** The joinable list holds exactly the non-userspace worlds the sender can join. */
  lemma {:induction false} JoinableMembers(worlds: seq<World>, senderId: string, canJoin: (World, string) -> bool)
    ensures forall w :: w in Joinable(worlds, senderId, canJoin) <==> w in worlds && !w.isUserspace && canJoin(w, senderId)
  {
    if worlds != [] {
      var last := worlds[|worlds| - 1];
      assert worlds == worlds[..|worlds| - 1] + [last];
      JoinableMembers(worlds[..|worlds| - 1], senderId, canJoin);
    }
  }

  /**
   * The `/worlds` filter keeps order and multiplicity too: the numbering
   * follows the session list.
   */
  lemma {:induction false} JoinableAppend(a: seq<World>, b: seq<World>, senderId: string, canJoin: (World, string) -> bool)
    ensures Joinable(a + b, senderId, canJoin) == Joinable(a, senderId, canJoin) + Joinable(b, senderId, canJoin)
    ensures |a| == 1 ==>
              Joinable(a, senderId, canJoin) == (if !a[0].isUserspace && canJoin(a[0], senderId) then a else [])
    decreases |b|
  {
    if |a| == 1 {
      assert [] + [a[0]] == a;
      JoinableSnoc([], a[0], senderId, canJoin);
    }
    if b == [] {
      assert a + b == a;
    } else {
      var init, last := b[..|b| - 1], b[|b| - 1];
      assert b == init + [last];
      assert a + b == (a + init) + [last];
      JoinableSnoc(a + init, last, senderId, canJoin);
      JoinableSnoc(init, last, senderId, canJoin);
      JoinableAppend(a, init, senderId, canJoin);
    }
  }

  /** One step of the `/worlds` filter from the back. */
  lemma JoinableSnoc(init: seq<World>, w: World, senderId: string, canJoin: (World, string) -> bool)
    ensures Joinable(init + [w], senderId, canJoin) ==
              Joinable(init, senderId, canJoin) + (if !w.isUserspace && canJoin(w, senderId) then [w] else [])
  {
    assert (init + [w])[..|init|] == init;
  }

  function WorldSummary(w: World): string
  {
    w.name + " | " + NatToString(w.activeUserCount) + " (" + NatToString(w.userCount) + ") | " + w.accessLevel
  }

  /** Line `num` of `/worlds`: "[num] " followed by the world's summary. */
  function WorldLine(num: nat, w: World): string
  {
    "[" + NatToString(num) + "] " + WorldSummary(w)
  }

  /** `/worlds`: the joinable non-userspace worlds, numbered 0, 1, 2, ... in order. */
  method Worlds(worlds: seq<World>, senderId: string, canJoin: (World, string) -> bool)
    returns (lines: seq<string>)
    ensures |lines| == |Joinable(worlds, senderId, canJoin)|
    ensures forall i :: 0 <= i < |lines| ==>
              lines[i] == WorldLine(i, Joinable(worlds, senderId, canJoin)[i])
  {
    lines := [];
    var num := 0;
    var k := 0;
    ghost var shown: seq<World> := [];
    assert worlds[..0] == [];
    while k < |worlds|
      invariant 0 <= k <= |worlds|
      invariant shown == Joinable(worlds[..k], senderId, canJoin)
      invariant num == |lines| == |shown|
      invariant forall i :: 0 <= i < |lines| ==> lines[i] == WorldLine(i, shown[i])
    {
      var w := worlds[k];
      JoinableStep(worlds, k, senderId, canJoin);
      if !w.isUserspace && canJoin(w, senderId) {
        lines := lines + [WorldLine(num, w)];
        shown := shown + [w];
        num := num + 1;
      }
      k := k + 1;
    }
    assert worlds[..k] == worlds;
  }

  lemma JoinableStep(worlds: seq<World>, k: nat, senderId: string, canJoin: (World, string) -> bool)
    requires k < |worlds|
    ensures Joinable(worlds[..k + 1], senderId, canJoin) ==
              Joinable(worlds[..k], senderId, canJoin)
                + (if !worlds[k].isUserspace && canJoin(worlds[k], senderId) then [worlds[k]] else [])
  {
    assert worlds[..k + 1][..k] == worlds[..k];
  }

  /** When the sender can join every non-userspace world, the joinable list is the non-userspace list. */
  lemma {:induction false} JoinableWhenAllJoinable(worlds: seq<World>, senderId: string, canJoin: (World, string) -> bool)
    requires forall w :: w in worlds && !w.isUserspace ==> canJoin(w, senderId)
    ensures Joinable(worlds, senderId, canJoin) == NonUserspace(worlds)
  {
    if worlds != [] {
      var init := worlds[..|worlds| - 1];
      forall w | w in init && !w.isUserspace ensures canJoin(w, senderId) {
        assert w in worlds;
      }
      JoinableWhenAllJoinable(init, senderId, canJoin);
    }
  }

  /**
   * When the sender can join every non-userspace world, the number `/worlds`
   * shows in front of a world is an index `/reqInvite` accepts for it
   * (provided no world is itself named by that number).
   */
  lemma WorldsIndexSelectsSameWorld(worlds: seq<World>, focused: World, args: seq<string>, senderId: string,
                                    canJoin: (World, string) -> bool, parseInt: string -> Option<int>, i: nat)
    requires forall w :: w in worlds && !w.isUserspace ==> canJoin(w, senderId)
    requires |args| > 0
    requires forall w :: w in worlds && !w.isUserspace ==> !NameMatches(w, Join(" ", args))
    requires parseInt(Join(" ", args)) == Some(i)
    requires i < |Joinable(worlds, senderId, canJoin)|
    ensures ReqInvite(worlds, focused, args, senderId, canJoin, parseInt) == Invited(Joinable(worlds, senderId, canJoin)[i])
  {
    JoinableWhenAllJoinable(worlds, senderId, canJoin);
    SelectFallback(worlds, focused, args, parseInt);
    var w := NonUserspace(worlds)[i];
    assert w in NonUserspace(worlds);
  }

  /**
   * Otherwise the two numberings differ: with a world the sender cannot join
   * ahead of one it can, `/worlds` shows the second as [0], while
   * `/reqInvite 0` picks the first and replies that it cannot be joined.
   */
  lemma WorldsIndexCanDiffer(a: World, b: World, focused: World, args: seq<string>, senderId: string,
                             canJoin: (World, string) -> bool, parseInt: string -> Option<int>)
    requires !a.isUserspace && !b.isUserspace
    requires !canJoin(a, senderId) && canJoin(b, senderId)
    requires |args| > 0 && !NameMatches(a, Join(" ", args)) && !NameMatches(b, Join(" ", args))
    requires parseInt(Join(" ", args)) == Some(0)
    ensures Joinable([a, b], senderId, canJoin) == [b]
    ensures ReqInvite([a, b], focused, args, senderId, canJoin, parseInt) == Refused("You can't join " + a.name)
  {
    PairFilters(a, b, senderId, canJoin);
  }

  /** Both filters on a list of two non-userspace worlds. */
  lemma PairFilters(a: World, b: World, senderId: string, canJoin: (World, string) -> bool)
    requires !a.isUserspace && !b.isUserspace
    ensures NonUserspace([a, b]) == [a, b]
    ensures Joinable([a, b], senderId, canJoin) ==
              (if canJoin(a, senderId) then [a] else []) + (if canJoin(b, senderId) then [b] else [])
  {
    assert [a, b] == [a] + [b];
    assert [b] + [] == [b];
    NonUserspaceAppend([a], [b]);
    NonUserspaceAppend([b], []);
    JoinableAppend([a], [b], senderId, canJoin);
    JoinableAppend([b], [], senderId, canJoin);
  }

  /**
   * A world whose raw name or session id is the typed number wins over the
   * index: with both worlds joinable, `/worlds` shows `x` as [0], but
   * `/reqInvite 0` invites `y`, named "0".
   */
  lemma WorldNameShadowsIndex(x: World, y: World, focused: World, args: seq<string>, senderId: string,
                              canJoin: (World, string) -> bool, parseInt: string -> Option<int>)
    requires !x.isUserspace && !y.isUserspace
    requires canJoin(x, senderId) && canJoin(y, senderId)
    requires |args| > 0 && !NameMatches(x, Join(" ", args)) && NameMatches(y, Join(" ", args))
    requires parseInt(Join(" ", args)) == Some(0)
    ensures Joinable([x, y], senderId, canJoin) == [x, y]
    ensures ReqInvite([x, y], focused, args, senderId, canJoin, parseInt) == Invited(y)
  {
    PairFilters(x, y, senderId, canJoin);
  }
}
