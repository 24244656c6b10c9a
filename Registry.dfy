/**
 * The command dictionary that `MessageCommands.Init` fills: every command's
 * lower-cased name, then each of its lower-cased aliases, is added with
 * `Dictionary.Add`, which throws on a key that is already present. These
 * functions are the specification of that fill; `Dispatcher.Init` runs it in
 * place.
 */
module Registry {
  import opened Wrappers
  import opened Strings
  import opened Types

  type Commands = map<string, CommandInfo>

  /** The names a command is registered under: its name, then its aliases in order. */
  function Names(info: CommandInfo): seq<string>
  {
    [info.name] + info.aliases
  }

  function LowerAll(names: seq<string>): (r: seq<string>)
    ensures |r| == |names|
    ensures forall i :: 0 <= i < |names| ==> r[i] == Lower(names[i])
  {
    if names == [] then [] else [Lower(names[0])] + LowerAll(names[1..])
  }

  /** Every key the fill adds, in the order it adds them. */
  function KeyList(infos: seq<CommandInfo>): seq<string>
  {
    if infos == [] then [] else LowerAll(Names(infos[0])) + KeyList(infos[1..])
  }

  predicate NoDuplicates(s: seq<string>)
  {
    forall i, j :: 0 <= i < j < |s| ==> s[i] != s[j]
  }

  /** Adds one command under each of `names`, lower-cased; `None` when a key is already taken. */
  function AddKeys(m: Commands, names: seq<string>, info: CommandInfo): Option<Commands>
    decreases |names|
  {
    if names == [] then Some(m)
    else
      var key := Lower(names[0]);
      if key in m then None else AddKeys(m[key := info], names[1..], info)
  }

  /** Adds every command in order; `None` as soon as one `Add` would throw. */
  function Register(m: Commands, infos: seq<CommandInfo>): Option<Commands>
    decreases |infos|
  {
    if infos == [] then Some(m)
    else
      match AddKeys(m, Names(infos[0]), infos[0])
      case None => None
      case Some(m1) => Register(m1, infos[1..])
  }

  lemma NoDuplicatesAppend(a: seq<string>, b: seq<string>)
    ensures NoDuplicates(a + b) <==> NoDuplicates(a) && NoDuplicates(b) && forall k :: k in a ==> k !in b
  {
    if NoDuplicates(a) && NoDuplicates(b) && forall k :: k in a ==> k !in b {
      forall i, j | 0 <= i < j < |a + b| ensures (a + b)[i] != (a + b)[j] {
        if j < |a| {
        } else if i >= |a| {
          assert (a + b)[i] == b[i - |a|] && (a + b)[j] == b[j - |a|];
        } else {
          assert (a + b)[i] == a[i] && (a + b)[j] == b[j - |a|];
          assert a[i] in a && b[j - |a|] in b;
        }
      }
    }
    if NoDuplicates(a + b) {
      forall i, j | 0 <= i < j < |a| ensures a[i] != a[j] {
        assert (a + b)[i] == a[i] && (a + b)[j] == a[j];
      }
      forall k | k in a ensures k !in b {
        var i :| 0 <= i < |a| && a[i] == k;
        forall j | 0 <= j < |b| ensures b[j] != k {
          assert (a + b)[i] == a[i] && (a + b)[|a| + j] == b[j];
        }
      }
      forall i, j | 0 <= i < j < |b| ensures b[i] != b[j] {
        assert (a + b)[|a| + i] == b[i] && (a + b)[|a| + j] == b[j];
      }
    }
  }

  /** Adding under `names` succeeds exactly when their lower-cased forms are distinct and all new. */
  lemma {:induction false} AddKeysSucceeds(m: Commands, names: seq<string>, info: CommandInfo)
    ensures AddKeys(m, names, info).Some? <==>
              NoDuplicates(LowerAll(names)) && forall k :: k in LowerAll(names) ==> k !in m
    decreases |names|
  {
    if names != [] {
      var key := Lower(names[0]);
      assert LowerAll(names) == [key] + LowerAll(names[1..]);
      NoDuplicatesAppend([key], LowerAll(names[1..]));
      if key !in m {
        AddKeysSucceeds(m[key := info], names[1..], info);
      }
    }
  }

  /** A successful add keeps every old entry and maps each new key to `info`. */
  lemma {:induction false} AddKeysResult(m: Commands, names: seq<string>, info: CommandInfo, r: Commands)
    requires AddKeys(m, names, info) == Some(r)
    ensures forall k :: k in r <==> k in m || k in LowerAll(names)
    ensures forall k :: k in m ==> r[k] == m[k]
    ensures forall k :: k in LowerAll(names) ==> r[k] == info
    decreases |names|
  {
    if names != [] {
      var key := Lower(names[0]);
      assert LowerAll(names) == [key] + LowerAll(names[1..]);
      AddKeysResult(m[key := info], names[1..], info, r);
    }
  }

  /**
   * The fill succeeds exactly when no key repeats and no key is already
   * present; otherwise some `Dictionary.Add` throws.
   */
  lemma {:induction false} RegisterSucceeds(m: Commands, infos: seq<CommandInfo>)
    ensures Register(m, infos).Some? <==>
              NoDuplicates(KeyList(infos)) && forall k :: k in KeyList(infos) ==> k !in m
    decreases |infos|
  {
    if infos != [] {
      var first := LowerAll(Names(infos[0]));
      NoDuplicatesAppend(first, KeyList(infos[1..]));
      AddKeysSucceeds(m, Names(infos[0]), infos[0]);
      match AddKeys(m, Names(infos[0]), infos[0])
      case None =>
      case Some(m1) =>
        AddKeysResult(m, Names(infos[0]), infos[0], m1);
        RegisterSucceeds(m1, infos[1..]);
    }
  }

  /** Starting from the empty dictionary, construction fails exactly on a repeated key. */
  lemma InitSucceedsIffDistinct(infos: seq<CommandInfo>)
    ensures Register(map[], infos).Some? <==> NoDuplicates(KeyList(infos))
  {
    RegisterSucceeds(map[], infos);
  }

  /**
   * A successful fill holds exactly the old keys and the new ones, keeps the
   * old entries, and maps every command's lower-cased name and aliases to it.
   */
  lemma {:induction false} RegisterResult(m: Commands, infos: seq<CommandInfo>, r: Commands)
    requires Register(m, infos) == Some(r)
    ensures forall k :: k in r <==> k in m || k in KeyList(infos)
    ensures forall k :: k in m ==> r[k] == m[k]
    ensures forall i, j :: 0 <= i < |infos| && 0 <= j < |Names(infos[i])| ==>
              Lower(Names(infos[i])[j]) in r && r[Lower(Names(infos[i])[j])] == infos[i]
    decreases |infos|
  {
    if infos != [] {
      AddKeysSucceeds(m, Names(infos[0]), infos[0]);
      var m1 := AddKeys(m, Names(infos[0]), infos[0]).value;
      AddKeysResult(m, Names(infos[0]), infos[0], m1);
      RegisterResult(m1, infos[1..], r);
      forall i, j | 0 <= i < |infos| && 0 <= j < |Names(infos[i])|
        ensures Lower(Names(infos[i])[j]) in r && r[Lower(Names(infos[i])[j])] == infos[i]
      {
        if i == 0 {
          assert Lower(Names(infos[0])[j]) == LowerAll(Names(infos[0]))[j];
        } else {
          assert infos[i] == infos[1..][i - 1];
        }
      }
    }
  }

  /** Every key of the fill is already in lower case. */
  lemma {:induction false} KeyListLowercase(infos: seq<CommandInfo>)
    ensures forall k :: k in KeyList(infos) ==> Lower(k) == k
  {
    if infos != [] {
      forall k | k in LowerAll(Names(infos[0])) ensures Lower(k) == k {
        var j :| 0 <= j < |LowerAll(Names(infos[0]))| && LowerAll(Names(infos[0]))[j] == k;
        LowerIdempotent(Names(infos[0])[j]);
      }
      KeyListLowercase(infos[1..]);
    }
  }

  /**
   * Resolution is case-insensitive: any spelling `t` of a command's name or
   * of one of its aliases, lower-cased as the dispatcher does, finds that command.
   */
  lemma ResolveAnyCasing(infos: seq<CommandInfo>, r: Commands, i: nat, j: nat, t: string)
    requires Register(map[], infos) == Some(r)
    requires i < |infos| && j < |Names(infos[i])|
    requires Lower(t) == Lower(Names(infos[i])[j])
    ensures Lower(t) in r && r[Lower(t)] == infos[i]
  {
    RegisterResult(map[], infos, r);
  }
}
