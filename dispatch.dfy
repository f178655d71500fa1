/**
 * What the `Bot` of `ubotvk/bot.py` does with one update, as functions of its
 * state: the table, the list of known chats `_chats`, the index
 * `dict_feature_chats` (feature name to the chats it is on in) and a log of
 * the calls made into features.  `BotRuntime.Bot` carries out the same steps
 * on mutable fields and is proved to end in the state computed here.
 */
module Dispatch {
  import opened Wrappers
  import opened Text
  import opened Utils
  import opened Store
  import opened Poll

  /** VK peer ids of group chats are the chat id plus this offset. */
  const CHAT_OFFSET: int := 2000000000

  /** The vocabulary `check_for_commands` hands to the parser. */
  const COMMANDS: seq<string> := ["add", "remove"]

  /** An installed feature as the dispatcher sees it. */
  datatype Feature = Feature(name: string, triggeredBy: set<int>, hasNewChatHook: bool)

  /** `vk_id`, the feature objects in `INSTALLED_FEATURES` order, and `DEFAULT_FEATURES`. */
  datatype Config = Config(vkId: nat, features: seq<Feature>, defaults: seq<string>)

  /** A call into a feature: `feature(update)` (which may raise a VkAPIError) or its `new_chat` hook. */
  datatype Call =
    | Invoked(feature: string, update: Update, raised: bool)
    | NewChatHook(feature: string, chat: int)

  /** The exceptions that escape `handle_update` and end the process. */
  datatype BotError =
    | StoreFailure(e: StoreError)   // raised by the table
    | MissingFeatureName            // IndexError: `command[0]` on an add/remove without argument
    | IndexValueError               // ValueError: `list.remove` of a chat missing from the index
    | PollFailure(p: LoopError)     // raised by `long_poll` or by `response['ts']`

  datatype BotState = BotState(rows: seq<Row>, chats: seq<int>, index: map<string, seq<int>>, log: seq<Call>)

  /** Either the bot goes on in a new state, or it has crashed, and only the table survives. */
  datatype Step = Running(state: BotState) | Crashed(error: BotError, rows: seq<Row>)

  function Installed(features: seq<Feature>): (r: seq<string>)
    ensures |r| == |features| && forall i :: 0 <= i < |features| ==> r[i] == features[i].name
  {
    seq(|features|, i requires 0 <= i < |features| => features[i].name)
  }

  /** The feature dict has one entry per name, and every default is installed (else `new_chat` hits a KeyError). */
  predicate ConfigValid(cfg: Config) {
    NoDup(Installed(cfg.features)) && forall f :: f in cfg.defaults ==> f in Installed(cfg.features)
  }

  /** The index has exactly the installed features as keys. */
  predicate Wired(cfg: Config, s: BotState) {
    ConfigValid(cfg) && s.index.Keys == set f | f in Installed(cfg.features)
  }

  lemma WiredNames(cfg: Config, s: BotState)
    requires Wired(cfg, s)
    ensures forall i :: 0 <= i < |cfg.features| ==> cfg.features[i].name in s.index
  {
    forall i | 0 <= i < |cfg.features| ensures cfg.features[i].name in s.index {
      assert Installed(cfg.features)[i] == cfg.features[i].name;
    }
  }

  /**
   * The invariant the bot keeps: a valid table, `_chats` listing each chat of
   * the table once, every indexed chat in the table, every persisted feature
   * indexed for its chat, and for a feature that is not a default, its index
   * list holding exactly the chats that persist it, once each.
   */
  ghost predicate StateValid(cfg: Config, s: BotState) {
    && Wired(cfg, s)
    && TableValid(s.rows)
    && NoDup(s.chats)
    && (forall x :: x in s.chats <==> HasChat(s.rows, x))
    && (forall f, x :: f in s.index && x in s.index[f] ==> HasChat(s.rows, x))
    && (forall f, x :: f in s.index && HasChat(s.rows, x) && f in Persisted(s.rows, x).value ==> x in s.index[f])
    && (forall f :: f in s.index && f !in cfg.defaults ==> NoDup(s.index[f]))
    && (forall f, x :: f in s.index && f !in cfg.defaults && x in s.index[f] ==>
          HasChat(s.rows, x) && f in Persisted(s.rows, x).value)
  }

  /** The state `__init__` builds from the table before the loop starts. */
  function InitState(cfg: Config, rows: seq<Row>): (s: BotState)
    ensures s.rows == rows && s.log == []
  {
    BotState(rows, Keys(rows), FeatureChats(rows, cfg.defaults, Installed(cfg.features)), [])
  }

  lemma InitValid(cfg: Config, rows: seq<Row>)
    requires ConfigValid(cfg) && TableValid(rows)
    ensures StateValid(cfg, InitState(cfg, rows))
  {
    var s := InitState(cfg, rows);
    forall f | f in s.index
      ensures forall x :: x in s.index[f] <==> HasChat(rows, x) && f in cfg.defaults + Persisted(rows, x).value
    {
      ChatsWithOfValid(rows, cfg.defaults, f);
    }
  }

  // ---------------------------------------------------------------------
  // new_chat
  // ---------------------------------------------------------------------

  /** `for feature in DEFAULT_FEATURES: dict_feature_chats[feature].append(chat)`. */
  function AppendDefaults(index: map<string, seq<int>>, fs: seq<string>, chat: int): (r: map<string, seq<int>>)
    requires forall f :: f in fs ==> f in index
    ensures r.Keys == index.Keys
  {
    if fs == [] then index
    else AppendDefaults(index[fs[0] := index[fs[0]] + [chat]], fs[1..], chat)
  }

  /** Exactly the default features' lists gain the chat; the others are left as they are. */
  lemma {:induction false} AppendDefaultsMembers(index: map<string, seq<int>>, fs: seq<string>, chat: int)
    requires forall f :: f in fs ==> f in index
    ensures forall f :: f in index && f !in fs ==> AppendDefaults(index, fs, chat)[f] == index[f]
    ensures forall f, x :: f in index ==>
      (x in AppendDefaults(index, fs, chat)[f] <==> x in index[f] || (f in fs && x == chat))
  {
    if fs != [] {
      AppendDefaultsMembers(index[fs[0] := index[fs[0]] + [chat]], fs[1..], chat);
    }
  }

  /** `for feature in self.features: feature.new_chat(chat)`, skipping features without the hook. */
  function HookCalls(features: seq<Feature>, chat: int): seq<Call>
  {
    if features == [] then []
    else
      var front := features[..|features| - 1];
      var last := features[|features| - 1];
      var before := HookCalls(front, chat);
      if last.hasNewChatHook then before + [NewChatHook(last.name, chat)] else before
  }

  /** The features that have a `new_chat` hook, in installed order. */
  function WithHook(features: seq<Feature>): (r: seq<Feature>)
    ensures forall f :: f in r <==> f in features && f.hasNewChatHook
    ensures InOrderOf(r, features)
  {
    if features == [] then []
    else
      var front := features[..|features| - 1];
      var last := features[|features| - 1];
      assert features == front + [last];
      var before := WithHook(front);
      InOrderGrow(before, front, last);
      InOrderSnoc(before, front, last);
      if last.hasNewChatHook then before + [last] else before
  }

  /** The kth call is the hook of the kth feature that has one, for the new chat: one call each, in order. */
  lemma {:induction false} HookCallsAreHooks(features: seq<Feature>, chat: int)
    ensures |HookCalls(features, chat)| == |WithHook(features)|
    ensures forall k :: 0 <= k < |HookCalls(features, chat)| ==>
      HookCalls(features, chat)[k] == NewChatHook(WithHook(features)[k].name, chat)
  {
    if features != [] {
      HookCallsAreHooks(features[..|features| - 1], chat);
    }
  }

  /** `new_chat`: a store row, the chat in `_chats` and in every default feature's list, then the hooks. */
  function NewChatState(cfg: Config, s: BotState, chat: int): (r: Step)
    requires Wired(cfg, s)
    ensures HasChat(s.rows, chat) ==> r == Crashed(StoreFailure(ChatAlreadyKnown), s.rows)
    ensures !HasChat(s.rows, chat) ==> r.Running? && r.state == BotState(
      s.rows + [Row(chat, [])], s.chats + [chat], AppendDefaults(s.index, cfg.defaults, chat),
      s.log + HookCalls(cfg.features, chat))
  {
    match AddChatRows(s.rows, chat)
    case Failure(e) => Crashed(StoreFailure(e), s.rows)
    case Success(rows) =>
      Running(BotState(rows, s.chats + [chat], AppendDefaults(s.index, cfg.defaults, chat),
                       s.log + HookCalls(cfg.features, chat)))
  }

  lemma NewChatKeepsValid(cfg: Config, s: BotState, chat: int)
    requires StateValid(cfg, s) && chat !in s.chats
    ensures NewChatState(cfg, s, chat).Running?
    ensures StateValid(cfg, NewChatState(cfg, s, chat).state)
  {
    var row := Row(chat, []);
    var t := NewChatState(cfg, s, chat).state;
    AppendDefaultsMembers(s.index, cfg.defaults, chat);
    AddChatKeepsValid(s.rows, chat);
    AppendedOthers(s.rows, row);
    forall x ensures HasChat(t.rows, x) <==> HasChat(s.rows, x) || x == chat {
      HasChatAppended(s.rows, row, x);
    }
    assert NoDup(t.chats) by {
      forall i, j | 0 <= i < j < |t.chats| ensures t.chats[i] != t.chats[j] {
        if j == |s.chats| {
          assert t.chats[i] == s.chats[i];
        } else {
          assert t.chats[i] == s.chats[i] && t.chats[j] == s.chats[j];
        }
      }
    }
  }

  /** After new_chat the chat is listed for exactly the default features. */
  lemma NewChatGetsDefaults(cfg: Config, s: BotState, chat: int, f: string)
    requires StateValid(cfg, s) && chat !in s.chats && f in s.index
    ensures chat in NewChatState(cfg, s, chat).state.index[f] <==> f in cfg.defaults
  {
    AppendDefaultsMembers(s.index, cfg.defaults, chat);
  }

  // ---------------------------------------------------------------------
  // command_add, command_remove, handle_command
  // ---------------------------------------------------------------------

  /**
   * `command_add(args, chat)`: nothing for a feature that is not installed;
   * otherwise the table first, and only if it accepts, the index.
   */
  function AddState(cfg: Config, s: BotState, args: seq<string>, chat: int): (r: Step)
    requires Wired(cfg, s)
    ensures |args| == 0 ==> r == Crashed(MissingFeatureName, s.rows)
    ensures |args| > 0 && args[0] !in Installed(cfg.features) ==> r == Running(s)
    ensures r.Crashed? ==> r.rows == s.rows
    ensures |args| > 0 && args[0] in Installed(cfg.features) && r.Running? ==>
      && AddFeatureRows(s.rows, chat, args[0]) == Success(r.state.rows)
      && r.state == s.(rows := r.state.rows, index := s.index[args[0] := s.index[args[0]] + [chat]])
    ensures |args| > 0 && args[0] in Installed(cfg.features) && r.Crashed? ==>
      AddFeatureRows(s.rows, chat, args[0]).Failure?
  {
    if |args| == 0 then Crashed(MissingFeatureName, s.rows)
    else
      var f := args[0];
      if f !in Installed(cfg.features) then Running(s)
      else
        match AddFeatureRows(s.rows, chat, f)
        case Failure(e) => Crashed(StoreFailure(e), s.rows)
        case Success(rows) => Running(s.(rows := rows, index := s.index[f := s.index[f] + [chat]]))
  }

  /**
   * `command_remove(args, chat)`: nothing for a feature that is not installed;
   * otherwise the table first, then the chat's first occurrence in the index.
   */
  function RemoveState(cfg: Config, s: BotState, args: seq<string>, chat: int): (r: Step)
    requires Wired(cfg, s)
    ensures |args| == 0 ==> r == Crashed(MissingFeatureName, s.rows)
    ensures |args| > 0 && args[0] !in Installed(cfg.features) ==> r == Running(s)
    ensures |args| > 0 && args[0] in Installed(cfg.features) && RemoveFeatureRows(s.rows, chat, args[0]).Failure? ==>
      r == Crashed(StoreFailure(RemoveFeatureRows(s.rows, chat, args[0]).error), s.rows)
    ensures |args| > 0 && args[0] in Installed(cfg.features) && r.Running? ==>
      && args[0] in s.index && chat in s.index[args[0]]
      && RemoveFeatureRows(s.rows, chat, args[0]) == Success(r.state.rows)
      && r.state == s.(rows := r.state.rows, index := s.index[args[0] := RemoveFirst(s.index[args[0]], chat)])
  {
    if |args| == 0 then Crashed(MissingFeatureName, s.rows)
    else
      var f := args[0];
      if !(f in Installed(cfg.features) && f in s.index) then Running(s)
      else
        match RemoveFeatureRows(s.rows, chat, f)
        case Failure(e) => Crashed(StoreFailure(e), s.rows)
        case Success(rows) =>
          if chat in s.index[f] then Running(s.(rows := rows, index := s.index[f := RemoveFirst(s.index[f], chat)]))
          else Crashed(IndexValueError, rows)
  }

  /** `handle_command`: routed on the first word; anything else is ignored. */
  function CommandState(cfg: Config, s: BotState, command: seq<string>, chat: int): (r: Step)
    requires Wired(cfg, s) && |command| > 0
    ensures command[0] == "add" ==> r == AddState(cfg, s, command[1..], chat)
    ensures command[0] == "remove" ==> r == RemoveState(cfg, s, command[1..], chat)
    ensures command[0] != "add" && command[0] != "remove" ==> r == Running(s)
    ensures r.Running? ==> r.state.chats == s.chats && r.state.log == s.log && r.state.index.Keys == s.index.Keys
  {
    if command[0] == "add" then AddState(cfg, s, command[1..], chat)
    else if command[0] == "remove" then RemoveState(cfg, s, command[1..], chat)
    else Running(s)
  }

  /**
   * Replacing one table row's list and one index entry keeps the invariant
   * when the two are changed in step.
   */
  lemma ReplaceKeepsValid(cfg: Config, s: BotState, rows: seq<Row>, f: string, chat: int, l: seq<int>)
    requires StateValid(cfg, s) && f in s.index && HasChat(s.rows, chat)
    requires TableValid(rows) && forall x :: HasChat(rows, x) <==> HasChat(s.rows, x)
    requires forall x :: x != chat ==> Persisted(rows, x) == Persisted(s.rows, x)
    requires forall g :: g != f && g in Persisted(s.rows, chat).value ==> g in Persisted(rows, chat).value
    requires forall g :: g in Persisted(rows, chat).value ==> g in Persisted(s.rows, chat).value || g == f
    requires forall x :: x in l ==> x in s.index[f] || x == chat
    requires forall x :: HasChat(s.rows, x) && f in Persisted(rows, x).value ==> x in l
    requires f !in cfg.defaults ==> NoDup(l) && forall x :: x in l ==> HasChat(rows, x) && f in Persisted(rows, x).value
    ensures StateValid(cfg, s.(rows := rows, index := s.index[f := l]))
  {
    var t := s.(rows := rows, index := s.index[f := l]);
    ReplaceIndexInTable(cfg, s, t, f, chat, l);
    ReplacePersistedIndexed(cfg, s, t, f, chat, l);
    ReplaceNonDefaultExact(cfg, s, t, f, chat, l);
    assert t.index.Keys == s.index.Keys;
  }

  lemma ReplaceIndexInTable(cfg: Config, s: BotState, t: BotState, f: string, chat: int, l: seq<int>)
    requires StateValid(cfg, s) && f in s.index && HasChat(s.rows, chat)
    requires t.index == s.index[f := l]
    requires forall x :: HasChat(t.rows, x) <==> HasChat(s.rows, x)
    requires forall x :: x in l ==> x in s.index[f] || x == chat
    ensures forall g, x :: g in t.index && x in t.index[g] ==> HasChat(t.rows, x)
  {
  }

  lemma ReplacePersistedIndexed(cfg: Config, s: BotState, t: BotState, f: string, chat: int, l: seq<int>)
    requires StateValid(cfg, s) && f in s.index && HasChat(s.rows, chat)
    requires t.index == s.index[f := l]
    requires forall x :: HasChat(t.rows, x) <==> HasChat(s.rows, x)
    requires forall x :: x != chat ==> Persisted(t.rows, x) == Persisted(s.rows, x)
    requires forall g :: g in Persisted(t.rows, chat).value ==> g in Persisted(s.rows, chat).value || g == f
    requires forall x :: HasChat(s.rows, x) && f in Persisted(t.rows, x).value ==> x in l
    ensures forall g, x :: g in t.index && HasChat(t.rows, x) && g in Persisted(t.rows, x).value ==> x in t.index[g]
  {
  }

  lemma ReplaceNonDefaultExact(cfg: Config, s: BotState, t: BotState, f: string, chat: int, l: seq<int>)
    requires StateValid(cfg, s) && f in s.index && HasChat(s.rows, chat)
    requires t.index == s.index[f := l]
    requires forall x :: HasChat(t.rows, x) <==> HasChat(s.rows, x)
    requires forall x :: x != chat ==> Persisted(t.rows, x) == Persisted(s.rows, x)
    requires forall g :: g != f && g in Persisted(s.rows, chat).value ==> g in Persisted(t.rows, chat).value
    requires f !in cfg.defaults ==> NoDup(l) && forall x :: x in l ==> HasChat(t.rows, x) && f in Persisted(t.rows, x).value
    ensures forall g :: g in t.index && g !in cfg.defaults ==> NoDup(t.index[g])
    ensures forall g, x :: g in t.index && g !in cfg.defaults && x in t.index[g] ==>
      HasChat(t.rows, x) && g in Persisted(t.rows, x).value
  {
  }

  lemma AddKeepsValid(cfg: Config, s: BotState, args: seq<string>, chat: int)
    requires StateValid(cfg, s)
    ensures AddState(cfg, s, args, chat).Running? ==> StateValid(cfg, AddState(cfg, s, args, chat).state)
  {
    var r := AddState(cfg, s, args, chat);
    if r.Running? && |args| > 0 && args[0] in Installed(cfg.features) {
      var f := args[0];
      var l := s.index[f];
      AddFeatureKeepsValid(s.rows, chat, f);
      forall x ensures HasChat(r.state.rows, x) <==> HasChat(s.rows, x) {
        SameChatsHasChat(s.rows, r.state.rows, x);
      }
      if f !in cfg.defaults {
        assert chat !in l;
        assert NoDup(l + [chat]) by {
          forall i, j | 0 <= i < j < |l + [chat]| ensures (l + [chat])[i] != (l + [chat])[j] {
            if j == |l| {
              assert (l + [chat])[i] == l[i];
            } else {
              assert (l + [chat])[i] == l[i] && (l + [chat])[j] == l[j];
            }
          }
        }
      }
      ReplaceKeepsValid(cfg, s, r.state.rows, f, chat, l + [chat]);
    }
  }

  lemma RemoveKeepsValid(cfg: Config, s: BotState, args: seq<string>, chat: int)
    requires StateValid(cfg, s)
    ensures RemoveState(cfg, s, args, chat).Running? ==> StateValid(cfg, RemoveState(cfg, s, args, chat).state)
  {
    var r := RemoveState(cfg, s, args, chat);
    if r.Running? && |args| > 0 && args[0] in Installed(cfg.features) {
      var f := args[0];
      var l := s.index[f];
      var old_fs := Persisted(s.rows, chat).value;
      RemoveFeatureKeepsValid(s.rows, chat, f);
      RemovedIsGone(s.rows, chat, f);
      RemoveFirstMembers(l, chat);
      RemoveFirstMembers(old_fs, f);
      forall x ensures HasChat(r.state.rows, x) <==> HasChat(s.rows, x) {
        SameChatsHasChat(s.rows, r.state.rows, x);
      }
      if f !in cfg.defaults {
        RemoveFirstKeepsNoDup(l, chat);
      }
      ReplaceKeepsValid(cfg, s, r.state.rows, f, chat, RemoveFirst(l, chat));
    }
  }

  lemma CommandKeepsValid(cfg: Config, s: BotState, command: seq<string>, chat: int)
    requires StateValid(cfg, s) && |command| > 0
    ensures CommandState(cfg, s, command, chat).Running? ==> StateValid(cfg, CommandState(cfg, s, command, chat).state)
  {
    AddKeepsValid(cfg, s, command[1..], chat);
    RemoveKeepsValid(cfg, s, command[1..], chat);
  }

  /**
   * In a valid state the bot is never stopped by its own bookkeeping: a
   * command on a known chat crashes only for a missing argument or because
   * the table refuses a duplicate add or a remove of a feature that is off.
   */
  lemma CommandCrashesOnlyOnUserError(cfg: Config, s: BotState, command: seq<string>, chat: int)
    requires StateValid(cfg, s) && |command| > 0 && HasChat(s.rows, chat)
    ensures CommandState(cfg, s, command, chat).Crashed? ==>
      CommandState(cfg, s, command, chat).error in
        {MissingFeatureName, StoreFailure(FeatureAlreadyEnabled), StoreFailure(FeatureNotEnabled)}
  {
  }

  // ---------------------------------------------------------------------
  // check_for_commands, handle_update, and a batch
  // ---------------------------------------------------------------------

  /** A new message (event 4) that is not outgoing: `flags & 2 == 0`, as Python computes it for any integer. */
  predicate IsInbox(u: Update) {
    u.code == 4 && (u.flags / 2) % 2 == 0
  }

  function ChatOf(u: Update): int {
    u.peer - CHAT_OFFSET
  }

  function MentionPrefix(vkId: nat): (r: string)
    ensures |r| == |NatToString(vkId)| + 4
  {
    "[id" + NatToString(vkId) + "|"
  }

  /** Python's `s[:n]` for `n >= 0`. */
  function Take(s: string, n: nat): (r: string)
    ensures |r| <= n && IsPrefix(r, s)
    ensures n <= |s| ==> |r| == n
    ensures n > |s| ==> r == s
  {
    if n <= |s| then s[..n] else s
  }

  /** `text.strip()[:len(str(vk_id)) + 4] == '[id{}|'.format(vk_id)`. */
  predicate Addressed(vkId: nat, text: string) {
    Take(Trim(text), |NatToString(vkId)| + 4) == MentionPrefix(vkId)
  }

  /** The slice comparison is a prefix test: the message must start with the bot's own mention. */
  lemma AddressedIsPrefix(vkId: nat, text: string)
    ensures Addressed(vkId, text) <==> IsPrefix(MentionPrefix(vkId), Trim(text))
  {
  }

  /** A message is addressed to one bot id at most: the `|` closes the digits of the id. */
  lemma AddressedToOneBot(a: nat, b: nat, text: string)
    requires Addressed(a, text) && Addressed(b, text)
    ensures a == b
  {
    AddressedIsPrefix(a, text);
    AddressedIsPrefix(b, text);
    if |NatToString(a)| <= |NatToString(b)| {
      PrefixesAgree(a, b, Trim(text));
    } else {
      PrefixesAgree(b, a, Trim(text));
    }
  }

  lemma PrefixesAgree(a: nat, b: nat, t: string)
    requires |NatToString(a)| <= |NatToString(b)|
    requires IsPrefix(MentionPrefix(a), t) && IsPrefix(MentionPrefix(b), t)
    ensures a == b
  {
    var p, q := MentionPrefix(a), MentionPrefix(b);
    var k := |NatToString(a)| + 3;
    assert t[k] == p[k] == '|';
    assert t[k] == q[k];
    assert p == q;
    assert NatToString(a) == p[3..k] && NatToString(b) == q[3..k];
    NatToStringInjective(a, b);
  }

  /** `check_for_commands`. */
  function CheckState(cfg: Config, s: BotState, u: Update): (r: Step)
    requires Wired(cfg, s)
    ensures !IsInbox(u) ==> r == Running(s)
    ensures IsInbox(u) && ChatOf(u) in s.chats && !Addressed(cfg.vkId, u.text) ==> r == Running(s)
    ensures IsInbox(u) && ChatOf(u) in s.chats ==> r == AddressedStep(cfg, s, u.text, ChatOf(u))
    ensures IsInbox(u) && ChatOf(u) !in s.chats && NewChatState(cfg, s, ChatOf(u)).Crashed? ==>
      r == NewChatState(cfg, s, ChatOf(u))
    ensures IsInbox(u) && ChatOf(u) !in s.chats && NewChatState(cfg, s, ChatOf(u)).Running? ==>
      && Wired(cfg, NewChatState(cfg, s, ChatOf(u)).state)
      && r == AddressedStep(cfg, NewChatState(cfg, s, ChatOf(u)).state, u.text, ChatOf(u))
    ensures r.Running? ==> r.state.index.Keys == s.index.Keys
    ensures r.Running? && IsInbox(u) && ChatOf(u) !in s.chats ==>
      r.state.chats == s.chats + [ChatOf(u)] && r.state.log == s.log + HookCalls(cfg.features, ChatOf(u))
  {
    if !IsInbox(u) then Running(s)
    else
      var chat := ChatOf(u);
      var st := if chat in s.chats then Running(s) else NewChatState(cfg, s, chat);
      if st.Crashed? then st
      else AddressedStep(cfg, st.state, u.text, chat)
  }

  /** The second half of `check_for_commands`: a message that starts with the bot's mention and holds a command. */
  function AddressedStep(cfg: Config, s: BotState, text: string, chat: int): (r: Step)
    requires Wired(cfg, s)
    ensures !Addressed(cfg.vkId, text) || CommandInString(Trim(text), COMMANDS).None? ==> r == Running(s)
    ensures Addressed(cfg.vkId, text) && CommandInString(Trim(text), COMMANDS).Some? ==>
      r == CommandState(cfg, s, CommandInString(Trim(text), COMMANDS).value, chat)
    ensures r.Running? ==> r.state.chats == s.chats && r.state.log == s.log && r.state.index.Keys == s.index.Keys
  {
    if Addressed(cfg.vkId, text) then
      match CommandInString(Trim(text), COMMANDS)
      case None => Running(s)
      case Some(command) => CommandState(cfg, s, command, chat)
    else Running(s)
  }

  lemma AddressedKeepsValid(cfg: Config, s: BotState, text: string, chat: int)
    requires StateValid(cfg, s) && HasChat(s.rows, chat)
    ensures AddressedStep(cfg, s, text, chat).Running? ==> StateValid(cfg, AddressedStep(cfg, s, text, chat).state)
    ensures AddressedStep(cfg, s, text, chat).Crashed? ==>
      AddressedStep(cfg, s, text, chat).error in {MissingFeatureName, StoreFailure(FeatureAlreadyEnabled), StoreFailure(FeatureNotEnabled)}
  {
    if Addressed(cfg.vkId, text) {
      match CommandInString(Trim(text), COMMANDS)
      case None =>
      case Some(command) =>
        CommandKeepsValid(cfg, s, command, chat);
        CommandCrashesOnlyOnUserError(cfg, s, command, chat);
    }
  }

  /** The features `handle_update` calls, in installed order: triggered by the event code and on in the chat. */
  function Triggered(features: seq<Feature>, index: map<string, seq<int>>, u: Update): (r: seq<Feature>)
    requires forall i :: 0 <= i < |features| ==> features[i].name in index
    ensures |r| <= |features|
    ensures forall f :: f in r <==> f in features && u.code in f.triggeredBy && ChatOf(u) in index[f.name]
    ensures InOrderOf(r, features)
  {
    if features == [] then []
    else
      var front := features[..|features| - 1];
      var last := features[|features| - 1];
      assert forall i :: 0 <= i < |front| ==> front[i] == features[i];
      assert features == front + [last];
      var before := Triggered(front, index, u);
      InOrderGrow(before, front, last);
      InOrderSnoc(before, front, last);
      if u.code in last.triggeredBy && ChatOf(u) in index[last.name] then before + [last] else before
  }

  /** The calls `handle_update` makes; `raises` says which of them end in a VkAPIError. */
  function FanOut(features: seq<Feature>, index: map<string, seq<int>>, u: Update,
                  raises: (Feature, Update) -> bool): seq<Call>
    requires forall i :: 0 <= i < |features| ==> features[i].name in index
  {
    if features == [] then []
    else
      var front := features[..|features| - 1];
      var last := features[|features| - 1];
      var before := FanOut(front, index, u, raises);
      if u.code in last.triggeredBy && ChatOf(u) in index[last.name]
      then before + [Invoked(last.name, u, raises(last, u))]
      else before
  }

  /** The calls are those of the triggered features, one each, in installed order. */
  lemma {:induction false} FanOutIsTriggered(features: seq<Feature>, index: map<string, seq<int>>, u: Update,
                                             raises: (Feature, Update) -> bool)
    requires forall i :: 0 <= i < |features| ==> features[i].name in index
    ensures |FanOut(features, index, u, raises)| == |Triggered(features, index, u)|
    ensures forall k :: 0 <= k < |FanOut(features, index, u, raises)| ==>
      FanOut(features, index, u, raises)[k] ==
        Invoked(Triggered(features, index, u)[k].name, u, raises(Triggered(features, index, u)[k], u))
  {
    if features != [] {
      FanOutIsTriggered(features[..|features| - 1], index, u, raises);
    }
  }

  /** One more feature of the installed list adds at most its own call. */
  lemma FanOutStep(features: seq<Feature>, i: nat, index: map<string, seq<int>>, u: Update,
                   raises: (Feature, Update) -> bool)
    requires i < |features| && forall j :: 0 <= j < |features| ==> features[j].name in index
    ensures FanOut(features[..i + 1], index, u, raises) ==
      FanOut(features[..i], index, u, raises) +
      (if u.code in features[i].triggeredBy && ChatOf(u) in index[features[i].name]
       then [Invoked(features[i].name, u, raises(features[i], u))] else [])
  {
    assert features[..i + 1][..i] == features[..i];
  }

  /** A VkAPIError in one feature does not keep the later ones from being called. */
  lemma RaisesDoNotStopOthers(features: seq<Feature>, index: map<string, seq<int>>, u: Update,
                              r1: (Feature, Update) -> bool, r2: (Feature, Update) -> bool)
    requires forall i :: 0 <= i < |features| ==> features[i].name in index
    ensures |FanOut(features, index, u, r1)| == |FanOut(features, index, u, r2)|
    ensures forall k :: 0 <= k < |FanOut(features, index, u, r1)| ==>
      FanOut(features, index, u, r1)[k].feature == FanOut(features, index, u, r2)[k].feature
  {
    FanOutIsTriggered(features, index, u, r1);
    FanOutIsTriggered(features, index, u, r2);
  }

  /** `handle_update`: commands first, then the fan-out over the index as the commands left it. */
  function HandleState(cfg: Config, s: BotState, u: Update, raises: (Feature, Update) -> bool): (r: Step)
    requires Wired(cfg, s)
    ensures r.Running? ==> r.state.index.Keys == s.index.Keys
    ensures r.Running? ==> (
      && CheckState(cfg, s, u).Running?
      && r.state == CheckState(cfg, s, u).state.(log := CheckState(cfg, s, u).state.log +
           FanOut(cfg.features, CheckState(cfg, s, u).state.index, u, raises)))
    ensures r.Crashed? <==> CheckState(cfg, s, u).Crashed?
  {
    match CheckState(cfg, s, u)
    case Crashed(e, rows) => Crashed(e, rows)
    case Running(s1) => Running(s1.(log := s1.log + FanOut(cfg.features, s1.index, u, raises)))
  }

  lemma CheckKeepsValid(cfg: Config, s: BotState, u: Update)
    requires StateValid(cfg, s)
    ensures CheckState(cfg, s, u).Running? ==> StateValid(cfg, CheckState(cfg, s, u).state)
    ensures CheckState(cfg, s, u).Crashed? ==>
      CheckState(cfg, s, u).error in {MissingFeatureName, StoreFailure(FeatureAlreadyEnabled), StoreFailure(FeatureNotEnabled)}
  {
    if IsInbox(u) {
      var chat := ChatOf(u);
      var s1 := s;
      if chat !in s.chats {
        NewChatKeepsValid(cfg, s, chat);
        s1 := NewChatState(cfg, s, chat).state;
        HasChatAppended(s.rows, Row(chat, []), chat);
      }
      assert HasChat(s1.rows, chat);
      AddressedKeepsValid(cfg, s1, u.text, chat);
    }
  }

  /** The invariant survives every update, and no update runs into the bot's own bookkeeping. */
  lemma HandleKeepsValid(cfg: Config, s: BotState, u: Update, raises: (Feature, Update) -> bool)
    requires StateValid(cfg, s)
    ensures HandleState(cfg, s, u, raises).Running? ==> StateValid(cfg, HandleState(cfg, s, u, raises).state)
    ensures HandleState(cfg, s, u, raises).Crashed? ==>
      HandleState(cfg, s, u, raises).error in
        {MissingFeatureName, StoreFailure(FeatureAlreadyEnabled), StoreFailure(FeatureNotEnabled)}
  {
    CheckKeepsValid(cfg, s, u);
  }

  /**
   * End to end: `[id<vk_id>|...] add f` from a known chat in which `f` is
   * installed and not stored switches `f` on, in the table and in the index.
   */
  lemma AddCommandTakesEffect(cfg: Config, s: BotState, u: Update, f: string, raises: (Feature, Update) -> bool)
    requires StateValid(cfg, s) && IsInbox(u) && ChatOf(u) in s.chats
    requires Addressed(cfg.vkId, u.text) && CommandInString(Trim(u.text), COMMANDS) == Some(["add", f])
    requires f in Installed(cfg.features) && f !in Persisted(s.rows, ChatOf(u)).value
    ensures HandleState(cfg, s, u, raises).Running?
    ensures var t := HandleState(cfg, s, u, raises).state;
      && Persisted(t.rows, ChatOf(u)) == Some(Persisted(s.rows, ChatOf(u)).value + [f])
      && t.index == s.index[f := s.index[f] + [ChatOf(u)]]
      && ChatOf(u) in t.index[f]
  {
    assert ["add", f][1..] == [f];
  }

  /**
   * End to end: `[id<vk_id>|...] remove f` from a known chat in which `f` is
   * stored switches `f` off in the table, and, unless `f` is a default, in the index.
   */
  lemma RemoveCommandTakesEffect(cfg: Config, s: BotState, u: Update, f: string, raises: (Feature, Update) -> bool)
    requires StateValid(cfg, s) && IsInbox(u) && ChatOf(u) in s.chats
    requires Addressed(cfg.vkId, u.text) && CommandInString(Trim(u.text), COMMANDS) == Some(["remove", f])
    requires f in Installed(cfg.features) && f in Persisted(s.rows, ChatOf(u)).value
    ensures HandleState(cfg, s, u, raises).Running?
    ensures var t := HandleState(cfg, s, u, raises).state;
      && f !in Persisted(t.rows, ChatOf(u)).value
      && t.index == s.index[f := RemoveFirst(s.index[f], ChatOf(u))]
      && (f !in cfg.defaults ==> ChatOf(u) !in t.index[f])
  {
    var chat := ChatOf(u);
    assert ["remove", f][1..] == [f];
    assert CheckState(cfg, s, u) == RemoveState(cfg, s, [f], chat);
    RemoveStateTakesEffect(cfg, s, f, chat);
  }

  /** `command_remove([f], chat)` on a chat that stores `f`. */
  lemma RemoveStateTakesEffect(cfg: Config, s: BotState, f: string, chat: int)
    requires StateValid(cfg, s) && HasChat(s.rows, chat)
    requires f in Installed(cfg.features) && f in Persisted(s.rows, chat).value
    ensures RemoveState(cfg, s, [f], chat).Running?
    ensures var t := RemoveState(cfg, s, [f], chat).state;
      && f !in Persisted(t.rows, chat).value
      && t.index == s.index[f := RemoveFirst(s.index[f], chat)]
      && (f !in cfg.defaults ==> chat !in t.index[f])
  {
    assert f in s.index && chat in s.index[f];
    RemovedIsGone(s.rows, chat, f);
    if f !in cfg.defaults {
      RemoveFirstKeepsNoDup(s.index[f], chat);
    }
  }

  /** `for update in response['updates']: self.handle_update(update)`, in list order. */
  function BatchState(cfg: Config, s: BotState, ups: seq<Update>, raises: (Feature, Update) -> bool): (r: Step)
    requires Wired(cfg, s)
    ensures r.Running? ==> r.state.index.Keys == s.index.Keys
    ensures ups == [] ==> r == Running(s)
    ensures |ups| == 1 ==> r == HandleState(cfg, s, ups[0], raises)
    decreases |ups|
  {
    if ups == [] then Running(s)
    else
      match HandleState(cfg, s, ups[0], raises)
      case Crashed(e, rows) => Crashed(e, rows)
      case Running(s1) => BatchState(cfg, s1, ups[1..], raises)
  }

  /**
   * Handling `a + b` is handling `a` and then, unless that crashed, handling
   * `b` from the state `a` left: the updates are taken in list order.
   */
  lemma {:induction false} BatchAppend(cfg: Config, s: BotState, a: seq<Update>, b: seq<Update>,
                                       raises: (Feature, Update) -> bool)
    requires Wired(cfg, s)
    ensures BatchState(cfg, s, a, raises).Crashed? ==>
      BatchState(cfg, s, a + b, raises) == BatchState(cfg, s, a, raises)
    ensures BatchState(cfg, s, a, raises).Running? ==>
      BatchState(cfg, s, a + b, raises) == BatchState(cfg, BatchState(cfg, s, a, raises).state, b, raises)
    decreases |a|
  {
    if a == [] {
      assert a + b == b;
    } else {
      assert (a + b)[0] == a[0] && (a + b)[1..] == a[1..] + b;
      var h := HandleState(cfg, s, a[0], raises);
      if h.Running? {
        BatchAppend(cfg, h.state, a[1..], b, raises);
      }
    }
  }

  lemma {:induction false} BatchKeepsValid(cfg: Config, s: BotState, ups: seq<Update>, raises: (Feature, Update) -> bool)
    requires StateValid(cfg, s)
    ensures BatchState(cfg, s, ups, raises).Running? ==> StateValid(cfg, BatchState(cfg, s, ups, raises).state)
    decreases |ups|
  {
    if ups != [] {
      HandleKeepsValid(cfg, s, ups[0], raises);
      var h := HandleState(cfg, s, ups[0], raises);
      if h.Running? {
        BatchKeepsValid(cfg, h.state, ups[1..], raises);
      }
    }
  }

  /** One pass of the loop at `ubotvk/bot.py:36-40`, with the poll step of the corrected loop. */
  function IterationState(cfg: Config, c: Cursor, s: BotState, res: Response, renewed: Cursor,
                          raises: (Feature, Update) -> bool): (r: (Cursor, Step))
    requires Wired(cfg, s)
    ensures res.Updates? ==> r == (Cursor(c.key, c.server, res.ts), BatchState(cfg, s, res.updates, raises))
    ensures Resyncs(res) ==> r == (LongPoll(c, res, renewed).0, Running(s))
    ensures ResyncStep(c, res, renewed).Crash? ==>
      r == (c, Crashed(PollFailure(ResyncStep(c, res, renewed).error), s.rows))
    ensures res.Failed? && res.failed == 4 ==> r == (c, Crashed(PollFailure(PollRaised(WrongVersion)), s.rows))
  {
    match ResyncStep(c, res, renewed)
    case Crash(e) => (c, Crashed(PollFailure(e), s.rows))
    case Proceed(c1, ups) => (c1, BatchState(cfg, s, ups, raises))
  }
}
