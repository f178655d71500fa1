/**
 * The `Bot` object of `ubotvk/bot.py`: its fields change in place as updates
 * arrive.  Every method is proved to leave the object in the state the
 * matching `Dispatch` function computes, so the lemmas proved there (the
 * invariant, the crash analysis, the fan-out) hold of the object.
 */
module BotRuntime {
  import opened Wrappers
  import opened Text
  import opened Utils
  import opened Store
  import opened Poll
  import opened Dispatch

  /** The method ended where `st` says: on the state, or crashed with the table as `st` left it. */
  predicate Ends(st: Step, res: Outcome<BotError>, now: BotState) {
    match st
    case Running(s) => res == Pass && now == s
    case Crashed(e, rows) => res == Fail(e) && now.rows == rows
  }

  class Bot {
    const cfg: Config
    const db: Database
    var key: string
    var server: string
    var ts: int
    var chats: seq<int>
    var dictFeatureChats: map<string, seq<int>>
    /** The calls made into features so far. */
    var log: seq<Call>

    function State(): BotState
      reads this, db
    {
      BotState(db.rows, chats, dictFeatureChats, log)
    }

    function CursorOf(): Cursor
      reads this
    {
      Cursor(key, server, ts)
    }

    ghost predicate Valid()
      reads this, db
    {
      StateValid(cfg, State()) && db.defaults == cfg.defaults
    }

    /** `__init__` up to the loop: the index and the chat list from the table, then a first cursor. */
    constructor (cfg: Config, db: Database, start: Cursor)
      requires ConfigValid(cfg) && TableValid(db.rows) && db.defaults == cfg.defaults
      ensures this.cfg == cfg && this.db == db
      ensures State() == InitState(cfg, db.rows) && CursorOf() == start
      ensures Valid()
    {
      this.cfg := cfg;
      this.db := db;
      dictFeatureChats := db.GetFeatureChatsDict(Installed(cfg.features));
      chats := db.GetChats();
      log := [];
      key, server, ts := start.key, start.server, start.ts;
      new;
      InitValid(cfg, db.rows);
    }

    method LongPoll(response: Response, renewed: Cursor) returns (r: PollResult)
      modifies this
      ensures (CursorOf(), r) == Poll.LongPoll(old(CursorOf()), response, renewed)
      ensures State() == old(State())
    {
      match response
      case Updates(_, _) =>
        r := Returned(response.ts, response.updates);
      case Failed(code, newTs) =>
        if code == 1 {
          match newTs
          case None =>
            r := Raised(MissingTs);
          case Some(t) =>
            ts := t;
            r := NothingReturned;
        } else if code == 2 || code == 3 {
          key, server, ts := renewed.key, renewed.server, renewed.ts;
          r := NothingReturned;
        } else if code == 4 {
          r := Raised(WrongVersion);
        } else {
          r := Raised(UnknownFailure);
        }
    }

    method NewChat(chat: int) returns (res: Outcome<BotError>)
      requires Wired(cfg, State())
      modifies this, db
      ensures Ends(NewChatState(cfg, old(State()), chat), res, State())
      ensures CursorOf() == old(CursorOf())
    {
      var r := db.AddChat(chat);
      if r.Fail? {
        return Fail(StoreFailure(r.error));
      }
      chats := chats + [chat];
      AppendToDefaults(chat);
      CallHooks(chat);
      res := Pass;
    }

    /** `for feature in DEFAULT_FEATURES: self.dict_feature_chats[feature].append(chat_id)`. */
    method AppendToDefaults(chat: int)
      requires forall f :: f in cfg.defaults ==> f in dictFeatureChats
      modifies this
      ensures dictFeatureChats == AppendDefaults(old(dictFeatureChats), cfg.defaults, chat)
      ensures chats == old(chats) && log == old(log) && CursorOf() == old(CursorOf())
    {
      var i := 0;
      while i < |cfg.defaults|
        invariant 0 <= i <= |cfg.defaults|
        invariant dictFeatureChats.Keys == old(dictFeatureChats).Keys
        invariant AppendDefaults(dictFeatureChats, cfg.defaults[i..], chat) ==
                  AppendDefaults(old(dictFeatureChats), cfg.defaults, chat)
        invariant chats == old(chats) && log == old(log) && CursorOf() == old(CursorOf())
      {
        var f := cfg.defaults[i];
        assert cfg.defaults[i..][1..] == cfg.defaults[i + 1..];
        dictFeatureChats := dictFeatureChats[f := dictFeatureChats[f] + [chat]];
        i := i + 1;
      }
      assert cfg.defaults[i..] == [];
    }

    /** The loop over `self.features` calling each `new_chat` hook there is. */
    method CallHooks(chat: int)
      modifies this
      ensures log == old(log) + HookCalls(cfg.features, chat)
      ensures chats == old(chats) && dictFeatureChats == old(dictFeatureChats) && CursorOf() == old(CursorOf())
    {
      var k := 0;
      while k < |cfg.features|
        invariant 0 <= k <= |cfg.features|
        invariant log == old(log) + HookCalls(cfg.features[..k], chat)
        invariant chats == old(chats) && dictFeatureChats == old(dictFeatureChats) && CursorOf() == old(CursorOf())
      {
        assert cfg.features[..k + 1][..k] == cfg.features[..k];
        if cfg.features[k].hasNewChatHook {
          log := log + [NewChatHook(cfg.features[k].name, chat)];
        }
        k := k + 1;
      }
      assert cfg.features[..k] == cfg.features;
    }

    method CommandAdd(args: seq<string>, chat: int) returns (res: Outcome<BotError>)
      requires Wired(cfg, State())
      modifies this, db
      ensures Ends(AddState(cfg, old(State()), args, chat), res, State())
      ensures CursorOf() == old(CursorOf())
    {
      if |args| == 0 {
        return Fail(MissingFeatureName);
      }
      var f := args[0];
      if f in Installed(cfg.features) {
        var r := db.AddFeature(chat, f);
        if r.Fail? {
          return Fail(StoreFailure(r.error));
        }
        dictFeatureChats := dictFeatureChats[f := dictFeatureChats[f] + [chat]];
      }
      res := Pass;
    }

    method CommandRemove(args: seq<string>, chat: int) returns (res: Outcome<BotError>)
      requires Wired(cfg, State())
      modifies this, db
      ensures Ends(RemoveState(cfg, old(State()), args, chat), res, State())
      ensures CursorOf() == old(CursorOf())
    {
      if |args| == 0 {
        return Fail(MissingFeatureName);
      }
      var f := args[0];
      if f in Installed(cfg.features) && f in dictFeatureChats {
        var r := db.RemoveFeature(chat, f);
        if r.Fail? {
          return Fail(StoreFailure(r.error));
        }
        if chat !in dictFeatureChats[f] {
          return Fail(IndexValueError);
        }
        dictFeatureChats := dictFeatureChats[f := RemoveFirst(dictFeatureChats[f], chat)];
      }
      res := Pass;
    }

    method HandleCommand(command: seq<string>, chat: int) returns (res: Outcome<BotError>)
      requires Wired(cfg, State()) && |command| > 0
      modifies this, db
      ensures Ends(CommandState(cfg, old(State()), command, chat), res, State())
      ensures CursorOf() == old(CursorOf())
    {
      if command[0] == "add" {
        res := CommandAdd(command[1..], chat);
      } else if command[0] == "remove" {
        res := CommandRemove(command[1..], chat);
      } else {
        res := Pass;
      }
    }

    method CheckForCommands(u: Update) returns (res: Outcome<BotError>)
      requires Wired(cfg, State())
      modifies this, db
      ensures Ends(CheckState(cfg, old(State()), u), res, State())
      ensures CursorOf() == old(CursorOf())
    {
      if !IsInbox(u) {
        return Pass;
      }
      var chat := ChatOf(u);
      if chat !in chats {
        res := NewChat(chat);
        if res.Fail? {
          return;
        }
      }
      res := AddressedCommand(u.text, chat);
    }

    /** The mention test and the command parse of `check_for_commands`, then `handle_command`. */
    method AddressedCommand(text: string, chat: int) returns (res: Outcome<BotError>)
      requires Wired(cfg, State())
      modifies this, db
      ensures Ends(AddressedStep(cfg, old(State()), text, chat), res, State())
      ensures CursorOf() == old(CursorOf())
    {
      if Addressed(cfg.vkId, text) {
        var command := CommandInString(Trim(text), COMMANDS);
        if command.Some? {
          res := HandleCommand(command.value, chat);
          return;
        }
      }
      res := Pass;
    }

    /** The loop over `self.features` in `handle_update`; a VkAPIError is caught per feature. */
    method CallFeatures(u: Update, raises: (Feature, Update) -> bool)
      requires Wired(cfg, State())
      modifies this
      ensures forall j :: 0 <= j < |cfg.features| ==> cfg.features[j].name in dictFeatureChats
      ensures chats == old(chats) && dictFeatureChats == old(dictFeatureChats)
      ensures log == old(log) + FanOut(cfg.features, dictFeatureChats, u, raises)
      ensures CursorOf() == old(CursorOf())
    {
      WiredNames(cfg, State());
      ghost var index := dictFeatureChats;
      var i := 0;
      while i < |cfg.features|
        invariant 0 <= i <= |cfg.features|
        invariant chats == old(chats) && dictFeatureChats == index
        invariant log == old(log) + FanOut(cfg.features[..i], index, u, raises)
        invariant CursorOf() == old(CursorOf())
      {
        FanOutStep(cfg.features, i, index, u, raises);
        var f := cfg.features[i];
        if u.code in f.triggeredBy && ChatOf(u) in dictFeatureChats[f.name] {
          var raised := raises(f, u);
          log := log + [Invoked(f.name, u, raised)];
        }
        i := i + 1;
      }
      assert cfg.features[..i] == cfg.features;
    }

    method HandleUpdate(u: Update, raises: (Feature, Update) -> bool) returns (res: Outcome<BotError>)
      requires Wired(cfg, State())
      modifies this, db
      ensures Ends(HandleState(cfg, old(State()), u, raises), res, State())
      ensures CursorOf() == old(CursorOf())
      ensures old(Valid()) && res.Pass? ==> Valid()
    {
      ghost var start := State();
      ghost var wasValid := Valid();
      res := CheckForCommands(u);
      if res.Fail? {
        return;
      }
      CallFeatures(u, raises);
      if wasValid {
        HandleKeepsValid(cfg, start, u, raises);
      }
    }

    /** One pass of the loop: poll, move `ts`, handle the updates in order. */
    method Iteration(response: Response, renewed: Cursor, raises: (Feature, Update) -> bool)
      returns (res: Outcome<BotError>)
      requires Wired(cfg, State())
      modifies this, db
      ensures Ends(IterationState(cfg, old(CursorOf()), old(State()), response, renewed, raises).1, res, State())
      ensures res.Pass? ==> CursorOf() == IterationState(cfg, old(CursorOf()), old(State()), response, renewed, raises).0
      ensures old(Valid()) && res.Pass? ==> Valid()
    {
      ghost var start := State();
      ghost var wasValid := Valid();
      var pr := LongPoll(response, renewed);
      match pr {
        case Raised(e) =>
          return Fail(PollFailure(PollRaised(e)));
        case NothingReturned =>
          return Pass;
        case Returned(t, ups) =>
          ts := t;
          var i := 0;
          while i < |ups|
            invariant 0 <= i <= |ups|
            invariant Wired(cfg, State())
            invariant BatchState(cfg, State(), ups[i..], raises) == BatchState(cfg, start, ups, raises)
            invariant CursorOf() == Cursor(old(key), old(server), t)
            invariant wasValid ==> Valid()
          {
            assert ups[i..][1..] == ups[i + 1..];
            res := HandleUpdate(ups[i], raises);
            if res.Fail? {
              return;
            }
            i := i + 1;
          }
          res := Pass;
      }
    }
  }
}
