/**
 * The `Pidors` feature of `ubotvk/bot_features/pidors/pidors.py`: on a new
 * inbox message reading exactly `/toppidor` or `!toppidor` in a chat where it
 * is enabled, it sends the chat a ranking built from the chat's table of
 * `(user id, user name, count)` rows.  The table contents stand for what
 * the SQLite `SELECT *` returns; the send is appended to `sent`.
 */
module Pidors {
  import opened Wrappers
  import opened Text
  import opened Poll
  import opened Dispatch

  /** One row of a chat's table. */
  datatype PidorRow = PidorRow(userId: int, userName: string, pidorCount: int)

  /**
   * A `messages.send` call: the peer, the report text up to the average line,
   * and the two accumulators the average line is computed from.
   */
  datatype Sent = Sent(peer: int, report: string, total: int, count: int)

  /** The long-poll codes the feature asks to be called on. */
  const TRIGGERED_BY: seq<int> := [4]

  const TRIGGER_TEXTS: seq<string> := ["/toppidor", "!toppidor"]

  const HEADER: string := "Топ пидоров за все время:\n"

  /**
   * The chat the report goes to when `__call__` acts on `u`, or None when it
   * does nothing. This is the reference definition of the three conditions;
   * `PidorsFeature.Call` is proved against it.
   */
  function TriggerChat(u: Update, enabledInChats: seq<int>): (r: Option<int>)
    ensures r.Some? <==> (u.flags / 2) % 2 == 0 && ChatOf(u) in enabledInChats && u.text in TRIGGER_TEXTS
    ensures r.Some? ==> r.value == ChatOf(u) && r.value in enabledInChats
  {
    if (u.flags / 2) % 2 == 0 && ChatOf(u) in enabledInChats && u.text in TRIGGER_TEXTS then Some(ChatOf(u))
    else None
  }

  /** The text is compared as it is: nine characters, no surrounding space, lower case. */
  lemma TriggerTextIsExact(u: Update, enabledInChats: seq<int>)
    requires TriggerChat(u, enabledInChats).Some?
    ensures |u.text| == 9 && (u.text[0] == '/' || u.text[0] == '!') && u.text[1..] == "toppidor"
    ensures Trim(u.text) == u.text
  {
    assert u.text == "/toppidor" || u.text == "!toppidor";
    assert NoSpace(u.text);
    TrimOfWord(u.text);
  }

  lemma TrimOfWord(s: string)
    requires |s| > 0 && NoSpace(s)
    ensures Trim(s) == s
  {
  }

  /** An outgoing message (flag bit 2 set) never triggers, whatever its text. */
  lemma OutgoingDoesNothing(u: Update, enabledInChats: seq<int>)
    requires (u.flags / 2) % 2 == 1
    ensures TriggerChat(u, enabledInChats) == None
  {
  }

  /** Line `n` of the ranking: `'{n}. [id{id}|{name}] - {count}\n'`. */
  function Line(n: nat, row: PidorRow): string
  {
    Flatten([NatToString(n), ". [id", IntToString(row.userId), "|", row.userName, "] - ", IntToString(row.pidorCount)]) + "\n"
  }

  /** The lines the loop at `pidors.py:35-39` appends, numbered from 1. */
  function Lines(rows: seq<PidorRow>): string
  {
    if rows == [] then ""
    else Lines(rows[..|rows| - 1]) + Line(|rows|, rows[|rows| - 1])
  }

  /** An independent reading: the rows in order, each on its line, numbered from `n`. */
  function LinesFrom(n: nat, rows: seq<PidorRow>): string
    decreases |rows|
  {
    if rows == [] then ""
    else Line(n, rows[0]) + LinesFrom(n + 1, rows[1..])
  }

  /** The sum of the third column. */
  function Total(rows: seq<PidorRow>): int
  {
    if rows == [] then 0
    else Total(rows[..|rows| - 1]) + rows[|rows| - 1].pidorCount
  }

  lemma {:induction false} LinesFromAppend(n: nat, a: seq<PidorRow>, row: PidorRow)
    ensures LinesFrom(n, a + [row]) == LinesFrom(n, a) + Line(n + |a|, row)
    decreases |a|
  {
    if a == [] {
      assert a + [row] == [row];
      assert [row][1..] == [];
    } else {
      assert (a + [row])[0] == a[0];
      assert (a + [row])[1..] == a[1..] + [row];
      LinesFromAppend(n + 1, a[1..], row);
    }
  }

  /** The numbering is consecutive from 1 and follows the row order. */
  lemma {:induction false} LinesAreNumbered(rows: seq<PidorRow>)
    ensures Lines(rows) == LinesFrom(1, rows)
  {
    if rows != [] {
      var front := rows[..|rows| - 1];
      LinesAreNumbered(front);
      LinesFromAppend(1, front, rows[|rows| - 1]);
      assert front + [rows[|rows| - 1]] == rows;
    }
  }

  lemma LinesStep(rows: seq<PidorRow>, i: nat)
    requires i < |rows|
    ensures HEADER + Lines(rows[..i + 1]) == (HEADER + Lines(rows[..i])) + Line(i + 1, rows[i])
  {
    assert rows[..i + 1][..i] == rows[..i];
  }

  lemma {:induction false} LinesFromConcat(n: nat, a: seq<PidorRow>, b: seq<PidorRow>)
    ensures LinesFrom(n, a + b) == LinesFrom(n, a) + LinesFrom(n + |a|, b)
    decreases |a|
  {
    if a == [] {
      assert a + b == b;
    } else {
      assert (a + b)[0] == a[0];
      assert (a + b)[1..] == a[1..] + b;
      LinesFromConcat(n + 1, a[1..], b);
    }
  }

  /** The rows after the first `k` are numbered on from `k + 1`. */
  lemma LinesSplit(rows: seq<PidorRow>, k: nat)
    requires k <= |rows|
    ensures Lines(rows) == Lines(rows[..k]) + LinesFrom(k + 1, rows[k..])
  {
    var front, back := rows[..k], rows[k..];
    assert front + back == rows;
    LinesAreNumbered(rows);
    LinesAreNumbered(front);
    LinesFromConcat(1, front, back);
  }

  function Occurrences(c: char, s: string): nat
  {
    if s == [] then 0 else Occurrences(c, s[..|s| - 1]) + (if s[|s| - 1] == c then 1 else 0)
  }

  lemma {:induction false} OccurrencesAppend(c: char, s: string, t: string)
    ensures Occurrences(c, s + t) == Occurrences(c, s) + Occurrences(c, t)
    decreases |t|
  {
    if t == [] {
      assert s + t == s;
    } else {
      assert (s + t)[..|s + t| - 1] == s + t[..|t| - 1];
      OccurrencesAppend(c, s, t[..|t| - 1]);
    }
  }

  lemma {:induction false} OccurrencesAbsent(c: char, s: string)
    requires forall i :: 0 <= i < |s| ==> s[i] != c
    ensures Occurrences(c, s) == 0
    decreases |s|
  {
    if s != [] {
      OccurrencesAbsent(c, s[..|s| - 1]);
    }
  }

  lemma {:induction false} FlattenAvoids(c: char, ws: seq<string>)
    requires forall i :: 0 <= i < |ws| ==> c !in ws[i]
    ensures c !in Flatten(ws)
  {
    if ws != [] {
      FlattenAvoids(c, ws[1..]);
    }
  }

  lemma LineHasOneBreak(n: nat, row: PidorRow)
    requires '\n' !in row.userName
    ensures Occurrences('\n', Line(n, row)) == 1
  {
    var ws := [NatToString(n), ". [id", IntToString(row.userId), "|", row.userName, "] - ", IntToString(row.pidorCount)];
    assert '\n' !in ws[0] && '\n' !in ws[2] && '\n' !in ws[6];
    FlattenAvoids('\n', ws);
    OccurrencesAbsent('\n', Flatten(ws));
    OccurrencesAppend('\n', Flatten(ws), "\n");
  }

  /** One line per stored row, as long as no user name holds a line break. */
  lemma {:induction false} OneLinePerRow(rows: seq<PidorRow>)
    requires forall i :: 0 <= i < |rows| ==> '\n' !in rows[i].userName
    ensures Occurrences('\n', Lines(rows)) == |rows|
  {
    if rows != [] {
      OneLinePerRow(rows[..|rows| - 1]);
      LineHasOneBreak(|rows|, rows[|rows| - 1]);
      OccurrencesAppend('\n', Lines(rows[..|rows| - 1]), Line(|rows|, rows[|rows| - 1]));
    }
  }

  lemma {:induction false} TotalAppend(a: seq<PidorRow>, b: seq<PidorRow>)
    ensures Total(a + b) == Total(a) + Total(b)
    decreases |b|
  {
    if b == [] {
      assert a + b == a;
    } else {
      assert (a + b)[..|a + b| - 1] == a + b[..|b| - 1];
      TotalAppend(a, b[..|b| - 1]);
    }
  }

  /** The total lies between the row count times the smallest and the largest count. */
  lemma {:induction false} TotalBounds(rows: seq<PidorRow>, lo: int, hi: int)
    requires forall i :: 0 <= i < |rows| ==> lo <= rows[i].pidorCount <= hi
    ensures lo * |rows| <= Total(rows) <= hi * |rows|
  {
    if rows != [] {
      TotalBounds(rows[..|rows| - 1], lo, hi);
    }
  }

  /** The feature object: its chats, their tables, and the messages it has sent. */
  class PidorsFeature {
    /** `enabled_in_chats`, the list the feature was created with. */
    const enabledInChats: seq<int>
    /** `_chat_databases`: one table per chat of that list. */
    const tables: map<int, seq<PidorRow>>
    const triggeredBy: seq<int>
    var sent: seq<Sent>

    ghost predicate Valid()
      reads this
    {
      forall c :: c in enabledInChats ==> c in tables
    }

    /** `__init__`: a table per chat, empty when the chat has none stored yet. */
    constructor (listOfChats: seq<int>, stored: map<int, seq<PidorRow>>)
      ensures enabledInChats == listOfChats && triggeredBy == TRIGGERED_BY && sent == []
      ensures tables.Keys == set c | c in listOfChats
      ensures forall c :: c in tables ==> tables[c] == (if c in stored then stored[c] else [])
      ensures Valid()
    {
      enabledInChats := listOfChats;
      tables := map c | c in listOfChats :: if c in stored then stored[c] else [];
      triggeredBy := TRIGGERED_BY;
      sent := [];
    }

    /** `top_pidor`: build the ranking of the chat and send it. */
    method TopPidor(chat: int)
      requires chat in tables
      modifies this
      ensures sent == old(sent) + [Sent(chat + CHAT_OFFSET, HEADER + Lines(tables[chat]), Total(tables[chat]), |tables[chat]| + 1)]
    {
      var pidors := tables[chat];
      var response := HEADER;
      var count := 1;
      var total := 0;
      var i := 0;
      while i < |pidors|
        invariant 0 <= i <= |pidors|
        invariant response == HEADER + Lines(pidors[..i])
        invariant count == i + 1
        invariant total == Total(pidors[..i])
        invariant sent == old(sent)
      {
        var pidor := pidors[i];
        LinesStep(pidors, i);
        assert pidors[..i + 1][..i] == pidors[..i];
        response := response + Line(count, pidor);
        count := count + 1;
        total := total + pidor.pidorCount;
        i := i + 1;
      }
      assert pidors[..i] == pidors;
      sent := sent + [Sent(chat + CHAT_OFFSET, response, total, count)];
    }

    /** `__call__`: a report exactly when the trigger holds, for the chat the message came from. */
    method Call(u: Update)
      requires Valid()
      modifies this
      ensures TriggerChat(u, enabledInChats).None? ==> sent == old(sent)
      ensures TriggerChat(u, enabledInChats).Some? ==>
        var rows := tables[ChatOf(u)];
        sent == old(sent) + [Sent(u.peer, HEADER + Lines(rows), Total(rows), |rows| + 1)]
    {
      if (u.flags / 2) % 2 == 0 {
        if ChatOf(u) in enabledInChats {
          if u.text in TRIGGER_TEXTS {
            TopPidor(ChatOf(u));
          }
        }
      }
    }
  }

  /** How the dispatcher sees the feature: it is called on new-message events only. */
  function AsFeature(name: string): (f: Feature)
    ensures f.triggeredBy == set c | c in TRIGGERED_BY
    ensures forall c :: c in f.triggeredBy <==> c == 4
  {
    Feature(name, set c | c in TRIGGERED_BY, false)
  }

  /** Whatever the index says, the bot calls the feature only on event code 4. */
  lemma BotCallsOnlyOnMessages(features: seq<Feature>, index: map<string, seq<int>>, u: Update, name: string)
    requires forall i :: 0 <= i < |features| ==> features[i].name in index
    requires AsFeature(name) in Triggered(features, index, u)
    ensures u.code == 4
  {
  }
}
