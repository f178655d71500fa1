/**
 * The VK long-poll cursor (`key`, `server`, `ts`) and what one `long_poll`
 * call does with it, shared by `ubotvk/bot.py` and `main.py`, which have the
 * same failure-code branching.  The HTTP request and its JSON decoding are
 * replaced by the decoded response; `get_long_poll_server` by the triple
 * `renewed` it would return.
 */
module Poll {
  import opened Wrappers

  /** One event of the `updates` list: `[code, message id, flags, peer, ts, text, ...]`. */
  datatype Update = Update(code: int, flags: int, peer: int, text: string)

  datatype Cursor = Cursor(key: string, server: string, ts: int)

  /** A decoded long-poll answer: either `{'ts', 'updates'}` or `{'failed', 'ts'?}`. */
  datatype Response =
    | Updates(ts: int, updates: seq<Update>)
    | Failed(failed: int, newTs: Option<int>)

  datatype PollError =
    | MissingTs        // KeyError: `res['ts']` on a failure-1 answer without `ts`
    | WrongVersion     // ValueError('Wrong Long Poll version')
    | UnknownFailure   // bare Exception

  /** What `long_poll` gives back: the response, `None`, or an exception. */
  datatype PollResult =
    | Returned(ts: int, updates: seq<Update>)
    | NothingReturned
    | Raised(error: PollError)

  /** The codes on which `long_poll` repairs the cursor and returns nothing. */
  predicate Resyncs(res: Response) {
    res.Failed? && (res.failed == 2 || res.failed == 3 || (res.failed == 1 && res.newTs.Some?))
  }

  /** `long_poll`: the cursor afterwards and the result. */
  function LongPoll(c: Cursor, res: Response, renewed: Cursor): (r: (Cursor, PollResult))
    // a response without `failed` comes back as it is, cursor untouched
    ensures res.Updates? <==> r.1.Returned?
    ensures res.Updates? ==> r.0 == c && r.1 == Returned(res.ts, res.updates)
    // failed 1: only ts moves; failed 2 or 3: a renewed triple
    ensures res.Failed? && res.failed == 1 && res.newTs.Some? ==>
      r.0 == Cursor(c.key, c.server, res.newTs.value)
    ensures res.Failed? && (res.failed == 2 || res.failed == 3) ==> r.0 == renewed
    // nothing is returned exactly on those codes: no retry
    ensures r.1.NothingReturned? <==> Resyncs(res)
    // 4, any other code, and a failure-1 answer without ts raise, cursor untouched
    ensures r.1.Raised? ==> r.0 == c
    ensures res.Failed? && res.failed == 4 ==> r.1 == Raised(WrongVersion)
    ensures res.Failed? && res.failed == 1 && res.newTs.None? ==> r.1 == Raised(MissingTs)
    ensures res.Failed? && !(1 <= res.failed <= 4) ==> r.1 == Raised(UnknownFailure)
    // key and server change only on failures 2 and 3
    ensures r.0.key != c.key || r.0.server != c.server ==> res.Failed? && (res.failed == 2 || res.failed == 3)
  {
    match res
    case Updates(_, _) => (c, Returned(res.ts, res.updates))
    case Failed(code, newTs) =>
      if code == 1 then
        match newTs
        case None => (c, Raised(MissingTs))
        case Some(t) => (c.(ts := t), NothingReturned)
      else if code == 2 || code == 3 then (renewed, NothingReturned)
      else if code == 4 then (c, Raised(WrongVersion))
      else (c, Raised(UnknownFailure))
  }

  /** The start of one pass of the `while True` loop: the cursor for the next pass and the updates to handle. */
  datatype LoopStep =
    | Proceed(cursor: Cursor, updates: seq<Update>)
    | Crash(error: LoopError)

  datatype LoopError =
    | PollRaised(e: PollError)
    | NoneNotSubscriptable   // TypeError: `response['ts']` with `response` None

  /** `response = self.long_poll(...)`, then `self.ts = response['ts']`, exactly as written. */
  function AsWrittenStep(c: Cursor, res: Response, renewed: Cursor): (r: LoopStep)
    ensures res.Updates? ==> r == Proceed(Cursor(c.key, c.server, res.ts), res.updates)
    ensures Resyncs(res) ==> r == Crash(NoneNotSubscriptable)
  {
    var (c1, pr) := LongPoll(c, res, renewed);
    match pr
    case Returned(ts, ups) => Proceed(c1.(ts := ts), ups)
    case NothingReturned => Crash(NoneNotSubscriptable)
    case Raised(e) => Crash(PollRaised(e))
  }

  /** The concrete input: a failure-2 answer (key expired) ends the loop with a TypeError. */
  lemma AsWrittenCrashesOnExpiredKey(c: Cursor, renewed: Cursor)
    ensures AsWrittenStep(c, Failed(2, None), renewed) == Crash(NoneNotSubscriptable)
  {
  }

  /**
   * What the loop evidently means to do: when `long_poll` has repaired the
   * cursor and returned nothing, poll again from the repaired cursor.
   */
  function ResyncStep(c: Cursor, res: Response, renewed: Cursor): (r: LoopStep)
    ensures r != Crash(NoneNotSubscriptable)
    ensures Resyncs(res) ==> r == Proceed(LongPoll(c, res, renewed).0, [])
    ensures AsWrittenStep(c, res, renewed) != Crash(NoneNotSubscriptable) ==> r == AsWrittenStep(c, res, renewed)
    ensures res.Failed? && res.failed == 4 ==> r == Crash(PollRaised(WrongVersion))
    ensures res.Failed? && res.failed == 1 && res.newTs.None? ==> r == Crash(PollRaised(MissingTs))
    ensures res.Failed? && !(1 <= res.failed <= 4) ==> r == Crash(PollRaised(UnknownFailure))
  {
    var (c1, pr) := LongPoll(c, res, renewed);
    match pr
    case Returned(ts, ups) => Proceed(c1.(ts := ts), ups)
    case NothingReturned => Proceed(c1, [])
    case Raised(e) => Crash(PollRaised(e))
  }

  /** After a resync the next pass polls with the repaired cursor: failure 1 keeps key and server. */
  lemma ResyncKeepsSession(c: Cursor, t: int, renewed: Cursor)
    ensures ResyncStep(c, Failed(1, Some(t)), renewed) == Proceed(Cursor(c.key, c.server, t), [])
    ensures ResyncStep(c, Failed(2, None), renewed) == Proceed(renewed, [])
    ensures ResyncStep(c, Failed(3, Some(t)), renewed) == Proceed(renewed, [])
  {
  }
}
