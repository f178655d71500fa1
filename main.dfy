/**
 * The earlier `Main` loop of `main.py`.  It polls the same way as `Bot`, but
 * it calls every loaded feature that the event code triggers, with no
 * per-chat index, and its `try` encloses the whole pass: a VkAPIError from
 * any feature abandons the rest of the batch, and the loop goes on.
 */
module MainRevision {
  import opened Wrappers
  import opened Store
  import opened Poll
  import opened Dispatch

  /**
   * The calls `handle_update` makes, and whether it stopped on a VkAPIError:
   * the features in list order, up to and including the first that raises.
   */
  function MainFanOut(features: seq<Feature>, u: Update, raises: (Feature, Update) -> bool): (seq<Call>, bool)
  {
    if features == [] then ([], false)
    else
      var front := features[..|features| - 1];
      var last := features[|features| - 1];
      var (calls, stopped) := MainFanOut(front, u, raises);
      if stopped || u.code !in last.triggeredBy then (calls, stopped)
      else (calls + [Invoked(last.name, u, raises(last, u))], raises(last, u))
  }

  /** The loaded features the event code triggers, in list order. */
  function ByCode(features: seq<Feature>, code: int): (r: seq<Feature>)
    ensures forall f :: f in r <==> f in features && code in f.triggeredBy
    ensures InOrderOf(r, features)
  {
    if features == [] then []
    else
      var front := features[..|features| - 1];
      var last := features[|features| - 1];
      assert features == front + [last];
      var before := ByCode(front, code);
      InOrderGrow(before, front, last);
      InOrderSnoc(before, front, last);
      if code in last.triggeredBy then before + [last] else before
  }

  /**
   * `calls` are the invocations of the features `t`, in order, up to and
   * including the first that raises; `stopped` says whether one raised, and
   * when none did every feature of `t` was called.
   */
  predicate CutAtRaise(calls: seq<Call>, stopped: bool, t: seq<Feature>, u: Update, raises: (Feature, Update) -> bool)
  {
    && |calls| <= |t|
    && (forall k :: 0 <= k < |calls| ==> calls[k] == Invoked(t[k].name, u, raises(t[k], u)))
    && (forall k :: 0 <= k < |calls| - 1 ==> !raises(t[k], u))
    && (stopped <==> |calls| > 0 && raises(t[|calls| - 1], u))
    && (!stopped ==> |calls| == |t|)
  }

  /** `handle_update` calls the triggered features in list order and stops after the first that raises. */
  lemma {:induction false} MainFanOutIsByCode(features: seq<Feature>, u: Update, raises: (Feature, Update) -> bool)
    ensures CutAtRaise(MainFanOut(features, u, raises).0, MainFanOut(features, u, raises).1,
                       ByCode(features, u.code), u, raises)
  {
    if features != [] {
      var front, last := features[..|features| - 1], features[|features| - 1];
      MainFanOutIsByCode(front, u, raises);
      var r0, t0 := MainFanOut(front, u, raises), ByCode(front, u.code);
      if r0.1 {
        CutStays(r0.0, t0, last, u, raises);
      } else if u.code in last.triggeredBy {
        CutExtends(r0.0, t0, last, u, raises);
      }
    }
  }

  lemma CutStays(calls: seq<Call>, t: seq<Feature>, last: Feature, u: Update, raises: (Feature, Update) -> bool)
    requires CutAtRaise(calls, true, t, u, raises)
    ensures CutAtRaise(calls, true, t + [last], u, raises)
  {
    assert forall k :: 0 <= k < |t| ==> (t + [last])[k] == t[k];
  }

  lemma CutExtends(calls: seq<Call>, t: seq<Feature>, last: Feature, u: Update, raises: (Feature, Update) -> bool)
    requires CutAtRaise(calls, false, t, u, raises)
    ensures CutAtRaise(calls + [Invoked(last.name, u, raises(last, u))], raises(last, u), t + [last], u, raises)
  {
    assert forall k :: 0 <= k < |t| ==> (t + [last])[k] == t[k];
  }

  lemma {:induction false} StoppedStays(features: seq<Feature>, i: nat, u: Update, raises: (Feature, Update) -> bool)
    requires i <= |features| && MainFanOut(features[..i], u, raises).1
    ensures MainFanOut(features, u, raises) == MainFanOut(features[..i], u, raises)
    decreases |features| - i
  {
    if i < |features| {
      assert features[..i + 1][..i] == features[..i];
      StoppedStays(features, i + 1, u, raises);
    } else {
      assert features[..i] == features;
    }
  }

  /**
   * With every feature switched on in the chat and no VkAPIError, `Bot` and
   * `Main` call the same features in the same order; the per-chat index is
   * the only filter `Bot` adds.
   */
  lemma {:induction false} SameCallsWhenEnabledEverywhere(features: seq<Feature>, index: map<string, seq<int>>,
                                                          u: Update, raises: (Feature, Update) -> bool)
    requires forall i :: 0 <= i < |features| ==> features[i].name in index && ChatOf(u) in index[features[i].name]
    requires forall i :: 0 <= i < |features| ==> !raises(features[i], u)
    ensures MainFanOut(features, u, raises) == (FanOut(features, index, u, raises), false)
  {
    if features != [] {
      SameCallsWhenEnabledEverywhere(features[..|features| - 1], index, u, raises);
    }
  }

  /** The calls of a pass over a batch, and whether a VkAPIError abandoned it. */
  function MainBatch(features: seq<Feature>, ups: seq<Update>, raises: (Feature, Update) -> bool): (r: (seq<Call>, bool))
    ensures ups == [] ==> r == ([], false)
    ensures |ups| == 1 ==> r == MainFanOut(features, ups[0], raises)
    decreases |ups|
  {
    if ups == [] then ([], false)
    else
      var (calls, abandoned) := MainBatch(features, ups[..|ups| - 1], raises);
      if abandoned then (calls, true)
      else
        var (more, stopped) := MainFanOut(features, ups[|ups| - 1], raises);
        assert |ups| == 1 ==> calls + more == more;
        (calls + more, stopped)
  }

  /**
   * A pass over `a + b` is the pass over `a` and, unless that was abandoned,
   * the pass over `b` after it: the updates are handled in list order.
   */
  lemma {:induction false} MainBatchAppend(features: seq<Feature>, a: seq<Update>, b: seq<Update>,
                                           raises: (Feature, Update) -> bool)
    ensures MainBatch(features, a + b, raises) ==
      if MainBatch(features, a, raises).1 then MainBatch(features, a, raises)
      else (MainBatch(features, a, raises).0 + MainBatch(features, b, raises).0, MainBatch(features, b, raises).1)
    decreases |b|
  {
    if b == [] {
      assert a + b == a;
      var pa := MainBatch(features, a, raises);
      assert pa.0 + [] == pa.0;
    } else {
      var front := b[..|b| - 1];
      assert (a + b)[..|a + b| - 1] == a + front;
      assert (a + b)[|a + b| - 1] == b[|b| - 1];
      MainBatchAppend(features, a, front, raises);
      var pa, pf := MainBatch(features, a, raises), MainBatch(features, front, raises);
      if !pa.1 && !pf.1 {
        var more := MainFanOut(features, b[|b| - 1], raises).0;
        assert pa.0 + pf.0 + more == pa.0 + (pf.0 + more);
      }
    }
  }

  lemma {:induction false} AbandonedStays(features: seq<Feature>, ups: seq<Update>, i: nat, raises: (Feature, Update) -> bool)
    requires i <= |ups| && MainBatch(features, ups[..i], raises).1
    ensures MainBatch(features, ups, raises) == MainBatch(features, ups[..i], raises)
    decreases |ups| - i
  {
    if i < |ups| {
      assert ups[..i + 1][..i] == ups[..i];
      AbandonedStays(features, ups, i + 1, raises);
    } else {
      assert ups[..i] == ups;
    }
  }

  /** Once an update's handling raises, the updates after it do not matter: they are abandoned. */
  lemma RestAbandoned(features: seq<Feature>, before: seq<Update>, u: Update,
                      rest1: seq<Update>, rest2: seq<Update>, raises: (Feature, Update) -> bool)
    requires MainFanOut(features, u, raises).1
    ensures MainBatch(features, before + [u] + rest1, raises) == MainBatch(features, before + [u] + rest2, raises)
    ensures MainBatch(features, before + [u] + rest1, raises).1
  {
    var p := before + [u];
    assert p[..|p| - 1] == before;
    assert MainBatch(features, p, raises).1;
    assert (p + rest1)[..|p|] == p;
    assert (p + rest2)[..|p|] == p;
    AbandonedStays(features, p + rest1, |p|, raises);
    AbandonedStays(features, p + rest2, |p|, raises);
  }

  /** How a pass of `Main`'s loop ends: it goes on (maybe having abandoned the batch), or an exception stops it. */
  datatype MainStep =
    | Continued(calls: seq<Call>, abandoned: bool)
    | Stopped(error: LoopError)

  /** One pass of the loop at `main.py:31-40`, with the poll step of the corrected loop. */
  function MainIteration(features: seq<Feature>, c: Cursor, res: Response, renewed: Cursor,
                         raises: (Feature, Update) -> bool): (r: (Cursor, MainStep))
    // only the poll can stop the loop; a VkAPIError never does
    ensures r.1.Stopped? <==> ResyncStep(c, res, renewed).Crash?
    ensures ResyncStep(c, res, renewed).Crash? ==> r == (c, Stopped(ResyncStep(c, res, renewed).error))
    ensures res.Failed? && res.failed == 4 ==> r == (c, Stopped(PollRaised(WrongVersion)))
    ensures res.Updates? ==> (
      && r.0 == Cursor(c.key, c.server, res.ts)
      && r.1 == Continued(MainBatch(features, res.updates, raises).0, MainBatch(features, res.updates, raises).1))
  {
    match ResyncStep(c, res, renewed)
    case Crash(e) => (c, Stopped(e))
    case Proceed(c1, ups) =>
      var (calls, abandoned) := MainBatch(features, ups, raises);
      (c1, Continued(calls, abandoned))
  }

  class Main {
    /** The feature objects `import_features` loaded, in `INSTALLED_FEATURES` order. */
    const features: seq<Feature>
    var key: string
    var server: string
    var ts: int
    var log: seq<Call>

    function CursorOf(): Cursor
      reads this
    {
      Cursor(key, server, ts)
    }

    constructor (features: seq<Feature>, start: Cursor)
      ensures this.features == features && CursorOf() == start && log == []
    {
      this.features := features;
      key, server, ts := start.key, start.server, start.ts;
      log := [];
    }

    method LongPoll(response: Response, renewed: Cursor) returns (r: PollResult)
      modifies this
      ensures (CursorOf(), r) == Poll.LongPoll(old(CursorOf()), response, renewed)
      ensures log == old(log)
    {
      match response
      case Updates(_, _) =>
        r := Returned(response.ts, response.updates);
      case Failed(code, newTs) =>
        if code == 1 {
          match newTs
          case None =>
            r := Raised(MissingTs);
          case Some(t) =>
            ts := t;
            r := NothingReturned;
        } else if code == 2 || code == 3 {
          key, server, ts := renewed.key, renewed.server, renewed.ts;
          r := NothingReturned;
        } else if code == 4 {
          r := Raised(WrongVersion);
        } else {
          r := Raised(UnknownFailure);
        }
    }

    /** `handle_update`: returns true when a feature raised a VkAPIError, which ends the loop over features. */
    method HandleUpdate(u: Update, raises: (Feature, Update) -> bool) returns (raised: bool)
      modifies this
      ensures log == old(log) + MainFanOut(features, u, raises).0
      ensures raised == MainFanOut(features, u, raises).1
      ensures CursorOf() == old(CursorOf())
    {
      var i := 0;
      raised := false;
      while i < |features|
        invariant 0 <= i <= |features|
        invariant log == old(log) + MainFanOut(features[..i], u, raises).0
        invariant !MainFanOut(features[..i], u, raises).1
        invariant CursorOf() == old(CursorOf())
      {
        assert features[..i + 1][..i] == features[..i];
        var f := features[i];
        if u.code in f.triggeredBy {
          raised := raises(f, u);
          log := log + [Invoked(f.name, u, raised)];
          if raised {
            assert MainFanOut(features[..i + 1], u, raises) == (MainFanOut(features[..i], u, raises).0 + [Invoked(f.name, u, raised)], true);
            assert log == old(log) + MainFanOut(features[..i + 1], u, raises).0;
            StoppedStays(features, i + 1, u, raises);
            return;
          }
        }
        i := i + 1;
      }
      assert features[..i] == features;
    }

    /** One pass of the loop: returns the exception that stops it, if any, and whether the batch was abandoned. */
    method Iteration(response: Response, renewed: Cursor, raises: (Feature, Update) -> bool)
      returns (stop: Option<LoopError>, abandoned: bool)
      modifies this
      ensures MainIteration(features, old(CursorOf()), response, renewed, raises).1.Stopped? ==>
        stop == Some(MainIteration(features, old(CursorOf()), response, renewed, raises).1.error)
      ensures MainIteration(features, old(CursorOf()), response, renewed, raises).1.Continued? ==>
        && stop == None
        && abandoned == MainIteration(features, old(CursorOf()), response, renewed, raises).1.abandoned
        && log == old(log) + MainIteration(features, old(CursorOf()), response, renewed, raises).1.calls
        && CursorOf() == MainIteration(features, old(CursorOf()), response, renewed, raises).0
    {
      var pr := LongPoll(response, renewed);
      stop, abandoned := None, false;
      match pr {
        case Raised(e) =>
          stop := Some(PollRaised(e));
        case NothingReturned =>
        case Returned(t, ups) =>
          ts := t;
          var i := 0;
          ghost var base := log;
          while i < |ups|
            invariant 0 <= i <= |ups|
            invariant log == base + MainBatch(features, ups[..i], raises).0
            invariant !MainBatch(features, ups[..i], raises).1
            invariant CursorOf() == Cursor(old(key), old(server), t)
          {
            assert ups[..i + 1][..i] == ups[..i];
            var raised := HandleUpdate(ups[i], raises);
            if raised {
              abandoned := true;
              assert log == base + MainBatch(features, ups[..i + 1], raises).0;
              AbandonedStays(features, ups, i + 1, raises);
              return;
            }
            assert log == base + MainBatch(features, ups[..i + 1], raises).0;
            i := i + 1;
          }
          assert ups[..i] == ups;
      }
    }
  }
}
