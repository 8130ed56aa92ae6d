/**
 * Properties of whole sessions: what the page shows after any sequence of
 * user intents and remote outcomes, and what it has sent.
 */
module Traces {
  import opened Wrappers
  import opened Types
  import opened Transport
  import opened Handlers

  /** The list the last applied listing of `es` put in place, or `t0`. */
  function LastListing(t0: seq<Task>, es: seq<Event>): seq<Task>
    decreases |es|
  {
    if es == [] then t0
    else match Listing(es[|es| - 1])
      case Some(l) => l
      case None => LastListing(t0, es[..|es| - 1])
  }

  /**
   * The error text the last create of `es` left: `""` after a success, the
   * failure's text after a failure, or `e0` when `es` holds no create.
   */
  function LastError(e0: string, es: seq<Event>): string
    decreases |es|
  {
    if es == [] then e0
    else
      var e := es[|es| - 1];
      if e.CreateSubmitted? then
        (if e.created.Ok? then "" else CreateErrorMessage(e.created.message))
      else LastError(e0, es[..|es| - 1])
  }

  /** The trace with every event that changes no state left out. */
  function Effective(es: seq<Event>): seq<Event>
    decreases |es|
  {
    if es == [] then []
    else if IsNoOp(es[0]) then Effective(es[1..])
    else [es[0]] + Effective(es[1..])
  }

  /** Running a trace one more event is one more step. */
  lemma {:induction false} RunSnoc(s: PageState, es: seq<Event>, e: Event)
    ensures Run(s, es + [e]) == Step(Run(s, es), e)
    decreases |es|
  {
    if es == [] {
      assert [e][1..] == [];
    } else {
      assert (es + [e])[0] == es[0];
      assert (es + [e])[1..] == es[1..] + [e];
      RunSnoc(Step(s, es[0]), es[1..], e);
    }
  }

  /** The list on screen is the last listing the page applied, or the one it had. */
  lemma {:induction false} RunTasksIsLastListing(s: PageState, es: seq<Event>)
    ensures Run(s, es).tasks == LastListing(s.tasks, es)
    decreases |es|
  {
    if es != [] {
      var init, e := es[..|es| - 1], es[|es| - 1];
      assert es == init + [e];
      RunSnoc(s, init, e);
      RunTasksIsLastListing(s, init);
    }
  }

  lemma {:induction false} LastListingIsReceived(t0: seq<Task>, es: seq<Event>)
    ensures LastListing(t0, es) == t0 ||
      exists i :: 0 <= i < |es| && Listing(es[i]) == Some(LastListing(t0, es))
    decreases |es|
  {
    if es != [] {
      var n := |es| - 1;
      if Listing(es[n]).None? {
        var init := es[..n];
        LastListingIsReceived(t0, init);
        if LastListing(t0, init) != t0 {
          var i :| 0 <= i < |init| && Listing(init[i]) == Some(LastListing(t0, init));
          assert es[i] == init[i];
        }
      }
    }
  }

  /**
   * The list the page holds is always a list the store returned during the
   * session, or the list it started with: it is never patched locally.
   */
  lemma TasksAreSnapshot(s: PageState, es: seq<Event>)
    ensures Run(s, es).tasks == s.tasks ||
      exists i :: 0 <= i < |es| && Listing(es[i]) == Some(Run(s, es).tasks)
  {
    RunTasksIsLastListing(s, es);
    LastListingIsReceived(s.tasks, es);
  }

  /** A session that ends with a successful listing shows exactly that listing. */
  lemma LastFetchWins(s: PageState, es: seq<Event>, l: seq<Task>)
    ensures Run(s, es + [Fetched(Ok(l))]).tasks == l
  {
    RunSnoc(s, es, Fetched(Ok(l)));
  }

  /**
   * Failed refreshes, failed toggles and deletes that were declined or failed
   * leave no trace: the session ends in the same state without them.
   */
  lemma {:induction false} NoOpsAreInvisible(s: PageState, es: seq<Event>)
    ensures Run(s, es) == Run(s, Effective(es))
    decreases |es|
  {
    if es != [] {
      var rest := es[1..];
      if IsNoOp(es[0]) {
        NoOpsAreInvisible(s, rest);
      } else {
        var t := Step(s, es[0]);
        var eff := [es[0]] + Effective(rest);
        assert eff[0] == es[0] && eff[1..] == Effective(rest);
        NoOpsAreInvisible(t, rest);
      }
    }
  }

  /** A delete request is only ever sent for a delete the user confirmed. */
  lemma {:induction false} DeleteNeedsConfirmation(projectId: string, s: PageState, es: seq<Event>, r: Request)
    requires r in Sent(projectId, s, es)
    requires r.DeleteTask?
    ensures exists i :: 0 <= i < |es| && es[i].DeleteClicked? && es[i].confirmed && es[i].taskId == r.taskId
    decreases |es|
  {
    var head := Requests(projectId, s, es[0]);
    var tail := Sent(projectId, Step(s, es[0]), es[1..]);
    if r in head {
      var k :| 0 <= k < |head| && head[k] == r;
    } else {
      assert r in tail;
      DeleteNeedsConfirmation(projectId, Step(s, es[0]), es[1..], r);
      var i :| 0 <= i < |es[1..]| && es[1..][i].DeleteClicked? && es[1..][i].confirmed && es[1..][i].taskId == r.taskId;
      assert es[i + 1] == es[1..][i];
    }
  }

  /**
   * The banner text is only ever cleared, or set from a create that failed:
   * no other intent writes it.
   */
  lemma {:induction false} ErrorComesFromFailedCreate(s: PageState, es: seq<Event>)
    ensures var err := Run(s, es).error;
      err == s.error || err == "" ||
      exists i :: 0 <= i < |es| && es[i].CreateSubmitted? && es[i].created.Fail? &&
        err == CreateErrorMessage(es[i].created.message)
    decreases |es|
  {
    if es != [] {
      var t := Step(s, es[0]);
      ErrorComesFromFailedCreate(t, es[1..]);
      var err := Run(s, es).error;
      assert err == Run(t, es[1..]).error;
      if err == t.error && err != s.error && err != "" {
        assert es[0].CreateSubmitted? && es[0].created.Fail?;
      } else if err != t.error && err != "" {
        var i :| 0 <= i < |es[1..]| && es[1..][i].CreateSubmitted? && es[1..][i].created.Fail? &&
          err == CreateErrorMessage(es[1..][i].created.message);
        assert es[i + 1] == es[1..][i];
      }
    }
  }

  /** After any session, the last create decides the banner text. */
  lemma {:induction false} RunErrorIsLastError(s: PageState, es: seq<Event>)
    ensures Run(s, es).error == LastError(s.error, es)
    decreases |es|
  {
    if es != [] {
      var init, e := es[..|es| - 1], es[|es| - 1];
      assert es == init + [e];
      RunSnoc(s, init, e);
      RunErrorIsLastError(s, init);
    }
  }

  /**
   * A failed create keeps what was typed, so submitting again posts the same
   * payload without retyping.
   */
  lemma RetryResendsSamePayload(projectId: string, s: PageState, message: Option<string>,
                                first: Outcome<seq<Task>>, retry: Event)
    requires retry.CreateSubmitted?
    ensures var after := Step(s, CreateSubmitted(Fail(message), first));
      Requests(projectId, after, retry)[0] == Requests(projectId, s, CreateSubmitted(Fail(message), first))[0]
  {
  }
}
