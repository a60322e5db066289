/**
 * The global `SESSIONS` dictionary (rsub.py:23) from an editor view's id to
 * the session whose file that view shows, and the three places that update
 * it: `Session.on_done` when a download opens a view (rsub.py:131-137),
 * `on_post_save_async` when the view is saved (rsub.py:196-199) and
 * `on_close` when it is closed (rsub.py:202-206). Each handler ends with a
 * log line that looks up the session's `display-name`; a missing key raises
 * there, and that is the only part of the log line that is modelled.
 */
module Registry {
  import opened Errors
  import opened Bytes
  import opened Envelope
  import opened Messages
  import opened Sessions

  const DISPLAY_NAME: Bytes := "display-name"

  /** The sent bytes that follow `before`. */
  function Since(before: Bytes, after: Bytes): Bytes
    requires |before| <= |after|
  {
    after[|before|..]
  }

  class SessionRegistry {
    var sessions: map<int, Session>

    /** The session shown in the view, if any: what a handler for that view may change. */
    function At(viewId: int): set<Session>
      reads this
    {
      if viewId in sessions then {sessions[viewId]} else {}
    }

    /**
     * What the handlers leave alone in a session: the headers it received,
     * its parse flag, its unread input and its staging paths.
     */
    twostate predicate Unread(p: Session)
      reads p
    {
      && p.env == old(p.env) && p.parseDone == old(p.parseDone)
      && p.input == old(p.input) && p.staging == old(p.staging)
    }

    /** Every registered session has finished its download. */
    ghost predicate Valid()
      reads this, sessions.Values
    {
      forall id :: id in sessions ==> sessions[id].Valid() && sessions[id].parseDone
    }

    constructor ()
      ensures Valid() && sessions == map[]
    {
      sessions := map[];
    }

    /**
     * The registry part of `on_done` (rsub.py:131-137): a session already
     * shown in the view is closed keeping its file, and `s` takes its place.
     * If closing it raises, or its `display-name` is missing, the new
     * session is not registered.
     */
    method OnDone(s: Session, viewId: int) returns (o: Outcome)
      requires Valid() && s.Valid() && s.parseDone
      modifies this, At(viewId)`sent, At(viewId)`socketOpen, At(viewId)`staged
      ensures Valid()
      ensures viewId !in old(sessions) ==> o == Pass && sessions == old(sessions)[viewId := s]
      ensures viewId in old(sessions) ==>
        var p := old(sessions)[viewId];
        var env := old(p.env);
        && Unread(p)
        && (o.Pass? <==> old(p.socketOpen) && TOKEN in env && DISPLAY_NAME in env)
        && (o.Pass? ==> sessions == old(sessions)[viewId := s])
        && (o.Fail? ==> sessions == old(sessions))
        && (!old(p.socketOpen) ==> o == Fail(SocketClosed) && p.sent == old(p.sent) && !p.socketOpen)
        && (old(p.socketOpen) && TOKEN !in env ==>
              o == Fail(MissingKey(TOKEN)) && p.sent == old(p.sent) + CLOSE_LINE && p.socketOpen == old(p.socketOpen))
        && (old(p.socketOpen) && TOKEN in env ==>
              && p.sent == old(p.sent) + CloseMessage(env[TOKEN]) && !p.socketOpen
              && (DISPLAY_NAME !in env ==> o == Fail(MissingKey(DISPLAY_NAME))))
        && p.staged == old(p.staged)
    {
      if viewId in sessions {
        var previous := sessions[viewId];
        o := previous.Close(true);
        if o.Fail? {
          return;
        }
        if DISPLAY_NAME !in previous.env {
          return Fail(MissingKey(DISPLAY_NAME));
        }
      }
      sessions := sessions[viewId := s];
      o := Pass;
    }

    /**
     * `on_post_save_async` (rsub.py:196-199): the editor has written the
     * view's `content` to the staged file; the session in the view sends it
     * back. The registry itself does not change, and a view without a
     * session is ignored.
     */
    method OnPostSave(viewId: int, content: Bytes) returns (o: Outcome)
      requires Valid()
      modifies At(viewId)`sent, At(viewId)`staged
      ensures Valid() && sessions == old(sessions)
      ensures viewId !in sessions ==> o == Pass
      ensures viewId in sessions ==>
        var p := sessions[viewId];
        var env := old(p.env);
        && Unread(p) && p.socketOpen == old(p.socketOpen)
        && p.staged == Some(content)
        && (o.Pass? <==> old(p.socketOpen) && TOKEN in env && DISPLAY_NAME in env)
        && (!old(p.socketOpen) ==> o == Fail(SocketClosed) && p.sent == old(p.sent))
        && (old(p.socketOpen) && TOKEN !in env ==>
              o == Fail(MissingKey(TOKEN)) && p.sent == old(p.sent) + SAVE_LINE)
        && (old(p.socketOpen) && TOKEN in env ==>
              && p.sent == old(p.sent) + SaveMessage(env[TOKEN], content)
              && Decode(Since(old(p.sent), p.sent)) == Some(Save(env[TOKEN], content))
              && (DISPLAY_NAME !in env ==> o == Fail(MissingKey(DISPLAY_NAME))))
    {
      if viewId !in sessions {
        return Pass;
      }
      var session := sessions[viewId];
      session.staged := Some(content);
      ghost var before := session.sent;
      o := session.SendSave();
      if o.Fail? {
        return;
      }
      assert Since(before, session.sent) == SaveMessage(session.env[TOKEN], content);
      SaveRoundTrip(session.env[TOKEN], content);
      if DISPLAY_NAME !in session.env {
        return Fail(MissingKey(DISPLAY_NAME));
      }
    }

    /**
     * `on_close` (rsub.py:202-206): the view's session leaves the registry
     * and is closed, deleting its staged file. A view without a session is
     * ignored.
     */
    method OnClose(viewId: int) returns (o: Outcome)
      requires Valid()
      modifies this, At(viewId)`sent, At(viewId)`socketOpen, At(viewId)`staged
      ensures Valid() && sessions == old(sessions) - {viewId}
      ensures viewId !in old(sessions) ==> o == Pass
      ensures viewId in old(sessions) ==>
        var p := old(sessions)[viewId];
        var env := old(p.env);
        && Unread(p)
        && (o.Pass? <==> old(p.socketOpen) && TOKEN in env && old(p.staged).Some? && DISPLAY_NAME in env)
        && (!old(p.socketOpen) ==>
              o == Fail(SocketClosed) && p.sent == old(p.sent) && !p.socketOpen && p.staged == old(p.staged))
        && (old(p.socketOpen) && TOKEN !in env ==>
              && o == Fail(MissingKey(TOKEN)) && p.sent == old(p.sent) + CLOSE_LINE
              && p.socketOpen == old(p.socketOpen) && p.staged == old(p.staged))
        && (old(p.socketOpen) && TOKEN in env ==>
              && p.sent == old(p.sent) + CloseMessage(env[TOKEN]) && !p.socketOpen && p.staged == None
              && (old(p.staged).None? ==> o == Fail(FileNotFound))
              && (old(p.staged).Some? && DISPLAY_NAME !in env ==> o == Fail(MissingKey(DISPLAY_NAME))))
    {
      if viewId !in sessions {
        return Pass;
      }
      var session := sessions[viewId];
      sessions := sessions - {viewId};
      o := session.Close(false);
      if o.Fail? {
        return;
      }
      if DISPLAY_NAME !in session.env {
        return Fail(MissingKey(DISPLAY_NAME));
      }
    }
  }
}
