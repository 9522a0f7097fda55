/**
  The browser-side session record (lib/session-manager.ts). The record lives in local storage
  under one key; here that storage slot is a field holding either nothing, a parsed record or
  text that does not parse. The inactivity timer is a flag saying whether a timer is pending.
  Time is the parameter `now` (milliseconds), standing for `Date.now()`.
*/
module Session {
  import opened Common
  import opened JsString

  /** One hour: the absolute lifetime of a session. */
  const SessionTimeout: int := 3600000
  /** Thirty minutes: the longest pause between two activities. */
  const ActivityTimeout: int := 1800000

  /** `SessionData`. */
  datatype SessionData = SessionData(
    userId: string,
    email: string,
    role: string,
    loginTime: int,
    lastActivity: int,
    expiresAt: int,
    sessionId: string)

  /** What the storage slot may hold: a record, or text that `JSON.parse` rejects. */
  datatype Stored = Parsed(data: SessionData) | Corrupt

  /** A record `getSession` still accepts at time `now`. */
  predicate Live(d: SessionData, now: int) {
    now <= d.expiresAt && now - d.lastActivity <= ActivityTimeout
  }

  /** The record `setSession` stores. */
  function Created(userId: string, email: string, role: string, now: int, sessionId: string): (d: SessionData)
    ensures Live(d, now)
    ensures d.expiresAt - d.loginTime == SessionTimeout && d.lastActivity == d.loginTime == now
  {
    SessionData(userId, email, role, now, now, now + SessionTimeout, sessionId)
  }

  /**
    The session `getSession` returns: the stored record if it parses, has not expired and has
    not been idle for more than thirty minutes.
  */
  function Read(slot: Option<Stored>, now: int): (r: Option<SessionData>)
    ensures r.Some? <==> slot.Some? && slot.value.Parsed? && Live(slot.value.data, now)
    ensures r.Some? ==> r.value == slot.value.data
  {
    match slot
    case None => None
    case Some(Corrupt) => None
    case Some(Parsed(d)) =>
      if now > d.expiresAt then None
      else if now - d.lastActivity > ActivityTimeout then None
      else Some(d)
  }

  /** The slot after `updateActivity`: a live record has its activity time moved to `now`. */
  function Touch(slot: Option<Stored>, now: int): Option<Stored> {
    match Read(slot, now)
    case None => None
    case Some(d) => Some(Parsed(d.(lastActivity := now)))
  }

  /** The slot after `extendSession`: a live record gets a new hour from `now`. */
  function Extend(slot: Option<Stored>, now: int): Option<Stored> {
    match Read(slot, now)
    case None => None
    case Some(d) => Some(Parsed(d.(expiresAt := now + SessionTimeout, lastActivity := now)))
  }

  /** The slot after activity at each of `times` in turn. */
  function TouchAll(slot: Option<Stored>, times: seq<int>): Option<Stored>
    decreases |times|
  {
    if times == [] then slot else TouchAll(Touch(slot, times[0]), times[1..])
  }

  /**
    Activity never moves the expiry: after any number of activity updates the record, if it
    survives, is the original one with only its activity time changed.
  */
  lemma {:induction false} TouchAllKeepsExpiry(d: SessionData, times: seq<int>)
    decreases |times|
    ensures var s := TouchAll(Some(Parsed(d)), times);
      s.Some? ==> s.value.Parsed? && s.value.data == d.(lastActivity := s.value.data.lastActivity)
  {
    if times != [] {
      var s1 := Touch(Some(Parsed(d)), times[0]);
      if s1.Some? {
        TouchAllKeepsExpiry(s1.value.data, times[1..]);
      } else {
        NothingStaysNothing(times[1..]);
      }
    }
  }

  lemma {:induction false} NothingStaysNothing(times: seq<int>)
    decreases |times|
    ensures TouchAll(None, times) == None
  {
    if times != [] {
      NothingStaysNothing(times[1..]);
    }
  }

  /**
    However active the user is, a session is gone one hour after login unless it was
    explicitly extended.
  */
  lemma AbsoluteLifetime(userId: string, email: string, role: string, t0: int, sessionId: string,
                         times: seq<int>, now: int)
    requires now > t0 + SessionTimeout
    ensures Read(TouchAll(Some(Parsed(Created(userId, email, role, t0, sessionId))), times), now) == None
  {
    TouchAllKeepsExpiry(Created(userId, email, role, t0, sessionId), times);
  }

  /** Activity at `t` keeps a live session alive for the next thirty minutes, within its hour. */
  lemma TouchKeepsAlive(slot: Option<Stored>, t: int, later: int)
    requires Read(slot, t).Some?
    requires t <= later <= t + ActivityTimeout && later <= Read(slot, t).value.expiresAt
    ensures Read(Touch(slot, t), later) == Some(Read(slot, t).value.(lastActivity := t))
  {
  }

  /** Extending at `t` gives a full hour from `t`, but still only thirty idle minutes. */
  lemma ExtendWindow(slot: Option<Stored>, t: int, later: int)
    requires Read(slot, t).Some?
    ensures t <= later <= t + ActivityTimeout ==> Read(Extend(slot, t), later).Some?
    ensures later > t + ActivityTimeout ==> Read(Extend(slot, t), later).None?
    ensures Extend(slot, t).Some? && Extend(slot, t).value.data.expiresAt == t + SessionTimeout
  {
  }

  /** Pages `checkPageAccess` guards. */
  const GuardedPages: seq<string> := ["/dashboard", "/master-dashboard", "/admin-management", "/activity-logs"]

  predicate IsGuardedPage(pathname: string) {
    exists p :: p in GuardedPages && StartsWith(pathname, p)
  }

  /**
    What the inactivity timer's callback reports, as written: it reads the session at
    `readAt` (which already drops an idle one) and signals expiry only when the session it got
    back is idle at `checkAt`, its second reading of the clock.
  */
  function TimerSignalsAsWritten(slot: Option<Stored>, readAt: int, checkAt: int): (expired: bool)
    ensures expired ==> checkAt > readAt
  {
    var s := Read(slot, readAt);
    s.Some? && checkAt - s.value.lastActivity > ActivityTimeout
  }

  /**
    When both clock readings agree, the callback as written never signals, even when it is the
    callback itself that drops an idle session.
  */
  lemma TimerNeverSignals(d: SessionData, now: int)
    requires now <= d.expiresAt && now - d.lastActivity > ActivityTimeout
    ensures Read(Some(Parsed(d)), now).None?
    ensures !TimerSignalsAsWritten(Some(Parsed(d)), now, now)
  {
  }

  /**
    The callback as intended: it looks at the stored record before reading it, and signals
    exactly when a stored record is being dropped for inactivity.
  */
  function TimerSignals(slot: Option<Stored>, now: int): (expired: bool)
    ensures expired ==> Read(slot, now).None?
    ensures expired <==> slot.Some? && slot.value.Parsed? && now - slot.value.data.lastActivity > ActivityTimeout
  {
    match slot
    case Some(Parsed(d)) => now - d.lastActivity > ActivityTimeout
    case _ => false
  }

  /** `SessionManager`. */
  class SessionManager {
    /** The `quiz_session` local-storage entry. */
    var slot: Option<Stored>
    /** Whether an inactivity timer is pending. */
    var timerArmed: bool
    /** How many `sessionExpired` events were dispatched. */
    var expiredEvents: nat

    constructor ()
      ensures slot == None && !timerArmed && expiredEvents == 0
    {
      slot := None;
      timerArmed := false;
      expiredEvents := 0;
    }

    /** `setSession`: stores a new record (`sessionId` stands for the random id) and arms the timer. */
    method SetSession(userId: string, email: string, role: string, now: int, sessionId: string)
      modifies this
      ensures slot == Some(Parsed(Created(userId, email, role, now, sessionId)))
      ensures timerArmed && expiredEvents == old(expiredEvents)
    {
      slot := Some(Parsed(Created(userId, email, role, now, sessionId)));
      timerArmed := true;
    }

    /** `getSession`: a stored record that is refused is also removed, and the timer cancelled. */
    method GetSession(now: int) returns (session: Option<SessionData>)
      modifies this
      ensures session == Read(old(slot), now)
      ensures slot == (if session.Some? then old(slot) else None)
      ensures timerArmed == (if old(slot).Some? && session.None? then false else old(timerArmed))
      ensures expiredEvents == old(expiredEvents)
    {
      match slot
      case None =>
        return None;
      case Some(Corrupt) =>
        ClearSession();
        return None;
      case Some(Parsed(d)) =>
        if now > d.expiresAt {
          ClearSession();
          return None;
        }
        if now - d.lastActivity > ActivityTimeout {
          ClearSession();
          return None;
        }
        return Some(d);
    }

    /** `updateActivity`: records activity on a live session and restarts the timer. */
    method UpdateActivity(now: int)
      modifies this
      ensures slot == Touch(old(slot), now)
      ensures Read(old(slot), now).Some? ==> timerArmed
      ensures Read(old(slot), now).None? ==> timerArmed == (old(slot).None? && old(timerArmed))
      ensures expiredEvents == old(expiredEvents)
    {
      var session := GetSession(now);
      if session.Some? {
        slot := Some(Parsed(session.value.(lastActivity := now)));
        timerArmed := true;
      }
    }

    /** `extendSession`: a live session gets a new hour; the timer is left alone. */
    method ExtendSession(now: int)
      modifies this
      ensures slot == Extend(old(slot), now)
      ensures Read(old(slot), now).Some? ==> timerArmed == old(timerArmed)
      ensures Read(old(slot), now).None? ==> timerArmed == (old(slot).None? && old(timerArmed))
      ensures expiredEvents == old(expiredEvents)
    {
      var session := GetSession(now);
      if session.Some? {
        slot := Some(Parsed(session.value.(expiresAt := now + SessionTimeout, lastActivity := now)));
      }
    }

    /** `clearSession`: removes the record and cancels the timer. */
    method ClearSession()
      modifies this
      ensures slot == None && !timerArmed && expiredEvents == old(expiredEvents)
    {
      slot := None;
      timerArmed := false;
    }

    /** `isSessionValid`. */
    method IsSessionValid(now: int) returns (valid: bool)
      modifies this
      ensures valid <==> Read(old(slot), now).Some?
      ensures slot == (if valid then old(slot) else None)
      ensures timerArmed == (if old(slot).Some? && !valid then false else old(timerArmed))
      ensures expiredEvents == old(expiredEvents)
    {
      var session := GetSession(now);
      valid := session.Some?;
    }

    /** `getRemainingTime`: milliseconds until expiry, zero without a live session. */
    method GetRemainingTime(now: int) returns (ms: int)
      modifies this
      ensures ms >= 0
      ensures Read(old(slot), now).None? ==> ms == 0
      ensures Read(old(slot), now).Some? ==> ms == Read(old(slot), now).value.expiresAt - now
      ensures slot == (if Read(old(slot), now).Some? then old(slot) else None)
      ensures timerArmed == (if old(slot).Some? && Read(old(slot), now).None? then false else old(timerArmed))
      ensures expiredEvents == old(expiredEvents)
    {
      var session := GetSession(now);
      if session.None? {
        return 0;
      }
      ms := Max(0, session.value.expiresAt - now);
    }

    /** `validateSession`: a live session missing its id, email or user id is removed. */
    method ValidateSession(now: int) returns (ok: bool)
      modifies this
      ensures ok <==> (Read(old(slot), now).Some?
        && var d := Read(old(slot), now).value; d.sessionId != [] && d.email != [] && d.userId != [])
      ensures slot == (if ok then old(slot) else None)
      ensures ok ==> timerArmed == old(timerArmed)
      ensures !ok ==> timerArmed == (old(slot).None? && old(timerArmed))
      ensures expiredEvents == old(expiredEvents)
    {
      var session := GetSession(now);
      if session.None? {
        return false;
      }
      var d := session.value;
      if d.sessionId == [] || d.email == [] || d.userId == [] {
        ClearSession();
        return false;
      }
      return true;
    }

    /** `forceLogout`: clears the session; the browser is then sent to the login page. */
    method ForceLogout()
      modifies this
      ensures slot == None && !timerArmed && expiredEvents == old(expiredEvents)
    {
      ClearSession();
    }

    /**
      `checkPageAccess`: a guarded page without a live session forces a logout and is refused;
      any other page, or a guarded one with a live session, is allowed. The session is read
      only for guarded pages.
    */
    method CheckPageAccess(pathname: string, now: int) returns (allowed: bool)
      modifies this
      ensures !allowed <==> IsGuardedPage(pathname) && Read(old(slot), now).None?
      ensures !allowed ==> slot == None && !timerArmed
      ensures allowed ==> slot == old(slot) && timerArmed == old(timerArmed)
      ensures expiredEvents == old(expiredEvents)
    {
      var guarded := exists p :: p in GuardedPages && StartsWith(pathname, p);
      if guarded {
        var valid := IsSessionValid(now);
        if !valid {
          ForceLogout();
          return false;
        }
      }
      return true;
    }

    /**
      The inactivity timer's callback, as written: it reads the session at `readAt` and
      signals if the session is idle at `checkAt`.
    */
    method ActivityTimerFires(readAt: int, checkAt: int)
      modifies this
      ensures TimerSignalsAsWritten(old(slot), readAt, checkAt) ==> slot == None && !timerArmed
      ensures !TimerSignalsAsWritten(old(slot), readAt, checkAt) ==>
        && slot == (if Read(old(slot), readAt).Some? then old(slot) else None)
        && timerArmed == (if old(slot).Some? && Read(old(slot), readAt).None? then false else old(timerArmed))
      ensures expiredEvents == old(expiredEvents) + (if TimerSignalsAsWritten(old(slot), readAt, checkAt) then 1 else 0)
    {
      var session := GetSession(readAt);
      if session.Some? && checkAt - session.value.lastActivity > ActivityTimeout {
        ClearSession();
        expiredEvents := expiredEvents + 1;
      }
    }

    /**
      The inactivity timer's callback as intended: it decides on the stored record before
      reading it, so a session dropped for inactivity is also reported.
    */
    method ActivityTimerFiresCorrected(now: int)
      modifies this
      ensures slot == (if Read(old(slot), now).Some? then old(slot) else None)
      ensures timerArmed == (if old(slot).Some? && Read(old(slot), now).None? then false else old(timerArmed))
      ensures TimerSignals(old(slot), now) ==> slot == None
      ensures expiredEvents == old(expiredEvents) + (if TimerSignals(old(slot), now) then 1 else 0)
    {
      var expired := TimerSignals(slot, now);
      var session := GetSession(now);
      if expired {
        expiredEvents := expiredEvents + 1;
      }
    }

    /** The window focus listener: a live session records activity. */
    method OnFocus(now: int)
      modifies this
      ensures slot == Touch(old(slot), now)
      ensures Read(old(slot), now).Some? ==> timerArmed
      ensures Read(old(slot), now).None? ==> timerArmed == (old(slot).None? && old(timerArmed))
      ensures expiredEvents == old(expiredEvents)
    {
      var session := GetSession(now);
      if session.Some? {
        UpdateActivity(now);
      }
    }
  }
}
