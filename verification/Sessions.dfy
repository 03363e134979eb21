/** Login sessions: their idle and absolute expiry, and the five service calls that change them. Instants are
    milliseconds; every call reads the clock once. */
module Sessions {
  import opened Options

  /** All three durations are positive; the defaults are seven days, one minute and twenty minutes. */
  datatype Config = Config(refreshMs: int, touchMs: int, idleMs: int) {
    predicate Valid() {
      refreshMs > 0 && touchMs > 0 && idleMs > 0
    }
  }

  /** `refreshToken` stands for the token whose hash is stored: distinct tokens have distinct hashes. */
  datatype Session = Session(
    usuario: nat, refreshToken: nat, loginAt: int, lastSeenAt: int, expiresAt: int,
    logoutAt: Option<int>, revokedAt: Option<int>)

  // One session

  predicate Ended(s: Session) {
    s.logoutAt.Some? || s.revokedAt.Some?
  }

  function IdleExpiresAt(cfg: Config, s: Session): int {
    s.lastSeenAt + cfg.idleMs
  }

  function ValidityLimit(cfg: Config, s: Session): int {
    if IdleExpiresAt(cfg, s) < s.expiresAt then IdleExpiresAt(cfg, s) else s.expiresAt
  }

  predicate Usable(cfg: Config, s: Session, now: int) {
    !Ended(s) && now < ValidityLimit(cfg, s)
  }

  /** What checking a session leaves behind: an overdue one is revoked as of the instant it ran out, a usable
      one is marked as seen if it is touched and its mark is old enough. */
  function Checked(cfg: Config, s: Session, now: int, touch: bool): Session {
    if Ended(s) then s
    else if ValidityLimit(cfg, s) <= now then s.(revokedAt := Some(ValidityLimit(cfg, s)))
    else if touch && now - s.lastSeenAt >= cfg.touchMs then s.(lastSeenAt := now)
    else s
  }

  function Renewed(cfg: Config, s: Session, now: int, interactive: bool, next: nat): Session {
    s.(refreshToken := next, expiresAt := now + cfg.refreshMs, lastSeenAt := if interactive then now else s.lastSeenAt)
  }

  // The calls

  /** `userAccepted` says whether the user is active and well configured. `interactive` is false only for requests
      marked passive. An access token names its session and its user; `genuine` says whether its signature and its
      format are right, and it expires at `exp`, in whole seconds. */
  datatype Call =
    | Login(id: nat, usuario: nat, next: nat)
    | Refresh(id: nat, token: nat, next: nat, userAccepted: bool, interactive: bool)
    | Verify(id: nat, uid: nat, genuine: bool, exp: int, userAccepted: bool, interactive: bool)
    | Logout(id: nat)
    | ResetPassword(usuario: nat)

  type Sessions = map<nat, Session>

  /** A verification only gets to the session with a genuine token that has not expired. */
  predicate TokenIsLive(c: Call, now: int)
    requires c.Verify?
  {
    c.genuine && c.exp > now / 1000
  }

  predicate Accepted(cfg: Config, sessions: Sessions, c: Call, now: int) {
    match c
    case Refresh(id, token, _, userAccepted, _) =>
      id in sessions && userAccepted && Usable(cfg, sessions[id], now) && sessions[id].refreshToken == token
    case Verify(id, uid, _, _, userAccepted, _) =>
      TokenIsLive(c, now) && id in sessions && Usable(cfg, sessions[id], now) && userAccepted
        && sessions[id].usuario == uid
    case _ => true
  }

  function After(cfg: Config, sessions: Sessions, c: Call, now: int): Sessions {
    match c
    case Login(id, usuario, next) =>
      if id in sessions then sessions
      else sessions[id := Session(usuario, next, now, now, now + cfg.refreshMs, None, None)]
    case Refresh(id, token, next, userAccepted, interactive) =>
      if id !in sessions || !userAccepted then sessions
      else if Accepted(cfg, sessions, c, now) then sessions[id := Renewed(cfg, sessions[id], now, interactive, next)]
      else sessions[id := Checked(cfg, sessions[id], now, false)]
    case Verify(id, _, _, _, _, interactive) =>
      if !TokenIsLive(c, now) || id !in sessions then sessions
      else sessions[id := Checked(cfg, sessions[id], now, interactive)]
    case Logout(id) =>
      if id !in sessions || Ended(sessions[id]) then sessions
      else sessions[id := sessions[id].(logoutAt := Some(now), lastSeenAt := now)]
    case ResetPassword(usuario) =>
      map id | id in sessions ::
        if sessions[id].usuario == usuario && !Ended(sessions[id]) then sessions[id].(revokedAt := Some(now))
          else sessions[id]
  }

  // Runs

  datatype Timed = Timed(call: Call, at: int)

  predicate InOrder(from: int, calls: seq<Timed>, to: int)
    decreases |calls|
  {
    if calls == [] then from <= to else from <= calls[0].at && InOrder(calls[0].at, calls[1..], to)
  }

  function Run(cfg: Config, sessions: Sessions, calls: seq<Timed>): Sessions
    decreases |calls|
  {
    if calls == [] then sessions else Run(cfg, After(cfg, sessions, calls[0].call, calls[0].at), calls[1..])
  }

  /** What holds of every session at any instant: it ended at most once, within its own lifetime, and an open one
      was last seen before it expires. */
  predicate Good(cfg: Config, s: Session, now: int) {
    && s.loginAt <= s.lastSeenAt <= now && s.expiresAt <= now + cfg.refreshMs
    && !(s.logoutAt.Some? && s.revokedAt.Some?)
    && (!Ended(s) ==> s.lastSeenAt < s.expiresAt)
    && (s.logoutAt.Some? ==> s.logoutAt.value == s.lastSeenAt)
    && (s.revokedAt.Some? ==> s.lastSeenAt <= s.revokedAt.value <= now)
  }

  ghost predicate AllGood(cfg: Config, sessions: Sessions, now: int) {
    forall id | id in sessions :: Good(cfg, sessions[id], now)
  }

  lemma StepKeepsGood(cfg: Config, sessions: Sessions, c: Call, from: int, now: int)
    requires cfg.Valid() && AllGood(cfg, sessions, from) && from <= now
    ensures AllGood(cfg, After(cfg, sessions, c, now), now)
  {
  }

  lemma {:induction false} RunKeepsGood(cfg: Config, sessions: Sessions, calls: seq<Timed>, from: int, to: int)
    requires cfg.Valid() && AllGood(cfg, sessions, from) && InOrder(from, calls, to)
    ensures AllGood(cfg, Run(cfg, sessions, calls), to)
    decreases |calls|
  {
    if calls != [] {
      StepKeepsGood(cfg, sessions, calls[0].call, from, calls[0].at);
      RunKeepsGood(cfg, After(cfg, sessions, calls[0].call, calls[0].at), calls[1..], calls[0].at, to);
    }
  }

  /** No session ever disappears or changes hands, and one that has ended never changes at all. */
  lemma {:induction false} EndedIsFinal(cfg: Config, sessions: Sessions, calls: seq<Timed>, id: nat)
    requires id in sessions
    ensures id in Run(cfg, sessions, calls) && Run(cfg, sessions, calls)[id].usuario == sessions[id].usuario
    ensures Ended(sessions[id]) ==> Run(cfg, sessions, calls)[id] == sessions[id]
    decreases |calls|
  {
    if calls != [] {
      EndedIsFinal(cfg, After(cfg, sessions, calls[0].call, calls[0].at), calls[1..], id);
    }
  }

  lemma StepKeepsUnusable(cfg: Config, sessions: Sessions, c: Call, id: nat, from: int, now: int)
    requires id in sessions && !Usable(cfg, sessions[id], from) && from <= now
    ensures id in After(cfg, sessions, c, now) && !Usable(cfg, After(cfg, sessions, c, now)[id], now)
  {
  }

  /** A session that is unusable at one instant is unusable at every later one, whatever is called in between. */
  lemma {:induction false} UnusableIsFinal(cfg: Config, sessions: Sessions, calls: seq<Timed>, id: nat, from: int,
      to: int)
    requires id in sessions && !Usable(cfg, sessions[id], from) && InOrder(from, calls, to)
    ensures id in Run(cfg, sessions, calls) && !Usable(cfg, Run(cfg, sessions, calls)[id], to)
    decreases |calls|
  {
    if calls != [] {
      StepKeepsUnusable(cfg, sessions, calls[0].call, id, from, calls[0].at);
      UnusableIsFinal(cfg, After(cfg, sessions, calls[0].call, calls[0].at), calls[1..], id, calls[0].at, to);
    }
  }

  /** When a check finds an overdue session, however late, the end it records is the very instant at which the
      session stopped being usable. */
  lemma RecordedEndIsExact(cfg: Config, sessions: Sessions, c: Call, now: int)
    requires cfg.Valid() && AllGood(cfg, sessions, now)
    requires ((c.Verify? && TokenIsLive(c, now)) || (c.Refresh? && c.userAccepted)) && c.id in sessions
    requires !Ended(sessions[c.id]) && !Usable(cfg, sessions[c.id], now)
    ensures var s := After(cfg, sessions, c, now)[c.id];
            && s.revokedAt.Some? && s.logoutAt == None && s.lastSeenAt < s.revokedAt.value <= now
            && forall t :: Usable(cfg, sessions[c.id], t) <==> t < s.revokedAt.value
  {
    var limit := ValidityLimit(cfg, sessions[c.id]);
    assert After(cfg, sessions, c, now)[c.id].revokedAt == Some(limit);
  }

  /** A successful interactive verification at `now` leaves a last-seen mark younger than the touch interval. */
  lemma VerifiedIsFresh(cfg: Config, sessions: Sessions, c: Call, now: int)
    requires cfg.Valid() && AllGood(cfg, sessions, now) && c.Verify? && c.interactive && Accepted(cfg, sessions, c, now)
    ensures var s := After(cfg, sessions, c, now)[c.id];
            now - cfg.touchMs < s.lastSeenAt <= now && Usable(cfg, s, now) && s.expiresAt == sessions[c.id].expiresAt
  {
  }

  /** The call neither shows activity of the user on this session nor ends it on purpose. */
  predicate Passive(c: Call, id: nat, usuario: nat) {
    match c
    case Refresh(i, _, _, _, interactive) => i == id ==> !interactive
    case Verify(i, _, _, _, _, interactive) => i == id ==> !interactive
    case Logout(i) => i != id
    case ResetPassword(u) => u != usuario
    case Login(_, _, _) => true
  }

  predicate AllPassive(calls: seq<Timed>, id: nat, usuario: nat) {
    forall i | 0 <= i < |calls| :: Passive(calls[i].call, id, usuario)
  }

  lemma PassiveStep(cfg: Config, sessions: Sessions, c: Call, now: int, id: nat)
    requires cfg.Valid() && id in sessions && Passive(c, id, sessions[id].usuario)
    requires sessions[id].expiresAt <= now + cfg.refreshMs
    ensures id in After(cfg, sessions, c, now)
    ensures var s := After(cfg, sessions, c, now)[id];
            && s.usuario == sessions[id].usuario && s.lastSeenAt == sessions[id].lastSeenAt
            && sessions[id].expiresAt <= s.expiresAt <= now + cfg.refreshMs
            && (Usable(cfg, sessions[id], now) ==> !Ended(s))
  {
  }

  lemma {:induction false} PassiveRun(cfg: Config, sessions: Sessions, calls: seq<Timed>, id: nat, from: int, to: int)
    requires cfg.Valid() && id in sessions && InOrder(from, calls, to) && AllPassive(calls, id, sessions[id].usuario)
    requires sessions[id].expiresAt <= from + cfg.refreshMs
    ensures id in Run(cfg, sessions, calls)
    ensures var s := Run(cfg, sessions, calls)[id];
            && s.lastSeenAt == sessions[id].lastSeenAt && s.expiresAt >= sessions[id].expiresAt
            && (Usable(cfg, sessions[id], to) ==> Usable(cfg, s, to))
    decreases |calls|
  {
    if calls != [] {
      var now, next := calls[0].at, After(cfg, sessions, calls[0].call, calls[0].at);
      NotBefore(now, calls[1..], to);
      assert Passive(calls[0].call, id, sessions[id].usuario);
      PassiveStep(cfg, sessions, calls[0].call, now, id);
      forall i | 0 <= i < |calls[1..]| ensures Passive(calls[1..][i].call, id, next[id].usuario) {
        assert calls[1..][i] == calls[i + 1];
      }
      PassiveRun(cfg, next, calls[1..], id, now, to);
    }
  }

  lemma {:induction false} NotBefore(from: int, calls: seq<Timed>, to: int)
    requires InOrder(from, calls, to)
    ensures from <= to
    decreases |calls|
  {
    if calls != [] {
      NotBefore(calls[0].at, calls[1..], to);
    }
  }

  /** How long one interactive verification at `now` carries a session that is only used passively afterwards:
      it stays usable while the idle time, less the touch interval, has not passed and it does not expire, and
      it is unusable as soon as the whole idle time has passed, however often it is renewed passively. */
  lemma OneVerificationCarries(cfg: Config, sessions: Sessions, c: Call, now: int, calls: seq<Timed>, to: int)
    requires cfg.Valid() && AllGood(cfg, sessions, now) && c.Verify? && c.interactive && Accepted(cfg, sessions, c, now)
    requires InOrder(now, calls, to) && AllPassive(calls, c.id, sessions[c.id].usuario)
    ensures c.id in Run(cfg, After(cfg, sessions, c, now), calls)
    ensures var s := Run(cfg, After(cfg, sessions, c, now), calls)[c.id];
            && (to <= now + cfg.idleMs - cfg.touchMs && to < sessions[c.id].expiresAt ==> Usable(cfg, s, to))
            && (to >= now + cfg.idleMs ==> !Usable(cfg, s, to))
  {
    VerifiedIsFresh(cfg, sessions, c, now);
    StepKeepsGood(cfg, sessions, c, now, now);
    PassiveRun(cfg, After(cfg, sessions, c, now), calls, c.id, now, to);
  }

  /** The tokens a call can store. */
  predicate Issues(c: Call, token: nat) {
    (c.Login? || c.Refresh?) && c.next == token
  }

  /** A refresh token is good for one renewal: once used, and as long as it is not issued again, it never
      renews that session any more. */
  lemma TokenWorksOnce(cfg: Config, sessions: Sessions, c: Call, now: int, calls: seq<Timed>, again: Call, later: int)
    requires c.Refresh? && Accepted(cfg, sessions, c, now) && c.next != c.token
    requires forall i | 0 <= i < |calls| :: !Issues(calls[i].call, c.token)
    requires again.Refresh? && again.id == c.id && again.token == c.token
    ensures !Accepted(cfg, Run(cfg, After(cfg, sessions, c, now), calls), again, later)
  {
    TokenStaysAway(cfg, After(cfg, sessions, c, now), calls, c.id, c.token);
  }

  lemma {:induction false} TokenStaysAway(cfg: Config, sessions: Sessions, calls: seq<Timed>, id: nat, token: nat)
    requires id in sessions && sessions[id].refreshToken != token
    requires forall i | 0 <= i < |calls| :: !Issues(calls[i].call, token)
    ensures id in Run(cfg, sessions, calls) && Run(cfg, sessions, calls)[id].refreshToken != token
    decreases |calls|
  {
    if calls != [] {
      forall i | 0 <= i < |calls[1..]| ensures !Issues(calls[1..][i].call, token) {
        assert calls[1..][i] == calls[i + 1];
      }
      TokenStaysAway(cfg, After(cfg, sessions, calls[0].call, calls[0].at), calls[1..], id, token);
    }
  }

  /** After a password reset no session the user had can ever be used again, and nobody else's is touched. */
  lemma ResetEndsAllSessions(cfg: Config, sessions: Sessions, usuario: nat, now: int, calls: seq<Timed>, id: nat,
      later: int)
    requires id in sessions
    ensures id in Run(cfg, After(cfg, sessions, ResetPassword(usuario), now), calls)
    ensures sessions[id].usuario == usuario ==>
              !Usable(cfg, Run(cfg, After(cfg, sessions, ResetPassword(usuario), now), calls)[id], later)
    ensures sessions[id].usuario != usuario ==> After(cfg, sessions, ResetPassword(usuario), now)[id] == sessions[id]
  {
    EndedIsFinal(cfg, After(cfg, sessions, ResetPassword(usuario), now), calls, id);
  }

  /** How long a session lasts untouched, from its login, from a renewal, and after a logout: not at all. */
  lemma LifetimeUntouched(cfg: Config, sessions: Sessions, c: Call, now: int, t: int)
    requires cfg.Valid() && AllGood(cfg, sessions, now) && now <= t
    ensures c.Login? && c.id !in sessions ==>
              (Usable(cfg, After(cfg, sessions, c, now)[c.id], t) <==> t < now + cfg.idleMs && t < now + cfg.refreshMs)
    ensures c.Refresh? && Accepted(cfg, sessions, c, now) ==>
              var since := if c.interactive then now else sessions[c.id].lastSeenAt;
              Usable(cfg, After(cfg, sessions, c, now)[c.id], t) <==> t < since + cfg.idleMs && t < now + cfg.refreshMs
    ensures c.Logout? && c.id in sessions ==> !Usable(cfg, After(cfg, sessions, c, now)[c.id], t)
  {
  }

  /** A call that is refused leaves every session as it is, except that an overdue one it looked at is revoked
      and that a verification refused for its user only may still mark the session as seen. */
  lemma RefusedCallsLeaveNoTrace(cfg: Config, sessions: Sessions, c: Call, now: int, id: nat)
    requires !Accepted(cfg, sessions, c, now) && id in sessions
    ensures var s, s' := sessions[id], After(cfg, sessions, c, now)[id];
            || s' == s
            || (id == c.id && !Ended(s) && !Usable(cfg, s, now) && s' == s.(revokedAt := Some(ValidityLimit(cfg, s))))
            || (id == c.id && c.Verify? && !(c.userAccepted && s.usuario == c.uid) && c.interactive
                && Usable(cfg, s, now)
              && s' == s.(lastSeenAt := now))
  {
  }

  // Which calls are accepted

  /** Open, and within both its lifetime and its idle time. */
  predicate IsAlive(cfg: Config, s: Session, now: int) {
    s.logoutAt == None && s.revokedAt == None && now < s.expiresAt && now < s.lastSeenAt + cfg.idleMs
  }

  /** A verification succeeds exactly for a genuine token that has not expired, a session that is alive, and an
      accepted user who is the session's own. */
  lemma VerificationMeans(cfg: Config, sessions: Sessions, id: nat, uid: nat, genuine: bool, exp: int,
      userAccepted: bool, interactive: bool, now: int)
    ensures Accepted(cfg, sessions, Verify(id, uid, genuine, exp, userAccepted, interactive), now) <==>
              && genuine && now < exp * 1000 && id in sessions && IsAlive(cfg, sessions[id], now)
              && userAccepted && sessions[id].usuario == uid
  {
  }

  /** A renewal succeeds exactly for an accepted user of a session that is alive and has the token; it leaves the
      session with the new token and a new lifetime. */
  lemma RenewalMeans(cfg: Config, sessions: Sessions, id: nat, token: nat, next: nat, userAccepted: bool,
      interactive: bool, now: int)
    ensures var c := Refresh(id, token, next, userAccepted, interactive);
            && (Accepted(cfg, sessions, c, now) <==>
                  && id in sessions && IsAlive(cfg, sessions[id], now) && userAccepted
                  && sessions[id].refreshToken == token)
            && (Accepted(cfg, sessions, c, now) ==>
                  id in After(cfg, sessions, c, now)
                  && After(cfg, sessions, c, now)[id] == sessions[id].(refreshToken := next,
                       expiresAt := now + cfg.refreshMs,
                       lastSeenAt := if interactive then now else sessions[id].lastSeenAt))
  {
  }

  /** An accepted verification moves nothing but the mark of last use, and that exactly when it is interactive and the
      mark is as old as the touch interval. */
  lemma VerificationMarks(cfg: Config, sessions: Sessions, c: Call, now: int)
    requires c.Verify? && Accepted(cfg, sessions, c, now)
    ensures c.id in After(cfg, sessions, c, now)
    ensures After(cfg, sessions, c, now)[c.id]
            == if c.interactive && now >= sessions[c.id].lastSeenAt + cfg.touchMs
               then sessions[c.id].(lastSeenAt := now) else sessions[c.id]
  {
  }

  /** A call touches no session but the one it names, a login only makes a new one, and a reset only touches the
      sessions of its user, which it ends if they are open; a logout ends an open session. */
  lemma CallsAreLocal(cfg: Config, sessions: Sessions, c: Call, now: int, id: nat)
    requires id in sessions
    ensures id in After(cfg, sessions, c, now)
    ensures !c.ResetPassword? && (c.id != id || c.Login?) ==> After(cfg, sessions, c, now)[id] == sessions[id]
    ensures c.ResetPassword? ==>
              After(cfg, sessions, c, now)[id]
              == if sessions[id].usuario == c.usuario && sessions[id].logoutAt == None && sessions[id].revokedAt == None
                 then sessions[id].(revokedAt := Some(now)) else sessions[id]
    ensures c.Logout? && c.id == id && sessions[id].logoutAt == None && sessions[id].revokedAt == None ==>
              After(cfg, sessions, c, now)[id] == sessions[id].(logoutAt := Some(now), lastSeenAt := now)
    ensures c.Login? && c.id !in sessions ==>
              After(cfg, sessions, c, now) == sessions[c.id := Session(c.usuario, c.next, now, now, now + cfg.refreshMs,
                  None, None)]
  {
  }

  // The service

  class AuthService {
    const cfg: Config
    var sessions: Sessions

    constructor (cfg: Config)
      requires cfg.Valid()
      ensures this.cfg == cfg && sessions == map[]
    {
      this.cfg, this.sessions := cfg, map[];
    }

    method ExpireSession(id: nat, revokedAt: int)
      requires id in sessions
      modifies this
      ensures sessions == if Ended(old(sessions)[id]) then old(sessions)
              else old(sessions)[id := old(sessions)[id].(revokedAt := Some(revokedAt))]
    {
      if sessions[id].revokedAt.None? && sessions[id].logoutAt.None? {
        sessions := sessions[id := sessions[id].(revokedAt := Some(revokedAt))];
      }
    }

    method TouchSessionIfNeeded(id: nat, now: int)
      requires id in sessions
      modifies this
      ensures sessions == if now - old(sessions)[id].lastSeenAt < cfg.touchMs then old(sessions)
                          else old(sessions)[id := old(sessions)[id].(lastSeenAt := now)]
    {
      if now - sessions[id].lastSeenAt < cfg.touchMs {
        return;
      }
      sessions := sessions[id := sessions[id].(lastSeenAt := now)];
    }

    method EnsureSessionIsUsable(id: nat, now: int, interactive: bool, ignoreTouch: bool) returns (usable: bool)
      requires id in sessions
      modifies this
      ensures usable == Usable(cfg, old(sessions)[id], now)
      ensures sessions == old(sessions)[id := Checked(cfg, old(sessions)[id], now, interactive && !ignoreTouch)]
    {
      var s := sessions[id];
      assert sessions == sessions[id := s];
      if Ended(s) {
        return false;
      }
      if ValidityLimit(cfg, s) <= now {
        ExpireSession(id, ValidityLimit(cfg, s));
        return false;
      }
      if !ignoreTouch && interactive {
        TouchSessionIfNeeded(id, now);
      }
      return true;
    }

    method LoginSession(id: nat, usuario: nat, next: nat, now: int)
      requires id !in sessions
      modifies this
      ensures sessions == After(cfg, old(sessions), Login(id, usuario, next), now)
    {
      sessions := sessions[id := Session(usuario, next, now, now, now + cfg.refreshMs, None, None)];
    }

    method RefreshSession(id: nat, token: nat, next: nat, userAccepted: bool, interactive: bool,
        now: int) returns (ok: bool)
      modifies this
      ensures ok == Accepted(cfg, old(sessions), Refresh(id, token, next, userAccepted, interactive), now)
      ensures sessions == After(cfg, old(sessions), Refresh(id, token, next, userAccepted, interactive), now)
    {
      if id !in sessions || !userAccepted {
        return false;
      }
      var s := sessions[id];
      var usable := EnsureSessionIsUsable(id, now, interactive, true);
      if !usable || s.refreshToken != token {
        return false;
      }
      sessions := sessions[id := Renewed(cfg, s, now, interactive, next)];
      return true;
    }

    method VerifyAccessToken(id: nat, uid: nat, genuine: bool, exp: int, userAccepted: bool, interactive: bool,
        now: int) returns (ok: bool)
      modifies this
      ensures ok == Accepted(cfg, old(sessions), Verify(id, uid, genuine, exp, userAccepted, interactive), now)
      ensures sessions == After(cfg, old(sessions), Verify(id, uid, genuine, exp, userAccepted, interactive), now)
    {
      if !genuine || exp <= now / 1000 {
        return false;
      }
      if id !in sessions {
        return false;
      }
      var usable := EnsureSessionIsUsable(id, now, interactive, false);
      if !usable || !userAccepted {
        return false;
      }
      return sessions[id].usuario == uid;
    }

    method LogoutSession(id: nat, now: int)
      modifies this
      ensures sessions == After(cfg, old(sessions), Logout(id), now)
    {
      if id in sessions && sessions[id].revokedAt.None? && sessions[id].logoutAt.None? {
        sessions := sessions[id := sessions[id].(logoutAt := Some(now), lastSeenAt := now)];
      }
    }

    method ResetPasswordOf(usuario: nat, now: int)
      modifies this
      ensures sessions == After(cfg, old(sessions), ResetPassword(usuario), now)
    {
      sessions := map id | id in sessions ::
        if sessions[id].usuario == usuario && sessions[id].revokedAt.None? && sessions[id].logoutAt.None?
        then sessions[id].(revokedAt := Some(now)) else sessions[id];
    }
  }
}
