/** The access-time report: how long each user was logged in during a period, computed over sessions that the
    database has already narrowed down. */
module AccessTimeReport {
  import opened Sessions

  /** Both ends of the period, in milliseconds. */
  datatype Period = Period(start: int, end: int)

  datatype Row = Row(totalSessions: nat, activeSessions: nat, totalDurationMs: int, lastLoginAt: int,
      lastActivityAt: int)

  function Max(a: int, b: int): int {
    if a < b then b else a
  }

  function Min(a: int, b: int): int {
    if a < b then a else b
  }

  // One session

  /** The end of a session as seen at `now`. */
  function TerminalDate(cfg: Config, s: Session, now: int): int {
    match (s.logoutAt, s.revokedAt)
    case (Some(logoutAt), _) => logoutAt
    case (None, Some(revokedAt)) => revokedAt
    case (None, None) => Min(ValidityLimit(cfg, s), now)
  }

  function OverlapEnd(cfg: Config, p: Period, now: int, s: Session): int {
    Min(TerminalDate(cfg, s, now), p.end)
  }

  function OverlapMs(cfg: Config, p: Period, now: int, s: Session): int {
    OverlapEnd(cfg, p, now, s) - Max(s.loginAt, p.start)
  }

  /** What the service counts as an active session: one that ends after now. */
  predicate IsSessionActive(cfg: Config, s: Session, now: int) {
    TerminalDate(cfg, s, now) > now
  }

  /** No session ever counts as active: the end of an open one is capped at now, and one that has ended, ended by
      now. */
  lemma NoSessionIsActive(cfg: Config, s: Session, now: int)
    requires Good(cfg, s, now)
    ensures !IsSessionActive(cfg, s, now)
  {
  }

  /** The condition of the database query. */
  predicate Prefiltered(p: Period, s: Session) {
    && s.loginAt <= p.end
    && (|| (s.logoutAt.Some? && s.logoutAt.value >= p.start)
        || (s.revokedAt.Some? && s.revokedAt.value >= p.start)
        || (s.logoutAt.None? && s.revokedAt.None? && s.expiresAt >= p.start))
  }

  /** The ends the database knows of a session; of an open one, its expiry. */
  ghost function KnownEnds(s: Session): set<int> {
    (if s.logoutAt.Some? then {s.logoutAt.value} else {}) + (if s.revokedAt.Some? then {s.revokedAt.value} else {})
    + (if s.logoutAt.None? && s.revokedAt.None? then {s.expiresAt} else {})
  }

  /** The query asks for the sessions that began by the end of the period and do not end before it. */
  lemma QueryMeans(p: Period, s: Session)
    ensures Prefiltered(p, s) <==> s.loginAt <= p.end && exists e | e in KnownEnds(s) :: e >= p.start
  {
    assert s.logoutAt.Some? ==> s.logoutAt.value in KnownEnds(s);
    assert s.revokedAt.Some? ==> s.revokedAt.value in KnownEnds(s);
    assert s.logoutAt.None? && s.revokedAt.None? ==> s.expiresAt in KnownEnds(s);
  }

  /** A session that the query leaves out has no time in the period. */
  lemma LeftOutHasNoOverlap(cfg: Config, p: Period, now: int, s: Session)
    requires !Prefiltered(p, s)
    ensures OverlapMs(cfg, p, now, s) <= 0
  {
  }

  /** The overlap is the part of the period the session covers, instant by instant. */
  lemma OverlapIsIntersection(cfg: Config, p: Period, now: int, s: Session, t: int)
    ensures p.start <= t < p.end && s.loginAt <= t < TerminalDate(cfg, s, now) <==>
              Max(s.loginAt, p.start) <= t < Max(s.loginAt, p.start) + OverlapMs(cfg, p, now, s)
  {
  }

  /** What the report counts of a session as seen at `now`: of one that has ended, the time up to its logout or else its
      revocation; of an open one, the time up to now during which it was usable. */
  lemma CountedTimeIsUse(cfg: Config, s: Session, now: int, t: int)
    ensures s.logoutAt.Some? ==> TerminalDate(cfg, s, now) == s.logoutAt.value
    ensures s.logoutAt.None? && s.revokedAt.Some? ==> TerminalDate(cfg, s, now) == s.revokedAt.value
    ensures s.logoutAt.None? && s.revokedAt.None? ==>
              (t < TerminalDate(cfg, s, now) <==> t < now && t < s.expiresAt && t < s.lastSeenAt + cfg.idleMs)
  {
  }

  // The report, user by user

  /** The sessions of one user that count, in order. */
  function Counted(cfg: Config, p: Period, now: int, sessions: seq<Session>, usuario: nat): seq<Session> {
    if sessions == [] then []
    else
      var last, rest := sessions[|sessions| - 1], Counted(cfg, p, now, sessions[..|sessions| - 1], usuario);
      if last.usuario == usuario && OverlapMs(cfg, p, now, last) > 0 then rest + [last] else rest
  }

  function Duration(cfg: Config, p: Period, now: int, sessions: seq<Session>): int {
    if sessions == [] then 0
    else Duration(cfg, p, now, sessions[..|sessions| - 1]) + Max(0, OverlapMs(cfg, p, now, sessions[|sessions| - 1]))
  }

  function CountPositive(cfg: Config, p: Period, now: int, sessions: seq<Session>): nat {
    if sessions == [] then 0
    else
      var last, rest := sessions[|sessions| - 1], CountPositive(cfg, p, now, sessions[..|sessions| - 1]);
      if OverlapMs(cfg, p, now, last) > 0 then rest + 1 else rest
  }

  function OneIfActive(cfg: Config, s: Session, now: int): nat {
    if IsSessionActive(cfg, s, now) then 1 else 0
  }

  function CountActive(cfg: Config, now: int, sessions: seq<Session>): nat {
    if sessions == [] then 0
    else CountActive(cfg, now, sessions[..|sessions| - 1]) + OneIfActive(cfg, sessions[|sessions| - 1], now)
  }

  /** `row` sums up exactly the sessions in `mine`. */
  ghost predicate Summarises(cfg: Config, p: Period, now: int, mine: seq<Session>, row: Row) {
    && mine != [] && row.totalSessions == |mine| && row.activeSessions == CountActive(cfg, now, mine)
    && row.totalDurationMs == Duration(cfg, p, now, mine)
    && (forall s | s in mine :: s.loginAt <= row.lastLoginAt && OverlapEnd(cfg, p, now, s) <= row.lastActivityAt)
    && (exists s | s in mine :: s.loginAt == row.lastLoginAt)
    && (exists s | s in mine :: OverlapEnd(cfg, p, now, s) == row.lastActivityAt)
  }

  /** The report has a row for exactly the users with time in the period. */
  ghost predicate IsReport(cfg: Config, p: Period, now: int, sessions: seq<Session>, report: map<nat, Row>) {
    && (forall u | u in report :: Summarises(cfg, p, now, Counted(cfg, p, now, sessions, u), report[u]))
    && (forall u :: u !in report ==> Counted(cfg, p, now, sessions, u) == [])
  }

  lemma Snoc<T>(xs: seq<T>, x: T)
    ensures (xs + [x])[..|xs + [x]| - 1] == xs && (xs + [x])[|xs + [x]| - 1] == x
  {
  }

  lemma OneMoreSession(cfg: Config, p: Period, now: int, mine: seq<Session>, s: Session, row: Row)
    requires Summarises(cfg, p, now, mine, row) && OverlapMs(cfg, p, now, s) > 0
    ensures Summarises(cfg, p, now, mine + [s],
              Row(row.totalSessions + 1, row.activeSessions + OneIfActive(cfg, s, now),
                  row.totalDurationMs + OverlapMs(cfg, p, now, s),
                  Max(row.lastLoginAt, s.loginAt), Max(row.lastActivityAt, OverlapEnd(cfg, p, now, s))))
  {
    hide OverlapMs, OverlapEnd, OneIfActive;
    Snoc(mine, s);
    var l :| l in mine && l.loginAt == row.lastLoginAt;
    var a :| a in mine && OverlapEnd(cfg, p, now, a) == row.lastActivityAt;
    assert l in mine + [s] && a in mine + [s] && s in mine + [s];
  }

  lemma FirstSession(cfg: Config, p: Period, now: int, s: Session)
    requires OverlapMs(cfg, p, now, s) > 0
    ensures Summarises(cfg, p, now, [s],
              Row(1, OneIfActive(cfg, s, now), OverlapMs(cfg, p, now, s), s.loginAt, OverlapEnd(cfg, p, now, s)))
  {
    hide OverlapMs, OverlapEnd, OneIfActive;
    assert [s][..0] == [];
    assert Duration(cfg, p, now, [s][..0]) == 0;
    assert CountActive(cfg, now, [s][..0]) == 0;
    assert [s][0] == s && s in [s];
  }

  // Totals over all rows

  function SumSessions(order: seq<nat>, report: map<nat, Row>): nat
    requires forall u | u in order :: u in report
  {
    if order == [] then 0 else report[order[0]].totalSessions + SumSessions(order[1..], report)
  }

  function SumDurations(order: seq<nat>, report: map<nat, Row>): int
    requires forall u | u in order :: u in report
  {
    if order == [] then 0 else report[order[0]].totalDurationMs + SumDurations(order[1..], report)
  }

  predicate Distinct(order: seq<nat>) {
    forall i, j | 0 <= i < j < |order| :: order[i] != order[j]
  }

  lemma {:induction false} SumsAfterUpdate(order: seq<nat>, report: map<nat, Row>, u: nat, row: Row)
    requires Distinct(order) && forall v | v in order :: v in report
    ensures forall v | v in order :: v in report[u := row]
    ensures u !in order ==> SumSessions(order, report[u := row]) == SumSessions(order, report)
                            && SumDurations(order, report[u := row]) == SumDurations(order, report)
    ensures u in order ==>
              && SumSessions(order, report[u := row])
                  == SumSessions(order, report) - report[u].totalSessions + row.totalSessions
              && SumDurations(order, report[u := row])
                  == SumDurations(order, report) - report[u].totalDurationMs + row.totalDurationMs
  {
    if order != [] {
      assert forall v | v in order[1..] :: v in order;
      assert order[0] !in order[1..];
      assert u in order <==> u == order[0] || u in order[1..];
      SumsAfterUpdate(order[1..], report, u, row);
    }
  }

  lemma {:induction false} SumsOfAppended(order: seq<nat>, report: map<nat, Row>, u: nat)
    requires u in report && forall v | v in order :: v in report
    ensures forall v | v in order + [u] :: v in report
    ensures SumSessions(order + [u], report) == SumSessions(order, report) + report[u].totalSessions
    ensures SumDurations(order + [u], report) == SumDurations(order, report) + report[u].totalDurationMs
  {
    if order == [] {
      assert order + [u] == [u];
    } else {
      assert (order + [u])[1..] == order[1..] + [u];
      SumsOfAppended(order[1..], report, u);
    }
  }

  // The loop over the sessions

  ghost predicate Totalled(cfg: Config, p: Period, now: int, sessions: seq<Session>, report: map<nat, Row>,
      order: seq<nat>) {
    && Distinct(order) && (forall u :: u in order <==> u in report)
    && SumSessions(order, report) == CountPositive(cfg, p, now, sessions)
    && SumDurations(order, report) == Duration(cfg, p, now, sessions)
  }

  lemma IgnoreSession(cfg: Config, p: Period, now: int, sessions: seq<Session>, s: Session, report: map<nat, Row>,
      order: seq<nat>)
    requires IsReport(cfg, p, now, sessions, report) && Totalled(cfg, p, now, sessions, report, order)
    requires OverlapMs(cfg, p, now, s) <= 0
    ensures IsReport(cfg, p, now, sessions + [s], report) && Totalled(cfg, p, now, sessions + [s], report, order)
  {
    hide OverlapMs, OverlapEnd, Summarises;
    Snoc(sessions, s);
  }

  function AddedRow(cfg: Config, p: Period, now: int, s: Session, report: map<nat, Row>): Row {
    if s.usuario !in report
      then Row(1, OneIfActive(cfg, s, now), OverlapMs(cfg, p, now, s), s.loginAt, OverlapEnd(cfg, p, now, s))
    else
      var row := report[s.usuario];
      Row(row.totalSessions + 1, row.activeSessions + OneIfActive(cfg, s, now),
          row.totalDurationMs + OverlapMs(cfg, p, now, s),
          Max(row.lastLoginAt, s.loginAt), Max(row.lastActivityAt, OverlapEnd(cfg, p, now, s)))
  }

  lemma AddSession(cfg: Config, p: Period, now: int, sessions: seq<Session>, s: Session, report: map<nat, Row>)
    requires IsReport(cfg, p, now, sessions, report) && OverlapMs(cfg, p, now, s) > 0
    ensures IsReport(cfg, p, now, sessions + [s], report[s.usuario := AddedRow(cfg, p, now, s, report)])
  {
    hide OverlapMs, OverlapEnd, Summarises, AddedRow;
    Snoc(sessions, s);
    var u := s.usuario;
    var mine := Counted(cfg, p, now, sessions, u);
    assert Counted(cfg, p, now, sessions + [s], u) == mine + [s];
    AddRow(cfg, p, now, mine, s, report);
  }

  lemma AddRow(cfg: Config, p: Period, now: int, mine: seq<Session>, s: Session, report: map<nat, Row>)
    requires if s.usuario in report then Summarises(cfg, p, now, mine, report[s.usuario]) else mine == []
    requires OverlapMs(cfg, p, now, s) > 0
    ensures Summarises(cfg, p, now, mine + [s], AddedRow(cfg, p, now, s, report))
  {
    hide OverlapMs, OverlapEnd, Summarises;
    if s.usuario in report {
      OneMoreSession(cfg, p, now, mine, s, report[s.usuario]);
    } else {
      FirstSession(cfg, p, now, s);
      assert mine + [s] == [s];
    }
  }

  lemma AddToTotals(cfg: Config, p: Period, now: int, sessions: seq<Session>, s: Session, report: map<nat, Row>,
      order: seq<nat>)
    requires Totalled(cfg, p, now, sessions, report, order) && OverlapMs(cfg, p, now, s) > 0
    ensures Totalled(cfg, p, now, sessions + [s], report[s.usuario := AddedRow(cfg, p, now, s, report)],
              if s.usuario in report then order else order + [s.usuario])
  {
    hide OverlapMs, OverlapEnd;
    var u, row := s.usuario, AddedRow(cfg, p, now, s, report);
    Snoc(sessions, s);
    SumsAfterUpdate(order, report, u, row);
    if u !in report {
      SumsOfAppended(order, report[u := row], u);
    }
  }

  /** One session with time in the period, added to its user's row or to a new one. */
  method AddOverlap(cfg: Config, p: Period, now: int, s: Session, overlapStart: int, overlapEnd: int,
      grouped: map<nat, Row>, order: seq<nat>)
    returns (grouped': map<nat, Row>, order': seq<nat>)
    requires overlapEnd == OverlapEnd(cfg, p, now, s) && overlapEnd - overlapStart == OverlapMs(cfg, p, now, s)
    ensures grouped' == grouped[s.usuario := AddedRow(cfg, p, now, s, grouped)]
    ensures order' == if s.usuario in grouped then order else order + [s.usuario]
  {
    hide OverlapMs, OverlapEnd, IsSessionActive;
    grouped', order' := grouped, order;
    var active := if IsSessionActive(cfg, s, now) then 1 else 0;
    if s.usuario !in grouped {
      grouped' := grouped[s.usuario := Row(1, active, overlapEnd - overlapStart, s.loginAt, overlapEnd)];
      order' := order + [s.usuario];
      return;
    }
    var row := grouped[s.usuario];
    row := row.(totalSessions := row.totalSessions + 1, activeSessions := row.activeSessions + active);
    row := row.(totalDurationMs := row.totalDurationMs + (overlapEnd - overlapStart));
    if row.lastLoginAt < s.loginAt {
      row := row.(lastLoginAt := s.loginAt);
    }
    if row.lastActivityAt < overlapEnd {
      row := row.(lastActivityAt := overlapEnd);
    }
    grouped' := grouped[s.usuario := row];
  }

  lemma NothingYet(cfg: Config, p: Period, now: int)
    ensures IsReport(cfg, p, now, [], map[]) && Totalled(cfg, p, now, [], map[], [])
  {
  }

  /** The rows in the order in which their users first turned up. */
  method GroupSessions(cfg: Config, p: Period, now: int, sessions: seq<Session>)
    returns (grouped: map<nat, Row>, order: seq<nat>)
    ensures IsReport(cfg, p, now, sessions, grouped)
    ensures Totalled(cfg, p, now, sessions, grouped, order)
  {
    hide IsReport, Totalled, AddedRow;
    grouped, order := map[], [];
    NothingYet(cfg, p, now);
    assert sessions[..0] == [];
    for i := 0 to |sessions|
      invariant IsReport(cfg, p, now, sessions[..i], grouped)
      invariant Totalled(cfg, p, now, sessions[..i], grouped, order)
    {
      var s := sessions[i];
      assert sessions[..i + 1] == sessions[..i] + [s];
      var sessionEnd := TerminalDate(cfg, s, now);
      var overlapStart := if s.loginAt < p.start then p.start else s.loginAt;
      var overlapEnd := if sessionEnd < p.end then sessionEnd else p.end;
      if overlapEnd <= overlapStart {
        IgnoreSession(cfg, p, now, sessions[..i], s, grouped, order);
      } else {
        AddSession(cfg, p, now, sessions[..i], s, grouped);
        AddToTotals(cfg, p, now, sessions[..i], s, grouped, order);
        grouped, order := AddOverlap(cfg, p, now, s, overlapStart, overlapEnd, grouped, order);
      }
    }
    assert sessions[..|sessions|] == sessions;
  }

  // The final order: longest time first, then by name, whose collation order is given by `rank`

  predicate ListedBefore(report: map<nat, Row>, rank: nat -> int, u: nat, v: nat)
    requires u in report && v in report
  {
    if report[u].totalDurationMs != report[v].totalDurationMs then report[u].totalDurationMs > report[v].totalDurationMs
    else rank(u) < rank(v)
  }

  function InsertUser(report: map<nat, Row>, rank: nat -> int, u: nat, sorted: seq<nat>): (r: seq<nat>)
    requires u in report && forall v | v in sorted :: v in report
    ensures forall v :: v in r <==> v == u || v in sorted
  {
    if sorted == [] || !ListedBefore(report, rank, sorted[0], u) then [u] + sorted
    else [sorted[0]] + InsertUser(report, rank, u, sorted[1..])
  }

  function SortUsers(report: map<nat, Row>, rank: nat -> int, users: seq<nat>): (r: seq<nat>)
    requires forall v | v in users :: v in report
    ensures forall v :: v in r <==> v in users
  {
    if users == [] then [] else InsertUser(report, rank, users[0], SortUsers(report, rank, users[1..]))
  }

  ghost predicate InReportOrder(report: map<nat, Row>, rank: nat -> int, users: seq<nat>)
    requires forall v | v in users :: v in report
  {
    forall i, j | 0 <= i < j < |users| :: !ListedBefore(report, rank, users[j], users[i])
  }

  lemma {:induction false} InsertKeepsReportOrder(report: map<nat, Row>, rank: nat -> int, u: nat, sorted: seq<nat>)
    requires u in report && (forall v | v in sorted :: v in report) && InReportOrder(report, rank, sorted)
    ensures InReportOrder(report, rank, InsertUser(report, rank, u, sorted))
    decreases |sorted|
  {
    var all := InsertUser(report, rank, u, sorted);
    if sorted != [] && ListedBefore(report, rank, sorted[0], u) {
      var rest := InsertUser(report, rank, u, sorted[1..]);
      InsertKeepsReportOrder(report, rank, u, sorted[1..]);
      forall j | 0 <= j < |rest| ensures !ListedBefore(report, rank, rest[j], sorted[0]) {
        assert rest[j] == u || rest[j] in sorted[1..];
      }
    }
  }

  lemma {:induction false} InsertKeepsSums(report: map<nat, Row>, rank: nat -> int, u: nat, sorted: seq<nat>)
    requires u in report && (forall v | v in sorted :: v in report) && u !in sorted && Distinct(sorted)
    ensures var r := InsertUser(report, rank, u, sorted);
            && Distinct(r) && SumSessions(r, report) == report[u].totalSessions + SumSessions(sorted, report)
            && SumDurations(r, report) == report[u].totalDurationMs + SumDurations(sorted, report)
    decreases |sorted|
  {
    if sorted == [] || !ListedBefore(report, rank, sorted[0], u) {
      assert ([u] + sorted)[1..] == sorted;
    } else {
      var rest := InsertUser(report, rank, u, sorted[1..]);
      assert sorted[0] !in sorted[1..];
      InsertKeepsSums(report, rank, u, sorted[1..]);
      assert ([sorted[0]] + rest)[1..] == rest;
    }
  }

  lemma {:induction false} SortKeepsSums(report: map<nat, Row>, rank: nat -> int, users: seq<nat>)
    requires (forall v | v in users :: v in report) && Distinct(users)
    ensures var r := SortUsers(report, rank, users);
            && InReportOrder(report, rank, r) && Distinct(r)
            && SumSessions(r, report) == SumSessions(users, report)
            && SumDurations(r, report) == SumDurations(users, report)
    decreases |users|
  {
    hide ListedBefore;
    if users != [] {
      assert users[0] !in users[1..];
      SortKeepsSums(report, rank, users[1..]);
      InsertKeepsReportOrder(report, rank, users[0], SortUsers(report, rank, users[1..]));
      InsertKeepsSums(report, rank, users[0], SortUsers(report, rank, users[1..]));
    }
  }

  /** The whole report: one row for each user with time in the period, in the final order. */
  method ListAccessTimeReport(cfg: Config, p: Period, now: int, sessions: seq<Session>, rank: nat -> int)
    returns (report: map<nat, Row>, listed: seq<nat>)
    ensures IsReport(cfg, p, now, sessions, report) && Totalled(cfg, p, now, sessions, report, listed)
    ensures (forall u | u in listed :: u in report) && InReportOrder(report, rank, listed)
  {
    hide IsReport, InReportOrder, SortUsers, SumSessions, SumDurations;
    var order;
    report, order := GroupSessions(cfg, p, now, sessions);
    SortKeepsSums(report, rank, order);
    listed := SortUsers(report, rank, order);
  }

  lemma {:induction false} NobodyIsActive(cfg: Config, now: int, mine: seq<Session>)
    requires forall s | s in mine :: Good(cfg, s, now)
    ensures CountActive(cfg, now, mine) == 0
    decreases |mine|
  {
    if mine != [] {
      NoSessionIsActive(cfg, mine[|mine| - 1], now);
      NobodyIsActive(cfg, now, mine[..|mine| - 1]);
    }
  }

  lemma {:induction false} CountedAreSessions(cfg: Config, p: Period, now: int, sessions: seq<Session>, u: nat)
    ensures forall s | s in Counted(cfg, p, now, sessions, u) :: s in sessions
    decreases |sessions|
  {
    hide OverlapMs;
    if sessions != [] {
      CountedAreSessions(cfg, p, now, sessions[..|sessions| - 1], u);
    }
  }

  /** In every report over sessions of the service the number of active sessions is zero, for every user. */
  lemma ActiveSessionsAreNeverCounted(cfg: Config, p: Period, now: int, sessions: seq<Session>, report: map<nat, Row>,
      u: nat)
    requires (forall s | s in sessions :: Good(cfg, s, now)) && IsReport(cfg, p, now, sessions, report) && u in report
    ensures report[u].activeSessions == 0
  {
    hide Good, OverlapMs, OverlapEnd;
    CountedAreSessions(cfg, p, now, sessions, u);
    NobodyIsActive(cfg, now, Counted(cfg, p, now, sessions, u));
  }

  // What the report may be computed from

  function Query(p: Period, sessions: seq<Session>): seq<Session> {
    if sessions == [] then []
    else
      var last, rest := sessions[|sessions| - 1], Query(p, sessions[..|sessions| - 1]);
      if Prefiltered(p, last) then rest + [last] else rest
  }

  lemma {:induction false} QueryKeepsCounted(cfg: Config, p: Period, now: int, sessions: seq<Session>, usuario: nat)
    ensures Counted(cfg, p, now, Query(p, sessions), usuario) == Counted(cfg, p, now, sessions, usuario)
  {
    if sessions != [] {
      hide OverlapMs;
      var last, front := sessions[|sessions| - 1], sessions[..|sessions| - 1];
      QueryKeepsCounted(cfg, p, now, front, usuario);
      if Prefiltered(p, last) {
        Snoc(Query(p, front), last);
      } else {
        LeftOutHasNoOverlap(cfg, p, now, last);
      }
    }
  }

  /** The report over the sessions the query returns is the report over all sessions. */
  lemma QueryKeepsReport(cfg: Config, p: Period, now: int, sessions: seq<Session>, report: map<nat, Row>)
    ensures IsReport(cfg, p, now, Query(p, sessions), report) <==> IsReport(cfg, p, now, sessions, report)
  {
    hide Summarises;
    forall u ensures Counted(cfg, p, now, Query(p, sessions), u) == Counted(cfg, p, now, sessions, u) {
      QueryKeepsCounted(cfg, p, now, sessions, u);
    }
  }

  /** Sessions and report determine each other's rows: there is only one report. */
  lemma ReportIsUnique(cfg: Config, p: Period, now: int, sessions: seq<Session>, one: map<nat, Row>,
      other: map<nat, Row>)
    requires IsReport(cfg, p, now, sessions, one) && IsReport(cfg, p, now, sessions, other)
    ensures one == other
  {
    hide Summarises, OverlapMs, OverlapEnd;
    forall u ensures (u in one <==> u in other) && (u in one && u in other ==> one[u] == other[u]) {
      if u in one || u in other {
        var mine := Counted(cfg, p, now, sessions, u);
        NotEmpty(cfg, p, now, mine, if u in one then one[u] else other[u]);
        SummaryIsUnique(cfg, p, now, mine, one[u], other[u]);
      }
    }
  }

  lemma NotEmpty(cfg: Config, p: Period, now: int, mine: seq<Session>, row: Row)
    requires Summarises(cfg, p, now, mine, row)
    ensures mine != []
  {
  }

  lemma SummaryIsUnique(cfg: Config, p: Period, now: int, mine: seq<Session>, one: Row, other: Row)
    requires Summarises(cfg, p, now, mine, one) && Summarises(cfg, p, now, mine, other)
    ensures one == other
  {
    hide OverlapEnd;
  }

  /** The report does not depend on whether an overdue session has already been noticed and revoked. */
  lemma NoticedExpiryChangesNothing(cfg: Config, p: Period, now: int, s: Session)
    requires cfg.Valid()
    ensures OverlapMs(cfg, p, now, Checked(cfg, s, now, false)) == OverlapMs(cfg, p, now, s)
    ensures OverlapEnd(cfg, p, now, Checked(cfg, s, now, false)) == OverlapEnd(cfg, p, now, s)
  {
  }
}
