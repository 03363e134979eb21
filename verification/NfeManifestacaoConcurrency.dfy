/** Checking a registration and creating its attempt as two steps, with anything in between: what the single step
    of the other runs is needed for, and what is left of the limit without it. */
module NfeManifestacaoConcurrency {
  import opened NfeManifestacao
  import opened NfeManifestacaoRuns

  /** A registration that passed its checks against `events` when the table had `rows` rows, and has not been created
      yet. */
  datatype Checked = Checked(attempt: Attempt, automatic: bool, rows: nat, events: seq<Imported>)

  datatype SplitState = SplitState(s: State, checked: map<nat, Checked>)

  datatype SplitStep =
    | Check(id: nat, pedido: Pedido, situacao: Situacao, events: seq<Imported>)
    | CheckAutomatic(id: nat, documento: nat, cliente: nat, requestId: nat, situacao: Situacao, events: seq<Imported>)
    | CreateChecked(id: nat)
    | Whole(step: Step)

  function SplitNext(t: SplitState, step: SplitStep): SplitState {
    match step
    case Check(id, p, situacao, events) =>
      var decision := Decide(t.s.attempts, events, p, situacao);
      if decision.Enviar?
      then t.(checked := t.checked[id := Checked(NewAttempt(p, situacao, decision.nSeq), false, |t.s.attempts|,
          events)])
      else t
    case CheckAutomatic(id, documento, cliente, requestId, situacao, events) =>
      if SendsAutomatically(t.s.attempts, events, documento, situacao, ContaOf(t.s, ScopeFound(cliente, situacao)))
      then t.(checked := t.checked[id := Checked(AutomaticAttempt(documento, cliente, requestId, situacao), true,
          |t.s.attempts|, events)])
      else t
    case CreateChecked(id) =>
      if id in t.checked
      then SplitState(Create(t.s, t.checked[id].attempt, t.checked[id].automatic), t.checked - {id})
      else t
    case Whole(step) => t.(s := Next(t.s, step))
  }

  /** A check remembers the attempt that its checks let through, and nothing else; a creation makes it if the indexes
      admit it and forgets it; any other step is the one of the undivided runs. */
  lemma SplitStepsMean(t: SplitState, id: nat, p: Pedido, situacao: Situacao, events: seq<Imported>, documento: nat,
      cliente: nat, requestId: nat, step: Step)
    ensures var u := SplitNext(t, Check(id, p, situacao, events));
            && u.s == t.s
            && (if Decide(t.s.attempts, events, p, situacao).Enviar?
                then id in u.checked && !u.checked[id].automatic && u.checked[id].rows == |t.s.attempts|
                     && u.checked[id].attempt.requestId == p.requestId && u.checked[id].attempt.tipo == p.tipo
                     && u.checked[id].attempt.documento == p.documento && u.checked[id].attempt.status == Enviando
                     && u.checked == t.checked[id := u.checked[id]]
                else u == t)
    ensures var u := SplitNext(t, CheckAutomatic(id, documento, cliente, requestId, situacao, events));
            && u.s == t.s
            && (if SendsAutomatically(t.s.attempts, events, documento, situacao,
                     ContaOf(t.s, ScopeFound(cliente, situacao)))
                then id in u.checked && u.checked[id].automatic && u.checked[id].rows == |t.s.attempts|
                     && u.checked[id].attempt.requestId == requestId && u.checked[id].attempt.tipo == Ciencia
                     && u.checked[id].attempt.documento == documento && u.checked[id].attempt.status == Enviando
                     && u.checked == t.checked[id := u.checked[id]]
                else u == t)
    ensures id in t.checked ==>
              var u := SplitNext(t, CreateChecked(id));
              && u.checked == t.checked - {id}
              && (if IndexesHold(t.s.attempts + [t.checked[id].attempt])
                  then u.s.attempts == t.s.attempts + [t.checked[id].attempt]
                       && u.s.inFlight == t.s.inFlight[|t.s.attempts| := t.checked[id].automatic]
                  else u.s == t.s)
    ensures SplitNext(t, Whole(step)) == SplitState(Next(t.s, step), t.checked)
  {
    hide Decide, SendsAutomatically, IndexesHold, Next;
  }

  // Creations that nothing overtook

  /** No row of the document was created since the check. */
  predicate NothingYounger(attempts: seq<Attempt>, c: Checked) {
    forall k | c.rows <= k < |attempts| :: attempts[k].documento != c.attempt.documento
  }

  predicate Overtaken(t: SplitState, step: SplitStep) {
    step.CreateChecked? && step.id in t.checked && !NothingYounger(t.s.attempts, t.checked[step.id])
  }

  /** No conclusive attempt of the document is accepted or can become so. */
  ghost predicate NoConclusiveAlive(attempts: seq<Attempt>, documento: nat) {
    forall k | 0 <= k < |attempts| && attempts[k].documento == documento && Final(attempts[k].tipo) ::
        !Viva(attempts[k].status)
  }

  /** What a check is still worth: if nothing overtook it, its creation exceeds no limit and meets nothing in
      transmission, and Science meets nothing conclusive. */
  ghost predicate StillWorth(attempts: seq<Attempt>, c: Checked) {
    NothingYounger(attempts, c) ==>
      && (forall documento: nat :: ConclusiveSum(attempts + [c.attempt], documento, true) <= MAX_CONCLUSIVE)
      && (forall k | 0 <= k < |attempts| && attempts[k].documento == c.attempt.documento ::
          attempts[k].status != Enviando)
      && (c.attempt.tipo == Ciencia ==> NoConclusiveAlive(attempts, c.attempt.documento))
  }

  ghost predicate GoodCheck(attempts: seq<Attempt>, c: Checked) {
    && c.rows <= |attempts|
    && c.attempt.status == Enviando && 1 <= c.attempt.nSeq <= 2 && (c.attempt.tipo == Ciencia ==> c.attempt.nSeq == 1)
    && (c.attempt.tipo == Ciencia ==> !SomeEvent(c.events, ANY_TYPE, ACCEPTED))
    && StillWorth(attempts, c)
  }

  ghost predicate SplitInv(t: SplitState) {
    Inv(t.s) && forall id | id in t.checked :: GoodCheck(t.s.attempts, t.checked[id])
  }

  lemma CheckIsWorth(s: State, events: seq<Imported>, a: Attempt, automatic: bool, resend: bool)
    requires Inv(s) && MaySend(s.attempts, events, a.documento, a.requestId, a.tipo, resend)
    requires a.status == Enviando && 1 <= a.nSeq <= 2 && (a.tipo == Ciencia ==> a.nSeq == 1)
    requires Final(a.tipo) ==> a.nSeq == LastSeq(s.attempts, events, a.documento, a.tipo) + 1
    ensures GoodCheck(s.attempts, Checked(a, automatic, |s.attempts|, events))
  {
    hide AcceptedFinalCount, IndexesHold, ConclusiveSum, LastSeq, SomeEvent;
    forall documento: nat ensures ConclusiveSum(s.attempts + [a], documento, true) <= MAX_CONCLUSIVE {
      ConclusiveStaysBounded(s.attempts, events, a, resend, documento);
    }
    NobodyElseTransmits(s.attempts, events, a, resend);
    var grown := s.attempts + [a];
    forall k | 0 <= k < |s.attempts| && s.attempts[k].documento == a.documento
      ensures s.attempts[k].status != Enviando {
      assert grown[k].documento == grown[|s.attempts|].documento;
    }
    if a.tipo == Ciencia {
      ScienceMeetsNothingAlive(s.attempts, events, a.documento, a.requestId, resend);
    }
  }

  lemma ScienceMeetsNothingAlive(attempts: seq<Attempt>, events: seq<Imported>, documento: nat, requestId: nat,
      resend: bool)
    requires MaySend(attempts, events, documento, requestId, Ciencia, resend)
    ensures NoConclusiveAlive(attempts, documento)
  {
    hide SomeEvent, AcceptedFinalCount;
    forall k | 0 <= k < |attempts| && attempts[k].documento == documento && Final(attempts[k].tipo)
      ensures !Viva(attempts[k].status)
    {
      EveryTypeCounts(attempts[k].tipo);
    }
  }

  /** Rows that only weaken leave a check what it was worth. */
  lemma WeakenedKeepsCheck(before: seq<Attempt>, after: seq<Attempt>, c: Checked)
    requires Weakened(before, after) && GoodCheck(before, c)
    ensures GoodCheck(after, c)
  {
    hide ConclusiveSum;
    if NothingYounger(after, c) {
      YoungerDoesNotDepend(before, after, c);
      WeakenedStaysDead(before, after, c.attempt.documento);
      forall documento: nat ensures ConclusiveSum(after + [c.attempt], documento, true) <= MAX_CONCLUSIVE {
        WeakenedSum(before + [c.attempt], after + [c.attempt], documento);
        assert ConclusiveSum(before + [c.attempt], documento, true) <= MAX_CONCLUSIVE;
      }
    }
  }

  lemma WeakenedStaysDead(before: seq<Attempt>, after: seq<Attempt>, documento: nat)
    requires Weakened(before, after)
    ensures NoConclusiveAlive(before, documento) ==> NoConclusiveAlive(after, documento)
  {
    hide Viva;
    if NoConclusiveAlive(before, documento) {
      forall k | 0 <= k < |after| && after[k].documento == documento && Final(after[k].tipo)
        ensures !Viva(after[k].status)
      {
        assert before[k].documento == documento && Final(before[k].tipo);
      }
    }
  }

  lemma YoungerDoesNotDepend(before: seq<Attempt>, after: seq<Attempt>, c: Checked)
    requires Weakened(before, after) && NothingYounger(after, c)
    ensures NothingYounger(before, c)
  {
    forall k | c.rows <= k < |before| ensures before[k].documento != c.attempt.documento {
      assert after[k].documento == before[k].documento;
    }
  }

  lemma WeakenedSum(before: seq<Attempt>, after: seq<Attempt>, documento: nat)
    requires Weakened(before, after)
    ensures ConclusiveSum(after, documento, true) <= ConclusiveSum(before, documento, true)
  {
    hide MaxSeq;
    WeakenedBounds(before, after, documento, Confirmacao);
    WeakenedBounds(before, after, documento, Desconhecimento);
    WeakenedBounds(before, after, documento, NaoRealizada);
  }

  /** A new row of another document leaves a check what it was worth, one of its own makes it overtaken. */
  lemma NewRowKeepsCheck(attempts: seq<Attempt>, b: Attempt, c: Checked)
    requires GoodCheck(attempts, c) && ConclusiveBounded(attempts + [b])
    ensures GoodCheck(attempts + [b], c)
  {
    hide ConclusiveSum;
    var grown := attempts + [b];
    if NothingYounger(grown, c) {
      assert grown[|attempts|] == b;
      forall k | c.rows <= k < |attempts| ensures attempts[k].documento != c.attempt.documento {
        assert grown[k] == attempts[k];
      }
      forall documento: nat ensures ConclusiveSum(grown + [c.attempt], documento, true) <= MAX_CONCLUSIVE {
        assert ConclusiveSum(attempts + [c.attempt], documento, true) <= MAX_CONCLUSIVE;
        assert ConclusiveSum(grown, documento, true) <= MAX_CONCLUSIVE;
        if documento == c.attempt.documento {
          OtherRowsDoNotMatter(attempts, b, c.attempt);
        } else {
          RowOfAnother(grown, c.attempt, documento);
        }
      }
    }
  }

  lemma RowOfAnother(attempts: seq<Attempt>, a: Attempt, documento: nat)
    requires a.documento != documento
    ensures ConclusiveSum(attempts + [a], documento, true) == ConclusiveSum(attempts, documento, true)
  {
    hide MaxSeq;
    MaxSeqAppend(attempts, a, documento, Confirmacao, true);
    MaxSeqAppend(attempts, a, documento, Desconhecimento, true);
    MaxSeqAppend(attempts, a, documento, NaoRealizada, true);
  }

  lemma OtherRowsDoNotMatter(attempts: seq<Attempt>, b: Attempt, a: Attempt)
    requires b.documento != a.documento
    ensures ConclusiveSum(attempts + [b] + [a], a.documento, true) == ConclusiveSum(attempts + [a], a.documento, true)
  {
    hide MaxSeq;
    forall tipo: Tipo
      ensures MaxSeq(attempts + [b] + [a], a.documento, tipo, true) == MaxSeq(attempts + [a], a.documento, tipo, true)
    {
      MaxSeqAppend(attempts + [b], a, a.documento, tipo, true);
      MaxSeqAppend(attempts, b, a.documento, tipo, true);
      MaxSeqAppend(attempts, a, a.documento, tipo, true);
    }
  }

  lemma CreationKeepsInv(s: State, c: Checked)
    requires Inv(s) && GoodCheck(s.attempts, c) && NothingYounger(s.attempts, c)
    ensures Inv(Create(s, c.attempt, c.automatic))
  {
    hide ConclusiveSum, Clash, NfeManifestacaoRuns.A.Good;
  }

  /** The table after any single step: weakened, one row longer, or the same. */
  lemma StepKeepsChecks(s: State, step: Step, c: Checked)
    requires Inv(s) && GoodCheck(s.attempts, c)
    ensures GoodCheck(Next(s, step).attempts, c)
  {
    hide Inv, GoodCheck, Next, Weakened, MaySend;
    NextKeepsInv(s, step);
    if |Next(s, step).attempts| > |s.attempts| {
      SendDiscipline(s, step);
      var b := Next(s, step).attempts[|s.attempts|];
      assert Next(s, step).attempts == s.attempts + [b];
      InvBounds(Next(s, step));
      NewRowKeepsCheck(s.attempts, b, c);
    } else {
      OtherStepsWeaken(s, step);
      WeakenedKeepsCheck(s.attempts, Next(s, step).attempts, c);
    }
  }

  lemma InvBounds(s: State)
    requires Inv(s)
    ensures ConclusiveBounded(s.attempts)
  {
  }

  lemma OtherStepsWeaken(s: State, step: Step)
    requires Inv(s) && |Next(s, step).attempts| <= |s.attempts|
    ensures Weakened(s.attempts, Next(s, step).attempts)
  {
    hide Decide, SendsAutomatically, IndexesHold, Reconciled, Answered, OneInTransmission, ConclusiveBounded;
    match step
    case Responder(id, r, followUpFails) =>
      if id in s.inFlight {
        AnswerWeakens(s.attempts, id, s.inFlight[id], r, followUpFails);
      }
    case Reconciliar(documento, cliente, events, now) =>
      ReconcilingSettles(s.attempts, documento, cliente, events, now);
    case _ =>
  }

  lemma CheckKeepsSplitInv(t: SplitState, step: SplitStep)
    requires SplitInv(t) && step.Check?
    ensures SplitInv(SplitNext(t, step))
  {
    hide Inv, GoodCheck, MaySend, Decide;
    InvGives(t.s);
    SequenceNeverExhausted(t.s.attempts, step.events, step.pedido, step.situacao);
    var decision := Decide(t.s.attempts, step.events, step.pedido, step.situacao);
    if decision.Enviar? {
      ManualSendsInOrder(t.s.attempts, step.events, step.pedido, step.situacao);
      DecidedSequence(t.s.attempts, step.events, step.pedido, step.situacao);
      CheckIsWorth(t.s, step.events, NewAttempt(step.pedido, step.situacao, decision.nSeq), false,
          step.pedido.reenvioConfirmado);
    }
  }

  lemma DecidedSequence(attempts: seq<Attempt>, events: seq<Imported>, p: Pedido, s: Situacao)
    requires Decide(attempts, events, p, s).Enviar?
    ensures Decide(attempts, events, p, s).nSeq == LastSeq(attempts, events, p.documento, p.tipo) + 1
  {
    hide LastSeq, Unconfirmed, Exhausted, Preliminary;
  }

  /** Among automatic checks the request id is a fresh random one. */
  predicate FreshId(t: SplitState, step: SplitStep) {
    step.CheckAutomatic? ==> forall k | 0 <= k < |t.s.attempts| :: t.s.attempts[k].requestId != step.requestId
  }

  lemma AutomaticCheckKeepsSplitInv(t: SplitState, step: SplitStep)
    requires SplitInv(t) && step.CheckAutomatic? && FreshId(t, step)
    ensures SplitInv(SplitNext(t, step))
  {
    hide Inv, GoodCheck, MaySend, SendsAutomatically;
    var conta := ContaOf(t.s, ScopeFound(step.cliente, step.situacao));
    if SendsAutomatically(t.s.attempts, step.events, step.documento, step.situacao, conta) {
      AutomaticSendsInOrder(t.s.attempts, step.events, step.documento, step.requestId, step.situacao, conta);
      CheckIsWorth(t.s, step.events, AutomaticAttempt(step.documento, step.cliente, step.requestId, step.situacao),
          true, false);
    }
  }

  lemma CreateKeepsSplitInv(t: SplitState, step: SplitStep)
    requires SplitInv(t) && step.CreateChecked? && !Overtaken(t, step)
    ensures SplitInv(SplitNext(t, step))
  {
    hide Inv, GoodCheck;
    if step.id in t.checked {
      var c := t.checked[step.id];
      CreationKeepsInv(t.s, c);
      var next := Create(t.s, c.attempt, c.automatic);
      InvBounds(next);
      forall id | id in t.checked - {step.id} ensures GoodCheck(next.attempts, t.checked[id]) {
        if next != t.s {
          NewRowKeepsCheck(t.s.attempts, c.attempt, t.checked[id]);
        }
      }
    }
  }

  lemma SplitNextKeepsInv(t: SplitState, step: SplitStep)
    requires SplitInv(t) && !Overtaken(t, step) && FreshId(t, step)
    ensures SplitInv(SplitNext(t, step))
  {
    match step
    case Check(_, _, _, _) => CheckKeepsSplitInv(t, step);
    case CheckAutomatic(_, _, _, _, _, _) => AutomaticCheckKeepsSplitInv(t, step);
    case CreateChecked(_) => CreateKeepsSplitInv(t, step);
    case Whole(whole) =>
      hide Inv, GoodCheck, Next;
      NextKeepsInv(t.s, whole);
      forall id | id in t.checked ensures GoodCheck(Next(t.s, whole).attempts, t.checked[id]) {
        StepKeepsChecks(t.s, whole, t.checked[id]);
      }
  }

  /** `t` is reached by the steps without any creation being overtaken by another one for its document. */
  ghost predicate SplitRuns(s: SplitState, steps: seq<SplitStep>, t: SplitState)
    decreases |steps|
  {
    if steps == [] then s == t
    else !Overtaken(s, steps[0]) && FreshId(s, steps[0]) && SplitRuns(SplitNext(s, steps[0]), steps[1..], t)
  }

  lemma {:induction false} SplitRunKeepsInv(s: SplitState, steps: seq<SplitStep>, t: SplitState)
    requires SplitInv(s) && SplitRuns(s, steps, t)
    ensures SplitInv(t)
    decreases |steps|
  {
    hide SplitInv, SplitNext;
    if steps != [] {
      SplitNextKeepsInv(s, steps[0]);
      SplitRunKeepsInv(SplitNext(s, steps[0]), steps[1..], t);
    }
  }

  /** Checks and creations may be apart, with answers, reconciliations and registrations of other documents in
      between: as long as no creation is overtaken by another one for its document, the limit of two holds. */
  lemma LimitHoldsUnlessOvertaken(steps: seq<SplitStep>, t: SplitState, documento: nat)
    requires SplitRuns(SplitState(INITIAL, map[]), steps, t)
    ensures ConclusiveSum(t.s.attempts, documento, true) <= MAX_CONCLUSIVE && OneInTransmission(t.s.attempts)
  {
    hide SplitRuns;
    InitialIsGood();
    SplitRunKeepsInv(SplitState(INITIAL, map[]), steps, t);
    assert ConclusiveBounded(t.s.attempts);
  }

  /** Science is never created after a conclusive attempt or Science itself was accepted, nor against events that
      told so when it was checked, unless it is overtaken. */
  lemma ScienceIsNeverLate(steps: seq<SplitStep>, t: SplitState, step: SplitStep)
    requires SplitRuns(SplitState(INITIAL, map[]), steps, t) && !Overtaken(t, step) && FreshId(t, step)
    requires |SplitNext(t, step).s.attempts| > |t.s.attempts|
    ensures |SplitNext(t, step).s.attempts| == |t.s.attempts| + 1
    ensures var a := SplitNext(t, step).s.attempts[|t.s.attempts|];
            a.tipo == Ciencia ==>
              && !SomeAttempt(t.s.attempts, a.documento, ANY_TYPE, ACCEPTED)
              && (step.CreateChecked? ==> !SomeEvent(t.checked[step.id].events, ANY_TYPE, ACCEPTED))
              && (step.Whole? ==> !SomeEvent(step.step.events, ANY_TYPE, ACCEPTED))
  {
    hide SplitRuns, Inv, Next, MaySend, SomeEvent, GoodCheck, SomeAttempt;
    InitialIsGood();
    SplitRunKeepsInv(SplitState(INITIAL, map[]), steps, t);
    match step
    case Whole(whole) => WholeScience(t.s, whole);
    case CreateChecked(id) => CreatedScience(t.s, t.checked[id]);
    case _ =>
  }

  lemma WholeScience(s: State, step: Step)
    requires Inv(s) && |Next(s, step).attempts| > |s.attempts|
    ensures |Next(s, step).attempts| == |s.attempts| + 1 && (step.Registrar? || step.RegistrarAutomatica?)
    ensures var a := Next(s, step).attempts[|s.attempts|];
            a.tipo == Ciencia ==>
              !SomeAttempt(s.attempts, a.documento, ANY_TYPE, ACCEPTED) && !SomeEvent(step.events, ANY_TYPE, ACCEPTED)
  {
    hide Inv, Next, SomeAttempt, SomeEvent, AcceptedFinalCount;
    SendDiscipline(s, step);
  }

  lemma CreatedScience(s: State, c: Checked)
    requires GoodCheck(s.attempts, c) && NothingYounger(s.attempts, c)
    requires |Create(s, c.attempt, c.automatic).attempts| > |s.attempts|
    ensures |Create(s, c.attempt, c.automatic).attempts| == |s.attempts| + 1
    ensures Create(s, c.attempt, c.automatic).attempts[|s.attempts|] == c.attempt
    ensures c.attempt.tipo == Ciencia ==>
              && !SomeAttempt(s.attempts, c.attempt.documento, ANY_TYPE, ACCEPTED)
              && !SomeEvent(c.events, ANY_TYPE, ACCEPTED)
  {
    hide ConclusiveSum, SomeEvent;
    var grown := s.attempts + [c.attempt];
    forall i | 0 <= i < |s.attempts| && s.attempts[i].documento == c.attempt.documento && c.attempt.tipo == Ciencia
      ensures s.attempts[i].status !in ACCEPTED
    {
      assert !Clash(grown[i], grown[|s.attempts|]);
    }
  }

  // Checks that overtake one another: exactly how far the limit is exceeded

  /** Conclusive requests for one document, of pairwise different types and with ids of their own, that all pass
      their checks on the same table. */
  ghost predicate Together(attempts: seq<Attempt>, events: seq<Imported>, documento: nat, ps: seq<Pedido>,
      ss: seq<Situacao>) {
    && |ss| == |ps|
    && (forall i | 0 <= i < |ps| ::
        ps[i].documento == documento && Final(ps[i].tipo) && Decide(attempts, events, ps[i], ss[i]).Enviar?)
    && (forall i, j | 0 <= i < j < |ps| :: ps[i].tipo != ps[j].tipo && ps[i].requestId != ps[j].requestId)
  }

  predicate Requested(ps: seq<Pedido>, tipo: Tipo) {
    exists i | 0 <= i < |ps| :: ps[i].tipo == tipo
  }

  function AttemptFor(attempts: seq<Attempt>, events: seq<Imported>, p: Pedido, s: Situacao): Attempt {
    NewAttempt(p, s, LastSeq(attempts, events, p.documento, p.tipo) + 1)
  }

  /** The table once all of them are created. */
  function AllCreated(attempts: seq<Attempt>, events: seq<Imported>, ps: seq<Pedido>,
      ss: seq<Situacao>): (r: seq<Attempt>)
    requires |ss| == |ps|
    ensures |r| == |attempts| + |ps|
  {
    if ps == [] then attempts
    else
      var n := |ps| - 1;
      AllCreated(attempts, events, ps[..n], ss[..n]) + [AttemptFor(attempts, events, ps[n], ss[n])]
  }

  lemma FewerTogether(attempts: seq<Attempt>, events: seq<Imported>, documento: nat, ps: seq<Pedido>, ss: seq<Situacao>)
    requires Together(attempts, events, documento, ps, ss) && ps != []
    ensures Together(attempts, events, documento, ps[..|ps| - 1], ss[..|ps| - 1])
    ensures !Requested(ps[..|ps| - 1], ps[|ps| - 1].tipo)
  {
    hide Decide;
  }

  /** A conclusive request only passes when nothing of its document is pending. */
  lemma PassedMeans(attempts: seq<Attempt>, events: seq<Imported>, p: Pedido, s: Situacao, tipo: Tipo)
    requires SequencesInRange(attempts) && Final(p.tipo) && Decide(attempts, events, p, s).Enviar?
    ensures MaySend(attempts, events, p.documento, p.requestId, p.tipo, p.reenvioConfirmado)
    ensures Decide(attempts, events, p, s).nSeq == LastSeq(attempts, events, p.documento, p.tipo) + 1
    ensures MaxSeq(attempts, p.documento, tipo, true) == MaxSeq(attempts, p.documento, tipo, false)
  {
    hide MaxSeq, MaxImported, SomeAttempt, SomeEvent;
    ManualSendsInOrder(attempts, events, p, s);
    DecidedSequence(attempts, events, p, s);
    PendingGone(attempts, p.documento, tipo);
  }

  /** Each requested type ends one above what was accepted of it, the others stay. */
  lemma {:induction false} TypeAfterAll(attempts: seq<Attempt>, events: seq<Imported>, documento: nat,
      ps: seq<Pedido>, ss: seq<Situacao>, tipo: Tipo)
    requires SequencesInRange(attempts) && Together(attempts, events, documento, ps, ss)
    ensures MaxSeq(AllCreated(attempts, events, ps, ss), documento, tipo, true)
            == if Requested(ps, tipo) then LastSeq(attempts, events, documento, tipo) + 1
               else MaxSeq(attempts, documento, tipo, true)
    decreases |ps|
  {
    hide MaxSeq, MaxImported, Decide;
    if ps != [] {
      var n := |ps| - 1;
      var before, a := AllCreated(attempts, events, ps[..n], ss[..n]), AttemptFor(attempts, events, ps[n], ss[n]);
      FewerTogether(attempts, events, documento, ps, ss);
      TypeAfterAll(attempts, events, documento, ps[..n], ss[..n], tipo);
      MaxSeqAppend(before, a, documento, tipo, true);
      PassedMeans(attempts, events, ps[n], ss[n], tipo);
      RequestedUpTo(ps, tipo);
    }
  }

  lemma RequestedUpTo(ps: seq<Pedido>, tipo: Tipo)
    requires ps != []
    ensures Requested(ps, tipo) <==> Requested(ps[..|ps| - 1], tipo) || ps[|ps| - 1].tipo == tipo
  {
    var n := |ps| - 1;
    if Requested(ps[..n], tipo) {
      var i :| 0 <= i < n && ps[..n][i].tipo == tipo;
      assert ps[i].tipo == tipo;
    }
    if Requested(ps, tipo) {
      var i :| 0 <= i < |ps| && ps[i].tipo == tipo;
      assert i == n || ps[..n][i].tipo == tipo;
    }
  }

  /** What the requests make of one type, read off the table before any of them is created. */
  function Foreseen(attempts: seq<Attempt>, events: seq<Imported>, documento: nat, ps: seq<Pedido>, tipo: Tipo): nat {
    if Requested(ps, tipo) then LastSeq(attempts, events, documento, tipo) + 1
      else MaxSeq(attempts, documento, tipo, true)
  }

  function ForeseenSum(attempts: seq<Attempt>, events: seq<Imported>, documento: nat, ps: seq<Pedido>): nat {
    Foreseen(attempts, events, documento, ps, Confirmacao)
    + Foreseen(attempts, events, documento, ps, Desconhecimento)
    + Foreseen(attempts, events, documento, ps, NaoRealizada)
  }

  /** No index refuses any of them. */
  lemma {:induction false} AllAreCreated(attempts: seq<Attempt>, events: seq<Imported>, documento: nat,
      ps: seq<Pedido>, ss: seq<Situacao>)
    requires IndexesHold(attempts) && SequencesInRange(attempts) && Together(attempts, events, documento, ps, ss)
    ensures IndexesHold(AllCreated(attempts, events, ps, ss))
    ensures AllCreated(attempts, events, ps, ss)[..|attempts|] == attempts
    ensures forall i | 0 <= i < |ps| ::
              AllCreated(attempts, events, ps, ss)[|attempts| + i] == AttemptFor(attempts, events, ps[i], ss[i])
    decreases |ps|
  {
    hide Decide, LastSeq, IndexesHold, Clash, MaySend;
    if ps != [] {
      var n := |ps| - 1;
      var before, a := AllCreated(attempts, events, ps[..n], ss[..n]), AttemptFor(attempts, events, ps[n], ss[n]);
      FewerTogether(attempts, events, documento, ps, ss);
      AllAreCreated(attempts, events, documento, ps[..n], ss[..n]);
      PassedMeans(attempts, events, ps[n], ss[n], Ciencia);
      NewOneDoesNotClash(attempts, events, documento, ps, ss, before, a);
      AppendHolds(before, a);
    }
  }

  lemma NewOneDoesNotClash(attempts: seq<Attempt>, events: seq<Imported>, documento: nat, ps: seq<Pedido>,
      ss: seq<Situacao>, before: seq<Attempt>, a: Attempt)
    requires ps != [] && Together(attempts, events, documento, ps, ss)
    requires var n := |ps| - 1;
             a == AttemptFor(attempts, events, ps[n], ss[n])
             && MaySend(attempts, events, a.documento, a.requestId, a.tipo, ps[n].reenvioConfirmado)
    requires |before| == |attempts| + |ps| - 1 && before[..|attempts|] == attempts
    requires forall i | 0 <= i < |ps| - 1 :: before[|attempts| + i] == AttemptFor(attempts, events, ps[i], ss[i])
    ensures forall i | 0 <= i < |before| :: !Clash(before[i], a)
  {
    hide Decide, LastSeq, Clash, MaySend;
    forall i | 0 <= i < |before| ensures !Clash(before[i], a) {
      if i < |attempts| {
        assert before[i] == attempts[i];
        DoesNotClash(attempts, events, a, ps[|ps| - 1].reenvioConfirmado, i);
      } else {
        var j := i - |attempts|;
        assert before[|attempts| + j] == AttemptFor(attempts, events, ps[j], ss[j]);
        assert ps[j].tipo != ps[|ps| - 1].tipo && ps[j].requestId != ps[|ps| - 1].requestId;
        DifferentRequestsDoNotClash(before[i], a);
      }
    }
  }

  lemma DifferentRequestsDoNotClash(a: Attempt, b: Attempt)
    requires a.requestId != b.requestId && a.tipo != b.tipo
    ensures !Clash(a, b)
  {
  }

  lemma AppendHolds(attempts: seq<Attempt>, a: Attempt)
    requires IndexesHold(attempts) && forall i | 0 <= i < |attempts| :: !Clash(attempts[i], a)
    ensures IndexesHold(attempts + [a])
  {
    hide Clash;
  }

  /** Any number of conclusive requests of different types, all checked on one table before any is created, all
      pass the indexes, and what they come to together is foreseeable: the limit of two is kept if and only if the
      sum foreseen on that table is at most two. */
  lemma CheckedTogetherExactly(attempts: seq<Attempt>, events: seq<Imported>, documento: nat, ps: seq<Pedido>,
      ss: seq<Situacao>)
    requires IndexesHold(attempts) && SequencesInRange(attempts) && Together(attempts, events, documento, ps, ss)
    ensures IndexesHold(AllCreated(attempts, events, ps, ss))
    ensures ConclusiveSum(AllCreated(attempts, events, ps, ss), documento, true)
                == ForeseenSum(attempts, events, documento, ps)
    ensures ConclusiveSum(AllCreated(attempts, events, ps, ss), documento, true) <= MAX_CONCLUSIVE <==>
              ForeseenSum(attempts, events, documento, ps) <= MAX_CONCLUSIVE
  {
    hide MaxSeq, LastSeq, Requested, Together, AllCreated, IndexesHold;
    AllAreCreated(attempts, events, documento, ps, ss);
    TypeAfterAll(attempts, events, documento, ps, ss, Confirmacao);
    TypeAfterAll(attempts, events, documento, ps, ss, Desconhecimento);
    TypeAfterAll(attempts, events, documento, ps, ss, NaoRealizada);
  }

  /** Without accepted conclusive events from the distribution, k such requests come to k more than what was
      accepted before: they keep the limit if and only if what was accepted and their number are at most two. */
  lemma CheckedTogetherCount(attempts: seq<Attempt>, events: seq<Imported>, documento: nat, ps: seq<Pedido>,
      ss: seq<Situacao>)
    requires IndexesHold(attempts) && SequencesInRange(attempts) && Together(attempts, events, documento, ps, ss)
    requires ps != [] && !SomeEvent(events, FINALS, ACCEPTED)
    ensures ConclusiveSum(AllCreated(attempts, events, ps, ss), documento, true)
            == AcceptedFinalCount(attempts, events, documento) + |ps|
    ensures ConclusiveSum(AllCreated(attempts, events, ps, ss), documento, true) <= MAX_CONCLUSIVE <==>
              AcceptedFinalCount(attempts, events, documento) + |ps| <= MAX_CONCLUSIVE
  {
    hide MaxSeq, MaxImported, Requested, AllCreated, IndexesHold, SomeEvent, Decide;
    CheckedTogetherExactly(attempts, events, documento, ps, ss);
    forall tipo | tipo in FINALS
      ensures MaxSeq(attempts, documento, tipo, true) == LastSeq(attempts, events, documento, tipo)
    {
      NoEventsNoNumbers(events, tipo);
      PassedMeans(attempts, events, ps[0], ss[0], tipo);
    }
    TypesAreCounted(ps);
  }

  lemma NoEventsNoNumbers(events: seq<Imported>, tipo: Tipo)
    requires !SomeEvent(events, FINALS, ACCEPTED) && tipo in FINALS
    ensures MaxImported(events, tipo) == 0
  {
    NoImportedMeansNone(events, tipo);
  }

  function One(b: bool): nat {
    if b then 1 else 0
  }

  lemma {:induction false} TypesAreCounted(ps: seq<Pedido>)
    requires forall i | 0 <= i < |ps| :: Final(ps[i].tipo)
    requires forall i, j | 0 <= i < j < |ps| :: ps[i].tipo != ps[j].tipo
    ensures |ps| == One(Requested(ps, Confirmacao)) + One(Requested(ps, Desconhecimento))
                + One(Requested(ps, NaoRealizada))
    decreases |ps|
  {
    if ps != [] {
      var n := |ps| - 1;
      TypesAreCounted(ps[..n]);
      RequestedUpTo(ps, Confirmacao);
      RequestedUpTo(ps, Desconhecimento);
      RequestedUpTo(ps, NaoRealizada);
      assert !Requested(ps[..n], ps[n].tipo);
    }
  }

  /** Two requests of one type do not both get through: the second creation meets the first in transmission. */
  lemma SameTypeIsRefused(s: State, first: Attempt, second: Attempt, automatic: bool)
    requires first.documento == second.documento && first.tipo == second.tipo
    requires first.status == second.status == Enviando
    requires first in s.attempts
    ensures Create(s, second, automatic) == s
  {
    var k :| 0 <= k < |s.attempts| && s.attempts[k] == first;
    var grown := s.attempts + [second];
    assert Clash(grown[k], grown[|s.attempts|]);
  }

  // The runs that do it

  function AllChecks(events: seq<Imported>, ps: seq<Pedido>, ss: seq<Situacao>): (r: seq<SplitStep>)
    requires |ss| == |ps|
    ensures |r| == |ps|
  {
    seq(|ps|, i requires 0 <= i < |ps| => Check(i, ps[i], ss[i], events))
  }

  function AllCreations(n: nat): (r: seq<SplitStep>)
    ensures |r| == n
  {
    seq(n, i requires 0 <= i < n => CreateChecked(i))
  }

  function SplitRun(t: SplitState, steps: seq<SplitStep>): SplitState
    decreases |steps|
  {
    if steps == [] then t else SplitRun(SplitNext(t, steps[0]), steps[1..])
  }

  lemma {:induction false} SplitRunAppend(t: SplitState, steps: seq<SplitStep>, last: SplitStep)
    ensures SplitRun(t, steps + [last]) == SplitNext(SplitRun(t, steps), last)
    decreases |steps|
  {
    hide SplitNext;
    if steps == [] {
      assert [last][1..] == [];
      assert steps + [last] == [last];
      assert SplitRun(SplitNext(t, last), []) == SplitNext(t, last);
    } else {
      assert (steps + [last])[1..] == steps[1..] + [last];
      SplitRunAppend(SplitNext(t, steps[0]), steps[1..], last);
    }
  }

  lemma OneCheckPasses(t: SplitState, step: SplitStep)
    requires step.Check? && Decide(t.s.attempts, step.events, step.pedido, step.situacao).Enviar?
    ensures var a := NewAttempt(step.pedido, step.situacao,
              Decide(t.s.attempts, step.events, step.pedido, step.situacao).nSeq);
            SplitNext(t, step) == t.(checked := t.checked[step.id := Checked(a, false, |t.s.attempts|, step.events)])
  {
    hide Decide;
  }

  /** The checks leave the table alone and are remembered one by one. */
  lemma {:induction false} ChecksPass(s: State, events: seq<Imported>, ps: seq<Pedido>, ss: seq<Situacao>,
      news: seq<Attempt>)
    requires |ss| == |ps| == |news|
    requires forall i | 0 <= i < |ps| ::
               Decide(s.attempts, events, ps[i], ss[i]).Enviar?
               && NewAttempt(ps[i], ss[i], Decide(s.attempts, events, ps[i], ss[i]).nSeq) == news[i]
    ensures var t := SplitRun(SplitState(s, map[]), AllChecks(events, ps, ss));
            && t.s == s
            && forall i | 0 <= i < |ps| ::
                i in t.checked && t.checked[i] == Checked(news[i], false, |s.attempts|, events)
    decreases |ps|
  {
    hide Decide, SplitNext, NewAttempt;
    if ps != [] {
      var n := |ps| - 1;
      var earlier, last := AllChecks(events, ps[..n], ss[..n]), Check(n, ps[n], ss[n], events);
      ChecksPass(s, events, ps[..n], ss[..n], news[..n]);
      assert AllChecks(events, ps, ss) == earlier + [last];
      var t := SplitRun(SplitState(s, map[]), earlier);
      SplitRunAppend(SplitState(s, map[]), earlier, last);
      OneCheckPasses(t, last);
    }
  }

  lemma OneCreation(t: SplitState, id: nat)
    requires id in t.checked && IndexesHold(t.s.attempts + [t.checked[id].attempt])
    ensures SplitNext(t, CreateChecked(id)).s.attempts == t.s.attempts + [t.checked[id].attempt]
    ensures SplitNext(t, CreateChecked(id)).checked == t.checked - {id}
  {
    hide IndexesHold;
  }

  lemma PrefixHolds(attempts: seq<Attempt>, more: seq<Attempt>)
    requires IndexesHold(attempts + more)
    ensures IndexesHold(attempts)
  {
    hide Clash;
    var all := attempts + more;
    forall i, j | 0 <= i < j < |attempts| ensures !Clash(attempts[i], attempts[j]) {
      assert all[i] == attempts[i] && all[j] == attempts[j];
    }
  }

  /** The creations add the remembered attempts one by one, as long as the indexes hold. */
  lemma {:induction false} CreationsFollow(t: SplitState, news: seq<Attempt>)
    requires IndexesHold(t.s.attempts + news)
    requires forall i | 0 <= i < |news| :: i in t.checked && t.checked[i].attempt == news[i]
    ensures SplitRun(t, AllCreations(|news|)).s.attempts == t.s.attempts + news
    ensures forall i | i in t.checked && i >= |news| ::
              i in SplitRun(t, AllCreations(|news|)).checked
              && SplitRun(t, AllCreations(|news|)).checked[i] == t.checked[i]
    decreases |news|
  {
    hide IndexesHold, SplitNext;
    if news == [] {
      assert t.s.attempts + news == t.s.attempts;
    } else {
      var n := |news| - 1;
      assert t.s.attempts + news == t.s.attempts + news[..n] + [news[n]];
      PrefixHolds(t.s.attempts + news[..n], [news[n]]);
      CreationsFollow(t, news[..n]);
      assert AllCreations(|news|) == AllCreations(n) + [CreateChecked(n)];
      SplitRunAppend(t, AllCreations(n), CreateChecked(n));
      OneCreation(SplitRun(t, AllCreations(n)), n);
    }
  }

  /** All checks first, then all creations: a run of the split steps that ends in the table described above. */
  lemma ChecksThenCreations(s: State, events: seq<Imported>, documento: nat, ps: seq<Pedido>, ss: seq<Situacao>)
    requires IndexesHold(s.attempts) && SequencesInRange(s.attempts) && Together(s.attempts, events, documento, ps, ss)
    ensures SplitRun(SplitRun(SplitState(s, map[]), AllChecks(events, ps, ss)), AllCreations(|ps|)).s.attempts
            == AllCreated(s.attempts, events, ps, ss)
  {
    hide Decide, LastSeq, IndexesHold, SequencesInRange, AllCreated, AllChecks, AllCreations, SplitRun, MaySend;
    var all := AllCreated(s.attempts, events, ps, ss);
    var news := all[|s.attempts|..];
    AllAreCreated(s.attempts, events, documento, ps, ss);
    assert all == s.attempts + news;
    forall i | 0 <= i < |ps|
      ensures NewAttempt(ps[i], ss[i], Decide(s.attempts, events, ps[i], ss[i]).nSeq) == news[i]
    {
      PassedMeans(s.attempts, events, ps[i], ss[i], Ciencia);
      assert news[i] == all[|s.attempts| + i];
    }
    ChecksPass(s, events, ps, ss, news);
    CreationsFollow(SplitRun(SplitState(s, map[]), AllChecks(events, ps, ss)), news);
  }
}
