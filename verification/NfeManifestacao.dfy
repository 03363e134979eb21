/** Manifestation of the recipient of an NF-e: what is stored per attempt, what the service checks before it
    sends, and how answers and imported official events change an attempt. */
module NfeManifestacao {
  import opened Options
  import opened NfeAutomacao

  /** Event codes 210210, 210200, 210220 and 210240; the last three are conclusive. */
  datatype Tipo = Ciencia | Confirmacao | Desconhecimento | NaoRealizada

  datatype Status = Enviando | Registrada | RegistradaSemVinculo | Rejeitada | FalhaLocal | Indeterminado

  /** Whose establishment acts, in which environment: what an authorisation is given for. */
  datatype Escopo = Escopo(cliente: nat, estabelecimento: nat, ambiente: nat)

  datatype Attempt = Attempt(documento: nat, escopo: Escopo, requestId: nat, tipo: Tipo, nSeq: nat, status: Status,
      enviadoEm: int)

  type Positive = n: nat | n > 0 witness 1

  /** An official event imported from the distribution of a document. */
  datatype Imported = Imported(tipo: Tipo, nSeq: Option<Positive>, status: Status, createdAt: int)

  const STALE_ATTEMPT_MS: int := 10 * 60 * 1000
  const DAY_MS: int := 24 * 60 * 60 * 1000
  const MAX_CONCLUSIVE: nat := 2

  predicate Final(t: Tipo) {
    t != Ciencia
  }

  predicate Aceita(s: Status) {
    s == Registrada || s == RegistradaSemVinculo
  }

  /** Sent, but without a confirmed result. */
  predicate Pendente(s: Status) {
    s == Enviando || s == Indeterminado
  }

  predicate Viva(s: Status) {
    Aceita(s) || Pendente(s)
  }

  // The attempts table

  predicate Ativa(s: Status) {
    s == Enviando || Aceita(s)
  }

  predicate Clash(a: Attempt, b: Attempt) {
    || a.requestId == b.requestId
    || (a.documento == b.documento && a.tipo == b.tipo && a.status == Enviando && b.status == Enviando)
    || (a.documento == b.documento && a.tipo == Ciencia && b.tipo == Ciencia && Ativa(a.status) && Ativa(b.status))
  }

  /** The three unique indexes: request ids; one attempt in transmission per document and event type; one
      Science per document that is in transmission or accepted. */
  predicate IndexesHold(attempts: seq<Attempt>) {
    forall i, j | 0 <= i < j < |attempts| :: !Clash(attempts[i], attempts[j])
  }

  /** An update of one row's status, which the database refuses when it breaks an index. */
  predicate UpdateFits(attempts: seq<Attempt>, i: nat, status: Status)
    requires i < |attempts|
  {
    IndexesHold(attempts[i := attempts[i].(status := status)])
  }

  function Updated(attempts: seq<Attempt>, i: nat, status: Status): (next: seq<Attempt>)
    requires i < |attempts|
    ensures |next| == |attempts|
  {
    if UpdateFits(attempts, i, status) then attempts[i := attempts[i].(status := status)] else attempts
  }

  // Sequence numbers

  function Max(a: nat, b: nat): nat {
    if a < b then b else a
  }

  predicate Counts(a: Attempt, documento: nat, tipo: Tipo, pendingToo: bool) {
    a.documento == documento && a.tipo == tipo && (Aceita(a.status) || (pendingToo && Pendente(a.status)))
  }

  function MaxSeq(attempts: seq<Attempt>, documento: nat, tipo: Tipo, pendingToo: bool): nat {
    if attempts == [] then 0
    else
      var last, rest := attempts[|attempts| - 1], MaxSeq(attempts[..|attempts| - 1], documento, tipo, pendingToo);
      if Counts(last, documento, tipo, pendingToo) then Max(rest, last.nSeq) else rest
  }

  function MaxImported(events: seq<Imported>, tipo: Tipo): nat {
    if events == [] then 0
    else
      var last, rest := events[|events| - 1], MaxImported(events[..|events| - 1], tipo);
      if last.tipo == tipo && Aceita(last.status) then Max(rest, last.nSeq.GetOr(1)) else rest
  }

  /** The highest sequence numbers of the three conclusive types, added up. */
  function ConclusiveSum(attempts: seq<Attempt>, documento: nat, pendingToo: bool): nat {
    MaxSeq(attempts, documento, Confirmacao, pendingToo)
    + MaxSeq(attempts, documento, Desconhecimento, pendingToo)
    + MaxSeq(attempts, documento, NaoRealizada, pendingToo)
  }

  function LastSeq(attempts: seq<Attempt>, events: seq<Imported>, documento: nat, tipo: Tipo): nat {
    Max(MaxSeq(attempts, documento, tipo, false), MaxImported(events, tipo))
  }

  function AcceptedFinalCount(attempts: seq<Attempt>, events: seq<Imported>, documento: nat): nat {
    LastSeq(attempts, events, documento, Confirmacao)
    + LastSeq(attempts, events, documento, Desconhecimento)
    + LastSeq(attempts, events, documento, NaoRealizada)
  }

  // Looking at a document's attempts and events

  predicate SomeAttempt(attempts: seq<Attempt>, documento: nat, tipos: set<Tipo>, statuses: set<Status>) {
    exists i | 0 <= i < |attempts| ::
        attempts[i].documento == documento && attempts[i].tipo in tipos && attempts[i].status in statuses
  }

  predicate SomeEvent(events: seq<Imported>, tipos: set<Tipo>, statuses: set<Status>) {
    exists i | 0 <= i < |events| :: events[i].tipo in tipos && events[i].status in statuses
  }

  const SCIENCE: set<Tipo> := {Ciencia}
  const FINALS: set<Tipo> := {Confirmacao, Desconhecimento, NaoRealizada}
  const ANY_TYPE: set<Tipo> := SCIENCE + FINALS
  const ACCEPTED: set<Status> := {Registrada, RegistradaSemVinculo}
  const PENDING: set<Status> := {Enviando, Indeterminado}
  const ANY_STATUS: set<Status> := ACCEPTED + PENDING + {Rejeitada, FalhaLocal}

  predicate SomeItem(attempts: seq<Attempt>, events: seq<Imported>, documento: nat, tipos: set<Tipo>,
      statuses: set<Status>) {
    SomeAttempt(attempts, documento, tipos, statuses) || SomeEvent(events, tipos, statuses)
  }

  // Manual registration

  datatype Pedido = Pedido(
    documento: nat, cliente: nat, requestId: nat, tipo: Tipo,
    confirmacaoExpressa: bool, justificativa: bool, reenvioConfirmado: bool, retificar: bool)

  /** What the service finds around the attempts: the client mode, the document with the establishment that the
      client has in it and its environment, the certificate, and the date of authorisation or, without one, of issue. */
  datatype Situacao = Situacao(
    estabelecimento: nat, ambiente: nat,
    clienteReal: bool, encontrada: bool, elegivel: bool, identidadeValida: bool, certificado: bool,
    canceladaOuDenegada: bool, autorizadaEm: Option<int>, now: int)

  datatype Recusa =
    | SemClienteReal | SemAutorizacaoExpressa | SemJustificativa | NaoEncontrada | NaoElegivel | SemIdentidade
    | SemCertificado
    | RequestIdDeOutroDocumento | ReenvioSoDeCiencia | NadaIndeterminado | CienciaImportada | OutroIndeterminado
    | ImportadoIndeterminado | EmAndamento | CienciaDuplicada | LimiteConclusiva | RetificacaoNaoMarcada
    | CienciaDeCancelada | ForaDoPrazo | SequenciaEsgotada

  datatype Decisao = Enviar(nSeq: nat) | Repetir(anterior: nat) | Recusar(motivo: Recusa)

  function FindRequest(attempts: seq<Attempt>, requestId: nat): (i: Option<nat>)
    ensures i.Some? ==> i.value < |attempts| && attempts[i.value].requestId == requestId
    ensures i.None? ==> forall k | 0 <= k < |attempts| :: attempts[k].requestId != requestId
  {
    if attempts == [] then None
    else if attempts[|attempts| - 1].requestId == requestId then Some(|attempts| - 1)
    else FindRequest(attempts[..|attempts| - 1], requestId)
  }

  function Preliminary(p: Pedido, s: Situacao): Option<Recusa> {
    if !s.clienteReal then Some(SemClienteReal)
    else if !p.confirmacaoExpressa then Some(SemAutorizacaoExpressa)
    else if p.tipo == NaoRealizada && !p.justificativa then Some(SemJustificativa)
    else if !s.encontrada then Some(NaoEncontrada)
    else if !s.elegivel then Some(NaoElegivel)
    else if !s.identidadeValida then Some(SemIdentidade)
    else if !s.certificado then Some(SemCertificado)
    else None
  }

  /** assertNoManifestationInProgress. */
  predicate InProgress(attempts: seq<Attempt>, documento: nat, reenvioConfirmado: bool) {
    || SomeAttempt(attempts, documento, ANY_TYPE, {Enviando})
    || SomeAttempt(attempts, documento, if reenvioConfirmado then FINALS else ANY_TYPE, {Indeterminado})
  }

  /** The checks on results that are not confirmed. */
  function Unconfirmed(attempts: seq<Attempt>, events: seq<Imported>, p: Pedido): Option<Recusa> {
    if p.reenvioConfirmado && p.tipo != Ciencia then Some(ReenvioSoDeCiencia)
    else if p.reenvioConfirmado && !SomeItem(attempts, events, p.documento, SCIENCE, {Indeterminado})
      then Some(NadaIndeterminado)
    else if p.reenvioConfirmado && SomeEvent(events, SCIENCE, ANY_STATUS) then Some(CienciaImportada)
    else if SomeItem(attempts, events, p.documento, FINALS, {Indeterminado}) then Some(OutroIndeterminado)
    else if !p.reenvioConfirmado && SomeEvent(events, ANY_TYPE, {Indeterminado}) then Some(ImportadoIndeterminado)
    else if InProgress(attempts, p.documento, p.reenvioConfirmado) then Some(EmAndamento)
    else None
  }

  predicate WithinDays(s: Situacao, days: int) {
    s.autorizadaEm.Some? && s.now <= s.autorizadaEm.value + days * DAY_MS
  }

  /** The checks on what is accepted already. */
  function Exhausted(attempts: seq<Attempt>, events: seq<Imported>, p: Pedido, s: Situacao): Option<Recusa> {
    var count := AcceptedFinalCount(attempts, events, p.documento);
    if p.tipo == Ciencia && (count > 0 || SomeItem(attempts, events, p.documento, SCIENCE, ACCEPTED))
      then Some(CienciaDuplicada)
    else if Final(p.tipo) && count >= MAX_CONCLUSIVE then Some(LimiteConclusiva)
    else if Final(p.tipo) && count > 0 && !p.retificar then Some(RetificacaoNaoMarcada)
    else if p.tipo == Ciencia && s.canceladaOuDenegada then Some(CienciaDeCancelada)
    else if Final(p.tipo) && !WithinDays(s, 90) then Some(ForaDoPrazo)
    else if LastSeq(attempts, events, p.documento, p.tipo) + 1 > 2 then Some(SequenciaEsgotada)
    else None
  }

  function Decide(attempts: seq<Attempt>, events: seq<Imported>, p: Pedido, s: Situacao): Decisao {
    var preliminary := Preliminary(p, s);
    if preliminary.Some? then Recusar(preliminary.value)
    else
      var prior := FindRequest(attempts, p.requestId);
      if prior.Some? then
        if attempts[prior.value].documento != p.documento || attempts[prior.value].escopo.cliente != p.cliente
        then Recusar(RequestIdDeOutroDocumento) else Repetir(prior.value)
      else
        var unconfirmed := Unconfirmed(attempts, events, p);
        if unconfirmed.Some? then Recusar(unconfirmed.value)
        else
          var exhausted := Exhausted(attempts, events, p, s);
          if exhausted.Some? then Recusar(exhausted.value)
          else Enviar(LastSeq(attempts, events, p.documento, p.tipo) + 1)
  }

  function ScopeFound(cliente: nat, s: Situacao): Escopo {
    Escopo(cliente, s.estabelecimento, s.ambiente)
  }

  function NewAttempt(p: Pedido, s: Situacao, nSeq: nat): Attempt {
    Attempt(p.documento, ScopeFound(p.cliente, s), p.requestId, p.tipo, nSeq, Enviando, s.now)
  }

  function AutomaticAttempt(documento: nat, cliente: nat, requestId: nat, s: Situacao): Attempt {
    Attempt(documento, ScopeFound(cliente, s), requestId, Ciencia, 1, Enviando, s.now)
  }

  // Automatic Science

  /** A status with the instant it was created, to find the latest Science. */
  datatype Dated = Dated(at: int, status: Status)

  function LatestEvent(events: seq<Imported>): Option<Dated> {
    if events == [] then None
    else
      var last, rest := events[|events| - 1], LatestEvent(events[..|events| - 1]);
      if last.tipo == Ciencia && (rest.None? || rest.value.at < last.createdAt)
        then Some(Dated(last.createdAt, last.status)) else rest
  }

  /** The latest Science over events and attempts; of two created at the same instant the first counts. */
  function LatestScience(attempts: seq<Attempt>, events: seq<Imported>, documento: nat): Option<Dated> {
    if attempts == [] then LatestEvent(events)
    else
      var last, rest := attempts[|attempts| - 1], LatestScience(attempts[..|attempts| - 1], events, documento);
      if last.documento == documento && last.tipo == Ciencia && (rest.None? || rest.value.at < last.enviadoEm)
      then Some(Dated(last.enviadoEm, last.status)) else rest
  }

  predicate Authorised(conta: Conta) {
    conta.config.Some? && conta.config.value.cienciaAutomatica && conta.config.value.autorizacaoAtiva
  }

  /** What preparing a recovery task comes to, before anything is sent: the first of the source's outcomes that
      applies. `JaAceita` goes on to query the XML. */
  datatype Preparo =
    | ResultadoPendente | AguardaEvento | JaAceita | SemAutorizacao
    | SemCliente | NaoAchada | Inelegivel | CertificadoAusente | PrazoExcedido | CienciaAnterior(status: Status) | Envia

  function Prepare(attempts: seq<Attempt>, events: seq<Imported>, documento: nat, s: Situacao, conta: Conta): Preparo {
    if SomeItem(attempts, events, documento, ANY_TYPE, PENDING) then ResultadoPendente
    else if SomeItem(attempts, events, documento, SCIENCE, {Registrada}) then JaAceita
    else if SomeItem(attempts, events, documento, FINALS, ACCEPTED) then JaAceita
    else if SomeItem(attempts, events, documento, SCIENCE, {RegistradaSemVinculo}) then AguardaEvento
    else if !Authorised(conta) then SemAutorizacao
    else if !s.clienteReal then SemCliente
    else if !s.encontrada then NaoAchada
    else if !s.elegivel then Inelegivel
    else if !s.certificado then CertificadoAusente
    else if !WithinDays(s, 10) then PrazoExcedido
    else
      var latest := LatestScience(attempts, events, documento);
      if latest.Some? && latest.value.status != FalhaLocal then CienciaAnterior(latest.value.status) else Envia
  }

  /** The recovery task sends Science of its own accord. */
  predicate SendsAutomatically(attempts: seq<Attempt>, events: seq<Imported>, documento: nat, s: Situacao,
      conta: Conta) {
    Prepare(attempts, events, documento, s, conta).Envia?
  }

  // Answers

  /** What comes back from sending: an error, of the client or not, or a response with its HTTP status, the
      result code of the lot and that of the event. */
  datatype Resposta =
    | Erro(doCliente: bool, requestMayHaveBeenSent: bool)
    | Retorno(statusCode: nat, cStat: string, eventCStat: string)

  predicate Accepts(r: Resposta) {
    r.Retorno? && r.statusCode == 200 && r.cStat == "128" && (r.eventCStat == "135" || r.eventCStat == "136")
  }

  function ManualStatus(r: Resposta): Status {
    match r
    case Erro(doCliente, sent) => if doCliente && !sent then FalhaLocal else Indeterminado
    case Retorno(_, _, eventCStat) =>
      if eventCStat == "573" then Indeterminado
      else if Accepts(r) then if eventCStat == "135" then Registrada else RegistradaSemVinculo
      else Rejeitada
  }

  function AutomaticStatus(r: Resposta): Status {
    match r
    case Erro(doCliente, sent) => if doCliente && !sent then FalhaLocal else Indeterminado
    case Retorno(_, _, eventCStat) =>
      if Accepts(r) then if eventCStat == "135" then Registrada else RegistradaSemVinculo
      else Rejeitada
  }

  /** The two paths record every answer alike, with one exception: a duplicate, which says that SEFAZ holds the
      event already, is left open for reconciliation on the manual path and recorded as rejected on the automatic
      one. */
  lemma PathsDifferExactlyOnDuplicates(r: Resposta)
    ensures ManualStatus(r) == AutomaticStatus(r) <==> !(r.Retorno? && r.eventCStat == "573")
    ensures r.Retorno? && r.eventCStat == "573" ==> ManualStatus(r) == Indeterminado && AutomaticStatus(r) == Rejeitada
  {
  }

  /** The manual path gives up when the database refuses the update. The automatic path records the result as
      indeterminate then, and also when the follow-up of an accepted Science fails. */
  function Answered(attempts: seq<Attempt>, i: nat, automatic: bool, r: Resposta,
      followUpFails: bool): (next: seq<Attempt>)
    requires i < |attempts|
    ensures |next| == |attempts|
  {
    if !automatic then Updated(attempts, i, ManualStatus(r))
    else
      var status := AutomaticStatus(r);
      if !UpdateFits(attempts, i, status) then Updated(attempts, i, Indeterminado)
      else if status == Registrada && followUpFails then Updated(Updated(attempts, i, status), i, Indeterminado)
      else Updated(attempts, i, status)
  }

  // Reconciliation with imported events

  function PendingIds(attempts: seq<Attempt>, documento: nat, cliente: nat): (ids: seq<nat>)
    ensures forall k | 0 <= k < |ids| ::
              ids[k] < |attempts| && attempts[ids[k]].documento == documento && Pendente(attempts[ids[k]].status)
  {
    if attempts == [] then []
    else
      var n := |attempts| - 1;
      var rest := PendingIds(attempts[..n], documento, cliente);
      if attempts[n].documento == documento && attempts[n].escopo.cliente == cliente && Pendente(attempts[n].status)
        then rest + [n] else rest
  }

  /** Attempts of the list that were still being sent ten minutes ago lose hope of an answer. */
  function StaleMarked(attempts: seq<Attempt>, ids: seq<nat>, now: int): (next: seq<Attempt>)
    requires forall k | 0 <= k < |ids| :: ids[k] < |attempts|
    ensures |next| == |attempts|
    decreases |ids|
  {
    if ids == [] then attempts
    else
      var a := attempts[ids[0]];
      StaleMarked(
        if a.status == Enviando && a.enviadoEm <= now - STALE_ATTEMPT_MS then Updated(attempts, ids[0], Indeterminado)
          else attempts,
        ids[1..], now)
  }

  predicate Confirms(e: Imported, a: Attempt) {
    e.tipo == a.tipo && Aceita(e.status) && (e.nSeq == Some(a.nSeq) || (e.nSeq == None && a.tipo == Ciencia))
  }

  /** The first imported event that confirms the attempt. */
  function Official(events: seq<Imported>, a: Attempt): (status: Option<Status>)
    ensures status.Some? ==> Aceita(status.value) && exists k | 0 <= k < |events| ::
              Confirms(events[k], a) && events[k].status == status.value
    ensures status.None? ==> forall k | 0 <= k < |events| :: !Confirms(events[k], a)
  {
    if events == [] then None
    else if Confirms(events[0], a) then Some(events[0].status)
    else
      var later := Official(events[1..], a);
      if later.Some? then
        var k :| 0 <= k < |events[1..]| && Confirms(events[1..][k], a) && events[1..][k].status == later.value;
        assert events[k + 1] == events[1..][k];
        later
      else
        assert forall k | 0 < k < |events| :: events[k] == events[1..][k - 1];
        later
  }

  /** One attempt of the list after the other; an update the database refuses ends the loop. */
  function Confirmed(attempts: seq<Attempt>, ids: seq<nat>, events: seq<Imported>): (next: seq<Attempt>)
    requires forall k | 0 <= k < |ids| :: ids[k] < |attempts|
    ensures |next| == |attempts|
    decreases |ids|
  {
    if ids == [] then attempts
    else
      var official := Official(events, attempts[ids[0]]);
      if official.None? then Confirmed(attempts, ids[1..], events)
      else if !UpdateFits(attempts, ids[0], official.value) then attempts
      else Confirmed(Updated(attempts, ids[0], official.value), ids[1..], events)
  }

  function Reconciled(attempts: seq<Attempt>, documento: nat, cliente: nat, events: seq<Imported>,
      now: int): seq<Attempt> {
    var ids := PendingIds(attempts, documento, cliente);
    Confirmed(StaleMarked(attempts, ids, now), ids, events)
  }
}
