/** The control row of an NF-e collector (table nfe_sc_sync_controle) and every single-row update on it. */
module NfeScControl {
  import opened Options

  const EXECUTION_LEASE_MS: int := 5 * 60 * 1000
  const HOUR_MS: int := 60 * 60 * 1000

  datatype Status = Ativo | Pausado | Processando | ErroCertificado | ErroAutorizacao | ErroApi

  datatype Row = Row(status: Status, proxima: Option<int>, ultimoNsu: nat, total: nat) {
    predicate Held(token: int) {
      status == Processando && proxima == Some(token)
    }
  }

  const NEW_ROW: Row := Row(Ativo, None, 0, 0)

  /** 117, 118, 110, 657, 632, 8001/8002/8004, 280-286, any other code. */
  datatype CStat = C117 | C118 | C110 | C657 | C632 | SemVinculo | CertificadoRecusado | OutroCodigo

  function NewLease(now: int): int {
    now + EXECUTION_LEASE_MS
  }

  function Configure(r: Row): Row {
    r.(status := Ativo)
  }

  function Pause(r: Row): Row {
    r.(status := Pausado, proxima := None)
  }

  predicate RunAccepted(r: Row, now: int) {
    r.status != Processando && (r.proxima.None? || r.proxima.value <= now)
  }

  predicate CanClaim(r: Row, now: int) {
    && r.status != Processando
    && ((r.status == Ativo && r.proxima.None?) || (r.proxima.Some? && r.proxima.value <= now))
  }

  function Claim(r: Row, now: int): Row {
    if CanClaim(r, now) then r.(status := Processando, proxima := Some(NewLease(now))) else r
  }

  function Renew(r: Row, token: int, now: int): Row {
    if r.Held(token) then r.(proxima := Some(NewLease(now))) else r
  }

  /** The cursor half of the transaction that also writes the ledger entry. */
  function CommitDocument(r: Row, token: int, nsu: nat): Row {
    if r.Held(token) then r.(ultimoNsu := nsu, total := r.total + 1) else r
  }

  function ResolveStatus(c: CStat): Status {
    match c
    case SemVinculo => ErroAutorizacao
    case CertificadoRecusado => ErroCertificado
    case C117 => Ativo
    case C118 => Ativo
    case _ => ErroApi
  }

  function ResolveDelay(c: CStat): Option<int> {
    match c
    case C110 => Some(HOUR_MS)
    case C657 => Some(12 * HOUR_MS)
    case C632 => None
    case C117 => Some(12 * HOUR_MS)
    case C118 => Some(12 * HOUR_MS)
    case _ => Some(HOUR_MS)
  }

  function Complete(r: Row, token: int, c: CStat, now: int): Row {
    if r.Held(token)
    then r.(status := ResolveStatus(c),
            proxima := match ResolveDelay(c) case None => None case Some(delay) => Some(now + delay))
    else r
  }

  function Stop(r: Row, token: int, now: int): Row {
    if r.Held(token) then r.(status := ErroApi, proxima := Some(now + HOUR_MS)) else r
  }

  // When a control can be started again

  /** Hours to wait after each result of a download; never of its own accord after 632. */
  function WaitHours(c: CStat): Option<int> {
    match c
    case C117 => Some(12)
    case C118 => Some(12)
    case C110 => Some(1)
    case C657 => Some(12)
    case C632 => None
    case SemVinculo => Some(1)
    case CertificadoRecusado => Some(1)
    case OutroCodigo => Some(1)
  }

  /** A completed execution gives up its lease, keeps cursor and total, tells by its status what the service said, and
      the control can be started again exactly from the instant its wait is over. */
  lemma CompletionMeans(r: Row, token: int, c: CStat, now: int)
    requires r.Held(token)
    ensures var after := Complete(r, token, c, now);
            && after.ultimoNsu == r.ultimoNsu && after.total == r.total
            && (after.status == Ativo <==> c == C117 || c == C118)
            && (after.status == ErroAutorizacao <==> c == SemVinculo)
            && (after.status == ErroCertificado <==> c == CertificadoRecusado)
            && (after.status == ErroApi <==> c in {C110, C657, C632, OutroCodigo})
            && (forall t :: !after.Held(t))
            && forall t :: (CanClaim(after, t) <==> WaitHours(c).Some? && t >= now + WaitHours(c).value * 3600000)
                           && (WaitHours(c).Some? ==> (RunAccepted(after, t) <==> CanClaim(after, t)))
  {
  }

  /** A failed one can be started again from an hour later, under the status of an error. */
  lemma StopMeans(r: Row, token: int, now: int)
    requires r.Held(token)
    ensures var after := Stop(r, token, now);
            && after.ultimoNsu == r.ultimoNsu && after.total == r.total && after.status == ErroApi
            && (forall t :: !after.Held(t)) && forall t :: CanClaim(after, t) <==> t >= now + 3600000
  {
  }

  /** Only the holder of the lease completes, stops, renews or commits anything. */
  lemma OthersChangeNothing(r: Row, token: int, c: CStat, now: int, nsu: nat)
    requires !r.Held(token)
    ensures Complete(r, token, c, now) == r && Stop(r, token, now) == r && Renew(r, token, now) == r
            && CommitDocument(r, token, nsu) == r
  {
  }

  /** A claim takes the control for five minutes, and so does a renewal. */
  lemma ClaimMeans(r: Row, token: int, now: int)
    ensures CanClaim(r, now) ==> Claim(r, now) == r.(status := Processando, proxima := Some(now + 300000))
    ensures CanClaim(r, now) ==> r.status != Processando && Claim(r, now).Held(now + 300000)
    ensures r.Held(token) ==> Renew(r, token, now).Held(now + 300000) && !CanClaim(r, now) && !RunAccepted(r, now)
    ensures CanClaim(r, now) ==> RunAccepted(r, now)
    ensures RunAccepted(r, now) && !CanClaim(r, now) ==> r.status != Ativo && r.proxima == None
  {
  }
}
