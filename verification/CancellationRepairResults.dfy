/** What one run of the repair script with `--apply` achieves, over all documents or over those of one client.
    Throughout, `repaired` is what the run found and repaired, page by page. */
module CancellationRepairResults {
  import opened Options
  import opened CancellationRepair
  import opened CancellationRepairScript

  ghost predicate IsRun(db: Db, ids: seq<nat>, repaired: set<nat>)
  {
    && WellFormed(db) && Distinct(ids) && Prefix(ids, |ids|) <= db.docs.Keys && repaired <= db.docs.Keys
    && Decided(db, ids, repaired, true, |ids|)
  }

  /** Some event is moved to document `id` by the repair of `repaired`. */
  predicate ReceivesEvidence(db: Db, repaired: set<nat>, id: nat)
    requires WellFormed(db) && repaired <= db.docs.Keys
  {
    exists e | e in db.eventos :: OrphanIn(db, repaired, e) && OwnerOfEvent(db, e) == Some(id)
  }

  lemma OwnCancelAfter(db: Db, repaired: set<nat>, id: nat)
    requires WellFormed(db) && repaired <= db.docs.Keys && id in db.docs
    ensures id in Apply(db, repaired).docs
    ensures HasOwnCancel(Apply(db, repaired), id) <==> HasOwnCancel(db, id) || ReceivesEvidence(db, repaired, id)
  {
    hide IsEventoCancelamento, Apply, OwnCancel, OrphanIn, OwnerOfEvent;
    ApplyIsWellFormed(db, repaired);
    var after := Apply(db, repaired);
    if HasOwnCancel(after, id) {
      var e :| e in after.eventos && OwnCancel(after, id, e);
      OwnEvidenceAfter(db, repaired, id, e);
      if e !in db.eventos {
        NoNewEvents(db, repaired, e);
      }
    }
    if HasOwnCancel(db, id) {
      var e :| e in db.eventos && OwnCancel(db, id, e);
      OwnEvidenceAfter(db, repaired, id, e);
      Exists(after, id, e);
    }
    if ReceivesEvidence(db, repaired, id) {
      var e :| e in db.eventos && OrphanIn(db, repaired, e) && OwnerOfEvent(db, e) == Some(id);
      OwnEvidenceAfter(db, repaired, id, e);
      Exists(after, id, e);
    }
  }

  lemma Exists(db: Db, id: nat, e: nat)
    requires id in db.docs && OwnCancel(db, id, e)
    ensures HasOwnCancel(db, id)
  {
  }

  /** The signature of the bug, in terms of orphans alone. */
  predicate Suspicious(db: Db, id: nat)
    requires id in db.docs
  {
    !IsCancelada(db.docs[id]) && (db.docs[id].dataCancelamento.Some? || OrphansOf(db, id) != {})
  }

  lemma NeedsRepairMeans(db: Db, id: nat)
    requires id in db.docs
    ensures NeedsRepair(db, id) <==> Suspicious(db, id) && !HasOwnCancel(db, id)
  {
    hide IsEventoCancelamento;
    if e: nat :| e in db.eventos && OrphanCancel(db, id, e) {
      assert e in OrphansOf(db, id);
    }
    if OrphansOf(db, id) != {} {
      var e :| e in OrphansOf(db, id);
      assert OrphanCancel(db, id, e);
    }
  }

  lemma SuspicionStays(db: Db, repaired: set<nat>, id: nat)
    requires WellFormed(db) && repaired <= db.docs.Keys && id in db.docs && id !in repaired
    ensures id in Apply(db, repaired).docs && Suspicious(Apply(db, repaired), id) == Suspicious(db, id)
  {
    hide IsEventoCancelamento, Apply;
    ApplyIsWellFormed(db, repaired);
    OrphansAgree(db, repaired, id);
  }

  lemma RepairedAreClean(db: Db, repaired: set<nat>, id: nat)
    requires WellFormed(db) && repaired <= db.docs.Keys && id in repaired
    ensures id in Apply(db, repaired).docs && Apply(db, repaired).docs[id].dataCancelamento == None
    ensures OrphansOf(Apply(db, repaired), id) == {}
  {
    hide IsEventoCancelamento;
    assert Apply(db, repaired).docs[id] == db.docs[id].(dataCancelamento := None);
    forall e ensures e !in OrphansOf(Apply(db, repaired), id) {
      NotAnOrphanAnyMore(db, repaired, id, e);
    }
  }

  lemma NotAnOrphanAnyMore(db: Db, repaired: set<nat>, id: nat, e: nat)
    requires WellFormed(db) && repaired <= db.docs.Keys && id in repaired && id in Apply(db, repaired).docs
    ensures !OrphanCancel(Apply(db, repaired), id, e)
  {
    hide IsEventoCancelamento, Apply;
    ApplyIsWellFormed(db, repaired);
    if e in db.eventos {
      EventAfter(db, repaired, e);
    } else {
      NoNewEvents(db, repaired, e);
    }
  }

  lemma PositionOf(ids: seq<nat>, id: nat) returns (p: nat)
    requires id in Prefix(ids, |ids|)
    ensures p < |ids| && ids[p] == id
  {
    p :| 0 <= p < |ids| && ids[p] == id;
  }

  /** Which documents a run repairs, in terms of what it repaired on earlier pages. */
  lemma RepairedInTurn(db: Db, ids: seq<nat>, repaired: set<nat>, p: nat)
    requires IsRun(db, ids, repaired) && p < |ids|
    ensures ids[p] in db.docs
    ensures ids[p] in repaired <==>
              && Suspicious(db, ids[p]) && !HasOwnCancel(db, ids[p])
              && !ReceivesEvidence(db, repaired * Prefix(ids, PageStart(p)), ids[p])
  {
    hide IsEventoCancelamento, Apply, NeedsRepair, Suspicious, HasOwnCancel, ReceivesEvidence, WellFormed, Prefix;
    InPrefix(ids, p);
    PageIsEarlier(ids, p);
    var read := repaired * Prefix(ids, PageStart(p));
    assert read == RepairedBefore(ids, repaired, true, p);
    FlaggedMeans(db, ids, repaired, true, p);
    NotYetRepaired(ids, p);
    NeedsRepairMeans(Apply(db, read), ids[p]);
    SuspicionStays(db, read, ids[p]);
    OwnCancelAfter(db, read, ids[p]);
  }

  /** Document `holder` holds an orphan cancellation event that belongs to document `id`. */
  predicate HoldsEvidenceFor(db: Db, holder: nat, id: nat)
    requires WellFormed(db) && holder in db.docs
  {
    exists e | e in db.eventos && OrphanCancel(db, holder, e) :: OwnerOfEvent(db, e) == Some(id)
  }

  /** Whether a run over `ids` repairs the document at position p, read off the database before the run: it looks
      cancelled without evidence of its own, and no document repaired on an earlier page holds evidence for it. */
  ghost predicate Fixed(db: Db, ids: seq<nat>, p: nat)
    requires WellFormed(db) && p < |ids| && forall q | 0 <= q < |ids| :: ids[q] in db.docs
    decreases p
  {
    && Suspicious(db, ids[p]) && !HasOwnCancel(db, ids[p])
    && forall q | 0 <= q < p && q < PageStart(p) && Fixed(db, ids, q) :: !HoldsEvidenceFor(db, ids[q], ids[p])
  }

  lemma IdsAreDocuments(db: Db, ids: seq<nat>)
    requires Prefix(ids, |ids|) <= db.docs.Keys
    ensures forall q | 0 <= q < |ids| :: ids[q] in db.docs
  {
    forall q | 0 <= q < |ids| ensures ids[q] in db.docs {
      InPrefix(ids, q);
    }
  }

  /** Evidence arrives from the repaired documents among the positions below n exactly when one of them holds some. */
  lemma ReceivesFromHolders(db: Db, ids: seq<nat>, repaired: set<nat>, n: nat, id: nat)
    requires WellFormed(db) && n <= |ids| && repaired <= Prefix(ids, n) && Prefix(ids, |ids|) <= db.docs.Keys
    requires repaired <= db.docs.Keys && forall q | 0 <= q < |ids| :: ids[q] in db.docs
    ensures ReceivesEvidence(db, repaired, id) <==>
              exists q | 0 <= q < n :: ids[q] in repaired && HoldsEvidenceFor(db, ids[q], id)
  {
    hide IsEventoCancelamento, OwnerOfEvent, WellFormed;
    if ReceivesEvidence(db, repaired, id) {
      var e :| e in db.eventos && OrphanIn(db, repaired, e) && OwnerOfEvent(db, e) == Some(id);
      var q :| 0 <= q < n && ids[q] == db.eventos[e].documento;
      assert OrphanCancel(db, ids[q], e);
    }
    if q :| 0 <= q < n && ids[q] in repaired && HoldsEvidenceFor(db, ids[q], id) {
      var e :| e in db.eventos && OrphanCancel(db, ids[q], e) && OwnerOfEvent(db, e) == Some(id);
      assert OrphanIn(db, repaired, e);
    }
  }

  /** Exactly which documents a run repairs. The evidence that counts is the document's own and what earlier
      pages have moved to it; what its own page moves to it comes too late. */
  lemma {:induction false} RepairedExactly(db: Db, ids: seq<nat>, repaired: set<nat>, p: nat)
    requires IsRun(db, ids, repaired) && p < |ids|
    ensures forall q | 0 <= q < |ids| :: ids[q] in db.docs
    ensures ids[p] in repaired <==> Fixed(db, ids, p)
    decreases p
  {
    hide IsEventoCancelamento, Apply, Suspicious, HasOwnCancel, ReceivesEvidence, WellFormed, HoldsEvidenceFor, Decided;
    IdsAreDocuments(db, ids);
    RepairedInTurn(db, ids, repaired, p);
    NotYetRepaired(ids, p);
    forall q | 0 <= q < PageStart(p) ensures ids[q] in repaired <==> Fixed(db, ids, q) {
      RepairedExactly(db, ids, repaired, q);
    }
    var earlier := repaired * Prefix(ids, PageStart(p));
    forall q | 0 <= q < PageStart(p) ensures ids[q] in earlier <==> ids[q] in repaired {
      assert ids[q] in Prefix(ids, PageStart(p));
    }
    ReceivesFromHolders(db, ids, earlier, PageStart(p), ids[p]);
  }

  lemma NotYetRepaired(ids: seq<nat>, p: nat)
    requires Distinct(ids) && p < |ids|
    ensures PageStart(p) <= p && ids[p] !in Prefix(ids, PageStart(p))
  {
  }

  lemma MoreReceives(db: Db, fewer: set<nat>, more: set<nat>, id: nat)
    requires WellFormed(db) && fewer <= more <= db.docs.Keys
    ensures ReceivesEvidence(db, fewer, id) ==> ReceivesEvidence(db, more, id)
  {
    hide IsEventoCancelamento, OwnerOfEvent, OrphanCancel;
  }

  /** After a run, every document it went over that still looks cancelled without being marked `cancelada`
      has a linked cancellation event that carries its own key. */
  lemma EvidenceForEveryCancellation(db: Db, ids: seq<nat>, repaired: set<nat>, id: nat)
    requires IsRun(db, ids, repaired) && id in Prefix(ids, |ids|)
    ensures id in Apply(db, repaired).docs
    ensures LooksCancelled(Apply(db, repaired), id) && !IsCancelada(Apply(db, repaired).docs[id]) ==>
              HasOwnCancel(Apply(db, repaired), id)
  {
    hide IsEventoCancelamento, Apply, Suspicious, HasOwnCancel, ReceivesEvidence, WellFormed, Prefix, LooksCancelled;
    ApplyIsWellFormed(db, repaired);
    NeedsRepairMeans(Apply(db, repaired), id);
    if id in repaired {
      RepairedAreClean(db, repaired, id);
      CleanIsNotSuspicious(Apply(db, repaired), id);
    } else {
      var p := PositionOf(ids, id);
      RepairedInTurn(db, ids, repaired, p);
      SuspicionStays(db, repaired, id);
      OwnCancelAfter(db, repaired, id);
      MoreReceives(db, repaired * Prefix(ids, PageStart(p)), repaired, id);
    }
  }

  lemma CleanIsNotSuspicious(db: Db, id: nat)
    requires id in db.docs && db.docs[id].dataCancelamento == None && OrphansOf(db, id) == {}
    ensures !Suspicious(db, id)
  {
  }

  /** An event is deleted exactly when it is an orphan cancellation event of a repaired document and no
      document of that ambiente has its key; with an owner it is relinked to it; every other event stays as
      it was, in particular every event that is no cancellation event. */
  lemma EventFates(db: Db, repaired: set<nat>, e: nat)
    requires WellFormed(db) && repaired <= db.docs.Keys && e in db.eventos
    ensures var after, ambiente, chave :=
              Apply(db, repaired), db.docs[db.eventos[e].documento].ambiente, db.eventos[e].chaveAcesso;
            && (e !in after.eventos <==>
                  OrphanIn(db, repaired, e) && forall id | id in db.docs :: !OwnsKey(db.docs, id, ambiente, chave))
            && (forall id | OwnsKey(db.docs, id, ambiente, chave) && OrphanIn(db, repaired, e) ::
                  e in after.eventos && after.eventos[e] == db.eventos[e].(documento := id))
            && (!OrphanIn(db, repaired, e) ==> e in after.eventos && after.eventos[e] == db.eventos[e])
    ensures !IsEventoCancelamento(db.eventos[e]) ==> !OrphanIn(db, repaired, e)
    ensures OrphanIn(db, repaired, e) <==>
              db.eventos[e].documento in repaired && e in OrphansOf(db, db.eventos[e].documento)
  {
    hide IsEventoCancelamento, Apply;
    EventAfter(db, repaired, e);
  }

  /** Documents only ever lose a cancellation date, and only repaired ones do. */
  lemma DocumentFates(db: Db, repaired: set<nat>, id: nat)
    requires WellFormed(db) && repaired <= db.docs.Keys && id in db.docs
    ensures Apply(db, repaired).docs.Keys == db.docs.Keys
    ensures Apply(db, repaired).docs[id]
            == if id in repaired then db.docs[id].(dataCancelamento := None) else db.docs[id]
    ensures Apply(db, repaired).docs[id].status == db.docs[id].status
  {
  }

  /** A second run changes nothing. */
  lemma SecondRunChangesNothing(db: Db, ids: seq<nat>, repaired: set<nat>, again: set<nat>)
    requires IsRun(db, ids, repaired) && IsRun(Apply(db, repaired), ids, again)
    ensures again == {} && Apply(Apply(db, repaired), again) == Apply(db, repaired)
  {
    hide IsEventoCancelamento, Apply, NeedsRepair, WellFormed, Prefix;
    NothingRepaired(Apply(db, repaired));
    assert again * Prefix(ids, |ids|) == {} by { NothingFlagged(db, ids, repaired, again, |ids|); }
    assert again * Prefix(ids, |ids|) == again;
  }

  lemma {:induction false} NothingFlagged(db: Db, ids: seq<nat>, repaired: set<nat>, again: set<nat>, n: nat)
    requires IsRun(db, ids, repaired) && IsRun(Apply(db, repaired), ids, again) && n <= |ids|
    ensures again * Prefix(ids, n) == {}
  {
    hide IsEventoCancelamento, Apply, WellFormed, LooksCancelled, HasOwnCancel, IsCancelada, Distinct;
    if n > 0 {
      var after, p := Apply(db, repaired), n - 1;
      NothingFlagged(db, ids, repaired, again, p);
      InPrefix(ids, p);
      EvidenceForEveryCancellation(db, ids, repaired, ids[p]);
      FlaggedMeans(after, ids, again, true, p);
      NothingRepaired(after);
      PageIsEarlier(ids, p);
      assert RepairedBefore(ids, again, true, p) == {} by {
        assert Prefix(ids, PageStart(p)) <= Prefix(ids, p);
      }
      assert ids[p] !in again;
      assert Prefix(ids, n) == Prefix(ids, p) + {ids[p]};
    }
  }

  /** What is settled is left alone: a document whose status is "cancelada" is never touched, and neither is one that
      is linked to an event of its own key that is of type e101101 or mentions a cancellation; such an event stays. */
  lemma SettledIsKept(db: Db, ids: seq<nat>, repaired: set<nat>, id: nat, e: nat)
    requires IsRun(db, ids, repaired) && id in db.docs
    requires e in db.eventos && db.eventos[e].documento == id && db.eventos[e].chaveAcesso == db.docs[id].chaveAcesso
    ensures var after, evento := Apply(db, repaired), db.eventos[e];
            || db.docs[id].status == Some("cancelada")
            || SaysWord(evento.tipoEvento, "e101101")
            || SpeaksOfCancellation(evento.tipoEvento) || SpeaksOfCancellation(evento.descricao) ==>
              && id in after.docs && after.docs[id] == db.docs[id]
              && e in after.eventos && after.eventos[e] == db.eventos[e]
  {
    hide IsEventoCancelamento, Apply, WellFormed, SaysWord, SpeaksOfCancellation, HoldsEvidenceFor, Decided;
    CancellationEventsAre(db.eventos[e]);
    DocumentFates(db, repaired, id);
    EventFates(db, repaired, e);
    if id in repaired {
      var p := RepairedPosition(db, ids, repaired, id);
      RepairedExactly(db, ids, repaired, p);
      if IsEventoCancelamento(db.eventos[e]) {
        Exists(db, id, e);
      }
    }
  }

  lemma RepairedPosition(db: Db, ids: seq<nat>, repaired: set<nat>, id: nat) returns (p: nat)
    requires IsRun(db, ids, repaired) && id in repaired
    ensures p < |ids| && ids[p] == id
  {
    hide FlaggedWhenRead;
    p := PositionOf(ids, id);
  }

  /** And the stale mark goes: a listed document with a date, whose status is not "cancelada", loses the date when no
      cancellation event carries its key. */
  lemma StaleDateIsCleared(db: Db, ids: seq<nat>, repaired: set<nat>, p: nat)
    requires IsRun(db, ids, repaired) && p < |ids|
    ensures ids[p] in db.docs && ids[p] in Apply(db, repaired).docs
    ensures && db.docs[ids[p]].dataCancelamento.Some? && db.docs[ids[p]].status != Some("cancelada")
            && (forall e | e in db.eventos && IsEventoCancelamento(db.eventos[e]) ::
                  db.eventos[e].chaveAcesso != db.docs[ids[p]].chaveAcesso) ==>
              Apply(db, repaired).docs[ids[p]].dataCancelamento == None
  {
    hide IsEventoCancelamento, Apply, WellFormed, Decided;
    IdsAreDocuments(db, ids);
    DocumentFates(db, repaired, ids[p]);
    RepairedExactly(db, ids, repaired, p);
    assert (forall e | e in db.eventos && IsEventoCancelamento(db.eventos[e]) ::
                  db.eventos[e].chaveAcesso != db.docs[ids[p]].chaveAcesso) ==>
      !HasOwnCancel(db, ids[p]) && forall q | 0 <= q < p :: !HoldsEvidenceFor(db, ids[q], ids[p]);
  }

  /** The document has a date before the run, none after it, and then has evidence of its own. */
  predicate LosesGenuineDate(db: Db, after: Db, id: nat)
    requires id in db.docs && id in after.docs
  {
    db.docs[id].dataCancelamento.Some? && after.docs[id].dataCancelamento.None? && HasOwnCancel(after, id)
  }

  /** When a run takes the date of a document that ends up with evidence of its own: exactly when the document has
      one, the run repairs it, and a repaired document of its own page or of a later one holds the evidence. */
  lemma DateClearedThoughGenuine(db: Db, ids: seq<nat>, repaired: set<nat>, p: nat)
    requires IsRun(db, ids, repaired) && p < |ids|
    ensures ids[p] in Apply(db, repaired).docs && forall q | 0 <= q < |ids| :: ids[q] in db.docs
    ensures LosesGenuineDate(db, Apply(db, repaired), ids[p]) <==>
              && db.docs[ids[p]].dataCancelamento.Some? && Fixed(db, ids, p)
              && exists q | PageStart(p) <= q < |ids| :: Fixed(db, ids, q) && HoldsEvidenceFor(db, ids[q], ids[p])
  {
    hide IsEventoCancelamento, Apply, Suspicious, HasOwnCancel, ReceivesEvidence, WellFormed, HoldsEvidenceFor,
        FlaggedWhenRead;
    IdsAreDocuments(db, ids);
    OwnCancelAfter(db, repaired, ids[p]);
    DocumentFates(db, repaired, ids[p]);
    RepairedInTurn(db, ids, repaired, p);
    forall q | 0 <= q < |ids| ensures ids[q] in repaired <==> Fixed(db, ids, q) {
      RepairedExactly(db, ids, repaired, q);
    }
    ReceivesFromHolders(db, ids, repaired, |ids|, ids[p]);
    NotYetRepaired(ids, p);
  }

  /** Two documents of one page, of which the first holds the cancellation event of the second. */
  function TwoDocuments(ambiente: string, first: string, second: string, status: Option<string>, date: int,
      cancel: Evento): Db {
    Db(map[0 := Documento(ambiente, first, status, None), 1 := Documento(ambiente, second, status, Some(date))],
       map[0 := cancel.(documento := 0, chaveAcesso := second)])
  }

  /** It does happen: both documents are repaired, and the second, genuinely cancelled one loses its date. */
  lemma DateIsLostWithinAPage(ambiente: string, first: string, second: string, status: Option<string>, date: int,
      cancel: Evento)
    requires first != second && status != Some("cancelada") && IsEventoCancelamento(cancel)
    ensures var db := TwoDocuments(ambiente, first, second, status, date, cancel);
            && IsRun(db, [0, 1], {0, 1})
            && Apply(db, {0, 1}).docs[1].dataCancelamento == None
            && HasOwnCancel(Apply(db, {0, 1}), 1)
  {
    hide IsEventoCancelamento, Apply, OwnCancel, Suspicious, Decided, HasOwnCancel, NeedsRepair;
    var db := TwoDocuments(ambiente, first, second, status, date, cancel);
    var ids := [0, 1];
    RelinkKeepsKind(cancel, 0);
    KindIgnoresKey(cancel, second);
    assert Prefix(ids, |ids|) == {0, 1} by { assert ids[0] == 0 && ids[1] == 1; }
    NothingRepaired(db);
    BothNeedRepair(ambiente, first, second, status, date, cancel);
    BothAreFlagged(db, ids);
    DocumentFates(db, {0, 1}, 1);
    assert OrphanIn(db, {0, 1}, 0);
    assert OwnsKey(db.docs, 1, ambiente, second);
    assert ReceivesEvidence(db, {0, 1}, 1);
    OwnCancelAfter(db, {0, 1}, 1);
  }

  lemma KindIgnoresKey(e: Evento, chave: string)
    ensures IsEventoCancelamento(e.(documento := 0, chaveAcesso := chave)) == IsEventoCancelamento(e)
  {
  }

  lemma BothNeedRepair(ambiente: string, first: string, second: string, status: Option<string>, date: int,
      cancel: Evento)
    requires first != second && status != Some("cancelada") && IsEventoCancelamento(cancel)
    ensures var db := TwoDocuments(ambiente, first, second, status, date, cancel);
            NeedsRepair(db, 0) && NeedsRepair(db, 1)
  {
    hide IsEventoCancelamento;
    var db := TwoDocuments(ambiente, first, second, status, date, cancel);
    KindIgnoresKey(cancel, second);
    assert OrphanCancel(db, 0, 0);
  }

  lemma BothAreFlagged(db: Db, ids: seq<nat>)
    requires WellFormed(db) && ids == [0, 1] && Prefix(ids, |ids|) <= db.docs.Keys
    requires Apply(db, {}) == db && 0 in db.docs && 1 in db.docs && NeedsRepair(db, 0) && NeedsRepair(db, 1)
    ensures Decided(db, ids, {0, 1}, true, |ids|)
  {
    hide NeedsRepair, Apply;
    assert ids[0] == 0 && ids[1] == 1;
    assert {0, 1} <= Prefix(ids, |ids|);
    forall p | 0 <= p < |ids| ensures FlaggedWhenRead(db, ids, {0, 1}, true, p) {
      assert PageStart(p) == 0;
      assert Prefix(ids, 0) == {};
      assert RepairedBefore(ids, {0, 1}, true, p) == {};
      InPrefix(ids, p);
    }
  }

  /** Pages hold two hundred documents: two positions are on one page exactly if they are in the same two hundred. */
  lemma PagesAre(p: nat, q: nat)
    ensures PageStart(p) == PageStart(q) <==> p / 200 == q / 200
    ensures PageStart(p) <= p < PageStart(p) + 200
  {
  }
}
