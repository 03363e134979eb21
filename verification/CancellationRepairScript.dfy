/** The repair script: pages of 200 documents, each page read before any of its documents is changed. */
module CancellationRepairScript {
  import opened Options
  import opened CancellationRepair

  ghost function Prefix(ids: seq<nat>, n: nat): set<nat>
    requires n <= |ids|
  {
    set p | 0 <= p < n :: ids[p]
  }

  function PageStart(p: nat): nat {
    p / BATCH_SIZE * BATCH_SIZE
  }

  predicate Distinct(ids: seq<nat>) {
    forall p, q | 0 <= p < q < |ids| :: ids[p] != ids[q]
  }

  /** Only `--apply` changes what was flagged. */
  function Changed(flagged: set<nat>, apply: bool): set<nat> {
    if apply then flagged else {}
  }

  /** What had been repaired when the page of the document at position p was read. */
  ghost function RepairedBefore(ids: seq<nat>, flagged: set<nat>, apply: bool, p: nat): (s: set<nat>)
    requires p < |ids|
    ensures s <= Prefix(ids, |ids|) && s <= Changed(flagged, apply)
  {
    PageIsEarlier(ids, p);
    Changed(flagged, apply) * Prefix(ids, PageStart(p))
  }

  lemma PageIsEarlier(ids: seq<nat>, p: nat)
    requires p < |ids|
    ensures PageStart(p) <= p && Prefix(ids, PageStart(p)) <= Prefix(ids, |ids|)
  {
  }

  /** Among the first n documents, `flagged` holds those that needed repair when their page was read: after
      the repairs of all earlier pages, before those of their own. */
  ghost predicate Decided(db: Db, ids: seq<nat>, flagged: set<nat>, apply: bool, n: nat)
    requires WellFormed(db) && n <= |ids| && Prefix(ids, |ids|) <= db.docs.Keys
  {
    && flagged <= Prefix(ids, n)
    && forall p | 0 <= p < n :: ids[p] in flagged <==> FlaggedWhenRead(db, ids, flagged, apply, p)
  }

  ghost predicate FlaggedWhenRead(db: Db, ids: seq<nat>, flagged: set<nat>, apply: bool, p: nat)
    requires WellFormed(db) && p < |ids| && Prefix(ids, |ids|) <= db.docs.Keys
  {
    ids[p] in Prefix(ids, |ids|) && ApplyKeepsKeys(db, RepairedBefore(ids, flagged, apply, p))
    && NeedsRepair(Apply(db, RepairedBefore(ids, flagged, apply, p)), ids[p])
  }

  ghost predicate ApplyKeepsKeys(db: Db, repaired: set<nat>)
    requires WellFormed(db) && repaired <= db.docs.Keys
    ensures ApplyKeepsKeys(db, repaired) && Apply(db, repaired).docs.Keys == db.docs.Keys
  {
    ApplyIsWellFormed(db, repaired);
    Apply(db, repaired).docs.Keys == db.docs.Keys
  }

  lemma DecideOne(db: Db, ids: seq<nat>, flagged: set<nat>, apply: bool, n: nat)
    requires WellFormed(db) && Prefix(ids, |ids|) <= db.docs.Keys && Distinct(ids) && n < |ids|
    requires Decided(db, ids, flagged, apply, n)
    ensures ids[n] !in flagged && ids[n] in db.docs
    ensures var next := if FlaggedWhenRead(db, ids, flagged, apply, n) then flagged + {ids[n]} else flagged;
            Decided(db, ids, next, apply, n + 1)
  {
    hide NeedsRepair, Apply;
    assert ids[n] in Prefix(ids, |ids|);
    var next := if FlaggedWhenRead(db, ids, flagged, apply, n) then flagged + {ids[n]} else flagged;
    assert Prefix(ids, n + 1) == Prefix(ids, n) + {ids[n]};
    assert ids[n] !in Prefix(ids, n);
    forall p | 0 <= p < n + 1
      ensures ids[p] in next <==> FlaggedWhenRead(db, ids, next, apply, p)
    {
      PageIsEarlier(ids, p);
      assert Prefix(ids, PageStart(p)) <= Prefix(ids, n);
      assert RepairedBefore(ids, next, apply, p) == RepairedBefore(ids, flagged, apply, p);
    }
  }

  datatype Report = Report(
    processed: nat, confirmedCancelled: nat, highConfidenceBug: nat, needsManualReview: nat,
    fixedDocuments: nat, orphanEventsRelinked: nat, orphanEventsDeleted: nat)

  function OneIf(b: bool): nat {
    if b then 1 else 0
  }

  /** `r` is `before` plus the one document `id`, judged as it was read. */
  predicate Tallied(before: Report, r: Report, read: Db, id: nat, apply: bool)
    requires id in read.docs
  {
    && r.processed == before.processed + 1
    && r.confirmedCancelled == before.confirmedCancelled + OneIf(LooksCancelled(read, id) && HasOwnCancel(read, id))
    && r.highConfidenceBug == before.highConfidenceBug + OneIf(NeedsRepair(read, id))
    && r.needsManualReview
       == before.needsManualReview
          + OneIf(LooksCancelled(read, id) && !HasOwnCancel(read, id) && IsCancelada(read.docs[id]))
    && r.fixedDocuments == before.fixedDocuments + OneIf(apply && NeedsRepair(read, id))
    && r.orphanEventsRelinked + r.orphanEventsDeleted
       == before.orphanEventsRelinked + before.orphanEventsDeleted
          + if apply && NeedsRepair(read, id) then |OrphansOf(read, id)| else 0
  }

  ghost function OrphansIn(db: Db, repaired: set<nat>): set<nat>
    requires repaired <= db.docs.Keys
  {
    set e | e in db.eventos && OrphanIn(db, repaired, e)
  }

  /** The totals of the report after n documents. */
  ghost predicate Reported(db: Db, flagged: set<nat>, apply: bool, n: nat, r: Report)
    requires flagged <= db.docs.Keys
  {
    && r.processed == n && r.highConfidenceBug == |flagged| && r.fixedDocuments == |Changed(flagged, apply)|
    && r.orphanEventsRelinked + r.orphanEventsDeleted == |OrphansIn(db, Changed(flagged, apply))|
  }

  /** The document at position p had evidence of its own when it was read. */
  ghost predicate ConfirmedWhenRead(db: Db, ids: seq<nat>, flagged: set<nat>, apply: bool, p: nat)
    requires WellFormed(db) && p < |ids| && Prefix(ids, |ids|) <= db.docs.Keys
  {
    ids[p] in Prefix(ids, |ids|) && ApplyKeepsKeys(db, RepairedBefore(ids, flagged, apply, p))
    && HasOwnCancel(Apply(db, RepairedBefore(ids, flagged, apply, p)), ids[p])
  }

  /** It had none, and its status is "cancelada". */
  ghost predicate DoubtfulWhenRead(db: Db, ids: seq<nat>, flagged: set<nat>, apply: bool, p: nat)
    requires WellFormed(db) && p < |ids| && Prefix(ids, |ids|) <= db.docs.Keys
  {
    ids[p] in db.docs && db.docs[ids[p]].status == Some("cancelada")
    && !ConfirmedWhenRead(db, ids, flagged, apply, p)
  }

  ghost function ConfirmedAt(db: Db, ids: seq<nat>, flagged: set<nat>, apply: bool, n: nat): set<nat>
    requires WellFormed(db) && n <= |ids| && Prefix(ids, |ids|) <= db.docs.Keys
  {
    set p: nat | p < n && ConfirmedWhenRead(db, ids, flagged, apply, p)
  }

  ghost function DoubtfulAt(db: Db, ids: seq<nat>, flagged: set<nat>, apply: bool, n: nat): set<nat>
    requires WellFormed(db) && n <= |ids| && Prefix(ids, |ids|) <= db.docs.Keys
  {
    set p: nat | p < n && DoubtfulWhenRead(db, ids, flagged, apply, p)
  }

  /** The documents among the first n that are confirmed as cancelled, and those left for a manual review. */
  ghost predicate Counted(db: Db, ids: seq<nat>, flagged: set<nat>, apply: bool, n: nat, r: Report)
    requires WellFormed(db) && n <= |ids| && Prefix(ids, |ids|) <= db.docs.Keys
  {
    && r.confirmedCancelled == |ConfirmedAt(db, ids, flagged, apply, n)|
    && r.needsManualReview == |DoubtfulAt(db, ids, flagged, apply, n)|
  }

  /** Evidence of its own makes a document look cancelled. */
  lemma EvidenceLooksCancelled(db: Db, id: nat)
    requires id in db.docs
    ensures HasOwnCancel(db, id) ==> LooksCancelled(db, id)
    ensures IsCancelada(db.docs[id]) ==> LooksCancelled(db, id)
  {
    hide IsEventoCancelamento;
  }

  lemma EarlierReadsStay(db: Db, ids: seq<nat>, flagged: set<nat>, apply: bool, n: nat, p: nat)
    requires WellFormed(db) && Distinct(ids) && Prefix(ids, |ids|) <= db.docs.Keys && p <= n < |ids|
    ensures RepairedBefore(ids, flagged + {ids[n]}, apply, p) == RepairedBefore(ids, flagged, apply, p)
  {
    PageIsEarlier(ids, p);
    assert ids[n] !in Prefix(ids, n) && Prefix(ids, PageStart(p)) <= Prefix(ids, n);
  }

  lemma ReadMeans(db: Db, ids: seq<nat>, flagged: set<nat>, apply: bool, n: nat)
    requires WellFormed(db) && n < |ids| && Prefix(ids, |ids|) <= db.docs.Keys
    ensures var read := Apply(db, RepairedBefore(ids, flagged, apply, n));
            && ids[n] in read.docs && ids[n] in db.docs && read.docs[ids[n]].status == db.docs[ids[n]].status
            && (ConfirmedWhenRead(db, ids, flagged, apply, n) <==> HasOwnCancel(read, ids[n]))
            && (DoubtfulWhenRead(db, ids, flagged, apply, n) <==>
                  !HasOwnCancel(read, ids[n]) && IsCancelada(read.docs[ids[n]]))
  {
    hide Apply, HasOwnCancel;
    InPrefix(ids, n);
    ApplyIsWellFormed(db, RepairedBefore(ids, flagged, apply, n));
  }

  lemma SetsGrow(db: Db, ids: seq<nat>, flagged: set<nat>, next: set<nat>, apply: bool, n: nat)
    requires WellFormed(db) && Distinct(ids) && Prefix(ids, |ids|) <= db.docs.Keys && n < |ids|
    requires next == flagged || next == flagged + {ids[n]}
    ensures ConfirmedAt(db, ids, next, apply, n + 1)
            == ConfirmedAt(db, ids, flagged, apply, n)
               + if ConfirmedWhenRead(db, ids, flagged, apply, n) then {n} else {}
    ensures DoubtfulAt(db, ids, next, apply, n + 1)
            == DoubtfulAt(db, ids, flagged, apply, n)
               + if DoubtfulWhenRead(db, ids, flagged, apply, n) then {n} else {}
  {
    hide ConfirmedWhenRead, DoubtfulWhenRead, WellFormed, Prefix, Distinct;
    forall p: nat | p <= n
      ensures ConfirmedWhenRead(db, ids, next, apply, p) <==> ConfirmedWhenRead(db, ids, flagged, apply, p)
      ensures DoubtfulWhenRead(db, ids, next, apply, p) <==> DoubtfulWhenRead(db, ids, flagged, apply, p)
    {
      ReadsAgree(db, ids, flagged, next, apply, n, p);
    }
  }

  lemma ReadsAgree(db: Db, ids: seq<nat>, flagged: set<nat>, next: set<nat>, apply: bool, n: nat, p: nat)
    requires WellFormed(db) && Distinct(ids) && Prefix(ids, |ids|) <= db.docs.Keys && p <= n < |ids|
    requires next == flagged || next == flagged + {ids[n]}
    ensures ConfirmedWhenRead(db, ids, next, apply, p) <==> ConfirmedWhenRead(db, ids, flagged, apply, p)
    ensures DoubtfulWhenRead(db, ids, next, apply, p) <==> DoubtfulWhenRead(db, ids, flagged, apply, p)
  {
    hide Apply, HasOwnCancel, WellFormed, RepairedBefore, Prefix, Distinct, ApplyKeepsKeys;
    EarlierReadsStay(db, ids, flagged, apply, n, p);
  }

  lemma CountOne(db: Db, ids: seq<nat>, flagged: set<nat>, next: set<nat>, apply: bool, n: nat, before: Report,
      r: Report)
    requires WellFormed(db) && Distinct(ids) && Prefix(ids, |ids|) <= db.docs.Keys && n < |ids|
    requires next == flagged || next == flagged + {ids[n]}
    requires Counted(db, ids, flagged, apply, n, before)
    requires ids[n] in Apply(db, RepairedBefore(ids, flagged, apply, n)).docs
    requires Tallied(before, r, Apply(db, RepairedBefore(ids, flagged, apply, n)), ids[n], apply)
    ensures Counted(db, ids, next, apply, n + 1, r)
  {
    var confirmed, doubtful := ConfirmedAt(db, ids, flagged, apply, n), DoubtfulAt(db, ids, flagged, apply, n);
    assert n !in confirmed && n !in doubtful;
    hide Apply, HasOwnCancel, LooksCancelled, NeedsRepair, WellFormed, RepairedBefore, Prefix, Distinct, OrphansOf,
        ConfirmedWhenRead, DoubtfulWhenRead, ConfirmedAt, DoubtfulAt, IsCancelada;
    SetsGrow(db, ids, flagged, next, apply, n);
    ReadMeans(db, ids, flagged, apply, n);
    EvidenceLooksCancelled(Apply(db, RepairedBefore(ids, flagged, apply, n)), ids[n]);
    SizeOfOneMore(confirmed, n);
    SizeOfOneMore(doubtful, n);
  }

  lemma SizeOfOneMore(s: set<nat>, n: nat)
    requires n !in s
    ensures |s + {n}| == |s| + 1 && |s + {}| == |s|
  {
    assert s + {} == s;
  }

  lemma OrphansGrow(db: Db, repaired: set<nat>, id: nat)
    requires repaired <= db.docs.Keys && id in db.docs && id !in repaired
    ensures |OrphansIn(db, repaired + {id})| == |OrphansIn(db, repaired)| + |OrphansOf(db, id)|
  {
    hide IsEventoCancelamento;
    assert OrphansIn(db, repaired + {id}) == OrphansIn(db, repaired) + OrphansOf(db, id);
    assert OrphansIn(db, repaired) !! OrphansOf(db, id);
  }

  lemma ReportOne(db: Db, read: set<nat>, flagged: set<nat>, apply: bool, id: nat, n: nat, before: Report, r: Report)
    requires WellFormed(db) && flagged <= db.docs.Keys && read <= db.docs.Keys && id in db.docs && id !in flagged
    requires id !in read
    requires Reported(db, flagged, apply, n, before)
    requires id in Apply(db, read).docs && Tallied(before, r, Apply(db, read), id, apply)
    ensures Reported(db, if NeedsRepair(Apply(db, read), id) then flagged + {id} else flagged, apply, n + 1, r)
  {
    hide NeedsRepair, Apply, LooksCancelled, HasOwnCancel, OrphanCancel, OrphanIn, OrphansOf, OrphansIn, WellFormed,
        IsCancelada;
    OrphansAgree(db, read, id);
    OrphansGrow(db, flagged, id);
  }

  lemma InPrefix(ids: seq<nat>, n: nat)
    requires n < |ids|
    ensures ids[n] in Prefix(ids, |ids|)
  {
  }

  lemma FlaggedMeans(db: Db, ids: seq<nat>, flagged: set<nat>, apply: bool, n: nat)
    requires WellFormed(db) && n < |ids| && Prefix(ids, |ids|) <= db.docs.Keys
    ensures ids[n] in Apply(db, RepairedBefore(ids, flagged, apply, n)).docs
    ensures FlaggedWhenRead(db, ids, flagged, apply, n) <==>
              NeedsRepair(Apply(db, RepairedBefore(ids, flagged, apply, n)), ids[n])
  {
    hide NeedsRepair, Apply;
    InPrefix(ids, n);
    ApplyIsWellFormed(db, RepairedBefore(ids, flagged, apply, n));
  }

  /** For every document of the page that starts at `start`, what was repaired when it was read is what was
      flagged before the page. */
  lemma PageWasRead(db: Db, ids: seq<nat>, before: set<nat>, flagged: set<nat>, apply: bool, start: nat, i: nat)
    requires WellFormed(db) && Distinct(ids) && Prefix(ids, |ids|) <= db.docs.Keys && i < |ids|
             && Decided(db, ids, flagged, apply, i)
    requires start <= i && start % BATCH_SIZE == 0 && i < start + BATCH_SIZE && flagged * Prefix(ids, start) == before
    ensures RepairedBefore(ids, flagged, apply, i) == Changed(before, apply)
    ensures (flagged + {ids[i]}) * Prefix(ids, start) == before && flagged <= Prefix(ids, i)
  {
    assert PageStart(i) == start;
  }

  /** The state of a page that starts at `start` after its documents below position i. */
  ghost predicate InPage(db: Db, ids: seq<nat>, before: set<nat>, flagged: set<nat>, apply: bool, start: nat, i: nat,
      r: Report)
    requires WellFormed(db) && Prefix(ids, |ids|) <= db.docs.Keys && i <= |ids| && start <= |ids|
  {
    && before <= flagged <= db.docs.Keys && flagged * Prefix(ids, start) == before
    && Decided(db, ids, flagged, apply, i) && Reported(db, flagged, apply, i, r)
    && Counted(db, ids, flagged, apply, i, r)
  }

  lemma PageBegins(db: Db, ids: seq<nat>, before: set<nat>, apply: bool, start: nat, r: Report)
    requires WellFormed(db) && start <= |ids| && Prefix(ids, |ids|) <= db.docs.Keys
    requires before <= db.docs.Keys && Decided(db, ids, before, apply, start) && Reported(db, before, apply, start, r)
    requires Counted(db, ids, before, apply, start, r)
    ensures InPage(db, ids, before, before, apply, start, start, r)
  {
    hide Reported, Apply, Counted;
  }

  lemma PageEnds(db: Db, ids: seq<nat>, before: set<nat>, flagged: set<nat>, apply: bool, start: nat, end: nat,
      r: Report)
    requires WellFormed(db) && Prefix(ids, |ids|) <= db.docs.Keys && end <= |ids| && start <= |ids|
    requires InPage(db, ids, before, flagged, apply, start, end, r)
    ensures flagged <= db.docs.Keys && Decided(db, ids, flagged, apply, end) && Reported(db, flagged, apply, end, r)
    ensures Counted(db, ids, flagged, apply, end, r)
  {
    hide Decided, Reported, Counted;
  }

  /** One document of the page: what it needs is judged in the state the page was read in. */
  lemma PageStep(db: Db, ids: seq<nat>, before: set<nat>, flagged: set<nat>, apply: bool, start: nat, i: nat, r: Report)
    requires WellFormed(db) && Distinct(ids) && Prefix(ids, |ids|) <= db.docs.Keys
    requires start <= i < |ids| && start % BATCH_SIZE == 0 && i < start + BATCH_SIZE
    requires InPage(db, ids, before, flagged, apply, start, i, r)
    ensures before <= flagged <= db.docs.Keys
    ensures ids[i] in db.docs && ids[i] !in flagged && ids[i] in Apply(db, Changed(before, apply)).docs
    ensures var next := if NeedsRepair(Apply(db, Changed(before, apply)), ids[i]) then flagged + {ids[i]} else flagged;
            next <= db.docs.Keys && next * Prefix(ids, start) == before && Decided(db, ids, next, apply, i + 1)
  {
    hide Apply, NeedsRepair, WellFormed, Decided, FlaggedWhenRead, Prefix, Distinct, RepairedBefore, Reported, Counted;
    DecideOne(db, ids, flagged, apply, i);
    PageWasRead(db, ids, before, flagged, apply, start, i);
    FlaggedMeans(db, ids, flagged, apply, i);
  }

  lemma PageStepReports(db: Db, ids: seq<nat>, before: set<nat>, flagged: set<nat>, apply: bool, start: nat, i: nat,
      r: Report, tally: Report)
    requires WellFormed(db) && Distinct(ids) && Prefix(ids, |ids|) <= db.docs.Keys
    requires start <= i < |ids| && start % BATCH_SIZE == 0 && i < start + BATCH_SIZE
    requires InPage(db, ids, before, flagged, apply, start, i, r) && before <= db.docs.Keys
    requires ids[i] in Apply(db, Changed(before, apply)).docs
    requires Tallied(r, tally, Apply(db, Changed(before, apply)), ids[i], apply)
    ensures var next := if NeedsRepair(Apply(db, Changed(before, apply)), ids[i]) then flagged + {ids[i]} else flagged;
            next <= db.docs.Keys && InPage(db, ids, before, next, apply, start, i + 1, tally)
  {
    hide Apply, NeedsRepair, WellFormed, Decided, Prefix, Distinct, Reported, Tallied, Counted;
    PageStep(db, ids, before, flagged, apply, start, i, r);
    ReportOne(db, Changed(before, apply), flagged, apply, ids[i], i, r, tally);
    PageWasRead(db, ids, before, flagged, apply, start, i);
    var next := if NeedsRepair(Apply(db, Changed(before, apply)), ids[i]) then flagged + {ids[i]} else flagged;
    CountOne(db, ids, flagged, next, apply, i, r, tally);
  }

  lemma NothingDone(db: Db, ids: seq<nat>, apply: bool)
    requires WellFormed(db) && Prefix(ids, |ids|) <= db.docs.Keys
    ensures Apply(db, Changed({}, apply)) == db && Decided(db, ids, {}, apply, 0)
    ensures Reported(db, {}, apply, 0, Report(0, 0, 0, 0, 0, 0, 0))
    ensures Counted(db, ids, {}, apply, 0, Report(0, 0, 0, 0, 0, 0, 0))
  {
    hide Apply, NeedsRepair, WellFormed, ConfirmedWhenRead, DoubtfulWhenRead;
    NothingRepaired(db);
    assert OrphansIn(db, {}) == {};
    assert ConfirmedAt(db, ids, {}, apply, 0) == {} && DoubtfulAt(db, ids, {}, apply, 0) == {};
  }

  class NfseDatabase {
    var docs: map<nat, Documento>
    var eventos: map<nat, Evento>

    ghost function Contents(): Db
      reads this
    {
      Db(docs, eventos)
    }

    constructor (db: Db)
      ensures Contents() == db
    {
      docs, eventos := db.docs, db.eventos;
    }

    /** The inner loop: every orphan goes to the owner of its key, or is deleted if there is none. */
    method RepairOrphans(id: nat, ambiente: string, orphans: set<nat>) returns (relinked: nat, deleted: nat)
      requires Unique(docs) && orphans <= eventos.Keys
      requires forall e | e in orphans :: !OwnsKey(docs, id, ambiente, eventos[e].chaveAcesso)
      modifies this`eventos
      ensures eventos == RepairEvents(old(Contents()), orphans, ambiente)
      ensures |eventos| + deleted == |old(eventos)| && relinked + deleted == |orphans|
    {
      hide IsEventoCancelamento, Owner, RepairEvents;
      var pending: set<nat> := orphans;
      relinked, deleted := 0, 0;
      ghost var before := Contents();
      NoOrphans(before, ambiente);
      assert orphans - pending == {};
      while pending != {}
        invariant pending <= orphans
        invariant eventos == RepairEvents(before, orphans - pending, ambiente)
        invariant |eventos| + deleted == |before.eventos| && relinked + deleted + |pending| == |orphans|
        decreases |pending|
      {
        var e :| e in pending;
        OneMoreOrphan(before, orphans - pending, e, ambiente);
        assert orphans - pending + {e} == orphans - (pending - {e});
        var donoReal := Owner(docs, ambiente, eventos[e].chaveAcesso);
        if donoReal.Some? && donoReal.value != id {
          eventos := eventos[e := eventos[e].(documento := donoReal.value)];
          relinked := relinked + 1;
        } else {
          assert eventos.Keys == (eventos.Keys - {e}) + {e};
          eventos := eventos - {e};
          deleted := deleted + 1;
        }
        pending := pending - {e};
      }
      assert orphans - pending == orphans;
    }
  
    /** One document of a page that was read in the state `read`. Outcome and changes depend on what was
        read, not on what the earlier documents of the page have changed since. */
    method ProcessDocument(read: Db, id: nat, apply: bool, report: Report, ghost db: Db,
        ghost repairedBefore: set<nat>, ghost repaired: set<nat>)
      returns (r: Report)
      requires WellFormed(db) && repairedBefore <= repaired <= db.docs.Keys && id in db.docs && id !in repaired
      requires read == Apply(db, repairedBefore) && id in read.docs && Contents() == Apply(db, repaired)
      modifies this
      ensures Contents() == Apply(db, if apply && NeedsRepair(read, id) then repaired + {id} else repaired)
      ensures Tallied(report, r, read, id, apply)
      ensures |eventos| + r.orphanEventsDeleted == |old(eventos)| + report.orphanEventsDeleted
    {
      hide IsEventoCancelamento, Apply, RepairEvents, Unique, HasOwnCancel, LooksCancelled, OwnCancel, OrphanCancel,
        OrphansOf, WellFormed;
      var d := read.docs[id];
      r := report.(processed := report.processed + 1);
      if !LooksCancelled(read, id) {
        return;
      }
      if HasOwnCancel(read, id) {
        r := r.(confirmedCancelled := r.confirmedCancelled + 1);
        return;
      }
      if IsCancelada(d) {
        r := r.(needsManualReview := r.needsManualReview + 1);
        return;
      }
      r := r.(highConfidenceBug := r.highConfidenceBug + 1);
      if apply {
        var orphans := OrphansOf(read, id);
        OneMoreRepair(db, repairedBefore, repaired, id);
        ApplyIsWellFormed(db, repairedBefore);
        ghost var now := Contents();
        OrphansHaveOtherKeys(db, repairedBefore, repaired, id);
        DateDoesNotMatter(now, id, orphans, d.ambiente);
        if d.dataCancelamento.Some? {
          docs := docs[id := docs[id].(dataCancelamento := None)];
        }
        var relinked, deleted := RepairOrphans(id, d.ambiente, orphans);
        r := r.(orphanEventsRelinked := r.orphanEventsRelinked + relinked,
                orphanEventsDeleted := r.orphanEventsDeleted + deleted,
                fixedDocuments := r.fixedDocuments + 1);
      }
    }
  
    /** The documents of one page, all read before the first of them is processed. */
    method ProcessPage(ids: seq<nat>, start: nat, end: nat, apply: bool, report: Report, ghost db: Db,
        ghost before: set<nat>)
      returns (r: Report, ghost flagged: set<nat>)
      requires WellFormed(db) && Distinct(ids) && Prefix(ids, |ids|) <= db.docs.Keys
      requires start < end <= |ids| && start % BATCH_SIZE == 0 && end <= start + BATCH_SIZE
      requires before <= db.docs.Keys && Contents() == Apply(db, Changed(before, apply))
      requires Decided(db, ids, before, apply, start) && Reported(db, before, apply, start, report)
      requires Counted(db, ids, before, apply, start, report)
      modifies this
      ensures flagged <= db.docs.Keys && Contents() == Apply(db, Changed(flagged, apply))
      ensures Decided(db, ids, flagged, apply, end) && Reported(db, flagged, apply, end, r)
      ensures Counted(db, ids, flagged, apply, end, r)
      ensures |eventos| + r.orphanEventsDeleted == |old(eventos)| + report.orphanEventsDeleted
    {
      hide Apply, NeedsRepair, WellFormed, Decided, Reported, Tallied, FlaggedWhenRead, Prefix, Distinct,
        RepairedBefore, InPage, Counted;
      var read := Db(docs, eventos);
      flagged, r := before, report;
      PageBegins(db, ids, before, apply, start, report);
      for i := start to end
        invariant InPage(db, ids, before, flagged, apply, start, i, r)
        invariant flagged <= db.docs.Keys && Contents() == Apply(db, Changed(flagged, apply))
        invariant |eventos| + r.orphanEventsDeleted == |old(eventos)| + report.orphanEventsDeleted
      {
        PageStep(db, ids, before, flagged, apply, start, i, r);
        var tally := ProcessDocument(read, ids[i], apply, r, db, Changed(before, apply), Changed(flagged, apply));
        PageStepReports(db, ids, before, flagged, apply, start, i, r, tally);
        r := tally;
        flagged := if NeedsRepair(read, ids[i]) then flagged + {ids[i]} else flagged;
      }
      PageEnds(db, ids, before, flagged, apply, start, end, r);
    }

    /** The whole run over the documents `ids`, in ascending order of id: all of them, or those of one client. */
    method FixStaleCancelamento(ids: seq<nat>, apply: bool) returns (report: Report, ghost flagged: set<nat>)
      requires WellFormed(Contents()) && Distinct(ids) && Prefix(ids, |ids|) <= docs.Keys
      modifies this
      ensures flagged <= old(docs).Keys && Decided(old(Contents()), ids, flagged, apply, |ids|)
      ensures Contents() == Apply(old(Contents()), Changed(flagged, apply))
      ensures Reported(old(Contents()), flagged, apply, |ids|, report)
      ensures Counted(old(Contents()), ids, flagged, apply, |ids|, report)
      ensures |eventos| + report.orphanEventsDeleted == |old(eventos)|
    {
      hide Apply, NeedsRepair, WellFormed, Prefix, Distinct, Decided, Reported, Counted;
      ghost var db := Contents();
      report, flagged := Report(0, 0, 0, 0, 0, 0, 0), {};
      NothingDone(db, ids, apply);
      var start := 0;
      while true
        invariant start <= |ids| && (start % BATCH_SIZE == 0 || start == |ids|)
        invariant flagged <= db.docs.Keys && Contents() == Apply(db, Changed(flagged, apply))
        invariant Decided(db, ids, flagged, apply, start) && Reported(db, flagged, apply, start, report)
        invariant Counted(db, ids, flagged, apply, start, report)
        invariant |eventos| + report.orphanEventsDeleted == |old(eventos)|
        decreases |ids| - start
      {
        var end := if start + BATCH_SIZE <= |ids| then start + BATCH_SIZE else |ids|;
        if start == end {
          break;
        }
        report, flagged := ProcessPage(ids, start, end, apply, report, db, flagged);
        start := end;
      }
    }
  }
}
