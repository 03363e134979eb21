/** Query filters of the CT-e listing, and the rewriting that removes every clause on the `eventos` relation
    when the events table is missing. */
module CteFilter {
  import opened Options

  /** A condition on columns of the document row. */
  datatype Clause =
    | ClienteIs(clienteId: string)
    | IdIn(ids: seq<string>)
    | ModeloIs(modelo: string)
    | SchemaIs(schemaDoc: string)
    | SchemaStartsWith(prefix: string)
    | StatusContains(text: string)

  /** A condition on the related events. */
  datatype EventClause = NoEvents | SomeEvents

  datatype Branch = Absent | One(only: Where) | Many(all: seq<Where>)

  datatype Alternatives = NoOr | AnyOf(any: seq<Where>)

  datatype Where = Where(fields: seq<Clause>, eventos: Option<EventClause>, and: Branch, or: Alternatives, not: Branch)

  const EMPTY: Where := Where([], None, Absent, NoOr, Absent)

  function Field(c: Clause): Where {
    EMPTY.(fields := [c])
  }

  // Meaning of a filter: every part must hold; OR needs one alternative, NOT needs all to fail

  type Columns = Clause -> bool
  type Events = EventClause -> bool

  predicate Matches(w: Where, columns: Columns, events: Events)
    decreases w
  {
    && (forall c | c in w.fields :: columns(c))
    && (w.eventos.Some? ==> events(w.eventos.value))
    && (match w.and
        case Absent => true
        case One(x) => Matches(x, columns, events)
        case Many(xs) => forall x | x in xs :: Matches(x, columns, events))
    && (w.or.AnyOf? ==> exists x | x in w.or.any :: Matches(x, columns, events))
    && (match w.not
        case Absent => true
        case One(x) => !Matches(x, columns, events)
        case Many(xs) => forall x | x in xs :: !Matches(x, columns, events))
  }

  /** A missing filter matches everything. */
  predicate MatchesOptional(w: Option<Where>, columns: Columns, events: Events) {
    w.Some? ==> Matches(w.value, columns, events)
  }

  function AllTrue(): Events {
    e => true
  }

  // The rewriting

  function Clean(w: Where): Option<Where>
    decreases w
  {
    var next := Where(w.fields, None, CleanBranch(w.and), CleanOr(w.or), CleanBranch(w.not));
    if next == EMPTY then None else Some(next)
  }

  function CleanBranch(b: Branch): Branch
    decreases b
  {
    match b
    case Absent => Absent
    case One(x) =>
      (match Clean(x)
       case None => Absent
       case Some(y) => One(y))
    case Many(xs) =>
      var ys := CleanAll(xs);
      if ys == [] then Absent else Many(ys)
  }

  function CleanOr(or: Alternatives): Alternatives
    decreases or
  {
    match or
    case NoOr => NoOr
    case AnyOf(xs) =>
      var ys := CleanAll(xs);
      if ys == [] then NoOr else AnyOf(ys)
  }

  function CleanAll(xs: seq<Where>): seq<Where>
    decreases xs
  {
    if xs == [] then []
    else
      match Clean(xs[0])
      case None => CleanAll(xs[1..])
      case Some(y) => [y] + CleanAll(xs[1..])
  }

  /** The members of a cleaned list are the cleaned members that are left. */
  lemma {:induction false} CleanAllMembers(xs: seq<Where>)
    ensures forall x | x in xs && Clean(x).Some? :: Clean(x).value in CleanAll(xs)
    ensures forall y | y in CleanAll(xs) :: exists x :: x in xs && Clean(x) == Some(y)
    decreases |xs|
  {
    if xs != [] {
      CleanAllMembers(xs[1..]);
      forall y | y in CleanAll(xs) ensures exists x :: x in xs && Clean(x) == Some(y) {
        if y in CleanAll(xs[1..]) {
          var x :| x in xs[1..] && Clean(x) == Some(y);
          assert x in xs;
        } else {
          assert xs[0] in xs && Clean(xs[0]) == Some(y);
        }
      }
    }
  }

  // What the rewriting removes

  predicate MentionsEvents(w: Where)
    decreases w
  {
    || w.eventos.Some?
    || BranchMentions(w.and)
    || (w.or.AnyOf? && exists x | x in w.or.any :: MentionsEvents(x))
    || BranchMentions(w.not)
  }

  predicate BranchMentions(b: Branch)
    decreases b
  {
    match b
    case Absent => false
    case One(x) => MentionsEvents(x)
    case Many(xs) => exists x | x in xs :: MentionsEvents(x)
  }

  /** Whatever the tree, the cleaned one mentions the events nowhere. */
  lemma {:induction false} CleanedMentionsNoEvents(w: Where)
    ensures Clean(w).Some? ==> !MentionsEvents(Clean(w).value)
    decreases w, 1
  {
    BranchCleaned(w.and);
    BranchCleaned(w.not);
    if w.or.AnyOf? {
      ListCleaned(w.or.any);
    }
  }

  lemma {:induction false} BranchCleaned(b: Branch)
    ensures !BranchMentions(CleanBranch(b))
    decreases b, 1
  {
    match b
    case Absent =>
    case One(x) => CleanedMentionsNoEvents(x);
    case Many(xs) => ListCleaned(xs);
  }

  lemma {:induction false} ListCleaned(xs: seq<Where>)
    ensures forall y | y in CleanAll(xs) :: !MentionsEvents(y)
    decreases xs, 0
  {
    CleanAllMembers(xs);
    forall x | x in xs ensures Clean(x).Some? ==> !MentionsEvents(Clean(x).value) {
      CleanedMentionsNoEvents(x);
    }
  }

  // When it preserves meaning

  /** A condition with nothing in it but event clauses and empty lists: it says nothing about the columns. */
  predicate Vacuous(w: Where)
    decreases w
  {
    && w.fields == []
    && (match w.and
        case Absent => true
        case One(x) => Vacuous(x)
        case Many(xs) => forall x | x in xs :: Vacuous(x))
    && (w.or.AnyOf? ==> forall x | x in w.or.any :: Vacuous(x))
    && (match w.not
        case Absent => true
        case One(x) => Vacuous(x)
        case Many(xs) => forall x | x in xs :: Vacuous(x))
  }

  lemma {:induction false} CleanedAwayIsVacuous(w: Where)
    ensures Clean(w).None? <==> Vacuous(w)
    decreases w, 1
  {
    match w.and {
      case Absent =>
      case One(x) => CleanedAwayIsVacuous(x);
      case Many(xs) => AllCleanedAway(xs);
    }
    match w.not {
      case Absent =>
      case One(x) => CleanedAwayIsVacuous(x);
      case Many(xs) => AllCleanedAway(xs);
    }
    if w.or.AnyOf? {
      AllCleanedAway(w.or.any);
    }
  }

  lemma {:induction false} AllCleanedAway(xs: seq<Where>)
    ensures CleanAll(xs) == [] <==> forall x | x in xs :: Vacuous(x)
    decreases xs, 0
  {
    CleanAllMembers(xs);
    forall x | x in xs ensures Clean(x).None? <==> Vacuous(x) {
      CleanedAwayIsVacuous(x);
    }
    if CleanAll(xs) != [] {
      var y := CleanAll(xs)[0];
      assert y in CleanAll(xs);
      var x :| x in xs && Clean(x) == Some(y);
    }
  }

  /** No empty OR, no OR that mixes vacuous and real alternatives, nothing vacuous under NOT, at any depth. */
  predicate Safe(w: Where)
    decreases w
  {
    && (match w.and
        case Absent => true
        case One(x) => Safe(x)
        case Many(xs) => forall x | x in xs :: Safe(x))
    && (w.or.AnyOf? ==>
          && w.or.any != []
          && (forall x | x in w.or.any :: Safe(x))
          && ((forall x | x in w.or.any :: Vacuous(x)) || (forall x | x in w.or.any :: !Vacuous(x))))
    && (match w.not
        case Absent => true
        case One(x) => Safe(x) && !Vacuous(x)
        case Many(xs) => forall x | x in xs :: Safe(x) && !Vacuous(x))
  }

  predicate FieldsHold(w: Where, columns: Columns) {
    forall c | c in w.fields :: columns(c)
  }

  predicate OrHolds(or: Alternatives, columns: Columns, events: Events) {
    or.AnyOf? ==> exists x | x in or.any :: Matches(x, columns, events)
  }

  lemma MatchesByPart(w: Where, columns: Columns, events: Events)
    ensures Matches(w, columns, events) <==>
              && FieldsHold(w, columns) && (w.eventos.Some? ==> events(w.eventos.value))
              && AndHolds(w.and, columns, events) && OrHolds(w.or, columns, events) && NotHolds(w.not, columns, events)
  {
  }

  lemma CleanMatchesByPart(w: Where, columns: Columns, events: Events)
    ensures MatchesOptional(Clean(w), columns, events) <==>
              && FieldsHold(w, columns) && AndHolds(CleanBranch(w.and), columns, events)
              && OrHolds(CleanOr(w.or), columns, events) && NotHolds(CleanBranch(w.not), columns, events)
  {
    hide Matches, CleanBranch, CleanOr;
    if Clean(w).Some? {
      MatchesByPart(Clean(w).value, columns, events);
    }
  }

  /** On every safe tree the cleaned filter matches exactly the rows the original matches when its event clauses count
      as true. */
  lemma {:induction false} CleanKeepsMeaning(w: Where, columns: Columns, events: Events)
    requires Safe(w)
    ensures MatchesOptional(Clean(w), columns, events) <==> Matches(w, columns, AllTrue())
    decreases w, 1
  {
    hide Matches, MatchesOptional, Clean, Vacuous, AndHolds, NotHolds, FieldsHold;
    MatchesByPart(w, columns, AllTrue());
    CleanMatchesByPart(w, columns, events);
    AndKeepsMeaning(w.and, columns, events);
    NotKeepsMeaning(w.not, columns, events);
    if w.or.AnyOf? {
      OrKeepsMeaning(w.or.any, columns, events);
    }
  }

  predicate AndHolds(b: Branch, columns: Columns, events: Events) {
    match b
    case Absent => true
    case One(x) => Matches(x, columns, events)
    case Many(xs) => forall x | x in xs :: Matches(x, columns, events)
  }

  predicate NotHolds(b: Branch, columns: Columns, events: Events) {
    match b
    case Absent => true
    case One(x) => !Matches(x, columns, events)
    case Many(xs) => forall x | x in xs :: !Matches(x, columns, events)
  }

  lemma {:induction false} MembersKeepMeaning(xs: seq<Where>, columns: Columns, events: Events)
    requires forall x | x in xs :: Safe(x)
    ensures forall x | x in xs :: MatchesOptional(Clean(x), columns, events) <==> Matches(x, columns, AllTrue())
    decreases xs, 0
  {
    forall x | x in xs ensures MatchesOptional(Clean(x), columns, events) <==> Matches(x, columns, AllTrue()) {
      CleanKeepsMeaning(x, columns, events);
    }
  }

  lemma {:induction false} AndKeepsMeaning(b: Branch, columns: Columns, events: Events)
    requires match b case Absent => true case One(x) => Safe(x) case Many(xs) => forall x | x in xs :: Safe(x)
    ensures AndHolds(CleanBranch(b), columns, events) <==> AndHolds(b, columns, AllTrue())
    decreases b, 1
  {
    match b
    case Absent =>
    case One(x) => CleanKeepsMeaning(x, columns, events);
    case Many(xs) =>
      MembersKeepMeaning(xs, columns, events);
      CleanAllMembers(xs);
      if AndHolds(CleanBranch(b), columns, events) {
        forall x | x in xs ensures Matches(x, columns, AllTrue()) {
          assert Clean(x).Some? ==> Clean(x).value in CleanAll(xs);
        }
      }
  }

  lemma {:induction false} NotKeepsMeaning(b: Branch, columns: Columns, events: Events)
    requires match b
             case Absent => true
             case One(x) => Safe(x) && !Vacuous(x)
             case Many(xs) => forall x | x in xs :: Safe(x) && !Vacuous(x)
    ensures NotHolds(CleanBranch(b), columns, events) <==> NotHolds(b, columns, AllTrue())
    decreases b, 1
  {
    match b
    case Absent =>
    case One(x) =>
      CleanKeepsMeaning(x, columns, events);
      CleanedAwayIsVacuous(x);
    case Many(xs) =>
      MembersKeepMeaning(xs, columns, events);
      CleanAllMembers(xs);
      forall x | x in xs ensures Clean(x).Some? {
        CleanedAwayIsVacuous(x);
      }
      if NotHolds(CleanBranch(b), columns, events) {
        forall x | x in xs ensures !Matches(x, columns, AllTrue()) {
          assert Clean(x).value in CleanAll(xs);
        }
      }
  }

  lemma {:induction false} OrKeepsMeaning(xs: seq<Where>, columns: Columns, events: Events)
    requires xs != [] && forall x | x in xs :: Safe(x)
    requires (forall x | x in xs :: Vacuous(x)) || (forall x | x in xs :: !Vacuous(x))
    ensures var ys := CleanAll(xs);
            (ys == [] || exists y | y in ys :: Matches(y, columns, events)) <==>
              exists x | x in xs :: Matches(x, columns, AllTrue())
    decreases xs, 1
  {
    MembersKeepMeaning(xs, columns, events);
    CleanAllMembers(xs);
    AllCleanedAway(xs);
    forall x | x in xs ensures Clean(x).None? <==> Vacuous(x) {
      CleanedAwayIsVacuous(x);
    }
    assert xs[0] in xs;
    if exists x | x in xs :: Matches(x, columns, AllTrue()) {
      var x :| x in xs && Matches(x, columns, AllTrue());
      assert Clean(x).Some? ==> Clean(x).value in CleanAll(xs);
    }
  }

  // When it never loses a row

  /** No event clause stands under a NOT. */
  predicate Positive(w: Where)
    decreases w
  {
    && (match w.and
        case Absent => true
        case One(x) => Positive(x)
        case Many(xs) => forall x | x in xs :: Positive(x))
    && (w.or.AnyOf? ==> forall x | x in w.or.any :: Positive(x))
    && !BranchMentions(w.not)
  }

  /** Without event clauses the events do not matter. */
  lemma {:induction false} EventsDoNotMatter(w: Where, columns: Columns, events: Events, others: Events)
    requires !MentionsEvents(w)
    ensures Matches(w, columns, events) == Matches(w, columns, others)
    decreases w, 1
  {
    BranchDoesNotMatter(w.and, columns, events, others);
    BranchDoesNotMatter(w.not, columns, events, others);
    if w.or.AnyOf? {
      ListDoesNotMatter(w.or.any, columns, events, others);
    }
  }

  lemma {:induction false} BranchDoesNotMatter(b: Branch, columns: Columns, events: Events, others: Events)
    requires !BranchMentions(b)
    ensures AndHolds(b, columns, events) == AndHolds(b, columns, others)
    ensures NotHolds(b, columns, events) == NotHolds(b, columns, others)
    decreases b, 1
  {
    match b
    case Absent =>
    case One(x) => EventsDoNotMatter(x, columns, events, others);
    case Many(xs) => ListDoesNotMatter(xs, columns, events, others);
  }

  lemma {:induction false} ListDoesNotMatter(xs: seq<Where>, columns: Columns, events: Events, others: Events)
    requires forall x | x in xs :: !MentionsEvents(x)
    ensures forall x | x in xs :: Matches(x, columns, events) == Matches(x, columns, others)
    decreases xs, 0
  {
    forall x | x in xs ensures Matches(x, columns, events) == Matches(x, columns, others) {
      EventsDoNotMatter(x, columns, events, others);
    }
  }

  lemma {:induction false} TrueEventsMatchMore(w: Where, columns: Columns, events: Events)
    requires Positive(w) && Matches(w, columns, events)
    ensures Matches(w, columns, AllTrue())
    decreases w
  {
    BranchDoesNotMatter(w.not, columns, events, AllTrue());
    match w.and {
      case Absent =>
      case One(x) => TrueEventsMatchMore(x, columns, events);
      case Many(xs) =>
        forall x | x in xs ensures Matches(x, columns, AllTrue()) {
          TrueEventsMatchMore(x, columns, events);
        }
    }
    if w.or.AnyOf? {
      var x :| x in w.or.any && Matches(x, columns, events);
      TrueEventsMatchMore(x, columns, events);
    }
  }

  /** Every row the original filter returns, whatever its events, is returned by the cleaned filter. */
  lemma CleanNeverLosesRows(w: Where, columns: Columns, events: Events, others: Events)
    requires Safe(w) && Positive(w) && Matches(w, columns, events)
    ensures MatchesOptional(Clean(w), columns, others)
  {
    TrueEventsMatchMore(w, columns, events);
    CleanKeepsMeaning(w, columns, others);
  }

  /** The plainest sufficient shape: event clauses in conjunctive positions only, no empty OR, nothing vacuous under OR
      or NOT. */
  predicate Conjunctive(w: Where)
    decreases w
  {
    && (match w.and
        case Absent => true
        case One(x) => Conjunctive(x)
        case Many(xs) => forall x | x in xs :: Conjunctive(x))
    && (w.or.AnyOf? ==>
          w.or.any != [] && forall x | x in w.or.any :: Conjunctive(x) && !MentionsEvents(x) && !Vacuous(x))
    && (match w.not
        case Absent => true
        case One(x) => Conjunctive(x) && !MentionsEvents(x) && !Vacuous(x)
        case Many(xs) => forall x | x in xs :: Conjunctive(x) && !MentionsEvents(x) && !Vacuous(x))
  }

  lemma {:induction false} ConjunctiveIsSafe(w: Where)
    requires Conjunctive(w)
    ensures Safe(w) && Positive(w)
    decreases w
  {
    BranchIsSafe(w.and);
    BranchIsSafe(w.not);
    if w.or.AnyOf? {
      forall x | x in w.or.any ensures Safe(x) && Positive(x) {
        ConjunctiveIsSafe(x);
      }
    }
  }

  lemma {:induction false} BranchIsSafe(b: Branch)
    requires match b
             case Absent => true
             case One(x) => Conjunctive(x)
             case Many(xs) => forall x | x in xs :: Conjunctive(x)
    ensures match b
            case Absent => true
            case One(x) => Safe(x) && Positive(x)
            case Many(xs) => forall x | x in xs :: Safe(x) && Positive(x)
    decreases b
  {
    match b
    case Absent =>
    case One(x) => ConjunctiveIsSafe(x);
    case Many(xs) =>
      forall x | x in xs ensures Safe(x) && Positive(x) {
        ConjunctiveIsSafe(x);
      }
  }

  // A cleaned tree is already clean

  predicate Tidy(w: Where)
    decreases w
  {
    && w != EMPTY && w.eventos.None?
    && TidyBranch(w.and) && TidyBranch(w.not)
    && (w.or.AnyOf? ==> w.or.any != [] && forall x | x in w.or.any :: Tidy(x))
  }

  predicate TidyBranch(b: Branch)
    decreases b
  {
    match b
    case Absent => true
    case One(x) => Tidy(x)
    case Many(xs) => xs != [] && forall x | x in xs :: Tidy(x)
  }

  lemma {:induction false} TidyIsFixed(w: Where)
    requires Tidy(w)
    ensures Clean(w) == Some(w)
    decreases w, 1
  {
    TidyBranchIsFixed(w.and);
    TidyBranchIsFixed(w.not);
    if w.or.AnyOf? {
      TidyListIsFixed(w.or.any);
    }
  }

  lemma {:induction false} TidyBranchIsFixed(b: Branch)
    requires TidyBranch(b)
    ensures CleanBranch(b) == b
    decreases b, 1
  {
    match b
    case Absent =>
    case One(x) => TidyIsFixed(x);
    case Many(xs) => TidyListIsFixed(xs);
  }

  lemma {:induction false} TidyListIsFixed(xs: seq<Where>)
    requires forall x | x in xs :: Tidy(x)
    ensures CleanAll(xs) == xs
    decreases xs, 0
  {
    if xs != [] {
      TidyIsFixed(xs[0]);
      TidyListIsFixed(xs[1..]);
    }
  }

  lemma {:induction false} CleanIsTidy(w: Where)
    ensures Clean(w).Some? ==> Tidy(Clean(w).value)
    decreases w, 1
  {
    CleanBranchIsTidy(w.and);
    CleanBranchIsTidy(w.not);
    if w.or.AnyOf? {
      CleanListIsTidy(w.or.any);
    }
  }

  lemma {:induction false} CleanBranchIsTidy(b: Branch)
    ensures TidyBranch(CleanBranch(b))
    decreases b, 1
  {
    match b
    case Absent =>
    case One(x) => CleanIsTidy(x);
    case Many(xs) => CleanListIsTidy(xs);
  }

  lemma {:induction false} CleanListIsTidy(xs: seq<Where>)
    ensures forall y | y in CleanAll(xs) :: Tidy(y)
    decreases xs, 0
  {
    if xs != [] {
      CleanIsTidy(xs[0]);
      CleanListIsTidy(xs[1..]);
    }
  }

  /** Cleaning twice is cleaning once. */
  lemma CleanIsIdempotent(w: Where)
    requires Clean(w).Some?
    ensures Clean(Clean(w).value) == Clean(w)
  {
    CleanIsTidy(w);
    TidyIsFixed(Clean(w).value);
  }

  // The filters the service builds

  function CteSchemas(): seq<Where> {
    [Field(ModeloIs("57")), Field(SchemaStartsWith("CTe")), Field(SchemaStartsWith("cteProc")),
     Field(SchemaStartsWith("resCTe")), Field(SchemaStartsWith("eventoCTe")), Field(SchemaStartsWith("procEventoCTe"))]
  }

  function RejectedConsult(): Where {
    EMPTY.(and := Many([Field(SchemaIs("retConsSitCTe_v4.00")), Field(StatusContains("Rejeicao"))]))
  }

  function CteConditions(): seq<Where> {
    [EMPTY.(or := AnyOf(CteSchemas())), EMPTY.(not := One(RejectedConsult()))]
  }

  function ScopeConditions(clienteId: string, documentoIds: seq<string>): seq<Where> {
    CteConditions() + [Field(ClienteIs(clienteId))] + (if documentoIds == [] then [] else [Field(IdIn(documentoIds))])
  }

  function BuildEventoSyncWhere(clienteId: string, documentoIds: seq<string>, somenteSemEventos: bool): Where {
    EMPTY.(and := Many(ScopeConditions(clienteId, documentoIds)
                       + if somenteSemEventos then [EMPTY.(eventos := Some(NoEvents))] else []))
  }

  lemma ScopeIsTidy(clienteId: string, documentoIds: seq<string>)
    ensures forall x | x in ScopeConditions(clienteId, documentoIds) :: Tidy(x) && !MentionsEvents(x)
  {
    SchemasAreTidy();
    RejectedIsTidy();
    hide CteSchemas, RejectedConsult;
    assert Tidy(EMPTY.(or := AnyOf(CteSchemas()))) && Tidy(EMPTY.(not := One(RejectedConsult())));
  }

  lemma SchemasAreTidy()
    ensures CteSchemas() != [] && forall x | x in CteSchemas() :: Tidy(x) && !MentionsEvents(x)
  {
  }

  lemma RejectedIsTidy()
    ensures Tidy(RejectedConsult()) && !MentionsEvents(RejectedConsult())
  {
  }

  lemma {:induction false} CleanAllOfTidyAndVacuous(xs: seq<Where>, last: Where)
    requires (forall x | x in xs :: Tidy(x)) && Clean(last).None?
    ensures CleanAll(xs + [last]) == xs
    decreases |xs|
  {
    if xs == [] {
      assert [last][1..] == [];
    } else {
      TidyIsFixed(xs[0]);
      CleanAllOfTidyAndVacuous(xs[1..], last);
      assert (xs + [last])[1..] == xs[1..] + [last];
    }
  }

  /** Cleaning the synchronisation filter gives the filter built without the restriction to documents that have no
      events. */
  lemma CleanedSyncFilter(clienteId: string, documentoIds: seq<string>, somenteSemEventos: bool)
    ensures Clean(BuildEventoSyncWhere(clienteId, documentoIds, somenteSemEventos))
            == Some(BuildEventoSyncWhere(clienteId, documentoIds, false))
  {
    var scope := ScopeConditions(clienteId, documentoIds);
    ScopeIsTidy(clienteId, documentoIds);
    assert scope != [] && scope + [] == scope;
    if somenteSemEventos {
      CleanAllOfTidyAndVacuous(scope, EMPTY.(eventos := Some(NoEvents)));
    } else {
      TidyListIsFixed(scope);
    }
  }

  lemma SchemasAreConjunctive()
    ensures Conjunctive(EMPTY.(or := AnyOf(CteSchemas()))) && !Vacuous(EMPTY.(or := AnyOf(CteSchemas())))
  {
    var w := EMPTY.(or := AnyOf(CteSchemas()));
    forall x | x in CteSchemas() ensures Conjunctive(x) && !MentionsEvents(x) && !Vacuous(x) {
    }
    assert CteSchemas()[0] in w.or.any;
  }

  lemma RejectedIsConjunctive()
    ensures Conjunctive(RejectedConsult()) && !MentionsEvents(RejectedConsult()) && !Vacuous(RejectedConsult())
  {
    assert Field(SchemaIs("retConsSitCTe_v4.00")) in RejectedConsult().and.all;
  }

  /** Every filter the synchronisation builds has the plain shape, so cleaning it never loses a row. */
  lemma SyncFilterIsConjunctive(clienteId: string, documentoIds: seq<string>, somenteSemEventos: bool)
    ensures Conjunctive(BuildEventoSyncWhere(clienteId, documentoIds, somenteSemEventos))
  {
    SchemasAreConjunctive();
    RejectedIsConjunctive();
    hide CteSchemas, RejectedConsult, MentionsEvents, Vacuous;
    assert Conjunctive(EMPTY.(not := One(RejectedConsult())));
  }

  /** What the synchronisation filter matches: CT-e documents of the client, by model or schema, that are no rejected
      status consultations, among the ids if some are given, and without events if so restricted. */
  lemma SyncFilterMeans(clienteId: string, documentoIds: seq<string>, somenteSemEventos: bool, columns: Columns,
      events: Events)
    ensures Matches(BuildEventoSyncWhere(clienteId, documentoIds, somenteSemEventos), columns, events) <==>
              && (columns(ModeloIs("57")) || columns(SchemaStartsWith("CTe")) || columns(SchemaStartsWith("cteProc"))
                  || columns(SchemaStartsWith("resCTe")) || columns(SchemaStartsWith("eventoCTe"))
                  || columns(SchemaStartsWith("procEventoCTe")))
              && !(columns(SchemaIs("retConsSitCTe_v4.00")) && columns(StatusContains("Rejeicao")))
              && columns(ClienteIs(clienteId)) && (|documentoIds| > 0 ==> columns(IdIn(documentoIds)))
              && (somenteSemEventos ==> events(NoEvents))
  {
    SchemasMean(columns, events);
    RejectedMeans(columns, events);
    FieldMeans(ClienteIs(clienteId), columns, events);
    FieldMeans(IdIn(documentoIds), columns, events);
    AllOf(SyncConditions(clienteId, documentoIds, somenteSemEventos), columns, events);
    assert Matches(EMPTY.(eventos := Some(NoEvents)), columns, events) <==> events(NoEvents);
    hide Matches, CteSchemas, RejectedConsult, SyncConditions, Field;
    SyncConditionsAre(clienteId, documentoIds, somenteSemEventos);
  }

  function SyncConditions(clienteId: string, documentoIds: seq<string>, somenteSemEventos: bool): seq<Where> {
    ScopeConditions(clienteId, documentoIds)
    + if somenteSemEventos then [EMPTY.(eventos := Some(NoEvents))] else []
  }

  lemma SyncConditionsAre(clienteId: string, documentoIds: seq<string>, somenteSemEventos: bool)
    ensures forall x :: x in SyncConditions(clienteId, documentoIds, somenteSemEventos) <==>
              || x == EMPTY.(or := AnyOf(CteSchemas())) || x == EMPTY.(not := One(RejectedConsult()))
              || x == Field(ClienteIs(clienteId)) || (|documentoIds| > 0 && x == Field(IdIn(documentoIds)))
              || (somenteSemEventos && x == EMPTY.(eventos := Some(NoEvents)))
  {
    hide CteSchemas, RejectedConsult, Field;
  }

  lemma AllOf(xs: seq<Where>, columns: Columns, events: Events)
    ensures Matches(EMPTY.(and := Many(xs)), columns, events) <==> forall x | x in xs :: Matches(x, columns, events)
  {
  }

  lemma FieldMeans(c: Clause, columns: Columns, events: Events)
    ensures Matches(Field(c), columns, events) <==> columns(c)
  {
    assert c in Field(c).fields;
  }

  lemma SchemasMean(columns: Columns, events: Events)
    ensures Matches(EMPTY.(or := AnyOf(CteSchemas())), columns, events) <==>
              || columns(ModeloIs("57")) || columns(SchemaStartsWith("CTe")) || columns(SchemaStartsWith("cteProc"))
              || columns(SchemaStartsWith("resCTe")) || columns(SchemaStartsWith("eventoCTe"))
              || columns(SchemaStartsWith("procEventoCTe"))
  {
    var cs := [ModeloIs("57"), SchemaStartsWith("CTe"), SchemaStartsWith("cteProc"), SchemaStartsWith("resCTe"),
        SchemaStartsWith("eventoCTe"), SchemaStartsWith("procEventoCTe")];
    SchemasAreFields(cs);
    AnyFieldOf(CteSchemas(), cs, columns, events);
    hide CteSchemas, Matches;
    assert columns(cs[0]) <==> columns(ModeloIs("57"));
    assert columns(cs[1]) <==> columns(SchemaStartsWith("CTe"));
    assert columns(cs[2]) <==> columns(SchemaStartsWith("cteProc"));
    assert columns(cs[3]) <==> columns(SchemaStartsWith("resCTe"));
    assert columns(cs[4]) <==> columns(SchemaStartsWith("eventoCTe"));
    assert columns(cs[5]) <==> columns(SchemaStartsWith("procEventoCTe"));
  }

  lemma SchemasAreFields(cs: seq<Clause>)
    requires cs == [ModeloIs("57"), SchemaStartsWith("CTe"), SchemaStartsWith("cteProc"), SchemaStartsWith("resCTe"),
               SchemaStartsWith("eventoCTe"), SchemaStartsWith("procEventoCTe")]
    ensures |CteSchemas()| == |cs| && forall i | 0 <= i < |cs| :: CteSchemas()[i] == Field(cs[i])
  {
    hide Field;
  }

  lemma AnyFieldOf(xs: seq<Where>, cs: seq<Clause>, columns: Columns, events: Events)
    requires |xs| == |cs| && forall i | 0 <= i < |cs| :: xs[i] == Field(cs[i])
    ensures Matches(EMPTY.(or := AnyOf(xs)), columns, events) <==> exists i | 0 <= i < |cs| :: columns(cs[i])
  {
    OrOnly(xs, columns, events);
    forall i | 0 <= i < |cs| ensures Matches(xs[i], columns, events) <==> columns(cs[i]) {
      FieldMeans(cs[i], columns, events);
    }
    hide Matches, Field;
    if x :| x in xs && Matches(x, columns, events) {
      var i :| 0 <= i < |xs| && xs[i] == x;
      assert columns(cs[i]);
    }
    if i :| 0 <= i < |cs| && columns(cs[i]) {
      assert xs[i] in xs;
    }
  }

  lemma RejectedMeans(columns: Columns, events: Events)
    ensures Matches(EMPTY.(not := One(RejectedConsult())), columns, events) <==>
              !(columns(SchemaIs("retConsSitCTe_v4.00")) && columns(StatusContains("Rejeicao")))
  {
    var xs := [Field(SchemaIs("retConsSitCTe_v4.00")), Field(StatusContains("Rejeicao"))];
    AllOf(xs, columns, events);
    FieldMeans(SchemaIs("retConsSitCTe_v4.00"), columns, events);
    FieldMeans(StatusContains("Rejeicao"), columns, events);
    assert xs[0] in xs && xs[1] in xs;
  }

  // Outside the safe shapes the meaning does change

  /** At one OR of safe alternatives, some vacuous and some not: the rows that are lost are exactly those that no
      alternative with content matches. */
  lemma MixedOrLosesExactly(xs: seq<Where>, columns: Columns, events: Events)
    requires (forall x | x in xs :: Safe(x)) && exists x | x in xs :: !Vacuous(x)
    ensures var w := EMPTY.(or := AnyOf(xs));
            MatchesOptional(Clean(w), columns, events) <==>
              exists x | x in xs && !Vacuous(x) :: Matches(x, columns, AllTrue())
  {
    hide Matches, Safe, Vacuous;
    var w := EMPTY.(or := AnyOf(xs));
    CleanAllMembers(xs);
    AllCleanedAway(xs);
    MembersKeepMeaning(xs, columns, events);
    forall x | x in xs ensures Clean(x).None? <==> Vacuous(x) {
      CleanedAwayIsVacuous(x);
    }
    assert Clean(w) == Some(EMPTY.(or := AnyOf(CleanAll(xs))));
    OrOnly(CleanAll(xs), columns, events);
    if x :| x in xs && !Vacuous(x) && Matches(x, columns, AllTrue()) {
      assert Clean(x).value in CleanAll(xs);
    }
  }

  lemma OrOnly(ys: seq<Where>, columns: Columns, events: Events)
    ensures Matches(EMPTY.(or := AnyOf(ys)), columns, events) <==> exists y | y in ys :: Matches(y, columns, events)
  {
  }

  /** So such an OR keeps its meaning on a row exactly when an alternative with content matches it too, if one
      without content does. */
  lemma MixedOrKeepsExactly(xs: seq<Where>, columns: Columns, events: Events)
    requires (forall x | x in xs :: Safe(x)) && exists x | x in xs :: !Vacuous(x)
    ensures var w := EMPTY.(or := AnyOf(xs));
            (MatchesOptional(Clean(w), columns, events) <==> Matches(w, columns, AllTrue())) <==>
              ((exists x | x in xs && Vacuous(x) :: Matches(x, columns, AllTrue())) ==>
                 exists x | x in xs && !Vacuous(x) :: Matches(x, columns, AllTrue()))
  {
    MixedOrLosesExactly(xs, columns, events);
    OrOnly(xs, columns, AllTrue());
  }

  /** An OR of an event clause and a column clause loses the rows that only the event clause lets in. */
  lemma MixedOrLosesRows(columns: Columns)
    requires !columns(ModeloIs("57"))
    ensures var w := EMPTY.(or := AnyOf([EMPTY.(eventos := Some(NoEvents)), Field(ModeloIs("57"))]));
            Matches(w, columns, AllTrue()) && !MatchesOptional(Clean(w), columns, AllTrue())
  {
    var left, right := EMPTY.(eventos := Some(NoEvents)), Field(ModeloIs("57"));
    var xs := [left, right];
    var w := EMPTY.(or := AnyOf(xs));
    assert left in w.or.any && Matches(left, columns, AllTrue());
    assert xs[1..] == [right] && [right][1..] == [];
    assert Clean(left) == None && Clean(right) == Some(right);
    assert CleanAll([right]) == [right];
    assert CleanAll(xs) == CleanAll(xs[1..]) == [right];
    assert Clean(w) == Some(EMPTY.(or := AnyOf([right])));
    assert columns(ModeloIs("57")) || !Matches(right, columns, AllTrue()) by {
      assert ModeloIs("57") in right.fields;
    }
  }

  lemma NotOnly(ys: seq<Where>, columns: Columns, events: Events)
    ensures Matches(EMPTY.(not := Many(ys)), columns, events) <==> forall y | y in ys :: !Matches(y, columns, events)
  {
  }

  /** At one NOT over safe operands: the cleaned filter matches exactly the rows that no operand with content does,
      whatever the vacuous ones say. */
  lemma NotForgetsVacuous(xs: seq<Where>, columns: Columns, events: Events)
    requires forall x | x in xs :: Safe(x)
    ensures MatchesOptional(Clean(EMPTY.(not := Many(xs))), columns, events) <==>
              forall x | x in xs && !Vacuous(x) :: !Matches(x, columns, AllTrue())
  {
    hide Matches, Safe, Vacuous;
    var w, ys := EMPTY.(not := Many(xs)), CleanAll(xs);
    CleanAllMembers(xs);
    AllCleanedAway(xs);
    MembersKeepMeaning(xs, columns, events);
    forall x | x in xs ensures Clean(x).None? <==> Vacuous(x) {
      CleanedAwayIsVacuous(x);
    }
    if ys != [] {
      assert Clean(w) == Some(EMPTY.(not := Many(ys)));
      NotOnly(ys, columns, events);
      forall x | x in xs && !Vacuous(x) ensures Clean(x).value in ys {
      }
    }
  }

  /** So such a NOT keeps its meaning on a row exactly when an operand with content matches it too, if one without
      content does. With vacuous operands alone it is kept exactly on the rows that none of them matches. */
  lemma NotKeepsExactly(xs: seq<Where>, columns: Columns, events: Events)
    requires forall x | x in xs :: Safe(x)
    ensures var w := EMPTY.(not := Many(xs));
            (MatchesOptional(Clean(w), columns, events) <==> Matches(w, columns, AllTrue())) <==>
              ((exists x | x in xs && Vacuous(x) :: Matches(x, columns, AllTrue())) ==>
                 exists x | x in xs && !Vacuous(x) :: Matches(x, columns, AllTrue()))
  {
    NotForgetsVacuous(xs, columns, events);
    NotOnly(xs, columns, AllTrue());
  }

  /** A single operand is a list of one. */
  lemma SingleNotKeepsExactly(x: Where, columns: Columns, events: Events)
    requires Safe(x)
    ensures var w := EMPTY.(not := One(x));
            (MatchesOptional(Clean(w), columns, events) <==> Matches(w, columns, AllTrue())) <==>
              (Vacuous(x) ==> !Matches(x, columns, AllTrue()))
  {
    hide Safe, Vacuous;
    CleanedAwayIsVacuous(x);
    CleanKeepsMeaning(x, columns, events);
  }

  /** An OR without content, empty or not, keeps its meaning exactly on the rows that one of its alternatives
      matches: the cleaned filter lets every row through. */
  lemma EmptiedOrKeepsExactly(xs: seq<Where>, columns: Columns, events: Events)
    requires forall x | x in xs :: Vacuous(x)
    ensures var w := EMPTY.(or := AnyOf(xs));
            && MatchesOptional(Clean(w), columns, events)
            && (Matches(w, columns, AllTrue()) <==> exists x | x in xs :: Matches(x, columns, AllTrue()))
  {
    hide Vacuous;
    AllCleanedAway(xs);
    OrOnly(xs, columns, AllTrue());
  }

  /** An event clause under NOT, and an empty OR, turn a filter that matches nothing into one that matches
      everything. */
  lemma VacuousNotAndEmptyOrGainRows(columns: Columns)
    ensures var w := EMPTY.(not := One(EMPTY.(eventos := Some(NoEvents))));
            !Matches(w, columns, AllTrue()) && MatchesOptional(Clean(w), columns, AllTrue())
    ensures var w := EMPTY.(or := AnyOf([]));
            !Matches(w, columns, AllTrue()) && MatchesOptional(Clean(w), columns, AllTrue())
  {
    assert Matches(EMPTY.(eventos := Some(NoEvents)), columns, AllTrue());
  }
}
