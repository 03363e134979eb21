/** The distribution service of SEF/SC, seen from a collector: a finite set of positive NSUs, handed out
    in ascending order, at most fifty at a time, above the NSU the collector sends. */
module NsuServer {

  const BATCH_SIZE: nat := 50

  /** The NSUs of `s` in the interval (lo, hi]. */
  function Between(s: set<nat>, lo: nat, hi: nat): set<nat> {
    set x | x in s && lo < x <= hi
  }

  function Above(s: set<nat>, lo: nat): set<nat> {
    set x | x in s && lo < x
  }

  predicate IsLeast(s: set<nat>, m: nat) {
    m in s && forall x | x in s :: m <= x
  }

  lemma {:induction false} LeastExists(s: set<nat>) returns (m: nat)
    requires s != {}
    ensures IsLeast(s, m)
    decreases |s|
  {
    m :| m in s;
    if s != {m} {
      var rest := s - {m};
      assert s == rest + {m};
      var least := LeastExists(rest);
      m := if least < m then least else m;
    }
  }

  function Least(s: set<nat>): (m: nat)
    requires s != {}
    ensures IsLeast(s, m)
  {
    assert exists m :: IsLeast(s, m) by {
      var least := LeastExists(s);
    }
    var m :| IsLeast(s, m);
    m
  }

  /** The answer to a download: the `limit` smallest NSUs above `lo`, or fewer if there are fewer. */
  function Lot(s: set<nat>, lo: nat, limit: nat := BATCH_SIZE): seq<nat>
    decreases limit
  {
    if limit == 0 || Above(s, lo) == {} then
      []
    else
      var first := Least(Above(s, lo));
      [first] + Lot(s, first, limit - 1)
  }

  /** `docs` lists, in ascending order and without a gap, the NSUs of `s` above `lo` up to its last entry. */
  ghost predicate Consecutive(s: set<nat>, lo: nat, docs: seq<nat>) {
    && (forall i | 0 <= i < |docs| :: docs[i] in s && lo < docs[i])
    && Ascending(docs)
    && (docs != [] ==> forall x | x in s && lo < x <= docs[|docs| - 1] :: x in docs)
  }

  /** The largest NSU of a lot, or `lo` for an empty one. */
  function Last(docs: seq<nat>, lo: nat): nat {
    if docs == [] then lo else docs[|docs| - 1]
  }

  /** A lot leaves no gap, holds at most `limit` entries, and is shorter than `limit` only when nothing is left. */
  lemma {:induction false} LotIsConsecutive(s: set<nat>, lo: nat, limit: nat)
    ensures var docs := Lot(s, lo, limit);
            && Consecutive(s, lo, docs)
            && |docs| <= limit
            && (|docs| < limit ==> Above(s, Last(docs, lo)) == {})
            && (docs == [] ==> limit == 0 || Above(s, lo) == {})
    decreases limit
  {
    if limit == 0 || Above(s, lo) == {} {
    } else {
      var first := Least(Above(s, lo));
      LotIsConsecutive(s, first, limit - 1);
      LeastGoesFirst(s, lo, first, Lot(s, first, limit - 1));
    }
  }

  lemma LeastGoesFirst(s: set<nat>, lo: nat, first: nat, rest: seq<nat>)
    requires IsLeast(Above(s, lo), first) && Consecutive(s, first, rest)
    ensures Consecutive(s, lo, [first] + rest)
    ensures Last([first] + rest, lo) == Last(rest, first)
  {
    var docs := [first] + rest;
    forall i, j | 0 <= i < j < |docs| ensures docs[i] < docs[j] {
      assert docs[j] == rest[j - 1];
      assert i == 0 || docs[i] == rest[i - 1];
    }
    forall x | x in s && lo < x <= docs[|docs| - 1] ensures x in docs {
      assert x in Above(s, lo);
      assert x == first || x in rest;
    }
  }

  ghost function Entries(docs: seq<nat>): set<nat> {
    set i | 0 <= i < |docs| :: docs[i]
  }

  predicate Ascending(docs: seq<nat>) {
    forall i, j | 0 <= i < j < |docs| :: docs[i] < docs[j]
  }

  lemma {:induction false} EntriesAreCounted(docs: seq<nat>)
    requires Ascending(docs)
    ensures |Entries(docs)| == |docs|
    decreases |docs|
  {
    if docs != [] {
      var last, front := docs[|docs| - 1], docs[..|docs| - 1];
      EntriesAreCounted(front);
      assert Entries(docs) == Entries(front) + {last};
      assert last !in Entries(front);
    }
  }

  /** A gapless list is an interval with exactly as many NSUs as the list has entries. */
  lemma ConsecutiveCount(s: set<nat>, lo: nat, docs: seq<nat>)
    requires Consecutive(s, lo, docs)
    ensures Between(s, lo, Last(docs, lo)) == Entries(docs)
    ensures |Between(s, lo, Last(docs, lo))| == |docs|
  {
    EntriesAreCounted(docs);
    var interval := Between(s, lo, Last(docs, lo));
    forall x | x in interval ensures x in Entries(docs) {
      if docs != [] {
        assert x in docs;
      }
    }
    forall x | x in Entries(docs) ensures x in interval {
      var i :| 0 <= i < |docs| && docs[i] == x;
      assert i == |docs| - 1 || docs[i] < docs[|docs| - 1];
    }
    assert interval == Entries(docs);
  }

  lemma PrefixIsConsecutive(s: set<nat>, lo: nat, docs: seq<nat>, k: nat)
    requires Consecutive(s, lo, docs) && k <= |docs|
    ensures Consecutive(s, lo, docs[..k])
  {
    if k > 0 {
      forall x | x in s && lo < x <= docs[k - 1] ensures x in docs[..k] {
        var i :| 0 <= i < |docs| && docs[i] == x;
        assert i < k;
      }
    }
  }

  /** Intervals that meet end to end add up. */
  lemma BetweenAdds(s: set<nat>, lo: nat, mid: nat, hi: nat)
    requires lo <= mid <= hi
    ensures Between(s, lo, hi) == Between(s, lo, mid) + Between(s, mid, hi)
    ensures |Between(s, lo, hi)| == |Between(s, lo, mid)| + |Between(s, mid, hi)|
  {
    var low, high := Between(s, lo, mid), Between(s, mid, hi);
    assert low !! high;
    assert Between(s, lo, hi) == low + high;
  }

  /** The service only ever publishes NSUs above all those it already has. */
  predicate Publishes(s: set<nat>, nsu: nat) {
    0 < nsu && forall x | x in s :: x < nsu
  }

  /** A cursor is zero or an NSU of the service. */
  predicate IsCursor(s: set<nat>, cursor: nat) {
    cursor == 0 || cursor in s
  }

  lemma PublishingKeepsIntervals(s: set<nat>, nsu: nat, cursor: nat, lo: nat, hi: nat)
    requires Publishes(s, nsu) && IsCursor(s, cursor) && hi <= cursor
    ensures Between(s + {nsu}, lo, hi) == Between(s, lo, hi)
  {
  }

  lemma PublishingKeepsConsecutive(s: set<nat>, nsu: nat, lo: nat, docs: seq<nat>)
    requires Publishes(s, nsu) && Consecutive(s, lo, docs)
    ensures Consecutive(s + {nsu}, lo, docs)
  {
  }

  lemma AboveSplits(s: set<nat>, lo: nat, next: nat)
    requires lo <= next
    ensures Above(s, lo) == Between(s, lo, next) + Above(s, next)
    ensures |Above(s, lo)| == |Between(s, lo, next)| + |Above(s, next)|
  {
    assert Between(s, lo, next) !! Above(s, next);
    assert Above(s, lo) == Between(s, lo, next) + Above(s, next);
  }

  lemma LastIsAhead(s: set<nat>, lo: nat, docs: seq<nat>)
    requires Consecutive(s, lo, docs)
    ensures lo <= Last(docs, lo)
    ensures docs != [] ==> lo < Last(docs, lo) && Last(docs, lo) in s
  {
  }

  /** After a full lot fifty fewer NSUs are left; after a shorter one, none. */
  lemma LotConsumes(s: set<nat>, lo: nat)
    ensures var docs := Lot(s, lo);
            && |docs| == (if |Above(s, lo)| < BATCH_SIZE then |Above(s, lo)| else BATCH_SIZE)
            && |Above(s, Last(docs, lo))| == |Above(s, lo)| - |docs|
  {
    var docs := Lot(s, lo);
    LotIsConsecutive(s, lo, BATCH_SIZE);
    LastIsAhead(s, lo, docs);
    ConsecutiveCount(s, lo, docs);
    AboveSplits(s, lo, Last(docs, lo));
  }

  /** Between `origin` and `cursor` lie `count` NSUs, and exactly those were added to `before`. */
  ghost predicate Advanced(s: set<nat>, origin: nat, cursor: nat, before: set<nat>, persisted: set<nat>,
      count: nat) {
    && origin <= cursor && (cursor == origin || cursor in s)
    && persisted == before + Between(s, origin, cursor)
    && |Between(s, origin, cursor)| == count
  }

  /** One more gapless lot, and, when it is the last one, everything that was waiting at `origin`. */
  lemma AdvanceBy(s: set<nat>, origin: nat, cursor: nat, before: set<nat>, persisted: set<nat>, count: nat,
      docs: seq<nat>)
    requires Advanced(s, origin, cursor, before, persisted, count) && Consecutive(s, cursor, docs)
    ensures Advanced(s, origin, Last(docs, cursor), before, persisted + Entries(docs), count + |docs|)
    ensures Above(s, Last(docs, cursor)) == {} ==>
              persisted + Entries(docs) == before + Above(s, origin) && |Above(s, origin)| == count + |docs|
  {
    hide Consecutive, Above, Between, Entries;
    LastIsAhead(s, cursor, docs);
    ConsecutiveCount(s, cursor, docs);
    BetweenAdds(s, origin, cursor, Last(docs, cursor));
    AboveSplits(s, origin, Last(docs, cursor));
  }
}
