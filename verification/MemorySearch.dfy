/** The in-memory store's reference ranker: distinct lexical overlap first, recency second, insertion
    order last. */
module MemorySearch {
  import opened Wrappers
  import opened Limits
  import opened Tokenizer

  const DAY_MS: nat := 86_400_000

  datatype Record = Record(recordId: string, scope: string, kind: string, name: string, description: string, content: string,
                           updatedAt: nat, confidence: real, ttlDays: Option<nat>)

  datatype Query = Query(scope: string, query: string, topK: nat, kinds: seq<string>, minScore: Option<real>)

  datatype Recall = Recall(record: Record, score: real)

  /** A record that survived the filters, with its overlap and its position in the store. */
  datatype Ranked = Ranked(record: Record, matches: nat, index: nat)

  // ---------------------------------------------------------------- filters

  /** Past its time to live; the expiry time saturates. */
  predicate Expired(r: Record, now: nat) {
    r.ttlDays.Some? &&
    now > Capped(r.updatedAt + r.ttlDays.value * DAY_MS, MAX_U64)
  }

  predicate Admits(query: Query, now: nat, r: Record) {
    && !Expired(r, now)
    && r.scope == query.scope
    && (query.kinds == [] || r.kind in query.kinds)
    && (query.minScore.Some? ==> r.confidence >= query.minScore.value)
  }

  function Searchable(r: Record): string {
    r.name + " " + r.description + " " + r.content
  }

  /** Distinct query terms the record shares. */
  ghost function Overlap(abc: Alphabet, query: Query, r: Record): nat {
    |Terms(abc, query.query) * Terms(abc, Searchable(r))|
  }

  /** Eligible: admitted, and sharing a term unless the query has none. */
  ghost predicate Eligible(abc: Alphabet, query: Query, now: nat, r: Record) {
    Admits(query, now, r) && (Terms(abc, query.query) == {} || Overlap(abc, query, r) > 0)
  }

  /** The eligible records of a store, in insertion order. */
  ghost function Candidates(abc: Alphabet, query: Query, now: nat, records: seq<Record>): seq<Ranked> {
    if records == [] then []
    else
      var last := |records| - 1;
      var before := Candidates(abc, query, now, records[..last]);
      if Eligible(abc, query, now, records[last]) then before + [Ranked(records[last], Overlap(abc, query, records[last]), last)] else before
  }

  /** A record's terms are those of its name, description and content together. */
  lemma {:induction false} SearchableTerms(abc: Alphabet, r: Record)
    requires !abc.isAlphanumeric(' ')
    ensures Terms(abc, Searchable(r)) == Terms(abc, r.name) + Terms(abc, r.description) + Terms(abc, r.content)
  {
    TermsOfJoin(abc, r.name + " " + r.description, ' ', r.content);
    TermsOfJoin(abc, r.name, ' ', r.description);
    assert Searchable(r) == (r.name + " " + r.description) + [' '] + r.content;
    assert r.name + " " + r.description == r.name + [' '] + r.description;
  }

  // ---------------------------------------------------------------- order

  predicate Before(a: Ranked, b: Ranked) {
    || a.matches > b.matches
    || (a.matches == b.matches && a.record.updatedAt > b.record.updatedAt)
    || (a.matches == b.matches && a.record.updatedAt == b.record.updatedAt && a.index < b.index)
  }

  ghost predicate InOrder(s: seq<Ranked>) {
    forall i, j | 0 <= i < j < |s| :: Before(s[i], s[j])
  }

  /** Insert behind everything that ranks before it. */
  function Place(x: Ranked, s: seq<Ranked>): seq<Ranked> {
    if s == [] || Before(x, s[0]) then [x] + s else [s[0]] + Place(x, s[1..])
  }

  /** The sorted list. */
  function Arrange(s: seq<Ranked>): seq<Ranked> {
    if s == [] then [] else Place(s[|s| - 1], Arrange(s[..|s| - 1]))
  }

  ghost predicate IndicesDistinct(s: seq<Ranked>) {
    forall i, j | 0 <= i < j < |s| :: s[i].index != s[j].index
  }

  lemma {:induction false} PlaceMembers(x: Ranked, s: seq<Ranked>)
    ensures |Place(x, s)| == |s| + 1
    ensures forall y :: y in Place(x, s) <==> y == x || y in s
  {
    if s != [] && !Before(x, s[0]) {
      PlaceMembers(x, s[1..]);
      assert forall y :: y in s <==> y == s[0] || y in s[1..];
    }
  }

  lemma {:induction false} PlaceInOrder(x: Ranked, s: seq<Ranked>)
    requires InOrder(s) && forall i | 0 <= i < |s| :: s[i].index != x.index
    ensures InOrder(Place(x, s))
  {
    if s != [] && !Before(x, s[0]) {
      PlaceInOrder(x, s[1..]);
      PlaceMembers(x, s[1..]);
      var rest := Place(x, s[1..]);
      forall i | 0 <= i < |rest|
        ensures Before(s[0], rest[i])
      {
        assert rest[i] in rest;
        if rest[i] != x {
          assert rest[i] in s[1..];
        }
      }
    }
  }

  lemma {:induction false} Arranged(s: seq<Ranked>)
    requires IndicesDistinct(s)
    ensures InOrder(Arrange(s)) && |Arrange(s)| == |s|
    ensures forall y :: y in Arrange(s) <==> y in s
  {
    if s != [] {
      var init, last := s[..|s| - 1], s[|s| - 1];
      Arranged(init);
      PlaceMembers(last, Arrange(init));
      assert s == init + [last];
      forall i | 0 <= i < |Arrange(init)|
        ensures Arrange(init)[i].index != last.index
      {
        assert Arrange(init)[i] in init;
      }
      PlaceInOrder(last, Arrange(init));
    }
  }

  /** What it is to be a candidate of a store. */
  ghost predicate IsCandidate(abc: Alphabet, query: Query, now: nat, records: seq<Record>, x: Ranked) {
    x.index < |records| && x.record == records[x.index] && Eligible(abc, query, now, x.record) && x.matches == Overlap(abc, query, x.record)
  }

  lemma {:induction false} CandidateMembers(abc: Alphabet, query: Query, now: nat, records: seq<Record>, x: Ranked)
    ensures x in Candidates(abc, query, now, records) <==> IsCandidate(abc, query, now, records, x)
  {
    if records != [] {
      var last := |records| - 1;
      CandidateMembers(abc, query, now, records[..last], x);
      var newest := Ranked(records[last], Overlap(abc, query, records[last]), last);
      if x.index == last {
        assert x !in Candidates(abc, query, now, records[..last]);
        assert IsCandidate(abc, query, now, records, x) <==> x == newest && Eligible(abc, query, now, records[last]);
      } else {
        assert x != newest;
        assert x.index < last ==> records[..last][x.index] == records[x.index];
      }
    }
  }

  lemma {:induction false} CandidateIndices(abc: Alphabet, query: Query, now: nat, records: seq<Record>)
    ensures var c := Candidates(abc, query, now, records);
            IndicesDistinct(c) && forall i | 0 <= i < |c| :: c[i].index < |records|
  {
    if records != [] {
      var last := |records| - 1;
      CandidateIndices(abc, query, now, records[..last]);
      if Eligible(abc, query, now, records[last]) {
        IndexBeyond(Candidates(abc, query, now, records[..last]), Ranked(records[last], Overlap(abc, query, records[last]), last));
      }
    }
  }

  lemma {:induction false} IndexBeyond(s: seq<Ranked>, x: Ranked)
    requires IndicesDistinct(s) && forall i | 0 <= i < |s| :: s[i].index < x.index
    ensures IndicesDistinct(s + [x]) && forall i | 0 <= i < |s + [x]| :: (s + [x])[i].index <= x.index
  {
  }

  // ---------------------------------------------------------------- search

  /** The ranked answer before scores are attached. */
  ghost function Ranking(abc: Alphabet, query: Query, now: nat, records: seq<Record>): seq<Ranked> {
    var all := Arrange(Candidates(abc, query, now, records));
    all[..if query.topK <= |all| then query.topK else |all|]
  }

  /** What a caller may expect of a ranked answer: as many eligible records as asked for or available,
      in order, and every eligible record left out ranks strictly after every one returned. */
  ghost predicate IsRanking(abc: Alphabet, query: Query, now: nat, records: seq<Record>, r: seq<Ranked>) {
    var eligible := Candidates(abc, query, now, records);
    && |r| == (if query.topK <= |eligible| then query.topK else |eligible|)
    && InOrder(r)
    && (forall x | x in r :: x in eligible)
    && (forall x, y | x in eligible && x !in r && y in r :: Before(y, x))
  }

  lemma {:induction false} LeftOutRanksAfter(all: seq<Ranked>, k: nat, x: Ranked, y: Ranked)
    requires InOrder(all) && k <= |all| && x in all && x !in all[..k] && y in all[..k]
    ensures Before(y, x)
  {
    assert all == all[..k] + all[k..];
    var i :| 0 <= i < k && all[..k][i] == y;
    var j :| 0 <= j < |all| - k && all[k..][j] == x;
  }

  lemma {:induction false} RankingIsRanking(abc: Alphabet, query: Query, now: nat, records: seq<Record>)
    ensures IsRanking(abc, query, now, records, Ranking(abc, query, now, records))
  {
    var eligible := Candidates(abc, query, now, records);
    CandidateIndices(abc, query, now, records);
    Arranged(eligible);
    var all, r := Arrange(eligible), Ranking(abc, query, now, records);
    forall x | x in r
      ensures x in eligible
    {
      assert x in all;
    }
    forall x, y | x in eligible && x !in r && y in r
      ensures Before(y, x)
    {
      LeftOutRanksAfter(all, |r|, x, y);
    }
  }

  lemma {:induction false} InOrderDistinct(s: seq<Ranked>)
    requires InOrder(s)
    ensures |set x | x in s| == |s|
  {
    if s != [] {
      var init, last := s[..|s| - 1], s[|s| - 1];
      InOrderDistinct(init);
      assert last !in init;
      assert (set x | x in s) == (set x | x in init) + {last};
    }
  }

  /** Lists in order with the same members are the same list. */
  lemma {:induction false} InOrderUnique(a: seq<Ranked>, b: seq<Ranked>)
    requires InOrder(a) && InOrder(b) && |a| == |b| && forall x :: x in a <==> x in b
    ensures a == b
  {
    if a != [] {
      assert a[0] in b && b[0] in a;
      assert a[0] == b[0];
      forall x
        ensures x in a[1..] <==> x in b[1..]
      {
        assert x in a <==> x == a[0] || x in a[1..];
        assert x in b <==> x == b[0] || x in b[1..];
        assert a[0] !in a[1..] && b[0] !in b[1..];
      }
      InOrderUnique(a[1..], b[1..]);
    }
  }

  lemma {:induction false} ExtraMember(a: set<Ranked>, b: set<Ranked>, x: Ranked) returns (y: Ranked)
    requires |a| == |b| && x in a && x !in b
    ensures y in b && y !in a
  {
    assert a == a * b + (a - b) && b == a * b + (b - a);
    assert |b - a| == |a - b|;
    assert x in a - b;
    y :| y in b - a;
  }

  /** A list of the right length that misses a ranked record returns one that ranks behind it. */
  lemma {:induction false} MissingOneReturnsWorse(abc: Alphabet, query: Query, now: nat, records: seq<Record>, a: seq<Ranked>, b: seq<Ranked>, x: Ranked)
      returns (y: Ranked)
    requires IsRanking(abc, query, now, records, a) && x in a && x !in b
    requires InOrder(b) && |b| == |a| && forall z | z in b :: z in Candidates(abc, query, now, records)
    ensures y in b && !Before(y, x)
  {
    InOrderDistinct(a);
    InOrderDistinct(b);
    y := ExtraMember((set z | z in a), (set z | z in b), x);
    assert Before(x, y);
  }

  lemma {:induction false} RankingMembersSame(abc: Alphabet, query: Query, now: nat, records: seq<Record>, a: seq<Ranked>, b: seq<Ranked>, x: Ranked)
    requires IsRanking(abc, query, now, records, a) && IsRanking(abc, query, now, records, b) && x in a
    ensures x in b
  {
    if x !in b {
      var y := MissingOneReturnsWorse(abc, query, now, records, a, b, x);
    }
  }

  /** The answer is the only one: any list that meets the expectation is the list returned. */
  lemma {:induction false} RankingUnique(abc: Alphabet, query: Query, now: nat, records: seq<Record>, r: seq<Ranked>)
    requires IsRanking(abc, query, now, records, r)
    ensures r == Ranking(abc, query, now, records)
  {
    var own := Ranking(abc, query, now, records);
    RankingIsRanking(abc, query, now, records);
    forall x
      ensures x in r <==> x in own
    {
      if x in r {
        RankingMembersSame(abc, query, now, records, r, own, x);
      } else if x in own {
        RankingMembersSame(abc, query, now, records, own, r, x);
      }
    }
    InOrderUnique(r, own);
  }

  /** What search promises of its answer, in the records' own fields. A record qualifies when it is in
      the query's scope, of a wanted kind, confident enough, not past its time to live, and shares a
      term with the query unless that has none. */
  ghost predicate Qualifies(abc: Alphabet, query: Query, now: nat, r: Record) {
    && r.scope == query.scope
    && (query.kinds != [] ==> r.kind in query.kinds)
    && (query.minScore.Some? ==> query.minScore.value <= r.confidence)
    && (r.ttlDays.Some? ==> now <= r.updatedAt + r.ttlDays.value * 86_400_000 && now <= MAX_U64)
    && (Terms(abc, query.query) != {} ==> exists t :: t in Terms(abc, query.query) && t in Terms(abc, Searchable(r)))
  }

  /** The record at `p` comes before the one at `q`: more shared terms, else newer, else stored earlier. */
  ghost predicate Precedes(abc: Alphabet, query: Query, records: seq<Record>, p: nat, q: nat)
    requires p < |records| && q < |records|
  {
    var atP := |Terms(abc, query.query) * Terms(abc, Searchable(records[p]))|;
    var atQ := |Terms(abc, query.query) * Terms(abc, Searchable(records[q]))|;
    if atP != atQ then atP > atQ
    else if records[p].updatedAt != records[q].updatedAt then records[p].updatedAt > records[q].updatedAt
    else p < q
  }

  /** The answer stands for these positions of the store: all qualify, each precedes the next ones, there
      are no more than asked for, and a qualifying position is left out only when the answer is full and
      every position in it precedes that one. A score is the confidence, moved into 0 to 1. */
  ghost predicate Recalls(abc: Alphabet, query: Query, now: nat, records: seq<Record>, recalls: seq<Recall>, positions: seq<nat>) {
    && |positions| == |recalls| <= query.topK
    && (forall i | 0 <= i < |positions| :: positions[i] < |records| && recalls[i].record == records[positions[i]])
    && (forall i | 0 <= i < |positions| :: Qualifies(abc, query, now, recalls[i].record))
    && (forall i, j | 0 <= i < j < |positions| :: Precedes(abc, query, records, positions[i], positions[j]))
    && (forall p | 0 <= p < |records| && Qualifies(abc, query, now, records[p]) && p !in positions ::
          |positions| == query.topK && forall i | 0 <= i < |positions| :: Precedes(abc, query, records, positions[i], p))
    && (forall i | 0 <= i < |recalls| :: NearestInUnit(recalls[i].record.confidence, recalls[i].score))
  }

  /** The number of the unit interval closest to `x`. */
  ghost predicate NearestInUnit(x: real, score: real) {
    0.0 <= score <= 1.0 && (0.0 <= x <= 1.0 ==> score == x) && (x < 0.0 ==> score == 0.0) && (x > 1.0 ==> score == 1.0)
  }

  lemma {:induction false} EligibleQualifies(abc: Alphabet, query: Query, now: nat, r: Record)
    ensures Eligible(abc, query, now, r) <==> Qualifies(abc, query, now, r)
  {
    var common := Terms(abc, query.query) * Terms(abc, Searchable(r));
    if t :| t in Terms(abc, query.query) && t in Terms(abc, Searchable(r)) {
      assert t in common;
    } else {
      assert common == {};
    }
    assert |common| > 0 <==> common != {};
  }

  lemma {:induction false} BeforeIsPrecedes(abc: Alphabet, query: Query, now: nat, records: seq<Record>, a: Ranked, b: Ranked)
    requires IsCandidate(abc, query, now, records, a) && IsCandidate(abc, query, now, records, b)
    ensures Before(a, b) <==> Precedes(abc, query, records, a.index, b.index)
  {
  }

  function PositionsOf(ranking: seq<Ranked>): (r: seq<nat>)
    ensures |r| == |ranking| && forall i | 0 <= i < |r| :: r[i] == ranking[i].index
  {
    seq(|ranking|, i requires 0 <= i < |ranking| => ranking[i].index)
  }

  lemma {:induction false} RankedQualifies(abc: Alphabet, query: Query, now: nat, records: seq<Record>, i: nat)
    requires i < |Ranking(abc, query, now, records)|
    ensures var x := Ranking(abc, query, now, records)[i];
            IsCandidate(abc, query, now, records, x) && Qualifies(abc, query, now, x.record)
  {
    var ranking := Ranking(abc, query, now, records);
    RankingIsRanking(abc, query, now, records);
    assert ranking[i] in ranking;
    CandidateMembers(abc, query, now, records, ranking[i]);
    EligibleQualifies(abc, query, now, ranking[i].record);
  }

  lemma {:induction false} RankedInOrder(abc: Alphabet, query: Query, now: nat, records: seq<Record>, i: nat, j: nat)
    requires i < j < |Ranking(abc, query, now, records)|
    ensures var ranking := Ranking(abc, query, now, records);
            && ranking[i].index < |records| && ranking[j].index < |records|
            && Precedes(abc, query, records, ranking[i].index, ranking[j].index)
  {
    RankingIsRanking(abc, query, now, records);
    RankedQualifies(abc, query, now, records, i);
    RankedQualifies(abc, query, now, records, j);
    BeforeIsPrecedes(abc, query, now, records, Ranking(abc, query, now, records)[i], Ranking(abc, query, now, records)[j]);
  }

  /** The ranked answer keeps what search promises. */
  lemma {:induction false} RankingRecalls(abc: Alphabet, query: Query, now: nat, records: seq<Record>, recalls: seq<Recall>)
    requires var ranking := Ranking(abc, query, now, records);
             |recalls| == |ranking| && forall i | 0 <= i < |recalls| :: recalls[i] == Recall(ranking[i].record, Clamp(ranking[i].record.confidence))
    ensures Recalls(abc, query, now, records, recalls, PositionsOf(Ranking(abc, query, now, records)))
  {
    var ranking := Ranking(abc, query, now, records);
    var positions := PositionsOf(ranking);
    forall i | 0 <= i < |positions|
      ensures positions[i] < |records| && recalls[i].record == records[positions[i]] && Qualifies(abc, query, now, recalls[i].record)
    {
      RankedQualifies(abc, query, now, records, i);
    }
    forall i, j | 0 <= i < j < |positions|
      ensures Precedes(abc, query, records, positions[i], positions[j])
    {
      RankedInOrder(abc, query, now, records, i, j);
    }
    forall p | 0 <= p < |records| && Qualifies(abc, query, now, records[p]) && p !in positions
      ensures |positions| == query.topK && forall i | 0 <= i < |positions| :: Precedes(abc, query, records, positions[i], p)
    {
      LeftOutPreceded(abc, query, now, records, p);
    }
  }

  lemma {:induction false} LeftOutPreceded(abc: Alphabet, query: Query, now: nat, records: seq<Record>, p: nat)
    requires p < |records| && Qualifies(abc, query, now, records[p])
    requires p !in PositionsOf(Ranking(abc, query, now, records))
    ensures var positions := PositionsOf(Ranking(abc, query, now, records));
            && |positions| == query.topK
            && (forall i | 0 <= i < |positions| :: positions[i] < |records| && Precedes(abc, query, records, positions[i], p))
  {
    var ranking := Ranking(abc, query, now, records);
    var x := Ranked(records[p], Overlap(abc, query, records[p]), p);
    RankingIsRanking(abc, query, now, records);
    EligibleQualifies(abc, query, now, records[p]);
    CandidateMembers(abc, query, now, records, x);
    assert x !in ranking by {
      assert forall i | 0 <= i < |ranking| :: PositionsOf(ranking)[i] != p;
    }
    FullWhenLeftOut(abc, query, now, records, x);
    forall i | 0 <= i < |ranking|
      ensures ranking[i].index < |records| && Precedes(abc, query, records, ranking[i].index, p)
    {
      RankedQualifies(abc, query, now, records, i);
      assert ranking[i] in ranking;
      BeforeIsPrecedes(abc, query, now, records, ranking[i], x);
    }
  }

  /** An eligible record is left out only of a full answer. */
  lemma {:induction false} FullWhenLeftOut(abc: Alphabet, query: Query, now: nat, records: seq<Record>, x: Ranked)
    requires x in Candidates(abc, query, now, records) && x !in Ranking(abc, query, now, records)
    ensures |Ranking(abc, query, now, records)| == query.topK
  {
    var all := Arrange(Candidates(abc, query, now, records));
    CandidateIndices(abc, query, now, records);
    Arranged(Candidates(abc, query, now, records));
    assert all[..|all|] == all;
  }

  // ---------------------------------------------------------------- the store

  predicate SameKey(a: Record, b: Record) {
    a.scope == b.scope && a.kind == b.kind && a.name == b.name
  }

  /** Replace the first record of the same scope, kind and name, or append. */
  function Upsert(records: seq<Record>, incoming: Record): seq<Record> {
    if records == [] then [incoming]
    else if SameKey(records[0], incoming) then [incoming] + records[1..]
    else [records[0]] + Upsert(records[1..], incoming)
  }

  ghost predicate KeysUnique(records: seq<Record>) {
    forall i, j | 0 <= i < j < |records| :: !SameKey(records[i], records[j])
  }

  /** The first record under the incoming key. */
  ghost predicate FirstOfKey(records: seq<Record>, incoming: Record, i: nat)
    requires i < |records|
  {
    && records[i].scope == incoming.scope && records[i].kind == incoming.kind && records[i].name == incoming.name
    && forall j | 0 <= j < i ::
         records[j].scope != incoming.scope || records[j].kind != incoming.kind || records[j].name != incoming.name
  }

  /** Storing replaces the first record of the key or, when there is none, appends; every other record
      stays at its position, and keys that were unique stay so. */
  lemma {:induction false} UpsertKeepsKeys(records: seq<Record>, incoming: Record)
    ensures var known := exists i | 0 <= i < |records| ::
                           records[i].scope == incoming.scope && records[i].kind == incoming.kind && records[i].name == incoming.name;
            |Upsert(records, incoming)| == |records| + (if known then 0 else 1)
            && (!known ==> Upsert(records, incoming)[|records|] == incoming)
            && incoming in Upsert(records, incoming)
    ensures forall i | 0 <= i < |records| ::
              Upsert(records, incoming)[i] == if FirstOfKey(records, incoming, i) then incoming else records[i]
    ensures KeysUnique(records) ==> KeysUnique(Upsert(records, incoming))
  {
    UpsertPositions(records, incoming);
    if KeysUnique(records) {
      UpsertKeepsUnique(records, incoming);
    }
  }

  lemma {:induction false} UpsertPositions(records: seq<Record>, incoming: Record)
    ensures var known := exists i | 0 <= i < |records| :: SameKey(records[i], incoming);
            |Upsert(records, incoming)| == |records| + (if known then 0 else 1)
            && (!known ==> Upsert(records, incoming)[|records|] == incoming)
            && incoming in Upsert(records, incoming)
    ensures forall i | 0 <= i < |records| ::
              Upsert(records, incoming)[i] == if FirstOfKey(records, incoming, i) then incoming else records[i]
  {
    if records != [] && !SameKey(records[0], incoming) {
      var rest := records[1..];
      UpsertPositions(rest, incoming);
      assert forall i | 1 <= i < |records| :: records[i] == rest[i - 1];
      forall i | 1 <= i < |records|
        ensures FirstOfKey(records, incoming, i) <==> FirstOfKey(rest, incoming, i - 1)
      {
        if FirstOfKey(records, incoming, i) {
          assert forall j | 0 <= j < i - 1 :: rest[j] == records[j + 1];
        }
      }
      assert forall i | 0 <= i < |rest| :: rest[i] == records[i + 1];
      if i :| 0 <= i < |rest| && SameKey(rest[i], incoming) {
        assert SameKey(records[i + 1], incoming);
      }
    } else if records != [] {
      assert FirstOfKey(records, incoming, 0);
    }
  }

  lemma {:induction false} UpsertKeepsUnique(records: seq<Record>, incoming: Record)
    requires KeysUnique(records)
    ensures KeysUnique(Upsert(records, incoming))
    ensures forall x | x in Upsert(records, incoming) :: x == incoming || x in records
  {
    if records != [] && !SameKey(records[0], incoming) {
      var rest := Upsert(records[1..], incoming);
      UpsertKeepsUnique(records[1..], incoming);
      forall j | 0 <= j < |rest|
        ensures !SameKey(records[0], rest[j])
      {
        assert rest[j] in rest;
      }
    }
  }

  lemma {:induction false} UpsertSkips(records: seq<Record>, incoming: Record, i: nat)
    requires i <= |records| && forall j | 0 <= j < i :: !SameKey(records[j], incoming)
    ensures Upsert(records, incoming) == records[..i] + Upsert(records[i..], incoming)
  {
    if i == 0 {
      assert records[0..] == records;
      assert [] + Upsert(records, incoming) == Upsert(records, incoming);
    } else {
      UpsertSkips(records, incoming, i - 1);
      assert records[i - 1..][1..] == records[i..] && records[..i - 1] + [records[i - 1]] == records[..i];
      assert Upsert(records[i - 1..], incoming) == [records[i - 1]] + Upsert(records[i..], incoming);
    }
  }

  method UpsertInto(records: seq<Record>, incoming: Record) returns (kept: seq<Record>)
    ensures kept == Upsert(records, incoming)
  {
    for i := 0 to |records|
      invariant forall j | 0 <= j < i :: !SameKey(records[j], incoming)
    {
      if SameKey(records[i], incoming) {
        UpsertSkips(records, incoming, i);
        return records[i := incoming];
      }
    }
    UpsertSkips(records, incoming, |records|);
    return records + [incoming];
  }

  /** The filters, in one pass in insertion order. */
  method Collect(abc: Alphabet, query: Query, now: nat, records: seq<Record>) returns (ranked: seq<Ranked>)
    ensures ranked == Candidates(abc, query, now, records)
  {
    var queryTerms := MemoryTerms(abc, query.query);
    ranked := [];
    for i := 0 to |records|
      invariant ranked == Candidates(abc, query, now, records[..i])
    {
      assert records[..i + 1][..i] == records[..i];
      var record := records[i];
      if Admits(query, now, record) {
        var recordTerms := MemoryTerms(abc, Searchable(record));
        var matches := |queryTerms * recordTerms|;
        if queryTerms == {} || matches != 0 {
          ranked := ranked + [Ranked(record, matches, i)];
        }
      }
    }
    assert records[..|records|] == records;
  }

  class InMemoryStore {
    const initial: seq<Record>
    var memories: map<string, seq<Record>>

    constructor (initial: seq<Record>)
      ensures this.initial == initial && memories == map[]
      ensures forall agent :: RecordsOf(agent) == initial
    {
      this.initial, memories := initial, map[];
    }

    function RecordsOf(agentId: string): seq<Record>
      reads this
    {
      if agentId in memories then memories[agentId] else initial
    }

    method Put(agentId: string, incoming: Record)
      modifies this
      ensures RecordsOf(agentId) == Upsert(old(RecordsOf(agentId)), incoming)
      ensures forall other | other != agentId :: RecordsOf(other) == old(RecordsOf(other))
    {
      var kept := UpsertInto(RecordsOf(agentId), incoming);
      memories := memories[agentId := kept];
    }

    /** Filter in insertion order, sort, cut, and attach the clamped confidence as score. */
    method Search(abc: Alphabet, agentId: string, query: Query, now: nat) returns (recalls: seq<Recall>)
      modifies this
      ensures forall agent :: RecordsOf(agent) == old(RecordsOf(agent))
      ensures var ranking := Ranking(abc, query, now, old(RecordsOf(agentId)));
              |recalls| == |ranking| && forall i | 0 <= i < |recalls| :: recalls[i] == Recall(ranking[i].record, Clamp(ranking[i].record.confidence))
      ensures exists positions :: Recalls(abc, query, now, old(RecordsOf(agentId)), recalls, positions)
    {
      var records := RecordsOf(agentId);
      memories := memories[agentId := records];
      var ranked := Collect(abc, query, now, records);
      var sorted := Arrange(ranked);
      var cut := if query.topK <= |sorted| then query.topK else |sorted|;
      recalls := seq(cut, i requires 0 <= i < cut => Recall(sorted[i].record, Clamp(sorted[i].record.confidence)));
      RankingRecalls(abc, query, now, records, recalls);
    }
  }

  function Clamp(confidence: real): real {
    if confidence < 0.0 then 0.0 else if confidence > 1.0 then 1.0 else confidence
  }
}
