/**
 `similar_to_facts`: MinHash signatures are cut into bands, equal bands share a bucket, and only
 pairs that share a small enough bucket are compared. The results say exactly when that finds what
 comparing every pair would find.
 */
module Similarity {
  const SLOTS := 64
  const BANDS := 32
  const MAX_BUCKET := 200
  const MAX_EDGES := 10

  datatype CodeFingerprint = CodeFingerprint(subject: string, source: string, language: string, minhash: seq<nat>)

  predicate WellFormed(fps: seq<CodeFingerprint>) {
    forall i :: 0 <= i < |fps| ==> |fps[i].minhash| == SLOTS
  }

  // ---------------------------------------------------------------- signatures

  /** The agreeing slots among the first `n`. */
  function Matches(a: seq<nat>, b: seq<nat>, n: nat): (m: nat)
    requires n <= |a| && n <= |b|
    ensures m <= n
  {
    if n == 0 then 0 else Matches(a, b, n - 1) + (if a[n - 1] == b[n - 1] then 1 else 0)
  }

  function Jaccard(a: seq<nat>, b: seq<nat>): real
    requires |a| == |b| == SLOTS
  {
    Matches(a, b, SLOTS) as real / 64.0
  }

  predicate BandAgrees(a: seq<nat>, b: seq<nat>, band: nat)
    requires |a| == |b| == SLOTS && band < BANDS
  {
    a[2 * band] == b[2 * band] && a[2 * band + 1] == b[2 * band + 1]
  }

  /** The agreeing bands among the first `n`. */
  function AgreeingBands(a: seq<nat>, b: seq<nat>, n: nat): (m: nat)
    requires |a| == |b| == SLOTS && n <= BANDS
    ensures m <= n
  {
    if n == 0 then 0 else AgreeingBands(a, b, n - 1) + (if BandAgrees(a, b, n - 1) then 1 else 0)
  }

  /** A disagreeing slot spoils at most one band. */
  lemma {:induction false} SpoiledBands(a: seq<nat>, b: seq<nat>, n: nat)
    requires |a| == |b| == SLOTS && n <= BANDS
    ensures n - AgreeingBands(a, b, n) <= 2 * n - Matches(a, b, 2 * n)
  {
    if n > 0 {
      SpoiledBands(a, b, n - 1);
      assert Matches(a, b, 2 * n) == Matches(a, b, 2 * n - 1) + (if a[2 * n - 1] == b[2 * n - 1] then 1 else 0);
      assert Matches(a, b, 2 * n - 1) == Matches(a, b, 2 * n - 2) + (if a[2 * n - 2] == b[2 * n - 2] then 1 else 0);
    }
  }

  /** The threshold 0.95 asks for 61 of the 64 slots. */
  lemma {:induction false} ThresholdIs61(a: seq<nat>, b: seq<nat>)
    requires |a| == |b| == SLOTS
    ensures Jaccard(a, b) >= 0.95 <==> Matches(a, b, SLOTS) >= 61
  {
  }

  /** Signatures above the threshold agree on at least 29 of the 32 bands. */
  lemma {:induction false} SimilarShareBands(a: seq<nat>, b: seq<nat>)
    requires |a| == |b| == SLOTS && Jaccard(a, b) >= 0.95
    ensures AgreeingBands(a, b, BANDS) >= 29
  {
    ThresholdIs61(a, b);
    SpoiledBands(a, b, BANDS);
  }

  lemma {:induction false} SomeAgreeingBand(a: seq<nat>, b: seq<nat>, n: nat) returns (band: nat)
    requires |a| == |b| == SLOTS && n <= BANDS && AgreeingBands(a, b, n) > 0
    ensures band < n && BandAgrees(a, b, band)
  {
    if BandAgrees(a, b, n - 1) {
      band := n - 1;
    } else {
      band := SomeAgreeingBand(a, b, n - 1);
    }
  }

  // ---------------------------------------------------------------- buckets

  /** `lsh_band_hash`, for any hash of the two rows. */
  function BandHash(hash: (nat, nat) -> nat, f: CodeFingerprint, band: nat): nat
    requires |f.minhash| == SLOTS && band < BANDS
  {
    hash(f.minhash[2 * band], f.minhash[2 * band + 1])
  }

  predicate InBucket(hash: (nat, nat) -> nat, f: CodeFingerprint, key: (nat, nat))
    requires |f.minhash| == SLOTS
  {
    key.0 < BANDS && BandHash(hash, f, key.0) == key.1
  }

  /** The members of a bucket among the first `n` fingerprints, in order. */
  function Bucket(hash: (nat, nat) -> nat, fps: seq<CodeFingerprint>, n: nat, key: (nat, nat)): seq<nat>
    requires WellFormed(fps) && n <= |fps|
  {
    if n == 0 then [] else Bucket(hash, fps, n - 1, key) + (if InBucket(hash, fps[n - 1], key) then [n - 1] else [])
  }

  lemma {:induction false} BucketMembers(hash: (nat, nat) -> nat, fps: seq<CodeFingerprint>, n: nat, key: (nat, nat))
    requires WellFormed(fps) && n <= |fps|
    ensures forall i :: i in Bucket(hash, fps, n, key) <==> 0 <= i < n && InBucket(hash, fps[i], key)
    ensures var b := Bucket(hash, fps, n, key); forall i, j :: 0 <= i < j < |b| ==> b[i] < b[j]
    ensures |Bucket(hash, fps, n, key)| <= n
  {
    hide InBucket;
    if n > 0 {
      BucketMembers(hash, fps, n - 1, key);
      var rest, b := Bucket(hash, fps, n - 1, key), Bucket(hash, fps, n, key);
      assert forall i :: 0 <= i < |rest| ==> rest[i] in rest;
      forall i, j | 0 <= i < j < |b| ensures b[i] < b[j] {
        assert b[i] == rest[i];
        assert b[i] in rest;
      }
    }
  }

  predicate SmallBucket(bucket: seq<nat>) {
    2 <= |bucket| <= MAX_BUCKET
  }

  /** The pair meets in some bucket that is small enough to be expanded. */
  ghost predicate Shares(hash: (nat, nat) -> nat, fps: seq<CodeFingerprint>, l: nat, r: nat)
    requires WellFormed(fps)
  {
    l < r < |fps| && exists key :: MeetIn(hash, fps, l, r, key)
  }

  predicate MeetIn(hash: (nat, nat) -> nat, fps: seq<CodeFingerprint>, l: nat, r: nat, key: (nat, nat))
    requires WellFormed(fps) && l < |fps| && r < |fps|
  {
    InBucket(hash, fps[l], key) && InBucket(hash, fps[r], key) && SmallBucket(Bucket(hash, fps, |fps|, key))
  }

  // ---------------------------------------------------------------- emission

  datatype Emitted = Emitted(edges: seq<(nat, nat)>, counts: map<string, nat>)

  function Count(counts: map<string, nat>, subject: string): nat {
    if subject in counts then counts[subject] else 0
  }

  function Bump(counts: map<string, nat>, subject: string): map<string, nat> {
    counts[subject := Count(counts, subject) + 1]
  }

  /** The pair is worth an edge, caps aside. */
  predicate SimilarPair(fps: seq<CodeFingerprint>, l: nat, r: nat)
    requires WellFormed(fps) && l < |fps| && r < |fps|
  {
    && fps[l].subject != fps[r].subject
    && fps[l].language == fps[r].language
    && Jaccard(fps[l].minhash, fps[r].minhash) >= 0.95
  }

  predicate Emits(fps: seq<CodeFingerprint>, st: Emitted, l: nat, r: nat)
    requires WellFormed(fps) && l < |fps| && r < |fps|
  {
    && SimilarPair(fps, l, r)
    && Count(st.counts, fps[l].subject) < MAX_EDGES
    && Count(st.counts, fps[r].subject) < MAX_EDGES
  }

  function Visit(fps: seq<CodeFingerprint>, st: Emitted, l: nat, r: nat): Emitted
    requires WellFormed(fps) && l < |fps| && r < |fps|
  {
    if Emits(fps, st, l, r) then
      Emitted(st.edges + [(l, r)], Bump(Bump(st.counts, fps[l].subject), fps[r].subject))
    else st
  }

  /** The edge loop over the allowed pairs from `(l, r)` on, in lexicographic order. */
  function EmitFrom(fps: seq<CodeFingerprint>, allowed: set<(nat, nat)>, l: nat, r: nat, st: Emitted): Emitted
    requires WellFormed(fps) && r <= |fps|
    decreases if l < |fps| then |fps| - l else 0, |fps| - r
  {
    if l >= |fps| then st
    else if r == |fps| then EmitFrom(fps, allowed, l + 1, if l + 2 <= |fps| then l + 2 else |fps|, st)
    else EmitFrom(fps, allowed, l, r + 1, if (l, r) in allowed then Visit(fps, st, l, r) else st)
  }

  const START := Emitted([], map[])

  function EmitAll(fps: seq<CodeFingerprint>, allowed: set<(nat, nat)>): Emitted
    requires WellFormed(fps)
  {
    EmitFrom(fps, allowed, 0, if |fps| >= 1 then 1 else 0, START)
  }

  function AllPairs(n: nat): set<(nat, nat)> {
    set l, r | 0 <= l < n && 0 <= r < n && l < r :: (l, r)
  }

  lemma {:induction false} EmitGrows(fps: seq<CodeFingerprint>, allowed: set<(nat, nat)>, l: nat, r: nat, st: Emitted)
    requires WellFormed(fps) && r <= |fps|
    ensures var out := EmitFrom(fps, allowed, l, r, st).edges;
            && (forall e :: e in st.edges ==> e in out)
            && (forall e :: e in out ==> e in st.edges || e in allowed)
    decreases if l < |fps| then |fps| - l else 0, |fps| - r
  {
    hide Emits;
    if l >= |fps| {
    } else if r == |fps| {
      EmitGrows(fps, allowed, l + 1, if l + 2 <= |fps| then l + 2 else |fps|, st);
    } else {
      EmitGrows(fps, allowed, l, r + 1, if (l, r) in allowed then Visit(fps, st, l, r) else st);
    }
  }

  /** Leaving out pairs that the full run does not use changes nothing. */
  lemma {:induction false} SameRun(fps: seq<CodeFingerprint>, some: set<(nat, nat)>, every: set<(nat, nat)>, l: nat, r: nat, st: Emitted)
    requires WellFormed(fps) && r <= |fps| && some <= every
    requires forall e :: e in EmitFrom(fps, every, l, r, st).edges ==> e in st.edges || e in some
    requires forall e :: e in st.edges ==> LexBefore(e, l, r)
    ensures EmitFrom(fps, some, l, r, st) == EmitFrom(fps, every, l, r, st)
    decreases if l < |fps| then |fps| - l else 0, |fps| - r
  {
    hide Emits;
    if l >= |fps| {
    } else if r == |fps| {
      SameRun(fps, some, every, l + 1, if l + 2 <= |fps| then l + 2 else |fps|, st);
    } else {
      var next := if (l, r) in every then Visit(fps, st, l, r) else st;
      EmitGrows(fps, every, l, r + 1, next);
      if (l, r) in every && (l, r) !in some {
        assert (l, r) !in st.edges;
        assert next == st;
      }
      SameRun(fps, some, every, l, r + 1, next);
    }
  }

  predicate LexBefore(e: (nat, nat), l: nat, r: nat) {
    e.0 < l || (e.0 == l && e.1 < r)
  }

  /**
   The banded search finds exactly what the all-pairs search finds, in the same order and under
   the same cap, if and only if every pair the all-pairs search links is among the compared ones.
   */
  lemma {:induction false} CandidatesSuffice(fps: seq<CodeFingerprint>, some: set<(nat, nat)>)
    requires WellFormed(fps) && some <= AllPairs(|fps|)
    ensures EmitAll(fps, some).edges == EmitAll(fps, AllPairs(|fps|)).edges <==>
            forall e :: e in EmitAll(fps, AllPairs(|fps|)).edges ==> e in some
  {
    hide EmitFrom, AllPairs;
    var r := if |fps| >= 1 then 1 else 0;
    EmitGrows(fps, some, 0, r, START);
    if forall e :: e in EmitAll(fps, AllPairs(|fps|)).edges ==> e in some {
      SameRun(fps, some, AllPairs(|fps|), 0, r, START);
    }
  }

  // ---------------------------------------------------------------- what is emitted

  function Degree(fps: seq<CodeFingerprint>, edges: seq<(nat, nat)>, subject: string): nat {
    if edges == [] then 0
    else
      var e := edges[|edges| - 1];
      Degree(fps, edges[..|edges| - 1], subject)
      + (if e.0 < |fps| && fps[e.0].subject == subject then 1 else 0)
      + (if e.1 < |fps| && fps[e.1].subject == subject then 1 else 0)
  }

  /** Edges join similar pairs in order, and the counts are the degrees, within the cap. */
  ghost predicate GoodEdges(fps: seq<CodeFingerprint>, st: Emitted)
    requires WellFormed(fps)
  {
    && (forall e :: e in st.edges ==> e.0 < e.1 < |fps| && SimilarPair(fps, e.0, e.1))
    && (forall s :: Count(st.counts, s) == Degree(fps, st.edges, s) <= MAX_EDGES)
  }

  lemma {:induction false} VisitKeepsGood(fps: seq<CodeFingerprint>, st: Emitted, l: nat, r: nat)
    requires WellFormed(fps) && l < r < |fps| && GoodEdges(fps, st)
    ensures GoodEdges(fps, Visit(fps, st, l, r))
  {
    if Emits(fps, st, l, r) {
      var st' := Visit(fps, st, l, r);
      var a, b := fps[l].subject, fps[r].subject;
      assert st'.edges[..|st'.edges| - 1] == st.edges;
      forall s ensures Count(st'.counts, s) == Degree(fps, st'.edges, s) <= MAX_EDGES {
        assert Count(st.counts, s) == Degree(fps, st.edges, s) <= MAX_EDGES;
        assert Count(st'.counts, s) == Count(st.counts, s) + (if s == a then 1 else 0) + (if s == b then 1 else 0);
      }
      forall e | e in st'.edges ensures e.0 < e.1 < |fps| && SimilarPair(fps, e.0, e.1) {
        assert e in st.edges || e == (l, r);
      }
    }
  }

  lemma {:induction false} EmitKeepsGood(fps: seq<CodeFingerprint>, allowed: set<(nat, nat)>, l: nat, r: nat, st: Emitted)
    requires WellFormed(fps) && r <= |fps| && (l < |fps| ==> l < r) && GoodEdges(fps, st)
    ensures GoodEdges(fps, EmitFrom(fps, allowed, l, r, st))
    decreases if l < |fps| then |fps| - l else 0, |fps| - r
  {
    hide GoodEdges, Visit;
    if l >= |fps| {
    } else if r == |fps| {
      EmitKeepsGood(fps, allowed, l + 1, if l + 2 <= |fps| then l + 2 else |fps|, st);
    } else {
      VisitKeepsGood(fps, st, l, r);
      EmitKeepsGood(fps, allowed, l, r + 1, if (l, r) in allowed then Visit(fps, st, l, r) else st);
    }
  }

  /** Whatever is compared, only similar pairs are linked and no symbol passes the cap. */
  lemma {:induction false} EmittedAreGood(fps: seq<CodeFingerprint>, allowed: set<(nat, nat)>)
    requires WellFormed(fps)
    ensures GoodEdges(fps, EmitAll(fps, allowed))
  {
    hide EmitFrom, SimilarPair;
    EmitKeepsGood(fps, allowed, 0, if |fps| >= 1 then 1 else 0, START);
  }

  // ---------------------------------------------------------------- exactly which pairs are linked

  /** The edges that come before `(l, r)` in lexicographic order. */
  function Before(edges: seq<(nat, nat)>, l: nat, r: nat): seq<(nat, nat)> {
    if edges == [] then []
    else
      var e := edges[|edges| - 1];
      Before(edges[..|edges| - 1], l, r) + (if e.0 < l || (e.0 == l && e.1 < r) then [e] else [])
  }

  lemma {:induction false} BeforeAll(edges: seq<(nat, nat)>, l: nat, r: nat)
    requires forall e :: e in edges ==> LexBefore(e, l, r)
    ensures Before(edges, l, r) == edges
  {
    if edges != [] {
      BeforeAll(edges[..|edges| - 1], l, r);
      assert edges[|edges| - 1] in edges;
    }
  }

  lemma {:induction false} BeforeAppend(front: seq<(nat, nat)>, tail: seq<(nat, nat)>, l: nat, r: nat)
    requires forall e :: e in tail ==> !LexBefore(e, l, r)
    ensures Before(front + tail, l, r) == Before(front, l, r)
    decreases |tail|
  {
    if tail == [] {
      assert front + tail == front;
    } else {
      var n := |tail| - 1;
      assert tail[n] in tail;
      assert (front + tail)[..|front + tail| - 1] == front + tail[..n];
      BeforeAppend(front, tail[..n], l, r);
    }
  }

  ghost predicate InOrder(edges: seq<(nat, nat)>) {
    forall i, j :: 0 <= i < j < |edges| ==> LexBefore(edges[i], edges[j].0, edges[j].1)
  }

  /** A run only appends, in order, edges at or after the pair it has come to. */
  lemma {:induction false} EmitAppends(fps: seq<CodeFingerprint>, allowed: set<(nat, nat)>, l: nat, r: nat, st: Emitted) returns (tail: seq<(nat, nat)>)
    requires WellFormed(fps) && r <= |fps|
    ensures EmitFrom(fps, allowed, l, r, st).edges == st.edges + tail
    ensures InOrder(tail) && forall e :: e in tail ==> !LexBefore(e, l, r)
    decreases if l < |fps| then |fps| - l else 0, |fps| - r
  {
    hide Emits;
    if l >= |fps| {
      tail := [];
    } else if r == |fps| {
      tail := EmitAppends(fps, allowed, l + 1, if l + 2 <= |fps| then l + 2 else |fps|, st);
    } else {
      var next := if (l, r) in allowed then Visit(fps, st, l, r) else st;
      var more := EmitAppends(fps, allowed, l, r + 1, next);
      if next == st {
        tail := more;
      } else {
        tail := [(l, r)] + more;
        assert st.edges + tail == next.edges + more;
        forall i, j | 0 <= i < j < |tail| ensures LexBefore(tail[i], tail[j].0, tail[j].1) {
          assert tail[j] == more[j - 1] && more[j - 1] in more;
          if i > 0 {
            assert tail[i] == more[i - 1];
          }
        }
      }
    }
  }

  /** Subjects below ten edges each, among the edges before the pair. */
  predicate RoomFor(fps: seq<CodeFingerprint>, edges: seq<(nat, nat)>, l: nat, r: nat)
    requires l < |fps| && r < |fps|
  {
    Degree(fps, Before(edges, l, r), fps[l].subject) < 10 && Degree(fps, Before(edges, l, r), fps[r].subject) < 10
  }

  /** The pair is worth a link: another symbol of the same language with 61 of 64 slots in common. */
  predicate AreSimilar(fps: seq<CodeFingerprint>, l: nat, r: nat)
    requires WellFormed(fps) && l < |fps| && r < |fps|
  {
    fps[l].subject != fps[r].subject && fps[l].language == fps[r].language && |SameSlots(fps[l].minhash, fps[r].minhash)| >= 61
  }

  function SameSlots(a: seq<nat>, b: seq<nat>): set<nat>
    requires |a| == |b| == 64
  {
    set i: nat | i < 64 && a[i] == b[i]
  }

  function SameBelow(a: seq<nat>, b: seq<nat>, n: nat): set<nat>
    requires n <= |a| && n <= |b|
  {
    set i: nat | i < n && a[i] == b[i]
  }

  lemma {:induction false} MatchesCount(a: seq<nat>, b: seq<nat>, n: nat)
    requires n <= |a| && n <= |b|
    ensures Matches(a, b, n) == |SameBelow(a, b, n)|
  {
    if n > 0 {
      MatchesCount(a, b, n - 1);
      assert SameBelow(a, b, n) == SameBelow(a, b, n - 1) + (if a[n - 1] == b[n - 1] then {n - 1} else {});
    }
  }

  lemma {:induction false} SimilarMeans(fps: seq<CodeFingerprint>, l: nat, r: nat)
    requires WellFormed(fps) && l < |fps| && r < |fps|
    ensures SimilarPair(fps, l, r) <==> AreSimilar(fps, l, r)
  {
    var a, b := fps[l].minhash, fps[r].minhash;
    ThresholdIs61(a, b);
    MatchesCount(a, b, 64);
    assert SameBelow(a, b, 64) == SameSlots(a, b);
  }

  /** From any point of the loop on: a pair yet to come is linked exactly when it is similar, allowed and has room. */
  lemma {:induction false} EmitIff(fps: seq<CodeFingerprint>, allowed: set<(nat, nat)>, l: nat, r: nat, st: Emitted, x: nat, y: nat)
    requires WellFormed(fps) && r <= |fps| && (l < |fps| ==> l < r) && GoodEdges(fps, st)
    requires forall e :: e in st.edges ==> LexBefore(e, l, r)
    requires x < y < |fps| && !LexBefore((x, y), l, r)
    ensures var out := EmitFrom(fps, allowed, l, r, st).edges;
            (x, y) in out <==> (x, y) in allowed && SimilarPair(fps, x, y) && RoomFor(fps, out, x, y)
    decreases if l < |fps| then |fps| - l else 0, |fps| - r
  {
    hide GoodEdges, SimilarPair, RoomFor;
    if r == |fps| {
      EmitIff(fps, allowed, l + 1, if l + 2 <= |fps| then l + 2 else |fps|, st, x, y);
    } else {
      var next := if (l, r) in allowed then Visit(fps, st, l, r) else st;
      VisitKeepsGood(fps, st, l, r);
      if (x, y) != (l, r) {
        EmitIff(fps, allowed, l, r + 1, next, x, y);
      } else {
        var tail := EmitAppends(fps, allowed, l, r + 1, next);
        LinkedHere(fps, allowed, l, r, st, tail);
      }
    }
  }

  lemma {:induction false} LinkedHere(fps: seq<CodeFingerprint>, allowed: set<(nat, nat)>, l: nat, r: nat, st: Emitted, tail: seq<(nat, nat)>)
    requires WellFormed(fps) && l < r < |fps| && GoodEdges(fps, st)
    requires forall e :: e in st.edges ==> LexBefore(e, l, r)
    requires forall e :: e in tail ==> !LexBefore(e, l, r + 1)
    ensures var next := if (l, r) in allowed then Visit(fps, st, l, r) else st;
            (l, r) in next.edges + tail <==> (l, r) in allowed && SimilarPair(fps, l, r) && RoomFor(fps, next.edges + tail, l, r)
  {
    hide SimilarPair, Degree;
    var next := if (l, r) in allowed then Visit(fps, st, l, r) else st;
    var added := if next == st then [] else [(l, r)];
    assert next.edges + tail == st.edges + (added + tail);
    forall e | e in added + tail ensures !LexBefore(e, l, r) {
      assert e in added || e in tail;
    }
    BeforeAppend(st.edges, added + tail, l, r);
    BeforeAll(st.edges, l, r);
    assert Count(st.counts, fps[l].subject) == Degree(fps, st.edges, fps[l].subject);
    assert Count(st.counts, fps[r].subject) == Degree(fps, st.edges, fps[r].subject);
    assert (l, r) !in st.edges && (l, r) !in tail;
    EmitsGrows(fps, st, l, r);
  }

  lemma {:induction false} EmitsGrows(fps: seq<CodeFingerprint>, st: Emitted, l: nat, r: nat)
    requires WellFormed(fps) && l < |fps| && r < |fps|
    ensures Visit(fps, st, l, r) == st <==> !Emits(fps, st, l, r)
    ensures Emits(fps, st, l, r) ==> Visit(fps, st, l, r).edges == st.edges + [(l, r)]
  {
    hide Emits;
    assert |st.edges + [(l, r)]| != |st.edges|;
  }

  /**
   The linked pairs, said without the loop: a pair is linked if and only if it was compared, it is
   similar, and among the links before it in lexicographic order both symbols have fewer than ten.
   */
  lemma {:induction false} LinkedIff(fps: seq<CodeFingerprint>, allowed: set<(nat, nat)>, l: nat, r: nat)
    requires WellFormed(fps) && l < r < |fps|
    ensures var edges := EmitAll(fps, allowed).edges;
            (l, r) in edges <==> (l, r) in allowed && AreSimilar(fps, l, r) && RoomFor(fps, edges, l, r)
  {
    hide EmitFrom, SimilarPair, RoomFor, AreSimilar;
    SimilarMeans(fps, l, r);
    assert GoodEdges(fps, START);
    EmitIff(fps, allowed, 0, 1, START, l, r);
  }

  /** And they come in lexicographic order, each once. */
  lemma {:induction false} LinksInOrder(fps: seq<CodeFingerprint>, allowed: set<(nat, nat)>)
    requires WellFormed(fps)
    ensures InOrder(EmitAll(fps, allowed).edges)
    ensures forall e :: e in EmitAll(fps, allowed).edges ==> e.0 < e.1 < |fps|
  {
    hide EmitFrom, SimilarPair;
    var tail := EmitAppends(fps, allowed, 0, if |fps| >= 1 then 1 else 0, START);
    assert [] + tail == tail;
    EmittedAreGood(fps, allowed);
  }

  /** Under a hash that tells pairs apart, two fingerprints share a bucket of a band exactly when both its rows agree. */
  lemma {:induction false} SameBucketIff(hash: (nat, nat) -> nat, f: CodeFingerprint, g: CodeFingerprint, band: nat)
    requires |f.minhash| == |g.minhash| == 64 && band < 32
    requires forall a, b, c, d :: hash(a, b) == hash(c, d) ==> a == c && b == d
    ensures (exists v :: InBucket(hash, f, (band, v)) && InBucket(hash, g, (band, v))) <==>
            f.minhash[2 * band] == g.minhash[2 * band] && f.minhash[2 * band + 1] == g.minhash[2 * band + 1]
  {
    var v := BandHash(hash, f, band);
    assert InBucket(hash, f, (band, v));
    if f.minhash[2 * band] == g.minhash[2 * band] && f.minhash[2 * band + 1] == g.minhash[2 * band + 1] {
      assert InBucket(hash, g, (band, v));
    }
  }

  ghost function Candidates(hash: (nat, nat) -> nat, fps: seq<CodeFingerprint>): set<(nat, nat)>
    requires WellFormed(fps)
  {
    set l, r | 0 <= l < |fps| && 0 <= r < |fps| && l < r && Shares(hash, fps, l, r) :: (l, r)
  }

  /** Banding equals brute force if and only if every pair that brute force links meets in a small bucket. */
  lemma {:induction false} BandingIsExactIff(hash: (nat, nat) -> nat, fps: seq<CodeFingerprint>)
    requires WellFormed(fps)
    ensures EmitAll(fps, Candidates(hash, fps)).edges == EmitAll(fps, AllPairs(|fps|)).edges <==>
            forall e :: e in EmitAll(fps, AllPairs(|fps|)).edges ==> Shares(hash, fps, e.0, e.1)
  {
    hide EmitFrom, SimilarPair, Shares;
    EmittedAreGood(fps, AllPairs(|fps|));
    CandidatesSuffice(fps, Candidates(hash, fps));
    var every := EmitAll(fps, AllPairs(|fps|)).edges;
    assert forall e :: e in every ==> (e in Candidates(hash, fps) <==> Shares(hash, fps, e.0, e.1));
  }

  /** If every similar pair meets in a small bucket, banding equals brute force. */
  lemma {:induction false} BandingEqualsBruteForce(hash: (nat, nat) -> nat, fps: seq<CodeFingerprint>)
    requires WellFormed(fps)
    requires forall l: nat, r: nat :: l < r < |fps| && SimilarPair(fps, l, r) ==> Shares(hash, fps, l, r)
    ensures EmitAll(fps, Candidates(hash, fps)).edges == EmitAll(fps, AllPairs(|fps|)).edges
  {
    hide EmitFrom, SimilarPair, Shares;
    var every := EmitAll(fps, AllPairs(|fps|));
    EmittedAreGood(fps, AllPairs(|fps|));
    forall e | e in every.edges ensures e in Candidates(hash, fps) {
      assert SimilarPair(fps, e.0, e.1);
    }
    CandidatesSuffice(fps, Candidates(hash, fps));
  }

  /** A similar pair always meets in a bucket; only an overfull one can lose it. */
  lemma {:induction false} SimilarPairsMeet(hash: (nat, nat) -> nat, fps: seq<CodeFingerprint>, l: nat, r: nat) returns (key: (nat, nat))
    requires WellFormed(fps) && l < r < |fps| && SimilarPair(fps, l, r)
    ensures InBucket(hash, fps[l], key) && InBucket(hash, fps[r], key)
    ensures 2 <= |Bucket(hash, fps, |fps|, key)| <= |fps|
  {
    var a, b := fps[l].minhash, fps[r].minhash;
    SimilarShareBands(a, b);
    var band := SomeAgreeingBand(a, b, BANDS);
    key := (band, BandHash(hash, fps[l], band));
    BucketMembers(hash, fps, |fps|, key);
    var bucket := Bucket(hash, fps, |fps|, key);
    assert l in bucket && r in bucket;
    var i :| 0 <= i < |bucket| && bucket[i] == l;
    var j :| 0 <= j < |bucket| && bucket[j] == r;
  }

  /** Up to two hundred fingerprints, banding equals brute force unconditionally. */
  lemma {:induction false} SmallInputsAreExact(hash: (nat, nat) -> nat, fps: seq<CodeFingerprint>)
    requires WellFormed(fps) && |fps| <= 200
    ensures EmitAll(fps, Candidates(hash, fps)).edges == EmitAll(fps, AllPairs(|fps|)).edges
  {
    hide EmitFrom, SimilarPair, Bucket;
    forall l: nat, r: nat | l < r < |fps| && SimilarPair(fps, l, r) ensures Shares(hash, fps, l, r) {
      var key := SimilarPairsMeet(hash, fps, l, r);
      assert MeetIn(hash, fps, l, r, key);
    }
    BandingEqualsBruteForce(hash, fps);
  }

  // ---------------------------------------------------------------- the method

  function Stored(buckets: map<(nat, nat), seq<nat>>, key: (nat, nat)): seq<nat> {
    if key in buckets then buckets[key] else []
  }

  /** What a bucket holds after `i` whole fingerprints and `band` bands of the next. */
  function Partial(hash: (nat, nat) -> nat, fps: seq<CodeFingerprint>, i: nat, band: nat, key: (nat, nat)): seq<nat>
    requires WellFormed(fps) && i < |fps|
  {
    Bucket(hash, fps, if key.0 < band then i + 1 else i, key)
  }

  lemma {:induction false} NextBand(hash: (nat, nat) -> nat, fps: seq<CodeFingerprint>, i: nat, band: nat, key: (nat, nat))
    requires WellFormed(fps) && i < |fps| && band < BANDS
    ensures Partial(hash, fps, i, band + 1, key) ==
            Partial(hash, fps, i, band, key) + (if key == (band, BandHash(hash, fps[i], band)) then [i] else [])
  {
  }

  lemma {:induction false} BandsDone(hash: (nat, nat) -> nat, fps: seq<CodeFingerprint>, i: nat, key: (nat, nat))
    requires WellFormed(fps) && i < |fps|
    ensures Partial(hash, fps, i, BANDS, key) == Bucket(hash, fps, i + 1, key)
    ensures Partial(hash, fps, i, 0, key) == Bucket(hash, fps, i, key)
  {
  }

  method FillBuckets(hash: (nat, nat) -> nat, fps: seq<CodeFingerprint>) returns (buckets: map<(nat, nat), seq<nat>>)
    requires WellFormed(fps)
    ensures forall key :: Stored(buckets, key) == Bucket(hash, fps, |fps|, key)
  {
    hide Bucket, Partial, BandHash;
    buckets := map[];
    forall key ensures Bucket(hash, fps, 0, key) == [] { NoMembers(hash, fps, key); }
    for i := 0 to |fps|
      invariant forall key :: Stored(buckets, key) == Bucket(hash, fps, i, key)
    {
      forall key ensures Partial(hash, fps, i, 0, key) == Bucket(hash, fps, i, key) { BandsDone(hash, fps, i, key); }
      for band := 0 to BANDS
        invariant forall key :: Stored(buckets, key) == Partial(hash, fps, i, band, key)
      {
        var slot := (band, BandHash(hash, fps[i], band));
        ghost var before := buckets;
        buckets := buckets[slot := Stored(buckets, slot) + [i]];
        forall key ensures Stored(buckets, key) == Partial(hash, fps, i, band + 1, key) {
          NextBand(hash, fps, i, band, key);
          assert Stored(before, key) == Partial(hash, fps, i, band, key);
        }
      }
      forall key ensures Stored(buckets, key) == Bucket(hash, fps, i + 1, key) { BandsDone(hash, fps, i, key); }
    }
  }

  lemma {:induction false} NoMembers(hash: (nat, nat) -> nat, fps: seq<CodeFingerprint>, key: (nat, nat))
    requires WellFormed(fps)
    ensures Bucket(hash, fps, 0, key) == []
  {
  }

  function MinMax(a: nat, b: nat): (nat, nat) {
    if a < b then (a, b) else (b, a)
  }

  /** All pairs of a bucket. */
  method ExpandBucket(bucket: seq<nat>, pairs: set<(nat, nat)>) returns (pairs': set<(nat, nat)>)
    requires forall i, j :: 0 <= i < j < |bucket| ==> bucket[i] < bucket[j]
    ensures forall l, r :: (l, r) in pairs' <==> (l, r) in pairs || (l in bucket && r in bucket && l < r)
  {
    pairs' := pairs;
    for i := 0 to |bucket|
      invariant forall l, r :: (l, r) in pairs' <==> (l, r) in pairs || (l in bucket[..i] && r in bucket && l < r)
    {
      ghost var before := pairs';
      for j := i + 1 to |bucket|
        invariant forall l, r :: (l, r) in pairs' <==> (l, r) in before || (l == bucket[i] && r in bucket[i + 1..j])
      {
        pairs' := pairs' + {MinMax(bucket[i], bucket[j])};
        assert bucket[i + 1..j + 1] == bucket[i + 1..j] + [bucket[j]];
      }
      assert bucket[i + 1..|bucket|] == bucket[i + 1..];
      forall r ensures r in bucket[i + 1..] <==> r in bucket && bucket[i] < r {
        if r in bucket && bucket[i] < r {
          var k :| 0 <= k < |bucket| && bucket[k] == r;
          assert k > i;
          assert bucket[i + 1..][k - i - 1] == r;
        }
      }
      assert bucket[..i + 1] == bucket[..i] + [bucket[i]];
    }
    assert bucket[..|bucket|] == bucket;
  }

  /**
   The banded search, edge loop included: the links in order, each pair that meets in a bucket of 2 to
   200 members, is similar, and finds both its symbols with fewer than ten links before it.
   */
  method SimilarPairs(hash: (nat, nat) -> nat, fps: seq<CodeFingerprint>) returns (edges: seq<(nat, nat)>)
    requires WellFormed(fps)
    ensures edges == EmitAll(fps, Candidates(hash, fps)).edges
    ensures InOrder(edges)
    ensures forall e :: e in edges ==> e.0 < e.1 < |fps|
    ensures forall l: nat, r: nat :: l < r < |fps| ==>
      ((l, r) in edges <==> SharesBucket(hash, fps, l, r) && AreSimilar(fps, l, r) && RoomFor(fps, edges, l, r))
  {
    hide EmitFrom, Bucket, Visit, Shares, AreSimilar, RoomFor, SharesBucket, InOrder;
    var buckets := FillBuckets(hash, fps);
    var pairs := CollectPairs(hash, fps, buckets);
    var st := START;
    var l, r := 0, if |fps| >= 1 then 1 else 0;
    while l < |fps|
      invariant 0 <= l && 0 <= r <= |fps|
      invariant EmitFrom(fps, pairs, l, r, st) == EmitAll(fps, pairs)
      decreases |fps| - l, |fps| - r
    {
      EmitStep(fps, pairs, l, r, st);
      if r == |fps| {
        l, r := l + 1, if l + 2 <= |fps| then l + 2 else |fps|;
      } else {
        if (l, r) in pairs {
          st := Visit(fps, st, l, r);
        }
        r := r + 1;
      }
    }
    EmitEnd(fps, pairs, l, r, st);
    edges := st.edges;
    LinksInOrder(fps, pairs);
    forall l: nat, r: nat | l < r < |fps|
      ensures (l, r) in edges <==> SharesBucket(hash, fps, l, r) && AreSimilar(fps, l, r) && RoomFor(fps, edges, l, r)
    {
      LinkedIff(fps, pairs, l, r);
      SharesMeans(hash, fps, l, r);
    }
  }

  /** Some bucket holds both, and has at least 2 and at most 200 members. */
  ghost predicate SharesBucket(hash: (nat, nat) -> nat, fps: seq<CodeFingerprint>, l: nat, r: nat)
    requires WellFormed(fps) && l < |fps| && r < |fps|
  {
    exists key :: TogetherIn(hash, fps, l, r, key)
  }

  ghost predicate TogetherIn(hash: (nat, nat) -> nat, fps: seq<CodeFingerprint>, l: nat, r: nat, key: (nat, nat))
    requires WellFormed(fps) && l < |fps| && r < |fps|
  {
    InBucket(hash, fps[l], key) && InBucket(hash, fps[r], key) && 2 <= |MembersOf(hash, fps, key)| <= 200
  }

  function MembersOf(hash: (nat, nat) -> nat, fps: seq<CodeFingerprint>, key: (nat, nat)): set<nat>
    requires WellFormed(fps)
  {
    set i: nat | i < |fps| && InBucket(hash, fps[i], key)
  }

  lemma {:induction false} BucketSize(hash: (nat, nat) -> nat, fps: seq<CodeFingerprint>, n: nat, key: (nat, nat))
    requires WellFormed(fps) && n <= |fps|
    ensures |Bucket(hash, fps, n, key)| == |set i: nat | i < n && InBucket(hash, fps[i], key)|
  {
    hide InBucket;
    if n > 0 {
      BucketSize(hash, fps, n - 1, key);
      var front, all := set i: nat | i < n - 1 && InBucket(hash, fps[i], key), set i: nat | i < n && InBucket(hash, fps[i], key);
      assert all == front + (if InBucket(hash, fps[n - 1], key) then {n - 1} else {});
    }
  }

  lemma {:induction false} SharesMeans(hash: (nat, nat) -> nat, fps: seq<CodeFingerprint>, l: nat, r: nat)
    requires WellFormed(fps) && l < r < |fps|
    ensures (l, r) in Candidates(hash, fps) <==> SharesBucket(hash, fps, l, r)
  {
    hide InBucket, Bucket;
    forall key ensures MeetIn(hash, fps, l, r, key) <==> TogetherIn(hash, fps, l, r, key) {
      BucketSize(hash, fps, |fps|, key);
      assert MembersOf(hash, fps, key) == set i: nat | i < |fps| && InBucket(hash, fps[i], key);
    }
  }

  lemma {:induction false} EmitStep(fps: seq<CodeFingerprint>, allowed: set<(nat, nat)>, l: nat, r: nat, st: Emitted)
    requires WellFormed(fps) && r <= |fps| && l < |fps|
    ensures EmitFrom(fps, allowed, l, r, st) ==
            if r == |fps| then EmitFrom(fps, allowed, l + 1, if l + 2 <= |fps| then l + 2 else |fps|, st)
            else EmitFrom(fps, allowed, l, r + 1, if (l, r) in allowed then Visit(fps, st, l, r) else st)
  {
    hide Visit;
  }

  lemma {:induction false} EmitEnd(fps: seq<CodeFingerprint>, allowed: set<(nat, nat)>, l: nat, r: nat, st: Emitted)
    requires WellFormed(fps) && r <= |fps| && l >= |fps|
    ensures EmitFrom(fps, allowed, l, r, st) == st
  {
  }

  method CollectPairs(hash: (nat, nat) -> nat, fps: seq<CodeFingerprint>, buckets: map<(nat, nat), seq<nat>>) returns (pairs: set<(nat, nat)>)
    requires WellFormed(fps) && forall key :: Stored(buckets, key) == Bucket(hash, fps, |fps|, key)
    ensures pairs == Candidates(hash, fps)
  {
    hide Bucket, InBucket;
    pairs := {};
    var todo := buckets.Keys;
    while todo != {}
      invariant todo <= buckets.Keys
      invariant forall l, r :: (l, r) in pairs <==> 0 <= l < r < |fps| && exists key :: key in buckets.Keys - todo && MeetIn(hash, fps, l, r, key)
    {
      var key :| key in todo;
      ghost var before, seen := pairs, buckets.Keys - todo;
      todo := todo - {key};
      var bucket := buckets[key];
      assert bucket == Stored(buckets, key);
      BucketMembers(hash, fps, |fps|, key);
      if SmallBucket(bucket) {
        pairs := ExpandBucket(bucket, pairs);
      }
      assert buckets.Keys - todo == seen + {key};
    }
    forall l, r | 0 <= l < r < |fps| ensures (l, r) in pairs <==> Shares(hash, fps, l, r) {
      if Shares(hash, fps, l, r) {
        var key :| MeetIn(hash, fps, l, r, key);
        assert Stored(buckets, key) == Bucket(hash, fps, |fps|, key);
        assert key in buckets.Keys - todo;
      }
    }
    assert forall e :: e in pairs ==> e == (e.0, e.1) && e.0 < e.1 < |fps|;
    assert forall e :: e in pairs <==> e in Candidates(hash, fps);
  }
}
