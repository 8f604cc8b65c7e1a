/** The retention store: class-aware FIFO eviction under a TTL and byte quotas. */
module Retention {
  import opened Wrappers

  const USIZE_MAX: nat := 0xFFFF_FFFF_FFFF_FFFF

  datatype RetentionPolicy = RetentionPolicy(ttl: nat, maxRecords: nat, maxBytes: nat)

  datatype RetentionError = DuplicateKey | CapacityExceeded | ArithmeticOverflow

  /** Instants and durations are counted in nanoseconds. */
  datatype RetainedRecord<K, V, C> = RetainedRecord(
    key: K, class_: C, value: V, createdAt: nat, ttl: nat, retainedBytes: nat)

  datatype RetentionCandidate<K, V, C> = RetentionCandidate(
    key: K, class_: C, policy: RetentionPolicy, retainedBytes: nat, value: V)

  // ---------------------------------------------------------------- specification

  predicate IsDue<K, V, C>(record: RetainedRecord<K, V, C>, now: nat) {
    (if now <= record.createdAt then 0 else now - record.createdAt) >= record.ttl
  }

  /** The records that are due (`due`) or are not (`!due`), in order. */
  function Split<K, V, C>(records: seq<RetainedRecord<K, V, C>>, now: nat, due: bool): seq<RetainedRecord<K, V, C>> {
    if records == [] then []
    else if IsDue(records[0], now) == due then [records[0]] + Split(records[1..], now, due)
    else Split(records[1..], now, due)
  }

  function TotalBytes<K, V, C>(records: seq<RetainedRecord<K, V, C>>): nat {
    if records == [] then 0 else records[0].retainedBytes + TotalBytes(records[1..])
  }

  function OfClass<K, V, C(==)>(records: seq<RetainedRecord<K, V, C>>, class_: C): seq<RetainedRecord<K, V, C>> {
    if records == [] then []
    else if records[0].class_ == class_ then [records[0]] + OfClass(records[1..], class_)
    else OfClass(records[1..], class_)
  }

  /** The store after its `count` oldest records of a class are gone. */
  function DropOldest<K, V, C(==)>(records: seq<RetainedRecord<K, V, C>>, class_: C, count: nat): seq<RetainedRecord<K, V, C>> {
    if records == [] || count == 0 then records
    else if records[0].class_ == class_ then DropOldest(records[1..], class_, count - 1)
    else [records[0]] + DropOldest(records[1..], class_, count)
  }

  predicate ClassFits<K, V, C(==)>(records: seq<RetainedRecord<K, V, C>>, candidate: RetentionCandidate<K, V, C>) {
    var mine := OfClass(records, candidate.class_);
    |mine| < candidate.policy.maxRecords && TotalBytes(mine) + candidate.retainedBytes <= candidate.policy.maxBytes
  }

  /** `n` is the least number of records to take from the front of `mine` until the rest fits. */
  ghost predicate LeastClassEviction<K, V, C>(
    records: seq<RetainedRecord<K, V, C>>, candidate: RetentionCandidate<K, V, C>, n: nat)
  {
    && n <= |OfClass(records, candidate.class_)|
    && ClassFits(DropOldest(records, candidate.class_, n), candidate)
    && NoneFitsBefore(records, candidate, n)
  }

  ghost predicate NoneFitsBefore<K, V, C>(
    records: seq<RetainedRecord<K, V, C>>, candidate: RetentionCandidate<K, V, C>, n: nat)
  {
    forall m: nat :: m < n ==> !ClassFits(DropOldest(records, candidate.class_, m), candidate)
  }

  ghost predicate LeastAggregateEviction<K, V, C>(records: seq<RetainedRecord<K, V, C>>, room: nat, n: nat) {
    && n <= |records|
    && TotalBytes(records[n..]) <= room
    && forall m: nat :: m < n ==> TotalBytes(records[m..]) > room
  }

  /** Which candidates are turned away, decided before anything is touched. */
  function InsertError<K(==), V, C(==)>(
    records: seq<RetainedRecord<K, V, C>>, aggregateMaxBytes: nat, fixedBytes: nat, candidate: RetentionCandidate<K, V, C>)
    : Option<RetentionError>
  {
    if exists i :: 0 <= i < |records| && records[i].key == candidate.key then Some(DuplicateKey)
    else if candidate.policy.ttl == 0 || candidate.policy.maxRecords == 0 || candidate.policy.maxBytes == 0
            || aggregateMaxBytes == 0 then Some(CapacityExceeded)
    else if candidate.retainedBytes > candidate.policy.maxBytes then Some(CapacityExceeded)
    else if fixedBytes + candidate.retainedBytes > USIZE_MAX then Some(ArithmeticOverflow)
    else if fixedBytes + candidate.retainedBytes > aggregateMaxBytes then Some(CapacityExceeded)
    else if fixedBytes + TotalBytes(records) + candidate.retainedBytes > USIZE_MAX then Some(ArithmeticOverflow)
    else None
  }

  function RecordOf<K, V, C>(candidate: RetentionCandidate<K, V, C>, now: nat): RetainedRecord<K, V, C> {
    RetainedRecord(candidate.key, candidate.class_, candidate.value, now, candidate.policy.ttl, candidate.retainedBytes)
  }

  /** What a successful insert does: all due records go, then the shortest oldest-first run of the
      candidate's class, then the shortest oldest-first run of everything, and the candidate comes last. */
  ghost predicate Inserted<K, V, C>(
    before: seq<RetainedRecord<K, V, C>>, now: nat, aggregateMaxBytes: nat, fixedBytes: nat,
    candidate: RetentionCandidate<K, V, C>,
    after: seq<RetainedRecord<K, V, C>>, removed: seq<RetainedRecord<K, V, C>>, classEvicted: nat, evicted: nat)
  {
    var live := Split(before, now, false);
    var fitting := DropOldest(live, candidate.class_, classEvicted);
    && fixedBytes + candidate.retainedBytes <= aggregateMaxBytes
    && LeastClassEviction(live, candidate, classEvicted)
    && LeastAggregateEviction(fitting, aggregateMaxBytes - fixedBytes - candidate.retainedBytes, evicted)
    && after == fitting[evicted..] + [RecordOf(candidate, now)]
    && removed == Split(before, now, true) + OfClass(live, candidate.class_)[..classEvicted] + fitting[..evicted]
  }

  /** A record is due from `ttl` after its creation on; one without a time to live is always due. */
  lemma DueFrom<K, V, C>(record: RetainedRecord<K, V, C>, now: nat)
    ensures IsDue(record, now) <==> record.ttl == 0 || now >= record.createdAt + record.ttl
  {
  }

  /** Of the records created by now, those as old as their time to live have left, and the others stay. */
  ghost predicate PartedByAge<K, V, C>(
    before: seq<RetainedRecord<K, V, C>>, now: nat, kept: seq<RetainedRecord<K, V, C>>, gone: seq<RetainedRecord<K, V, C>>)
  {
    forall r :: r in before && r.createdAt <= now ==>
      (r in gone <==> now - r.createdAt >= r.ttl) && (r in kept <==> now - r.createdAt < r.ttl)
  }

  lemma SplitPartsByAge<K, V, C>(records: seq<RetainedRecord<K, V, C>>, now: nat)
    ensures PartedByAge(records, now, Split(records, now, false), Split(records, now, true))
  {
    SplitSelects(records, now, true);
    SplitSelects(records, now, false);
    hide Split;
  }

  // ---------------------------------------------------------------- arithmetic of the specification

  lemma {:induction false} TotalBytesAppend<K, V, C>(a: seq<RetainedRecord<K, V, C>>, b: seq<RetainedRecord<K, V, C>>)
    ensures TotalBytes(a + b) == TotalBytes(a) + TotalBytes(b)
  {
    if a == [] { assert a + b == b; }
    else {
      assert (a + b)[1..] == a[1..] + b;
      TotalBytesAppend(a[1..], b);
    }
  }

  lemma BytesOfOne<K, V, C>(record: RetainedRecord<K, V, C>)
    ensures TotalBytes([record]) == record.retainedBytes
  {
  }

  lemma TotalBytesRemove<K, V, C>(records: seq<RetainedRecord<K, V, C>>, index: nat)
    requires index < |records|
    ensures TotalBytes(records) == TotalBytes(records[..index] + records[index + 1..]) + records[index].retainedBytes
  {
    hide *;
    var head, record, tail := records[..index], records[index], records[index + 1..];
    TotalBytesAppend(head, [record] + tail);
    TotalBytesAppend(head, tail);
    TotalBytesAppend([record], tail);
    BytesOfOne(record);
    assert records == head + ([record] + tail);
  }

  lemma {:induction false} OfClassBounded<K, V, C>(records: seq<RetainedRecord<K, V, C>>, class_: C)
    ensures TotalBytes(OfClass(records, class_)) <= TotalBytes(records)
    ensures |OfClass(records, class_)| <= |records|
    ensures OfClass(records, class_) == [] <==> forall i :: 0 <= i < |records| ==> records[i].class_ != class_
  {
    if records != [] {
      OfClassBounded(records[1..], class_);
      assert forall i :: 0 < i < |records| ==> records[i] == records[1..][i - 1];
    }
  }

  /** Position `index` holds the first record of the class. */
  predicate FirstAt<K, V, C(==)>(records: seq<RetainedRecord<K, V, C>>, class_: C, index: nat) {
    index < |records| && records[index].class_ == class_ && forall i :: 0 <= i < index ==> records[i].class_ != class_
  }

  lemma FirstAtTail<K, V, C>(record: RetainedRecord<K, V, C>, rest: seq<RetainedRecord<K, V, C>>, class_: C, index: nat)
    requires FirstAt([record] + rest, class_, index) && record.class_ != class_
    ensures 0 < index && FirstAt(rest, class_, index - 1)
  {
    var all := [record] + rest;
    forall i | 0 <= i < index - 1 ensures rest[i].class_ != class_ { assert all[i + 1].class_ != class_; }
  }

  lemma FirstAtInside<K, V, C>(records: seq<RetainedRecord<K, V, C>>, class_: C, index: nat)
    requires FirstAt(records, class_, index)
    ensures index < |records|
  {
  }

  /** Dropping one more of a class removes its first remaining record. */
  lemma {:induction false} DropOneMore<K, V, C>(records: seq<RetainedRecord<K, V, C>>, class_: C, count: nat, index: nat)
    requires FirstAt(DropOldest(records, class_, count), class_, index)
    ensures var left := DropOldest(records, class_, count);
      index < |left| && DropOldest(records, class_, count + 1) == left[..index] + left[index + 1..]
  {
    hide *;
    var left := DropOldest(records, class_, count);
    FirstAtInside(left, class_, index);
    DropNone(records, class_, count);
    if count == 0 {
      DropFirst(records, class_, index);
    } else {
      DropStep(records, class_, count);
      DropStep(records, class_, count + 1);
      if records[0].class_ == class_ {
        DropOneMore(records[1..], class_, count - 1, index);
      } else {
        var rest := DropOldest(records[1..], class_, count);
        FirstAtTail(records[0], rest, class_, index);
        DropOneMore(records[1..], class_, count, index - 1);
        ConsWithout(records[0], rest, index - 1);
      }
    }
  }

  lemma DropNone<K, V, C>(records: seq<RetainedRecord<K, V, C>>, class_: C, count: nat)
    ensures DropOldest(records, class_, 0) == records
    ensures DropOldest(records, class_, count) != [] ==> records != []
  {
  }

  lemma DropStep<K, V, C>(records: seq<RetainedRecord<K, V, C>>, class_: C, count: nat)
    requires records != [] && count > 0
    ensures DropOldest(records, class_, count) ==
      if records[0].class_ == class_ then DropOldest(records[1..], class_, count - 1)
      else [records[0]] + DropOldest(records[1..], class_, count)
  {
  }

  lemma ConsWithout<X>(x: X, rest: seq<X>, index: nat)
    requires index < |rest|
    ensures ([x] + rest)[..index + 1] + ([x] + rest)[index + 2..] == [x] + (rest[..index] + rest[index + 1..])
  {
  }

  lemma {:induction false} DropFirst<K, V, C>(records: seq<RetainedRecord<K, V, C>>, class_: C, index: nat)
    requires FirstAt(records, class_, index)
    ensures index < |records| && DropOldest(records, class_, 1) == records[..index] + records[index + 1..]
  {
    if index > 0 {
      DropFirst(records[1..], class_, index - 1);
      assert records[..index] == [records[0]] + records[1..][..index - 1];
    } else {
      assert records[..0] + records[1..] == records[1..];
    }
  }

  lemma {:induction false} OfClassAfterDrop<K, V, C>(records: seq<RetainedRecord<K, V, C>>, class_: C, count: nat)
    requires count <= |OfClass(records, class_)|
    ensures OfClass(DropOldest(records, class_, count), class_) == OfClass(records, class_)[count..]
  {
    if records != [] && count > 0 {
      if records[0].class_ == class_ {
        OfClassAfterDrop(records[1..], class_, count - 1);
      } else {
        OfClassAfterDrop(records[1..], class_, count);
        assert DropOldest(records, class_, count)[1..] == DropOldest(records[1..], class_, count);
      }
    }
  }

  lemma {:induction false} DropConserves<K, V, C>(records: seq<RetainedRecord<K, V, C>>, class_: C, count: nat)
    requires count <= |OfClass(records, class_)|
    ensures multiset(records) == multiset(DropOldest(records, class_, count)) + multiset(OfClass(records, class_)[..count])
  {
    if records != [] && count > 0 {
      assert records == [records[0]] + records[1..];
      var mine, rest := OfClass(records, class_), OfClass(records[1..], class_);
      if records[0].class_ == class_ {
        DropConserves(records[1..], class_, count - 1);
        assert mine[..count] == [records[0]] + rest[..count - 1];
      } else {
        DropConserves(records[1..], class_, count);
      }
    }
  }

  lemma {:induction false} SplitConserves<K, V, C>(records: seq<RetainedRecord<K, V, C>>, now: nat)
    ensures multiset(records) == multiset(Split(records, now, true)) + multiset(Split(records, now, false))
  {
    if records != [] {
      var rest := records[1..];
      SplitConserves(rest, now);
      SplitCons(records[0], rest, now);
      assert records == [records[0]] + rest;
    }
  }

  lemma {:induction false} SplitShrinks<K, V, C>(records: seq<RetainedRecord<K, V, C>>, now: nat)
    ensures TotalBytes(Split(records, now, false)) <= TotalBytes(records)
    ensures |Split(records, now, false)| <= |records|
  {
    if records != [] {
      var rest := records[1..];
      SplitShrinks(rest, now);
      SplitCons(records[0], rest, now);
      assert records == [records[0]] + rest;
    }
  }

  lemma SplitCons<K, V, C>(record: RetainedRecord<K, V, C>, rest: seq<RetainedRecord<K, V, C>>, now: nat)
    ensures Split([record] + rest, now, IsDue(record, now)) == [record] + Split(rest, now, IsDue(record, now))
    ensures Split([record] + rest, now, !IsDue(record, now)) == Split(rest, now, !IsDue(record, now))
  {
    assert ([record] + rest)[1..] == rest;
  }

  lemma {:induction false} SplitSelects<K, V, C>(records: seq<RetainedRecord<K, V, C>>, now: nat, due: bool)
    ensures forall r :: r in Split(records, now, due) <==> r in records && IsDue(r, now) == due
  {
    if records != [] {
      SplitSelects(records[1..], now, due);
      assert records == [records[0]] + records[1..];
    }
  }

  /** How far the expiry loop has come: what stays, what is left to look at, and what has been removed. */
  ghost predicate ExpiredSoFar<K, V, C>(
    all: seq<RetainedRecord<K, V, C>>, now: nat,
    kept: seq<RetainedRecord<K, V, C>>, rest: seq<RetainedRecord<K, V, C>>, removed: seq<RetainedRecord<K, V, C>>)
  {
    kept + Split(rest, now, false) == Split(all, now, false) && removed + Split(rest, now, true) == Split(all, now, true)
  }

  lemma ExpireOne<K, V, C>(
    all: seq<RetainedRecord<K, V, C>>, now: nat,
    kept: seq<RetainedRecord<K, V, C>>, rest: seq<RetainedRecord<K, V, C>>, removed: seq<RetainedRecord<K, V, C>>)
    requires ExpiredSoFar(all, now, kept, rest, removed) && rest != []
    ensures IsDue(rest[0], now) ==> ExpiredSoFar(all, now, kept, rest[1..], removed + [rest[0]])
    ensures !IsDue(rest[0], now) ==> ExpiredSoFar(all, now, kept + [rest[0]], rest[1..], removed)
  {
    if IsDue(rest[0], now) {
      assert removed + ([rest[0]] + Split(rest[1..], now, true)) == (removed + [rest[0]]) + Split(rest[1..], now, true);
    } else {
      assert kept + ([rest[0]] + Split(rest[1..], now, false)) == (kept + [rest[0]]) + Split(rest[1..], now, false);
    }
  }

  lemma ExpiredAll<K, V, C>(
    all: seq<RetainedRecord<K, V, C>>, now: nat, kept: seq<RetainedRecord<K, V, C>>, removed: seq<RetainedRecord<K, V, C>>)
    ensures ExpiredSoFar(all, now, [], all, [])
    ensures ExpiredSoFar(all, now, kept, [], removed) ==> kept == Split(all, now, false) && removed == Split(all, now, true)
  {
  }

  /** Whatever an insert removes, it removes once and nothing else is lost. */
  lemma InsertConserves<K, V, C>(
    before: seq<RetainedRecord<K, V, C>>, now: nat, aggregateMaxBytes: nat, fixedBytes: nat,
    candidate: RetentionCandidate<K, V, C>,
    after: seq<RetainedRecord<K, V, C>>, removed: seq<RetainedRecord<K, V, C>>, classEvicted: nat, evicted: nat)
    requires Inserted(before, now, aggregateMaxBytes, fixedBytes, candidate, after, removed, classEvicted, evicted)
    ensures multiset(before) + multiset{RecordOf(candidate, now)} == multiset(after) + multiset(removed)
  {
    var live := Split(before, now, false);
    var fitting := DropOldest(live, candidate.class_, classEvicted);
    var due, mine, added := Split(before, now, true), OfClass(live, candidate.class_), [RecordOf(candidate, now)];
    SplitConserves(before, now);
    DropConserves(live, candidate.class_, classEvicted);
    hide Split, OfClass, DropOldest;
    assert fitting == fitting[..evicted] + fitting[evicted..];
    MultisetOf(due, mine[..classEvicted], fitting[..evicted]);
    assert multiset(added) == multiset{RecordOf(candidate, now)};
    assert multiset(after) == multiset(fitting[evicted..]) + multiset(added);
  }

  lemma MultisetOf<X>(a: seq<X>, b: seq<X>, c: seq<X>)
    ensures multiset(a + b + c) == multiset(a) + multiset(b) + multiset(c)
  {
  }

  /** After an insert every limit holds, and only the candidate can be stale. */
  lemma InsertMeetsLimits<K, V, C>(
    before: seq<RetainedRecord<K, V, C>>, now: nat, aggregateMaxBytes: nat, fixedBytes: nat,
    candidate: RetentionCandidate<K, V, C>,
    after: seq<RetainedRecord<K, V, C>>, removed: seq<RetainedRecord<K, V, C>>, classEvicted: nat, evicted: nat)
    requires Inserted(before, now, aggregateMaxBytes, fixedBytes, candidate, after, removed, classEvicted, evicted)
    ensures fixedBytes + TotalBytes(after) <= aggregateMaxBytes
    ensures |OfClass(after, candidate.class_)| <= candidate.policy.maxRecords
    ensures TotalBytes(OfClass(after, candidate.class_)) <= candidate.policy.maxBytes
    ensures forall i :: 0 <= i < |after| - 1 ==> after[i] in before && after[i].ttl > 0 && now < after[i].createdAt + after[i].ttl
  {
    var live := Split(before, now, false);
    var fitting := DropOldest(live, candidate.class_, classEvicted);
    DropConserves(live, candidate.class_, classEvicted);
    TotalBytesAppend(fitting[evicted..], [RecordOf(candidate, now)]);
    ClassStillFits(fitting, candidate, evicted, now);
    SplitSelects(before, now, false);
    forall i | 0 <= i < |after| - 1 ensures after[i] in before && after[i].ttl > 0 && now < after[i].createdAt + after[i].ttl {
      assert after[i] in multiset(fitting) && after[i] in multiset(live);
      DueFrom(after[i], now);
    }
  }

  /** Dropping from the front leaves room in the class for the candidate. */
  lemma ClassStillFits<K, V, C>(fitting: seq<RetainedRecord<K, V, C>>, candidate: RetentionCandidate<K, V, C>, evicted: nat, now: nat)
    requires evicted <= |fitting| && ClassFits(fitting, candidate)
    ensures var mine := OfClass(fitting[evicted..] + [RecordOf(candidate, now)], candidate.class_);
      |mine| <= candidate.policy.maxRecords && TotalBytes(mine) <= candidate.policy.maxBytes
  {
    var c := candidate.class_;
    var gone, kept, added := fitting[..evicted], fitting[evicted..], [RecordOf(candidate, now)];
    assert fitting == gone + kept;
    OfClassAppend(gone, kept, c);
    TotalBytesAppend(OfClass(gone, c), OfClass(kept, c));
    OfClassAppend(kept, added, c);
    TotalBytesAppend(OfClass(kept, c), OfClass(added, c));
    assert OfClass(added, c) == added;
    assert TotalBytes(added) == candidate.retainedBytes;
  }

  lemma OfClassCons<K, V, C>(record: RetainedRecord<K, V, C>, rest: seq<RetainedRecord<K, V, C>>, class_: C)
    ensures OfClass([record] + rest, class_) == (if record.class_ == class_ then [record] else []) + OfClass(rest, class_)
  {
    assert ([record] + rest)[1..] == rest;
  }

  lemma {:induction false} OfClassAppend<K, V, C>(a: seq<RetainedRecord<K, V, C>>, b: seq<RetainedRecord<K, V, C>>, class_: C)
    ensures OfClass(a + b, class_) == OfClass(a, class_) + OfClass(b, class_)
  {
    if a == [] {
      assert a + b == b;
    } else {
      hide OfClass;
      OfClassAppend(a[1..], b, class_);
      assert a == [a[0]] + a[1..] && a + b == [a[0]] + (a[1..] + b);
      OfClassCons(a[0], a[1..], class_);
      OfClassCons(a[0], a[1..] + b, class_);
    }
  }

  /** The evictions are forced: no other pair of lengths satisfies the specification. */
  lemma InsertIsDetermined<K, V, C>(
    before: seq<RetainedRecord<K, V, C>>, now: nat, aggregateMaxBytes: nat, fixedBytes: nat,
    candidate: RetentionCandidate<K, V, C>,
    after1: seq<RetainedRecord<K, V, C>>, removed1: seq<RetainedRecord<K, V, C>>, c1: nat, e1: nat,
    after2: seq<RetainedRecord<K, V, C>>, removed2: seq<RetainedRecord<K, V, C>>, c2: nat, e2: nat)
    requires Inserted(before, now, aggregateMaxBytes, fixedBytes, candidate, after1, removed1, c1, e1)
    requires Inserted(before, now, aggregateMaxBytes, fixedBytes, candidate, after2, removed2, c2, e2)
    ensures after1 == after2 && removed1 == removed2
  {
    assert !(c1 < c2) && !(c2 < c1);
    assert !(e1 < e2) && !(e2 < e1);
  }

  /** The guard of the class eviction loop says that the store does not fit yet. */
  lemma OneMoreNeeded<K, V, C>(records: seq<RetainedRecord<K, V, C>>, candidate: RetentionCandidate<K, V, C>, count: nat)
    requires candidate.retainedBytes <= candidate.policy.maxBytes && candidate.policy.maxRecords > 0
    requires var mine := OfClass(records, candidate.class_);
      && count <= |mine|
      && (|mine| - count >= candidate.policy.maxRecords
          || TotalBytes(mine[count..]) > candidate.policy.maxBytes - candidate.retainedBytes)
    requires NoneFitsBefore(records, candidate, count)
    ensures count < |OfClass(records, candidate.class_)| && NoneFitsBefore(records, candidate, count + 1)
  {
    OfClassAfterDrop(records, candidate.class_, count);
  }

  lemma EnoughDropped<K, V, C>(records: seq<RetainedRecord<K, V, C>>, candidate: RetentionCandidate<K, V, C>, count: nat)
    requires candidate.retainedBytes <= candidate.policy.maxBytes
    requires var mine := OfClass(records, candidate.class_);
      && count <= |mine| && |mine| - count < candidate.policy.maxRecords
      && TotalBytes(mine[count..]) <= candidate.policy.maxBytes - candidate.retainedBytes
    requires NoneFitsBefore(records, candidate, count)
    ensures LeastClassEviction(records, candidate, count)
  {
    OfClassAfterDrop(records, candidate.class_, count);
  }

  /** What is turned away: a key that is taken, a policy without room, a record too large for its class or for the
      store were it empty, and sums that do not fit a usize. */
  lemma RefusedIff<K, V, C>(
    records: seq<RetainedRecord<K, V, C>>, aggregateMaxBytes: nat, fixedBytes: nat, candidate: RetentionCandidate<K, V, C>)
    requires aggregateMaxBytes <= USIZE_MAX
    ensures InsertError(records, aggregateMaxBytes, fixedBytes, candidate).None? <==>
      && (forall r :: r in records ==> r.key != candidate.key)
      && candidate.policy.ttl > 0 && candidate.policy.maxRecords > 0
      && 0 < candidate.policy.maxBytes && candidate.retainedBytes <= candidate.policy.maxBytes
      && 0 < aggregateMaxBytes && fixedBytes + candidate.retainedBytes <= aggregateMaxBytes
      && fixedBytes + TotalBytes(records + [RecordOf(candidate, 0)]) <= USIZE_MAX
    ensures InsertError(records, aggregateMaxBytes, fixedBytes, candidate) == Some(DuplicateKey) <==>
      exists r :: r in records && r.key == candidate.key
    ensures InsertError(records, aggregateMaxBytes, fixedBytes, candidate) == Some(ArithmeticOverflow) ==>
      fixedBytes + TotalBytes(records + [RecordOf(candidate, 0)]) > USIZE_MAX
  {
    TotalBytesAppend(records, [RecordOf(candidate, 0)]);
    assert TotalBytes([RecordOf(candidate, 0)]) == candidate.retainedBytes;
    assert (exists i :: 0 <= i < |records| && records[i].key == candidate.key) <==> exists r :: r in records && r.key == candidate.key;
  }

  lemma HeadAndTail<X>(s: seq<X>, index: nat)
    requires index < |s|
    ensures s[index..] != [] && s[index..][0] == s[index] && s[index..][1..] == s[index + 1..]
    ensures s[..index + 1] == s[..index] + [s[index]]
  {
  }

  lemma WithoutOne<X>(kept: seq<X>, rest: seq<X>, s: seq<X>, index: nat)
    requires rest != [] && |kept| == index && s == kept + rest[1..]
    ensures s[..index] == kept && s[index..] == rest[1..]
  {
  }

  // ---------------------------------------------------------------- the store

  class RetainedStore<K(==), V, C(==)> {
    const aggregateMaxBytes: nat
    var records: seq<RetainedRecord<K, V, C>>
    var retainedBytes: nat

    /** The cached byte count is the true one, and fits a usize. */
    ghost predicate Valid()
      reads this
    {
      retainedBytes == TotalBytes(records) <= USIZE_MAX && aggregateMaxBytes <= USIZE_MAX && |records| < USIZE_MAX
    }

    constructor (aggregateMaxBytes: nat)
      requires aggregateMaxBytes <= USIZE_MAX
      ensures Valid() && records == [] && this.aggregateMaxBytes == aggregateMaxBytes
    {
      this.aggregateMaxBytes := aggregateMaxBytes;
      records, retainedBytes := [], 0;
    }

    method Clear()
      requires Valid()
      modifies this
      ensures Valid() && records == []
    {
      records, retainedBytes := [], 0;
    }

    method RemoveAt(index: nat) returns (record: RetainedRecord<K, V, C>)
      requires Valid() && index < |records|
      modifies this
      ensures Valid() && record == old(records)[index]
      ensures records == old(records)[..index] + old(records)[index + 1..]
      ensures retainedBytes + record.retainedBytes == old(retainedBytes)
    {
      record := records[index];
      TotalBytesRemove(records, index);
      records := records[..index] + records[index + 1..];
      retainedBytes := retainedBytes - record.retainedBytes;
    }

    method Expire(now: nat) returns (removed: seq<RetainedRecord<K, V, C>>)
      requires Valid()
      modifies this
      ensures Valid()
      ensures records == Split(old(records), now, false)
      ensures removed == Split(old(records), now, true)
      ensures PartedByAge(old(records), now, records, removed)
    {
      hide *;
      SplitPartsByAge(records, now);
      removed := [];
      var index := 0;
      ghost var all := records;
      ExpiredAll(all, now, records, removed);
      assert records[..0] == [] && records[0..] == records;
      while index < |records|
        invariant Valid() && index <= |records|
        invariant ExpiredSoFar(all, now, records[..index], records[index..], removed)
        decreases |records| - index
      {
        var record := records[index];
        ghost var kept, rest := records[..index], records[index..];
        ExpireOne(all, now, kept, rest, removed);
        HeadAndTail(records, index);
        if IsDue(record, now) {
          var gone := RemoveAt(index);
          WithoutOne(kept, rest, records, index);
          removed := removed + [gone];
        } else {
          index := index + 1;
        }
      }
      assert records[index..] == [] && records[..index] == records;
      ExpiredAll(all, now, records, removed);
    }

    method Get(key: K) returns (value: Option<V>)
      ensures value.Some? ==> exists i ::
        && 0 <= i < |records| && records[i].key == key && value.value == records[i].value
        && forall j :: 0 <= j < i ==> records[j].key != key
      ensures value.None? ==> forall i :: 0 <= i < |records| ==> records[i].key != key
    {
      for i := 0 to |records|
        invariant forall j :: 0 <= j < i ==> records[j].key != key
      {
        if records[i].key == key {
          return Some(records[i].value);
        }
      }
      return None;
    }

    /** The unchecked sums of class_usage stay within what is stored. */
    method ClassUsage(class_: C) returns (count: nat, bytes: nat)
      requires Valid()
      ensures count == |OfClass(records, class_)| <= |records|
      ensures bytes == TotalBytes(OfClass(records, class_)) <= retainedBytes
    {
      count, bytes := 0, 0;
      for i := 0 to |records|
        invariant count == |OfClass(records[..i], class_)|
        invariant bytes == TotalBytes(OfClass(records[..i], class_))
      {
        assert records[..i + 1] == records[..i] + [records[i]];
        OfClassAppend(records[..i], [records[i]], class_);
        TotalBytesAppend(OfClass(records[..i], class_), OfClass([records[i]], class_));
        if records[i].class_ == class_ {
          count, bytes := count + 1, bytes + records[i].retainedBytes;
        }
      }
      assert records[..|records|] == records;
      OfClassBounded(records, class_);
    }

    /** Either nothing changes, or the specification of an insert is met. */
    method Insert(now: nat, fixedBytes: nat, candidate: RetentionCandidate<K, V, C>)
      returns (result: Result<seq<RetainedRecord<K, V, C>>, RetentionError>, ghost classEvicted: nat, ghost evicted: nat)
      requires Valid() && |records| + 1 < USIZE_MAX
      modifies this
      ensures Valid()
      ensures result.Failure? <==> InsertError(old(records), aggregateMaxBytes, fixedBytes, candidate).Some?
      ensures result.Failure? ==>
        && records == old(records)
        && result.error == InsertError(old(records), aggregateMaxBytes, fixedBytes, candidate).value
      ensures result.Success? ==>
        Inserted(old(records), now, aggregateMaxBytes, fixedBytes, candidate, records, result.value, classEvicted, evicted)
    {
      classEvicted, evicted := 0, 0;
      var duplicate := Get(candidate.key);
      if duplicate.Some? {
        return Failure(DuplicateKey), 0, 0;
      }
      var policy := candidate.policy;
      if policy.ttl == 0 || policy.maxRecords == 0 || policy.maxBytes == 0 || aggregateMaxBytes == 0 {
        return Failure(CapacityExceeded), 0, 0;
      }
      if candidate.retainedBytes > policy.maxBytes {
        return Failure(CapacityExceeded), 0, 0;
      }
      if fixedBytes + candidate.retainedBytes > USIZE_MAX {
        return Failure(ArithmeticOverflow), 0, 0;
      }
      if fixedBytes + candidate.retainedBytes > aggregateMaxBytes {
        return Failure(CapacityExceeded), 0, 0;
      }
      var usedCount, usedBytes := ClassUsage(candidate.class_);
      if usedCount + 1 > USIZE_MAX || usedBytes + candidate.retainedBytes > USIZE_MAX {
        return Failure(ArithmeticOverflow), 0, 0;
      }
      if retainedBytes + candidate.retainedBytes > USIZE_MAX
         || fixedBytes + (retainedBytes + candidate.retainedBytes) > USIZE_MAX {
        return Failure(ArithmeticOverflow), 0, 0;
      }

      SplitShrinks(records, now);
      var removed := Expire(now);
      ghost var live := records;
      var classRemoved, aggregateRemoved;
      classRemoved, classEvicted := MakeClassRoom(candidate);
      ghost var fitting := records;
      aggregateRemoved, evicted := MakeRoom(aggregateMaxBytes - fixedBytes - candidate.retainedBytes);
      TotalBytesAppend(records, [RecordOf(candidate, now)]);
      retainedBytes := retainedBytes + candidate.retainedBytes;
      records := records + [RecordOf(candidate, now)];
      result := Success(removed + classRemoved + aggregateRemoved);
      assert Inserted(old(records), now, aggregateMaxBytes, fixedBytes, candidate, records, result.value, classEvicted, evicted);
    }

    /** `position`: the oldest record of a class that is present. */
    method FirstOfClass(class_: C) returns (index: nat)
      requires OfClass(records, class_) != []
      ensures index < |records| && records[index] == OfClass(records, class_)[0] && records[index].class_ == class_
      ensures forall i :: 0 <= i < index ==> records[i].class_ != class_
    {
      OfClassBounded(records, class_);
      index := 0;
      while records[index].class_ != class_
        invariant index < |records|
        invariant forall i :: 0 <= i < index ==> records[i].class_ != class_
        decreases |records| - index
      {
        index := index + 1;
      }
      OfClassBounded(records[..index], class_);
      assert records == records[..index] + records[index..];
      OfClassAppend(records[..index], records[index..], class_);
    }

    /** One turn of the class eviction loop. */
    method EvictOneOfClass(class_: C, ghost start: seq<RetainedRecord<K, V, C>>, ghost count: nat)
      returns (record: RetainedRecord<K, V, C>)
      requires Valid() && count < |OfClass(start, class_)| && records == DropOldest(start, class_, count)
      modifies this
      ensures Valid() && records == DropOldest(start, class_, count + 1) && |records| < |old(records)|
      ensures record == OfClass(start, class_)[count]
      ensures retainedBytes <= old(retainedBytes)
    {
      OfClassAfterDrop(start, class_, count);
      var index := FirstOfClass(class_);
      DropOneMore(start, class_, count, index);
      record := RemoveAt(index);
    }

    /** The class eviction loop. */
    method MakeClassRoom(candidate: RetentionCandidate<K, V, C>)
      returns (removed: seq<RetainedRecord<K, V, C>>, ghost count: nat)
      requires Valid() && candidate.policy.maxRecords > 0 && candidate.retainedBytes <= candidate.policy.maxBytes
      modifies this
      ensures Valid() && LeastClassEviction(old(records), candidate, count)
      ensures records == DropOldest(old(records), candidate.class_, count) && |records| <= |old(records)|
      ensures removed == OfClass(old(records), candidate.class_)[..count]
      ensures retainedBytes <= old(retainedBytes)
    {
      ghost var mine := OfClass(records, candidate.class_);
      var classCount, classBytes := ClassUsage(candidate.class_);
      removed, count := [], 0;
      assert records == DropOldest(records, candidate.class_, 0);
      hide DropOldest, OfClass, ClassFits, NoneFitsBefore;
      while classCount >= candidate.policy.maxRecords
            || classBytes > candidate.policy.maxBytes - candidate.retainedBytes
        invariant Valid() && |records| <= |old(records)| && retainedBytes <= old(retainedBytes)
        invariant count <= |mine| && records == DropOldest(old(records), candidate.class_, count)
        invariant removed == mine[..count]
        invariant classCount == |mine| - count && classBytes == TotalBytes(mine[count..])
        invariant NoneFitsBefore(old(records), candidate, count)
        decreases |records|
      {
        OneMoreNeeded(old(records), candidate, count);
        assert mine[count..][1..] == mine[count + 1..];
        var record := EvictOneOfClass(candidate.class_, old(records), count);
        classCount := classCount - 1;
        classBytes := classBytes - record.retainedBytes;
        removed := removed + [record];
        count := count + 1;
      }
      EnoughDropped(old(records), candidate, count);
    }

    /** The aggregate eviction loop. */
    method MakeRoom(room: nat) returns (removed: seq<RetainedRecord<K, V, C>>, ghost count: nat)
      requires Valid()
      modifies this
      ensures Valid() && retainedBytes <= room && LeastAggregateEviction(old(records), room, count)
      ensures records == old(records)[count..] && removed == old(records)[..count]
    {
      removed, count := [], 0;
      while retainedBytes > room
        invariant Valid() && count <= |old(records)|
        invariant records == old(records)[count..] && removed == old(records)[..count]
        invariant forall m: nat :: m < count ==> TotalBytes(old(records)[m..]) > room
        decreases |records|
      {
        var record := RemoveAt(0);
        removed := removed + [record];
        count := count + 1;
      }
    }
  }
}
