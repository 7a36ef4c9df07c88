/** `BoundedIdempotencyRegistry`. */
module Idempotency {
  // A map bounded by age and by number, against the log of everything it ever accepted.
  import opened CodeUnits

  datatype Row = Row(key: Text, payloadHash: Text, resultIdentity: Text, expiresAt: int)

  datatype Lookup = Miss | Replay(resultIdentity: Text) | Conflict

  // ---------------------------------------------------------------- specification

  function Unexpired(rows: seq<Row>, now: int): (r: seq<Row>)
    ensures forall x :: x in r <==> x in rows && x.expiresAt > now
    ensures |r| <= |rows|
  {
    if rows == [] then []
    else if rows[0].expiresAt > now then [rows[0]] + Unexpired(rows[1..], now)
    else Unexpired(rows[1..], now)
  }

  function Last(log: seq<Row>, capacity: nat): seq<Row> {
    if |log| <= capacity then log else log[|log| - capacity..]
  }

  /** What the registry remembers: of the last `capacity` records accepted, those not yet expired. */
  function Window(log: seq<Row>, capacity: nat, now: int): seq<Row> { Unexpired(Last(log, capacity), now) }

  function Answer(rows: seq<Row>, key: Text, payloadHash: Text): Lookup {
    if rows == [] then Miss
    else if rows[0].key != key then Answer(rows[1..], key, payloadHash)
    else if rows[0].payloadHash != payloadHash then Conflict
    else Replay(rows[0].resultIdentity)
  }

  predicate DistinctKeys(rows: seq<Row>) {
    forall i, j :: 0 <= i < j < |rows| ==> rows[i].key != rows[j].key
  }

  /** Later records expire later, or at the same time. */
  predicate Ageing(log: seq<Row>) {
    forall i, j :: 0 <= i < j < |log| ==> log[i].expiresAt <= log[j].expiresAt
  }

  // ---------------------------------------------------------------- the window

  lemma {:induction false} UnexpiredTwice(rows: seq<Row>, t: int, now: int)
    requires t <= now
    ensures Unexpired(Unexpired(rows, t), now) == Unexpired(rows, now)
  {
    if rows != [] {
      UnexpiredTwice(rows[1..], t, now);
      if rows[0].expiresAt > t {
        assert ([rows[0]] + Unexpired(rows[1..], t))[1..] == Unexpired(rows[1..], t);
      }
    }
  }

  lemma {:induction false} UnexpiredAppend(rows: seq<Row>, row: Row, now: int)
    requires row.expiresAt > now
    ensures Unexpired(rows + [row], now) == Unexpired(rows, now) + [row]
  {
    if rows == [] {
      assert [] + [row] == [row] && [row][1..] == [];
    } else {
      assert (rows + [row])[1..] == rows[1..] + [row];
      UnexpiredAppend(rows[1..], row, now);
    }
  }

  lemma {:induction false} AllUnexpired(rows: seq<Row>, now: int)
    requires forall i :: 0 <= i < |rows| ==> rows[i].expiresAt > now
    ensures Unexpired(rows, now) == rows
  {
    if rows != [] {
      AllUnexpired(rows[1..], now);
      assert [rows[0]] + rows[1..] == rows;
    }
  }

  lemma LastAges(log: seq<Row>, capacity: nat)
    requires Ageing(log) && capacity >= 1 && |log| >= capacity
    ensures forall i :: 0 <= i < capacity ==> Last(log, capacity)[0].expiresAt <= Last(log, capacity)[i].expiresAt
  {
    var last := Last(log, capacity);
    assert forall i :: 0 <= i < capacity ==> last[i] == log[|log| - capacity + i];
  }

  /** A full stretch of rows moves on by one. */
  lemma Slide(last: seq<Row>, now: int, row: Row)
    requires last != [] && row.expiresAt > now
    requires forall i :: 0 <= i < |last| ==> last[0].expiresAt <= last[i].expiresAt
    ensures var w := Unexpired(last, now);
      Unexpired(last[1..] + [row], now) == (if |w| >= |last| then w[1..] else w) + [row]
  {
    UnexpiredAppend(last[1..], row, now);
    if last[0].expiresAt > now {
      AllUnexpired(last, now);
      AllUnexpired(last[1..], now);
    }
  }

  lemma LastGrows(log: seq<Row>, capacity: nat, row: Row)
    requires capacity >= 1
    ensures Last(log + [row], capacity) == (if |log| >= capacity then Last(log, capacity)[1..] else Last(log, capacity)) + [row]
  {
  }

  /** A new record, after as many of the oldest rows as needed are evicted, gives the new window: when
      the map is full nothing in it has expired, and when it is not, the record that drops out of the
      last `capacity` had expired. */
  lemma WindowGrows(log: seq<Row>, capacity: nat, now: int, row: Row)
    requires capacity >= 1 && Ageing(log) && row.expiresAt > now
    ensures var w := Window(log, capacity, now);
      |w| <= capacity && Window(log + [row], capacity, now) == (if |w| >= capacity then w[1..] else w) + [row]
  {
    LastGrows(log, capacity, row);
    if |log| < capacity {
      UnexpiredAppend(log, row, now);
    } else {
      LastAges(log, capacity);
      Slide(Last(log, capacity), now, row);
    }
  }

  /** Every record expires by then. */
  predicate Within(log: seq<Row>, end: int) { forall r :: r in log ==> r.expiresAt <= end }

  lemma AgeingGrows(log: seq<Row>, row: Row)
    requires Ageing(log) && Within(log, row.expiresAt)
    ensures Ageing(log + [row]) && Within(log + [row], row.expiresAt)
  {
  }

  lemma {:induction false} AnswerFinds(rows: seq<Row>, key: Text, payloadHash: Text, i: nat)
    requires DistinctKeys(rows) && i < |rows| && rows[i].key == key
    ensures Answer(rows, key, payloadHash) == if rows[i].payloadHash == payloadHash then Replay(rows[i].resultIdentity) else Conflict
  {
    if i > 0 {
      AnswerFinds(rows[1..], key, payloadHash, i - 1);
    }
  }

  lemma {:induction false} AnswerMisses(rows: seq<Row>, key: Text, payloadHash: Text)
    ensures Answer(rows, key, payloadHash).Miss? <==> forall r :: r in rows ==> r.key != key
  {
    if rows != [] {
      AnswerMisses(rows[1..], key, payloadHash);
      assert forall r :: r in rows <==> r == rows[0] || r in rows[1..];
    }
  }

  /** A record is remembered exactly as long as it is unexpired and among the last `capacity`. */
  lemma RememberedWhileInWindow(log: seq<Row>, capacity: nat, now: int, i: nat, payloadHash: Text)
    requires DistinctKeys(Window(log, capacity, now)) && i < |log|
    requires i + capacity >= |log| && log[i].expiresAt > now
    ensures Answer(Window(log, capacity, now), log[i].key, payloadHash) ==
      if log[i].payloadHash == payloadHash then Replay(log[i].resultIdentity) else Conflict
  {
    var last := Last(log, capacity);
    assert last[i - (|log| - |last|)] == log[i];
    assert log[i] in Window(log, capacity, now);
    var j :| 0 <= j < |Window(log, capacity, now)| && Window(log, capacity, now)[j] == log[i];
    AnswerFinds(Window(log, capacity, now), log[i].key, payloadHash, j);
  }

  /** A key with no record in the window is a miss, whatever the log says of it further back. */
  lemma ForgottenOutsideWindow(log: seq<Row>, capacity: nat, now: int, key: Text, payloadHash: Text)
    ensures Answer(Window(log, capacity, now), key, payloadHash).Miss? <==>
      forall i :: 0 <= i < |log| && i + capacity >= |log| && log[i].expiresAt > now ==> log[i].key != key
  {
    AnswerMisses(Window(log, capacity, now), key, payloadHash);
    forall r
      ensures r in Window(log, capacity, now) <==>
        exists i :: 0 <= i < |log| && i + capacity >= |log| && log[i].expiresAt > now && log[i] == r
    {
      InWindow(log, capacity, now, r);
    }
  }

  lemma InWindow(log: seq<Row>, capacity: nat, now: int, r: Row)
    ensures r in Window(log, capacity, now) <==>
      exists i :: 0 <= i < |log| && i + capacity >= |log| && log[i].expiresAt > now && log[i] == r
  {
    var last := Last(log, capacity);
    if r in last {
      var j :| 0 <= j < |last| && last[j] == r;
      assert log[|log| - |last| + j] == r;
    }
    if i :| 0 <= i < |log| && i + capacity >= |log| && log[i].expiresAt > now && log[i] == r {
      assert last[i - (|log| - |last|)] == r;
    }
  }

  // ---------------------------------------------------------------- the registry

  datatype Recorded = Accepted | AlreadyRecorded | PayloadConflict

  class Registry {
    const capacity: nat
    const ttlMs: nat
    /** The map, in insertion order. */
    var entries: seq<Row>
    /** Everything ever accepted, and the latest time seen. */
    ghost var log: seq<Row>
    ghost var clock: int

    ghost predicate Valid()
      reads this
    {
      && capacity >= 1 && ttlMs >= 1
      && Ageing(log) && Within(log, clock + ttlMs)
      && entries == Window(log, capacity, clock) && DistinctKeys(entries)
    }

    constructor (capacity: nat, ttlMs: nat, ghost now: int)
      requires capacity >= 1 && ttlMs >= 1
      ensures Valid() && log == [] && clock == now && this.capacity == capacity && this.ttlMs == ttlMs
    {
      this.capacity, this.ttlMs := capacity, ttlMs;
      entries, log, clock := [], [], now;
    }

    /** `#prune`: a loop that deletes while it iterates. */
    method Prune(now: int)
      modifies this`entries
      ensures entries == Unexpired(old(entries), now)
    {
      var i := 0;
      ghost var kept: seq<Row>, rest := [], entries;
      NothingBefore(rest);
      NothingBefore(Unexpired(rest, now));
      while i < |entries|
        invariant i == |kept| && entries == kept + rest
        invariant Unexpired(old(entries), now) == kept + Unexpired(rest, now)
        decreases |rest|
      {
        PruneStep(kept, rest, now);
        if entries[i].expiresAt <= now {
          entries := entries[..i] + entries[i + 1..];
        } else {
          kept := kept + [rest[0]];
          i := i + 1;
        }
        rest := rest[1..];
      }
      NothingBefore(kept);
    }

    /** The map, seen at a later time. */
    method Advance(now: int)
      requires Valid() && now >= clock
      modifies this`entries, this`clock
      ensures Valid() && clock == now
    {
      UnexpiredTwice(Last(log, capacity), clock, now);
      ghost var was := entries;
      Prune(now);
      StaysDistinct(was, now);
      clock := now;
    }

    method Lookup(key: Text, payloadHash: Text, now: int) returns (r: Lookup)
      requires Valid() && now >= clock
      modifies this`entries, this`clock
      ensures Valid() && clock == now
      ensures r == Answer(Window(log, capacity, now), key, payloadHash)
    {
      Advance(now);
      r := Answer(entries, key, payloadHash);
    }

    method Record(key: Text, payloadHash: Text, resultIdentity: Text, now: int) returns (r: Recorded)
      requires Valid() && now >= clock
      modifies this`entries, this`log, this`clock
      ensures Valid() && clock == now
      ensures var answer := Answer(Window(old(log), capacity, now), key, payloadHash);
        && (r == Accepted <==> answer.Miss?) && (r == PayloadConflict <==> answer.Conflict?)
        && log == old(log) + if answer.Miss? then [Row(key, payloadHash, resultIdentity, now + ttlMs)] else []
    {
      Advance(now);
      var current := Lookup(key, payloadHash, now);
      if current.Conflict? {
        return PayloadConflict;
      }
      if current.Replay? {
        return AlreadyRecorded;
      }
      AnswerMisses(entries, key, payloadHash);
      Insert(Row(key, payloadHash, resultIdentity, now + ttlMs));
      r := Accepted;
    }

    /** The eviction loop and the insertion. */
    method Insert(row: Row)
      requires Valid() && row.expiresAt == clock + ttlMs && forall r :: r in entries ==> r.key != row.key
      modifies this`entries, this`log
      ensures Valid() && log == old(log) + [row]
    {
      WindowGrows(log, capacity, clock, row);
      AgeingGrows(log, row);
      ghost var window := entries;
      Evict();
      DistinctGrows(window, entries, row);
      entries := entries + [row];
      log := log + [row];
    }

    /** The eviction loop: the oldest rows leave until there is room for one. */
    method Evict()
      requires capacity >= 1 && |entries| <= capacity
      modifies this`entries
      ensures entries == if |old(entries)| >= capacity then old(entries)[1..] else old(entries)
    {
      while |entries| >= capacity
        invariant entries == old(entries) || (|old(entries)| == capacity && entries == old(entries)[1..])
        decreases |entries|
      {
        entries := entries[1..];
      }
    }

    method Size(now: int) returns (n: nat)
      requires Valid() && now >= clock
      modifies this`entries, this`clock
      ensures Valid() && clock == now && n == |Window(log, capacity, now)| && n <= capacity
    {
      Advance(now);
      n := |entries|;
    }
  }

  lemma DistinctGrows(window: seq<Row>, kept: seq<Row>, row: Row)
    requires DistinctKeys(window) && (forall r :: r in window ==> r.key != row.key)
    requires kept == window || (window != [] && kept == window[1..])
    ensures DistinctKeys(kept + [row])
  {
    forall i | 0 <= i < |kept|
      ensures kept[i].key != row.key
    {
      assert kept[i] in window;
    }
  }

  lemma Removed<T>(a: seq<T>, b: seq<T>)
    requires b != []
    ensures (a + b)[|a|] == b[0] && (a + b)[..|a|] + (a + b)[|a| + 1..] == a + b[1..]
  {
  }

  lemma Moved<T>(a: seq<T>, x: T, b: seq<T>)
    ensures a + ([x] + b) == a + [x] + b
  {
  }

  /** One round of the pruning loop, which stands after `kept` and before `rest`. */
  lemma NothingBefore<T>(s: seq<T>)
    ensures [] + s == s && s + [] == s
  {
  }

  lemma PruneStep(kept: seq<Row>, rest: seq<Row>, now: int)
    requires rest != []
    ensures (kept + rest)[|kept|] == rest[0]
    ensures (kept + rest)[..|kept|] + (kept + rest)[|kept| + 1..] == kept + rest[1..]
    ensures kept + rest == kept + [rest[0]] + rest[1..]
    ensures kept + Unexpired(rest, now) ==
      (if rest[0].expiresAt > now then kept + [rest[0]] else kept) + Unexpired(rest[1..], now)
  {
    Removed(kept, rest);
    Moved(kept, rest[0], rest[1..]);
    Moved(kept, rest[0], Unexpired(rest[1..], now));
    assert rest == [rest[0]] + rest[1..];
  }

  lemma {:induction false} StaysDistinct(rows: seq<Row>, now: int)
    requires DistinctKeys(rows)
    ensures DistinctKeys(Unexpired(rows, now))
  {
    if rows != [] {
      StaysDistinct(rows[1..], now);
      var u := Unexpired(rows[1..], now);
      forall i | 0 <= i < |u|
        ensures u[i].key != rows[0].key
      {
        assert u[i] in rows[1..];
      }
    }
  }
}
