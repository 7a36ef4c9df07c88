/** From publication to the reader. */
module EventRuns {
  // What a client yields of an open connection, and of two connections in a row, however their bytes
  // are cut into chunks.
  import opened CodeUnits
  import opened CanonicalJson
  import opened Utf8
  import opened EventStream
  import opened EventDelivery
  import opened EventHub

  function Bodies(ns: seq<Notification>): (r: seq<Json>)
    ensures |r| == |ns| && forall i :: 0 <= i < |r| ==> r[i] == ns[i].body
  {
    seq(|ns|, i requires 0 <= i < |ns| => ns[i].body)
  }

  /** The notifications among what a client yields. */
  function Received(items: seq<Item>): seq<Json> {
    if items == [] then [] else ReceivedOf(items[0]) + Received(items[1..])
  }

  function ReceivedOf(item: Item): seq<Json> { if item.Note? then [item.notification] else [] }

  lemma {:induction false} ReceivedAppend(a: seq<Item>, b: seq<Item>)
    ensures Received(a + b) == Received(a) + Received(b)
  {
    if a == [] {
      assert a + b == b;
    } else {
      assert (a + b)[1..] == a[1..] + b;
      ReceivedAppend(a[1..], b);
      Regroup(ReceivedOf(a[0]), Received(a[1..]), Received(b));
    }
  }

  lemma {:induction false} ItemsAppend(a: seq<Frame>, b: seq<Frame>)
    ensures Items(a + b) == Items(a) + Items(b)
  {
    if a == [] {
      assert a + b == b;
    } else {
      assert (a + b)[1..] == a[1..] + b;
      ItemsAppend(a[1..], b);
    }
  }

  lemma ReceivedOne(f: Frame)
    ensures Received(Items([f])) == if f.Notify? then [f.body] else []
  {
    assert [f][1..] == [];
  }

  /** Heartbeats and gaps aside, a client that yields the items of some frames has received the
      notifications written. */
  lemma {:induction false} NotesAreReceived(fs: seq<Frame>)
    ensures Received(Items(fs)) == Bodies(Notes(fs))
  {
    if fs != [] {
      var init, last := fs[..|fs| - 1], fs[|fs| - 1];
      assert fs == init + [last];
      NotesAreReceived(init);
      ItemsAppend(init, [last]);
      ReceivedAppend(Items(init), Items([last]));
      ReceivedOne(last);
    }
  }

  /** The bytes of these frames reach a client in these chunks, within its limit. */
  ghost predicate Delivered(k: Contract, maxBytes: nat, fs: seq<Frame>, chunks: seq<Bytes>) {
    && ReadsPrinted(k) && AllSound(k, fs)
    && Concat(chunks) == Encode(WireAll(fs)) && !Overflow(fs, 0, chunks, maxBytes)
  }

  lemma DeliveredIsReceived(k: Contract, maxBytes: nat, fs: seq<Frame>, chunks: seq<Bytes>)
    requires Delivered(k, maxBytes, fs, chunks)
    ensures Run(k, maxBytes, START, chunks).end == Finished
    ensures Received(Run(k, maxBytes, START, chunks).items) == Bodies(Notes(fs))
  {
    ServerFramesArrive(k, fs, chunks, maxBytes);
    NotesAreReceived(fs);
  }

  /** The client of an open connection receives exactly the published history from the connection's
      start to the newest notification. */
  lemma ClientReceivesTheRun(hub: Hub, c: EventConnection, k: Contract, maxBytes: nat, chunks: seq<Bytes>)
    requires hub.Valid() && c in hub.connections && Delivered(k, maxBytes, c.written, chunks)
    ensures Run(k, maxBytes, START, chunks).end == Finished
    ensures Received(Run(k, maxBytes, START, chunks).items) == Bodies(hub.history[c.start..])
  {
    assert hub.Follows(c);
    DeliveredIsReceived(k, maxBytes, c.written, chunks);
  }

  /** A client that has received the history from `from` up to `to` reconnects with the last id it saw,
      when `history` has been published, and stays connected until `later`: what it receives on the two
      connections is the whole run, each notification once, provided its last notification was still
      retained when it came back. */
  lemma SessionsJoin(k: Contract, maxBytes: nat, history: seq<Notification>, later: seq<Notification>, capacity: nat,
                     from: nat, to: nat, fs: seq<Frame>, gs: seq<Frame>, chunks: seq<Bytes>, more: seq<Bytes>)
    requires DistinctIds(history) && history <= later && capacity >= 1 && from < to <= |history|
    requires Notes(fs) == history[from..to] && Delivered(k, maxBytes, fs, chunks)
    requires Notes(gs) == later[StartOf(history, capacity, Some(history[to - 1].id))..] && Delivered(k, maxBytes, gs, more)
    requires to + capacity > |history|
    ensures Received(Run(k, maxBytes, START, chunks).items) + Received(Run(k, maxBytes, START, more).items) ==
      Bodies(later[from..])
  {
    Resumes(history, capacity, to);
    DeliveredIsReceived(k, maxBytes, fs, chunks);
    DeliveredIsReceived(k, maxBytes, gs, more);
    BodiesJoin(history, later, from, to);
  }

  lemma Resumes(history: seq<Notification>, capacity: nat, to: nat)
    requires DistinctIds(history) && capacity >= 1 && 1 <= to <= |history| && to + capacity > |history|
    ensures StartOf(history, capacity, Some(history[to - 1].id)) == to
  {
    ReconnectResumes(history, capacity, to);
  }

  lemma BodiesJoin(history: seq<Notification>, later: seq<Notification>, from: nat, to: nat)
    requires from <= to <= |history| && history <= later
    ensures Bodies(history[from..to]) + Bodies(later[to..]) == Bodies(later[from..])
  {
  }
}
