/** The server's side of the event stream. */
module EventHub {
  // The retained notifications, the open connections and what is written to them.
  import opened CodeUnits
  import opened CanonicalJson
  import opened Utf8
  import opened EventDelivery

  datatype Notification = Notification(id: Text, kind: Text, body: Json)

  function FrameOf(n: Notification): Frame { Notify(n.id, n.kind, n.body) }

  function FramesOf(ns: seq<Notification>): (r: seq<Frame>)
    ensures |r| == |ns| && forall i :: 0 <= i < |r| ==> r[i] == FrameOf(ns[i])
  {
    seq(|ns|, i requires 0 <= i < |ns| => FrameOf(ns[i]))
  }

  /** The notifications among some frames. */
  function Notes(fs: seq<Frame>): seq<Notification> {
    if fs == [] then []
    else
      var init, last := fs[..|fs| - 1], fs[|fs| - 1];
      if last.Notify? then Notes(init) + [Notification(last.id, last.kind, last.body)] else Notes(init)
  }

  function Size(f: Frame): nat { |Encode(Wire(f))| }

  function Sizes(fs: seq<Frame>): nat { if fs == [] then 0 else Size(fs[0]) + Sizes(fs[1..]) }

  lemma OneFrame(f: Frame)
    ensures [] + [f] == [f] && Sizes([f]) == Size(f)
  {
    assert [f][1..] == [];
  }

  predicate DistinctIds(ns: seq<Notification>) {
    forall i, j :: 0 <= i < j < |ns| ==> ns[i].id != ns[j].id
  }

  // ---------------------------------------------------------------- specification

  /** The newest notifications, as many as are retained. */
  function Retained(history: seq<Notification>, capacity: nat): seq<Notification> {
    if |history| <= capacity then history else history[|history| - capacity..]
  }

  function IndexOfId(ns: seq<Notification>, id: Text): (r: Option<nat>)
    ensures r.Some? ==> r.value < |ns| && ns[r.value].id == id && forall i :: 0 <= i < r.value ==> ns[i].id != id
    ensures r.None? ==> forall i :: 0 <= i < |ns| ==> ns[i].id != id
  {
    if ns == [] then None
    else if ns[0].id == id then Some(0)
    else
      match IndexOfId(ns[1..], id)
      case None => None
      case Some(i) => Some(i + 1)
  }

  /** What a new connection is written at once, given the retained notifications and its last id. */
  function Backlog(retained: seq<Notification>, lastId: Option<Text>): seq<Frame> {
    if lastId.None? || retained == [] then []
    else
      match IndexOfId(retained, lastId.value)
      case None => [GapFrame]
      case Some(i) => FramesOf(retained[i + 1..])
  }

  /** Where in the history the run of a new connection starts. */
  function StartOf(history: seq<Notification>, capacity: nat, lastId: Option<Text>): nat {
    if lastId.None? then |history|
    else
      match IndexOfId(Retained(history, capacity), lastId.value)
      case None => |history|
      case Some(i) => |history| - |Retained(history, capacity)| + i + 1
  }

  lemma StartsInHistory(history: seq<Notification>, capacity: nat, lastId: Option<Text>)
    ensures StartOf(history, capacity, lastId) <= |history|
    ensures Notes(Backlog(Retained(history, capacity), lastId)) == history[StartOf(history, capacity, lastId)..]
  {
    var retained := Retained(history, capacity);
    if lastId.Some? && retained != [] {
      var i := IndexOfId(retained, lastId.value);
      if i.Some? {
        NotesOfFrames(retained[i.value + 1..]);
        RetainedTail(history, capacity, i.value + 1);
      } else {
        NoNotes();
      }
    }
  }

  lemma NoNotes()
    ensures Notes([GapFrame]) == []
  {
    assert [GapFrame][..0] == [];
  }

  lemma RetainedTail(history: seq<Notification>, capacity: nat, i: nat)
    requires i <= |Retained(history, capacity)|
    ensures Retained(history, capacity)[i..] == history[|history| - |Retained(history, capacity)| + i..]
  {
  }

  lemma RetainedAt(history: seq<Notification>, capacity: nat)
    ensures var retained := Retained(history, capacity);
      |retained| <= |history| && forall i :: 0 <= i < |retained| ==> retained[i] == history[|history| - |retained| + i]
  {
  }

  lemma {:induction false} NotesOfFrames(ns: seq<Notification>)
    ensures Notes(FramesOf(ns)) == ns
  {
    if ns != [] {
      var init := ns[..|ns| - 1];
      NotesOfFrames(init);
      assert FramesOf(ns)[..|ns| - 1] == FramesOf(init);
      assert ns == init + [ns[|ns| - 1]];
    }
  }

  /** A reconnect after any notification ever published, `next` being the position after it, resumes
      right there, or is told of a gap; it is told so exactly when the notification is no longer
      retained. */
  lemma ReconnectResumes(history: seq<Notification>, capacity: nat, next: nat)
    requires DistinctIds(history) && capacity >= 1 && 1 <= next <= |history|
    ensures var lastId := Some(history[next - 1].id);
      var frames := Backlog(Retained(history, capacity), lastId);
      if next + capacity > |history| then frames == FramesOf(history[next..]) && StartOf(history, capacity, lastId) == next
      else frames == [GapFrame]
  {
    var first := |history| - |Retained(history, capacity)|;
    if next > first {
      RetainedIsFound(history, capacity, next - 1 - first, next);
    } else {
      EvictedIsNotFound(history, capacity, next - 1);
    }
  }

  lemma RetainedIsFound(history: seq<Notification>, capacity: nat, i: nat, next: nat)
    requires DistinctIds(history) && i < |Retained(history, capacity)|
    requires next == |history| - |Retained(history, capacity)| + i + 1
    ensures var lastId := Some(history[next - 1].id);
      Backlog(Retained(history, capacity), lastId) == FramesOf(history[next..]) && StartOf(history, capacity, lastId) == next
  {
    RetainedDistinct(history, capacity, i);
    BacklogAfter(Retained(history, capacity), i);
    RetainedTail(history, capacity, i + 1);
  }

  lemma BacklogAfter(retained: seq<Notification>, i: nat)
    requires i < |retained| && DistinctIds(retained)
    ensures IndexOfId(retained, retained[i].id) == Some(i)
    ensures Backlog(retained, Some(retained[i].id)) == FramesOf(retained[i + 1..])
  {
    FoundAt(retained, i);
  }

  lemma RetainedDistinct(history: seq<Notification>, capacity: nat, i: nat)
    requires DistinctIds(history) && i < |Retained(history, capacity)|
    ensures DistinctIds(Retained(history, capacity))
    ensures Retained(history, capacity)[i] == history[|history| - |Retained(history, capacity)| + i]
  {
    RetainedAt(history, capacity);
  }

  lemma EvictedIsNotFound(history: seq<Notification>, capacity: nat, p: nat)
    requires DistinctIds(history) && p < |history| - |Retained(history, capacity)|
    ensures IndexOfId(Retained(history, capacity), history[p].id) == None
  {
    RetainedAt(history, capacity);
  }

  lemma FoundAt(ns: seq<Notification>, i: nat)
    requires i < |ns| && DistinctIds(ns)
    ensures IndexOfId(ns, ns[i].id) == Some(i)
  {
  }

  /** An id that was never published is answered with a gap iff anything has been published: only
      before the startup publication is it passed over in silence. */
  lemma UnknownIdIsGap(history: seq<Notification>, capacity: nat, id: Text)
    requires capacity >= 1 && forall i :: 0 <= i < |history| ==> history[i].id != id
    ensures Backlog(Retained(history, capacity), Some(id)) == if history != [] then [GapFrame] else []
  {
    RetainedAt(history, capacity);
  }

  /** Two connections in a row, the second with the last id of the first: together they have written one
      contiguous run of the history, without hole or repeat, unless the second starts with a gap. */
  lemma ReconnectIsSeamless(history: seq<Notification>, capacity: nat, from: nat, to: nat)
    requires DistinctIds(history) && capacity >= 1 && from < to <= |history|
    ensures var frames := Backlog(Retained(history, capacity), Some(history[to - 1].id));
      frames == [GapFrame] || history[from..to] + Notes(frames) == history[from..]
  {
    ReconnectResumes(history, capacity, to);
    RunContinues(history, from, to);
  }

  lemma RunContinues(history: seq<Notification>, from: nat, to: nat)
    requires from <= to <= |history|
    ensures history[from..to] + Notes(FramesOf(history[to..])) == history[from..]
  {
    NotesOfFrames(history[to..]);
    Slices(history, from, to);
  }

  lemma Slices<T>(s: seq<T>, from: nat, to: nat)
    requires from <= to <= |s|
    ensures s[from..to] + s[to..] == s[from..]
  {
  }

  lemma RetainedGrows(history: seq<Notification>, capacity: nat, n: Notification)
    requires capacity >= 1
    ensures var pushed := Retained(history, capacity) + [n];
      Retained(history + [n], capacity) == if |pushed| > capacity then pushed[1..] else pushed
  {
  }

  lemma NotesAppend(fs: seq<Frame>, f: Frame)
    ensures Notes(fs + [f]) == if f.Notify? then Notes(fs) + [Notification(f.id, f.kind, f.body)] else Notes(fs)
  {
    assert (fs + [f])[..|fs|] == fs;
  }

  /** The notifications of the first frames are the first notifications. */
  lemma {:induction false} NotesOfPrefix(a: seq<Frame>, b: seq<Frame>)
    requires a <= b
    ensures Notes(a) <= Notes(b)
    decreases |b|
  {
    if |a| < |b| {
      NotesOfPrefix(a, b[..|b| - 1]);
    } else {
      assert a == b;
    }
  }

  // ---------------------------------------------------------------- the running server

  class EventConnection {
    var bufferedBytes: nat
    /** What has been handed to the response, in order. */
    var written: seq<Frame>
    /** Where in the published history this connection's run starts. */
    ghost var start: nat

    constructor ()
      ensures bufferedBytes == 0 && written == []
    {
      bufferedBytes, written := 0, [];
    }

    /** `writeSseFrame` */
    method WriteFrame(f: Frame, maxBuffered: nat) returns (ok: bool)
      requires bufferedBytes <= maxBuffered
      modifies this`bufferedBytes, this`written
      ensures ok <==> old(bufferedBytes) + Size(f) <= maxBuffered
      ensures bufferedBytes == old(bufferedBytes) + (if ok then Size(f) else 0) && bufferedBytes <= maxBuffered
      ensures written == if ok then old(written) + [f] else old(written)
    {
      var bytes := |Encode(Wire(f))|;
      if bufferedBytes + bytes > maxBuffered {
        return false;
      }
      bufferedBytes := bufferedBytes + bytes;
      written := written + [f];
      ok := bufferedBytes <= maxBuffered;
    }

    /** The callback of a write: so many bytes have left the buffer. */
    method Flushed(bytes: nat)
      modifies this`bufferedBytes
      ensures bufferedBytes <= old(bufferedBytes)
      ensures bufferedBytes == if bytes <= old(bufferedBytes) then old(bufferedBytes) - bytes else 0
    {
      bufferedBytes := if bytes <= bufferedBytes then bufferedBytes - bytes else 0;
    }
  }

  datatype Served = Refused | Closed | Open

  class Hub {
    const connectionCapacity: nat
    const retentionCapacity: nat
    const maxBuffered: nat
    var notifications: seq<Notification>
    var connections: set<EventConnection>
    /** Everything ever published. */
    ghost var history: seq<Notification>

    /** An open connection has been written exactly the history from its start to the newest, and its
        buffer is within bounds. */
    ghost predicate Follows(c: EventConnection)
      reads this, c
    {
      FollowsIn(c, history)
    }

    ghost predicate FollowsIn(c: EventConnection, published: seq<Notification>)
      reads c
    {
      c.bufferedBytes <= maxBuffered && c.start <= |published| && Notes(c.written) == published[c.start..]
    }

    /** A closed connection has been written the history from its start up to some point. */
    ghost predicate Followed(c: EventConnection)
      reads this, c
    {
      FollowedIn(c, history)
    }

    ghost predicate FollowedIn(c: EventConnection, published: seq<Notification>)
      reads c
    {
      c.start <= |published| && Notes(c.written) <= published[c.start..]
    }

    /** The backlog of a connection with this last id fits its buffer. */
    predicate HasRoom(lastId: Option<Text>)
      reads this
    {
      Sizes(Backlog(notifications, lastId)) <= maxBuffered
    }

    /** The connection has been written its backlog, and its run starts where that starts. */
    ghost predicate Started(c: EventConnection, lastId: Option<Text>)
      reads this, c
    {
      c.written == Backlog(notifications, lastId) && c.start == StartOf(history, retentionCapacity, lastId)
    }

    ghost predicate Valid()
      reads this, connections
    {
      && retentionCapacity >= 1
      && DistinctIds(history) && notifications == Retained(history, retentionCapacity)
      && |connections| <= connectionCapacity
      && forall c :: c in connections ==> Follows(c)
    }

    constructor (connectionCapacity: nat, retentionCapacity: nat, maxBuffered: nat)
      requires retentionCapacity >= 1
      ensures Valid() && history == [] && connections == {}
      ensures this.connectionCapacity == connectionCapacity && this.retentionCapacity == retentionCapacity
      ensures this.maxBuffered == maxBuffered
    {
      this.connectionCapacity, this.retentionCapacity, this.maxBuffered := connectionCapacity, retentionCapacity, maxBuffered;
      notifications, connections, history := [], {}, [];
    }

    /** `closeEventConnection` */
    method Close(c: EventConnection)
      modifies this`connections
      ensures connections == old(connections) - {c} && |connections| <= |old(connections)|
      ensures old(Valid()) ==> Valid()
    {
      var was := connections;
      connections := connections - {c};
      if c in was {
        assert |connections| == |was| - 1;
      } else {
        assert connections == was;
      }
    }

    /** The heartbeat timer of an open connection. */
    method Heartbeat(c: EventConnection)
      requires Valid() && c in connections
      modifies this`connections, c`bufferedBytes, c`written
      ensures Valid()
      ensures connections == old(connections) || connections == old(connections) - {c}
      ensures Follows(c) && Sent(c, EventDelivery.Heartbeat, c in connections)
    {
      NotesAppend(c.written, EventDelivery.Heartbeat);
      var ok := Send(c, EventDelivery.Heartbeat);
    }

    /** A write callback of an open connection. */
    method Flush(c: EventConnection, bytes: nat)
      requires Valid() && c in connections
      modifies c`bufferedBytes
      ensures Valid()
      ensures c.bufferedBytes == if bytes <= old(c.bufferedBytes) then old(c.bufferedBytes) - bytes else 0
    {
      c.Flushed(bytes);
    }

    /** `publishNotification`, of a notification with a fresh id. */
    method Publish(n: Notification)
      requires Valid() && forall i :: 0 <= i < |history| ==> history[i].id != n.id
      modifies this`notifications, this`connections, this`history, connections
      ensures Valid() && history == old(history) + [n]
      ensures connections <= old(connections)
      ensures forall c :: c in old(connections) ==>
        (c in connections <==> old(c.bufferedBytes) + Size(FrameOf(n)) <= maxBuffered)
      ensures forall c :: c in connections ==> c.written == old(c.written) + [FrameOf(n)] && c.start == old(c.start)
      ensures forall c :: c in old(connections) && c !in connections ==>
        Followed(c) && c.written == old(c.written) && c.start == old(c.start)
    {
      Retain(n);
      assert forall c :: c in connections ==> old(Follows(c));
      assert forall c :: c in connections ==> FollowsIn(c, old(history));
      Broadcast(n, old(history));
    }

    /** The newest notification to every open connection; those whose buffer has no room are closed. */
    method Broadcast(n: Notification, ghost before: seq<Notification>)
      requires history == before + [n] && |connections| <= connectionCapacity
      requires forall c :: c in connections ==> FollowsIn(c, before)
      modifies this`connections, connections
      ensures connections <= old(connections) && |connections| <= connectionCapacity
      ensures forall c :: c in old(connections) ==>
        (c in connections <==> old(c.bufferedBytes) + Size(FrameOf(n)) <= maxBuffered)
      ensures forall c :: c in connections ==>
        Follows(c) && c.written == old(c.written) + [FrameOf(n)] && c.start == old(c.start)
      ensures forall c :: c in old(connections) && c !in connections ==>
        Followed(c) && c.written == old(c.written) && c.start == old(c.start)
    {
      SendToAll(FrameOf(n));
      SubsetSize(connections, old(connections));
      forall c | c in old(connections)
        ensures Sent(c, FrameOf(n), c in connections) && if c in connections then Follows(c) else Followed(c)
      {
        assert old(FollowsIn(c, before));
        NotesAppend(old(c.written), FrameOf(n));
        NextInRun(before, n, c.start);
      }
    }

    /** The connection was written the frame, or else had no room for it. */
    twostate predicate Sent(c: EventConnection, f: Frame, open: bool)
      reads c
    {
      && c.start == old(c.start) && c.bufferedBytes <= maxBuffered
      && (open <==> old(c.bufferedBytes) + Size(f) <= maxBuffered)
      && c.written == if open then old(c.written) + [f] else old(c.written)
    }

    /** The loop over the open connections. */
    method SendToAll(f: Frame)
      requires forall c :: c in connections ==> c.bufferedBytes <= maxBuffered
      modifies this`connections, connections
      ensures connections <= old(connections)
      ensures forall c :: c in old(connections) ==> Sent(c, f, c in connections)
    {
      var todo := connections;
      while todo != {}
        modifies this`connections, old(connections)
        invariant todo <= connections <= old(connections)
        invariant forall c :: c in todo ==> unchanged(c)
        invariant forall c :: c in old(connections) && c !in todo ==> Sent(c, f, c in connections)
        decreases todo
      {
        var c :| c in todo;
        todo := todo - {c};
        var ok := Send(c, f);
      }
    }

    /** A frame to one open connection, which is closed when its buffer has no room. */
    method Send(c: EventConnection, f: Frame) returns (ok: bool)
      requires c in connections && c.bufferedBytes <= maxBuffered
      modifies this`connections, c`bufferedBytes, c`written
      ensures Sent(c, f, ok)
      ensures connections == if ok then old(connections) else old(connections) - {c}
    {
      ok := c.WriteFrame(f, maxBuffered);
      if !ok {
        Close(c);
      }
    }

    /** The retained notifications, after one more. */
    method Retain(n: Notification)
      requires retentionCapacity >= 1 && DistinctIds(history) && notifications == Retained(history, retentionCapacity)
      requires forall i :: 0 <= i < |history| ==> history[i].id != n.id
      modifies this`notifications, this`history
      ensures history == old(history) + [n] && DistinctIds(history) && notifications == Retained(history, retentionCapacity)
    {
      RetainedGrows(history, retentionCapacity, n);
      DistinctGrows(history, n);
      history := history + [n];
      notifications := notifications + [n];
      while |notifications| > retentionCapacity
        modifies this`notifications
        invariant |notifications| > retentionCapacity ==> Retained(history, retentionCapacity) == notifications[1..]
        invariant |notifications| <= retentionCapacity ==> Retained(history, retentionCapacity) == notifications
        invariant |notifications| <= retentionCapacity + 1
      {
        notifications := notifications[1..];
      }
    }

    /** `serveEvents`: a new connection, and what it is written at once. */
    method Serve(lastId: Option<Text>) returns (r: Served, c: EventConnection?)
      requires Valid()
      modifies this`connections
      ensures Valid() && history == old(history) && notifications == old(notifications)
      ensures r.Refused? <==> |old(connections)| >= connectionCapacity
      ensures !r.Refused? ==> (r.Open? <==> HasRoom(lastId))
      ensures !r.Open? ==> connections == old(connections)
      ensures r.Open? ==> c != null && fresh(c) && connections == old(connections) + {c}
      ensures r.Open? ==> Started(c, lastId)
      ensures r.Closed? ==> c != null && fresh(c) && Followed(c) && c.written < Backlog(notifications, lastId)
    {
      if |connections| >= connectionCapacity {
        return Refused, null;
      }
      c := new EventConnection();
      var others := connections;
      connections := others + {c};
      var ok := Start(c, lastId);
      assert forall d :: d in others ==> d != c && Follows(d);
      if !ok {
        Close(c);
        assert connections == others;
        return Closed, c;
      }
      r := Open;
    }

    /** Starts the run of a new connection. */
    method Start(c: EventConnection, lastId: Option<Text>) returns (ok: bool)
      requires c.bufferedBytes == 0 && c.written == [] && notifications == Retained(history, retentionCapacity)
      modifies c
      ensures ok <==> HasRoom(lastId)
      ensures ok ==> Follows(c) && Started(c, lastId)
      ensures !ok ==> Followed(c) && c.written < Backlog(notifications, lastId)
    {
      c.start := StartOf(history, retentionCapacity, lastId);
      StartsInHistory(history, retentionCapacity, lastId);
      ok := WriteBacklog(c, lastId);
      NotesOfPrefix(c.written, Backlog(notifications, lastId));
      assert FollowedIn(c, history);
    }

    /** What a new connection is written at once. */
    method WriteBacklog(c: EventConnection, lastId: Option<Text>) returns (ok: bool)
      requires c.bufferedBytes == 0 && c.written == []
      modifies c`bufferedBytes, c`written
      ensures ok <==> Sizes(Backlog(notifications, lastId)) <= maxBuffered
      ensures ok ==> c.written == Backlog(notifications, lastId) && c.bufferedBytes == Sizes(Backlog(notifications, lastId))
      ensures !ok ==> c.written < Backlog(notifications, lastId)
    {
      ok := true;
      ghost var frames := Backlog(notifications, lastId);
      if lastId.Some? && |notifications| > 0 {
        var index := IndexOfId(notifications, lastId.value);
        if index.None? {
          assert frames == [GapFrame];
          OneFrame(GapFrame);
          ok := c.WriteFrame(GapFrame, maxBuffered);
        } else {
          assert frames == FramesOf(notifications[index.value + 1..]);
          ok := WriteAll(c, notifications[index.value + 1..]);
        }
      }
    }

    /** The loop of `serveEvents` over the notifications after the last id. */
    method WriteAll(c: EventConnection, ns: seq<Notification>) returns (ok: bool)
      requires c.bufferedBytes == 0 && c.written == []
      modifies c`bufferedBytes, c`written
      ensures ok <==> Sizes(FramesOf(ns)) <= maxBuffered
      ensures ok ==> c.written == FramesOf(ns) && c.bufferedBytes == Sizes(FramesOf(ns))
      ensures !ok ==> c.written < FramesOf(ns)
    {
      ghost var frames := FramesOf(ns);
      var i := 0;
      Ends(frames);
      while i < |ns|
        invariant 0 <= i <= |ns| && c.written == frames[..i] && c.bufferedBytes <= maxBuffered
        invariant c.bufferedBytes + Sizes(frames[i..]) == Sizes(frames)
      {
        NextSize(frames, i);
        ProperPrefix(frames, i);
        var written := c.WriteFrame(FrameOf(ns[i]), maxBuffered);
        if !written {
          return false;
        }
        i := i + 1;
      }
      ok := true;
    }
  }

  lemma DistinctGrows(history: seq<Notification>, n: Notification)
    requires DistinctIds(history) && forall i :: 0 <= i < |history| ==> history[i].id != n.id
    ensures DistinctIds(history + [n])
  {
  }

  lemma NextTaken<T>(s: seq<T>, i: nat)
    requires i < |s|
    ensures s[..i + 1] == s[..i] + [s[i]] && s[i..][0] == s[i] && s[i..][1..] == s[i + 1..]
  {
  }

  lemma NextSize(fs: seq<Frame>, i: nat)
    requires i < |fs|
    ensures fs[..i + 1] == fs[..i] + [fs[i]] && Sizes(fs[i..]) == Size(fs[i]) + Sizes(fs[i + 1..])
  {
    NextTaken(fs, i);
  }

  lemma Ends<T>(s: seq<T>)
    ensures s[..0] == [] && s[0..] == s && s[..|s|] == s && s[|s|..] == []
  {
  }

  lemma {:induction false} SubsetSize<T>(a: set<T>, b: set<T>)
    requires a <= b
    ensures |a| <= |b|
  {
    if a != {} {
      var x :| x in a;
      SubsetSize(a - {x}, b - {x});
    }
  }

  lemma ProperPrefix<T>(s: seq<T>, i: nat)
    requires i < |s|
    ensures s[..i] < s
  {
  }

  lemma NextInRun(history: seq<Notification>, n: Notification, start: nat)
    requires start <= |history|
    ensures (history + [n])[start..] == history[start..] + [n]
    ensures history[start..] <= (history + [n])[start..]
  {
  }
}
