/** The event stream on the wire. */
module EventStream {
  // The frames the server writes, and the client that decodes and frames them again from whatever pieces
  // arrive.
  import opened CodeUnits
  import opened CanonicalJson
  import opened CanonicalMeaning
  import opened Strings
  import opened Utf8

  const BYTE_ORDER_MARK: Unit := 0xFEFF
  const BLANK: Text := [NEWLINE, NEWLINE]
  const EVENT_FIELD: Text := Ascii("event: ")
  const DATA_FIELD: Text := Ascii("data: ")
  const ID_FIELD: Text := Ascii("id: ")
  const GAP: Text := Ascii("gap")
  const CODE: Text := Ascii("code")
  const RETENTION_GAP: Text := Ascii("CONTROL_SSE_RETENTION_GAP")
  const GAP_OBJECT: Json := Obj([Member(CODE, Str(RETENTION_GAP))])

  datatype Item = Gap | Note(notification: Json)

  /** What the client knows of notifications: a reader of JSON text, the contract, and a notification's
      kind. */
  datatype Contract = Contract(parse: Text -> Option<Json>, isNotification: Json -> bool, kind: Json -> Text)

  /** The reader reads back what `JSON.stringify` prints, as CanonicalJson.Parse does. */
  ghost predicate ReadsPrinted(k: Contract) {
    forall v: Json :: WellFormed(v) ==> k.parse(Stringify(v)) == Some(v)
  }

  /** The reader of CanonicalJson is such a reader, whatever is taken for a notification. */
  lemma ParseReadsPrinted(isNotification: Json -> bool, kind: Json -> Text)
    ensures ReadsPrinted(Contract(Parse, isNotification, kind))
  {
    forall v: Json | WellFormed(v)
      ensures Parse(Stringify(v)) == Some(v)
    {
      ReadsBack(v, []);
      assert Stringify(v) + [] == Stringify(v);
    }
  }

  // ---------------------------------------------------------------- frames

  /** `text.indexOf("\n\n")` */
  function Boundary(t: Text): (r: Option<nat>)
    ensures r.Some? ==> r.value + 2 <= |t|
  {
    if |t| < 2 then None
    else if t[0] == NEWLINE && t[1] == NEWLINE then Some(0)
    else
      match Boundary(t[1..])
      case None => None
      case Some(i) => Some(i + 1)
  }

  datatype Cut = Cut(frames: seq<Text>, rest: Text)

  function InFront(frames: seq<Text>, cut: Cut): Cut { Cut(frames + cut.frames, cut.rest) }

  /** The complete frames of a text, and what follows the last of them. */
  function CutFrames(t: Text): Cut
    decreases |t|
  {
    match Boundary(t)
    case None => Cut([], t)
    case Some(i) => InFront([t[..i]], CutFrames(t[i + 2..]))
  }

  /** The first line that starts with a field's name, without the name. */
  function Find(lines: seq<Text>, field: Text): Option<Text> {
    if lines == [] then None
    else if field <= lines[0] then Some(lines[0][|field|..])
    else Find(lines[1..], field)
  }

  datatype Handled = Yields(item: Item) | Nothing | Wrong

  /** What the client makes of one frame. */
  function Handle(k: Contract, frame: Text): Handled {
    var event, data := Find(Lines(frame), EVENT_FIELD), Find(Lines(frame), DATA_FIELD);
    if event == Some(GAP) then
      if data.Some? && k.parse(data.value) == Some(GAP_OBJECT) then Yields(Gap) else Wrong
    else if data.Some? then
      var parsed := k.parse(data.value);
      if parsed.None? || !k.isNotification(parsed.value) || event != Some(k.kind(parsed.value)) then Wrong
      else Yields(Note(parsed.value))
    else if frame != [] && frame[0] == COLON then Nothing
    else Wrong
  }

  datatype Consumed = Consumed(items: seq<Item>, ok: bool)

  /** The frames in order, up to the first that is wrong. */
  function Consume(k: Contract, frames: seq<Text>): Consumed {
    if frames == [] then Consumed([], true)
    else
      match Handle(k, frames[0])
      case Wrong => Consumed([], false)
      case Nothing => Consume(k, frames[1..])
      case Yields(item) => var others := Consume(k, frames[1..]); Consumed([item] + others.items, others.ok)
  }

  // ---------------------------------------------------------------- the client

  datatype Client = Client(pending: Text, atStart: bool, undecodedBytes: int, held: Bytes)

  const START: Client := Client([], true, 0, [])

  datatype End = Finished | InvalidUtf8 | TooLarge | InvalidEvent | TruncatedUtf8 | IncompleteFrame

  datatype Outcome = Outcome(items: seq<Item>, end: End)

  datatype Stepped = Go(client: Client, items: seq<Item>) | Stop(outcome: Outcome)

  function StripMark(t: Text): Text { if t != [] && t[0] == BYTE_ORDER_MARK then t[1..] else t }

  /** The text pending once a chunk's text has come. */
  function Pending(c: Client, text: Text): Text {
    c.pending + if c.atStart then StripMark(text) else text
  }

  /** One chunk. */
  function ReadChunk(k: Contract, maxBytes: nat, c: Client, chunk: Bytes): Stepped {
    match Decode(c.held + chunk)
    case Bad => Stop(Outcome([], InvalidUtf8))
    case Good(text, held) =>
      var undecodedBytes := c.undecodedBytes + |chunk| - |Encode(text)|;
      var pending := Pending(c, text);
      if |Encode(pending)| + undecodedBytes > maxBytes then Stop(Outcome([], TooLarge))
      else
        var cut := CutFrames(pending);
        var done := Consume(k, cut.frames);
        if !done.ok then Stop(Outcome(done.items, InvalidEvent))
        else Go(Client(cut.rest, c.atStart && text == [], undecodedBytes, held), done.items)
  }

  function Ending(c: Client): End {
    if c.held != [] then TruncatedUtf8 else if c.pending != [] then IncompleteFrame else Finished
  }

  function Yielded(items: seq<Item>, o: Outcome): Outcome { o.(items := items + o.items) }

  /** The whole stream, from a state on. */
  function Run(k: Contract, maxBytes: nat, c: Client, chunks: seq<Bytes>): Outcome
    decreases |chunks|
  {
    if chunks == [] then Outcome([], Ending(c))
    else
      match ReadChunk(k, maxBytes, c, chunks[0])
      case Stop(outcome) => outcome
      case Go(next, items) => Yielded(items, Run(k, maxBytes, next, chunks[1..]))
  }

  lemma YieldedTwice(a: seq<Item>, b: seq<Item>, o: Outcome)
    ensures Yielded(a, Yielded(b, o)) == Yielded(a + b, o)
  {
    assert a + (b + o.items) == a + b + o.items;
  }

  lemma CutRound(k: Contract, before: seq<Text>, pending: Text, i: nat)
    requires Boundary(pending) == Some(i)
    ensures InFront(before, CutFrames(pending)) == InFront(before + [pending[..i]], CutFrames(pending[i + 2..]))
  {
    var later := CutFrames(pending[i + 2..]);
    assert before + ([pending[..i]] + later.frames) == before + [pending[..i]] + later.frames;
  }

  lemma {:induction false} ConsumeAppend(k: Contract, a: seq<Text>, b: seq<Text>)
    ensures Consume(k, a + b) ==
      if !Consume(k, a).ok then Consume(k, a) else Consumed(Consume(k, a).items + Consume(k, b).items, Consume(k, b).ok)
  {
    if a == [] {
      assert a + b == b;
    } else {
      assert (a + b)[1..] == a[1..] + b;
      ConsumeAppend(k, a[1..], b);
    }
  }

  lemma ConsumeOne(k: Contract, frame: Text)
    ensures Consume(k, [frame]) ==
      (match Handle(k, frame) case Wrong => Consumed([], false) case Nothing => Consumed([], true) case Yields(item) => Consumed([item], true))
  {
    assert [frame][1..] == [];
  }

  /** One round of the framing loop. */
  lemma TakeRound(k: Contract, text: Text, before: seq<Text>, pending: Text, i: nat)
    requires CutFrames(text) == InFront(before, CutFrames(pending)) && Boundary(pending) == Some(i)
    requires Consume(k, before).ok
    ensures CutFrames(text) == InFront(before + [pending[..i]], CutFrames(pending[i + 2..]))
    ensures var handled := Handle(k, pending[..i]);
      if handled.Wrong? then Consume(k, CutFrames(text).frames) == Consumed(Consume(k, before).items, false)
      else Consume(k, before + [pending[..i]]) ==
           Consumed(Consume(k, before).items + (if handled.Yields? then [handled.item] else []), true)
  {
    var frame := pending[..i];
    CutRound(k, before, pending, i);
    ConsumeAppend(k, before, [frame]);
    ConsumeOne(k, frame);
    ConsumeAppend(k, before + [frame], CutFrames(pending[i + 2..]).frames);
  }

  /** The framing loop over what is pending. */
  method TakeFrames(k: Contract, text: Text) returns (items: seq<Item>, pending: Text, ok: bool)
    ensures Consumed(items, ok) == Consume(k, CutFrames(text).frames)
    ensures ok ==> pending == CutFrames(text).rest
  {
    items, pending, ok := [], text, true;
    ghost var before: seq<Text> := [];
    assert InFront([], CutFrames(text)) == CutFrames(text);
    var boundary := Boundary(pending);
    while boundary.Some?
      invariant boundary == Boundary(pending)
      invariant CutFrames(text) == InFront(before, CutFrames(pending))
      invariant Consume(k, before) == Consumed(items, true)
      decreases |pending|
    {
      var frame := pending[..boundary.value];
      TakeRound(k, text, before, pending, boundary.value);
      pending := pending[boundary.value + 2..];
      match Handle(k, frame) {
        case Wrong => return items, pending, false;
        case Nothing =>
        case Yields(item) => items := items + [item];
      }
      before := before + [frame];
      boundary := Boundary(pending);
    }
    ConsumeAppend(k, before, []);
  }

  /** The body of the chunk loop of `streamEvents`. */
  method TakeChunk(k: Contract, maxBytes: nat, c: Client, chunk: Bytes) returns (s: Stepped)
    ensures s == ReadChunk(k, maxBytes, c, chunk)
  {
    var decoded := Decode(c.held + chunk);
    if decoded.Bad? {
      return Stop(Outcome([], InvalidUtf8));
    }
    var undecodedBytes := c.undecodedBytes + (|chunk| - |Encode(decoded.text)|);
    var atStart, text := c.atStart, decoded.text;
    if atStart && |text| != 0 {
      atStart := false;
      text := StripMark(text);
    }
    var pending := c.pending + text;
    if |Encode(pending)| + undecodedBytes > maxBytes {
      return Stop(Outcome([], TooLarge));
    }
    var items, rest, ok := TakeFrames(k, pending);
    if !ok {
      return Stop(Outcome(items, InvalidEvent));
    }
    s := Go(Client(rest, atStart, undecodedBytes, decoded.held), items);
  }

  /** `streamEvents` on the chunks of a response. */
  method StreamEvents(k: Contract, maxBytes: nat, chunks: seq<Bytes>) returns (r: Outcome)
    ensures r == Run(k, maxBytes, START, chunks)
  {
    var client := START;
    var items: seq<Item> := [];
    var n := 0;
    YieldedNothing(Run(k, maxBytes, START, chunks));
    while n < |chunks|
      invariant 0 <= n <= |chunks|
      invariant Run(k, maxBytes, START, chunks) == Yielded(items, Run(k, maxBytes, client, chunks[n..]))
    {
      assert chunks[n..][1..] == chunks[n + 1..];
      var step := TakeChunk(k, maxBytes, client, chunks[n]);
      if step.Stop? {
        return Yielded(items, step.outcome);
      }
      YieldedTwice(items, step.items, Run(k, maxBytes, step.client, chunks[n + 1..]));
      client, items, n := step.client, items + step.items, n + 1;
    }
    r := Outcome(items, Ending(client));
  }

  lemma YieldedNothing(o: Outcome)
    ensures Yielded([], o) == o
  {
    assert [] + o.items == o.items;
  }

  // ---------------------------------------------------------------- the byte count

  /** The client's state after these chunks, if it has not stopped. */
  function Reach(k: Contract, maxBytes: nat, c: Client, chunks: seq<Bytes>): Option<Client>
    decreases |chunks|
  {
    if chunks == [] then Some(c)
    else
      match ReadChunk(k, maxBytes, c, chunks[0])
      case Stop(_) => None
      case Go(next, _) => Reach(k, maxBytes, next, chunks[1..])
  }

  /** That is the state the run goes on from. */
  lemma {:induction false} RunReaches(k: Contract, maxBytes: nat, c: Client, chunks: seq<Bytes>, n: nat) returns (items: seq<Item>)
    requires n <= |chunks| && Reach(k, maxBytes, c, chunks[..n]).Some?
    ensures Run(k, maxBytes, c, chunks) ==
      Yielded(items, Run(k, maxBytes, Reach(k, maxBytes, c, chunks[..n]).value, chunks[n..]))
    decreases n
  {
    if n == 0 {
      assert chunks[0..] == chunks;
      items := [];
      YieldedNothing(Run(k, maxBytes, c, chunks));
    } else {
      assert chunks[..n][1..] == chunks[1..][..n - 1] && chunks[1..][n - 1..] == chunks[n..];
      var step := ReadChunk(k, maxBytes, c, chunks[0]);
      var more := RunReaches(k, maxBytes, step.client, chunks[1..], n - 1);
      YieldedTwice(step.items, more, Run(k, maxBytes, Reach(k, maxBytes, c, chunks[..n]).value, chunks[n..]));
      items := step.items + more;
    }
  }

  /** A client that has stopped reads nothing more. */
  lemma {:induction false} StoppedForGood(k: Contract, maxBytes: nat, c: Client, chunks: seq<Bytes>, more: seq<Bytes>)
    requires Reach(k, maxBytes, c, chunks).None?
    ensures Run(k, maxBytes, c, chunks + more) == Run(k, maxBytes, c, chunks)
    ensures Run(k, maxBytes, c, chunks).end in {InvalidUtf8, TooLarge, InvalidEvent}
    decreases |chunks|
  {
    assert (chunks + more)[1..] == chunks[1..] + more;
    var step := ReadChunk(k, maxBytes, c, chunks[0]);
    if step.Go? {
      StoppedForGood(k, maxBytes, step.client, chunks[1..], more);
    }
  }

  /** It has stopped iff its run ends with an error that does not wait for the end of the stream. */
  lemma StoppedIffFailed(k: Contract, maxBytes: nat, c: Client, chunks: seq<Bytes>)
    ensures Reach(k, maxBytes, c, chunks).None? <==> Run(k, maxBytes, c, chunks).end in {InvalidUtf8, TooLarge, InvalidEvent}
  {
    if Reach(k, maxBytes, c, chunks).None? {
      StoppedForGood(k, maxBytes, c, chunks, []);
    } else {
      assert chunks[..|chunks|] == chunks;
      var items := RunReaches(k, maxBytes, c, chunks, |chunks|);
    }
  }

  predicate CountsHeld(c: Client) { c.undecodedBytes == |c.held| <= 3 }

  lemma ChunkCountsHeld(k: Contract, maxBytes: nat, c: Client, chunk: Bytes)
    requires CountsHeld(c)
    ensures var s := ReadChunk(k, maxBytes, c, chunk); s.Go? ==> CountsHeld(s.client)
  {
    if Decode(c.held + chunk).Good? {
      DecodeKeepsAll(c.held + chunk);
    }
  }

  lemma {:induction false} ChunksCountHeld(k: Contract, maxBytes: nat, c: Client, chunks: seq<Bytes>)
    requires CountsHeld(c) && Reach(k, maxBytes, c, chunks).Some?
    ensures CountsHeld(Reach(k, maxBytes, c, chunks).value)
    decreases |chunks|
  {
    if chunks != [] {
      ChunkCountsHeld(k, maxBytes, c, chunks[0]);
      ChunksCountHeld(k, maxBytes, ReadChunk(k, maxBytes, c, chunks[0]).client, chunks[1..]);
    }
  }

  /** In every state of every run `undecodedBytes` is the number of bytes the decoder holds back, at most
      three. */
  lemma UndecodedIsHeld(k: Contract, maxBytes: nat, chunks: seq<Bytes>, n: nat)
    requires n <= |chunks| && Reach(k, maxBytes, START, chunks[..n]).Some?
    ensures var c := Reach(k, maxBytes, START, chunks[..n]).value;
      && c.undecodedBytes == |c.held| <= 3
      && exists items :: Run(k, maxBytes, START, chunks) == Yielded(items, Run(k, maxBytes, c, chunks[n..]))
  {
    ChunksCountHeld(k, maxBytes, START, chunks[..n]);
    var items := RunReaches(k, maxBytes, START, chunks, n);
  }

  // ---------------------------------------------------------------- chunks do not matter

  lemma {:induction false} BoundaryStays(a: Text, b: Text)
    requires Boundary(a).Some?
    ensures Boundary(a + b) == Boundary(a)
  {
    assert (a + b)[1..] == a[1..] + b;
    if !(a[0] == NEWLINE && a[1] == NEWLINE) {
      BoundaryStays(a[1..], b);
    }
  }

  lemma Regroup<T>(a: seq<T>, b: seq<T>, c: seq<T>)
    ensures a + (b + c) == a + b + c
  {
  }

  lemma {:induction false} CutPieces(a: Text, b: Text)
    ensures CutFrames(a + b) == InFront(CutFrames(a).frames, CutFrames(CutFrames(a).rest + b))
    decreases |a|
  {
    match Boundary(a)
    case None => assert [] + CutFrames(a + b).frames == CutFrames(a + b).frames;
    case Some(i) =>
      BoundaryStays(a, b);
      assert (a + b)[..i] == a[..i] && (a + b)[i + 2..] == a[i + 2..] + b;
      CutPieces(a[i + 2..], b);
      var later := CutFrames(CutFrames(a[i + 2..]).rest + b);
      Regroup([a[..i]], CutFrames(a[i + 2..]).frames, later.frames);
  }

  /** The text of a stream, without its byte order mark. */
  function StreamText(b: Bytes): Text
    requires Decode(b).Good?
  {
    StripMark(Decode(b).text)
  }

  /** Where the client stands after these bytes, however they were cut. */
  function After(b: Bytes): Client
    requires Decode(b).Good?
  {
    Client(CutFrames(StreamText(b)).rest, Decode(b).text == [], |Decode(b).held|, Decode(b).held)
  }

  function Concat(chunks: seq<Bytes>): Bytes { if chunks == [] then [] else chunks[0] + Concat(chunks[1..]) }

  lemma TextGrows(a: Bytes, b: Bytes)
    requires Decode(a + b).Good?
    ensures Decode(a).Good? && Decode(Decode(a).held + b).Good?
    ensures var added := Decode(Decode(a).held + b).text;
      && Decode(a + b).text == Decode(a).text + added && Decode(a + b).held == Decode(Decode(a).held + b).held
      && StreamText(a + b) == StreamText(a) + (if Decode(a).text == [] then StripMark(added) else added)
  {
    DecodePieces(a, b);
  }

  /** The text pending, when `chunk` comes after `seen`. */
  function PendingAt(seen: Bytes, chunk: Bytes): Text
    requires Decode(seen).Good? && Decode(seen + chunk).Good?
  {
    TextGrows(seen, chunk);
    Pending(After(seen), Decode(Decode(seen).held + chunk).text)
  }

  /** Pending text and held bytes, when `chunk` comes after `seen`. */
  function SizeAt(seen: Bytes, chunk: Bytes): nat
    requires Decode(seen).Good? && Decode(seen + chunk).Good?
  {
    TextGrows(seen, chunk);
    |Encode(PendingAt(seen, chunk))| + |Decode(seen + chunk).held|
  }

  /** The text a chunk adds to the stream's. */
  function Added(seen: Bytes, chunk: Bytes): (added: Text)
    requires Decode(seen).Good? && Decode(seen + chunk).Good?
    ensures StreamText(seen + chunk) == StreamText(seen) + added
    ensures PendingAt(seen, chunk) == CutFrames(StreamText(seen)).rest + added
  {
    TextGrows(seen, chunk);
    var text := Decode(Decode(seen).held + chunk).text;
    if Decode(seen).text == [] then StripMark(text) else text
  }

  lemma StepAfter(k: Contract, maxBytes: nat, seen: Bytes, chunk: Bytes)
    requires Decode(seen + chunk).Good? && Consume(k, CutFrames(StreamText(seen + chunk)).frames).ok
    ensures Decode(seen).Good? && Consume(k, CutFrames(StreamText(seen)).frames).ok
    ensures var s := ReadChunk(k, maxBytes, After(seen), chunk);
      if SizeAt(seen, chunk) > maxBytes then s == Stop(Outcome([], TooLarge))
      else
        s.Go? && s.client == After(seen + chunk)
        && Consume(k, CutFrames(StreamText(seen + chunk)).frames).items ==
           Consume(k, CutFrames(StreamText(seen)).frames).items + s.items
  {
    TextGrows(seen, chunk);
    DecodeKeepsAll(seen);
    DecodeKeepsAll(seen + chunk);
    DecodeKeepsAll(Decode(seen).held + chunk);
    var text, added := StreamText(seen), Added(seen, chunk);
    CutPieces(text, added);
    ConsumeAppend(k, CutFrames(text).frames, CutFrames(CutFrames(text).rest + added).frames);
  }
}
