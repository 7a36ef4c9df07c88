/** From the server's frames to the client's items, for every way of cutting the bytes into chunks.

    A prefix of the server's bytes decodes to the frames complete in it and to part of the next one, so
    what the client has yielded and what it holds depend on the number of bytes alone. */
module EventDelivery {
  import opened CodeUnits
  import opened CanonicalJson
  import opened CanonicalMeaning
  import opened Strings
  import opened Utf8
  import opened EventStream

  // ---------------------------------------------------------------- any valid stream, cut anyhow

  /** What the client makes of the bytes of a valid stream. */
  function Whole(k: Contract, b: Bytes): Outcome
    requires Decode(b).Good?
  {
    var cut := CutFrames(StreamText(b));
    var done := Consume(k, cut.frames);
    Outcome(done.items, if done.ok then Ending(After(b)) else InvalidEvent)
  }

  /** No chunk makes the pending data outgrow the limit. */
  predicate Fits(seen: Bytes, chunks: seq<Bytes>, maxBytes: nat)
    decreases |chunks|
  {
    chunks == []
    || (Decode(seen).Good? && Decode(seen + chunks[0]).Good? && SizeAt(seen, chunks[0]) <= maxBytes
        && Fits(seen + chunks[0], chunks[1..], maxBytes))
  }

  /** The items and the state of the frames complete in these bytes. */
  function Complete(k: Contract, seen: Bytes): Consumed
    requires Decode(seen).Good?
  {
    Consume(k, CutFrames(StreamText(seen)).frames)
  }

  lemma ConsumedPrefix(k: Contract, seen: Bytes, chunk: Bytes)
    requires Decode(seen + chunk).Good?
    ensures Decode(seen).Good?
    ensures var before, now := Complete(k, seen), Complete(k, seen + chunk);
      if !before.ok then now == before else now.ok ==> before.ok
  {
    TextGrows(seen, chunk);
    var text := StreamText(seen);
    var added := Added(seen, chunk);
    CutPieces(text, added);
    ConsumeAppend(k, CutFrames(text).frames, CutFrames(CutFrames(text).rest + added).frames);
  }

  lemma FitsStep(seen: Bytes, chunks: seq<Bytes>)
    requires Decode(seen + Concat(chunks)).Good? && chunks != []
    ensures seen + Concat(chunks) == seen + chunks[0] + Concat(chunks[1..])
    ensures Decode(seen + chunks[0]).Good? && Decode(seen).Good? && Decode(seen + chunks[0] + Concat(chunks[1..])).Good?
  {
    assert seen + Concat(chunks) == seen + chunks[0] + Concat(chunks[1..]);
    TextGrows(seen + chunks[0], Concat(chunks[1..]));
    TextGrows(seen, chunks[0]);
  }

  /** From any point on: what was yielded before and what the rest yields make up the whole. */
  lemma {:induction false} RunIsWhole(k: Contract, maxBytes: nat, seen: Bytes, chunks: seq<Bytes>)
    requires Decode(seen + Concat(chunks)).Good? && Decode(seen).Good?
    requires Complete(k, seen).ok && Fits(seen, chunks, maxBytes)
    ensures Yielded(Complete(k, seen).items, Run(k, maxBytes, After(seen), chunks)) == Whole(k, seen + Concat(chunks))
    decreases |chunks|, 0
  {
    if chunks == [] {
      assert seen + [] == seen && Complete(k, seen).items + [] == Complete(k, seen).items;
    } else {
      FitsStep(seen, chunks);
      RunIntoWhole(k, maxBytes, seen, chunks[0], chunks[1..]);
    }
  }

  /** The rest of a run, after a chunk. */
  function Onward(k: Contract, maxBytes: nat, s: Stepped, later: seq<Bytes>): Outcome {
    match s
    case Stop(outcome) => outcome
    case Go(next, items) => Yielded(items, Run(k, maxBytes, next, later))
  }

  lemma {:induction false} RunIntoWhole(k: Contract, maxBytes: nat, seen: Bytes, chunk: Bytes, later: seq<Bytes>)
    requires Decode(seen + chunk + Concat(later)).Good? && Decode(seen + chunk).Good? && Decode(seen).Good?
    requires Complete(k, seen).ok && SizeAt(seen, chunk) <= maxBytes && Fits(seen + chunk, later, maxBytes)
    ensures Yielded(Complete(k, seen).items, Onward(k, maxBytes, ReadChunk(k, maxBytes, After(seen), chunk), later)) ==
      Whole(k, seen + chunk + Concat(later))
    decreases |later|, 1
  {
    StepInto(k, maxBytes, seen, chunk);
    var s := ReadChunk(k, maxBytes, After(seen), chunk);
    if s.Go? {
      RunIsWhole(k, maxBytes, seen + chunk, later);
      YieldedTwice(Complete(k, seen).items, s.items, Run(k, maxBytes, After(seen + chunk), later));
    } else {
      ConsumedPrefix(k, seen + chunk, Concat(later));
    }
  }

  /** One chunk within the limit. */
  lemma StepInto(k: Contract, maxBytes: nat, seen: Bytes, chunk: Bytes)
    requires Decode(seen + chunk).Good? && Decode(seen).Good? && Complete(k, seen).ok
    requires SizeAt(seen, chunk) <= maxBytes
    ensures var s := ReadChunk(k, maxBytes, After(seen), chunk);
      var before, now := Complete(k, seen), Complete(k, seen + chunk);
      if now.ok then s.Go? && s.client == After(seen + chunk) && now.items == before.items + s.items
      else s.Stop? && s.outcome.end == InvalidEvent && now.items == before.items + s.outcome.items
  {
    TextGrows(seen, chunk);
    DecodeKeepsAll(seen);
    DecodeKeepsAll(seen + chunk);
    DecodeKeepsAll(Decode(seen).held + chunk);
    var text, added := StreamText(seen), Added(seen, chunk);
    CutPieces(text, added);
    ConsumeAppend(k, CutFrames(text).frames, CutFrames(CutFrames(text).rest + added).frames);
  }

  /** However a valid stream is cut into chunks, the client yields the same items and ends the same
      way, as long as no chunk makes the pending data outgrow the limit. */
  lemma ChunksDoNotMatter(k: Contract, maxBytes: nat, chunks: seq<Bytes>)
    requires Decode(Concat(chunks)).Good?
    requires Fits([], chunks, maxBytes)
    ensures Run(k, maxBytes, START, chunks) == Whole(k, Concat(chunks))
  {
    NothingBefore(Concat(chunks));
    AfterNothing();
    RunIsWhole(k, maxBytes, [], chunks);
    YieldedNothing(Run(k, maxBytes, START, chunks));
  }

  lemma NothingBefore<T>(s: seq<T>)
    ensures [] + s == s
  {
  }

  lemma AfterNothing()
    ensures After([]) == START && CutFrames(StreamText([])).frames == []
  {
  }

  /** When all frames are right, a chunk that outgrows the limit is the one thing that goes wrong. */
  lemma {:induction false} RunOverflows(k: Contract, maxBytes: nat, seen: Bytes, chunks: seq<Bytes>)
    requires Decode(seen + Concat(chunks)).Good? && Decode(seen).Good?
    requires Complete(k, seen + Concat(chunks)).ok
    requires !Fits(seen, chunks, maxBytes)
    ensures Run(k, maxBytes, After(seen), chunks).end == TooLarge
    decreases |chunks|
  {
    var chunk, later := chunks[0], chunks[1..];
    FitsStep(seen, chunks);
    ConsumedPrefix(k, seen + chunk, Concat(later));
    StepAfter(k, maxBytes, seen, chunk);
    if SizeAt(seen, chunk) <= maxBytes {
      RunOverflows(k, maxBytes, seen + chunk, later);
    }
  }

  // ---------------------------------------------------------------- the server's frames

  datatype Frame = Notify(id: Text, kind: Text, body: Json) | Heartbeat | GapFrame

  const HEARTBEAT: Text := Ascii(": heartbeat")
  const GAP_DATA: Text := Ascii("{\"code\":\"") + RETENTION_GAP + Ascii("\"}")

  /** A frame without the blank line that ends it. */
  function FrameText(f: Frame): Text {
    match f
    case Notify(id, kind, body) =>
      ID_FIELD + id + [NEWLINE] + (EVENT_FIELD + kind + [NEWLINE] + (DATA_FIELD + Stringify(body)))
    case Heartbeat => HEARTBEAT
    case GapFrame => EVENT_FIELD + GAP + [NEWLINE] + (DATA_FIELD + GAP_DATA)
  }

  /** What `writeSse` and `writeSseFrame` write. */
  function Wire(f: Frame): Text { FrameText(f) + BLANK }

  function WireAll(fs: seq<Frame>): Text { if fs == [] then [] else Wire(fs[0]) + WireAll(fs[1..]) }

  function Items(fs: seq<Frame>): seq<Item> {
    if fs == [] then []
    else
      match fs[0]
      case Notify(_, _, body) => [Note(body)] + Items(fs[1..])
      case Heartbeat => Items(fs[1..])
      case GapFrame => [Gap] + Items(fs[1..])
  }

  /** A notification the client accepts, with an id and a kind on one line each. */
  predicate Sound(k: Contract, f: Frame) {
    f.Notify? ==>
      && Visible(f.id) && Paired(f.id) && Visible(f.kind) && Paired(f.kind) && f.kind != GAP
      && WellFormed(f.body) && k.isNotification(f.body) && k.kind(f.body) == f.kind
  }

  lemma FieldNames()
    ensures |EVENT_FIELD| == 7 && |DATA_FIELD| == 6 && |ID_FIELD| == 4 && |HEARTBEAT| == 11
    ensures EVENT_FIELD[0] == 101 && DATA_FIELD[0] == 100 && ID_FIELD[0] == 105 && HEARTBEAT[0] == COLON
    ensures Visible(EVENT_FIELD) && Visible(DATA_FIELD) && Visible(ID_FIELD) && Visible(HEARTBEAT) && Visible(GAP)
  {
  }

  lemma FindsField(field: Text, value: Text, others: seq<Text>)
    ensures Find([field + value] + others, field) == Some(value)
  {
    assert (field + value)[|field|..] == value;
  }

  lemma SkipsField(line: Text, field: Text, others: seq<Text>)
    requires line != [] && field != [] && line[0] != field[0]
    ensures Find([line] + others, field) == Find(others, field)
  {
    assert ([line] + others)[1..] == others;
  }

  /** The two fields the client looks for. */
  lemma TwoFields(kind: Text, data: Text)
    requires Visible(kind) && Visible(data)
    ensures var lines := Lines(EVENT_FIELD + kind + [NEWLINE] + (DATA_FIELD + data));
      Find(lines, EVENT_FIELD) == Some(kind) && Find(lines, DATA_FIELD) == Some(data)
  {
    FieldNames();
    LinesSplit(EVENT_FIELD + kind, DATA_FIELD + data);
    OneLine(DATA_FIELD + data);
    FindsField(EVENT_FIELD, kind, [DATA_FIELD + data]);
    SkipsField(EVENT_FIELD + kind, DATA_FIELD, [DATA_FIELD + data]);
    FindsField(DATA_FIELD, data, []);
    assert [DATA_FIELD + data] + [] == [DATA_FIELD + data];
  }

  lemma {:induction false} PlainQuotes(t: Text)
    requires Plain(t)
    ensures QuoteBody(t) == t
  {
    if t != [] {
      PlainQuotes(t[1..]);
      assert [t[0]] + t[1..] == t;
    }
  }

  predicate Plain(t: Text) { forall i :: 0 <= i < |t| ==> 32 <= t[i] < 128 && t[i] != QUOTE && t[i] != BACKSLASH }

  lemma PrintsOneField(key: Text, value: Text)
    requires Plain(key) && Plain(value)
    ensures Stringify(Obj([Member(key, Str(value))])) ==
      [OPEN_BRACE] + ([QUOTE] + key + [QUOTE] + [COLON] + ([QUOTE] + value + [QUOTE])) + [CLOSE_BRACE]
  {
    PlainQuotes(key);
    PlainQuotes(value);
    var m := Member(key, Str(value));
    assert [m][1..] == [];
    assert MemberTexts([m]) == [Pair(key, Quote(value))];
    assert Join([Pair(key, Quote(value))]) == Pair(key, Quote(value));
  }

  /** The gap frame's data is what `JSON.stringify` prints for its object. */
  lemma GapDataPrints()
    ensures Stringify(GAP_OBJECT) == GAP_DATA
  {
    GapParts();
    PrintsOneField(CODE, RETENTION_GAP);
    Regrouped([OPEN_BRACE], [QUOTE] + CODE + [QUOTE] + [COLON], [QUOTE], RETENTION_GAP);
  }

  lemma GapParts()
    ensures Ascii("{\"code\":\"") == [OPEN_BRACE] + ([QUOTE] + CODE + [QUOTE] + [COLON] + [QUOTE])
    ensures Ascii("\"}") == [QUOTE] + [CLOSE_BRACE]
    ensures Plain(CODE) && Plain(RETENTION_GAP)
  {
  }

  lemma Regrouped(open: Text, key: Text, quote: Text, value: Text)
    ensures open + (key + quote) + value + (quote + [CLOSE_BRACE]) == open + (key + (quote + value + quote)) + [CLOSE_BRACE]
  {
  }

  /** Each frame is handled as what it is. */
  lemma FrameIsHandled(k: Contract, f: Frame)
    requires ReadsPrinted(k) && Sound(k, f)
    ensures Handle(k, FrameText(f)) ==
      if f.Notify? then Yields(Note(f.body)) else if f.Heartbeat? then Nothing else Yields(Gap)
  {
    match f
    case Notify(id, kind, body) => NotifyFields(id, kind, body);
    case Heartbeat => HeartbeatFields();
    case GapFrame => GapFields();
  }

  lemma NotifyFields(id: Text, kind: Text, body: Json)
    requires Visible(id) && Visible(kind)
    ensures var lines := Lines(FrameText(Notify(id, kind, body)));
      Find(lines, EVENT_FIELD) == Some(kind) && Find(lines, DATA_FIELD) == Some(Stringify(body))
  {
    FieldNames();
    var rest := EVENT_FIELD + kind + [NEWLINE] + (DATA_FIELD + Stringify(body));
    StringifyIsVisible(body);
    LinesSplit(ID_FIELD + id, rest);
    TwoFields(kind, Stringify(body));
    SkipsField(ID_FIELD + id, EVENT_FIELD, Lines(rest));
    SkipsField(ID_FIELD + id, DATA_FIELD, Lines(rest));
  }

  lemma HeartbeatFields()
    ensures Find(Lines(HEARTBEAT), EVENT_FIELD) == None == Find(Lines(HEARTBEAT), DATA_FIELD)
    ensures HEARTBEAT != [] && HEARTBEAT[0] == COLON
  {
    FieldNames();
    OneLine(HEARTBEAT);
    SkipsField(HEARTBEAT, EVENT_FIELD, []);
    SkipsField(HEARTBEAT, DATA_FIELD, []);
    assert [HEARTBEAT] + [] == [HEARTBEAT];
  }

  lemma GapFields()
    ensures Find(Lines(FrameText(GapFrame)), EVENT_FIELD) == Some(GAP)
    ensures Find(Lines(FrameText(GapFrame)), DATA_FIELD) == Some(Stringify(GAP_OBJECT))
    ensures WellFormed(GAP_OBJECT)
  {
    FieldNames();
    GapDataPrints();
    StringifyIsVisible(GAP_OBJECT);
    TwoFields(GAP, GAP_DATA);
  }

  // ---------------------------------------------------------------- framing

  /** Line breaks stand alone, and not at the end. */
  predicate NoBlank(t: Text) {
    forall i :: 0 <= i < |t| && t[i] == NEWLINE ==> i + 1 < |t| && t[i + 1] != NEWLINE
  }

  lemma {:induction false} EndsAtBlank(t: Text, rest: Text)
    requires NoBlank(t)
    ensures Boundary(t + BLANK + rest) == Some(|t|)
  {
    var u := t + BLANK + rest;
    if t != [] {
      assert u[1..] == t[1..] + BLANK + rest;
      forall i | 0 <= i < |t[1..]| && t[1..][i] == NEWLINE
        ensures i + 1 < |t[1..]| && t[1..][i + 1] != NEWLINE
      {
        assert t[i + 1] == NEWLINE;
      }
      EndsAtBlank(t[1..], rest);
    }
  }

  lemma LineThen(a: Text, b: Text)
    requires Visible(a) && NoBlank(b) && b != [] && b[0] != NEWLINE
    ensures NoBlank(a + [NEWLINE] + b)
  {
    var t := a + [NEWLINE] + b;
    forall i | 0 <= i < |t| && t[i] == NEWLINE
      ensures i + 1 < |t| && t[i + 1] != NEWLINE
    {
      if i > |a| {
        assert t[i] == b[i - |a| - 1];
      }
    }
  }

  predicate TextOk(t: Text) { NoBlank(t) && Paired(t) && t != [] && t[0] < 128 }

  lemma FrameTextOk(k: Contract, f: Frame)
    requires Sound(k, f)
    ensures TextOk(FrameText(f)) && Paired(Wire(f))
  {
    FieldNames();
    PlainTexts();
    match f {
      case Notify(id, kind, body) => NotifyTextOk(id, kind, body);
      case Heartbeat =>
      case GapFrame =>
        GapDataPrints();
        EventTextOk(GAP, GAP_OBJECT);
    }
    PairedAppend(FrameText(f), BLANK);
  }

  lemma LineOk(field: Text, value: Text, rest: Text)
    requires Visible(field) && Paired(field) && field != [] && field[0] < 128 && Visible(value) && Paired(value)
    requires TextOk(rest) && rest[0] != NEWLINE
    ensures var t := field + value + [NEWLINE] + rest; TextOk(t) && t[0] == field[0]
  {
    LineThen(field + value, rest);
    PairedLine(field, value, rest);
  }

  lemma VisibleTextOk(field: Text, t: Text)
    requires Visible(field) && Visible(t) && Paired(field) && Paired(t) && field != [] && field[0] < 128
    ensures TextOk(field + t) && (field + t)[0] == field[0]
  {
    PairedAppend(field, t);
  }

  lemma DataTextOk(body: Json)
    ensures TextOk(DATA_FIELD + Stringify(body)) && (DATA_FIELD + Stringify(body))[0] == 100
  {
    FieldNames();
    PlainTexts();
    StringifyIsVisible(body);
    StringifyIsPaired(body);
    VisibleTextOk(DATA_FIELD, Stringify(body));
  }

  lemma EventTextOk(kind: Text, body: Json)
    requires Visible(kind) && Paired(kind)
    ensures var t := EVENT_FIELD + kind + [NEWLINE] + (DATA_FIELD + Stringify(body)); TextOk(t) && t[0] == 101
  {
    FieldNames();
    PlainTexts();
    DataTextOk(body);
    LineOk(EVENT_FIELD, kind, DATA_FIELD + Stringify(body));
  }

  lemma NotifyTextOk(id: Text, kind: Text, body: Json)
    requires Visible(id) && Paired(id) && Visible(kind) && Paired(kind)
    ensures TextOk(FrameText(Notify(id, kind, body)))
  {
    FieldNames();
    PlainTexts();
    EventTextOk(kind, body);
    LineOk(ID_FIELD, id, EVENT_FIELD + kind + [NEWLINE] + (DATA_FIELD + Stringify(body)));
  }

  lemma PlainTexts()
    ensures Paired(EVENT_FIELD) && Paired(DATA_FIELD) && Paired(ID_FIELD) && Paired(HEARTBEAT) && Paired(GAP)
    ensures Paired(BLANK) && Paired([NEWLINE])
  {
    PlainIsPaired(EVENT_FIELD);
    PlainIsPaired(DATA_FIELD);
    PlainIsPaired(ID_FIELD);
    PlainIsPaired(HEARTBEAT);
    PlainIsPaired(GAP);
    PlainIsPaired(BLANK);
    PlainIsPaired([NEWLINE]);
  }

  lemma PairedLine(field: Text, value: Text, rest: Text)
    requires Paired(field) && Paired(value) && Paired(rest)
    ensures Paired(field + value + [NEWLINE] + rest)
  {
    PlainTexts();
    PairedAppend(field, value);
    PairedAppend(field + value, [NEWLINE]);
    PairedAppend(field + value + [NEWLINE], rest);
  }

  // ---------------------------------------------------------------- the server's bytes

  /** How many of the first bytes belong to frames that are complete in `p` bytes. */
  function DoneBytes(fs: seq<Frame>, p: nat): nat {
    if fs == [] || p < |Encode(Wire(fs[0]))| then 0
    else |Encode(Wire(fs[0]))| + DoneBytes(fs[1..], p - |Encode(Wire(fs[0]))|)
  }

  /** How many frames are complete in `p` bytes. */
  function DoneCount(fs: seq<Frame>, p: nat): (n: nat)
    ensures n <= |fs|
  {
    if fs == [] || p < |Encode(Wire(fs[0]))| then 0 else 1 + DoneCount(fs[1..], p - |Encode(Wire(fs[0]))|)
  }

  predicate AllSound(k: Contract, fs: seq<Frame>) { forall f :: f in fs ==> Sound(k, f) }

  lemma {:induction false} WireIsPaired(k: Contract, fs: seq<Frame>)
    requires AllSound(k, fs)
    ensures Paired(WireAll(fs))
  {
    if fs != [] {
      WireIsPaired(k, fs[1..]);
      FrameTextOk(k, fs[0]);
      PairedAppend(Wire(fs[0]), WireAll(fs[1..]));
    }
  }

  function FrameTexts(fs: seq<Frame>): (r: seq<Text>)
    ensures |r| == |fs| && forall i :: 0 <= i < |r| ==> r[i] == FrameText(fs[i])
  {
    seq(|fs|, i requires 0 <= i < |fs| => FrameText(fs[i]))
  }

  /** What a prefix of the server's bytes decodes to and is cut into: exactly the frames complete in it,
      and after them text that encodes to all the other bytes that are not held back. */
  predicate PrefixRead(fs: seq<Frame>, seen: Bytes) {
    Decode(seen).Good? && FramesRead(fs, DoneCount(fs, |seen|), Decode(seen).text, DoneBytes(fs, |seen|))
  }

  /** A text holds the first `n` frames, which have so many bytes, and part of the next one. */
  predicate FramesRead(fs: seq<Frame>, n: nat, text: Text, bytes: nat)
    requires n <= |fs|
  {
    var cut := CutFrames(text);
    cut.frames == FrameTexts(fs[..n]) && text == WireAll(fs[..n]) + cut.rest && |Encode(WireAll(fs[..n]))| == bytes
  }

  lemma FirstFrameFramed(k: Contract, f: Frame, rest: Text)
    requires Sound(k, f)
    ensures CutFrames(Wire(f) + rest) == InFront([FrameText(f)], CutFrames(rest))
  {
    FrameTextOk(k, f);
    EndsAtBlank(FrameText(f), rest);
    var t := Wire(f) + rest;
    assert t[..|FrameText(f)|] == FrameText(f) && t[|FrameText(f)| + 2..] == rest;
  }

  /** Less than the whole of a frame is not framed. */
  lemma PartUnframed(k: Contract, f: Frame, part: Text, missing: Text)
    requires Sound(k, f) && part + missing == Wire(f) && missing != []
    ensures CutFrames(part) == Cut([], part)
  {
    FrameTextOk(k, f);
    EndsAtBlank(FrameText(f), []);
    assert Wire(f) + [] == Wire(f);
    if Boundary(part).Some? {
      BoundaryStays(part, missing);
    }
  }

  lemma DecodeBehindFrame(k: Contract, f: Frame, later: Bytes)
    requires Sound(k, f)
    ensures Decode(Encode(Wire(f)) + later) == Behind(Wire(f), Decode(later))
  {
    FrameTextOk(k, f);
    DecodesBack(Wire(f));
    DecodePieces(Encode(Wire(f)), later);
    assert [] + later == later;
  }

  /** A proper prefix of a frame's bytes decodes to a proper prefix of its text. */
  lemma PartDecodes(k: Contract, f: Frame, seen: Bytes, missing: Bytes)
    requires Sound(k, f) && seen + missing == Encode(Wire(f)) && missing != []
    ensures Decode(seen).Good? && CutFrames(Decode(seen).text) == Cut([], Decode(seen).text)
  {
    FrameTextOk(k, f);
    DecodesBack(Wire(f));
    TextGrows(seen, missing);
    DecodeKeepsAll(seen);
    var part := Decode(seen).text;
    var others := Decode(Decode(seen).held + missing).text;
    assert part + others == Wire(f);
    assert |Encode(part)| + |Decode(seen).held| == |seen| < |Encode(Wire(f))|;
    assert part != Wire(f) && part + [] == part;
    PartUnframed(k, f, part, others);
  }

  lemma SplitPrefix<T>(seen: seq<T>, own: seq<T>, others: seq<T>)
    requires seen <= own + others
    ensures |seen| < |own| ==> seen + own[|seen|..] == own
    ensures |seen| >= |own| ==> seen == own + seen[|own|..] && seen[|own|..] <= others
  {
  }

  lemma WireBytes(k: Contract, fs: seq<Frame>)
    requires fs != [] && AllSound(k, fs)
    ensures Sound(k, fs[0]) && AllSound(k, fs[1..])
    ensures Encode(WireAll(fs)) == Encode(Wire(fs[0])) + Encode(WireAll(fs[1..]))
  {
    assert fs[0] in fs;
    FrameTextOk(k, fs[0]);
    EncodeAppend(Wire(fs[0]), WireAll(fs[1..]));
  }

  lemma {:induction false} PrefixIsRead(k: Contract, fs: seq<Frame>, seen: Bytes)
    requires AllSound(k, fs) && seen <= Encode(WireAll(fs))
    ensures PrefixRead(fs, seen)
  {
    if fs == [] {
      assert seen == [] && fs[..0] == [];
    } else {
      var own := Encode(Wire(fs[0]));
      WireBytes(k, fs);
      SplitPrefix(seen, own, Encode(WireAll(fs[1..])));
      if |seen| < |own| {
        PartDecodes(k, fs[0], seen, own[|seen|..]);
        NothingDone(fs, seen);
      } else {
        var later := seen[|own|..];
        PrefixIsRead(k, fs[1..], later);
        DecodeBehindFrame(k, fs[0], later);
        FirstFrameFramed(k, fs[0], Decode(later).text);
        OneMoreDone(k, fs, seen, later);
      }
    }
  }

  lemma NothingDone(fs: seq<Frame>, seen: Bytes)
    requires fs != [] && |seen| < |Encode(Wire(fs[0]))|
    requires Decode(seen).Good? && CutFrames(Decode(seen).text) == Cut([], Decode(seen).text)
    ensures PrefixRead(fs, seen)
  {
    assert fs[..0] == [];
    assert [] + Decode(seen).text == Decode(seen).text;
  }

  lemma OneMoreDone(k: Contract, fs: seq<Frame>, seen: Bytes, later: Bytes)
    requires fs != [] && Sound(k, fs[0]) && seen == Encode(Wire(fs[0])) + later && PrefixRead(fs[1..], later)
    requires Decode(seen) == Behind(Wire(fs[0]), Decode(later))
    requires CutFrames(Wire(fs[0]) + Decode(later).text) == InFront([FrameText(fs[0])], CutFrames(Decode(later).text))
    ensures PrefixRead(fs, seen)
  {
    CountsGoOn(fs, |later|);
    FrameTextOk(k, fs[0]);
    OneMoreRead(fs, DoneCount(fs[1..], |later|), Decode(later).text, DoneBytes(fs[1..], |later|));
  }

  lemma CountsGoOn(fs: seq<Frame>, p: nat)
    requires fs != []
    ensures var own := |Encode(Wire(fs[0]))|;
      DoneCount(fs, own + p) == 1 + DoneCount(fs[1..], p) && DoneBytes(fs, own + p) == own + DoneBytes(fs[1..], p)
  {
  }

  lemma OneMoreRead(fs: seq<Frame>, n: nat, text: Text, bytes: nat)
    requires n + 1 <= |fs| && FramesRead(fs[1..], n, text, bytes) && Paired(Wire(fs[0]))
    requires CutFrames(Wire(fs[0]) + text) == InFront([FrameText(fs[0])], CutFrames(text))
    ensures FramesRead(fs, n + 1, Wire(fs[0]) + text, |Encode(Wire(fs[0]))| + bytes)
  {
    FirstDone(fs, n);
    EncodeAppend(Wire(fs[0]), WireAll(fs[1..][..n]));
    Regroup(Wire(fs[0]), WireAll(fs[1..][..n]), CutFrames(text).rest);
  }

  lemma FirstTaken<T>(s: seq<T>, n: nat)
    requires n + 1 <= |s|
    ensures s[..n + 1] != [] && s[..n + 1][0] == s[0] && s[..n + 1][1..] == s[1..][..n]
  {
  }

  lemma FirstDone(fs: seq<Frame>, n: nat)
    requires n + 1 <= |fs|
    ensures FrameTexts(fs[..n + 1]) == [FrameText(fs[0])] + FrameTexts(fs[1..][..n])
    ensures WireAll(fs[..n + 1]) == Wire(fs[0]) + WireAll(fs[1..][..n])
  {
    FirstTaken(fs, n);
  }

  lemma {:induction false} FramesConsumed(k: Contract, fs: seq<Frame>)
    requires ReadsPrinted(k) && AllSound(k, fs)
    ensures Consume(k, FrameTexts(fs)) == Consumed(Items(fs), true)
  {
    if fs != [] {
      assert fs[0] in fs;
      FrameIsHandled(k, fs[0]);
      assert FrameTexts(fs)[1..] == FrameTexts(fs[1..]);
      FramesConsumed(k, fs[1..]);
    }
  }

  /** The server's text has no byte order mark to strip. */
  lemma NoMark(k: Contract, fs: seq<Frame>, seen: Bytes)
    requires AllSound(k, fs) && seen <= Encode(WireAll(fs)) && Decode(seen).Good?
    ensures StreamText(seen) == Decode(seen).text
  {
    WireIsPaired(k, fs);
    var all := Encode(WireAll(fs));
    assert all == seen + all[|seen|..];
    DecodesBack(WireAll(fs));
    TextGrows(seen, all[|seen|..]);
    if fs != [] {
      assert fs[0] in fs;
      FrameTextOk(k, fs[0]);
      assert WireAll(fs)[0] == FrameText(fs[0])[0];
    }
  }

  lemma DoneIsPaired(k: Contract, fs: seq<Frame>, n: nat)
    requires AllSound(k, fs) && n <= |fs|
    ensures Paired(WireAll(fs[..n]))
  {
    WireIsPaired(k, fs[..n]);
  }

  predicate SizeIsBacklog(fs: seq<Frame>, seen: Bytes, chunk: Bytes) {
    Decode(seen).Good? && Decode(seen + chunk).Good? && SizeAt(seen, chunk) == |seen| + |chunk| - DoneBytes(fs, |seen|)
  }

  /** The data pending when a chunk has come: all bytes so far, less the frames complete before it. */
  lemma PendingIsBacklog(k: Contract, fs: seq<Frame>, seen: Bytes, chunk: Bytes)
    requires AllSound(k, fs) && seen + chunk <= Encode(WireAll(fs))
    ensures SizeIsBacklog(fs, seen, chunk)
  {
    PrefixOfAll(seen, chunk, Encode(WireAll(fs)));
    var done := ReadSoFar(k, fs, seen);
    var now := ReadSoFar(k, fs, seen + chunk);
    SizeIs(seen, chunk, done);
  }

  lemma PrefixOfAll<T>(a: seq<T>, b: seq<T>, all: seq<T>)
    requires a + b <= all
    ensures a <= all
  {
  }

  lemma SizeIs(seen: Bytes, chunk: Bytes, done: Text)
    requires IsDone(seen, done) && Decode(seen + chunk).Good? && StreamText(seen + chunk) == Decode(seen + chunk).text
    ensures SizeAt(seen, chunk) == |seen| + |chunk| - |Encode(done)|
  {
    StreamKept(seen, chunk, done);
    SizeOfKept(seen, chunk, done);
  }

  predicate Kept(seen: Bytes, chunk: Bytes, done: Text)
    requires Decode(seen).Good? && Decode(seen + chunk).Good?
  {
    Encode(done + CutFrames(StreamText(seen)).rest + Added(seen, chunk)) + Decode(seen + chunk).held == seen + chunk
  }

  lemma StreamKept(seen: Bytes, chunk: Bytes, done: Text)
    requires Decode(seen).Good? && StreamText(seen) == done + CutFrames(StreamText(seen)).rest && Paired(done)
    requires Decode(seen + chunk).Good? && StreamText(seen + chunk) == Decode(seen + chunk).text
    ensures Kept(seen, chunk, done)
  {
    DecodeKeepsAll(seen + chunk);
    assert StreamText(seen + chunk) == done + CutFrames(StreamText(seen)).rest + Added(seen, chunk);
  }

  lemma SizeOfKept(seen: Bytes, chunk: Bytes, done: Text)
    requires Decode(seen).Good? && Decode(seen + chunk).Good? && Paired(done) && Kept(seen, chunk, done)
    ensures SizeAt(seen, chunk) == |seen| + |chunk| - |Encode(done)|
  {
    Waiting(done, CutFrames(StreamText(seen)).rest, Added(seen, chunk), Decode(seen + chunk).held, seen + chunk);
  }

  /** The text of the frames complete in these bytes, which start with no byte order mark. */
  predicate IsDone(seen: Bytes, done: Text) {
    Decode(seen).Good? && StreamText(seen) == Decode(seen).text
    && StreamText(seen) == done + CutFrames(StreamText(seen)).rest && Paired(done)
  }

  /** What a prefix of the server's bytes says, and the text of the frames complete in it. */
  lemma ReadSoFar(k: Contract, fs: seq<Frame>, seen: Bytes) returns (done: Text)
    requires AllSound(k, fs) && seen <= Encode(WireAll(fs))
    ensures IsDone(seen, done) && |Encode(done)| == DoneBytes(fs, |seen|)
  {
    PrefixIsRead(k, fs, seen);
    NoMark(k, fs, seen);
    DoneIsPaired(k, fs, DoneCount(fs, |seen|));
    done := WireAll(fs[..DoneCount(fs, |seen|)]);
  }

  lemma Waiting(done: Text, rest: Text, added: Text, held: Bytes, now: Bytes)
    requires Paired(done) && Encode(done + rest + added) + held == now
    ensures |Encode(rest + added)| + |held| == |now| - |Encode(done)|
  {
    Regroup(done, rest, added);
    EncodeAppend(done, rest + added);
  }

  /** Some chunk makes the bytes that wait for the end of their frame more than the limit. */
  predicate Overflow(fs: seq<Frame>, before: nat, chunks: seq<Bytes>, maxBytes: nat)
    decreases |chunks|
  {
    chunks != [] && (before + |chunks[0]| - DoneBytes(fs, before) > maxBytes || Overflow(fs, before + |chunks[0]|, chunks[1..], maxBytes))
  }

  predicate FitsUnlessOverflow(fs: seq<Frame>, seen: Bytes, chunks: seq<Bytes>, maxBytes: nat) {
    Fits(seen, chunks, maxBytes) <==> !Overflow(fs, |seen|, chunks, maxBytes)
  }

  lemma OverflowStep(fs: seq<Frame>, seen: Bytes, chunks: seq<Bytes>, maxBytes: nat)
    requires chunks != [] && SizeIsBacklog(fs, seen, chunks[0])
    requires FitsUnlessOverflow(fs, seen + chunks[0], chunks[1..], maxBytes)
    ensures FitsUnlessOverflow(fs, seen, chunks, maxBytes)
  {
    assert |seen + chunks[0]| == |seen| + |chunks[0]|;
  }

  lemma ConcatStep(seen: Bytes, chunks: seq<Bytes>, all: Bytes)
    requires chunks != [] && seen + Concat(chunks) == all
    ensures seen + chunks[0] + Concat(chunks[1..]) == all && seen + chunks[0] <= all
  {
    assert seen + chunks[0] + Concat(chunks[1..]) == seen + Concat(chunks);
  }

  lemma {:induction false} FitsIffNoOverflow(k: Contract, fs: seq<Frame>, seen: Bytes, chunks: seq<Bytes>, maxBytes: nat)
    requires AllSound(k, fs) && seen + Concat(chunks) == Encode(WireAll(fs)) && Decode(Encode(WireAll(fs))).Good?
    ensures FitsUnlessOverflow(fs, seen, chunks, maxBytes)
    decreases |chunks|
  {
    if chunks != [] {
      ConcatStep(seen, chunks, Encode(WireAll(fs)));
      PendingIsBacklog(k, fs, seen, chunks[0]);
      FitsIffNoOverflow(k, fs, seen + chunks[0], chunks[1..], maxBytes);
      OverflowStep(fs, seen, chunks, maxBytes);
    }
  }

  /** For every list of server frames and every cutting of its bytes into chunks: the client yields
      exactly the notifications and gaps, in order, and ends well, unless some chunk makes the bytes
      that wait for the end of their frame more than the limit; then it ends for that reason. */
  lemma ServerFramesArrive(k: Contract, fs: seq<Frame>, chunks: seq<Bytes>, maxBytes: nat)
    requires ReadsPrinted(k) && AllSound(k, fs) && Concat(chunks) == Encode(WireAll(fs))
    ensures if Overflow(fs, 0, chunks, maxBytes) then Run(k, maxBytes, START, chunks).end == TooLarge
            else Run(k, maxBytes, START, chunks) == Outcome(Items(fs), Finished)
  {
    var all := Encode(WireAll(fs));
    WireIsPaired(k, fs);
    DecodesBack(WireAll(fs));
    assert [] + Concat(chunks) == all;
    FitsIffNoOverflow(k, fs, [], chunks, maxBytes);
    AllRead(k, fs);
    if Fits([], chunks, maxBytes) {
      ChunksDoNotMatter(k, maxBytes, chunks);
    } else {
      AfterNothing();
      RunOverflows(k, maxBytes, [], chunks);
    }
  }

  /** All the server's bytes, taken whole. */
  lemma AllRead(k: Contract, fs: seq<Frame>)
    requires ReadsPrinted(k) && AllSound(k, fs) && Decode(Encode(WireAll(fs))).Good?
    ensures Complete(k, Encode(WireAll(fs))).ok
    ensures Whole(k, Encode(WireAll(fs))) == Outcome(Items(fs), Finished)
  {
    var all := Encode(WireAll(fs));
    WireIsPaired(k, fs);
    DecodesBack(WireAll(fs));
    NoMark(k, fs, all);
    AllFramed(k, fs);
    FramesConsumed(k, fs);
  }

  lemma {:induction false} AllFramed(k: Contract, fs: seq<Frame>)
    requires AllSound(k, fs)
    ensures CutFrames(WireAll(fs)) == Cut(FrameTexts(fs), [])
  {
    if fs != [] {
      assert fs[0] in fs;
      AllFramed(k, fs[1..]);
      FirstFrameFramed(k, fs[0], WireAll(fs[1..]));
      assert [FrameText(fs[0])] + FrameTexts(fs[1..]) == FrameTexts(fs);
    }
  }
}
