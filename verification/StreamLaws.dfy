/** What the client accepts, on whatever bytes it is sent. */
module StreamLaws {
  import opened CodeUnits
  import opened CanonicalJson
  import opened CanonicalMeaning
  import opened Strings
  import opened Utf8
  import opened EventStream
  import opened EventDelivery

  // ---------------------------------------------------------------- UTF-8

  /** A proper beginning of the encoding of some character, or nothing. */
  ghost predicate Unfinished(held: Bytes) {
    held == [] || exists c: int :: IsScalar(c) && held < EncodeCode(c)
  }

  /** A byte that may follow, when a character has begun like this. */
  function NextByte(b: Bytes): Byte {
    if b == [0xE0] then 0xA0 else if b == [0xF0] then 0x90 else 0x80
  }

  lemma {:induction false} BegunCanEnd(b: Bytes) returns (c: int)
    requires b != [] && First(b).Short?
    ensures IsScalar(c) && b < EncodeCode(c)
    decreases 4 - |b|
  {
    var more := b + [NextByte(b)];
    if First(more).Short? {
      c := BegunCanEnd(more);
    } else {
      DecodedIsScalar(more);
      c := First(more).code;
      assert EncodeCode(c) == more;
    }
  }

  lemma {:induction false} LastIsHeld(b: Bytes)
    requires Decode(b).Good?
    ensures var held := Decode(b).held; held == [] || First(held).Short?
    decreases |b|
  {
    if b != [] && First(b).Char? {
      DecodedIsScalar(b);
      LastIsHeld(b[First(b).width..]);
    }
  }

  lemma BeginningIsShort(c: int, b: Bytes)
    requires IsScalar(c) && b < EncodeCode(c) && b != []
    ensures First(b).Short?
  {
    CodeReads(c, []);
    assert EncodeCode(c) + [] == EncodeCode(c);
    assert b[0] == EncodeCode(c)[0];
  }

  /** The decoder accepts exactly what encodes well-formed text, and then the beginning of one more character
      at most, which it holds back. */
  lemma DecodesExactly(b: Bytes, text: Text, held: Bytes)
    ensures Decode(b) == Good(text, held) <==> Paired(text) && b == Encode(text) + held && Unfinished(held)
  {
    if Decode(b) == Good(text, held) {
      DecodeKeepsAll(b);
      LastIsHeld(b);
      if held != [] {
        var c := BegunCanEnd(held);
      }
    }
    if Paired(text) && b == Encode(text) + held && Unfinished(held) {
      DecodesBack(text);
      DecodePieces(Encode(text), held);
      if held != [] {
        var c :| IsScalar(c) && held < EncodeCode(c);
        BeginningIsShort(c, held);
      }
      assert [] + held == held && text + [] == text;
    }
  }

  // ---------------------------------------------------------------- frames

  /** A blank line ends here. */
  predicate BlankAt(t: Text, i: nat) { i + 1 < |t| && t[i] == 10 && t[i + 1] == 10 }

  lemma {:induction false} BoundaryIsFirst(t: Text)
    ensures match Boundary(t)
      case Some(i) => BlankAt(t, i) && forall j :: 0 <= j < i ==> !BlankAt(t, j)
      case None => forall j :: 0 <= j < |t| ==> !BlankAt(t, j)
  {
    if |t| >= 2 && !(t[0] == NEWLINE && t[1] == NEWLINE) {
      BoundaryIsFirst(t[1..]);
      forall j | 0 < j < |t|
        ensures BlankAt(t, j) <==> BlankAt(t[1..], j - 1)
      {
      }
    }
  }

  /** The frames, each ended by a blank line. */
  function Ended(frames: seq<Text>): Text {
    if frames == [] then [] else frames[0] + [10, 10] + Ended(frames[1..])
  }

  /** The first blank line after the frame begins where the frame ends. */
  predicate IsFrame(f: Text) { forall j :: 0 <= j < |f| ==> !BlankAt(f + [10, 10], j) }

  lemma FrameTaken(f: Text, more: Text)
    requires IsFrame(f)
    ensures Boundary(f + [10, 10] + more) == Some(|f|)
  {
    var t := f + [10, 10] + more;
    BoundaryIsFirst(t);
    assert BlankAt(t, |f|);
    forall j | 0 <= j < |f|
      ensures !BlankAt(t, j)
    {
      assert !BlankAt(f + [10, 10], j);
    }
  }

  predicate AllFrames(frames: seq<Text>) { forall i :: 0 <= i < |frames| ==> IsFrame(frames[i]) }

  predicate NoBlankLine(t: Text) { forall j :: 0 <= j < |t| ==> !BlankAt(t, j) }

  lemma FirstCut(t: Text, i: nat, frames: seq<Text>)
    requires Boundary(t) == Some(i) && frames != []
    ensures CutFrames(t).frames == frames <==> frames[0] == t[..i] && CutFrames(t[i + 2..]).frames == frames[1..]
    ensures CutFrames(t).rest == CutFrames(t[i + 2..]).rest
  {
    var more := CutFrames(t[i + 2..]).frames;
    assert ([t[..i]] + more)[1..] == more;
    assert frames == [frames[0]] + frames[1..];
  }

  lemma FirstEnded(t: Text, i: nat, frames: seq<Text>, rest: Text)
    requires Boundary(t) == Some(i) && frames != []
    ensures t == Ended(frames) + rest && AllFrames(frames) <==>
      frames[0] == t[..i] && t[i + 2..] == Ended(frames[1..]) + rest && AllFrames(frames[1..])
  {
    BoundaryIsFirst(t);
    var more := Ended(frames[1..]) + rest;
    assert Ended(frames) + rest == frames[0] + [10, 10] + more;
    if t == Ended(frames) + rest && AllFrames(frames) {
      FrameTaken(frames[0], more);
      assert t[i + 2..] == more;
    }
    if frames[0] == t[..i] && t[i + 2..] == more && AllFrames(frames[1..]) {
      assert t == t[..i] + [10, 10] + t[i + 2..];
      forall j | 0 <= j < i
        ensures !BlankAt(t[..i] + [10, 10], j)
      {
        assert !BlankAt(t, j);
      }
      assert frames == [frames[0]] + frames[1..];
    }
  }

  lemma NothingCut(t: Text, frames: seq<Text>, rest: Text)
    requires Boundary(t) == None && frames != [] && IsFrame(frames[0])
    ensures t != Ended(frames) + rest
  {
    var more := Ended(frames[1..]) + rest;
    FrameTaken(frames[0], more);
    assert Ended(frames) + rest == frames[0] + [10, 10] + more;
  }

  /** Framing takes a text apart in the one way in which every frame ends at its first blank line and none is
      left. */
  lemma {:induction false} CutsExactly(t: Text, frames: seq<Text>, rest: Text)
    ensures CutFrames(t) == Cut(frames, rest) <==> t == Ended(frames) + rest && AllFrames(frames) && NoBlankLine(rest)
    decreases |t| + |frames|
  {
    BoundaryIsFirst(t);
    if frames == [] {
      assert [] + rest == rest;
      if Boundary(t).Some? {
        assert CutFrames(t).frames != [];
      }
    } else if Boundary(t).Some? {
      var i := Boundary(t).value;
      CutsExactly(t[i + 2..], frames[1..], rest);
      FirstCut(t, i, frames);
      FirstEnded(t, i, frames, rest);
    } else {
      assert CutFrames(t).frames == [];
      if AllFrames(frames) {
        NothingCut(t, frames, rest);
      }
    }
  }

  // ---------------------------------------------------------------- fields

  /** A line of the frame is the field with this value, and no line before it starts as the field does. */
  ghost predicate Carries(frame: Text, field: string, v: Text) {
    exists rows: seq<Text>, i: nat :: CarriesAt(frame, field, v, rows, i)
  }

  predicate CarriesAt(frame: Text, field: string, v: Text, rows: seq<Text>, i: nat) {
    && rows != [] && OneLineEach(rows) && frame == JoinedBy(rows, [10])
    && i < |rows| && rows[i] == Ascii(field) + v && forall j :: 0 <= j < i ==> !(Ascii(field) <= rows[j])
  }

  lemma {:induction false} FindIsFirst(lines: seq<Text>, field: Text)
    ensures match Find(lines, field)
      case None => forall j :: 0 <= j < |lines| ==> !(field <= lines[j])
      case Some(v) => exists i :: 0 <= i < |lines| && lines[i] == field + v && forall j :: 0 <= j < i ==> !(field <= lines[j])
  {
    if lines != [] {
      if field <= lines[0] {
        assert lines[0] == field + lines[0][|field|..];
      } else {
        FindIsFirst(lines[1..], field);
        if Find(lines[1..], field).Some? {
          var i :| 0 <= i < |lines[1..]| && lines[1..][i] == field + Find(lines, field).value
                   && forall j :: 0 <= j < i ==> !(field <= lines[1..][j]);
          assert lines[i + 1] == field + Find(lines, field).value;
          forall j | 0 <= j < i + 1
            ensures !(field <= lines[j])
          {
            assert j > 0 ==> lines[j] == lines[1..][j - 1];
          }
        }
      }
    }
  }

  lemma CarriedIsFound(frame: Text, field: string, v: Text, rows: seq<Text>, i: nat)
    requires CarriesAt(frame, field, v, rows, i)
    ensures Find(Lines(frame), Ascii(field)) == Some(v)
  {
    LinesExactly(frame, rows);
    FindIsFirst(rows, Ascii(field));
    assert Ascii(field) <= rows[i];
    var w := Find(rows, Ascii(field)).value;
    var k :| 0 <= k < |rows| && rows[k] == Ascii(field) + w && forall j :: 0 <= j < k ==> !(Ascii(field) <= rows[j]);
    assert Ascii(field) <= rows[k] && k == i;
    assert (Ascii(field) + w)[|field|..] == w && (Ascii(field) + v)[|field|..] == v;
  }

  /** The first line of a field is what the client takes for its value. */
  lemma FoundIsCarried(frame: Text, field: string, v: Text)
    ensures Find(Lines(frame), Ascii(field)) == Some(v) <==> Carries(frame, field, v)
  {
    if Find(Lines(frame), Ascii(field)) == Some(v) {
      LinesExactly(frame, Lines(frame));
      FindIsFirst(Lines(frame), Ascii(field));
      var i :| 0 <= i < |Lines(frame)| && Lines(frame)[i] == Ascii(field) + v
               && forall j :: 0 <= j < i ==> !(Ascii(field) <= Lines(frame)[j]);
      assert CarriesAt(frame, field, v, Lines(frame), i);
    }
    if rows: seq<Text>, i: nat :| CarriesAt(frame, field, v, rows, i) {
      CarriedIsFound(frame, field, v, rows, i);
    }
  }

  // ---------------------------------------------------------------- what a frame says

  /** The data of a frame reads as this value. */
  ghost predicate Tells(k: Contract, frame: Text, v: Json) {
    exists data :: Carries(frame, "data: ", data) && k.parse(data) == Some(v)
  }

  ghost predicate TellsGap(k: Contract, frame: Text) {
    && Carries(frame, "event: ", Ascii("gap"))
    && Tells(k, frame, Obj([Member(Ascii("code"), Str(Ascii("CONTROL_SSE_RETENTION_GAP")))]))
  }

  /** A notification of the kind the frame names, which is not that of gaps. */
  ghost predicate TellsNote(k: Contract, frame: Text, v: Json) {
    Tells(k, frame, v) && k.isNotification(v) && k.kind(v) != Ascii("gap") && Carries(frame, "event: ", k.kind(v))
  }

  /** A comment: no data, and not about a gap. */
  ghost predicate TellsNothing(frame: Text) {
    && frame != [] && frame[0] == 58
    && !Carries(frame, "event: ", Ascii("gap")) && !exists data :: Carries(frame, "data: ", data)
  }

  lemma FieldsCarried(frame: Text)
    ensures forall v :: Find(Lines(frame), EVENT_FIELD) == Some(v) <==> Carries(frame, "event: ", v)
    ensures forall v :: Find(Lines(frame), DATA_FIELD) == Some(v) <==> Carries(frame, "data: ", v)
  {
    forall v
      ensures Find(Lines(frame), EVENT_FIELD) == Some(v) <==> Carries(frame, "event: ", v)
      ensures Find(Lines(frame), DATA_FIELD) == Some(v) <==> Carries(frame, "data: ", v)
    {
      FoundIsCarried(frame, "event: ", v);
      FoundIsCarried(frame, "data: ", v);
    }
  }

  /** Each frame is a gap, a notification, a comment, or wrong. */
  lemma FrameIsTold(k: Contract, frame: Text)
    ensures Handle(k, frame) == Yields(Gap) <==> TellsGap(k, frame)
    ensures forall v :: Handle(k, frame) == Yields(Note(v)) <==> TellsNote(k, frame, v)
    ensures Handle(k, frame) == Nothing <==> TellsNothing(frame)
  {
    FieldsCarried(frame);
  }

  // ---------------------------------------------------------------- whole streams

  /** The frames tell exactly these items, in order. */
  ghost predicate Told(k: Contract, frames: seq<Text>, items: seq<Item>) {
    if frames == [] then items == []
    else if TellsNothing(frames[0]) then Told(k, frames[1..], items)
    else
      items != [] && Told(k, frames[1..], items[1..])
      && match items[0]
         case Gap => TellsGap(k, frames[0])
         case Note(v) => TellsNote(k, frames[0], v)
  }

  lemma {:induction false} ConsumedIsTold(k: Contract, frames: seq<Text>, items: seq<Item>)
    ensures Consume(k, frames) == Consumed(items, true) <==> Told(k, frames, items)
  {
    if frames != [] {
      FrameIsTold(k, frames[0]);
      var handled := Handle(k, frames[0]);
      if handled.Nothing? {
        ConsumedIsTold(k, frames[1..], items);
      } else if items != [] {
        ConsumedIsTold(k, frames[1..], items[1..]);
        assert items == [items[0]] + items[1..];
        if handled.Yields? {
          assert ([handled.item] + Consume(k, frames[1..]).items)[1..] == Consume(k, frames[1..]).items;
        }
      }
    }
  }

  lemma ChunkSize(seen: Bytes, chunk: Bytes)
    requires Decode(seen).Good? && Decode(Decode(seen).held + chunk).Good?
    ensures Decode(seen + chunk).Good?
    ensures var text := Decode(Decode(seen).held + chunk).text;
      |Encode(Pending(After(seen), text))| + (|Decode(seen).held| + |chunk| - |Encode(text)|) == SizeAt(seen, chunk)
  {
    DecodePieces(seen, chunk);
    TextGrows(seen, chunk);
    DecodeKeepsAll(Decode(seen).held + chunk);
  }

  lemma WentOn(k: Contract, maxBytes: nat, seen: Bytes, chunk: Bytes)
    requires Decode(seen).Good? && Complete(k, seen).ok && ReadChunk(k, maxBytes, After(seen), chunk).Go?
    ensures Decode(seen + chunk).Good? && SizeAt(seen, chunk) <= maxBytes && Complete(k, seen + chunk).ok
    ensures ReadChunk(k, maxBytes, After(seen), chunk).client == After(seen + chunk)
  {
    ChunkSize(seen, chunk);
    StepInto(k, maxBytes, seen, chunk);
  }

  /** A stream that ends well was well-formed, and no chunk of it was too large. */
  lemma {:induction false} FinishedFits(k: Contract, maxBytes: nat, seen: Bytes, chunks: seq<Bytes>)
    requires Decode(seen).Good? && Complete(k, seen).ok && Run(k, maxBytes, After(seen), chunks).end == Finished
    ensures Decode(seen + Concat(chunks)).Good? && Fits(seen, chunks, maxBytes)
    decreases |chunks|
  {
    hide Complete, SizeAt, Decode, After;
    if chunks == [] {
      assert seen + [] == seen;
    } else {
      var chunk, later := chunks[0], chunks[1..];
      Stops(k, maxBytes, After(seen), chunk);
      WentOn(k, maxBytes, seen, chunk);
      FinishedFits(k, maxBytes, seen + chunk, later);
      assert seen + chunk + Concat(later) == seen + Concat(chunks);
    }
  }

  lemma Stops(k: Contract, maxBytes: nat, c: Client, chunk: Bytes)
    ensures var s := ReadChunk(k, maxBytes, c, chunk); s.Stop? ==> s.outcome.end != Finished
  {
  }

  /** The text without a byte order mark that starts it. */
  function Unmarked(t: Text): Text { if t != [] && t[0] == 0xFEFF then t[1..] else t }

  /** The bytes are the frames of a stream, after a byte order mark or none, that tell these items. */
  ghost predicate IsStream(k: Contract, b: Bytes, items: seq<Item>, text: Text, frames: seq<Text>) {
    Paired(text) && b == Encode(text) && Unmarked(text) == Ended(frames) && AllFrames(frames) && Told(k, frames, items)
  }

  lemma WholeIsStream(k: Contract, b: Bytes, items: seq<Item>)
    requires Decode(b).Good?
    ensures Whole(k, b) == Outcome(items, Finished) <==> exists text, frames :: IsStream(k, b, items, text, frames)
  {
    var text, held := Decode(b).text, Decode(b).held;
    var frames := CutFrames(StreamText(b)).frames;
    if Whole(k, b) == Outcome(items, Finished) {
      DecodesExactly(b, text, held);
      CutsExactly(Unmarked(text), frames, []);
      ConsumedIsTold(k, frames, items);
      assert b == Encode(text) && Ended(frames) + [] == Ended(frames);
      assert IsStream(k, b, items, text, frames);
    }
    if t, fs :| IsStream(k, b, items, t, fs) {
      assert b == Encode(t) + [];
      DecodesExactly(b, t, []);
      assert Ended(fs) == Ended(fs) + [];
      CutsExactly(Unmarked(t), fs, []);
      ConsumedIsTold(k, fs, items);
    }
  }

  /** A stream ends well, with these items, iff its bytes encode complete frames that tell them and no chunk
      makes the pending data outgrow the limit. */
  lemma FinishesIffComplete(k: Contract, maxBytes: nat, chunks: seq<Bytes>, items: seq<Item>)
    ensures Run(k, maxBytes, START, chunks) == Outcome(items, Finished) <==>
      Fits([], chunks, maxBytes) && exists text, frames :: IsStream(k, Concat(chunks), items, text, frames)
  {
    var b := Concat(chunks);
    AfterNothing();
    NothingBefore(b);
    if Run(k, maxBytes, START, chunks) == Outcome(items, Finished) {
      FinishedFits(k, maxBytes, [], chunks);
      ChunksDoNotMatter(k, maxBytes, chunks);
      WholeIsStream(k, b, items);
    }
    if Fits([], chunks, maxBytes) && exists text, frames :: IsStream(k, b, items, text, frames) {
      var text, frames :| IsStream(k, b, items, text, frames);
      DecodesBack(text);
      ChunksDoNotMatter(k, maxBytes, chunks);
      WholeIsStream(k, b, items);
    }
  }

  // ---------------------------------------------------------------- the server's frames

  /** What the server writes for each frame. */
  lemma NotificationsAreSpelled(id: Text, kind: Text, body: Json)
    ensures Wire(Notify(id, kind, body)) ==
      Ascii("id: ") + id + [10] + (Ascii("event: ") + kind + [10] + (Ascii("data: ") + Stringify(body))) + [10, 10]
  {
  }

  lemma HeartbeatsAreSpelled()
    ensures Wire(Heartbeat) == Ascii(": heartbeat\n\n")
  {
    assert Ascii(": heartbeat\n\n") == Ascii(": heartbeat") + [10, 10];
  }

  lemma GapsAreSpelled()
    ensures Wire(GapFrame) ==
      Ascii("event: gap\ndata: ") + (Ascii("{\"code\":\"") + Ascii("CONTROL_SSE_RETENTION_GAP") + Ascii("\"}")) + Ascii("\n\n")
  {
    assert Ascii("event: gap\ndata: ") == Ascii("event: ") + Ascii("gap") + [10] + Ascii("data: ");
    assert Ascii("\n\n") == [10, 10];
  }

  /** A server's stream that is cut off is noticed: the client yields what the frames complete so far say, and
      ends well iff the cut is between two frames. */
  lemma TruncationIsNoticed(k: Contract, fs: seq<Frame>, chunks: seq<Bytes>, maxBytes: nat)
    requires ReadsPrinted(k) && AllSound(k, fs) && Concat(chunks) <= Encode(WireAll(fs))
    requires Fits([], chunks, maxBytes)
    ensures var n := |Concat(chunks)|;
      var r := Run(k, maxBytes, START, chunks);
      && r.items == Items(fs[..DoneCount(fs, n)])
      && (r.end == Finished <==> DoneBytes(fs, n) == n) && r.end in {Finished, TruncatedUtf8, IncompleteFrame}
  {
    var seen := Concat(chunks);
    PrefixIsRead(k, fs, seen);
    NoMark(k, fs, seen);
    ChunksDoNotMatter(k, maxBytes, chunks);
    var n := DoneCount(fs, |seen|);
    assert AllSound(k, fs[..n]);
    FramesConsumed(k, fs[..n]);
    DecodeKeepsAll(seen);
    DoneIsPaired(k, fs, n);
    EncodeAppend(WireAll(fs[..n]), CutFrames(Decode(seen).text).rest);
    NoBytesNoText(CutFrames(Decode(seen).text).rest);
  }

  lemma NoBytesNoText(t: Text)
    ensures Encode(t) == [] <==> t == []
  {
  }
}
