/** `parseYamlNode` as it runs: loops over the lines, and a node counter all calls share. */
module YamlParser {
  import opened CodeUnits
  import opened Numerals
  import opened CanonicalJson
  import opened RestrictedYaml

  /** `nodeCounter`; its value when a call fails is nobody's business. */
  class NodeCounter {
    var value: nat

    constructor (start: nat)
      ensures value == start
    {
      value := start;
    }
  }

  datatype ParseResult = Parsed(value: Value, next: nat) | Failed(failure: Failure)

  /** What a call from line `start` returns and leaves in the counter is what the specification says. */
  predicate Meets(s: Result<Value>, start: nat, r: ParseResult, count: nat) {
    if s.Ok? then r == Parsed(s.value, start + s.used) && count == s.count else r == Failed(s.failure)
  }

  // ---------------------------------------------------------------- the specification on suffixes

  predicate NodeMeets(lines: seq<Line>, start: nat, indent: nat, limits: Limits, depth: nat, from: nat, r: ParseResult, count: nat)
    requires start <= |lines|
  {
    Meets(Node(lines[start..], indent, limits, depth, from), start, r, count)
  }

  predicate ItemsMeet(lines: seq<Line>, start: nat, indent: nat, limits: Limits, depth: nat, from: nat, r: ParseResult, count: nat)
    requires start <= |lines|
  {
    Meets(Items(lines[start..], indent, limits, depth, from, []), start, r, count)
  }

  predicate MembersMeet(lines: seq<Line>, start: nat, indent: nat, limits: Limits, depth: nat, from: nat, r: ParseResult, count: nat)
    requires start <= |lines|
  {
    Meets(Members(lines[start..], indent, limits, depth, from, map[]), start, r, count)
  }

  predicate ItemMeets(lines: seq<Line>, index: nat, indent: nat, limits: Limits, depth: nat, from: nat, r: ParseResult, count: nat)
    requires index < |lines|
  {
    Meets(Item(lines[index].content, lines[index + 1..], indent, limits, depth, from), index + 1, r, count)
  }

  predicate EntryMeets(scalar: Text, lines: seq<Line>, start: nat, indent: nat, limits: Limits, depth: nat, from: nat, r: ParseResult, count: nat)
    requires start <= |lines|
  {
    Meets(EntryValue(scalar, lines[start..], indent, limits, depth, from), start, r, count)
  }

  predicate CompactMeets(entry: Text, lines: seq<Line>, start: nat, indent: nat, limits: Limits, depth: nat, from: nat, r: ParseResult, count: nat)
    requires start <= |lines|
  {
    Meets(Compact(entry, lines[start..], indent, limits, depth, from), start, r, count)
  }

  /** The sequence loop stands at `index` with these values. */
  predicate ItemsAt(lines: seq<Line>, start: nat, index: nat, indent: nat, limits: Limits, depth: nat, from: nat,
                    count: nat, values: seq<Value>)
    requires start <= index <= |lines|
  {
    Items(lines[start..], indent, limits, depth, from, []) ==
      After(index - start, Items(lines[index..], indent, limits, depth, count, values))
  }

  predicate MembersAt(lines: seq<Line>, start: nat, index: nat, indent: nat, limits: Limits, depth: nat, from: nat,
                      count: nat, fields: Fields)
    requires start <= index <= |lines|
  {
    Members(lines[start..], indent, limits, depth, from, map[]) ==
      After(index - start, Members(lines[index..], indent, limits, depth, count, fields))
  }

  predicate GoesOn(lines: seq<Line>, index: nat, indent: nat) { index < |lines| && lines[index].indent == indent }

  lemma NextItem(lines: seq<Line>, start: nat, index: nat, indent: nat, limits: Limits, depth: nat, from: nat,
                 count: nat, values: seq<Value>, r: ParseResult, now: nat)
    requires start <= index && GoesOn(lines, index, indent) && Dashed(lines[index].content)
    requires ItemsAt(lines, start, index, indent, limits, depth, from, count, values)
    requires ItemMeets(lines, index, indent, limits, depth, count, r, now)
    ensures r.Failed? ==> ItemsMeet(lines, start, indent, limits, depth, from, r, now)
    ensures r.Parsed? ==> index < r.next <= |lines|
                          && ItemsAt(lines, start, r.next, indent, limits, depth, from, now, values + [r.value])
  {
    var rest := lines[index..];
    ItemsStep(rest, indent, limits, depth, count, values);
    assert rest[1..] == lines[index + 1..];
    if r.Parsed? {
      assert lines[index + 1..][r.next - index - 1..] == lines[r.next..];
    }
  }

  lemma NextMember(lines: seq<Line>, start: nat, index: nat, indent: nat, limits: Limits, depth: nat, from: nat,
                   count: nat, fields: Fields, pair: Pair, r: ParseResult, now: nat)
    requires start <= index && GoesOn(lines, index, indent) && !Dashed(lines[index].content)
    requires MembersAt(lines, start, index, indent, limits, depth, from, count, fields)
    requires count + 1 <= limits.maxNodes && SplitMapping(lines[index].content) == Some(pair) && pair.key !in fields
    requires EntryMeets(pair.scalar, lines, index + 1, indent + 2, limits, depth + 1, count + 1, r, now)
    ensures r.Failed? ==> MembersMeet(lines, start, indent, limits, depth, from, r, now)
    ensures r.Parsed? ==> index < r.next <= |lines|
                          && MembersAt(lines, start, r.next, indent, limits, depth, from, now, fields[pair.key := r.value])
  {
    var rest := lines[index..];
    MembersStep(rest, indent, limits, depth, count, fields, pair);
    assert rest[1..] == lines[index + 1..];
    if r.Parsed? {
      assert lines[index + 1..][r.next - index - 1..] == lines[r.next..];
    }
  }

  lemma MembersStep(lines: seq<Line>, indent: nat, limits: Limits, depth: nat, count: nat, fields: Fields, pair: Pair)
    requires lines != [] && lines[0].indent == indent && !Dashed(lines[0].content) && count + 1 <= limits.maxNodes
    requires SplitMapping(lines[0].content) == Some(pair) && pair.key !in fields
    ensures Members(lines, indent, limits, depth, count, fields) == AfterKey(pair, lines[1..], indent, limits, depth, count + 1, fields)
  {
  }

  // ---------------------------------------------------------------- the parser

  method ParseYamlNode(lines: seq<Line>, start: nat, indent: nat, limits: Limits, depth: nat, nodeCounter: NodeCounter)
    returns (r: ParseResult)
    requires start <= |lines|
    modifies nodeCounter
    ensures NodeMeets(lines, start, indent, limits, depth, old(nodeCounter.value), r, nodeCounter.value)
    decreases |lines| - start, 2
  {
    if depth > limits.maxDepth {
      return Failed(LimitExceeded);
    }
    if !GoesOn(lines, start, indent) {
      return Failed(InvalidYaml);
    }
    assert lines[start..][0] == lines[start];
    if Dashed(lines[start].content) {
      r := ParseSequence(lines, start, indent, limits, depth, nodeCounter);
    } else {
      r := ParseMapping(lines, start, indent, limits, depth, nodeCounter);
    }
  }

  method ParseSequence(lines: seq<Line>, start: nat, indent: nat, limits: Limits, depth: nat, nodeCounter: NodeCounter)
    returns (r: ParseResult)
    requires start <= |lines|
    modifies nodeCounter
    ensures ItemsMeet(lines, start, indent, limits, depth, old(nodeCounter.value), r, nodeCounter.value)
    decreases |lines| - start, 1
  {
    var values: seq<Value> := [];
    var index := start;
    while GoesOn(lines, index, indent) && Dashed(lines[index].content)
      invariant start <= index <= |lines|
      invariant ItemsAt(lines, start, index, indent, limits, depth, old(nodeCounter.value), nodeCounter.value, values)
      decreases |lines| - index
    {
      ghost var count := nodeCounter.value;
      var item := ParseItem(lines, index, indent, limits, depth, nodeCounter);
      NextItem(lines, start, index, indent, limits, depth, old(nodeCounter.value), count, values, item, nodeCounter.value);
      if item.Failed? {
        return item;
      }
      values := values + [item.value];
      index := item.next;
    }
    assert index < |lines| ==> lines[index..][0] == lines[index];
    r := Parsed(ArrValue(values), index);
  }

  /** One round of the sequence loop. */
  method ParseItem(lines: seq<Line>, index: nat, indent: nat, limits: Limits, depth: nat, nodeCounter: NodeCounter)
    returns (r: ParseResult)
    requires GoesOn(lines, index, indent) && Dashed(lines[index].content)
    modifies nodeCounter
    ensures ItemMeets(lines, index, indent, limits, depth, old(nodeCounter.value), r, nodeCounter.value)
    decreases |lines| - index, 0
  {
    var line := lines[index];
    if line.content != [MINUS] && !Marked(line.content) {
      return Failed(InvalidYaml);
    }
    nodeCounter.value := nodeCounter.value + 1;
    if nodeCounter.value > limits.maxNodes {
      return Failed(LimitExceeded);
    }
    var rest := if line.content == [MINUS] then [] else line.content[2..];
    if rest == [] {
      if !GoesOn(lines, index + 1, indent + 2) {
        return Failed(InvalidYaml);
      }
      r := ParseYamlNode(lines, index + 1, indent + 2, limits, depth + 1, nodeCounter);
    } else if StartsEntry(rest) {
      r := ParseCompact(rest, lines, index, indent, limits, depth, nodeCounter);
    } else {
      var scalar := ParseScalar(rest, limits);
      r := if scalar.Ok? then Parsed(scalar.value, index + 1) else Failed(scalar.failure);
    }
  }

  /** The value of an entry whose key line is the one before `start`. */
  method ParseEntryValue(scalar: Text, lines: seq<Line>, start: nat, indent: nat, limits: Limits, depth: nat, nodeCounter: NodeCounter)
    returns (r: ParseResult)
    requires 1 <= start <= |lines|
    modifies nodeCounter
    ensures EntryMeets(scalar, lines, start, indent, limits, depth, old(nodeCounter.value), r, nodeCounter.value)
    decreases |lines| - start, 3
  {
    if scalar == [] {
      if !GoesOn(lines, start, indent) {
        return Failed(InvalidYaml);
      }
      r := ParseYamlNode(lines, start, indent, limits, depth, nodeCounter);
    } else {
      var parsed := ParseScalar(scalar, limits);
      r := if parsed.Ok? then Parsed(parsed.value, start) else Failed(parsed.failure);
    }
  }

  /** A mapping that starts on the marker line at `index`. */
  method ParseCompact(entry: Text, lines: seq<Line>, index: nat, indent: nat, limits: Limits, depth: nat, nodeCounter: NodeCounter)
    returns (r: ParseResult)
    requires index < |lines|
    modifies nodeCounter
    ensures CompactMeets(entry, lines, index + 1, indent, limits, depth, old(nodeCounter.value), r, nodeCounter.value)
    decreases |lines| - index - 1, 4
  {
    var pair := SplitMapping(entry);
    if pair.None? {
      return Failed(InvalidYaml);
    }
    var value := ParseEntryValue(pair.value.scalar, lines, index + 1, indent + 4, limits, depth + 2, nodeCounter);
    if value.Failed? {
      return value;
    }
    var fields: Fields := map[pair.value.key := value.value];
    var next := value.next;
    assert lines[index + 1..][next - index - 1..] == lines[next..];
    if GoesOn(lines, next, indent + 2) && !Dashed(lines[next].content) {
      var tail := ParseYamlNode(lines, next, indent + 2, limits, depth + 1, nodeCounter);
      if tail.Failed? {
        return tail;
      }
      if !tail.value.ObjValue? || !Apart(tail.value.fields, fields) {
        return Failed(InvalidYaml);
      }
      r := Parsed(ObjValue(fields + tail.value.fields), tail.next);
    } else {
      r := Parsed(ObjValue(fields), next);
    }
  }

  method ParseMapping(lines: seq<Line>, start: nat, indent: nat, limits: Limits, depth: nat, nodeCounter: NodeCounter)
    returns (r: ParseResult)
    requires start <= |lines|
    modifies nodeCounter
    ensures MembersMeet(lines, start, indent, limits, depth, old(nodeCounter.value), r, nodeCounter.value)
    decreases |lines| - start, 1
  {
    var fields: Fields := map[];
    var index := start;
    while GoesOn(lines, index, indent) && !Dashed(lines[index].content)
      invariant start <= index <= |lines|
      invariant MembersAt(lines, start, index, indent, limits, depth, old(nodeCounter.value), nodeCounter.value, fields)
      decreases |lines| - index
    {
      var line := lines[index];
      assert lines[index..][0] == line;
      ghost var count := nodeCounter.value;
      nodeCounter.value := nodeCounter.value + 1;
      if nodeCounter.value > limits.maxNodes {
        return Failed(LimitExceeded);
      }
      var pair := SplitMapping(line.content);
      if pair.None? {
        return Failed(InvalidYaml);
      }
      if pair.value.key in fields {
        return Failed(InvalidYaml);
      }
      var value := ParseEntryValue(pair.value.scalar, lines, index + 1, indent + 2, limits, depth + 1, nodeCounter);
      NextMember(lines, start, index, indent, limits, depth, old(nodeCounter.value), count, fields, pair.value, value, nodeCounter.value);
      if value.Failed? {
        return value;
      }
      fields := fields[pair.value.key := value.value];
      index := value.next;
    }
    assert index < |lines| ==> lines[index..][0] == lines[index];
    r := Parsed(ObjValue(fields), index);
  }

  /** The call in `parseRestrictedPolicyYaml`. */
  method ParseDocument(lines: seq<Line>, limits: Limits) returns (r: Result<Value>)
    ensures r == Document(lines, limits)
  {
    if |lines| == 0 || lines[0].indent != 0 {
      return Err(InvalidYaml);
    }
    var nodeCounter := new NodeCounter(0);
    var parsed := ParseYamlNode(lines, 0, 0, limits, 0, nodeCounter);
    assert lines[0..] == lines;
    if parsed.Failed? {
      return Err(parsed.failure);
    }
    if parsed.next != |lines| {
      return Err(InvalidYaml);
    }
    r := Ok(parsed.value, parsed.next, nodeCounter.value);
  }
}
