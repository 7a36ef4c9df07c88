/** `canonicalize` on JavaScript objects. */
module ObjectGraph {
  // A depth-first walk that keeps the set of ancestors.  Objects may be shared or cyclic, so a value is
  // a slot in a finite graph rather than a tree.
  import opened CodeUnits
  import opened CanonicalJson

  type ScalarJson = v: Json | !v.Arr? && !v.Obj? witness Null

  datatype Slot =
    | Leaf(v: ScalarJson)
    | Link(id: nat)
    | Unsupported          // an accessor, or undefined, a function, a symbol, a bigint, a non-finite number

  /** Enumerable properties in the order of the object; `hidden` says that there are others.  A hole of an
      array with the right number of properties is an unsupported item. */
  datatype Node =
    | ArrayNode(items: seq<Slot>)
    | ObjectNode(props: seq<Keyed<Slot>>, hidden: bool)
    | Irregular            // symbol keys, a foreign prototype, or an array with missing or extra properties

  type Graph = map<nat, Node>

  /** `Rejected` is every TypeError except the one about cycles. */
  datatype Outcome = Printed(text: Text) | Cyclic | Rejected

  datatype Listed = Texts(texts: seq<Text>) | Failed(error: Outcome)

  // ---------------------------------------------------------------- the walk as a function

  /** What the walk answers below the given ancestors; a link out of the graph is not an object. */
  function Render(g: Graph, slot: Slot, ancestors: set<nat>): Outcome
    decreases |g.Keys - ancestors|, 0
  {
    match slot
    case Leaf(v) => Printed(Scalar(v))
    case Unsupported => Rejected
    case Link(id) =>
      if id in ancestors then Cyclic
      else if id !in g then Rejected
      else
        assert g.Keys - (ancestors + {id}) < g.Keys - ancestors by { assert id in g.Keys - ancestors; }
        Smaller(g.Keys - (ancestors + {id}), g.Keys - ancestors);
        match g[id]
        case Irregular => Rejected
        case ArrayNode(items) =>
          (match RenderItems(g, items, ancestors + {id})
           case Texts(texts) => Printed(Bracket(texts))
           case Failed(error) => error)
        case ObjectNode(props, hidden) =>
          (match RenderProps(g, SortMembers(props), ancestors + {id})
           case Texts(texts) => if hidden then Rejected else Printed(Brace(texts))
           case Failed(error) => error)
  }

  function RenderItems(g: Graph, items: seq<Slot>, ancestors: set<nat>): (r: Listed)
    ensures r.Failed? ==> !r.error.Printed?
    decreases |g.Keys - ancestors|, |items| + 1
  {
    if items == [] then Texts([]) else
      match Render(g, items[0], ancestors)
      case Printed(text) =>
        (match RenderItems(g, items[1..], ancestors)
         case Texts(texts) => Texts([text] + texts)
         case Failed(error) => Failed(error))
      case error => Failed(error)
  }

  function RenderProps(g: Graph, props: seq<Keyed<Slot>>, ancestors: set<nat>): (r: Listed)
    ensures r.Failed? ==> !r.error.Printed?
    decreases |g.Keys - ancestors|, |props| + 1
  {
    if props == [] then Texts([]) else
      match Render(g, props[0].value, ancestors)
      case Printed(text) =>
        (match RenderProps(g, props[1..], ancestors)
         case Texts(texts) => Texts([Pair(props[0].key, text)] + texts)
         case Failed(error) => Failed(error))
      case error => Failed(error)
  }

  lemma Smaller(a: set<nat>, b: set<nat>)
    requires a < b
    ensures |a| < |b|
  {
    assert b == a + (b - a);
  }

  // ---------------------------------------------------------------- the walk as the code runs it

  /** Reading the items one by one and then failing or not is what `RenderItems` says. */
  lemma {:induction false} RenderItemsSplit(g: Graph, items: seq<Slot>, k: nat, ancestors: set<nat>)
    requires k < |items| && RenderItems(g, items[..k], ancestors).Texts?
    ensures var texts := RenderItems(g, items[..k], ancestors).texts;
      match Render(g, items[k], ancestors)
      case Printed(text) => RenderItems(g, items[..k + 1], ancestors) == Texts(texts + [text])
      case error => RenderItems(g, items, ancestors) == Failed(error)
    decreases k
  {
    if k == 0 {
      assert items[..1] == [items[0]];
    } else {
      var rest := items[1..];
      assert items[..k][1..] == rest[..k - 1] && items[..k + 1][1..] == rest[..k];
      RenderItemsSplit(g, rest, k - 1, ancestors);
    }
  }

  lemma {:induction false} RenderPropsSplit(g: Graph, props: seq<Keyed<Slot>>, k: nat, ancestors: set<nat>)
    requires k < |props| && RenderProps(g, props[..k], ancestors).Texts?
    ensures var texts := RenderProps(g, props[..k], ancestors).texts;
      match Render(g, props[k].value, ancestors)
      case Printed(text) => RenderProps(g, props[..k + 1], ancestors) == Texts(texts + [Pair(props[k].key, text)])
      case error => RenderProps(g, props, ancestors) == Failed(error)
    decreases k
  {
    if k == 0 {
      assert props[..1] == [props[0]];
    } else {
      var rest := props[1..];
      assert props[..k][1..] == rest[..k - 1] && props[..k + 1][1..] == rest[..k];
      RenderPropsSplit(g, rest, k - 1, ancestors);
    }
  }

  class Canonicalizer {
    var ancestors: set<nat>

    constructor ()
      ensures ancestors == {}
    {
      ancestors := {};
    }

    /** Terminates on every finite graph, cyclic or not, and leaves `ancestors` as it found it. */
    method Canonicalize(g: Graph, slot: Slot) returns (r: Outcome)
      modifies this
      ensures ancestors == old(ancestors)
      ensures r == Render(g, slot, old(ancestors))
      decreases |g.Keys - ancestors|, 0
    {
      if slot.Leaf? {
        return Printed(Scalar(slot.v));
      }
      if slot.Unsupported? || (slot.id !in ancestors && slot.id !in g) {
        return Rejected;
      }
      if slot.id in ancestors {
        return Cyclic;
      }
      Smaller(g.Keys - (ancestors + {slot.id}), g.Keys - ancestors) by {
        assert slot.id in g.Keys - ancestors;
      }
      ghost var before := ancestors;
      ancestors := ancestors + {slot.id};
      match g[slot.id] {
        case Irregular => r := Rejected;
        case ArrayNode(slots) => r := Items(g, slots);
        case ObjectNode(props, hidden) => r := Members(g, SortMembers(props), hidden);
      }
      // `finally`
      ancestors := ancestors - {slot.id};
      assert ancestors == before;
    }

    method Items(g: Graph, slots: seq<Slot>) returns (r: Outcome)
      modifies this
      ensures ancestors == old(ancestors)
      ensures r == match RenderItems(g, slots, old(ancestors))
                   case Texts(texts) => Printed(Bracket(texts))
                   case Failed(error) => error
      decreases |g.Keys - ancestors|, 1
    {
      var items: seq<Text> := [];
      var index := 0;
      while index < |slots|
        invariant 0 <= index <= |slots| && ancestors == old(ancestors)
        invariant RenderItems(g, slots[..index], ancestors) == Texts(items)
      {
        RenderItemsSplit(g, slots, index, ancestors);
        var item := Canonicalize(g, slots[index]);
        if !item.Printed? {
          return item;
        }
        items := items + [item.text];
        index := index + 1;
      }
      assert slots[..index] == slots;
      r := Printed(Bracket(items));
    }

    method Members(g: Graph, props: seq<Keyed<Slot>>, hidden: bool) returns (r: Outcome)
      modifies this
      ensures ancestors == old(ancestors)
      ensures r == match RenderProps(g, props, old(ancestors))
                   case Texts(texts) => if hidden then Rejected else Printed(Brace(texts))
                   case Failed(error) => error
      decreases |g.Keys - ancestors|, 1
    {
      var members: seq<Text> := [];
      var index := 0;
      while index < |props|
        invariant 0 <= index <= |props| && ancestors == old(ancestors)
        invariant RenderProps(g, props[..index], ancestors) == Texts(members)
      {
        RenderPropsSplit(g, props, index, ancestors);
        var member := Canonicalize(g, props[index].value);
        if !member.Printed? {
          return member;
        }
        members := members + [Pair(props[index].key, member.text)];
        index := index + 1;
      }
      assert props[..index] == props;
      r := if hidden then Rejected else Printed(Brace(members));
    }
  }

  // ---------------------------------------------------------------- shared objects are copied

  /** `t` is the tree a reader sees who copies every shared object at each of its uses. */
  predicate Unfolds(g: Graph, slot: Slot, t: Json)
    decreases t
  {
    match slot
    case Leaf(v) => t == v
    case Unsupported => false
    case Link(id) =>
      id in g &&
      match g[id]
      case Irregular => false
      case ArrayNode(items) =>
        t.Arr? && |t.items| == |items|
        && forall i :: 0 <= i < |items| ==> Unfolds(g, items[i], t.items[i])
      case ObjectNode(props, hidden) =>
        !hidden && t.Obj? && |t.members| == |props|
        && forall i :: 0 <= i < |props| ==>
             props[i].key == t.members[i].key && Unfolds(g, props[i].value, t.members[i].value)
  }

  ghost predicate HasTree(g: Graph, slot: Slot) { exists t :: Unfolds(g, slot, t) }

  lemma {:induction false} UnfoldsOnce(g: Graph, slot: Slot, t: Json, u: Json)
    requires Unfolds(g, slot, t) && Unfolds(g, slot, u)
    ensures t == u
    decreases t
  {
    if slot.Link? {
      match g[slot.id]
      case ArrayNode(items) =>
        forall i | 0 <= i < |items|
          ensures t.items[i] == u.items[i]
        {
          UnfoldsOnce(g, items[i], t.items[i], u.items[i]);
        }
      case ObjectNode(props, _) =>
        forall i | 0 <= i < |props|
          ensures t.members[i] == u.members[i]
        {
          UnfoldsOnce(g, props[i].value, t.members[i].value, u.members[i].value);
        }
    }
  }

  /** A number of constructors, to compare trees by. */
  function Size(t: Json): nat {
    match t
    case Arr(items) => 1 + ItemsSize(items)
    case Obj(ms) => 1 + MembersSize(ms)
    case _ => 1
  }

  function ItemsSize(items: seq<Json>): nat {
    if items == [] then 0 else Size(items[0]) + ItemsSize(items[1..])
  }

  function MembersSize(ms: seq<Member>): nat {
    if ms == [] then 0 else Size(ms[0].value) + MembersSize(ms[1..])
  }

  lemma {:induction false} ItemIsSmaller(items: seq<Json>, i: nat)
    requires i < |items|
    ensures Size(items[i]) <= ItemsSize(items)
  {
    if i > 0 {
      ItemIsSmaller(items[1..], i - 1);
    }
  }

  lemma {:induction false} MemberIsSmaller(ms: seq<Member>, i: nat)
    requires i < |ms|
    ensures Size(ms[i].value) <= MembersSize(ms)
  {
    if i > 0 {
      MemberIsSmaller(ms[1..], i - 1);
    }
  }

  /** If the object unfolds at all, it unfolds to a larger tree. */
  ghost predicate BelowOne(g: Graph, t: Json, a: nat) {
    forall u :: Unfolds(g, Link(a), u) ==> Size(t) < Size(u)
  }

  ghost predicate Below(g: Graph, t: Json, ancestors: set<nat>) {
    forall a :: a in ancestors ==> BelowOne(g, t, a)
  }

  lemma BelowChild(g: Graph, id: nat, t: Json, child: Json, ancestors: set<nat>)
    requires Below(g, t, ancestors) && Unfolds(g, Link(id), t) && Size(child) < Size(t)
    ensures Below(g, child, ancestors + {id})
  {
    forall a | a in ancestors + {id}
      ensures BelowOne(g, child, a)
    {
      forall u | Unfolds(g, Link(a), u)
        ensures Size(child) < Size(u)
      {
        if a == id {
          UnfoldsOnce(g, Link(id), t, u);
        } else {
          assert BelowOne(g, t, a);
        }
      }
    }
  }

  lemma AncestorsDiffer(g: Graph, id: nat, t: Json, ancestors: set<nat>)
    requires Below(g, t, ancestors) && Unfolds(g, Link(id), t)
    ensures id !in ancestors
  {
    assert id in ancestors ==> BelowOne(g, t, id);
  }

  /** Properties and members with the same keys, each value unfolding to the member's. */
  ghost predicate Matches(g: Graph, props: seq<Keyed<Slot>>, ms: seq<Member>) {
    |props| == |ms|
    && forall i :: 0 <= i < |props| ==> props[i].key == ms[i].key && Unfolds(g, props[i].value, ms[i].value)
  }

  lemma MatchesCons(g: Graph, p: Keyed<Slot>, m: Member, props: seq<Keyed<Slot>>, ms: seq<Member>)
    requires Matches(g, props, ms) && p.key == m.key && Unfolds(g, p.value, m.value)
    ensures Matches(g, [p] + props, [m] + ms)
  {
  }

  lemma {:induction false} InsertMatches(g: Graph, p: Keyed<Slot>, m: Member, props: seq<Keyed<Slot>>, ms: seq<Member>)
    requires Matches(g, props, ms) && p.key == m.key && Unfolds(g, p.value, m.value)
    ensures Matches(g, Insert(p, props), Insert(m, ms))
  {
    if props == [] || Less(p.key, props[0].key) {
      MatchesCons(g, p, m, props, ms);
    } else {
      InsertMatches(g, p, m, props[1..], ms[1..]);
      MatchesCons(g, props[0], ms[0], Insert(p, props[1..]), Insert(m, ms[1..]));
    }
  }

  lemma {:induction false} SortMatches(g: Graph, props: seq<Keyed<Slot>>, ms: seq<Member>)
    requires Matches(g, props, ms)
    ensures Matches(g, SortMembers(props), SortMembers(ms))
  {
    if props != [] {
      SortMatches(g, props[1..], ms[1..]);
      InsertMatches(g, props[0], ms[0], SortMembers(props[1..]), SortMembers(ms[1..]));
    }
  }

  /** A slot that unfolds is printed as the tree it unfolds to. */
  lemma {:induction false} UnfoldedPrints(g: Graph, slot: Slot, t: Json, ancestors: set<nat>)
    requires Unfolds(g, slot, t) && Below(g, t, ancestors)
    ensures Render(g, slot, ancestors) == Printed(Canonical(t))
    decreases t, 1
  {
    if slot.Link? {
      AncestorsDiffer(g, slot.id, t, ancestors);
      match g[slot.id]
      case ArrayNode(items) =>
        forall i | 0 <= i < |items|
          ensures Below(g, t.items[i], ancestors + {slot.id})
        {
          ItemIsSmaller(t.items, i);
          BelowChild(g, slot.id, t, t.items[i], ancestors);
        }
        ItemsPrint(g, items, t.items, ancestors + {slot.id});
      case ObjectNode(props, _) =>
        forall m | m in t.members
          ensures Below(g, m.value, ancestors + {slot.id})
        {
          var i :| 0 <= i < |t.members| && t.members[i] == m;
          MemberIsSmaller(t.members, i);
          BelowChild(g, slot.id, t, m.value, ancestors);
        }
        SortMatches(g, props, t.members);
        PropsPrint(g, SortMembers(props), t.members, SortMembers(t.members), ancestors + {slot.id});
    }
  }

  lemma {:induction false} ItemsPrint(g: Graph, items: seq<Slot>, ts: seq<Json>, ancestors: set<nat>)
    requires |items| == |ts|
    requires forall i :: 0 <= i < |items| ==> Unfolds(g, items[i], ts[i]) && Below(g, ts[i], ancestors)
    ensures RenderItems(g, items, ancestors) == Texts(CanonicalItems(ts))
    decreases ts, 0
  {
    if items != [] {
      UnfoldedPrints(g, items[0], ts[0], ancestors);
      ItemsPrint(g, items[1..], ts[1..], ancestors);
    }
  }

  lemma {:induction false} PropsPrint(g: Graph, props: seq<Keyed<Slot>>, all: seq<Member>, ms: seq<Member>,
                                      ancestors: set<nat>)
    requires Matches(g, props, ms) && forall m :: m in ms ==> m in all && Below(g, m.value, ancestors)
    ensures RenderProps(g, props, ancestors) == Texts(CanonicalMembers(all, ms))
    decreases all, |ms|
  {
    if props != [] {
      assert ms[0] in ms && exists i :: 0 <= i < |all| && all[i] == ms[0];
      UnfoldedPrints(g, props[0].value, ms[0].value, ancestors);
      PropsPrint(g, props[1..], all, ms[1..], ancestors);
    }
  }

  /** Conversely, whatever the walk prints unfolds to some tree. */
  lemma {:induction false} PrintedUnfolds(g: Graph, slot: Slot, ancestors: set<nat>) returns (t: Json)
    requires Render(g, slot, ancestors).Printed?
    ensures Unfolds(g, slot, t)
    decreases |g.Keys - ancestors|, 0
  {
    match slot
    case Leaf(v) => t := v;
    case Link(id) =>
      Smaller(g.Keys - (ancestors + {id}), g.Keys - ancestors) by { assert id in g.Keys - ancestors; }
      match g[id] {
        case ArrayNode(items) =>
          var ts := ItemsUnfold(g, items, ancestors + {id});
          t := Arr(ts);
        case ObjectNode(props, _) =>
          var sorted := SortMembers(props);
          var ms := PropsUnfold(g, sorted, ancestors + {id});
          forall k | 0 <= k < |props|
            ensures HasTree(g, props[k].value)
          {
            assert props[k] in sorted;
            var i :| 0 <= i < |sorted| && sorted[i] == props[k];
            assert Unfolds(g, props[k].value, ms[i].value);
          }
          ms := Collect(g, props);
          t := Obj(ms);
      }
  }

  lemma {:induction false} ItemsUnfold(g: Graph, items: seq<Slot>, ancestors: set<nat>) returns (ts: seq<Json>)
    requires RenderItems(g, items, ancestors).Texts?
    ensures |ts| == |items| && forall i :: 0 <= i < |items| ==> Unfolds(g, items[i], ts[i])
    decreases |g.Keys - ancestors|, |items| + 1
  {
    ts := [];
    if items != [] {
      var first := PrintedUnfolds(g, items[0], ancestors);
      ts := ItemsUnfold(g, items[1..], ancestors);
      ts := [first] + ts;
    }
  }

  lemma {:induction false} PropsUnfold(g: Graph, props: seq<Keyed<Slot>>, ancestors: set<nat>) returns (ms: seq<Member>)
    requires RenderProps(g, props, ancestors).Texts?
    ensures Matches(g, props, ms)
    decreases |g.Keys - ancestors|, |props| + 1
  {
    ms := [];
    if props != [] {
      var first := PrintedUnfolds(g, props[0].value, ancestors);
      ms := PropsUnfold(g, props[1..], ancestors);
      ms := [Member(props[0].key, first)] + ms;
    }
  }

  lemma {:induction false} Collect(g: Graph, props: seq<Keyed<Slot>>) returns (ms: seq<Member>)
    requires forall i :: 0 <= i < |props| ==> HasTree(g, props[i].value)
    ensures Matches(g, props, ms)
  {
    ms := [];
    if props != [] {
      var p, others := props[0], props[1..];
      var u :| Unfolds(g, p.value, u);
      ms := Collect(g, others);
      MatchesCons(g, p, Member(p.key, u), others, ms);
      assert props == [p] + others;
      ms := [Member(p.key, u)] + ms;
    }
  }

  /** `canonicalJson` of a value in a graph prints it iff it can be copied into a tree, and prints it
      as that copy. */
  lemma PrintsTheCopy(g: Graph, slot: Slot, text: Text)
    ensures Render(g, slot, {}) == Printed(text) <==> exists t :: Unfolds(g, slot, t) && text == Canonical(t)
  {
    if Render(g, slot, {}).Printed? {
      var t := PrintedUnfolds(g, slot, {});
      UnfoldedPrints(g, slot, t, {});
    }
    if t :| Unfolds(g, slot, t) && text == Canonical(t) {
      UnfoldedPrints(g, slot, t, {});
    }
  }

  // ---------------------------------------------------------------- cycles

  predicate HasLink(slots: seq<Slot>, id: nat) { Link(id) in slots }

  /** The slots an object holds. */
  function Slots(node: Node): seq<Slot> {
    match node
    case Irregular => []
    case ArrayNode(items) => items
    case ObjectNode(props, _) => Values(props)
  }

  function Values(props: seq<Keyed<Slot>>): (r: seq<Slot>)
    ensures |r| == |props| && forall i :: 0 <= i < |r| ==> r[i] == props[i].value
  {
    if props == [] then [] else [props[0].value] + Values(props[1..])
  }

  /** A path of links: every object of it but the last holds a link to the next. */
  predicate Path(g: Graph, p: seq<nat>) {
    p != [] && forall i :: 0 <= i < |p| - 1 ==> p[i] in g && HasLink(Slots(g[p[i]]), p[i + 1])
  }

  predicate Repeats(p: seq<nat>) { exists i, j :: 0 <= i < j < |p| && p[i] == p[j] }

  /** A cycle can be reached from `id`. */
  ghost predicate ReachesCycle(g: Graph, id: nat) {
    exists p :: Path(g, p) && p[0] == id && Repeats(p)
  }

  /** Plain objects and dense arrays whose values are all JSON values of the graph. */
  predicate Regular(g: Graph) {
    forall id :: id in g ==>
      !g[id].Irregular? && (g[id].ObjectNode? ==> !g[id].hidden)
      && forall s :: s in Slots(g[id]) ==> !s.Unsupported? && (s.Link? ==> s.id in g)
  }

  /** A cyclic verdict exhibits a path that comes back to itself or to an ancestor. */
  lemma {:induction false} CyclicPath(g: Graph, id: nat, ancestors: set<nat>) returns (p: seq<nat>)
    requires Render(g, Link(id), ancestors) == Cyclic
    ensures Path(g, p) && p[0] == id
    ensures p[|p| - 1] in ancestors || Repeats(p)
    decreases |g.Keys - ancestors|
  {
    if id in ancestors {
      p := [id];
    } else {
      var child := CyclicChild(g, id, ancestors);
      var rest := CyclicPath(g, child, ancestors + {id});
      p := [id] + rest;
      PathExtends(g, id, rest);
      RepeatsExtends(id, rest, ancestors);
    }
  }

  /** An object outside the ancestors is found cyclic because of one that it links to. */
  lemma CyclicChild(g: Graph, id: nat, ancestors: set<nat>) returns (child: nat)
    requires Render(g, Link(id), ancestors) == Cyclic && id !in ancestors
    ensures id in g && |g.Keys - (ancestors + {id})| < |g.Keys - ancestors|
    ensures HasLink(Slots(g[id]), child) && Render(g, Link(child), ancestors + {id}) == Cyclic
  {
    Smaller(g.Keys - (ancestors + {id}), g.Keys - ancestors) by { assert id in g.Keys - ancestors; }
    match g[id] {
      case ArrayNode(items) => child := CyclicItem(g, items, ancestors + {id});
      case ObjectNode(props, _) =>
        child := CyclicProp(g, SortMembers(props), ancestors + {id});
        SortedLink(props, child);
    }
  }

  lemma SortedLink(props: seq<Keyed<Slot>>, child: nat)
    requires exists k :: 0 <= k < |SortMembers(props)| && SortMembers(props)[k].value == Link(child)
    ensures HasLink(Values(props), child)
  {
    var sorted := SortMembers(props);
    var k :| 0 <= k < |sorted| && sorted[k].value == Link(child);
    assert sorted[k] in props;
    var l :| 0 <= l < |props| && props[l] == sorted[k];
    assert Values(props)[l] == Link(child);
  }

  lemma PathExtends(g: Graph, id: nat, rest: seq<nat>)
    requires Path(g, rest) && id in g && HasLink(Slots(g[id]), rest[0])
    ensures Path(g, [id] + rest)
  {
    var p := [id] + rest;
    forall i | 0 <= i < |p| - 1
      ensures p[i] in g && HasLink(Slots(g[p[i]]), p[i + 1])
    {
      if i > 0 {
        assert p[i] == rest[i - 1] && p[i + 1] == rest[i];
      }
    }
  }

  lemma RepeatsExtends(id: nat, rest: seq<nat>, ancestors: set<nat>)
    requires rest != [] && (rest[|rest| - 1] in ancestors + {id} || Repeats(rest))
    ensures var p := [id] + rest; p[|p| - 1] in ancestors || Repeats(p)
  {
    var p := [id] + rest;
    if Repeats(rest) {
      var i, j :| 0 <= i < j < |rest| && rest[i] == rest[j];
      assert p[i + 1] == p[j + 1];
    } else if rest[|rest| - 1] == id {
      assert p[0] == p[|p| - 1];
    }
  }

  lemma {:induction false} CyclicItem(g: Graph, items: seq<Slot>, ancestors: set<nat>) returns (child: nat)
    requires RenderItems(g, items, ancestors) == Failed(Cyclic)
    ensures Link(child) in items && Render(g, Link(child), ancestors) == Cyclic
    decreases |items|
  {
    if Render(g, items[0], ancestors) == Cyclic {
      child := items[0].id;
    } else {
      child := CyclicItem(g, items[1..], ancestors);
    }
  }

  lemma {:induction false} CyclicProp(g: Graph, props: seq<Keyed<Slot>>, ancestors: set<nat>) returns (child: nat)
    requires RenderProps(g, props, ancestors) == Failed(Cyclic)
    ensures exists i :: 0 <= i < |props| && props[i].value == Link(child)
    ensures Render(g, Link(child), ancestors) == Cyclic
    decreases |props|
  {
    if Render(g, props[0].value, ancestors) == Cyclic {
      child := props[0].value.id;
    } else {
      child := CyclicProp(g, props[1..], ancestors);
      var i :| 0 <= i < |props[1..]| && props[1..][i].value == Link(child);
      assert props[i + 1].value == Link(child);
    }
  }

  /** Along a path every object unfolds to a smaller tree than the one before. */
  lemma {:induction false} PathShrinks(g: Graph, p: seq<nat>, t: Json, k: nat) returns (u: Json)
    requires Path(g, p) && Unfolds(g, Link(p[0]), t) && k < |p|
    ensures Unfolds(g, Link(p[k]), u) && Size(u) + k <= Size(t)
    decreases k
  {
    if k == 0 {
      u := t;
    } else {
      var w := PathShrinks(g, p, t, k - 1);
      assert HasLink(Slots(g[p[k - 1]]), p[k - 1 + 1]);
      u := ChildShrinks(g, p[k - 1], p[k], w);
    }
  }

  /** What a slot links to unfolds to a smaller tree. */
  lemma ChildShrinks(g: Graph, id: nat, child: nat, w: Json) returns (u: Json)
    requires id in g && Unfolds(g, Link(id), w) && HasLink(Slots(g[id]), child)
    ensures Unfolds(g, Link(child), u) && Size(u) < Size(w)
  {
    var slots := Slots(g[id]);
    var i :| 0 <= i < |slots| && slots[i] == Link(child);
    match g[id] {
      case ArrayNode(items) =>
        u := w.items[i];
        ItemIsSmaller(w.items, i);
      case ObjectNode(props, _) =>
        u := w.members[i].value;
        MemberIsSmaller(w.members, i);
    }
  }

  lemma UnfoldedHasNoCycle(g: Graph, id: nat, t: Json)
    requires Unfolds(g, Link(id), t)
    ensures !ReachesCycle(g, id)
  {
    forall p | Path(g, p) && p[0] == id
      ensures !Repeats(p)
    {
      forall i, j | 0 <= i < j < |p|
        ensures p[i] != p[j]
      {
        var u := PathShrinks(g, p, t, i);
        var w := PathShrinks(g, p[i..], u, j - i);
        if p[i] == p[j] {
          UnfoldsOnce(g, Link(p[i]), u, w);
        }
      }
    }
  }

  lemma {:induction false} RegularNeverRejects(g: Graph, slot: Slot, ancestors: set<nat>)
    requires Regular(g) && !slot.Unsupported? && (slot.Link? ==> slot.id in g)
    ensures Render(g, slot, ancestors) != Rejected
    decreases |g.Keys - ancestors|, 0
  {
    if slot.Link? && slot.id !in ancestors {
      Smaller(g.Keys - (ancestors + {slot.id}), g.Keys - ancestors) by { assert slot.id in g.Keys - ancestors; }
      match g[slot.id] {
        case ArrayNode(items) => RegularItems(g, items, ancestors + {slot.id});
        case ObjectNode(props, _) =>
          forall q | q in SortMembers(props)
            ensures q.value in Slots(g[slot.id])
          {
            assert q in props;
            var l :| 0 <= l < |props| && props[l] == q;
            assert Values(props)[l] == q.value;
          }
          RegularProps(g, SortMembers(props), ancestors + {slot.id});
      }
    }
  }

  lemma {:induction false} RegularItems(g: Graph, items: seq<Slot>, ancestors: set<nat>)
    requires Regular(g) && forall s :: s in items ==> !s.Unsupported? && (s.Link? ==> s.id in g)
    ensures RenderItems(g, items, ancestors) != Failed(Rejected)
    decreases |g.Keys - ancestors|, |items| + 1
  {
    if items != [] {
      RegularNeverRejects(g, items[0], ancestors);
      RegularItems(g, items[1..], ancestors);
    }
  }

  lemma {:induction false} RegularProps(g: Graph, props: seq<Keyed<Slot>>, ancestors: set<nat>)
    requires Regular(g) && forall q :: q in props ==> !q.value.Unsupported? && (q.value.Link? ==> q.value.id in g)
    ensures RenderProps(g, props, ancestors) != Failed(Rejected)
    decreases |g.Keys - ancestors|, |props| + 1
  {
    if props != [] {
      RegularNeverRejects(g, props[0].value, ancestors);
      RegularProps(g, props[1..], ancestors);
    }
  }

  /** On plain objects and dense arrays the walk fails iff a cycle is reachable, and with that error. */
  lemma FailsIffCyclic(g: Graph, id: nat)
    requires Regular(g) && id in g
    ensures Render(g, Link(id), {}) == Cyclic <==> ReachesCycle(g, id)
    ensures Render(g, Link(id), {}).Printed? <==> !ReachesCycle(g, id)
  {
    RegularNeverRejects(g, Link(id), {});
    if Render(g, Link(id), {}) == Cyclic {
      var p := CyclicPath(g, id, {});
    } else {
      var t := PrintedUnfolds(g, Link(id), {});
      UnfoldedHasNoCycle(g, id, t);
    }
  }

  // ---------------------------------------------------------------- which failure is reported

  /** The slots of an object in the order of the walk. */
  function Visited(node: Node): seq<Slot> {
    if node.ObjectNode? then Values(SortMembers(node.props)) else Slots(node)
  }

  /** What can be wrong with a slot before anything below it is looked at, or once all of it is in order. */
  ghost predicate Fault(g: Graph, slot: Slot, ancestors: set<nat>, error: Outcome) {
    if error.Cyclic? then slot.Link? && slot.id in ancestors
    else
      && error.Rejected?
      && (slot.Unsupported?
          || (slot.Link? && slot.id !in ancestors
              && (slot.id !in g || g[slot.id].Irregular?
                  || (g[slot.id].ObjectNode? && g[slot.id].hidden && forall s :: s in Visited(g[slot.id]) ==> HasTree(g, s)))))
  }

  /** Down `path`, from item to item, to a fault: nothing that is visited earlier has one. */
  ghost predicate FirstFault(g: Graph, slot: Slot, ancestors: set<nat>, path: seq<nat>, error: Outcome)
    decreases |path|
  {
    if path == [] then Fault(g, slot, ancestors, error)
    else
      && slot.Link? && slot.id !in ancestors && slot.id in g
      && var slots := Visited(g[slot.id]);
      && path[0] < |slots| && (forall j :: 0 <= j < path[0] ==> HasTree(g, slots[j]))
      && FirstFault(g, slots[path[0]], ancestors + {slot.id}, path[1..], error)
  }

  lemma {:induction false} PropsFailAlike(g: Graph, props: seq<Keyed<Slot>>, ancestors: set<nat>)
    ensures match RenderItems(g, Values(props), ancestors)
            case Texts(_) => RenderProps(g, props, ancestors).Texts?
            case Failed(error) => RenderProps(g, props, ancestors) == Failed(error)
    decreases |props|
  {
    if props != [] {
      PropsFailAlike(g, props[1..], ancestors);
      assert Values(props)[1..] == Values(props[1..]);
    }
  }

  /** A failure below an object is that of its first slot that fails. */
  lemma {:induction false} FailsAt(g: Graph, items: seq<Slot>, ancestors: set<nat>, k: nat)
    requires k < |items| && !Render(g, items[k], ancestors).Printed?
    requires forall j :: 0 <= j < k ==> Render(g, items[j], ancestors).Printed?
    ensures RenderItems(g, items, ancestors) == Failed(Render(g, items[k], ancestors))
    decreases k
  {
    if k > 0 {
      FailsAt(g, items[1..], ancestors, k - 1);
    }
  }

  lemma {:induction false} NoneFails(g: Graph, items: seq<Slot>, ancestors: set<nat>)
    requires forall j :: 0 <= j < |items| ==> Render(g, items[j], ancestors).Printed?
    ensures RenderItems(g, items, ancestors).Texts?
    decreases |items|
  {
    if items != [] {
      NoneFails(g, items[1..], ancestors);
    }
  }

  lemma {:induction false} FirstFailure(g: Graph, items: seq<Slot>, ancestors: set<nat>) returns (k: nat)
    requires RenderItems(g, items, ancestors).Failed?
    ensures k < |items| && Failed(Render(g, items[k], ancestors)) == RenderItems(g, items, ancestors)
    ensures forall j :: 0 <= j < k ==> Render(g, items[j], ancestors).Printed?
    decreases |items|
  {
    k := 0;
    if Render(g, items[0], ancestors).Printed? {
      k := FirstFailure(g, items[1..], ancestors);
      k := k + 1;
    }
  }

  /** An object's failure: that of a slot it holds, or its own once all of them are printed. */
  lemma ObjectFails(g: Graph, id: nat, ancestors: set<nat>)
    requires id in g && id !in ancestors && !g[id].Irregular?
    ensures match RenderItems(g, Visited(g[id]), ancestors + {id})
            case Failed(error) => Render(g, Link(id), ancestors) == error
            case Texts(_) => if g[id].ObjectNode? && g[id].hidden then Render(g, Link(id), ancestors) == Rejected
                             else Render(g, Link(id), ancestors).Printed?
  {
    if g[id].ObjectNode? {
      PropsFailAlike(g, SortMembers(g[id].props), ancestors + {id});
    }
  }

  /** If object `a` unfolds, the slot unfolds with it, to a smaller tree. */
  ghost predicate LeadsFrom(g: Graph, a: nat, slot: Slot) {
    forall u :: Unfolds(g, Link(a), u) ==> exists t :: Unfolds(g, slot, t) && Size(t) < Size(u)
  }

  ghost predicate Leads(g: Graph, slot: Slot, ancestors: set<nat>) {
    forall a :: a in ancestors ==> LeadsFrom(g, a, slot)
  }

  lemma ItemShrinks(g: Graph, id: nat, k: nat, w: Json) returns (u: Json)
    requires id in g && Unfolds(g, Link(id), w) && g[id].ArrayNode? && k < |g[id].items|
    ensures Unfolds(g, g[id].items[k], u) && Size(u) < Size(w)
  {
    u := w.items[k];
    ItemIsSmaller(w.items, k);
  }

  lemma PropShrinks(g: Graph, id: nat, k: nat, w: Json) returns (u: Json)
    requires id in g && Unfolds(g, Link(id), w) && g[id].ObjectNode? && k < |SortMembers(g[id].props)|
    ensures Unfolds(g, SortMembers(g[id].props)[k].value, u) && Size(u) < Size(w)
  {
    var props := g[id].props;
    assert Matches(g, props, w.members);
    SortMatches(g, props, w.members);
    var m := SortMembers(w.members)[k];
    u := m.value;
    assert m in SortMembers(w.members);
    var i :| 0 <= i < |w.members| && w.members[i] == m;
    MemberIsSmaller(w.members, i);
  }

  lemma SlotShrinks(g: Graph, id: nat, k: nat)
    requires id in g && k < |Visited(g[id])|
    ensures LeadsFrom(g, id, Visited(g[id])[k])
  {
    forall w | Unfolds(g, Link(id), w)
      ensures exists t :: Unfolds(g, Visited(g[id])[k], t) && Size(t) < Size(w)
    {
      if g[id].ArrayNode? {
        var u := ItemShrinks(g, id, k, w);
      } else {
        var u := PropShrinks(g, id, k, w);
      }
    }
  }

  lemma LeadsFarther(g: Graph, a: nat, id: nat, slot: Slot)
    requires LeadsFrom(g, a, Link(id)) && LeadsFrom(g, id, slot)
    ensures LeadsFrom(g, a, slot)
  {
    hide Unfolds, Size;
    forall u | Unfolds(g, Link(a), u)
      ensures exists t :: Unfolds(g, slot, t) && Size(t) < Size(u)
    {
      var w :| Unfolds(g, Link(id), w) && Size(w) < Size(u);
      var t :| Unfolds(g, slot, t) && Size(t) < Size(w);
    }
  }

  lemma LeadsOn(g: Graph, id: nat, ancestors: set<nat>, k: nat)
    requires Leads(g, Link(id), ancestors) && id in g && k < |Visited(g[id])|
    ensures Leads(g, Visited(g[id])[k], ancestors + {id})
  {
    hide LeadsFrom, Visited;
    SlotShrinks(g, id, k);
    forall a | a in ancestors
      ensures LeadsFrom(g, a, Visited(g[id])[k])
    {
      LeadsFarther(g, a, id, Visited(g[id])[k]);
    }
  }

  lemma LedToPrints(g: Graph, slot: Slot, ancestors: set<nat>)
    requires Leads(g, slot, ancestors) && HasTree(g, slot)
    ensures Render(g, slot, ancestors).Printed?
  {
    var t :| Unfolds(g, slot, t);
    forall a | a in ancestors
      ensures BelowOne(g, t, a)
    {
      assert LeadsFrom(g, a, slot);
      forall u | Unfolds(g, Link(a), u)
        ensures Size(t) < Size(u)
      {
        var v :| Unfolds(g, slot, v) && Size(v) < Size(u);
        UnfoldsOnce(g, slot, t, v);
      }
    }
    UnfoldedPrints(g, slot, t, ancestors);
  }

  lemma VisitedPrint(g: Graph, id: nat, ancestors: set<nat>, k: nat)
    requires id in g && Leads(g, Link(id), ancestors) && k <= |Visited(g[id])|
    requires forall j :: 0 <= j < k ==> HasTree(g, Visited(g[id])[j])
    ensures forall j :: 0 <= j < k ==> Render(g, Visited(g[id])[j], ancestors + {id}).Printed?
  {
    forall j | 0 <= j < k
      ensures Render(g, Visited(g[id])[j], ancestors + {id}).Printed?
    {
      LeadsOn(g, id, ancestors, j);
      LedToPrints(g, Visited(g[id])[j], ancestors + {id});
    }
  }

  lemma {:induction false} FaultIsReported(g: Graph, slot: Slot, ancestors: set<nat>, path: seq<nat>, error: Outcome)
    requires FirstFault(g, slot, ancestors, path, error) && Leads(g, slot, ancestors)
    ensures Render(g, slot, ancestors) == error && !error.Printed?
    decreases |path|
  {
    if path != [] {
      var slots, k := Visited(g[slot.id]), path[0];
      LeadsOn(g, slot.id, ancestors, k);
      FaultIsReported(g, slots[k], ancestors + {slot.id}, path[1..], error);
      VisitedPrint(g, slot.id, ancestors, k);
      FailsAt(g, slots, ancestors + {slot.id}, k);
      ObjectFails(g, slot.id, ancestors);
    } else if slot.Link? && slot.id in g && slot.id !in ancestors && !g[slot.id].Irregular? {
      var slots := Visited(g[slot.id]);
      VisitedPrint(g, slot.id, ancestors, |slots|);
      NoneFails(g, slots, ancestors + {slot.id});
      ObjectFails(g, slot.id, ancestors);
    }
  }

  lemma {:induction false} ReportedIsFault(g: Graph, slot: Slot, ancestors: set<nat>) returns (path: seq<nat>)
    requires !Render(g, slot, ancestors).Printed?
    ensures FirstFault(g, slot, ancestors, path, Render(g, slot, ancestors))
    decreases |g.Keys - ancestors|
  {
    path := [];
    if slot.Link? && slot.id in g && slot.id !in ancestors && !g[slot.id].Irregular? {
      var id, slots, below := slot.id, Visited(g[slot.id]), ancestors + {slot.id};
      Smaller(g.Keys - below, g.Keys - ancestors) by { assert id in g.Keys - ancestors; }
      ObjectFails(g, id, ancestors);
      if RenderItems(g, slots, below).Failed? {
        var k := FirstFailure(g, slots, below);
        EarlierUnfold(g, slots, below, k);
        path := ReportedIsFault(g, slots[k], below);
        path := [k] + path;
        assert path[1..] == path[1..];
      } else {
        AllPrinted(g, slots, below);
        EarlierUnfold(g, slots, below, |slots|);
      }
    }
  }

  lemma {:induction false} AllPrinted(g: Graph, items: seq<Slot>, ancestors: set<nat>)
    requires RenderItems(g, items, ancestors).Texts?
    ensures forall j :: 0 <= j < |items| ==> Render(g, items[j], ancestors).Printed?
    decreases |items|
  {
    if items != [] {
      AllPrinted(g, items[1..], ancestors);
    }
  }

  lemma EarlierUnfold(g: Graph, items: seq<Slot>, ancestors: set<nat>, k: nat)
    requires k <= |items| && forall j :: 0 <= j < k ==> Render(g, items[j], ancestors).Printed?
    ensures forall j :: 0 <= j < k ==> HasTree(g, items[j])
  {
    forall j | 0 <= j < k
      ensures HasTree(g, items[j])
    {
      var t := PrintedUnfolds(g, items[j], ancestors);
    }
  }

  /** The error reported is that of the first fault the walk meets, in the order of items and of sorted keys. */
  lemma FirstFaultIsReported(g: Graph, slot: Slot, error: Outcome)
    ensures Render(g, slot, {}) == error && !error.Printed? <==> exists path :: FirstFault(g, slot, {}, path, error)
  {
    if Render(g, slot, {}) == error && !error.Printed? {
      var path := ReportedIsFault(g, slot, {});
      assert FirstFault(g, slot, {}, path, error);
    }
    assert Leads(g, slot, {});
    forall path | FirstFault(g, slot, {}, path, error)
      ensures Render(g, slot, {}) == error && !error.Printed?
    {
      FaultIsReported(g, slot, {}, path, error);
    }
  }
}
