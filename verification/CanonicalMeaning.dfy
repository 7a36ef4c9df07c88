/** What the canonical text identifies: two trees print alike iff they mean the same. */
module CanonicalMeaning {
  import opened CodeUnits
  import opened Numerals
  import opened CanonicalJson

  // ---------------------------------------------------------------- sorting members

  lemma {:induction false} InsertKeepsOrder<T(!new)>(m: Keyed<T>, ms: seq<Keyed<T>>)
    requires SortedKeys(ms) && forall x :: x in ms ==> x.key != m.key
    ensures SortedKeys(Insert(m, ms))
  {
    if ms != [] {
      LessIsTotal(m.key, ms[0].key);
      assert ms[0] in ms;
      if Less(m.key, ms[0].key) {
        forall i | 0 < i < |ms|
          ensures Less(m.key, ms[i].key)
        {
          LessIsTransitive(m.key, ms[0].key, ms[i].key);
        }
      } else {
        InsertKeepsOrder(m, ms[1..]);
        var r := Insert(m, ms[1..]);
        forall x | x in r
          ensures Less(ms[0].key, x.key)
        {
          assert x in multiset(r);
          assert x == m || x in ms[1..];
        }
      }
    }
  }

  lemma {:induction false} SortedMembers<T(!new)>(ms: seq<Keyed<T>>)
    requires DistinctKeys(ms)
    ensures SortedKeys(SortMembers(ms))
  {
    if ms != [] {
      SortedMembers(ms[1..]);
      forall x | x in SortMembers(ms[1..])
        ensures x.key != ms[0].key
      {
        assert x in ms[1..];
      }
      InsertKeepsOrder(ms[0], SortMembers(ms[1..]));
    }
  }

  lemma SortedIsDistinct<T(!new)>(ms: seq<Keyed<T>>)
    requires SortedKeys(ms)
    ensures DistinctKeys(ms)
  {
    forall i, j | 0 <= i < j < |ms|
      ensures ms[i].key != ms[j].key
    {
      LessIsTotal(ms[i].key, ms[j].key);
    }
  }

  predicate HasKey<T>(ms: seq<Keyed<T>>, k: Text) { exists i :: 0 <= i < |ms| && ms[i].key == k }

  /** A set of keys can be sorted in one way only. */
  lemma {:induction false} SortedKeysAgree<T(!new)>(a: seq<Keyed<T>>, b: seq<Keyed<T>>)
    requires SortedKeys(a) && SortedKeys(b) && forall k :: HasKey(a, k) <==> HasKey(b, k)
    ensures |a| == |b| && forall i :: 0 <= i < |a| ==> a[i].key == b[i].key
  {
    if a == [] || b == [] {
      assert a != [] ==> HasKey(a, a[0].key);
      assert b != [] ==> HasKey(b, b[0].key);
    } else {
      FirstKeysAgree(a, b);
      forall k
        ensures HasKey(a[1..], k) <==> HasKey(b[1..], k)
      {
        TailHasKey(a, k);
        TailHasKey(b, k);
      }
      SortedKeysAgree(a[1..], b[1..]);
      forall i | 0 < i < |a|
        ensures a[i].key == b[i].key
      {
        assert a[i] == a[1..][i - 1] && b[i] == b[1..][i - 1];
      }
    }
  }

  lemma FirstKeysAgree<T(!new)>(a: seq<Keyed<T>>, b: seq<Keyed<T>>)
    requires SortedKeys(a) && SortedKeys(b) && a != [] && b != []
    requires forall k :: HasKey(a, k) <==> HasKey(b, k)
    ensures a[0].key == b[0].key
  {
    assert HasKey(a, a[0].key) && HasKey(b, b[0].key);
    var i :| 0 <= i < |b| && b[i].key == a[0].key;
    var j :| 0 <= j < |a| && a[j].key == b[0].key;
    LessIsTotal(a[0].key, b[0].key);
  }

  lemma TailHasKey<T(!new)>(a: seq<Keyed<T>>, k: Text)
    requires SortedKeys(a) && a != []
    ensures HasKey(a[1..], k) <==> HasKey(a, k) && k != a[0].key
  {
    SortedIsDistinct(a);
    if HasKey(a, k) && k != a[0].key {
      var i :| 0 <= i < |a| && a[i].key == k;
      assert a[1..][i - 1].key == k;
    }
    if HasKey(a[1..], k) {
      var i :| 0 <= i < |a[1..]| && a[1..][i].key == k;
      assert a[i + 1].key == k;
    }
  }

  // ---------------------------------------------------------------- meanings

  lemma {:induction false} FieldsAreMembers(ms: seq<Member>)
    requires DistinctKeys(ms)
    ensures forall k :: k in Fields(ms) <==> HasKey(ms, k)
    ensures forall m :: m in ms ==> m.key in Fields(ms) && Fields(ms)[m.key] == Meaning(m.value)
  {
    if ms != [] {
      FieldsAreMembers(ms[1..]);
      forall k
        ensures k in Fields(ms) <==> HasKey(ms, k)
      {
        if HasKey(ms, k) && k != ms[0].key {
          var i :| 0 <= i < |ms| && ms[i].key == k;
          assert ms[1..][i - 1].key == k;
        }
        if HasKey(ms[1..], k) {
          var i :| 0 <= i < |ms[1..]| && ms[1..][i].key == k;
          assert ms[i + 1].key == k;
        }
      }
    }
  }

  lemma SortKeepsKeys<T(!new)>(ms: seq<Keyed<T>>, k: Text)
    ensures HasKey(SortMembers(ms), k) <==> HasKey(ms, k)
  {
    var s := SortMembers(ms);
    if HasKey(ms, k) {
      var i :| 0 <= i < |ms| && ms[i].key == k;
      assert ms[i] in s;
    }
    if HasKey(s, k) {
      var i :| 0 <= i < |s| && s[i].key == k;
      assert s[i] in ms;
    }
  }

  lemma {:induction false} NormalMemberAt(all: seq<Member>, sorted: seq<Member>, i: nat)
    requires (forall m :: m in sorted ==> m in all) && i < |sorted|
    ensures NormalMembers(all, sorted)[i] == Member(sorted[i].key, Normal(sorted[i].value))
  {
    if i > 0 {
      NormalMemberAt(all, sorted[1..], i - 1);
    }
  }

  /** Normalisation keeps trees well formed and keeps what they mean. */
  lemma {:induction false} NormalMeansTheSame(v: Json)
    requires WellFormed(v)
    ensures WellFormed(Normal(v)) && Meaning(Normal(v)) == Meaning(v)
    decreases v, 2
  {
    match v
    case Arr(items) => NormalItemsMeanTheSame(items);
    case Obj(ms) => NormalMembersMeanTheSame(ms);
    case _ =>
  }

  lemma {:induction false} NormalItemsMeanTheSame(items: seq<Json>)
    requires forall w :: w in items ==> WellFormed(w)
    ensures forall w :: w in NormalItems(items) ==> WellFormed(w)
    ensures Meanings(NormalItems(items)) == Meanings(items)
    decreases items, 0
  {
    if items != [] {
      NormalMeansTheSame(items[0]);
      NormalItemsMeanTheSame(items[1..]);
      assert NormalItems(items)[1..] == NormalItems(items[1..]);
    }
  }

  lemma {:induction false} NormalMemberMeansTheSame(ms: seq<Member>, i: nat)
    requires DistinctKeys(ms) && (forall m :: m in ms ==> WellFormed(m.value)) && i < |SortMembers(ms)|
    ensures var m := NormalMembers(ms, SortMembers(ms))[i];
      WellFormed(m.value) && m.key in Fields(ms) && Fields(ms)[m.key] == Meaning(m.value)
    decreases ms, 0
  {
    var sorted := SortMembers(ms);
    NormalMemberAt(ms, sorted, i);
    FieldsAreMembers(ms);
    assert sorted[i] in sorted && sorted[i] in ms;
    var j :| 0 <= j < |ms| && ms[j] == sorted[i];
    NormalMeansTheSame(ms[j].value);
  }

  lemma NormalHasKey(ms: seq<Member>, k: Text)
    ensures HasKey(NormalMembers(ms, SortMembers(ms)), k) <==> HasKey(ms, k)
  {
    var sorted := SortMembers(ms);
    var r := NormalMembers(ms, sorted);
    SortKeepsKeys(ms, k);
    if HasKey(sorted, k) {
      var i :| 0 <= i < |sorted| && sorted[i].key == k;
      assert r[i].key == k;
    }
    if HasKey(r, k) {
      var i :| 0 <= i < |r| && r[i].key == k;
      assert sorted[i].key == k;
    }
  }

  lemma FieldsAgree(r: seq<Member>, ms: seq<Member>)
    requires DistinctKeys(r) && DistinctKeys(ms) && forall k :: HasKey(r, k) <==> HasKey(ms, k)
    requires forall m :: m in r ==> m.key in Fields(ms) && Fields(ms)[m.key] == Meaning(m.value)
    ensures Fields(r) == Fields(ms)
  {
    FieldsAreMembers(r);
    FieldsAreMembers(ms);
    forall k | k in Fields(r)
      ensures Fields(r)[k] == Fields(ms)[k]
    {
      var i :| 0 <= i < |r| && r[i].key == k;
      assert r[i] in r;
    }
  }

  lemma {:induction false} NormalMembersMeanTheSame(ms: seq<Member>)
    requires DistinctKeys(ms) && forall m :: m in ms ==> WellFormed(m.value)
    ensures var r := NormalMembers(ms, SortMembers(ms));
      DistinctKeys(r) && (forall m :: m in r ==> WellFormed(m.value)) && Fields(r) == Fields(ms)
    decreases ms, 1
  {
    var r := NormalMembers(ms, SortMembers(ms));
    SortedMembers(ms);
    SortedIsDistinct(r);
    forall m | m in r
      ensures WellFormed(m.value) && m.key in Fields(ms) && Fields(ms)[m.key] == Meaning(m.value)
    {
      var i :| 0 <= i < |r| && r[i] == m;
      NormalMemberMeansTheSame(ms, i);
    }
    forall k
      ensures HasKey(r, k) <==> HasKey(ms, k)
    {
      NormalHasKey(ms, k);
    }
    FieldsAgree(r, ms);
  }

  /** Trees that mean the same have the same normal form. */
  lemma {:induction false} SameMeaningSameNormal(v: Json, w: Json)
    requires WellFormed(v) && WellFormed(w) && Meaning(v) == Meaning(w)
    ensures Normal(v) == Normal(w)
    decreases v, 1
  {
    match v
    case Arr(items) => SameItemsSameNormal(items, w.items);
    case Obj(ms) => SameFieldsSameNormal(ms, w.members);
    case _ =>
  }

  lemma {:induction false} SameItemsSameNormal(a: seq<Json>, b: seq<Json>)
    requires (forall x :: x in a ==> WellFormed(x)) && (forall x :: x in b ==> WellFormed(x))
    requires Meanings(a) == Meanings(b)
    ensures NormalItems(a) == NormalItems(b)
    decreases a, 0
  {
    assert |Meanings(a)| == |a| && |Meanings(b)| == |b|;
    if a != [] {
      assert Meanings(a)[0] == Meanings(b)[0] && Meanings(a)[1..] == Meanings(b)[1..];
      SameMeaningSameNormal(a[0], b[0]);
      SameItemsSameNormal(a[1..], b[1..]);
    }
  }

  lemma {:induction false} SameFieldsSameNormal(a: seq<Member>, b: seq<Member>)
    requires DistinctKeys(a) && (forall m :: m in a ==> WellFormed(m.value))
    requires DistinctKeys(b) && (forall m :: m in b ==> WellFormed(m.value))
    requires Fields(a) == Fields(b)
    ensures NormalMembers(a, SortMembers(a)) == NormalMembers(b, SortMembers(b))
    decreases a, 0
  {
    var s, t := SortMembers(a), SortMembers(b);
    SortedMembers(a);
    SortedMembers(b);
    FieldsAreMembers(a);
    FieldsAreMembers(b);
    forall k
      ensures HasKey(s, k) <==> HasKey(t, k)
    {
      SortKeepsKeys(a, k);
      SortKeepsKeys(b, k);
    }
    SortedKeysAgree(s, t);
    forall i | 0 <= i < |s|
      ensures NormalMembers(a, s)[i] == NormalMembers(b, t)[i]
    {
      NormalMemberAt(a, s, i);
      NormalMemberAt(b, t, i);
      assert s[i] in s && s[i] in a && t[i] in t && t[i] in b;
      var j :| 0 <= j < |a| && a[j] == s[i];
      SameMeaningSameNormal(a[j].value, t[i].value);
    }
  }

  // ---------------------------------------------------------------- the canonical text

  /** Reading the canonical text of `v`, whatever follows it, gives `v` with sorted members. */
  lemma CanonicalReadsBack(v: Json, rest: Text)
    requires WellFormed(v) && Delimited(v, rest)
    ensures ParseValue(Canonical(v) + rest) == Done(Normal(v), rest)
    ensures Meaning(Normal(v)) == Meaning(v)
  {
    NormalMeansTheSame(v);
    CanonicalPrintsNormal(v);
    ReadsBack(Normal(v), rest);
  }

  /** Two trees print alike iff they are equal up to the order of members. */
  lemma PrintsAlike(v: Json, w: Json)
    requires WellFormed(v) && WellFormed(w)
    ensures Canonical(v) == Canonical(w) <==> Meaning(v) == Meaning(w)
  {
    if Canonical(v) == Canonical(w) {
      CanonicalReadsBack(v, []);
      CanonicalReadsBack(w, []);
      assert Canonical(v) + [] == Canonical(w) + [];
    }
    if Meaning(v) == Meaning(w) {
      SameMeaningSameNormal(v, w);
      CanonicalPrintsNormal(v);
      CanonicalPrintsNormal(w);
    }
  }

  /** The kernel's `snapshot`: print canonically, read back. */
  function Snapshot(v: Json): Option<Json> { Parse(Canonical(v)) }

  /** A snapshot exists, means what the input means, prints (and so hashes) as the input does, and
      is its own snapshot. */
  lemma SnapshotIsFixed(v: Json)
    requires WellFormed(v)
    ensures Snapshot(v).Some?
    ensures var s := Snapshot(v).value;
      WellFormed(s) && Meaning(s) == Meaning(v) && Canonical(s) == Canonical(v) && Snapshot(s) == Some(s)
  {
    NormalMeansTheSame(v);
    CanonicalReadsBack(v, []);
    assert Canonical(v) + [] == Canonical(v);
    PrintsAlike(Normal(v), v);
  }

  // ---------------------------------------------------------------- the text survives UTF-8

  /** No lone surrogate: encoding the text as UTF-8 before hashing loses nothing. */
  predicate Paired(t: Text) {
    t == [] ||
    if |t| > 1 && High(t[0]) && Low(t[1]) then Paired(t[2..]) else !High(t[0]) && !Low(t[0]) && Paired(t[1..])
  }

  lemma {:induction false} PairedAppend(a: Text, b: Text)
    requires Paired(a) && Paired(b)
    ensures Paired(a + b)
  {
    if a == [] {
      assert a + b == b;
    } else if |a| > 1 && High(a[0]) && Low(a[1]) {
      assert (a + b)[2..] == a[2..] + b;
      PairedAppend(a[2..], b);
    } else {
      assert (a + b)[1..] == a[1..] + b;
      PairedAppend(a[1..], b);
    }
  }

  lemma {:induction false} PlainIsPaired(t: Text)
    requires forall i :: 0 <= i < |t| ==> t[i] < 0xD800
    ensures Paired(t)
  {
    if t != [] {
      PlainIsPaired(t[1..]);
    }
  }

  lemma {:induction false} QuoteBodyIsPaired(s: Text)
    ensures Paired(QuoteBody(s))
  {
    if s != [] {
      QuoteBodyIsPaired(s[Width(s)..]);
      if Width(s) == 2 {
        assert s[..2][2..] == [];
      } else if EscapeUnit(s[0]) == [s[0]] {
        assert [s[0]][1..] == [];
      } else {
        PlainIsPaired(EscapeUnit(s[0]));
      }
      PairedAppend(EscapeFirst(s), QuoteBody(s[Width(s)..]));
    }
  }

  lemma QuoteIsPaired(s: Text)
    ensures Paired(Quote(s))
  {
    QuoteBodyIsPaired(s);
    PlainIsPaired([QUOTE]);
    PairedAppend([QUOTE], QuoteBody(s));
    PairedAppend([QUOTE] + QuoteBody(s), [QUOTE]);
  }

  lemma {:induction false} DecimalIsPlain(n: nat)
    ensures forall i :: 0 <= i < |Decimal(n)| ==> Decimal(n)[i] < 0xD800
  {
  }

  lemma ScalarIsPaired(v: Json)
    requires !v.Arr? && !v.Obj?
    ensures Paired(Scalar(v))
  {
    if v.Str? {
      QuoteIsPaired(v.s);
    } else {
      if v.Num? {
        DecimalIsPlain(if v.n < 0 then -v.n else v.n);
      }
      PlainIsPaired(Scalar(v));
    }
  }

  lemma {:induction false} JoinIsPaired(texts: seq<Text>)
    requires forall t :: t in texts ==> Paired(t)
    ensures Paired(Join(texts))
  {
    if |texts| > 1 {
      JoinIsPaired(texts[1..]);
      PlainIsPaired([COMMA]);
      PairedAppend(texts[0], [COMMA]);
      PairedAppend(texts[0] + [COMMA], Join(texts[1..]));
    } else if |texts| == 1 {
      assert texts[0] in texts;
    }
  }

  lemma Framed(open: Unit, body: Text, close: Unit)
    requires Paired(body) && open < 0xD800 && close < 0xD800
    ensures Paired([open] + body + [close])
  {
    PlainIsPaired([open]);
    PlainIsPaired([close]);
    PairedAppend([open], body);
    PairedAppend([open] + body, [close]);
  }

  lemma {:induction false} StringifyIsPaired(v: Json)
    ensures Paired(Stringify(v))
    decreases v, 1
  {
    match v
    case Arr(items) =>
      ItemTextsArePaired(items);
      JoinIsPaired(ItemTexts(items));
      Framed(OPEN_BRACKET, Join(ItemTexts(items)), CLOSE_BRACKET);
    case Obj(ms) =>
      MemberTextsArePaired(ms);
      JoinIsPaired(MemberTexts(ms));
      Framed(OPEN_BRACE, Join(MemberTexts(ms)), CLOSE_BRACE);
    case _ => ScalarIsPaired(v);
  }

  lemma {:induction false} ItemTextsArePaired(items: seq<Json>)
    ensures forall t :: t in ItemTexts(items) ==> Paired(t)
    decreases items, 0
  {
    if items != [] {
      StringifyIsPaired(items[0]);
      ItemTextsArePaired(items[1..]);
    }
  }

  lemma {:induction false} MemberTextsArePaired(ms: seq<Member>)
    ensures forall t :: t in MemberTexts(ms) ==> Paired(t)
    decreases ms, 0
  {
    if ms != [] {
      var m := ms[0];
      StringifyIsPaired(m.value);
      QuoteIsPaired(m.key);
      PlainIsPaired([COLON]);
      PairedAppend(Quote(m.key), [COLON]);
      PairedAppend(Quote(m.key) + [COLON], Stringify(m.value));
      MemberTextsArePaired(ms[1..]);
    }
  }

  /** The canonical text of any tree, whatever its strings hold, is well-formed UTF-16. */
  lemma CanonicalIsPaired(v: Json)
    ensures Paired(Canonical(v))
  {
    CanonicalPrintsNormal(v);
    StringifyIsPaired(Normal(v));
  }

  // ---------------------------------------------------------------- printed text has no control characters

  /** No control character, so no line break. */
  predicate Visible(t: Text) { forall i :: 0 <= i < |t| ==> t[i] >= 32 }

  lemma {:induction false} QuoteBodyIsVisible(s: Text)
    ensures Visible(QuoteBody(s))
  {
    if s != [] {
      QuoteBodyIsVisible(s[Width(s)..]);
    }
  }

  lemma QuoteIsVisible(s: Text)
    ensures Visible(Quote(s))
  {
    QuoteBodyIsVisible(s);
    var body := QuoteBody(s);
    forall i | 0 <= i < |body| + 2
      ensures Quote(s)[i] >= 32
    {
      assert 0 < i <= |body| ==> Quote(s)[i] == body[i - 1];
    }
  }

  lemma NumeralIsVisible(n: int)
    ensures Visible(Numeral(n))
  {
    assert Visible(Decimal(if n < 0 then -n else n));
  }

  lemma ScalarIsVisible(v: Json)
    requires !v.Arr? && !v.Obj?
    ensures Visible(Scalar(v))
  {
    if v.Str? {
      QuoteIsVisible(v.s);
    } else if v.Num? {
      NumeralIsVisible(v.n);
    } else if v.Float? {
      assert forall i :: 0 <= i < |v.numeral| ==> NumeralUnit(v.numeral[i]);
    } else {
      assert Visible(NULL_TEXT) && Visible(TRUE_TEXT) && Visible(FALSE_TEXT);
    }
  }

  lemma {:induction false} JoinIsVisible(texts: seq<Text>)
    requires forall i :: 0 <= i < |texts| ==> Visible(texts[i])
    ensures Visible(Join(texts))
  {
    if |texts| > 1 {
      JoinIsVisible(texts[1..]);
    }
  }

  /** Whatever its strings hold, a printed tree is on one line. */
  lemma {:induction false} StringifyIsVisible(v: Json)
    ensures Visible(Stringify(v))
    decreases v, 1
  {
    match v
    case Arr(items) =>
      ItemTextsAreVisible(items);
      JoinIsVisible(ItemTexts(items));
    case Obj(ms) =>
      MemberTextsAreVisible(ms);
      JoinIsVisible(MemberTexts(ms));
    case _ => ScalarIsVisible(v);
  }

  lemma {:induction false} ItemTextsAreVisible(items: seq<Json>)
    ensures forall i :: 0 <= i < |ItemTexts(items)| ==> Visible(ItemTexts(items)[i])
    decreases items, 0
  {
    if items != [] {
      StringifyIsVisible(items[0]);
      ItemTextsAreVisible(items[1..]);
    }
  }

  lemma {:induction false} MemberTextsAreVisible(ms: seq<Member>)
    ensures forall i :: 0 <= i < |MemberTexts(ms)| ==> Visible(MemberTexts(ms)[i])
    decreases ms, 0
  {
    if ms != [] {
      StringifyIsVisible(ms[0].value);
      QuoteBodyIsVisible(ms[0].key);
      MemberTextsAreVisible(ms[1..]);
    }
  }
}
