/** Lists of strings in code-unit order, as `sort()` leaves them. */
module TextOrder {
  import opened CodeUnits
  import opened CanonicalJson
  import opened CanonicalMeaning

  function KeysOf<T>(ms: seq<Keyed<T>>): seq<Text> {
    seq(|ms|, i requires 0 <= i < |ms| => ms[i].key)
  }

  function ValuesOf<T>(ms: seq<Keyed<T>>): seq<T> {
    seq(|ms|, i requires 0 <= i < |ms| => ms[i].value)
  }

  predicate Ascending(s: seq<Text>) { forall i, j :: 0 <= i < j < |s| ==> Less(s[i], s[j]) }

  /** The list that has these members, in order. */
  predicate Lists(s: seq<Text>, members: set<Text>) { Ascending(s) && (set x | x in s) == members }

  predicate Distinct(s: seq<Text>) { forall i, j :: 0 <= i < j < |s| ==> s[i] != s[j] }

  function Keys(s: seq<Text>): (r: seq<Keyed<()>>)
    ensures |r| == |s| && forall i :: 0 <= i < |r| ==> r[i] == Member(s[i], ())
  {
    seq(|s|, i requires 0 <= i < |s| => Member(s[i], ()))
  }

  /** `[...texts].sort()` */
  function SortTexts(s: seq<Text>): seq<Text> { KeysOf(SortMembers(Keys(s))) }

  lemma SortTextsLists(s: seq<Text>)
    requires Distinct(s)
    ensures Lists(SortTexts(s), set x | x in s)
    ensures SortTexts(s) == [] <==> s == []
  {
    var ms := SortMembers(Keys(s));
    SortedMembers(Keys(s));
    forall x
      ensures x in SortTexts(s) <==> x in s
    {
      if x in s {
        var i :| 0 <= i < |s| && s[i] == x;
        assert Keys(s)[i] in ms;
        var j :| 0 <= j < |ms| && ms[j] == Keys(s)[i];
        assert SortTexts(s)[j] == x;
      }
      if x in SortTexts(s) {
        var j :| 0 <= j < |ms| && SortTexts(s)[j] == x;
        assert ms[j] in Keys(s);
      }
    }
  }

  lemma ListsOneWay(s: seq<Text>, t: seq<Text>, members: set<Text>)
    requires Lists(s, members) && Lists(t, members)
    ensures s == t
  {
    forall k
      ensures HasKey(Keys(s), k) <==> HasKey(Keys(t), k)
    {
      ListedKey(s, members, k);
      ListedKey(t, members, k);
    }
    SortedKeysAgree(Keys(s), Keys(t));
    forall i | 0 <= i < |s|
      ensures s[i] == t[i]
    {
      assert Keys(s)[i].key == Keys(t)[i].key;
    }
  }

  lemma ListedKey(s: seq<Text>, members: set<Text>, k: Text)
    requires Lists(s, members)
    ensures HasKey(Keys(s), k) <==> k in members
  {
    assert k in members <==> k in s;
    if k in s {
      var i :| 0 <= i < |s| && s[i] == k;
      assert Keys(s)[i].key == k;
    }
  }
}
