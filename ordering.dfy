/** The order `sort_values(["event_name", "days_since_onsale"])` puts the cleaned rows in:
    by event name, compared character by character as Python compares strings, then by day. */
module Ordering {
  import opened Rows

  /** Lexicographic `<=` on strings by character code. */
  predicate StrLe(a: string, b: string)
    decreases |a|
  {
    if a == [] then true
    else if b == [] then false
    else if a[0] != b[0] then a[0] < b[0]
    else StrLe(a[1..], b[1..])
  }

  lemma {:induction false} StrLeTotal(a: string, b: string)
    ensures StrLe(a, b) || StrLe(b, a)
    decreases |a|
  {
    if a != [] && b != [] && a[0] == b[0] {
      StrLeTotal(a[1..], b[1..]);
    }
  }

  lemma {:induction false} StrLeAntisymmetric(a: string, b: string)
    requires StrLe(a, b) && StrLe(b, a)
    ensures a == b
    decreases |a|
  {
    if a != [] && b != [] {
      StrLeAntisymmetric(a[1..], b[1..]);
      assert a == [a[0]] + a[1..] && b == [b[0]] + b[1..];
    }
  }

  lemma {:induction false} StrLeTransitive(a: string, b: string, c: string)
    requires StrLe(a, b) && StrLe(b, c)
    ensures StrLe(a, c)
    decreases |a|
  {
    if a != [] && b != [] && c != [] && a[0] == b[0] && b[0] == c[0] {
      StrLeTransitive(a[1..], b[1..], c[1..]);
    }
  }

  /** The sort key order: event name first, then days since on-sale. */
  predicate KeyLe(x: Sale, y: Sale)
  {
    if x.event == y.event then x.day <= y.day else StrLe(x.event, y.event)
  }

  lemma KeyLeTotal(x: Sale, y: Sale)
    ensures KeyLe(x, y) || KeyLe(y, x)
  {
    StrLeTotal(x.event, y.event);
  }

  lemma KeyLeTransitive(x: Sale, y: Sale, z: Sale)
    requires KeyLe(x, y) && KeyLe(y, z)
    ensures KeyLe(x, z)
  {
    if x.event != y.event && y.event != z.event {
      StrLeTransitive(x.event, y.event, z.event);
      if x.event == z.event {
        StrLeAntisymmetric(x.event, y.event);
      }
    }
  }

  ghost predicate Sorted(s: seq<Sale>)
  {
    forall i, j :: 0 <= i < j < |s| ==> KeyLe(s[i], s[j])
  }

  /** In a sorted table, two rows of one event appear in order of their days. */
  lemma SortedSameEventByDay(s: seq<Sale>, i: nat, j: nat)
    requires Sorted(s) && i < |s| && j < |s|
    requires s[i].event == s[j].event && s[i].day < s[j].day
    ensures i < j
  {
  }

  /** Places x in a sorted sequence, in front of the first row it does not follow. */
  function Insert(x: Sale, s: seq<Sale>): (r: seq<Sale>)
    requires Sorted(s)
    ensures Sorted(r)
    ensures multiset(r) == multiset(s) + multiset{x}
    decreases |s|
  {
    if s == [] then [x]
    else if KeyLe(x, s[0]) then
      InsertFront(x, s);
      [x] + s
    else
      KeyLeTotal(x, s[0]);
      var t := Insert(x, s[1..]);
      assert s == [s[0]] + s[1..];
      HeadBelowRest(s[0], x, s, t);
      [s[0]] + t
  }

  lemma InsertFront(x: Sale, s: seq<Sale>)
    requires Sorted(s) && s != [] && KeyLe(x, s[0])
    ensures Sorted([x] + s)
  {
    forall j | 0 < j < |s|
      ensures KeyLe(x, s[j])
    {
      KeyLeTransitive(x, s[0], s[j]);
    }
  }

  lemma HeadBelowRest(h: Sale, x: Sale, s: seq<Sale>, t: seq<Sale>)
    requires Sorted(s) && s != [] && h == s[0] && KeyLe(h, x) && Sorted(t)
    requires multiset(t) == multiset(s[1..]) + multiset{x}
    ensures Sorted([h] + t)
  {
    forall j | 0 <= j < |t|
      ensures KeyLe(h, t[j])
    {
      assert t[j] in multiset(t);
      if t[j] != x {
        assert t[j] in s[1..];
        var k :| 0 <= k < |s[1..]| && s[1..][k] == t[j];
        assert s[k + 1] == t[j];
      }
    }
    var r := [h] + t;
    forall i, j | 0 <= i < j < |r|
      ensures KeyLe(r[i], r[j])
    {
      if i > 0 {
        assert r[i] == t[i - 1] && r[j] == t[j - 1];
      } else {
        assert r[j] == t[j - 1];
      }
    }
  }

  /** The rows in (event, day) order: a sorted permutation of the input. */
  function SortSales(s: seq<Sale>): (r: seq<Sale>)
    ensures Sorted(r)
    ensures multiset(r) == multiset(s)
    ensures |r| == |s|
  {
    if s == [] then []
    else
      assert s == [s[0]] + s[1..];
      Insert(s[0], SortSales(s[1..]))
  }
}
