/** Grouping tagged items: every item goes to the group of its tag, in the order given. */
module Grouping {
  import opened Common

  /** Items carrying `tag`, in order. */
  function Pick<T>(items: seq<(string, T)>, tag: string): seq<T> {
    if items == [] then []
    else
      var n := |items| - 1;
      Pick(items[..n], tag) + (if items[n].0 == tag then [items[n].1] else [])
  }

  function Untagged<T>(items: seq<(string, T)>): (r: seq<T>)
    ensures |r| == |items| && forall i :: 0 <= i < |items| ==> r[i] == items[i].1
  {
    seq(|items|, i requires 0 <= i < |items| => items[i].1)
  }

  function Groups<T>(items: seq<(string, T)>, order: seq<string>): (r: seq<seq<T>>)
    ensures |r| == |order| && forall i :: 0 <= i < |order| ==> r[i] == Pick(items, order[i])
  {
    seq(|order|, i requires 0 <= i < |order| => Pick(items, order[i]))
  }

  lemma {:induction false} PickMembers<T>(items: seq<(string, T)>, tag: string)
    ensures forall x :: x in Pick(items, tag) <==> (tag, x) in items
  {
    if items != [] {
      var n := |items| - 1;
      PickMembers(items[..n], tag);
      assert items == items[..n] + [items[n]];
    }
  }

  /** Adding one item grows exactly the group of its tag. */
  lemma {:induction false} GroupsGrow<T>(items: seq<(string, T)>, item: (string, T), order: seq<string>)
    requires Distinct(order)
    ensures multiset(Flat(Groups(items + [item], order))) ==
      multiset(Flat(Groups(items, order))) + (if item.0 in order then multiset{item.1} else multiset{})
  {
    if order != [] {
      var more := items + [item];
      assert more[..|items|] == items;
      assert Groups(more, order)[1..] == Groups(more, order[1..]);
      assert Groups(items, order)[1..] == Groups(items, order[1..]);
      FlatFirst(Groups(more, order));
      FlatFirst(Groups(items, order));
      GroupsGrow(items, item, order[1..]);
      assert Pick(more, order[0]) == Pick(items, order[0]) + (if item.0 == order[0] then [item.1] else []);
      assert item.0 in order <==> item.0 == order[0] || item.0 in order[1..];
    }
  }

  /** Grouping under distinct tags that cover every item loses and duplicates nothing. */
  lemma {:induction false} GroupsPartition<T>(items: seq<(string, T)>, order: seq<string>)
    requires Distinct(order) && forall i :: 0 <= i < |items| ==> items[i].0 in order
    ensures multiset(Flat(Groups(items, order))) == multiset(Untagged(items))
  {
    if items == [] {
      EmptyGroups<T>(order);
    } else {
      var n := |items| - 1;
      assert items == items[..n] + [items[n]];
      GroupsGrow(items[..n], items[n], order);
      GroupsPartition(items[..n], order);
      assert Untagged(items) == Untagged(items[..n]) + [items[n].1];
    }
  }

  lemma {:induction false} EmptyGroups<T>(order: seq<string>)
    ensures Flat(Groups<T>([], order)) == []
  {
    if order != [] {
      assert Groups<T>([], order)[1..] == Groups<T>([], order[1..]);
      FlatFirst(Groups<T>([], order));
      EmptyGroups<T>(order[1..]);
    }
  }

  /** Rearranging the items rearranges each group. */
  lemma {:induction false} PickForgetsOrder<T>(items: seq<(string, T)>, tag: string)
    ensures forall x :: multiset(Pick(items, tag))[x] == multiset(items)[(tag, x)]
  {
    if items != [] {
      var n := |items| - 1;
      assert items == items[..n] + [items[n]];
      PickForgetsOrder(items[..n], tag);
    }
  }

  /** First occurrences, in order. */
  function FirstSeen(s: seq<string>): (r: seq<string>)
    ensures Distinct(r) && forall x :: x in r <==> x in s
  {
    if s == [] then []
    else
      var n := |s| - 1;
      assert s == s[..n] + [s[n]];
      if s[n] in FirstSeen(s[..n]) then FirstSeen(s[..n]) else FirstSeen(s[..n]) + [s[n]]
  }

  /** Two duplicate-free listings of the same elements are rearrangements of each other. */
  lemma {:induction false} SameElements(a: seq<string>, b: seq<string>)
    requires Distinct(a) && Distinct(b) && forall x :: x in a <==> x in b
    ensures multiset(a) == multiset(b)
  {
    forall x ensures multiset(a)[x] == multiset(b)[x] {
      CountOne(a, x);
      CountOne(b, x);
    }
  }

  lemma {:induction false} CountOne(s: seq<string>, x: string)
    requires Distinct(s)
    ensures multiset(s)[x] == if x in s then 1 else 0
  {
    if s != [] {
      var n := |s| - 1;
      assert s == s[..n] + [s[n]];
      CountOne(s[..n], x);
    }
  }
}
