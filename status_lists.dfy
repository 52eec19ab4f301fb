/**
 * The `highlighted` and `selected` id lists: what `indexOf`, `push` and
 * `splice(idx, 1)` do to them, and the facts the status operations rest on.
 */
module StatusLists {

  /** No id occurs twice. */
  predicate NoDup(s: seq<string>)
  {
    forall i, j :: 0 <= i < j < |s| ==> s[i] != s[j]
  }

  /** `s.indexOf(x)`: the first position of x, or -1. */
  function IndexOf(s: seq<string>, x: string): (r: int)
    ensures -1 <= r < |s|
    ensures r == -1 <==> x !in s
    ensures r >= 0 ==> s[r] == x && x !in s[..r]
  {
    if s == [] then -1
    else if s[0] == x then 0
    else
      var k := IndexOf(s[1..], x);
      if k == -1 then -1
      else
        assert s[..k + 1] == [s[0]] + s[1..][..k];
        k + 1
  }

  /** `s.splice(i, 1)` */
  function RemoveAt(s: seq<string>, i: nat): (r: seq<string>)
    requires i < |s|
    ensures |r| == |s| - 1
    ensures multiset(r) == multiset(s) - multiset{s[i]}
  {
    assert s == s[..i] + [s[i]] + s[i + 1..];
    s[..i] + s[i + 1..]
  }

  /** Push x when `indexOf` does not find it. */
  function Added(s: seq<string>, x: string): (r: seq<string>)
    ensures x in r
    ensures |s| <= |r| <= |s| + 1 && r[..|s|] == s
  {
    if IndexOf(s, x) == -1 then s + [x] else s
  }

  /** Splice out the position `indexOf` finds, if any. */
  function RemoveFirst(s: seq<string>, x: string): (r: seq<string>)
    ensures x !in s ==> r == s
    ensures x in s ==> |r| == |s| - 1 && multiset(r) == multiset(s) - multiset{x}
  {
    var i := IndexOf(s, x);
    if i == -1 then s else RemoveAt(s, i)
  }

  /** The list after toggling x on or off. */
  function Toggled(s: seq<string>, x: string, on: bool): seq<string>
  {
    if on then Added(s, x) else RemoveFirst(s, x)
  }

  /** Toggling on an id already present changes nothing, so toggling on twice is toggling on once. */
  lemma AddedIdempotent(s: seq<string>, x: string)
    ensures x in s ==> Added(s, x) == s
    ensures Added(Added(s, x), x) == Added(s, x)
  {
  }

  /** Toggling on adds x once when it is absent and changes nothing else. */
  lemma AddedCounts(s: seq<string>, x: string)
    ensures multiset(Added(s, x))[x] == if x in s then multiset(s)[x] else 1
    ensures forall y :: y != x ==> multiset(Added(s, x))[y] == multiset(s)[y]
  {
    if x !in s {
      assert Added(s, x) == s + [x];
    }
  }

  /** Toggling on leaves x in the list exactly once, when it was there at most once. */
  lemma AddedExactlyOnce(s: seq<string>, x: string)
    requires multiset(s)[x] <= 1
    ensures multiset(Added(s, x))[x] == 1
  {
    AddedCounts(s, x);
  }

  /** Toggling off removes the first occurrence of x: the ids before it and after it keep their order. */
  lemma RemoveFirstKeepsOrder(s: seq<string>, x: string)
    requires x in s
    ensures exists i :: 0 <= i < |s| && s[i] == x && x !in s[..i] && RemoveFirst(s, x) == s[..i] + s[i + 1..]
  {
    var i := IndexOf(s, x);
    assert RemoveFirst(s, x) == s[..i] + s[i + 1..];
  }

  /** Toggling on keeps a duplicate-free list duplicate-free. */
  lemma AddedNoDup(s: seq<string>, x: string)
    requires NoDup(s)
    ensures NoDup(Added(s, x))
  {
  }

  /** Splicing out one position keeps a duplicate-free list duplicate-free and drops that id. */
  lemma RemoveAtNoDup(s: seq<string>, i: nat)
    requires i < |s| && NoDup(s)
    ensures NoDup(RemoveAt(s, i)) && s[i] !in RemoveAt(s, i)
  {
    var r := RemoveAt(s, i);
    assert forall k :: 0 <= k < |r| ==> r[k] == s[if k < i then k else k + 1];
  }

  /** Toggling off keeps a duplicate-free list duplicate-free, and x is then gone from it. */
  lemma RemoveFirstNoDup(s: seq<string>, x: string)
    requires NoDup(s)
    ensures NoDup(RemoveFirst(s, x))
    ensures x !in RemoveFirst(s, x)
  {
    if x in s {
      RemoveAtNoDup(s, IndexOf(s, x));
    }
  }

  /** Toggling an id on that was absent and then off again gives back the list. */
  lemma AddRemoveRoundTrip(s: seq<string>, x: string)
    requires x !in s
    ensures RemoveFirst(Added(s, x), x) == s
  {
    assert Added(s, x) == s + [x];
    assert IndexOf(s + [x], x) == |s| by {
      assert (s + [x])[..|s|] == s;
    }
    assert (s + [x])[..|s|] == s;
  }

  /** Toggling off the head of a list gives its tail. */
  lemma RemoveFirstOfHead(s: seq<string>)
    requires s != []
    ensures RemoveFirst(s, s[0]) == s[1..]
  {
    assert IndexOf(s, s[0]) == 0;
  }
}
