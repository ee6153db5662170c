/** The ordering both session services apply before listing sessions:
    `sessions.sort((a, b) -> b.getCreatedAt().compareTo(a.getCreatedAt()))`,
    newest first. Java's `List.sort` sorts the list's backing array in place
    with a stable algorithm; the model sorts an array in place by insertion,
    moving an element only past strictly older ones. */
module SessionOrder {
  import opened Model

  /** Newest first: creation times never increase along the list. */
  ghost predicate NewestFirst(s: seq<Session>) {
    forall i, j :: 0 <= i < j < |s| ==> s[i].createdAt >= s[j].createdAt
  }

  /** Exchanges two adjacent elements. */
  method SwapDown(a: array<Session>, j: int)
    requires 0 < j < a.Length
    modifies a
    ensures a[..] == old(a[..])[j - 1 := old(a[j])][j := old(a[j - 1])]
    ensures multiset(a[..]) == multiset(old(a[..]))
  {
    a[j - 1], a[j] := a[j], a[j - 1];
  }

  /** Sorts `a` newest first, keeping its elements. */
  method SortNewestFirst(a: array<Session>)
    modifies a
    ensures NewestFirst(a[..])
    ensures multiset(a[..]) == multiset(old(a[..]))
  {
    if a.Length == 0 {
      return;
    }
    var i := 1;
    while i < a.Length
      invariant 1 <= i <= a.Length
      invariant NewestFirst(a[..i])
      invariant multiset(a[..]) == multiset(old(a[..]))
    {
      var j := i;
      while j > 0 && a[j - 1].createdAt < a[j].createdAt
        invariant 0 <= j <= i
        invariant multiset(a[..]) == multiset(old(a[..]))
        invariant forall p, q :: 0 <= p < q <= i && q != j ==> a[p].createdAt >= a[q].createdAt
        invariant 0 < j < i ==> a[j - 1].createdAt >= a[j + 1].createdAt
      {
        SwapDown(a, j);
        j := j - 1;
      }
      i := i + 1;
    }
  }
}
