/** Circular queues through links embedded in their members. */
module Queue {

  class Link {
    var prev: Link
    var next: Link

    constructor ()
      ensures Ring([this])
    {
      prev, next := this, this;
    }
  }

  ghost predicate Distinct(s: seq<Link>) {
    forall i, j :: 0 <= i < j < |s| ==> s[i] != s[j]
  }

  /** The link behind, and the link before, a place of a ring. */
  ghost function Behind(s: seq<Link>, i: nat): Link
    requires i < |s|
  {
    if i + 1 < |s| then s[i + 1] else s[0]
  }

  ghost function Before(s: seq<Link>, i: nat): Link
    requires i < |s|
  {
    if i > 0 then s[i - 1] else s[|s| - 1]
  }

  /** The link at a place points to its neighbours. */
  ghost predicate LinkedAt(s: seq<Link>, i: nat)
    requires i < |s|
    reads s[i]
  {
    s[i].next == Behind(s, i) && s[i].prev == Before(s, i)
  }

  /** The links form one ring, in this order. */
  ghost predicate Ring(s: seq<Link>)
    reads s
  {
    s != [] && Distinct(s) && forall i {:trigger LinkedAt(s, i)} :: 0 <= i < |s| ==> LinkedAt(s, i)
  }

  /** A queue: its sentinel, and its members in order. */
  ghost predicate Holds(h: Link, members: seq<Link>)
    reads [h] + members
  {
    Ring([h] + members)
  }

  // ---------- the operations ----------

  /** A link on its own is an empty queue, and a member of none. */
  method Init(q: Link)
    modifies q
    ensures Holds(q, [])
  {
    q.prev := q;
    q.next := q;
  }

  method Empty(h: Link, ghost members: seq<Link>) returns (b: bool)
    requires Holds(h, members)
    ensures b <==> members == []
  {
    ghost var s := [h] + members;
    assert LinkedAt(s, 0);
    b := h == h.prev;
  }

  method Head(h: Link, ghost members: seq<Link>) returns (x: Link)
    requires Holds(h, members)
    ensures x == if members == [] then h else members[0]
  {
    ghost var s := [h] + members;
    assert LinkedAt(s, 0);
    x := h.next;
  }

  /** The walk along a queue: from each member to the one behind it, and from the last to the sentinel. */
  method Next(h: Link, q: Link, ghost members: seq<Link>, ghost i: nat) returns (x: Link)
    requires Holds(h, members) && i < |members| && q == members[i]
    ensures x == if i + 1 < |members| then members[i + 1] else h
  {
    ghost var s := [h] + members;
    assert LinkedAt(s, i + 1);
    x := q.next;
  }

  /** A new link in a sequence at `k`: the others keep their order. */
  lemma Inserted(s: seq<Link>, x: Link, k: nat, t: seq<Link>)
    requires Distinct(s) && x !in s && k <= |s| && t == s[..k] + [x] + s[k..]
    ensures Distinct(t)
    ensures forall i :: 0 <= i < |t| ==> t[i] == if i < k then s[i] else if i == k then x else s[i - 1]
  {
  }

  /** A link is at one place only. */
  lemma Unique(s: seq<Link>, k: nat)
    requires Distinct(s) && k < |s|
    ensures forall i :: 0 <= i < |s| && s[i] == s[k] ==> i == k
  {
  }

  /** The four links that an insertion at the head changes. */
  method InsertLinks(h: Link, x: Link, ghost first: Link)
    requires h.next == first && x != h && x != first
    modifies x`prev, x`next, first`prev, h`next
    ensures x.next == first && first.prev == x && x.prev == h && h.next == x
  {
    x.next := h.next;
    x.next.prev := x;
    x.prev := h;
    h.next := x;
  }

  method InsertHead(h: Link, x: Link, ghost members: seq<Link>)
    requires Holds(h, members) && x != h && x !in members
    modifies h, x, members
    ensures Holds(h, [x] + members)
  {
    ghost var s, t := [h] + members, [h] + ([x] + members);
    assert LinkedAt(s, 0);
    assert t == s[..1] + [x] + s[1..];
    Inserted(s, x, 1, t);
    Unique(s, 0);
    Unique(s, if |s| > 1 then 1 else 0);
    hide Distinct;
    InsertLinks(h, x, Behind(s, 0));
    forall k | 0 <= k < |t| ensures LinkedAt(t, k) {
      assert k > 0 ==> old(LinkedAt(s, if k > 1 then k - 1 else 0));
      assert |s| > 1 && k == 0 ==> old(LinkedAt(s, 0));
    }
  }

  method InsertTail(h: Link, x: Link, ghost members: seq<Link>)
    requires Holds(h, members) && x != h && x !in members
    modifies h, x, members
    ensures Holds(h, members + [x])
  {
    ghost var s, t, n := [h] + members, [h] + (members + [x]), |members|;
    assert LinkedAt(s, 0);
    assert t == s[..|s|] + [x] + s[|s|..];
    Inserted(s, x, |s|, t);
    Unique(t, 0);
    Unique(t, n);
    Unique(t, n + 1);
    hide Distinct;
    x.prev := h.prev;
    x.prev.next := x;
    x.next := h;
    h.prev := x;
    forall k | 0 <= k < |t| ensures LinkedAt(t, k) {
      assert k < |s| ==> t[k] == s[k] && old(LinkedAt(s, k));
    }
  }

  /** A sequence without the link at `k`. */
  lemma Removed(s: seq<Link>, k: nat, t: seq<Link>)
    requires Distinct(s) && k < |s| && t == s[..k] + s[k + 1..]
    ensures Distinct(t) && s[k] !in t
    ensures forall i :: 0 <= i < |t| ==> t[i] == if i < k then s[i] else s[i + 1]
  {
  }

  /** The four links that a removal changes. */
  method RemoveLinks(x: Link, ghost before: Link, ghost behind: Link)
    requires x.prev == before && x.next == behind && (before == x <==> behind == x)
    modifies x`prev, x`next, before`next, behind`prev
    ensures x.prev == x && x.next == x
    ensures before != x ==> before.next == behind && behind.prev == before
  {
    x.next.prev := x.prev;
    x.prev.next := x.next;
    x.prev := x;
    x.next := x;
  }

  /** A member leaves its ring and is on its own; a link on its own stays so. */
  method Remove(x: Link, ghost s: seq<Link>, ghost i: nat)
    requires Ring(s) && i < |s| && s[i] == x
    modifies s
    ensures Holds(x, [])
    ensures |s| > 1 ==> Ring(s[..i] + s[i + 1..])
  {
    ghost var t := s[..i] + s[i + 1..];
    ghost var n, p := if i + 1 < |s| then i + 1 else 0, if i > 0 then i - 1 else |s| - 1;
    Removed(s, i, t);
    assert LinkedAt(s, i);
    Unique(s, i);
    Unique(s, n);
    Unique(s, p);
    hide Distinct;
    RemoveLinks(x, s[p], s[n]);
    forall k | 0 <= k < |t| ensures LinkedAt(t, k) {
      var j := if k < i then k else k + 1;
      assert t[k] == s[j] && old(LinkedAt(s, j));
    }
  }

  /** Where the links of two sequences are in their concatenation. */
  lemma Places(a: seq<Link>, b: seq<Link>, s: seq<Link>)
    requires s == a + b
    ensures forall i :: 0 <= i < |a| ==> a[i] == s[i]
    ensures forall i :: 0 <= i < |b| ==> b[i] == s[i + |a|]
  {
  }

  lemma DistinctParts(a: seq<Link>, b: seq<Link>, s: seq<Link>)
    requires s == a + b && Distinct(s)
    ensures Distinct(a) && Distinct(b)
    ensures forall i, j :: 0 <= i < |a| && 0 <= j < |b| ==> a[i] != b[j]
  {
    Places(a, b, s);
    forall i, j | 0 <= i < j < |a| ensures a[i] != a[j] {
      assert s[i] != s[j];
    }
    forall i, j | 0 <= i < j < |b| ensures b[i] != b[j] {
      assert s[i + |a|] != s[j + |a|];
    }
    forall i, j | 0 <= i < |a| && 0 <= j < |b| ensures a[i] != b[j] {
      assert s[i] != s[j + |a|];
    }
  }

  lemma DistinctWhole(a: seq<Link>, b: seq<Link>, s: seq<Link>)
    requires s == a + b && Distinct(a) && Distinct(b)
    requires forall i, j :: 0 <= i < |a| && 0 <= j < |b| ==> a[i] != b[j]
    ensures Distinct(s)
  {
    forall i, j | 0 <= i < j < |s| ensures s[i] != s[j] {
      if i < |a| <= j {
        assert a[i] != b[j - |a|];
      } else if j < |a| {
        assert a[i] != a[j];
      } else {
        assert b[i - |a|] != b[j - |a|];
      }
    }
  }

  /** The six links that a split changes. */
  method SplitLinks(h: Link, q: Link, n: Link, ghost last: Link, ghost before: Link)
    requires h.prev == last && q.prev == before && n != h && n != q && q != h && last != n && last != before
        && before != n
    modifies n`prev, n`next, h`prev, q`prev, last`next, before`next
    ensures n.prev == last && last.next == n && n.next == q && h.prev == before && before.next == h && q.prev == n
  {
    n.prev := h.prev;
    n.prev.next := n;
    n.next := q;
    h.prev := q.prev;
    h.prev.next := h;
    q.prev := n;
  }

  /** The members from `q` on, of which there is one, go to the queue of `n`. */
  method Split(h: Link, q: Link, n: Link, ghost a: seq<Link>, ghost b: seq<Link>)
    requires Holds(h, a + b) && b != [] && b[0] == q && n != h && n !in a + b
    modifies h, n, a, b
    ensures Holds(h, a) && Holds(n, b)
  {
    ghost var left, right, s := [h] + a, [n] + b, [h] + (a + b);
    SplitPlaces(h, q, n, a, b, left, right, s);
    ghost var l, r := |left| - 1, |right| - 1;
    SplitLinks(h, q, n, right[r], left[l]);
    forall i | 0 <= i < |left| ensures LinkedAt(left, i) {
      assert left[i] == s[i] && left[i] != right[r] && left[i] != n && left[i] != q;
      assert old(LinkedAt(s, i));
    }
    forall i | 0 <= i < |right| ensures LinkedAt(right, i) {
      assert right[i] != left[l] && right[i] != h;
      assert i > 0 ==> right[i] == s[i + l] && old(LinkedAt(s, i + l));
    }
  }

  /** Before a split: what is where, and what is not the same. */
  lemma SplitPlaces(h: Link, q: Link, n: Link, a: seq<Link>, b: seq<Link>, left: seq<Link>, right: seq<Link>,
        s: seq<Link>)
    requires Ring(s) && b != [] && b[0] == q && n !in s
    requires left == [h] + a && right == [n] + b && s == [h] + (a + b)
    ensures Distinct(left) && Distinct(right)
    ensures forall i :: 0 <= i < |left| ==> left[i] == s[i]
    ensures forall i :: 0 < i < |right| ==> right[i] == s[i + |left| - 1]
    ensures forall i, j :: 0 <= i < |left| && 0 <= j < |right| ==> left[i] != right[j]
    ensures h.prev == right[|right| - 1] && q.prev == left[|left| - 1] && right[1] == q && left[0] == h && right[0] == n
  {
    hide Ring, Distinct, Behind;
    assert s == left + b;
    RingAt(s, 0);
    RingAt(s, |left|);
    Places(left, b, s);
    Places([n], b, right);
    DistinctParts(left, b, s);
    DistinctWhole([n], b, right);
    forall i, j | 0 <= i < |left| && 0 <= j < |right| ensures left[i] != right[j] {
      assert left[i] in s;
      assert j > 0 ==> right[j] == b[j - 1];
    }
  }

  lemma RingAt(s: seq<Link>, i: nat)
    requires Ring(s) && i < |s|
    ensures Distinct(s) && s[i].next == Behind(s, i) && s[i].prev == Before(s, i)
  {
    assert LinkedAt(s, i);
  }

  /** The members of the queue of `n` join those of the queue of `h`, behind them; `n` is then of no queue. */
  method Add(h: Link, n: Link, ghost a: seq<Link>, ghost b: seq<Link>)
    requires Holds(h, a) && Holds(n, b) && forall x :: x in [h] + a ==> x !in [n] + b
    modifies h, n, a, b
    ensures Holds(h, a + b)
  {
    ghost var left, right, s := [h] + a, [n] + b, [h] + (a + b);
    AddPlaces(h, n, a, b, left, right, s);
    ghost var l, r := |left| - 1, |right| - 1;
    assert LinkedAt(left, l);
    AddLinks(h, n, left[l], right[if r > 0 then 1 else 0], right[r], r > 0);
    if r > 0 {
      forall k | 0 <= k < |s| ensures LinkedAt(s, k) {
        if k <= l {
          assert s[k] == left[k] && left[k] != right[1] && left[k] != right[r] && old(LinkedAt(left, k));
        } else {
          assert s[k] == right[k - l] && right[k - l] != left[l] && right[k - l] != h && old(LinkedAt(right, k - l));
        }
      }
    } else {
      assert s == left;
    }
  }

  /** The four assignments of a join; with nothing to join, the queue of `h` is as before. */
  method AddLinks(h: Link, n: Link, ghost last: Link, ghost first: Link, ghost end: Link, ghost some: bool)
    requires h.prev == last && n.next == first && n.prev == end && first != h && end != h && last != n && last != end
    requires if some then first != n else first == n && end == n && last.next == h
    modifies last`next, first`prev, h`prev, end`next
    ensures some ==> last.next == first && first.prev == last && h.prev == end && end.next == h
    ensures !some ==> last.next == h && h.prev == last && end.next == first
  {
    h.prev.next := n.next;
    n.next.prev := h.prev;
    h.prev := n.prev;
    h.prev.next := h;
  }

  /** Before a join: what is where, and what is not the same. */
  lemma AddPlaces(h: Link, n: Link, a: seq<Link>, b: seq<Link>, left: seq<Link>, right: seq<Link>, s: seq<Link>)
    requires left == [h] + a && right == [n] + b && s == [h] + (a + b)
    requires Ring(left) && Ring(right) && forall x :: x in left ==> x !in right
    ensures Distinct(s)
    ensures forall i :: 0 <= i < |left| ==> left[i] == s[i]
    ensures forall i :: 0 < i < |right| ==> right[i] == s[i + |left| - 1]
    ensures forall i, j :: 0 <= i < |left| && 0 <= j < |right| ==> left[i] != right[j]
    ensures h.prev == left[|left| - 1] && n.prev == right[|right| - 1]
    ensures n.next == if b == [] then n else right[1]
    ensures left[0] == h && right[0] == n
  {
    hide Ring, Distinct;
    RingAt(left, 0);
    RingAt(right, 0);
    Apart(left, right);
    AddDistinct(n, b, left, right, s);
    assert s == left + b;
    Places(left, b, s);
    Places([n], b, right);
  }

  lemma Apart(a: seq<Link>, b: seq<Link>)
    requires forall x :: x in a ==> x !in b
    ensures forall i, j :: 0 <= i < |a| && 0 <= j < |b| ==> a[i] != b[j]
  {
    forall i, j | 0 <= i < |a| && 0 <= j < |b| ensures a[i] != b[j] {
      assert a[i] in a && b[j] in b;
    }
  }

  lemma AddDistinct(n: Link, b: seq<Link>, left: seq<Link>, right: seq<Link>, s: seq<Link>)
    requires right == [n] + b && s == left + b && Distinct(left) && Distinct(right)
    requires forall i, j :: 0 <= i < |left| && 0 <= j < |right| ==> left[i] != right[j]
    ensures Distinct(s)
  {
    hide Distinct;
    DistinctParts([n], b, right);
    forall i, j | 0 <= i < |left| && 0 <= j < |b| ensures left[i] != b[j] {
      assert left[i] != right[j + 1];
    }
    DistinctWhole(left, b, s);
  }
}
