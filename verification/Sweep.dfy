/** The two loops of the server that walk a tree while they delete from it.  A connection owns one node
    of the id tree and one of the timer tree. */
module Sweep {
  import opened RbShape
  import opened RedBlackTree

  /** The sequence without the elements of `gone`. */
  ghost function Without(s: seq<Node>, gone: set<Node>): seq<Node> {
    if s == [] then []
    else if s[0] in gone then Without(s[1..], gone)
    else [s[0]] + Without(s[1..], gone)
  }

  lemma {:induction false} WithoutNothing(s: seq<Node>, gone: set<Node>)
    requires forall z :: z in s ==> z !in gone
    ensures Without(s, gone) == s
  {
    if s != [] {
      WithoutNothing(s[1..], gone);
    }
  }

  lemma {:induction false} WithoutConcat(s: seq<Node>, t: seq<Node>, gone: set<Node>)
    ensures Without(s + t, gone) == Without(s, gone) + Without(t, gone)
  {
    if s == [] {
      assert s + t == t;
    } else {
      assert (s + t)[1..] == s[1..] + t;
      WithoutConcat(s[1..], t, gone);
    }
  }

  lemma {:induction false} WithoutTwice(s: seq<Node>, gone: set<Node>, more: set<Node>)
    ensures Without(Without(s, gone), more) == Without(s, gone + more)
  {
    if s != [] {
      WithoutTwice(s[1..], gone, more);
      if s[0] !in gone {
        WithoutConcat([s[0]], Without(s[1..], gone), more);
      }
    }
  }

  /** Taking one occurrence out is filtering when nothing occurs twice. */
  lemma WithoutOne(a: seq<Node>, x: Node, b: seq<Node>)
    requires forall i, j :: 0 <= i < j < |a + [x] + b| ==> (a + [x] + b)[i] != (a + [x] + b)[j]
    ensures Without(a + [x] + b, {x}) == a + b
  {
    var s := a + [x] + b;
    forall z | z in a ensures z != x {
      var i :| 0 <= i < |a| && a[i] == z;
      assert s[i] == z && s[|a|] == x;
    }
    forall z | z in b ensures z != x {
      var i :| 0 <= i < |b| && b[i] == z;
      assert s[|a| + 1 + i] == z && s[|a|] == x;
    }
    WithoutConcat(a + [x], b, {x});
    WithoutConcat(a, [x], {x});
    WithoutNothing(a, {x});
    WithoutNothing(b, {x});
  }

  /** Deletes one node from a tree, as a filter of its order. */
  method Remove(tree: RbTree, node: Node)
    requires tree.Valid() && (node in tree.Order() || (node != tree.sentinel && tree.Unlinked(node)))
    modifies tree`root, tree`shape, tree.Repr()`left, tree.Repr()`right, tree.Repr()`parent, tree.Repr()`color
    ensures tree.Valid() && tree.Order() == Without(old(tree.Order()), {node})
    ensures tree.Unlinked(node) && tree.Repr() <= old(tree.Repr())
  {
    hide RbTree.Valid, Without, InOrder, Nodes;
    tree.Distinct();
    tree.Members();
    ghost var order := tree.Order();
    ghost var a, b := tree.Delete(node);
    tree.Members();
    assert Elements(a + b) <= Elements(order);
    if node in order {
      WithoutOne(a, node, b);
    } else {
      WithoutNothing(order, {node});
    }
  }

  /** Deletes the node of the least key: the head of the order goes. */
  method RemoveFirst(tree: RbTree, node: Node)
    requires tree.Valid() && tree.Order() != [] && node == tree.Order()[0]
    modifies tree`root, tree`shape, tree.Repr()`left, tree.Repr()`right, tree.Repr()`parent, tree.Repr()`color
    ensures tree.Valid() && tree.Order() == old(tree.Order())[1..] && tree.Repr() <= old(tree.Repr())
        && tree.Unlinked(node)
  {
    hide RbTree.Valid, Without, InOrder, Nodes;
    tree.Distinct();
    tree.Members();
    ghost var order := tree.Order();
    ghost var a, b := tree.Delete(node);
    assert order[|a|] == node;
    tree.Members();
    assert Elements(a + b) <= Elements(order);
  }

  /** The id nodes of the swept connections. */
  ghost function IdsOf(visited: seq<Node>, idOf: map<Node, Node>): set<Node> {
    set z | z in visited && z in idOf :: idOf[z]
  }

  /** Every timer node has its own id node in the id tree. */
  ghost predicate Paired(timers: seq<Node>, ids: seq<Node>, idOf: map<Node, Node>) {
    && (forall z :: z in timers ==> z in idOf && idOf[z] in ids)
    && (forall i, j :: 0 <= i < j < |timers| && timers[i] in idOf && timers[j] in idOf ==>
          idOf[timers[i]] != idOf[timers[j]])
  }

  lemma {:induction false} WithoutMember(s: seq<Node>, gone: set<Node>, x: Node)
    ensures x in Without(s, gone) <==> x in s && x !in gone
  {
    if s != [] {
      WithoutMember(s[1..], gone, x);
    }
  }

  lemma PairedNext(timers: seq<Node>, ids: seq<Node>, idOf: map<Node, Node>)
    requires timers != [] && Paired(timers, ids, idOf)
    ensures timers[0] in idOf && idOf[timers[0]] in ids
    ensures Paired(timers[1..], Without(ids, {idOf[timers[0]]}), idOf)
  {
    var x := idOf[timers[0]];
    forall z | z in timers[1..] ensures z in idOf && idOf[z] in Without(ids, {x}) {
      var i :| 1 <= i < |timers| && timers[i] == z;
      WithoutMember(ids, {x}, idOf[z]);
    }
  }

  lemma NoIds(idOf: map<Node, Node>)
    ensures IdsOf([], idOf) == {}
  {
  }

  lemma IdsOfNext(visited: seq<Node>, x: Node, idOf: map<Node, Node>)
    requires x in idOf
    ensures IdsOf(visited + [x], idOf) == IdsOf(visited, idOf) + {idOf[x]}
  {
  }

  /** The sweep so far: the nodes `visited` have left both trees, which held `timers0` and `ids0`. */
  ghost predicate SweptSoFar(timers0: seq<Node>, ids0: seq<Node>, idOf: map<Node, Node>, visited: seq<Node>,
                             timers: seq<Node>, ids: seq<Node>) {
    && timers0 == visited + timers && Paired(timers, ids, idOf)
    && ids == Without(ids0, IdsOf(visited, idOf))
  }

  lemma SweepBegins(timers: seq<Node>, ids: seq<Node>, idOf: map<Node, Node>)
    requires Paired(timers, ids, idOf)
    ensures SweptSoFar(timers, ids, idOf, [], timers, ids)
  {
    hide Paired, Without, IdsOf;
    NoIds(idOf);
    WithoutNothing(ids, {});
    assert timers == [] + timers;
  }

  lemma SweepGoesOn(timers0: seq<Node>, ids0: seq<Node>, idOf: map<Node, Node>, visited: seq<Node>,
                    timers: seq<Node>, ids: seq<Node>, current: Node)
    requires SweptSoFar(timers0, ids0, idOf, visited, timers, ids) && timers != [] && current == timers[0]
    ensures current in idOf
    ensures SweptSoFar(timers0, ids0, idOf, visited + [current], timers[1..], Without(ids, {idOf[current]}))
  {
    hide Paired, Without, IdsOf;
    PairedNext(timers, ids, idOf);
    IdsOfNext(visited, current, idOf);
    WithoutTwice(ids0, IdsOf(visited, idOf), {idOf[current]});
    assert visited + timers == visited + [current] + timers[1..];
  }

  lemma SweptPaired(timers0: seq<Node>, ids0: seq<Node>, idOf: map<Node, Node>, visited: seq<Node>,
                    timers: seq<Node>, ids: seq<Node>)
    requires SweptSoFar(timers0, ids0, idOf, visited, timers, ids)
    ensures timers0 == visited + timers && Paired(timers, ids, idOf) && ids == Without(ids0, IdsOf(visited, idOf))
  {
  }

  ghost predicate AllDue(visited: seq<Node>, now: u64)
    reads set z | z in visited :: z`key
  {
    forall z :: z in visited ==> z.key <= now
  }

  lemma DueGoesOn(visited: seq<Node>, current: Node, now: u64)
    ensures AllDue([], now)
    ensures AllDue(visited, now) && current.key <= now ==> AllDue(visited + [current], now)
  {
  }

  /** One step of the sweep: fetch the next node, then delete the current one from both trees. */
  method SweepOne(timer: RbTree, ids: RbTree, idOf: map<Node, Node>, current: Node, now: u64,
                  ghost timers0: seq<Node>, ghost ids0: seq<Node>, ghost visited: seq<Node>)
    returns (node: Node?)
    requires timer.Valid() && ids.Valid() && timer != ids && timer.Repr() !! ids.Repr()
    requires SweptSoFar(timers0, ids0, idOf, visited, timer.Order(), ids.Order())
    requires timer.Order() != [] && current == timer.Order()[0]
    requires AllDue(visited, now) && current.key <= now
    modifies timer`root, timer`shape, timer.Repr()`left, timer.Repr()`right, timer.Repr()`parent, timer.Repr()`color
    modifies ids`root, ids`shape, ids.Repr()`left, ids.Repr()`right, ids.Repr()`parent, ids.Repr()`color
    ensures timer.Valid() && ids.Valid()
    ensures timer.Repr() <= old(timer.Repr()) && ids.Repr() <= old(ids.Repr())
    ensures SweptSoFar(timers0, ids0, idOf, visited + [current], timer.Order(), ids.Order())
    ensures |timer.Order()| < |old(timer.Order())| && AllDue(visited + [current], now)
    ensures node == if timer.Order() == [] then null else timer.Order()[0]
  {
    hide RbTree.Valid, Without, Paired, InOrder, Nodes, SweptSoFar, AllDue;
    assert allocated(ids.Repr()) && allocated(timer.Repr());
    SweptPaired(timers0, ids0, idOf, visited, timer.Order(), ids.Order());
    SweepGoesOn(timers0, ids0, idOf, visited, timer.Order(), ids.Order(), current);
    PairedNext(timer.Order(), ids.Order(), idOf);
    DueGoesOn(visited, current, now);
    node := timer.Next(current);
    RemoveFirst(timer, current);
    assert allocated(ids.Repr());
    Remove(ids, idOf[current]);
  }

  /** When the first deadline is to come, all are. */
  lemma RemainLater(timer: RbTree, now: u64)
    requires timer.Valid() && (timer.Order() != [] ==> now < timer.Order()[0].key)
    ensures forall z :: z in timer.Order() ==> now < z.key
  {
    hide RbTree.Valid;
    timer.KeysAscend();
  }

  /** The deadline sweep at the head of the event loop. */
  method SweepExpired(timer: RbTree, ids: RbTree, idOf: map<Node, Node>, now: u64)
    returns (node: Node?, ghost visited: seq<Node>)
    requires timer.Valid() && ids.Valid() && timer != ids && timer.Repr() !! ids.Repr()
    requires Paired(timer.Order(), ids.Order(), idOf)
    modifies timer`root, timer`shape, timer.Repr()`left, timer.Repr()`right, timer.Repr()`parent, timer.Repr()`color
    modifies ids`root, ids`shape, ids.Repr()`left, ids.Repr()`right, ids.Repr()`parent, ids.Repr()`color
    ensures timer.Valid() && ids.Valid()
    ensures old(timer.Order()) == visited + timer.Order()
    ensures AllDue(visited, now)
    ensures node == if timer.Order() == [] then null else timer.Order()[0]
    ensures forall z :: z in timer.Order() ==> now < z.key
    ensures ids.Order() == Without(old(ids.Order()), IdsOf(visited, idOf))
  {
    hide RbTree.Valid, RbTree.Order, Without, Paired, InOrder, Nodes, IdsOf, SweptSoFar, AllDue;
    assert allocated(ids.Repr()) && allocated(timer.Repr());
    ghost var timers0, ids0 := timer.Order(), ids.Order();
    visited := [];
    DueGoesOn([], timer.sentinel, now);
    SweepBegins(timers0, ids0, idOf);
    timer.Members();
    node := timer.Min(timer.root);
    while node != null && node.key <= now
      invariant timer.Valid() && ids.Valid() && timer.Repr() !! ids.Repr()
      invariant timer.Repr() <= old(timer.Repr()) && ids.Repr() <= old(ids.Repr())
      invariant node == if timer.Order() == [] then null else timer.Order()[0]
      invariant SweptSoFar(timers0, ids0, idOf, visited, timer.Order(), ids.Order())
      invariant AllDue(visited, now)
      decreases |timer.Order()|
    {
      ghost var last := node;
      node := SweepOne(timer, ids, idOf, node, now, timers0, ids0, visited);
      visited := visited + [last];
    }
    SweptPaired(timers0, ids0, idOf, visited, timer.Order(), ids.Order());
    RemainLater(timer, now);
  }

  // ---------- the closing loop ----------

  /** The timer node of every connection is in the timer tree or in no tree. */
  ghost predicate Timed(ids: seq<Node>, timer: RbTree, timerOf: map<Node, Node>)
    reads timer, set z | z in ids && z in timerOf :: timerOf[z]
  {
    forall z :: z in ids ==>
      (z in timerOf && timerOf[z] != timer.sentinel && (timerOf[z] in timer.Order() || timer.Unlinked(timerOf[z])))
  }

  /** One step of the closing loop. */
  method DestroyOne(ids: RbTree, timer: RbTree, timerOf: map<Node, Node>, current: Node) returns (node: Node?)
    requires timer.Valid() && ids.Valid() && timer != ids && timer.Repr() !! ids.Repr()
    requires ids.Order() != [] && current == ids.Order()[0] && Timed(ids.Order(), timer, timerOf)
    modifies timer`root, timer`shape, timer.Repr()`left, timer.Repr()`right, timer.Repr()`parent, timer.Repr()`color
    modifies ids`root, ids`shape, ids.Repr()`left, ids.Repr()`right, ids.Repr()`parent, ids.Repr()`color
    ensures timer.Valid() && ids.Valid()
    ensures timer.Repr() <= old(timer.Repr()) && ids.Repr() <= old(ids.Repr())
    ensures ids.Order() == old(ids.Order())[1..]
    ensures timer.Order() == Without(old(timer.Order()), {timerOf[current]})
    ensures Timed(ids.Order(), timer, timerOf)
    ensures node == if ids.Order() == [] then null else ids.Order()[0]
  {
    hide RbTree.Valid, Without, InOrder, Nodes;
    assert allocated(ids.Repr()) && allocated(timer.Repr());
    ids.Members();
    timer.Members();
    ghost var order, timers := ids.Order(), timer.Order();
    forall z | z in order ensures timerOf[z] in timers || (timerOf[z] !in timer.Repr() && timerOf[z] !in ids.Repr()) {
      if timerOf[z] !in timers && timerOf[z] in ids.Repr() {
        ids.LinkedRepr(timerOf[z]);
      }
    }
    node := ids.Next(current);
    Remove(timer, timerOf[current]);
    assert allocated(timer.Repr());
    RemoveFirst(ids, current);
    forall z | z in ids.Order() ensures timerOf[z] in timer.Order() || timer.Unlinked(timerOf[z]) {
      assert z in order;
      WithoutMember(timers, {timerOf[current]}, timerOf[z]);
    }
  }

  /**
   * The closing loop over all connections visits each once and empties the id tree; the timer tree loses their nodes,
   * and so is empty when every timer node belongs to a connection.
   */
  method DestroyAll(ids: RbTree, timer: RbTree, timerOf: map<Node, Node>) returns (ghost visited: seq<Node>)
    requires timer.Valid() && ids.Valid() && timer != ids && timer.Repr() !! ids.Repr()
    requires Timed(ids.Order(), timer, timerOf)
    modifies timer`root, timer`shape, timer.Repr()`left, timer.Repr()`right, timer.Repr()`parent, timer.Repr()`color
    modifies ids`root, ids`shape, ids.Repr()`left, ids.Repr()`right, ids.Repr()`parent, ids.Repr()`color
    ensures timer.Valid() && ids.Valid() && ids.Order() == [] && visited == old(ids.Order())
    ensures timer.Order() == Without(old(timer.Order()), IdsOf(visited, timerOf))
    ensures (forall z :: z in old(timer.Order()) ==> z in IdsOf(visited, timerOf)) ==> timer.Order() == []
  {
    hide RbTree.Valid, Without, InOrder, Nodes, IdsOf, Timed;
    assert allocated(ids.Repr()) && allocated(timer.Repr());
    visited := [];
    WithoutNothing(timer.Order(), {});
    NoIds(timerOf);
    ids.Members();
    var node := ids.Min(ids.root);
    while node != null
      invariant timer.Valid() && ids.Valid() && timer.Repr() !! ids.Repr()
      invariant timer.Repr() <= old(timer.Repr()) && ids.Repr() <= old(ids.Repr())
      invariant node == if ids.Order() == [] then null else ids.Order()[0]
      invariant Timed(ids.Order(), timer, timerOf)
      invariant old(ids.Order()) == visited + ids.Order()
      invariant timer.Order() == Without(old(timer.Order()), IdsOf(visited, timerOf))
      decreases |ids.Order()|
    {
      ghost var gone := IdsOf(visited, timerOf);
      var current: Node := node;
      TimedHas(ids.Order(), timer, timerOf, current);
      node := DestroyOne(ids, timer, timerOf, current);
      IdsOfNext(visited, current, timerOf);
      WithoutTwice(old(timer.Order()), gone, {timerOf[current]});
      visited := visited + [current];
    }
    if forall z :: z in old(timer.Order()) ==> z in IdsOf(visited, timerOf) {
      AllGone(old(timer.Order()), IdsOf(visited, timerOf));
    }
  }

  lemma TimedHas(ids: seq<Node>, timer: RbTree, timerOf: map<Node, Node>, z: Node)
    requires Timed(ids, timer, timerOf) && z in ids
    ensures z in timerOf
  {
  }

  lemma {:induction false} AllGone(timers: seq<Node>, gone: set<Node>)
    requires forall z :: z in timers ==> z in gone
    ensures Without(timers, gone) == []
  {
    if timers != [] {
      AllGone(timers[1..], gone);
    }
  }
}
