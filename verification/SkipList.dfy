/** The skip list of trash/duplicate-implementations-2025-06-12/skiplist_simple_version.c: node towers
    linked in place, searched from the top level down. */
module SkipList {
  import opened KeyOrder
  import opened Entries
  import opened Options

  const MAX_LEVEL := 32  // SKIPLIST_MAX_LEVEL

  class Node<V> {
    const key: Key
    var value: V
    var next: seq<Node?<V>>  // the tower: next[l] is the successor on level l

    constructor (levels: nat, key: Key, value: V)
      ensures this.key == key && this.value == value && next == seq(levels, _ => null)
    {
      this.key := key;
      this.value := value;
      next := seq(levels, _ => null);
    }
  }

  // ----- Towers, as a list of heights

  /** The position of the first tower after i that reaches above level l, or |heights|. */
  function Succ(heights: seq<nat>, i: int, l: nat): (m: nat)
    requires -1 <= i < |heights|
    ensures i < m <= |heights|
    ensures m < |heights| ==> heights[m] > l
    decreases |heights| - i
  {
    if i + 1 == |heights| then |heights|
    else if heights[i + 1] > l then i + 1
    else Succ(heights, i + 1, l)
  }

  lemma {:induction false} NoneBetween(heights: seq<nat>, i: int, l: nat)
    requires -1 <= i < |heights|
    ensures forall j :: i < j < Succ(heights, i, l) ==> heights[j] <= l
    decreases |heights| - i
  {
    if i + 1 < |heights| && heights[i + 1] <= l {
      NoneBetween(heights, i + 1, l);
    }
  }

  lemma {:induction false} SuccIs(heights: seq<nat>, i: int, l: nat, m: nat)
    requires -1 <= i < m <= |heights|
    requires m < |heights| ==> heights[m] > l
    requires forall j :: i < j < m ==> heights[j] <= l
    ensures Succ(heights, i, l) == m
  {
    NoneBetween(heights, i, l);
  }

  /** r is s with x put in after position p. */
  ghost predicate Joined<T>(s: seq<T>, p: nat, x: T, r: seq<T>) {
    && p < |s| && |r| == |s| + 1
    && (forall j :: 0 <= j <= p ==> r[j] == s[j])
    && r[p + 1] == x
    && (forall j :: p + 1 < j < |r| ==> r[j] == s[j - 1])
  }

  lemma JoinedHere<T>(s: seq<T>, p: nat, x: T)
    requires p < |s|
    ensures Joined(s, p, x, PutAt(s, p + 1, x))
  {
  }

  lemma PutAtIs<T>(s: seq<T>, p: nat, x: T)
    requires p <= |s|
    ensures var r := PutAt(s, p, x);
            && |r| == |s| + 1 && r[p] == x
            && (forall j :: 0 <= j < p ==> r[j] == s[j]) && forall j :: p < j < |r| ==> r[j] == s[j - 1]
  {
  }

  /** How successors move. */
  lemma SuccRaised(heights: seq<nat>, p: nat, h: nat, hs: seq<nat>, i: nat, l: nat)
    requires Joined(heights, p, h, hs) && i < |heights|
    ensures var m := Succ(heights, i, l);
            if i > p then Succ(hs, i + 1, l) == m + 1
            else Succ(hs, i, l) == (if m <= p then m else if l < h then p + 1 else m + 1)
                 && (m > p ==> Succ(hs, p + 1, l) == m + 1)
  {
    var m := Succ(heights, i, l);
    NoneBetween(heights, i, l);
    if i > p {
      SuccIs(hs, i + 1, l, m + 1);
    } else if m <= p {
      SuccIs(hs, i, l, m);
    } else {
      SuccIs(hs, p + 1, l, m + 1);
      SuccIs(hs, i, l, if l < h then p + 1 else m + 1);
    }
  }

  /** ts[i] is the tower of the node os[i]: every level links exactly the towers that reach it, in order. */
  ghost predicate LinkedAs<V>(os: seq<Node<V>>, heights: seq<nat>, ts: seq<seq<Node?<V>>>) {
    && |os| == |heights| == |ts|
    && (forall i :: 0 <= i < |ts| ==> |ts[i]| == heights[i])
    && forall i, l :: 0 <= i < |ts| && 0 <= l < heights[i] ==> ts[i][l] == NodeAt(os, Succ(heights, i, l))
  }

  function NodeAt<V>(os: seq<Node<V>>, i: nat): Node?<V> {
    if i < |os| then os[i] else null
  }

  /** What lines 104-107 do to the towers: on each level l below h, node follows the tower at[l]. */
  ghost predicate Relinked<V>(ts: seq<seq<Node?<V>>>, node: Node<V>, h: nat, at: seq<nat>,
                              ts': seq<seq<Node?<V>>>, tower: seq<Node?<V>>)
  {
    && |ts'| == |ts| && |tower| == h <= |at|
    && (forall j :: 0 <= j < |ts| ==> |ts'[j]| == |ts[j]|)
    && (forall l :: 0 <= l < h ==> at[l] < |ts| && l < |ts[at[l]]|)
    && (forall l :: 0 <= l < h ==> tower[l] == ts[at[l]][l] && ts'[at[l]][l] == node)
    && (forall j, l :: 0 <= j < |ts| && h <= l < |ts[j]| ==> ts'[j][l] == ts[j][l])
    && (forall j, l :: 0 <= j < |ts| && 0 <= l < |ts[j]| && l < h && j != at[l] ==> ts'[j][l] == ts[j][l])
  }

  lemma RelinkedNothing<V>(ts: seq<seq<Node?<V>>>, node: Node<V>, at: seq<nat>)
    ensures Relinked(ts, node, 0, at, ts, [])
  {
  }

  /** One round of the loop of lines 104-107. */
  lemma RelinkedStep<V>(ts: seq<seq<Node?<V>>>, node: Node<V>, h: nat, at: seq<nat>, ts': seq<seq<Node?<V>>>,
                        tower: seq<Node?<V>>)
    requires Relinked(ts, node, h, at, ts', tower) && h < |at|
    requires at[h] < |ts| && h < |ts[at[h]]|
    ensures ts'[at[h]][h] == ts[at[h]][h]
    ensures Relinked(ts, node, h + 1, at, ts'[at[h] := ts'[at[h]][h := node]], tower + [ts[at[h]][h]])
  {
  }

  /** On each level l below h, at[l] is the one position up to p whose successor lies past p. */
  ghost predicate Straddles(heights: seq<nat>, p: nat, at: nat, l: nat)
    requires p < |heights|
  {
    && at <= p && heights[at] > l && Succ(heights, at, l) > p
    && forall i :: 0 <= i <= p && heights[i] > l ==> (Succ(heights, i, l) > p <==> i == at)
  }

  lemma RelinkedIsLinked<V>(os: seq<Node<V>>, heights: seq<nat>, ts: seq<seq<Node?<V>>>, node: Node<V>, p: nat, h: nat,
                            at: seq<nat>, ts': seq<seq<Node?<V>>>, tower: seq<Node?<V>>)
    requires LinkedAs(os, heights, ts) && p < |os| && h <= |at|
    requires forall l :: 0 <= l < h ==> Straddles(heights, p, at[l], l)
    requires Relinked(ts, node, h, at, ts', tower)
    ensures LinkedAs(PutAt(os, p + 1, node), PutAt(heights, p + 1, h),
                     PutAt(ts', p + 1, tower))
  {
    var ns, hs, nts := PutAt(os, p + 1, node), PutAt(heights, p + 1, h), PutAt(ts', p + 1, tower);
    JoinedHere(os, p, node);
    JoinedHere(heights, p, h);
    JoinedHere(ts', p, tower);
    hide NodeAt, Succ, Straddles, Relinked, PutAt;
    RelinkedHeights(heights, ts, node, p, h, at, ts', tower, hs, nts);
    forall i, l | 0 <= i < |ns| && 0 <= l < hs[i] ensures nts[i][l] == NodeAt(ns, Succ(hs, i, l)) {
      RelinkedTower(os, heights, ts, node, p, h, at, ts', tower, ns, hs, nts, i, l);
    }
  }

  lemma RelinkedHeights<V>(heights: seq<nat>, ts: seq<seq<Node?<V>>>, node: Node<V>, p: nat, h: nat, at: seq<nat>,
                           ts': seq<seq<Node?<V>>>, tower: seq<Node?<V>>, hs: seq<nat>, nts: seq<seq<Node?<V>>>)
    requires |ts| == |heights| && forall i :: 0 <= i < |ts| ==> |ts[i]| == heights[i]
    requires Relinked(ts, node, h, at, ts', tower)
    requires Joined(heights, p, h, hs) && Joined(ts', p, tower, nts)
    ensures |nts| == |hs| && forall i :: 0 <= i < |nts| ==> |nts[i]| == hs[i]
  {
  }

  lemma RelinkedTower<V>(os: seq<Node<V>>, heights: seq<nat>, ts: seq<seq<Node?<V>>>, node: Node<V>, p: nat, h: nat,
                         at: seq<nat>, ts': seq<seq<Node?<V>>>, tower: seq<Node?<V>>, ns: seq<Node<V>>, hs: seq<nat>,
                         nts: seq<seq<Node?<V>>>, i: nat, l: nat)
    requires LinkedAs(os, heights, ts) && p < |os| == |heights| == |ts| && h <= |at|
    requires l < h ==> Straddles(heights, p, at[l], l)
    requires Relinked(ts, node, h, at, ts', tower)
    requires Joined(os, p, node, ns) && Joined(heights, p, h, hs) && Joined(ts', p, tower, nts)
    requires i < |ns| && l < hs[i] == |nts[i]|
    ensures nts[i][l] == NodeAt(ns, Succ(hs, i, l))
  {
    hide NodeAt, Succ, Straddles, LinkedAs;
    if i <= p {
      TowerOf(os, heights, ts, i, l);
      NewSuccessor(os, heights, node, p, h, if l < h then at[l] else 0, ns, hs, i, l);
    } else if i == p + 1 {
      StraddlesReaches(heights, p, at[l], l);
      TowerOf(os, heights, ts, at[l], l);
      NewSuccessor(os, heights, node, p, h, at[l], ns, hs, at[l], l);
    } else {
      if l < h { StraddlesReaches(heights, p, at[l], l); }
      TowerOf(os, heights, ts, i - 1, l);
      NewSuccessor(os, heights, node, p, h, 0, ns, hs, i - 1, l);
    }
  }

  lemma StraddlesReaches(heights: seq<nat>, p: nat, at: nat, l: nat)
    requires p < |heights| && Straddles(heights, p, at, l)
    ensures at <= p && heights[at] > l
  {
  }

  /** The node that follows each tower once the new one stands after position p. */
  lemma NewSuccessor<V>(os: seq<Node<V>>, heights: seq<nat>, node: Node<V>, p: nat, h: nat, at: nat,
                        ns: seq<Node<V>>, hs: seq<nat>, i: nat, l: nat)
    requires |os| == |heights| && i < |os| && l < heights[i]
    requires Joined(os, p, node, ns) && Joined(heights, p, h, hs)
    requires i <= p && l < h ==> Straddles(heights, p, at, l)
    ensures var was := NodeAt(os, Succ(heights, i, l));
            if i > p then NodeAt(ns, Succ(hs, i + 1, l)) == was
            else NodeAt(ns, Succ(hs, i, l)) == (if l < h && i == at then node else was)
                 && (l < h && i == at ==> NodeAt(ns, Succ(hs, p + 1, l)) == was)
  {
    hide Succ;
    SuccRaised(heights, p, h, hs, i, l);
  }

  lemma TowerOf<V>(os: seq<Node<V>>, heights: seq<nat>, ts: seq<seq<Node?<V>>>, i: nat, l: nat)
    requires LinkedAs(os, heights, ts) && i < |os| && l < heights[i]
    ensures |ts[i]| == heights[i] && ts[i][l] == NodeAt(os, Succ(heights, i, l))
  {
  }

  class List<V> {
    const head: Node<V>
    var level: nat
    var size: nat
    ghost var order: seq<Node<V>>              // the sentinel, then the nodes of the bottom level
    ghost var heights: seq<nat>                // the heights of their towers
    ghost var towers: seq<seq<Node?<V>>>       // their towers
    ghost var contents: seq<Entry<V>>          // the entries of the nodes after the sentinel

    /** The ghost fields say what the nodes hold. */
    ghost predicate Mirrors()
      reads this`order, this`heights, this`towers, this`contents, order
    {
      && |order| == |heights| == |towers| == |contents| + 1
      && (forall i :: 0 <= i < |order| ==> order[i].next == towers[i])
      && (forall i :: 1 <= i < |order| ==> contents[i - 1] == Entry(order[i].key, order[i].value))
      && (forall i, j :: 0 <= i < j < |order| ==> order[i] != order[j])
    }

    /** Every level links exactly the towers that reach it, in the order of the bottom level. */
    ghost predicate Shape()
      reads this`level, this`order, this`heights, this`towers
    {
      LinkedAs(order, heights, towers) && Bounds()
    }

    /** The sentinel's tower is full, and no other tower is higher than the current level. */
    ghost predicate Bounds()
      reads this`order, this`heights, this`level
    {
      && |order| > 0 && |heights| > 0 && order[0] == head && heights[0] == MAX_LEVEL
      && 1 <= level <= MAX_LEVEL
      && (forall i :: 1 <= i < |heights| ==> 1 <= heights[i] <= level)
    }

    ghost predicate Threaded()
      reads this`level, this`order, this`heights, this`towers, this`contents, order
    {
      Mirrors() && Shape() && Sorted(contents)
    }

    ghost predicate Valid()
      reads this, order
    {
      Threaded() && size == |contents|
    }

    constructor (dummy: V)
      ensures Valid() && contents == []
    {
      head := new Node(MAX_LEVEL, [0], dummy);
      level := 1;
      size := 0;
      new;
      order, heights, towers, contents := [head], [MAX_LEVEL], [head.next], [];
    }

    /** Lines 122-128: on one level, move to the last node whose key is smaller. */
    method WalkBefore(key: Key, l: nat, start: Node<V>, ghost startPos: nat) returns (current: Node<V>, ghost pos: nat)
      requires Valid() && startPos < |order| && start == order[startPos] && heights[startPos] > l
      requires forall j :: 0 <= j < startPos ==> !Le(key, contents[j].key)
      ensures startPos <= pos < |order| && current == order[pos] && heights[pos] > l
      ensures forall j :: 0 <= j < pos ==> !Le(key, contents[j].key)
      ensures var m := Succ(heights, pos, l); m < |order| ==> Le(key, contents[m - 1].key)
    {
      OrderFacts();
      hide Compare, Le, Succ;
      current, pos := start, startPos;
      while true
        invariant startPos <= pos < |order| && current == order[pos] && heights[pos] > l
        invariant forall j :: 0 <= j < pos ==> !Le(key, contents[j].key)
        decreases |order| - pos
      {
        var next := current.next[l];
        if next == null || Compare(key, next.key) <= 0 {
          break;
        }
        pos := Succ(heights, pos, l);
        current := next;
      }
    }

    /** skiplist_search: what the top-down walk finds is what a linear scan of the bottom level finds. */
    method Search(key: Key) returns (r: Option<V>)
      requires Valid()
      ensures r == Find(contents, key)
    {
      OrderFacts();
      hide Compare, Le;
      var current := head;
      ghost var pos := 0;
      var i := level;
      while i > 0
        invariant 0 <= i <= level && pos < |order| && current == order[pos] && heights[pos] >= i
        invariant forall j :: 0 <= j < pos ==> !Le(key, contents[j].key)
        invariant i == 0 && pos < |contents| ==> Le(key, contents[pos].key)
        decreases i
      {
        i := i - 1;
        current, pos := WalkBefore(key, i, current, pos);
      }
      current := current.next[0];
      FindAt(contents, key, pos);
      if current != null && Compare(key, current.key) == 0 {
        return Some(current.value);
      }
      return None;
    }

    /** Lines 68-74 and 156-162: on one level, move past every node whose key is not greater. */
    method WalkPast(key: Key, l: nat, start: Node<V>, ghost startPos: nat) returns (current: Node<V>, ghost pos: nat)
      requires Valid() && startPos < |order| && start == order[startPos] && heights[startPos] > l
      requires forall j :: 0 <= j < startPos ==> Le(contents[j].key, key)
      ensures startPos <= pos < |order| && UpdateAt(current, pos, l, key)
    {
      OrderFacts();
      hide Compare, Le, Succ;
      current, pos := start, startPos;
      while true
        invariant startPos <= pos < |order| && current == order[pos] && heights[pos] > l
        invariant forall j :: 0 <= j < pos ==> Le(contents[j].key, key)
        decreases |order| - pos
      {
        var next := current.next[l];
        if next == null || Compare(key, next.key) < 0 {
          break;
        }
        pos := Succ(heights, pos, l);
        current := next;
      }
    }

    /** node, at position p, is the last one on level l whose key is not greater than the given one. */
    ghost predicate UpdateAt(node: Node<V>, p: nat, l: nat, key: Key)
      reads this`order, this`heights, this`contents
    {
      && |order| == |heights| == |contents| + 1
      && p < |order| && node == order[p] && heights[p] > l
      && (forall j :: 0 <= j < p ==> Le(contents[j].key, key))
      && (var m := Succ(heights, p, l); m < |order| ==> !Le(contents[m - 1].key, key))
    }

    /** Lines 63-76: the update array, filled from the top level down. Above the current level it
        holds the sentinel, as lines 97-99 set it. */
    method FindUpdates(key: Key) returns (update: seq<Node<V>>, ghost at: seq<nat>)
      requires Valid()
      ensures |update| == |at| == MAX_LEVEL
      ensures forall l :: 0 <= l < MAX_LEVEL ==> UpdateAt(update[l], at[l], l, key)
      ensures var next := update[0].next; next != [] && (next[0] != null ==> !Le(next[0].key, key))
    {
      update := seq(MAX_LEVEL, _ => head);
      at := seq(MAX_LEVEL, _ => 0);
      forall l | level <= l < MAX_LEVEL ensures UpdateAt(update[l], at[l], l, key) {
        assert Succ(heights, 0, l) == |order|;
      }
      hide Compare, Le, Succ;
      var current := head;
      ghost var pos := 0;
      var i := level;
      while i > 0
        invariant 0 <= i <= level && pos < |order| && current == order[pos] && heights[pos] >= i
        invariant forall j :: 0 <= j < pos ==> Le(contents[j].key, key)
        invariant |update| == |at| == MAX_LEVEL
        invariant forall l :: i <= l < MAX_LEVEL ==> UpdateAt(update[l], at[l], l, key)
        decreases i
      {
        i := i - 1;
        current, pos := WalkPast(key, i, current, pos);
        update, at := update[i := current], at[i := pos];
      }
      hide *;
      NextIsGreater(update[0], at[0], key);
    }

    lemma NextIsGreater(node: Node<V>, p: nat, key: Key)
      requires Threaded() && UpdateAt(node, p, 0, key)
      ensures node.next != [] && (node.next[0] != null ==> !Le(node.next[0].key, key))
    {
      hide Succ, Le;
      assert node.next[0] == NodeAt(order, Succ(heights, p, 0));
    }

    lemma UpdatePositions(update: seq<Node<V>>, at: seq<nat>, key: Key, l: nat)
      requires Threaded() && |update| == |at| == MAX_LEVEL && l < MAX_LEVEL
      requires UpdateAt(update[0], at[0], 0, key) && UpdateAt(update[l], at[l], l, key)
      ensures Succ(heights, at[0], 0) == at[0] + 1
      ensures Straddles(heights, at[0], at[l], l)
    {
      OrderFacts();
      hide Compare, Le;
      if at[0] + 1 < |order| {
        assert heights[at[0] + 1] > 0;
      }
      SuccIs(heights, at[0], 0, at[0] + 1);
      forall i | 0 <= i <= at[0] && heights[i] > l ensures Succ(heights, i, l) > at[0] <==> i == at[l] {
        NoneBetween(heights, i, l);
        NoneBetween(heights, at[l], l);
      }
    }

    /** What the update array means for the towers and for the list of entries. */
    lemma UpdatesReach(update: seq<Node<V>>, at: seq<nat>, key: Key)
      requires Threaded() && |update| == |at| == MAX_LEVEL
      requires forall l :: 0 <= l < MAX_LEVEL ==> UpdateAt(update[l], at[l], l, key)
      ensures Mirrors() && Bounds() && Sorted(contents) && LinkedAs(order, heights, towers)
      ensures at[0] < |order| == |heights| == |towers| == |contents| + 1
      ensures forall l :: 0 <= l < MAX_LEVEL ==>
        at[l] < |order| && update[l] == order[at[l]] && |towers[at[l]]| > l && Straddles(heights, at[0], at[l], l)
      ensures forall j :: 0 <= j < at[0] ==> Le(contents[j].key, key)
      ensures at[0] < |contents| ==> !Le(contents[at[0]].key, key)
    {
      hide Succ, Compare, Le, Straddles;
      UpdatePositions(update, at, key, 0);
      forall l | 0 <= l < MAX_LEVEL ensures |towers[at[l]]| > l && Straddles(heights, at[0], at[l], l) {
        UpdatePositions(update, at, key, l);
      }
    }

    /** Lines 104-107: the new node is put behind update[l] on each level it reaches. */
    method Link(node: Node<V>, height: nat, update: seq<Node<V>>, ghost at: seq<nat>)
      requires Mirrors() && node !in order && height <= |update| == |at| && |node.next| == height
      requires forall l :: 0 <= l < height ==> at[l] < |order| && update[l] == order[at[l]] && |towers[at[l]]| > l
      modifies this`towers, order`next, node`next
      ensures Mirrors() && Relinked(old(towers), node, height, at, towers, node.next)
    {
      ghost var ts := towers;
      RelinkedNothing(ts, node, at);
      for i := 0 to height
        invariant Mirrors() && |node.next| == height
        invariant Relinked(ts, node, i, at, towers, node.next[..i])
      {
        hide Relinked;
        RelinkedStep(ts, node, i, at, towers, node.next[..i]);
        node.next := node.next[i := update[i].next[i]];
        update[i].next := update[i].next[i := node];
        towers := towers[at[i] := update[i].next];
      }
    }

    /** Lines 103-107, with the level already raised: the node enters every level it reaches. */
    method Attach(node: Node<V>, height: nat, update: seq<Node<V>>, ghost at: seq<nat>)
      requires Threaded() && node !in order && 1 <= height <= level && |node.next| == height
      requires |update| == |at| == MAX_LEVEL && height <= |at| && 0 < |at|
      requires forall l :: 0 <= l < MAX_LEVEL ==> UpdateAt(update[l], at[l], l, node.key)
      modifies this`order, this`heights, this`towers, this`contents, order`next, node`next
      ensures Threaded()
      ensures contents == Inserted(old(contents), node.key, node.value) && |contents| == |old(contents)| + 1
      ensures at[0] < old(|order|) && order == old(PutAt(order, at[0] + 1, node))
    {
      hide *;
      UpdatesReach(update, at, node.key);
      InsertedAt(contents, node.key, node.value, at[0]);
      Weave(node, height, update, at);
      Splice(node, height, at[0]);
    }

    method Weave(node: Node<V>, height: nat, update: seq<Node<V>>, ghost at: seq<nat>)
      requires Mirrors() && LinkedAs(order, heights, towers) && node !in order && height <= |update| == |at|
      requires |node.next| == height && 0 < |at| && at[0] < |order|
      requires forall l :: 0 <= l < |at| ==>
        at[l] < |order| && update[l] == order[at[l]] && |towers[at[l]]| > l && Straddles(heights, at[0], at[l], l)
      modifies this`towers, order`next, node`next
      ensures Mirrors()
      ensures LinkedAs(PutAt(order, at[0] + 1, node), PutAt(heights, at[0] + 1, height),
                       PutAt(towers, at[0] + 1, node.next))
    {
      hide Succ, Straddles, Relinked, LinkedAs;
      ghost var ts := towers;
      Link(node, height, update, at);
      RelinkedIsLinked(order, heights, ts, node, at[0], height, at, towers, node.next);
    }

    lemma SplicedMirrors(node: Node<V>, h: nat, p: nat)
      requires Mirrors() && p < |order| && node !in order
      ensures var os, hs := PutAt(order, p + 1, node), PutAt(heights, p + 1, h);
              var ts, es := PutAt(towers, p + 1, node.next), PutAt(contents, p, Entry(node.key, node.value));
              && |os| == |hs| == |ts| == |es| + 1 && |es| == |contents| + 1
              && (forall i :: 0 <= i < |os| ==> os[i].next == ts[i])
              && (forall i :: 1 <= i < |os| ==> es[i - 1] == Entry(os[i].key, os[i].value))
    {
      PutAtIs(order, p + 1, node);
      PutAtIs(heights, p + 1, h);
      PutAtIs(towers, p + 1, node.next);
      PutAtIs(contents, p, Entry(node.key, node.value));
      hide PutAt;
    }

    lemma SplicedDistinct(node: Node<V>, p: nat)
      requires Mirrors() && p < |order| && node !in order
      ensures var os := PutAt(order, p + 1, node); forall i, j :: 0 <= i < j < |os| ==> os[i] != os[j]
    {
      PutAtIs(order, p + 1, node);
      hide PutAt;
    }

    lemma SplicedBounds(node: Node<V>, h: nat, p: nat)
      requires Bounds() && |order| == |heights| && p < |order| && 1 <= h <= level
      ensures var os, hs := PutAt(order, p + 1, node), PutAt(heights, p + 1, h);
              && os[0] == head && hs[0] == MAX_LEVEL && 1 <= level <= MAX_LEVEL
              && forall i :: 1 <= i < |hs| ==> 1 <= hs[i] <= level
    {
    }

    /** The bottom level now runs through the new node. */
    ghost method Splice(node: Node<V>, h: nat, p: nat)
      requires Mirrors() && p < |order| && node !in order
      requires Sorted(PutAt(contents, p, Entry(node.key, node.value)))
      requires Bounds() && 1 <= h <= level
      requires LinkedAs(PutAt(order, p + 1, node), PutAt(heights, p + 1, h),
                        PutAt(towers, p + 1, node.next))
      modifies this`order, this`heights, this`towers, this`contents
      ensures Threaded()
      ensures order == old(PutAt(order, p + 1, node))
      ensures contents == old(PutAt(contents, p, Entry(node.key, node.value))) && |contents| == |old(contents)| + 1
    {
      SplicedMirrors(node, h, p);
      SplicedDistinct(node, p);
      SplicedBounds(node, h, p);
      hide LinkedAs, Sorted, PutAt;
      order, heights, towers, contents := PutAt(order, p + 1, node), PutAt(heights, p + 1, h),
        PutAt(towers, p + 1, node.next), PutAt(contents, p, Entry(node.key, node.value));
    }

    /** skiplist_insert. `height` is what random_level returned; `memory` says whether memory was found. */
    method Insert(key: Key, value: V, height: nat, memory: bool) returns (ok: bool)
      requires Valid() && 1 <= height <= MAX_LEVEL
      modifies this`level, this`size, this`order, this`heights, this`towers, this`contents, order`next
      ensures Valid()
      ensures ok == memory
      ensures contents == if ok then Inserted(old(contents), key, value) else old(contents)
      ensures level == if ok && height > old(level) then height else old(level)
      ensures forall n <- order :: n in old(order) || fresh(n)
    {
      assert order[0] == head && MAX_LEVEL > 0;
      hide Compare, Le, Mirrors, Shape, LinkedAs, Sorted, UpdateAt, Inserted;
      var update, at := FindUpdates(key);
      var current := update[0].next[0];
      if current != null {
        GreaterDiffers(current.key, key);
        if Compare(key, current.key) == 0 {
          assert false;  // the walk went past every equal key, so the update of lines 81-87 is never reached
        }
      }
      if !memory {
        return false;
      }
      var node := new Node(height, key, value);
      Enter(node, height, update, at);
      return true;
    }

    /** Lines 95-109: raise the level if the new tower is higher, link the node and count it. */
    method Enter(node: Node<V>, height: nat, update: seq<Node<V>>, ghost at: seq<nat>)
      requires Valid() && node !in order && 1 <= height <= MAX_LEVEL && |node.next| == height
      requires |update| == |at| == MAX_LEVEL
      requires forall l :: 0 <= l < MAX_LEVEL ==> UpdateAt(update[l], at[l], l, node.key)
      modifies this`level, this`size, this`order, this`heights, this`towers, this`contents, order`next, node`next
      ensures Valid()
      ensures contents == Inserted(old(contents), node.key, node.value)
      ensures level == if height > old(level) then height else old(level)
      ensures at[0] < old(|order|) && order == old(PutAt(order, at[0] + 1, node))
    {
      hide Mirrors, LinkedAs, Sorted, UpdateAt, Inserted, PutAt;
      assert |contents| == size;
      if height > level {
        level := height;
      }
      Attach(node, height, update, at);
      size := size + 1;
    }

    /** skiplist_delete. The walk goes past every equal key, so the node it stops before is never the one
        to delete: nothing is ever removed. */
    method Delete(key: Key) returns (ok: bool)
      requires Valid()
      ensures !ok
    {
      OrderFacts();
      hide Compare, Le, Succ;
      var update, at := FindUpdates(key);
      var current := update[0].next[0];
      if current == null || Compare(key, current.key) != 0 {
        return false;
      }
      assert false;  // lines 172-190 are never reached
    }

    /** One call; height is what random_level gives. */
    method Perform(call: Call<V>, height: nat) returns (ok: bool)
      requires Valid() && 1 <= height <= MAX_LEVEL
      modifies this`level, this`size, this`order, this`heights, this`towers, this`contents, order`next
      ensures Valid() && ok == call.Insert? && contents == AfterOne(old(contents), call)
      ensures forall k :: 0 <= k < |order| ==> order[k] in old(order) || fresh(order[k])
    {
      WalkMissesKey(contents, call.key);
      hide Mirrors, Shape, LinkedAs, Sorted, Inserted, SetAt, DropAt, Place;
      match call {
        case Insert(key, value) => ok := Insert(key, value, height, true);
        case InsertWithoutMemory(key, value) => ok := Insert(key, value, height, false);
        case Delete(key) => ok := Delete(key);
      }
    }

    /** Any calls on an empty list, one after the other. */
    method Run(calls: seq<Call<V>>, heights: seq<nat>) returns (answers: seq<bool>)
      requires Valid() && contents == [] && |heights| == |calls|
      requires forall i :: 0 <= i < |heights| ==> 1 <= heights[i] <= MAX_LEVEL
      modifies this`level, this`size, this`order, this`heights, this`towers, this`contents, order`next
      ensures Valid() && contents == After(calls)
      ensures |answers| == |calls| && forall i :: 0 <= i < |calls| ==> answers[i] == calls[i].Insert?
      ensures forall key :: Find(contents, key) == FirstInserted(calls, key)
    {
      answers := [];
      hide Valid, AfterOne;
      var i := 0;
      while i < |calls|
        invariant i <= |calls| && Valid() && contents == After(calls[..i])
        invariant forall k :: 0 <= k < |order| ==> order[k] in old(order) || fresh(order[k])
        invariant |answers| == i && forall j :: 0 <= j < i ==> answers[j] == calls[j].Insert?
      {
        assert calls[..i + 1][..i] == calls[..i];
        var ok := Perform(calls[i], heights[i]);
        answers := answers + [ok];
        i := i + 1;
      }
      assert calls[..|calls|] == calls;
      forall key ensures Find(contents, key) == FirstInserted(calls, key) {
        FirstWriterWins(calls, key);
      }
    }
  }

  /** skiplist_iterator_t: entries come out in order, one per call. */
  class Iterator<V> {
    const list: List<V>
    var current: Node?<V>
    ghost var pos: nat

    ghost predicate Valid()
      reads this, list, list.order
    {
      list.Valid() && 1 <= pos <= |list.order| && current == NodeAt(list.order, pos)
    }

    constructor (list: List<V>)
      requires list.Valid()
      ensures Valid() && this.list == list && pos == 1
    {
      this.list := list;
      current := list.head.next[0];
      pos := 1;
      SuccIs(list.heights, 0, 0, 1);
    }

    method Next() returns (entry: Option<Entry<V>>)
      requires Valid()
      modifies this
      ensures Valid()
      ensures entry.None? <==> old(pos) > |list.contents|
      ensures entry.Some? ==> entry.value == list.contents[old(pos) - 1] && pos == old(pos) + 1
      ensures entry.None? ==> pos == old(pos)
    {
      if current == null {
        return None;
      }
      entry := Some(Entry(current.key, current.value));
      SuccIs(list.heights, pos, 0, pos + 1);
      current := current.next[0];
      pos := pos + 1;
    }
  }
}
