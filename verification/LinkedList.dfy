/**
  The singly linked list of src/tools/list.c. A comparison with a fixed second argument is a function
  that says whether an element matches; the field `tail` is not part of this model.
 */
module LinkedList {
  import opened CStrings

  /** The place of the first element that matches; the length if there is none. */
  function FirstMatch<T>(s: seq<T>, match_: T -> bool): (k: nat)
    ensures k <= |s| && (k < |s| ==> match_(s[k])) && forall i :: 0 <= i < k ==> !match_(s[i])
  {
    if s == [] || match_(s[0]) then 0 else 1 + FirstMatch(s[1..], match_)
  }

  lemma FirstMatchIs<T>(s: seq<T>, match_: T -> bool, k: nat)
    requires k <= |s| && (k < |s| ==> match_(s[k])) && forall i :: 0 <= i < k ==> !match_(s[i])
    ensures FirstMatch(s, match_) == k
  {
  }

  function Find<T>(s: seq<T>, match_: T -> bool): Option<T>
  {
    var k := FirstMatch(s, match_);
    if k < |s| then Some(s[k]) else None
  }

  function Without<T>(s: seq<T>, k: nat): seq<T>
  {
    if k < |s| then s[..k] + s[k + 1..] else s
  }

  lemma WithoutAt<T>(s: seq<T>, k: nat)
    requires k < |s|
    ensures |Without(s, k)| == |s| - 1
    ensures forall j :: 0 <= j < k ==> Without(s, k)[j] == s[j]
    ensures forall j :: k <= j < |s| - 1 ==> Without(s, k)[j] == s[j + 1]
  {
  }

  class Node<T> {
    const value: T
    var next: Node?<T>

    constructor (value: T, next: Node?<T>)
      ensures this.value == value && this.next == next
    {
      this.value := value;
      this.next := next;
    }
  }

  class List<T> {
    var head: Node?<T>
    var length: nat
    /** The nodes from the head on, and all nodes this list ever had. */
    ghost var nodes: seq<Node<T>>
    ghost var repr: set<Node<T>>

    constructor ()
      ensures Valid() && nodes == [] && repr == {}
    {
      head := null;
      length := 0;
      nodes := [];
      repr := {};
    }

    /** The chain from the head: the nodes in order, each once, so it ends, and `length` counts them. */
    ghost predicate Valid()
      reads this, repr
    {
      && length == |nodes|
      && head == NodeAt(0)
      && (forall i :: 0 <= i < |nodes| ==> nodes[i] in repr)
      && (forall i :: 0 <= i < |nodes| ==> nodes[i].next == NodeAt(i + 1))
      && (forall i, j :: 0 <= i < j < |nodes| ==> nodes[i] != nodes[j])
    }

    ghost function NodeAt(i: nat): Node?<T>
      reads this
    {
      if i < |nodes| then nodes[i] else null
    }

    ghost function Values(): (s: seq<T>)
      reads this
      ensures |s| == |nodes|
    {
      ValuesOf(nodes)
    }

    method Add(value: T)
      requires Valid()
      modifies this
      ensures Valid() && |nodes| == |old(nodes)| + 1 && nodes[1..] == old(nodes)
      ensures fresh(nodes[0]) && repr == old(repr) + {nodes[0]}
      ensures Values() == [value] + old(Values())
    {
      var n := new Node(value, head);
      head := n;
      length := length + 1;
      nodes := [n] + nodes;
      repr := repr + {n};
    }

    /** list_get_by: the value of the first node that matches. */
    method GetBy(match_: T -> bool) returns (r: Option<T>)
      requires Valid()
      ensures r == Find(Values(), match_)
    {
      var h := head;
      ghost var i := 0;
      while h != null
        invariant i <= |nodes| && h == NodeAt(i)
        invariant forall j :: 0 <= j < i ==> !match_(nodes[j].value)
        decreases |nodes| - i
      {
        if match_(h.value) {
          FirstMatchIs(Values(), match_, i);
          return Some(h.value);
        }
        h := h.next;
        i := i + 1;
      }
      FirstMatchIs(Values(), match_, i);
      return None;
    }

    /** The first loop of list_remove: the first match and the node before it. */
    method Locate(match_: T -> bool) returns (h: Node?<T>, p: Node?<T>, ghost k: nat)
      requires Valid()
      ensures k == FirstMatch(Values(), match_)
      ensures h == NodeAt(k) && p == (if k == 0 then null else nodes[k - 1])
    {
      h, p, k := head, null, 0;
      while h != null && !match_(h.value)
        invariant k <= |nodes| && h == NodeAt(k) && p == (if k == 0 then null else nodes[k - 1])
        invariant forall j :: 0 <= j < k ==> !match_(nodes[j].value)
        decreases |nodes| - k
      {
        p := h;
        h := h.next;
        k := k + 1;
      }
      FirstMatchIs(Values(), match_, k);
    }

    method Unlink(h: Node<T>, p: Node?<T>, ghost k: nat)
      requires Valid() && k < |nodes| && h == nodes[k] && p == (if k == 0 then null else nodes[k - 1])
      modifies this, repr
      ensures Valid() && repr == old(repr) && nodes == Without(old(nodes), k)
    {
      if p == null {
        head := h.next;
      } else {
        p.next := h.next;
      }
      length := length - 1;
      ghost var was := nodes;
      nodes := Without(was, k);
      WithoutAt(was, k);
      assert forall j :: 0 <= j < |nodes| ==> nodes[j].next == NodeAt(j + 1);
    }

    /** list_remove: only the first match leaves the chain, the others keep their nodes and order. */
    method Remove(match_: T -> bool)
      requires Valid()
      modifies this, repr
      ensures Valid() && repr == old(repr)
      ensures nodes == Without(old(nodes), FirstMatch(old(Values()), match_))
      ensures Values() == Without(old(Values()), FirstMatch(old(Values()), match_))
    {
      var h, p, k := Locate(match_);
      if h != null {
        Unlink(h, p, k);
      }
      ValuesWithout(old(nodes), k);
    }

    method Empty()
      requires Valid()
      modifies this
      ensures Valid() && Values() == [] && repr == old(repr)
    {
      length := 0;
      head := null;
      nodes := [];
    }

    /** An addition while a node n is remembered. */
    method InsertWith(value: T, n: Node?<T>, ghost at: nat) returns (ghost later: nat)
      requires Valid() && at <= |nodes| && n == NodeAt(at)
      modifies this, repr
      ensures Valid() && old(repr) <= repr && fresh(repr - old(repr))
      ensures Apply(Place(old(Values()), at), Insert(value)) == Some(Place(Values(), later))
      ensures later <= |nodes| && n == NodeAt(later)
    {
      ghost var was := nodes;
      later := at + 1;
      InsertApplies(Values(), value, at);
      Add(value);
      BehindHead(nodes, was, at);
    }

    /** A removal while a node n is remembered; ok is false when n is the node that is freed. */
    method DeleteWith(match_: T -> bool, n: Node?<T>, ghost at: nat) returns (ok: bool, ghost later: nat)
      requires Valid() && at <= |nodes| && n == NodeAt(at)
      modifies this, repr
      ensures Valid() && repr == old(repr)
      ensures Apply(Place(old(Values()), at), Op<T>.Delete(match_)) == if ok then Some(Place(Values(), later)) else None
      ensures ok ==> later <= |nodes| && n == NodeAt(later)
    {
      ghost var was := nodes;
      var h, p, k := Locate(match_);
      ok := h == null || h != n;
      assert ok <==> !(k == at < |was|);
      later := if k < at then at - 1 else at;
      DeleteApplies(Values(), match_, k, at, later);
      if h != null {
        Unlink(h, p, k);
      }
      ValuesWithout(was, k);
      if ok {
        StaysRemembered(was, k, at, later);
      }
    }

    /** One operation of a callback. */
    method Act(op: Op<T>, n: Node?<T>, ghost at: nat) returns (ok: bool, ghost later: nat)
      requires Valid() && at <= |nodes| && n == NodeAt(at)
      modifies this, repr
      ensures Valid() && old(repr) <= repr && fresh(repr - old(repr))
      ensures Apply(Place(old(Values()), at), op) == if ok then Some(Place(Values(), later)) else None
      ensures ok ==> later <= |nodes| && n == NodeAt(later)
    {
      match op {
        case Insert(value) =>
          ok := true;
          later := InsertWith(value, n, at);
        case Delete(match_) =>
          ok, later := DeleteWith(match_, n, at);
      }
    }

    /** A callback: its operations in turn. */
    method Call(ops: seq<Op<T>>, n: Node?<T>, ghost at: nat) returns (ok: bool, ghost later: nat)
      requires Valid() && at <= |nodes| && n == NodeAt(at)
      modifies this, repr
      ensures Valid() && old(repr) <= repr && fresh(repr - old(repr))
      ensures ApplyAll(Place(old(Values()), at), ops) == if ok then Some(Place(Values(), later)) else None
      ensures ok ==> later <= |nodes| && n == NodeAt(later)
      decreases |ops|
    {
      ok, later := true, at;
      if ops != [] {
        ok, later := Act(ops[0], n, at);
        if ok {
          ok, later := Call(ops[1..], n, later);
        }
      }
    }

    /** The walk stands before the node h, in the place `at`, and goes on to its goal from there. */
    ghost predicate Standing(h: Node?<T>, acts: (nat, T) -> seq<Op<T>>, visited: seq<T>, at: nat, goal: Visits<T>)
      reads this, repr
    {
      && Valid() && at <= |nodes| && h == NodeAt(at)
      && goal == Before(visited, Walk(Values(), at, acts, |visited|))
    }

    ghost method Begin(acts: (nat, T) -> seq<Op<T>>) returns (goal: Visits<T>)
      requires Valid()
      ensures goal == Walk(Values(), 0, acts, 0) && Standing(head, acts, [], 0, goal)
    {
      goal := Walk(Values(), 0, acts, 0);
      BeforeNothing(goal);
    }

    ghost method Ended(acts: (nat, T) -> seq<Op<T>>, visited: seq<T>, at: nat, goal: Visits<T>)
      requires Standing(null, acts, visited, at, goal)
      ensures Valid() && goal == Visits(visited, Some(Values()))
    {
      WalkEnds(visited, Values(), acts);
    }

    /** One turn of list_foreach: the successor is read, then the callback runs. */
    method Visit(h: Node<T>, acts: (nat, T) -> seq<Op<T>>, visited: seq<T>, ghost at: nat, ghost goal: Visits<T>)
      returns (ok: bool, n: Node?<T>, ghost later: nat)
      requires Standing(h, acts, visited, at, goal)
      modifies this, repr
      ensures Valid() && old(repr) <= repr && fresh(repr - old(repr))
      ensures if ok then Standing(n, acts, visited + [h.value], later, goal)
        else goal == Visits(visited + [h.value], None)
      ensures ok ==> |nodes| - later < |old(nodes)| - at
    {
      ok, n, later := Turn(h, acts, visited, at, goal, |visited + [h.value]|);
    }

    method Turn(h: Node<T>, acts: (nat, T) -> seq<Op<T>>, visited: seq<T>, ghost at: nat, ghost goal: Visits<T>,
        ghost k: nat)
      returns (ok: bool, n: Node?<T>, ghost later: nat)
      requires Valid() && at < |nodes| && h == nodes[at] && k == |visited| + 1
      requires goal == Before(visited, Walk(Values(), at, acts, |visited|))
      modifies this, repr
      ensures Valid() && old(repr) <= repr && fresh(repr - old(repr))
      ensures ok ==> later <= |nodes| && n == NodeAt(later) && |nodes| - later < |old(nodes)| - at
      ensures ok ==> goal == Before(visited + [h.value], Walk(Values(), later, acts, k))
      ensures !ok ==> goal == Visits(visited + [h.value], None)
    {
      WalkStep(Values(), at, acts, visited);
      n := h.next;
      ok, later := Call(acts(|visited|, h.value), n, at + 1);
    }

    /**
      list_foreach. The callback may add and remove anything, by its arguments and the element it is
      called with; ok is false when it frees the node that is read next.
     */
    method Foreach(acts: (nat, T) -> seq<Op<T>>) returns (ok: bool, visited: seq<T>)
      requires Valid()
      modifies this, repr
      ensures Valid()
      ensures Walk(old(Values()), 0, acts, 0) == Visits(visited, if ok then Some(Values()) else None)
    {
      ok, visited := true, [];
      ghost var goal := Begin(acts);
      var h := head;
      ghost var at: nat := 0;
      while h != null
        invariant old(repr) <= repr && fresh(repr - old(repr))
        invariant Standing(h, acts, visited, at, goal)
        decreases |nodes| - at
      {
        var value := h.value;
        ok, h, at := Visit(h, acts, visited, at, goal);
        visited := visited + [value];
        if !ok {
          return;
        }
      }
      Ended(acts, visited, at, goal);
    }
  }

  ghost function NodeOf<T>(nodes: seq<Node<T>>, i: nat): Node?<T> { if i < |nodes| then nodes[i] else null }

  lemma BehindHead<T>(nodes: seq<Node<T>>, was: seq<Node<T>>, at: nat)
    requires nodes != [] && nodes[1..] == was
    ensures NodeOf(nodes, at + 1) == NodeOf(was, at)
  {
  }

  lemma InsertApplies<T>(s: seq<T>, value: T, at: nat)
    ensures Apply(Place(s, at), Op<T>.Insert(value)) == Some(Place([value] + s, at + 1))
  {
  }

  lemma StaysRemembered<T>(was: seq<Node<T>>, k: nat, at: nat, later: nat)
    requires at <= |was| && k <= |was| && !(k == at < |was|) && later == if k < at then at - 1 else at
    ensures later <= |Without(was, k)| && NodeOf(Without(was, k), later) == NodeOf(was, at)
  {
  }

  lemma DeleteIsDrop<T>(p: Place<T>, match_: T -> bool)
    ensures Apply(p, Op<T>.Delete(match_)) == Dropped(p, FirstMatch(p.s, match_))
  {
  }

  lemma DropIs<T>(s: seq<T>, k: nat, at: nat)
    ensures Dropped(Place(s, at), k) ==
            if k == at < |s| then None else Some(Place(Without(s, k), if k < at then at - 1 else at))
  {
  }

  lemma DeleteApplies<T>(s: seq<T>, match_: T -> bool, k: nat, at: nat, later: nat)
    requires k == FirstMatch(s, match_) && later == if k < at then at - 1 else at
    ensures Apply(Place(s, at), Op<T>.Delete(match_)) ==
            if k == at < |s| then None else Some(Place(Without(s, k), later))
  {
    DeleteIsDrop(Place(s, at), match_);
    DropIs(s, k, at);
  }

  /** What a callback can do to the list it is called on. */
  datatype Op<!T> = Insert(value: T) | Delete(match_: T -> bool)

  /** A list and the place of the remembered node in it; the length of the list for none. */
  datatype Place<T> = Place(s: seq<T>, at: nat)

  /** The element at the place k leaves the list, which frees its node. */
  function Dropped<T>(p: Place<T>, k: nat): (r: Option<Place<T>>)
    ensures r.Some? && p.at <= |p.s| ==> r.value.at <= |r.value.s| && |r.value.s| - r.value.at <= |p.s| - p.at
  {
    if k == p.at < |p.s| then None
    else Some(Place(Without(p.s, k), if k < p.at then p.at - 1 else p.at))
  }

  /** One operation; None when it frees the remembered node. */
  function Apply<T>(p: Place<T>, op: Op<T>): (r: Option<Place<T>>)
    ensures r.Some? && p.at <= |p.s| ==> r.value.at <= |r.value.s| && |r.value.s| - r.value.at <= |p.s| - p.at
  {
    match op
    case Insert(value) => Some(Place([value] + p.s, p.at + 1))
    case Delete(match_) => Dropped(p, FirstMatch(p.s, match_))
  }

  function ApplyAll<T>(p: Place<T>, ops: seq<Op<T>>): (r: Option<Place<T>>)
    ensures r.Some? && p.at <= |p.s| ==> r.value.at <= |r.value.s| && |r.value.s| - r.value.at <= |p.s| - p.at
    decreases |ops|
  {
    if ops == [] then Some(p)
    else match Apply(p, ops[0])
      case None => None
      case Some(q) => ApplyAll(q, ops[1..])
  }

  /** The elements the callback was called with, and the list at the end; None if a freed node is read. */
  datatype Visits<T> = Visits(visited: seq<T>, left: Option<seq<T>>)

  function Before<T>(front: seq<T>, v: Visits<T>): Visits<T> { Visits(front + v.visited, v.left) }

  /** The rest of a walk that stands at the place `at`, when the callback was called k times. */
  function Walk<T>(s: seq<T>, at: nat, acts: (nat, T) -> seq<Op<T>>, k: nat): Visits<T>
    requires at <= |s|
    decreases |s| - at
  {
    if at == |s| then Visits([], Some(s))
    else match ApplyAll(Place(s, at + 1), acts(k, s[at]))
      case None => Visits([s[at]], None)
      case Some(p) => Before([s[at]], Walk(p.s, p.at, acts, k + 1))
  }

  lemma MoveFirst<T>(a: seq<T>, x: T, b: seq<T>)
    ensures (a + [x]) + b == a + ([x] + b)
  {
  }

  lemma ValuesWithout<T>(nodes: seq<Node<T>>, k: nat)
    ensures ValuesOf(Without(nodes, k)) == Without(ValuesOf(nodes), k)
  {
  }

  lemma FirstMatchBefore<T>(s: seq<T>, match_: T -> bool, at: nat)
    requires at < |s| && match_(s[at])
    ensures FirstMatch(s, match_) <= at
  {
  }

  function ValuesOf<T>(nodes: seq<Node<T>>): (s: seq<T>)
    ensures |s| == |nodes| && forall i :: 0 <= i < |s| ==> s[i] == nodes[i].value
  {
    seq(|nodes|, i requires 0 <= i < |nodes| => nodes[i].value)
  }

  lemma BeforeNothing<T>(v: Visits<T>)
    ensures Before([], v) == v
  {
    assert [] + v.visited == v.visited;
  }

  lemma WalkEnds<T>(visited: seq<T>, s: seq<T>, acts: (nat, T) -> seq<Op<T>>)
    ensures Before(visited, Walk(s, |s|, acts, |visited|)) == Visits(visited, Some(s))
  {
    assert visited + [] == visited;
  }

  /** One visit of a walk, with the elements visited before it. */
  lemma WalkStep<T>(s: seq<T>, at: nat, acts: (nat, T) -> seq<Op<T>>, visited: seq<T>)
    requires at < |s|
    ensures Before(visited, Walk(s, at, acts, |visited|)) ==
      match ApplyAll(Place(s, at + 1), acts(|visited|, s[at]))
      case None => Visits(visited + [s[at]], None)
      case Some(p) => Before(visited + [s[at]], Walk(p.s, p.at, acts, |visited| + 1))
  {
    var next := ApplyAll(Place(s, at + 1), acts(|visited|, s[at]));
    if next.Some? {
      MoveFirst(visited, s[at], Walk(next.value.s, next.value.at, acts, |visited| + 1).visited);
    }
  }

  // ---------------------------------------------------------------------------------------------
  // Which callbacks are harmless
  // ---------------------------------------------------------------------------------------------

  /** Nothing is removed from the place of the remembered node on. */
  predicate SpareRest<T>(p: Place<T>, ops: seq<Op<T>>)
    decreases |ops|
  {
    ops != [] ==>
      && (ops[0].Delete? ==> var k := FirstMatch(p.s, ops[0].match_); k < p.at || k == |p.s|)
      && (Apply(p, ops[0]).Some? ==> SpareRest(Apply(p, ops[0]).value, ops[1..]))
  }

  /** Every removal of a walk takes an element that was visited or added: its first match is not ahead. */
  predicate Safe<T>(s: seq<T>, at: nat, acts: (nat, T) -> seq<Op<T>>, k: nat)
    requires at <= |s|
    decreases |s| - at
  {
    at < |s| ==>
      && SpareRest(Place(s, at + 1), acts(k, s[at]))
      && var next := ApplyAll(Place(s, at + 1), acts(k, s[at]));
         next.Some? ==> Safe(next.value.s, next.value.at, acts, k + 1)
  }

  /** The elements ahead are kept when they are spared, and some are lost otherwise. */
  lemma ApplyAhead<T>(p: Place<T>, op: Op<T>)
    requires p.at <= |p.s|
    ensures var r := Apply(p, op);
      var spared := op.Delete? ==> var k := FirstMatch(p.s, op.match_); k < p.at || k == |p.s|;
      && (spared ==> r.Some? && r.value.s[r.value.at..] == p.s[p.at..])
      && (!spared && r.Some? ==> |r.value.s| - r.value.at < |p.s| - p.at)
  {
  }

  lemma {:induction false} ApplyAllAhead<T>(p: Place<T>, ops: seq<Op<T>>)
    requires p.at <= |p.s|
    ensures var r := ApplyAll(p, ops);
      && (SpareRest(p, ops) ==> r.Some? && r.value.s[r.value.at..] == p.s[p.at..])
      && (!SpareRest(p, ops) && r.Some? ==> |r.value.s| - r.value.at < |p.s| - p.at)
    decreases |ops|
  {
    if ops != [] {
      ApplyAhead(p, ops[0]);
      var next := Apply(p, ops[0]);
      if next.Some? {
        ApplyAllAhead(next.value, ops[1..]);
      }
    }
  }

  lemma {:induction false} WalkShort<T>(s: seq<T>, at: nat, acts: (nat, T) -> seq<Op<T>>, k: nat)
    requires at <= |s|
    ensures |Walk(s, at, acts, k).visited| <= |s| - at
    decreases |s| - at
  {
    if at < |s| {
      var next := ApplyAll(Place(s, at + 1), acts(k, s[at]));
      if next.Some? {
        WalkShort(next.value.s, next.value.at, acts, k + 1);
      }
    }
  }

  /**
    A walk visits exactly the elements it started with, each once and in order, without reading freed
    memory, if and only if no call of the callback removes an element that is still ahead.
   */
  lemma {:induction false} WalkVisitsAll<T>(s: seq<T>, at: nat, acts: (nat, T) -> seq<Op<T>>, k: nat)
    requires at <= |s|
    ensures var w := Walk(s, at, acts, k); w.visited == s[at..] && w.left.Some? <==> Safe(s, at, acts, k)
    decreases |s| - at
  {
    if at < |s| {
      var next := ApplyAll(Place(s, at + 1), acts(k, s[at]));
      ApplyAllAhead(Place(s, at + 1), acts(k, s[at]));
      assert s[at..] == [s[at]] + s[at + 1..];
      if next.Some? {
        WalkVisitsAll(next.value.s, next.value.at, acts, k + 1);
        WalkShort(next.value.s, next.value.at, acts, k + 1);
      }
    }
  }

  /** The callback adds what it likes and removes at most once, by a key of the element it is called with. */
  predicate OwnKey<T>(v: T, ops: seq<Op<T>>)
  {
    forall i :: 0 <= i < |ops| && ops[i].Delete? ==>
      ops[i].match_(v) && forall j :: 0 <= j < |ops| && ops[j].Delete? ==> i == j
  }

  lemma {:induction false} NoDeleteSpares<T>(p: Place<T>, ops: seq<Op<T>>)
    requires forall i :: 0 <= i < |ops| ==> ops[i].Insert?
    ensures SpareRest(p, ops)
    decreases |ops|
  {
    if ops != [] {
      NoDeleteSpares(Apply(p, ops[0]).value, ops[1..]);
    }
  }

  lemma {:induction false} OwnKeySpares<T>(p: Place<T>, v: T, ops: seq<Op<T>>)
    requires 0 < p.at <= |p.s| && p.s[p.at - 1] == v && OwnKey(v, ops)
    ensures SpareRest(p, ops)
    decreases |ops|
  {
    if ops != [] {
      var next := Apply(p, ops[0]);
      match ops[0] {
        case Insert(value) =>
          assert next.value.s[next.value.at - 1] == v;
          OwnKeySpares(next.value, v, ops[1..]);
        case Delete(match_) =>
          FirstMatchBefore(p.s, match_, p.at - 1);
          NoDeleteSpares(next.value, ops[1..]);
      }
    }
  }

  /** Such a callback is harmless. */
  lemma {:induction false} OwnKeysAreSafe<T>(s: seq<T>, at: nat, acts: (nat, T) -> seq<Op<T>>, k: nat)
    requires at <= |s| && forall i, v :: OwnKey(v, acts(i, v))
    ensures Safe(s, at, acts, k)
    decreases |s| - at
  {
    if at < |s| {
      OwnKeySpares(Place(s, at + 1), s[at], acts(k, s[at]));
      var next := ApplyAll(Place(s, at + 1), acts(k, s[at]));
      if next.Some? {
        OwnKeysAreSafe(next.value.s, next.value.at, acts, k + 1);
      }
    }
  }

  /** The callback removes one element, by a key of the element it is called with. */
  predicate OneDelete<T>(v: T, ops: seq<Op<T>>)
  {
    |ops| == 1 && ops[0].Delete? && ops[0].match_(v)
  }

  lemma OneDeleteApplies<T>(s: seq<T>, at: nat, ops: seq<Op<T>>) returns (p: Place<T>)
    requires at < |s| && OneDelete(s[at], ops)
    ensures ApplyAll(Place(s, at + 1), ops) == Some(p) && p.at == at && |p.s| == |s| - 1
  {
    var k := FirstMatch(s, ops[0].match_);
    FirstMatchBefore(s, ops[0].match_, at);
    DeleteApplies(s, ops[0].match_, k, at + 1, at);
    p := Place(Without(s, k), at);
    assert Apply(Place(s, at + 1), ops[0]) == Some(p) && ops[1..] == [];
  }

  lemma {:induction false} NoneIsLeft<T>(s: seq<T>, at: nat, acts: (nat, T) -> seq<Op<T>>, k: nat)
    requires at <= |s| && forall i, v :: OneDelete(v, acts(i, v))
    ensures var w := Walk(s, at, acts, k); w.left.Some? && |w.left.value| == at
    decreases |s| - at
  {
    if at < |s| {
      var p := OneDeleteApplies(s, at, acts(k, s[at]));
      NoneIsLeft(p.s, p.at, acts, k + 1);
    }
  }

  /**
    A callback that always removes by its own key: all elements are visited, each visit takes one away,
    and of those ahead of the start none is left.
   */
  lemma OneGonePerVisit<T>(s: seq<T>, at: nat, acts: (nat, T) -> seq<Op<T>>, k: nat)
    requires at <= |s| && forall i, v :: OneDelete(v, acts(i, v))
    ensures var w := Walk(s, at, acts, k); w.visited == s[at..] && w.left.Some? && |w.left.value| == at
  {
    forall i, v ensures OwnKey(v, acts(i, v)) {
      assert OneDelete(v, acts(i, v));
    }
    OwnKeysAreSafe(s, at, acts, k);
    WalkVisitsAll(s, at, acts, k);
    NoneIsLeft(s, at, acts, k);
  }

  /** A callback that removes the element after the one it is called with makes the walk read freed memory. */
  lemma SuccessorFreed<T>(s: seq<T>, acts: (nat, T) -> seq<Op<T>>, match_: T -> bool)
    requires |s| >= 2 && !match_(s[0]) && match_(s[1]) && acts(0, s[0]) == [Op<T>.Delete(match_)]
    ensures Walk(s, 0, acts, 0) == Visits([s[0]], None)
  {
    FirstMatchIs(s, match_, 1);
    DeleteApplies(s, match_, 1, 1, 1);
  }
}
