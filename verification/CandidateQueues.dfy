/** The cycle candidates as seven plain queues, one per container type, popped in turn. */
module CandidateSpec {
  import opened Collections

  const TYPES: nat := 7

  function Total<T>(queue: seq<seq<T>>): nat {
    if queue == [] then 0 else |queue[0]| + Total(queue[1..])
  }

  function Without<T(==)>(s: seq<T>, x: T): (r: seq<T>)
    ensures x !in s ==> r == s
  {
    if s == [] then [] else if s[0] == x then s[1..] else [s[0]] + Without(s[1..], x)
  }

  datatype Queues<T(==)> = Queues(queue: seq<seq<T>>, roundRobin: nat)
  {
    predicate Valid() { |queue| == TYPES && roundRobin < TYPES }

    function Append(k: nat, x: T): Queues<T>
      requires Valid() && k < TYPES
    {
      if x in queue[k] then this else this.(queue := queue[k := queue[k] + [x]])
    }

    function Remove(k: nat, x: T): Queues<T>
      requires Valid() && k < TYPES
    {
      this.(queue := queue[k := Without(queue[k], x)])
    }

    /** The queue looked at after passing over `j` others, starting at the round-robin position. */
    function Slot(j: nat): (k: nat)
      requires Valid() && j <= TYPES
      ensures k < TYPES
    {
      if roundRobin + j < TYPES then roundRobin + j else roundRobin + j - TYPES
    }

    /** How many empty queues are passed over. */
    function Skipped(checked: nat): (r: nat)
      requires Valid() && checked <= TYPES
      ensures checked <= r <= TYPES
      ensures forall j :: checked <= j < r ==> queue[Slot(j)] == []
      ensures r < TYPES ==> queue[Slot(r)] != []
      decreases TYPES - checked
    {
      if checked == TYPES || queue[Slot(checked)] != [] then checked
      else
        assert queue[Slot(checked)] == [];
        Skipped(checked + 1)
    }

    /** The first candidate of the first non-empty queue in turn, and the queues without it. */
    function Pop(): (r: (Queues<T>, Option<(nat, T)>))
      requires Valid()
      ensures r.0.Valid()
      ensures r.1.Some? ==> r.1.value.0 < TYPES && queue[r.1.value.0] != [] && r.1.value.1 == queue[r.1.value.0][0]
    {
      var j := Skipped(0);
      if j == TYPES then (this, None)
      else
        var k := Slot(j);
        (Queues(queue[k := queue[k][1..]], (k + 1) % 7), Some((k, queue[k][0])))
    }
  }

  lemma {:induction false} TotalUpdate<T>(queue: seq<seq<T>>, k: nat, s: seq<T>)
    requires k < |queue|
    ensures Total(queue[k := s]) == Total(queue) - |queue[k]| + |s|
  {
    if k == 0 {
      assert queue[k := s][1..] == queue[1..];
    } else {
      TotalUpdate(queue[1..], k - 1, s);
      assert queue[k := s][1..] == queue[1..][k - 1 := s];
    }
  }

  lemma {:induction false} TotalAtLeast<T>(queue: seq<seq<T>>, k: nat)
    requires k < |queue|
    ensures Total(queue) >= |queue[k]|
  {
    if k > 0 { TotalAtLeast(queue[1..], k - 1); }
  }

  lemma {:induction false} WithoutAt<T>(s: seq<T>, x: T, i: nat)
    requires Distinct(s) && i < |s| && s[i] == x
    ensures Without(s, x) == s[..i] + s[i + 1..]
  {
    if i > 0 {
      WithoutAt(s[1..], x, i - 1);
      assert s[..i] + s[i + 1..] == [s[0]] + (s[1..][..i - 1] + s[1..][i..]);
    }
  }

  lemma {:induction false} TotalZero<T>(queue: seq<seq<T>>)
    ensures Total(queue) == 0 <==> forall k :: 0 <= k < |queue| ==> queue[k] == []
  {
    if queue != [] {
      TotalZero(queue[1..]);
      assert forall k :: 0 <= k < |queue| ==> queue[k] == if k == 0 then queue[0] else queue[1..][k - 1];
    }
  }

  /** A pop succeeds exactly when some queue holds a candidate, and removes exactly one. */
  lemma PopSucceeds<T>(q: Queues<T>)
    requires q.Valid()
    ensures q.Pop().1.Some? <==> Total(q.queue) > 0
    ensures q.Pop().1.Some? ==> Total(q.Pop().0.queue) == Total(q.queue) - 1
  {
    TotalZero(q.queue);
    var j := q.Skipped(0);
    if j == TYPES {
      forall k | 0 <= k < TYPES ensures q.queue[k] == [] {
        assert q.queue[q.Slot(Turn(q.roundRobin, k))] == [];
      }
    } else {
      TotalUpdate(q.queue, q.Slot(j), q.queue[q.Slot(j)][1..]);
    }
  }

  predicate AllSkipped<T(==)>(q: Queues<T>, checked: nat)
    requires q.Valid() && checked <= TYPES
  {
    forall j :: 0 <= j < checked ==> q.queue[q.Slot(j)] == []
  }

  lemma SkipOne<T>(q: Queues<T>, checked: nat)
    requires q.Valid() && checked < TYPES && AllSkipped(q, checked) && q.queue[q.Slot(checked)] == []
    ensures AllSkipped(q, checked + 1)
    ensures q.Slot(checked + 1) == (q.Slot(checked) + 1) % 7
  {
  }

  /** What a pop does once the queue it serves is known. */
  lemma PopAt<T>(q: Queues<T>, checked: nat)
    requires q.Valid() && checked < TYPES && AllSkipped(q, checked) && q.queue[q.Slot(checked)] != []
    ensures var k := q.Slot(checked);
      q.Pop() == (Queues(q.queue[k := q.queue[k][1..]], (k + 1) % 7), Some((k, q.queue[k][0])))
  {
  }

  lemma NothingToPop<T>(q: Queues<T>)
    requires q.Valid() && AllSkipped(q, TYPES)
    ensures q.Pop().1.None?
  {
  }

  function PopTimes<T(==)>(q: Queues<T>, n: nat): (r: Queues<T>)
    requires q.Valid()
    ensures r.Valid()
    decreases n
  {
    if n == 0 then q else PopTimes(q.Pop().0, n - 1)
  }

  /** How many queues are looked at before `k`. */
  function Turn(roundRobin: nat, k: nat): (r: nat)
    requires roundRobin < TYPES && k < TYPES
    ensures r < TYPES
  {
    if roundRobin <= k then k - roundRobin else k + TYPES - roundRobin
  }

  /** No type starves: a non-empty queue is served within its turn, at most seven pops away. */
  lemma {:induction false} RoundRobinIsFair<T>(q: Queues<T>, k: nat)
    requires q.Valid() && k < TYPES && q.queue[k] != []
    ensures exists n :: 0 <= n < TYPES && PopTimes(q, n).Pop().1 == Some((k, q.queue[k][0])) && PopTimes(q, n).queue[k] == q.queue[k]
  {
    var n := ServedAfter(q, k);
  }

  /** The first non-empty queue in turn is `k` or one before it. */
  lemma SkippedBefore<T>(q: Queues<T>, k: nat)
    requires q.Valid() && k < TYPES && q.queue[k] != []
    ensures q.Skipped(0) <= Turn(q.roundRobin, k)
    ensures q.Skipped(0) == Turn(q.roundRobin, k) ==> q.Pop().1 == Some((k, q.queue[k][0]))
  {
    assert q.Slot(Turn(q.roundRobin, k)) == k;
  }

  /** Serving another queue brings the turn of `k` nearer and leaves its contents. */
  lemma OthersServed<T>(q: Queues<T>, k: nat)
    requires q.Valid() && k < TYPES && q.queue[k] != [] && q.Skipped(0) < Turn(q.roundRobin, k)
    ensures var q' := q.Pop().0;
      q'.Valid() && q'.queue[k] == q.queue[k] && Turn(q'.roundRobin, k) < Turn(q.roundRobin, k)
  {
    var j, q' := q.Skipped(0), q.Pop().0;
    assert q.Slot(Turn(q.roundRobin, k)) == k;
    assert q'.roundRobin == (q.Slot(j) + 1) % 7;
  }

  lemma PopTimesStep<T>(q: Queues<T>, n: nat)
    requires q.Valid()
    ensures PopTimes(q, 0) == q && PopTimes(q, n + 1) == PopTimes(q.Pop().0, n)
  {
  }

  lemma {:induction false} ServedAfter<T>(q: Queues<T>, k: nat) returns (n: nat)
    requires q.Valid() && k < TYPES && q.queue[k] != []
    ensures n <= Turn(q.roundRobin, k)
    ensures PopTimes(q, n).Pop().1 == Some((k, q.queue[k][0])) && PopTimes(q, n).queue[k] == q.queue[k]
    decreases Turn(q.roundRobin, k)
  {
    SkippedBefore(q, k);
    n := 0;
    if q.Skipped(0) < Turn(q.roundRobin, k) {
      OthersServed(q, k);
      n := ServedAfter(q.Pop().0, k);
      PopTimesStep(q, n);
      n := n + 1;
    }
  }
}

/** The same queues kept as links inside the containers themselves. */
module IntrusiveQueues {
  import opened Collections
  import opened CandidateSpec

  class Container {
    const kind: nat
    var next: Container?
    var prev: Container?

    /** A container outside every queue is its own predecessor. */
    constructor (kind: nat)
      requires kind < TYPES
      ensures this.kind == kind && prev == this && next == null
    {
      this.kind := kind;
      next := null;
      prev := this;
    }
  }

  /** The links of one queue spell out `s`, from `head` to `tail`. */
  ghost predicate Linked(head: Container?, tail: Container?, s: seq<Container>)
    reads s
  {
    && head == (if s == [] then null else s[0])
    && tail == (if s == [] then null else s[|s| - 1])
    && (forall i {:trigger s[i].prev} :: 0 <= i < |s| ==> s[i].prev == if i == 0 then null else s[i - 1])
    && forall i {:trigger s[i].next} :: 0 <= i < |s| ==> s[i].next == if i == |s| - 1 then null else s[i + 1]
  }

  /** One queue: distinct pooled containers of its own kind, linked from head to tail. */
  ghost predicate QueueOk(head: Container?, tail: Container?, s: seq<Container>, k: nat, pool: set<Container>)
    reads s
  {
    && (forall c :: c in s ==> c in pool && c.kind == k)
    && Distinct(s)
    && Linked(head, tail, s)
  }

  lemma OtherKind(s: seq<Container>, t: seq<Container>, j: nat, k: nat)
    requires j != k && (forall c :: c in s ==> c.kind == j) && forall c :: c in t ==> c.kind == k
    ensures forall i :: 0 <= i < |s| ==> s[i] !in t
  {
  }

  /** Links `p` behind the tail of one queue. */
  method LinkAtTail(head: Container?, tail: Container?, p: Container, ghost s: seq<Container>)
    returns (head': Container?, tail': Container?)
    requires Linked(head, tail, s) && Distinct(s) && p !in s
    modifies p, if tail == null then {} else {tail}
    ensures Linked(head', tail', s + [p]) && Distinct(s + [p])
    ensures p.prev != p
    ensures tail != null ==> tail.prev == old(tail.prev)
  {
    p.prev := tail;
    p.next := null;
    head' := head;
    if tail != null { tail.next := p; } else { head' := p; }
    tail' := p;
  }

  lemma RestWithout(s: seq<Container>, i: nat, rest: seq<Container>)
    requires Distinct(s) && i < |s| && rest == s[..i] + s[i + 1..]
    ensures forall c :: c in rest <==> c in s && c != s[i]
  {
    forall c | c in s && c != s[i] ensures c in rest {
      var j :| 0 <= j < |s| && s[j] == c;
      assert c == if j < i then rest[j] else rest[j - 1];
    }
  }

  /** Unlinks the `i`-th element of one queue and marks it as outside every queue. */
  method Unlink(head: Container?, tail: Container?, p: Container, ghost s: seq<Container>, ghost i: nat)
    returns (head': Container?, tail': Container?)
    requires Linked(head, tail, s) && Distinct(s) && i < |s| && s[i] == p
    modifies s
    ensures Linked(head', tail', s[..i] + s[i + 1..]) && Distinct(s[..i] + s[i + 1..])
    ensures p.prev == p && p.next == null
    ensures forall c :: c in s && c != p ==> c.prev != c
  {
    var prev, next := p.prev, p.next;
    assert prev == if i == 0 then null else s[i - 1];
    assert next == if i == |s| - 1 then null else s[i + 1];
    head', tail' := head, tail;
    if prev != null { prev.next := next; } else { head' := next; }
    if next != null { next.prev := prev; } else { tail' := prev; }
    p.next := null;
    p.prev := p;
    ghost var r := s[..i] + s[i + 1..];
    assert forall j :: 0 <= j < |r| ==> r[j] == if j < i then s[j] else s[j + 1];
  }

  class CandidateQueues {
    var heads: seq<Container?>
    var tails: seq<Container?>
    var count: nat
    var roundRobin: nat
    ghost var queue: seq<seq<Container>>
    ghost var pool: set<Container>

    ghost predicate Valid()
      reads this, pool
    {
      && |heads| == |tails| == |queue| == TYPES && roundRobin < TYPES
      && count == Total(queue)
      && (forall k :: 0 <= k < TYPES ==> forall c :: c in queue[k] ==> c in pool)
      && (forall k :: 0 <= k < TYPES ==> QueueOk(heads[k], tails[k], queue[k], k, pool))
      && forall c :: c in pool ==> c.kind < TYPES && (c.prev == c <==> c !in queue[c.kind])
    }

    ghost function View(): Queues<Container>
      reads this
    {
      Queues(queue, roundRobin)
    }

    constructor ()
      ensures Valid() && pool == {} && View() == Queues(seq(TYPES, _ => []), 0)
    {
      heads, tails := seq(TYPES, _ => null), seq(TYPES, _ => null);
      count, roundRobin := 0, 0;
      ghost var empty: seq<seq<Container>> := seq(TYPES, _ => []);
      queue, pool := empty, {};
      TotalZero(empty);
    }

    /** Everything is in order once queue `k` is taken to be `s`, held by `head` and `tail`. */
    ghost predicate ValidWith(k: nat, head: Container?, tail: Container?, s: seq<Container>)
      reads this, pool, s
    {
      && |heads| == |tails| == |queue| == TYPES && roundRobin < TYPES && k < TYPES
      && count == Total(queue)
      && (forall j :: 0 <= j < TYPES ==> forall c :: c in queue[j] ==> c in pool)
      && (forall j :: 0 <= j < TYPES && j != k ==> QueueOk(heads[j], tails[j], queue[j], j, pool))
      && QueueOk(head, tail, s, k, pool)
      && forall c :: c in pool ==> c.kind < TYPES && (c.prev == c <==> c !in if c.kind == k then s else queue[c.kind])
    }

    /** Stores the new ends of one queue. */
    method Install(k: nat, head: Container?, tail: Container?, newCount: nat, ghost s: seq<Container>)
      requires ValidWith(k, head, tail, s) && newCount == count - |queue[k]| + |s|
      modifies this`heads, this`tails, this`queue, this`count
      ensures Valid() && queue == old(queue)[k := s]
    {
      TotalUpdate(queue, k, s);
      heads, tails := heads[k := head], tails[k := tail];
      count := newCount;
      queue := queue[k := s];
    }

    /** Appends at the tail; a container already queued stays where it is. */
    method Append(p: Container) returns (appended: bool)
      requires Valid() && p in pool
      modifies this`heads, this`tails, this`queue, this`count, pool
      ensures Valid()
      ensures appended <==> p !in old(queue)[p.kind]
      ensures View() == old(View()).Append(p.kind, p)
      ensures roundRobin == old(roundRobin)
      ensures queue == if p in old(queue)[p.kind] then old(queue) else old(queue)[p.kind := old(queue)[p.kind] + [p]]
    {
      var k := p.kind;
      if p.prev != p { return false; }
      assert QueueOk(heads[k], tails[k], queue[k], k, pool);
      var head, tail := LinkAtTail(heads[k], tails[k], p, queue[k]);
      forall j | 0 <= j < TYPES && j != k ensures QueueOk(heads[j], tails[j], queue[j], j, pool) {
        assert old(QueueOk(heads[j], tails[j], queue[j], j, pool));
        assert forall c :: c in queue[j] ==> c.kind == j;
      }
      Install(k, head, tail, count + 1, queue[k] + [p]);
      return true;
    }

    /** Unlinks the `i`-th container of queue `k`, before the ends are stored. */
    method UnlinkAt(k: nat, p: Container, ghost i: nat) returns (head: Container?, tail: Container?)
      requires Valid() && k < TYPES && i < |queue[k]| && queue[k][i] == p
      modifies pool
      ensures ValidWith(k, head, tail, queue[k][..i] + queue[k][i + 1..])
    {
      assert QueueOk(heads[k], tails[k], queue[k], k, pool);
      assert forall c :: c in queue[k] ==> c.kind == k;
      ghost var rest := queue[k][..i] + queue[k][i + 1..];
      RestWithout(queue[k], i, rest);
      head, tail := Unlink(heads[k], tails[k], p, queue[k], i);
      forall j | 0 <= j < TYPES && j != k ensures QueueOk(heads[j], tails[j], queue[j], j, pool) {
        assert old(QueueOk(heads[j], tails[j], queue[j], j, pool));
        OtherKind(queue[j], queue[k], j, k);
      }
    }

    /** Takes a container out of its queue; one outside every queue stays outside. */
    method Remove(p: Container) returns (removed: bool)
      requires Valid() && p in pool
      modifies this`heads, this`tails, this`queue, this`count, pool
      ensures Valid()
      ensures removed <==> p in old(queue)[p.kind]
      ensures View() == old(View()).Remove(p.kind, p)
    {
      var k := p.kind;
      if p.prev == p { return false; }
      ghost var i :| 0 <= i < |queue[k]| && queue[k][i] == p;
      assert QueueOk(heads[k], tails[k], queue[k], k, pool);
      WithoutAt(queue[k], p, i);
      var head, tail := UnlinkAt(k, p, i);
      TotalAtLeast(queue, k);
      Install(k, head, tail, count - 1, queue[k][..i] + queue[k][i + 1..]);
      return true;
    }

    /** Takes the head of queue `k`. */
    method PopFront(k: nat) returns (p: Container?)
      requires Valid() && k < TYPES
      modifies this`heads, this`tails, this`queue, this`count, pool
      ensures Valid()
      ensures old(queue)[k] == [] ==> p == null && queue == old(queue)
      ensures old(queue)[k] != [] ==>
        p == old(queue)[k][0] && p.kind == k && p in pool && queue == old(queue)[k := old(queue)[k][1..]]
    {
      p := heads[k];
      assert QueueOk(heads[k], tails[k], queue[k], k, pool);
      if p != null {
        assert Without(queue[k], p) == queue[k][1..];
        var removed := Remove(p);
      }
    }

    /** Looks at the queue whose turn it is and passes the turn on. */
    method PopTurn() returns (p: Container?)
      requires Valid()
      modifies this`heads, this`tails, this`queue, this`count, this`roundRobin, pool
      ensures Valid() && roundRobin == (old(roundRobin) + 1) % 7
      ensures p == null ==> queue == old(queue) && old(queue)[old(roundRobin)] == []
      ensures p != null ==>
        && p in pool && p.kind == old(roundRobin)
        && old(queue)[p.kind] != [] && p == old(queue)[p.kind][0] && queue == old(queue)[p.kind := old(queue)[p.kind][1..]]
    {
      var k := roundRobin;
      roundRobin := (roundRobin + 1) % 7;
      p := PopFront(k);
    }

    /** One turn of a pop that has found `checked` queues empty. */
    method PopChecked(checked: nat, ghost start: Queues<Container>) returns (p: Container?)
      requires Valid() && start.Valid() && checked < TYPES && AllSkipped(start, checked)
      requires queue == start.queue && roundRobin == start.Slot(checked)
      modifies this`heads, this`tails, this`queue, this`count, this`roundRobin, pool
      ensures Valid()
      ensures p == null ==> queue == start.queue && roundRobin == start.Slot(checked + 1) && AllSkipped(start, checked + 1)
      ensures p != null ==> p in pool && start.Pop() == (View(), Some((p.kind, p)))
    {
      p := PopTurn();
      if p == null { SkipOne(start, checked); } else { PopAt(start, checked); }
    }

    /** Takes the head of the first non-empty queue in turn; fails only when every queue is empty. */
    method Pop() returns (found: bool, p: Container?)
      requires Valid()
      modifies this`heads, this`tails, this`queue, this`count, this`roundRobin, pool
      ensures Valid()
      ensures found <==> old(count) > 0
      ensures found ==> p != null && p in pool && old(View()).Pop() == (View(), Some((p.kind, p)))
      ensures !found ==> p == null && View() == old(View())
    {
      ghost var start := View();
      PopSucceeds(start);
      if count == 0 { return false, null; }
      var checked := 0;
      while checked < TYPES
        invariant 0 <= checked <= TYPES && Valid()
        invariant queue == start.queue && roundRobin == start.Slot(checked) && AllSkipped(start, checked)
      {
        p := PopChecked(checked, start);
        if p != null { return true, p; }
        checked := checked + 1;
      }
      NothingToPop(start);
      return false, null;
    }
  }
}
