/** Handles that go stale when their slot is reused. */
module HandleTable {
  import opened Collections

  datatype Slot = Slot(item: Option<int>, generation: nat)
  datatype Handle = Handle(id: nat, generation: nat)

  /** What a handle resolves to. */
  function Lookup(slots: seq<Slot>, h: Handle): Option<int> {
    if h.id == 0 || h.id > |slots| || slots[h.id - 1].generation != h.generation then None else slots[h.id - 1].item
  }

  /** `live` is what the slots resolve; a handle handed out is live, or its slot has moved past it. */
  ghost predicate Tracks(slots: seq<Slot>, issued: set<Handle>, live: map<Handle, int>) {
    && (forall h :: Lookup(slots, h) == if h in live then Some(live[h]) else None)
    && (forall h :: h in live ==> h in issued)
    && forall h :: h in issued ==> Behind(slots, h)
  }

  predicate Behind(slots: seq<Slot>, h: Handle) {
    && 1 <= h.id <= |slots|
    && (h.generation < slots[h.id - 1].generation || (h.generation == slots[h.id - 1].generation && slots[h.id - 1].item.Some?))
  }

  /** Filling an empty slot resolves one new handle. */
  lemma TracksAdd(slots: seq<Slot>, slots': seq<Slot>, issued: set<Handle>, live: map<Handle, int>, slot: nat, item: int)
    requires Tracks(slots, issued, live) && slot < |slots'| && |slots'| == (if slot < |slots| then |slots| else slot + 1)
    requires forall i :: 0 <= i < |slots'| && i != slot ==> i < |slots| && slots'[i] == slots[i]
    requires slot < |slots| ==> slots[slot].item.None? && slots'[slot].generation == slots[slot].generation
    requires slots'[slot].item == Some(item)
    ensures var h := Handle(slot + 1, slots'[slot].generation);
      h !in issued && Tracks(slots', issued + {h}, live[h := item])
  {
    var h := Handle(slot + 1, slots'[slot].generation);
    assert h in issued ==> Behind(slots, h);
    forall g ensures Lookup(slots', g) == if g in live[h := item] then Some(live[h := item][g]) else None {
      assert Lookup(slots, g) == if g in live then Some(live[g]) else None;
    }
    forall g | g in issued + {h} ensures Behind(slots', g) { assert g in issued ==> Behind(slots, g); }
  }

  /** Emptying a slot and moving its generation on retires one handle. */
  lemma TracksRemove(slots: seq<Slot>, issued: set<Handle>, live: map<Handle, int>, h: Handle)
    requires Tracks(slots, issued, live) && Lookup(slots, h).Some?
    ensures Tracks(slots[h.id - 1 := Slot(None, slots[h.id - 1].generation + 1)], issued, live - {h})
  {
    var slots' := slots[h.id - 1 := Slot(None, slots[h.id - 1].generation + 1)];
    forall g ensures Lookup(slots', g) == if g in live - {h} then Some((live - {h})[g]) else None {
      assert Lookup(slots, g) == if g in live then Some(live[g]) else None;
      if g.id == h.id && g != h {
        assert g !in live;
        if g in issued { assert Behind(slots, g); }
        if g.generation == h.generation + 1 { NotYetIssued(slots, issued, live, g); }
      }
    }
    forall g | g in issued ensures Behind(slots', g) { assert Behind(slots, g); }
  }

  /** A handle of a generation its slot has not reached was never handed out. */
  lemma NotYetIssued(slots: seq<Slot>, issued: set<Handle>, live: map<Handle, int>, g: Handle)
    requires Tracks(slots, issued, live) && 1 <= g.id <= |slots| && g.generation > slots[g.id - 1].generation
    ensures g !in issued && g !in live
  {
    assert g in issued ==> Behind(slots, g);
  }

  class Table {
    var slots: seq<Slot>
    var free: seq<nat>
    ghost var issued: set<Handle>       // every handle ever handed out,
    ghost var live: map<Handle, int>    // and those not yet removed, with their items

    /** The free list names the slots without an item, each once. */
    ghost predicate Valid()
      reads this
    {
      && Distinct(free)
      && (forall i :: 0 <= i < |slots| ==> (slots[i].item.Some? <==> i !in free))
      && (forall i :: i in free ==> i < |slots|)
      && Tracks(slots, issued, live)
    }

    constructor ()
      ensures Valid() && issued == {} && live == map[]
    {
      slots, free, issued, live := [], [], {}, map[];
    }

    /** Any handle whatever: it resolves exactly if it was handed out and not removed since. */
    method Get(h: Handle) returns (item: Option<int>)
      requires Valid()
      ensures item == if h in live then Some(live[h]) else None
    {
      assert Lookup(slots, h) == if h in live then Some(live[h]) else None;
      if h.id == 0 || h.id > |slots| { return None; }
      var s := slots[h.id - 1];
      if s.item.None? || s.generation != h.generation {
        assert Lookup(slots, h) == None;
        return None;
      }
      return s.item;
    }

    /** A free slot, reused if there is one. */
    method TakeSlot() returns (slot: nat)
      requires Valid()
      modifies this`slots, this`free
      ensures slot < |slots| && slots[slot].item.None? && slot !in free && Distinct(free) && |slots| >= |old(slots)|
      ensures forall i :: 0 <= i < |slots| && i != slot ==> i < |old(slots)| && slots[i] == old(slots)[i] && (slots[i].item.Some? <==> i !in free)
      ensures slot < |old(slots)| ==> slots == old(slots)
      ensures slot >= |old(slots)| ==> |slots| == slot + 1 == |old(slots)| + 1
      ensures forall i :: i in free ==> i < |slots|
    {
      if free != [] {
        ghost var taken := free;
        slot := free[|free| - 1];
        assert slot in taken;
        free := free[..|free| - 1];
        assert taken == free + [slot];
        assert forall i :: i in taken <==> i in free || i == slot;
      } else {
        slot := |slots|;
        slots := slots + [Slot(None, 1)];
      }
    }

    /** Hands out a handle that was never handed out before; no other handle resolves differently. */
    method Add(item: int) returns (h: Handle)
      requires Valid()
      modifies this
      ensures Valid() && h !in old(issued) && issued == old(issued) + {h} && live == old(live)[h := item]
    {
      var slot := TakeSlot();
      h := Handle(slot + 1, slots[slot].generation);
      slots := slots[slot := slots[slot].(item := Some(item))];
      TracksAdd(old(slots), slots, issued, live, slot, item);
      issued := issued + {h};
      live := live[h := item];
    }

    /** Retires a handle; from then on it never resolves again, and no other handle resolves differently. */
    method Remove(h: Handle)
      requires Valid()
      modifies this
      ensures Valid() && issued == old(issued) && live == old(live) - {h}
    {
      var item := Get(h);
      if item.None? {
        assert live - {h} == live;
        return;
      }
      TracksRemove(slots, issued, live, h);
      slots := slots[h.id - 1 := Slot(None, slots[h.id - 1].generation + 1)];
      free := free + [h.id - 1];
      live := live - {h};
    }
  }
}

/** Calls from the host into a script as a state machine: tokens, the borrowed execution context, suspension
    and re-entry. */
module HostProtocol {
  import opened Collections

  datatype RunStatus = Completed | Suspended | Failed | Cancelled
  datatype Begin = Acquired | Nested | Refused

  /** What is on the interpreter's stack: a token's call, a resumption, or a sliced top-level run. A call runs on
      an Invocation object of the host, known by a number here. The token it was called with may have been moved
      out of the object meanwhile and another one in: one of this instance, one of another (not `mine`), or none
      (0). */
  datatype Frame =
    | CallFrame(token: nat, begin: Begin, args: seq<int>, called: nat, invocation: nat, mine: bool)
    | ResumeFrame(host: bool, owner: nat, retain: bool)
    | SliceFrame

  datatype Inst = Inst(
    // the instance
    callSeq: nat, armedSeq: nat, pendingSeq: nat, resultSeq: nat, hostCallPending: bool, pendingBegin: Begin,
    suspendedHostCall: bool, suspendedOwnerAlive: bool, suspendedSeq: nat, callStatus: RunStatus, callArgs: seq<int>,
    invocationCount: nat, destroyed: bool,
    // its worker: whether it holds an execution context, whether that run is stopped, what is running
    ctxHeld: bool, stopped: bool, frames: seq<Frame>,
    // history: live tokens, leases of the context so far and those closed, the token that started the suspended
    // call, and the one that started the call whose result the return slot holds
    tokens: set<nat>, leases: nat, closed: seq<nat>, suspendedOf: nat, slotOwner: nat)

  function Init(): Inst {
    Inst(0, 0, 0, 0, false, Acquired, false, false, 0, Failed, [], 0, false, false, false, [], {}, 0, [], 0, 0)
  }

  // ---------------------------------------------------------------- steps

  function Released(s: Inst): Inst { s.(closed := s.closed + [s.leases], ctxHeld := false, stopped := false, slotOwner := 0) }

  function LeaseEnded(s: Inst, begin: Begin): Inst { if begin != Acquired || s.stopped then s else Released(s) }

  function Flushed(s: Inst): Inst {
    if !s.hostCallPending then s else LeaseEnded(s.(hostCallPending := false, pendingSeq := 0), s.pendingBegin)
  }

  function Called(s: Inst, fits: bool): (Inst, nat) {
    if s.destroyed || s.armedSeq != 0 || s.stopped then (s, 0)
    else
      var f := Flushed(s);
      if !fits then (f, 0)
      else
        var token := f.callSeq + 1;
        (f.(callArgs := [], callStatus := Failed, callSeq := token, armedSeq := token,
            invocationCount := f.invocationCount + 1, tokens := f.tokens + {token}), token)
  }

  function Argument(s: Inst, token: nat, v: int): Inst {
    if token != 0 && s.armedSeq == token then s.(callArgs := s.callArgs + [v]) else s
  }

  /** The worker lends its context, nests the call in what is running, or refuses. */
  function Lent(s: Inst, pool: bool): (Inst, Begin) {
    if s.ctxHeld then (s, if s.stopped then Refused else Nested)
    else if pool then (s.(ctxHeld := true, leases := s.leases + 1, slotOwner := 0), Acquired)
    else (s, Refused)
  }

  /** A running call's Invocation holds this token of the instance. */
  predicate Holds(f: Frame, token: nat) { f.CallFrame? && f.mine && f.token == token }

  /** The number of the running object that holds the token, or else a new one. */
  function Holder(frames: seq<Frame>, token: nat): nat {
    if frames == [] then 0
    else
      var top := |frames| - 1;
      var below := Holder(frames[..top], token);
      if below != top then below else if Holds(frames[top], token) then frames[top].invocation else |frames|
  }

  function InvokeBegun(s: Inst, token: nat, pool: bool): Inst {
    if token == 0 || s.armedSeq != token then s
    else
      var f := Flushed(s.(armedSeq := 0));
      var (l, begin) := Lent(f, pool);
      if begin == Refused then Flushed(l.(callArgs := [], resultSeq := token, callStatus := Failed))
      else
        l.(callArgs := [], frames := l.frames + [CallFrame(token, begin, l.callArgs, token, Holder(l.frames, token), true)],
          slotOwner := 0)
  }

  function InvokeEnded(s: Inst, outcome: RunStatus): Inst
    requires s.frames != [] && s.frames[|s.frames| - 1].CallFrame?
  {
    var f := s.frames[|s.frames| - 1];
    var p := s.(frames := s.frames[..|s.frames| - 1], resultSeq := f.token);
    if outcome == Suspended then
      Flushed(p.(stopped := true)).(slotOwner := 0, callStatus := Suspended, suspendedHostCall := true, suspendedOwnerAlive := true,
        suspendedSeq := f.token, suspendedOf := f.called)
    else
      Flushed(p.(callStatus := outcome)).(hostCallPending := true, pendingBegin := f.begin, pendingSeq := f.token,
        slotOwner := if outcome == Completed then f.called else 0)
  }

  function Unarmed(s: Inst, token: nat): Inst { if s.armedSeq == token then s.(armedSeq := 0, callArgs := []) else s }

  function Disowned(s: Inst, token: nat): Inst { if s.pendingSeq == token then Flushed(s) else s }

  /** The token is gone: what it alone still held is given back. */
  function Finished(s: Inst, token: nat): Inst { Forgotten(Disowned(Unarmed(s, token), token), token) }

  function Forgotten(b: Inst, token: nat): Inst {
    var c := if b.suspendedHostCall && b.suspendedSeq == token then b.(suspendedOwnerAlive := false) else b;
    c.(invocationCount := if c.invocationCount > 0 then c.invocationCount - 1 else 0, tokens := c.tokens - {token})
  }

  /** What moving a token into an object, or nothing (0), does to the frames: the object holds it, and the object
      that held it before holds none. */
  function Rebound(f: Frame, invocation: nat, token: nat, mine: bool): Frame {
    if !f.CallFrame? then f
    else if f.invocation == invocation then f.(token := token, mine := mine)
    else if mine && token != 0 && Holds(f, token) then f.(token := 0)
    else f
  }

  function AllRebound(frames: seq<Frame>, invocation: nat, token: nat, mine: bool): (r: seq<Frame>)
    ensures |r| == |frames| && forall i :: 0 <= i < |frames| ==> r[i] == Rebound(frames[i], invocation, token, mine)
  {
    seq(|frames|, i requires 0 <= i < |frames| => Rebound(frames[i], invocation, token, mine))
  }

  /** The Invocation of a running call is assigned: the token it held is given up first. */
  function Assigned(s: Inst, i: nat, token: nat, mine: bool): Inst
    requires i < |s.frames| && s.frames[i].CallFrame?
  {
    var f := s.frames[i];
    var g := if f.mine && f.token != 0 then Finished(s, f.token) else s;
    g.(frames := AllRebound(g.frames, f.invocation, token, mine))
  }

  /** The Invocation of a running call is moved from: its token lives on elsewhere. */
  function MovedOut(s: Inst, i: nat): Inst
    requires i < |s.frames| && s.frames[i].CallFrame?
  {
    s.(frames := AllRebound(s.frames, s.frames[i].invocation, 0, true))
  }

  predicate MayResume(s: Inst) { !s.destroyed && s.armedSeq == 0 && s.frames == [] && !s.hostCallPending && s.ctxHeld }

  function ResumeBegun(s: Inst): Inst {
    if !MayResume(s) then s
    else s.(stopped := false, slotOwner := 0,
            frames := [ResumeFrame(s.suspendedHostCall, s.suspendedSeq, s.suspendedHostCall && s.suspendedOwnerAlive)])
  }

  /** The run has ended: the worker keeps the context only if stopped, or completed with a result to retain. */
  function Settled(s: Inst, status: RunStatus, retain: bool): Inst {
    if status == Suspended then s.(stopped := true, frames := [], slotOwner := 0)
    else if status == Completed && retain then s.(frames := [], slotOwner := 0)
    else Released(s.(frames := []))
  }

  function ResumeEnded(s: Inst, status: RunStatus): Inst
    requires s.frames != [] && s.frames[0].ResumeFrame?
  {
    var f := s.frames[0];
    var w := Settled(s, status, f.retain);
    if !f.host then w
    else
      var r := Flushed(w.(resultSeq := f.owner, callStatus := status));
      if status == Suspended then r
      else
        var o :=
          if status == Completed && f.retain then
            if r.suspendedOwnerAlive then
              r.(hostCallPending := true, pendingBegin := Acquired, pendingSeq := f.owner, slotOwner := r.suspendedOf)
            else LeaseEnded(r, Acquired)
          else r;
        o.(suspendedHostCall := false, suspendedOwnerAlive := false, suspendedSeq := 0)
  }

  function SliceBegun(s: Inst, ok: bool): Inst {
    if s.destroyed || s.armedSeq != 0 || s.frames != [] then s
    else
      var f := Flushed(s);
      if f.ctxHeld || !ok then f
      else f.(ctxHeld := true, leases := f.leases + 1, frames := [SliceFrame], slotOwner := 0)
  }

  function SliceEnded(s: Inst, status: RunStatus): Inst { Settled(s, status, false) }

  function CancelledAll(s: Inst): Inst {
    if s.destroyed || s.frames != [] then s
    else
      var f := Flushed(s).(callArgs := []);
      (if f.ctxHeld then Released(f) else f).(
        suspendedHostCall := false, suspendedOwnerAlive := false, suspendedSeq := 0, callStatus := Cancelled)
  }

  function Destroyed(s: Inst): Inst {
    if s.destroyed || s.invocationCount != 0 || s.frames != [] then s
    else
      var f := Flushed(s);
      (if f.ctxHeld then Released(f) else f).(callArgs := [], suspendedHostCall := false, suspendedOwnerAlive := false,
                                              suspendedSeq := 0, destroyed := true)
  }

  /** A token whose result can be read: it owns the pending result, and its call completed. */
  predicate Readable(s: Inst, token: nat) { s.pendingSeq == token && s.hostCallPending && s.callStatus == Completed }

  // ---------------------------------------------------------------- what always holds

  /** Every lease but the present one was closed, once, in order. */
  predicate LeasesOk(s: Inst) {
    |s.closed| + (if s.ctxHeld then 1 else 0) == s.leases && forall i :: 0 <= i < |s.closed| ==> s.closed[i] == i + 1
  }

  predicate TokensOk(s: Inst) {
    && s.invocationCount == |s.tokens|
    && (forall t :: t in s.tokens ==> 1 <= t <= s.callSeq)
    && (s.armedSeq != 0 ==> s.armedSeq in s.tokens)
    && (if s.hostCallPending then s.pendingSeq == s.resultSeq else s.pendingSeq == 0)
  }

  predicate Running(s: Inst, token: nat) { exists i :: 0 <= i < |s.frames| && Holds(s.frames[i], token) }

  /** What running calls' objects hold: each at most one token, no token in two, and tokens of the instance live. */
  predicate ObjectsOk(frames: seq<Frame>, tokens: set<nat>) {
    && (forall i :: 0 <= i < |frames| && frames[i].CallFrame? ==> frames[i].invocation <= i)
    && (forall i, j :: 0 <= i < j < |frames| && frames[i].CallFrame? && frames[j].CallFrame? ==> Together(frames[i], frames[j]))
    && (forall i :: 0 <= i < |frames| && frames[i].CallFrame? && frames[i].mine && frames[i].token != 0 ==> frames[i].token in tokens)
  }

  predicate Together(f: Frame, g: Frame)
    requires f.CallFrame? && g.CallFrame?
  {
    && (f.invocation == g.invocation ==> f.token == g.token && f.mine == g.mine)
    && (f.mine && g.mine && f.token == g.token != 0 ==> f.invocation == g.invocation)
  }

  /** The bottom frame holds the context, all others are calls nested in it. */
  predicate FramesOk(s: Inst) {
    && (s.frames != [] ==> s.ctxHeld && !s.stopped)
    && (forall i :: 0 < i < |s.frames| ==> s.frames[i].CallFrame? && s.frames[i].begin == Nested)
    && (s.frames != [] && s.frames[0].CallFrame? ==> s.frames[0].begin == Acquired)
    && (s.suspendedHostCall ==> s.stopped || (s.frames != [] && s.frames[0].ResumeFrame? && s.frames[0].host))
    && (s.frames != [] && s.frames[0].ResumeFrame? ==> ResumeOk(s, s.frames[0]))
  }

  predicate ResumeOk(s: Inst, f: Frame)
    requires f.ResumeFrame?
  {
    && (f.host ==> s.suspendedHostCall && f.owner == s.suspendedSeq)
    && (f.retain ==> f.host) && (f.host && s.suspendedOwnerAlive ==> f.retain)
  }

  predicate LendingOk(s: Inst) {
    && (s.stopped ==> s.ctxHeld && s.frames == [])
    && (s.suspendedHostCall && s.stopped ==> !s.hostCallPending)
    && (s.hostCallPending ==> s.pendingBegin != Refused)
    && (s.hostCallPending && s.pendingBegin == Acquired ==> s.ctxHeld && s.frames == [] && !s.stopped)
    && (s.ctxHeld && s.frames == [] && !s.stopped ==> s.hostCallPending && s.pendingBegin == Acquired)
    && (s.destroyed ==> s.tokens == {} && s.frames == [] && !s.ctxHeld)
  }

  /** The context and the tokens are in order. */
  ghost predicate Sound(s: Inst) { LeasesOk(s) && TokensOk(s) && FramesOk(s) && LendingOk(s) }

  ghost predicate Valid(s: Inst) { Sound(s) && ObjectsOk(s.frames, s.tokens) }

  /** While the host leaves the Invocation of a running call alone, each token calls once: it is prepared, runs, is
      suspended or has its result pending, and only one of these at a time. */
  ghost predicate Tidy(s: Inst) {
    && (s.hostCallPending ==> s.pendingSeq in s.tokens && s.pendingSeq != s.armedSeq && !Running(s, s.pendingSeq))
    && (s.suspendedHostCall && s.suspendedOwnerAlive ==> s.suspendedSeq in s.tokens)
    && (s.suspendedHostCall ==> 1 <= s.suspendedSeq <= s.callSeq && s.suspendedSeq != s.armedSeq && !Running(s, s.suspendedSeq))
    && (s.suspendedHostCall ==> s.suspendedSeq == s.suspendedOf)
    && (s.suspendedHostCall && s.hostCallPending ==> s.suspendedSeq != s.pendingSeq)
    && (forall i :: 0 <= i < |s.frames| && s.frames[i].CallFrame? ==> TidyFrame(s, s.frames[i]))
    && (forall i, j :: 0 <= i < j < |s.frames| && s.frames[i].CallFrame? && s.frames[j].CallFrame? ==> s.frames[i].token != s.frames[j].token)
  }

  /** The object still holds the token it was called with. */
  predicate TidyFrame(s: Inst, f: Frame)
    requires f.CallFrame?
  {
    f.mine && f.token == f.called && f.token in s.tokens && f.token != s.armedSeq
  }

  lemma FlushKeeps(s: Inst)
    requires Valid(s)
    ensures Valid(Flushed(s)) && !Flushed(s).hostCallPending
    ensures Flushed(s) == s.(hostCallPending := false, pendingSeq := 0, ctxHeld := Flushed(s).ctxHeld, closed := Flushed(s).closed,
                             slotOwner := Flushed(s).slotOwner)
    ensures Flushed(s).ctxHeld ==> s.frames != [] || s.stopped
  {
  }

  lemma CallKeeps(s: Inst, fits: bool)
    requires Valid(s)
    ensures var (t, token) := Called(s, fits);
      && Valid(t)
      && (token != 0 ==> s.armedSeq == 0 && token !in s.tokens && t.tokens == s.tokens + {token} && t.armedSeq == token)
      && (token == 0 ==> t.tokens == s.tokens && t.armedSeq == s.armedSeq && t.callArgs == s.callArgs)
  {
    FlushKeeps(s);
  }

  lemma InvokeBeginKeeps(s: Inst, token: nat, pool: bool)
    requires Valid(s) && token in s.tokens
    ensures Valid(InvokeBegun(s, token, pool))
  {
    if s.armedSeq == token {
      var u := s.(armedSeq := 0);
      FlushKeeps(u);
      LendKeeps(Flushed(u), token, pool);
    }
  }

  /** The number found is the holder's, if there is one. */
  lemma {:induction false} HolderIs(frames: seq<Frame>, token: nat)
    requires forall i :: 0 <= i < |frames| && frames[i].CallFrame? ==> frames[i].invocation <= i
    ensures Holder(frames, token) <= |frames|
    ensures Holder(frames, token) < |frames| ==> exists i :: 0 <= i < |frames| && Holds(frames[i], token) && frames[i].invocation == Holder(frames, token)
    ensures Holder(frames, token) == |frames| ==> forall i :: 0 <= i < |frames| ==> !Holds(frames[i], token)
  {
    if frames != [] { HolderIs(frames[..|frames| - 1], token); }
  }

  lemma LendKeeps(f: Inst, token: nat, pool: bool)
    requires Valid(f) && !f.hostCallPending && f.armedSeq == 0 && token in f.tokens && (f.ctxHeld ==> f.frames != [] || f.stopped)
    ensures var (l, begin) := Lent(f, pool);
      var frame := CallFrame(token, begin, l.callArgs, token, Holder(l.frames, token), true);
      && (begin == Refused ==> Valid(Flushed(l.(callArgs := [], resultSeq := token, callStatus := Failed))))
      && (begin != Refused ==> Valid(l.(callArgs := [], frames := l.frames + [frame], slotOwner := 0)))
  {
    HolderIs(f.frames, token);
    var frame := CallFrame(token, Lent(f, pool).1, f.callArgs, token, Holder(f.frames, token), true);
    forall i | 0 <= i < |f.frames| && f.frames[i].CallFrame? ensures Together(f.frames[i], frame) {
      if frame.invocation < |f.frames| {
        var k :| 0 <= k < |f.frames| && Holds(f.frames[k], token) && f.frames[k].invocation == frame.invocation;
        if i != k { assert if i < k then Together(f.frames[i], f.frames[k]) else Together(f.frames[k], f.frames[i]); }
      }
    }
  }

  lemma InvokeEndKeeps(s: Inst, outcome: RunStatus)
    requires Valid(s) && s.frames != [] && s.frames[|s.frames| - 1].CallFrame? && outcome != Cancelled
    requires outcome == Suspended ==> |s.frames| == 1
    ensures Valid(InvokeEnded(s, outcome))
  {
  }

  /** Giving up a token disturbs nothing but the objects of running calls that hold it. */
  lemma FinishKeeps(s: Inst, token: nat)
    requires Sound(s) && token in s.tokens
    ensures Sound(Finished(s, token))
    ensures Valid(s) && !Running(s, token) ==> Valid(Finished(s, token))
    ensures Finished(s, token).frames == s.frames && Finished(s, token).tokens == s.tokens - {token}
    ensures Finished(s, token).armedSeq == if s.armedSeq == token then 0 else s.armedSeq
  {
    UnarmKeeps(s, token);
    ForgetKeeps(Disowned(Unarmed(s, token), token), token);
    if Valid(s) && !Running(s, token) { ObjectsLeft(s.frames, s.tokens, token); }
  }

  lemma ObjectsLeft(frames: seq<Frame>, tokens: set<nat>, token: nat)
    requires ObjectsOk(frames, tokens) && forall i :: 0 <= i < |frames| ==> !Holds(frames[i], token)
    ensures ObjectsOk(frames, tokens - {token})
  {
  }

  lemma UnarmKeeps(s: Inst, token: nat)
    requires Sound(s)
    ensures Sound(Unarmed(s, token)) && Sound(Disowned(Unarmed(s, token), token))
    ensures var d := Disowned(Unarmed(s, token), token);
      d.frames == s.frames && d.tokens == s.tokens && d.armedSeq == if s.armedSeq == token then 0 else s.armedSeq
  {
  }

  lemma ForgetKeeps(b: Inst, token: nat)
    requires Sound(b) && token in b.tokens && b.armedSeq != token
    ensures Sound(Forgotten(b, token))
    ensures var c := Forgotten(b, token); c.frames == b.frames && c.tokens == b.tokens - {token} && c.armedSeq == b.armedSeq
  {
  }

  lemma AssignKeeps(s: Inst, i: nat, token: nat, mine: bool)
    requires Valid(s) && i < |s.frames| && s.frames[i].CallFrame?
    requires mine && token != 0 ==> token in s.tokens && !Holds(s.frames[i], token)
    ensures Valid(Assigned(s, i, token, mine))
  {
    var f := s.frames[i];
    if f.mine && f.token != 0 {
      FinishKeeps(s, f.token);
      RebindKeeps(s, Finished(s, f.token), i, token, mine);
    } else {
      RebindKeeps(s, s, i, token, mine);
    }
  }

  lemma MoveOutKeeps(s: Inst, i: nat)
    requires Valid(s) && i < |s.frames| && s.frames[i].CallFrame?
    ensures Valid(MovedOut(s, i))
  {
    RebindKeeps(s, s, i, 0, true);
  }

  lemma RebindKeeps(s: Inst, g: Inst, i: nat, token: nat, mine: bool)
    requires ObjectsOk(s.frames, s.tokens) && Sound(g) && g.frames == s.frames && i < |s.frames| && s.frames[i].CallFrame?
    requires mine && token != 0 ==> token in g.tokens
    requires forall t :: t in s.tokens && !Holds(s.frames[i], t) ==> t in g.tokens
    ensures Valid(g.(frames := AllRebound(g.frames, g.frames[i].invocation, token, mine)))
  {
    ReboundKeeps(s, i, token, mine, g.tokens);
  }

  lemma ReboundKeeps(s: Inst, i: nat, token: nat, mine: bool, left: set<nat>)
    requires ObjectsOk(s.frames, s.tokens) && i < |s.frames| && s.frames[i].CallFrame?
    requires mine && token != 0 ==> token in left
    requires forall t :: t in s.tokens && !Holds(s.frames[i], t) ==> t in left
    ensures ObjectsOk(AllRebound(s.frames, s.frames[i].invocation, token, mine), left)
  {
    var f, frames := s.frames[i], AllRebound(s.frames, s.frames[i].invocation, token, mine);
    forall j | 0 <= j < |frames| && frames[j].CallFrame? && frames[j].mine && frames[j].token != 0 ensures frames[j].token in left {
      if s.frames[j].invocation != f.invocation {
        assert if i < j then Together(f, s.frames[j]) else Together(s.frames[j], f);
      }
    }
  }

  lemma ResumeBeginKeeps(s: Inst)
    requires Valid(s)
    ensures Valid(ResumeBegun(s))
  {
  }

  lemma ResumeEndKeeps(s: Inst, status: RunStatus)
    requires Valid(s) && |s.frames| == 1 && s.frames[0].ResumeFrame? && status != Cancelled
    ensures Valid(ResumeEnded(s, status))
  {
  }

  lemma SliceBeginKeeps(s: Inst, ok: bool)
    requires Valid(s)
    ensures Valid(SliceBegun(s, ok))
  {
    FlushKeeps(s);
  }

  lemma SliceEndKeeps(s: Inst, status: RunStatus)
    requires Valid(s) && |s.frames| == 1 && s.frames[0].SliceFrame? && status != Cancelled
    ensures Valid(SliceEnded(s, status))
  {
  }

  lemma CancelKeeps(s: Inst)
    requires Valid(s)
    ensures Valid(CancelledAll(s))
  {
    FlushKeeps(s);
  }

  lemma DestroyKeeps(s: Inst)
    requires Valid(s)
    ensures Valid(Destroyed(s))
  {
    FlushKeeps(s);
  }

  // ---------------------------------------------------------------- what each step means for the host

  /** The present lease of the context is closed, or none is. */
  predicate Closes(s: Inst, t: Inst, now: bool) {
    t.closed == if now then s.closed + [s.leases] else s.closed
  }

  predicate SameTokens(s: Inst, t: Inst) { t.tokens == s.tokens && t.armedSeq == s.armedSeq && t.callArgs == s.callArgs }

  ghost predicate NothingReadable(t: Inst) { forall u: nat :: u != 0 ==> !Readable(t, u) }

  /** Giving up the pending result: nobody can read one any more, and the lease is closed if the result's call
      had borrowed the context. */
  ghost predicate GivesUpResult(s: Inst, t: Inst) {
    && !t.hostCallPending && NothingReadable(t) && SameTokens(s, t) && t.frames == s.frames && t.stopped == s.stopped
    && t.leases == s.leases && Closes(s, t, s.hostCallPending && s.pendingBegin == Acquired)
  }

  /** Preparing a call gives one new token, which is then the armed one with no arguments, or none. */
  ghost predicate Prepares(s: Inst, t: Inst, fits: bool, token: nat) {
    && (token != 0 <==> !s.destroyed && s.armedSeq == 0 && !s.stopped && fits)
    && (token != 0 ==> token !in s.tokens && t.tokens == s.tokens + {token} && t.armedSeq == token && t.callArgs == [] && NothingReadable(t))
    && (token != 0 ==> token == s.callSeq + 1 == t.callSeq && t.callStatus == Failed)
    && (token == 0 ==> SameTokens(s, t))
    && t.frames == s.frames && t.leases == s.leases
  }

  /** Borrowing opens one lease when none is open; otherwise nothing changes, and the call may nest only in a
      run that is not stopped. */
  predicate Borrows(s: Inst, t: Inst, pool: bool, begin: Begin) {
    && (begin == Acquired <==> !s.ctxHeld && pool) && (begin == Nested <==> s.ctxHeld && !s.stopped)
    && (begin == Acquired ==> t.ctxHeld && t.leases == s.leases + 1) && (begin != Acquired ==> t == s)
    && t.closed == s.closed && SameTokens(s, t) && t.frames == s.frames
  }

  /** An invocation runs exactly if its token is armed and the call can nest or borrow. It then runs on top of
      what was running, with the arguments prepared for it; otherwise it fails and leaves nothing armed. */
  ghost predicate Starts(s: Inst, t: Inst, token: nat, pool: bool, running: bool) {
    && (running <==> token != 0 && s.armedSeq == token && (s.frames != [] || (!s.stopped && pool)))
    && (token == 0 || s.armedSeq != token ==> t == s)
    && (token != 0 && s.armedSeq == token ==> t.armedSeq == 0 && t.callArgs == [] && NothingReadable(t))
    && t.tokens == s.tokens
    && (!running ==> t.frames == s.frames && (t != s ==> t.callStatus == Failed && t.resultSeq == token))
    && (running ==> |t.frames| == |s.frames| + 1 && t.frames[..|s.frames|] == s.frames)
    && (running ==> Started(t.frames[|s.frames|], token, if s.frames == [] then Acquired else Nested, s.callArgs))
    && t.leases == s.leases + if running && s.frames == [] then 1 else 0
  }

  predicate Started(f: Frame, token: nat, begin: Begin, args: seq<int>) {
    f.CallFrame? && f.called == f.token == token && f.mine && f.begin == begin && f.args == args
  }

  /** The innermost call ends: the token that its object holds by now owns the result, and can read it exactly if the call completed; or it is
      suspended with its context. No lease is closed. */
  ghost predicate Returns(s: Inst, t: Inst, outcome: RunStatus)
    requires s.frames != [] && s.frames[|s.frames| - 1].CallFrame?
  {
    var token, called := s.frames[|s.frames| - 1].token, s.frames[|s.frames| - 1].called;
    && t.frames == s.frames[..|s.frames| - 1] && SameTokens(s, t) && t.resultSeq == token && t.callStatus == outcome
    && (forall u: nat :: u != 0 ==> (Readable(t, u) <==> u == token && outcome == Completed))
    && (outcome == Completed ==> t.slotOwner == called)
    && (outcome == Suspended <==> t.stopped)
    && (outcome == Suspended ==> t.suspendedHostCall && t.suspendedSeq == token && t.suspendedOf == called)
    && t.leases == s.leases && t.closed == s.closed && t.ctxHeld
  }

  /** A token is given up with what it owns, and nothing another token owns is touched. */
  ghost predicate GivesUpToken(s: Inst, t: Inst, token: nat) {
    && t.tokens == s.tokens - {token} && t.frames == s.frames && t.leases == s.leases
    && Closes(s, t, s.pendingSeq == token && s.pendingBegin == Acquired)
    && !Readable(t, token) && (forall u: nat :: u != 0 && u != token ==> (Readable(t, u) <==> Readable(s, u)))
    && (s.armedSeq == token ==> t.armedSeq == 0 && t.callArgs == []) && (s.armedSeq != token ==> t.armedSeq == s.armedSeq && t.callArgs == s.callArgs)
    && !(t.suspendedHostCall && t.suspendedOwnerAlive && t.suspendedSeq == token)
  }

  /** The Invocation of a running call is assigned, or moved from: the token it held before is given up in the first
      case. No other token loses anything, no lease is touched, and the calls themselves go on. */
  ghost predicate Rebinds(s: Inst, t: Inst, i: nat, token: nat, mine: bool, gone: nat)
    requires i < |s.frames| && s.frames[i].CallFrame?
  {
    && |t.frames| == |s.frames| && t.frames[i] == s.frames[i].(token := token, mine := mine)
    && (forall j :: 0 <= j < |s.frames| && t.frames[j] != s.frames[j] ==> SameCall(s.frames[j], t.frames[j]))
    && (forall j :: 0 <= j < |s.frames| && t.frames[j] != s.frames[j] && s.frames[j].invocation != s.frames[i].invocation ==>
         Holds(s.frames[j], token) && t.frames[j].token == 0)
    && t.tokens == s.tokens - {gone} && t.armedSeq == (if s.armedSeq == gone then 0 else s.armedSeq)
    && (forall u: nat :: u != 0 ==> (Readable(t, u) <==> Readable(s, u) && u != gone))
    && t.leases == s.leases && t.closed == s.closed && t.ctxHeld == s.ctxHeld
  }

  predicate SameCall(f: Frame, g: Frame) { f.CallFrame? && g.CallFrame? && g == f.(token := g.token, mine := g.mine) }

  /** A stopped run, and only that, can be resumed, and only while no call is prepared and no result pending; it
      goes on in the lease it had. */
  predicate Resumes(s: Inst, t: Inst, running: bool) {
    && (running <==> s.stopped && s.armedSeq == 0 && !s.hostCallPending)
    && (!running ==> t == s)
    && (running ==> |t.frames| == 1 && t.frames[0].ResumeFrame? && !t.stopped)
    && t.ctxHeld == s.ctxHeld && t.leases == s.leases && t.closed == s.closed && SameTokens(s, t)
  }

  /** The resumed run ends: a suspended host call that completes while its token lives gets its result, out of the
      lease it had; one that stops again keeps it; every other ending closes it. */
  ghost predicate ResumeReturns(s: Inst, t: Inst, status: RunStatus)
    requires s.frames != [] && s.frames[0].ResumeFrame?
  {
    var f := s.frames[0];
    var delivered := status == Completed && f.host && s.suspendedOwnerAlive;
    && t.frames == [] && SameTokens(s, t) && t.leases == s.leases
    && Closes(s, t, status != Suspended && !delivered) && (t.stopped <==> status == Suspended)
    && (delivered ==> Readable(t, f.owner) && t.slotOwner == s.suspendedOf)
    && (f.host && !delivered ==> NothingReadable(t))
    && (f.host && status != Suspended ==> !t.suspendedHostCall)
    && (f.host ==> t.callStatus == status && t.resultSeq == f.owner)
  }

  /** A sliced run starts exactly on an idle instance, in a lease of its own. */
  ghost predicate StartsSlice(s: Inst, t: Inst, found: bool, running: bool) {
    && (running <==> !s.destroyed && s.armedSeq == 0 && s.frames == [] && !s.stopped && found)
    && (running ==> t.frames == [SliceFrame] && t.leases == s.leases + 1 && NothingReadable(t))
    && (!running ==> t.frames == s.frames && t.leases == s.leases)
    && SameTokens(s, t)
  }

  /** A cancellation, refused while anything runs, closes the open lease and leaves nothing to resume or read. */
  ghost predicate CancelsAll(s: Inst, t: Inst, done: bool) {
    && (done <==> !s.destroyed && s.frames == [])
    && (!done ==> t == s)
    && (done ==> !t.ctxHeld && !t.stopped && !t.suspendedHostCall && NothingReadable(t) && t.callArgs == [] && Closes(s, t, s.ctxHeld))
    && (done ==> t.callStatus == Cancelled)
    && t.tokens == s.tokens && t.armedSeq == s.armedSeq && t.leases == s.leases
  }

  /** An instance is destroyed only without a living token or a run, and then holds no context. */
  predicate Destroys(s: Inst, t: Inst) {
    && (t.destroyed <==> s.destroyed || (s.tokens == {} && s.frames == []))
    && (!t.destroyed ==> t == s)
    && (t.destroyed && !s.destroyed ==> !t.ctxHeld && Closes(s, t, s.ctxHeld))
    && t.tokens == s.tokens && t.leases == s.leases
  }

  lemma FlushMeans(s: Inst)
    requires Valid(s)
    ensures Valid(Flushed(s)) && GivesUpResult(s, Flushed(s))
  {
    FlushKeeps(s);
  }

  lemma CallMeans(s: Inst, fits: bool)
    requires Valid(s)
    ensures var (t, token) := Called(s, fits); Valid(t) && Prepares(s, t, fits, token)
  {
    CallKeeps(s, fits);
    FlushKeeps(s);
  }

  lemma InvokeMeans(s: Inst, token: nat, pool: bool)
    requires Valid(s) && token in s.tokens
    ensures var t := InvokeBegun(s, token, pool);
      Valid(t) && Starts(s, t, token, pool, |t.frames| > |s.frames|)
  {
    InvokeBeginKeeps(s, token, pool);
    if s.armedSeq == token { FlushKeeps(s.(armedSeq := 0)); }
  }

  lemma ReturnMeans(s: Inst, outcome: RunStatus)
    requires Valid(s) && s.frames != [] && s.frames[|s.frames| - 1].CallFrame? && outcome != Cancelled
    requires outcome == Suspended ==> |s.frames| == 1
    ensures Valid(InvokeEnded(s, outcome)) && Returns(s, InvokeEnded(s, outcome), outcome)
  {
    InvokeEndKeeps(s, outcome);
    FlushKeeps(s);
  }

  lemma FinishMeans(s: Inst, token: nat)
    requires Sound(s) && token in s.tokens
    ensures Sound(Finished(s, token)) && GivesUpToken(s, Finished(s, token), token)
    ensures Valid(s) && !Running(s, token) ==> Valid(Finished(s, token))
    ensures s.frames != [] ==> Finished(s, token).ctxHeld == s.ctxHeld
  {
    FinishKeeps(s, token);
    UnarmKeeps(s, token);
  }

  lemma AssignMeans(s: Inst, i: nat, token: nat, mine: bool)
    requires Valid(s) && i < |s.frames| && s.frames[i].CallFrame?
    requires mine && token != 0 ==> token in s.tokens && !Holds(s.frames[i], token)
    ensures Valid(Assigned(s, i, token, mine))
    ensures Rebinds(s, Assigned(s, i, token, mine), i, token, mine, if s.frames[i].mine then s.frames[i].token else 0)
  {
    AssignKeeps(s, i, token, mine);
    var f := s.frames[i];
    if f.mine && f.token != 0 {
      FinishMeans(s, f.token);
      RebindMeans(s, Finished(s, f.token), i, token, mine, f.token);
    }
  }

  lemma RebindMeans(s: Inst, g: Inst, i: nat, token: nat, mine: bool, gone: nat)
    requires Valid(s) && i < |s.frames| && s.frames[i].CallFrame? && GivesUpToken(s, g, gone) && gone in s.tokens
    requires g.ctxHeld == s.ctxHeld
    ensures Rebinds(s, g.(frames := AllRebound(g.frames, s.frames[i].invocation, token, mine)), i, token, mine, gone)
  {
  }

  lemma MoveOutMeans(s: Inst, i: nat)
    requires Valid(s) && i < |s.frames| && s.frames[i].CallFrame?
    ensures Valid(MovedOut(s, i)) && Rebinds(s, MovedOut(s, i), i, 0, true, 0)
  {
    MoveOutKeeps(s, i);
  }

  lemma ResumeMeans(s: Inst)
    requires Valid(s)
    ensures Valid(ResumeBegun(s)) && Resumes(s, ResumeBegun(s), MayResume(s))
  {
    ResumeBeginKeeps(s);
  }

  lemma ResumeEndMeans(s: Inst, status: RunStatus)
    requires Valid(s) && |s.frames| == 1 && s.frames[0].ResumeFrame? && status != Cancelled
    ensures Valid(ResumeEnded(s, status)) && ResumeReturns(s, ResumeEnded(s, status), status)
  {
    ResumeEndKeeps(s, status);
  }

  lemma SliceMeans(s: Inst, found: bool)
    requires Valid(s)
    ensures var t := SliceBegun(s, found); Valid(t) && StartsSlice(s, t, found, |t.frames| > |s.frames|)
  {
    SliceBeginKeeps(s, found);
    FlushKeeps(s);
  }

  lemma CancelMeans(s: Inst)
    requires Valid(s)
    ensures Valid(CancelledAll(s)) && CancelsAll(s, CancelledAll(s), !s.destroyed && s.frames == [])
  {
    CancelKeeps(s);
    FlushKeeps(s);
  }

  lemma DestroyMeans(s: Inst)
    requires Valid(s)
    ensures Valid(Destroyed(s)) && Destroys(s, Destroyed(s))
  {
    DestroyKeeps(s);
    FlushKeeps(s);
  }

  // ---------------------------------------------------------------- runs

  datatype Event =
    | Call(fits: bool)
    | Arg(token: nat, value: int)
    | InvokeBegin(token: nat, pool: bool)
    | InvokeEnd(outcome: RunStatus)
    | TakeResult(token: nat)
    | TokenGone(token: nat)
    | Assign(frame: nat, token: nat, mine: bool)
    | MoveOut(frame: nat)
    | ResumeBegin
    | ResumeEnd(status: RunStatus)
    | SliceBegin(ok: bool)
    | SliceEnd(status: RunStatus)
    | ScriptRuns
    | HostReturns
    | Cancel
    | Destroy

  /** What can happen next: only live tokens act, runs end innermost first, a nested call does not stop, and no
      Invocation object is destroyed while its own call runs. It may be assigned and moved from, though, and a host
      function that the script has called may set the value it returns. */
  predicate Enabled(s: Inst, e: Event) {
    match e
    case Arg(token, _) => token in s.tokens
    case InvokeBegin(token, _) => token in s.tokens
    case InvokeEnd(outcome) =>
      s.frames != [] && s.frames[|s.frames| - 1].CallFrame? && outcome != Cancelled && (outcome == Suspended ==> |s.frames| == 1)
    case TakeResult(token) => token in s.tokens
    case TokenGone(token) => token in s.tokens && !Running(s, token)
    case Assign(i, token, mine) =>
      && i < |s.frames| && s.frames[i].CallFrame?
      && if mine then token == 0 || (token in s.tokens && !Holds(s.frames[i], token)) else token != 0
    case MoveOut(i) => i < |s.frames| && s.frames[i].CallFrame?
    case ResumeEnd(status) => |s.frames| == 1 && s.frames[0].ResumeFrame? && status != Cancelled
    case SliceEnd(status) => |s.frames| == 1 && s.frames[0].SliceFrame? && status != Cancelled
    case ScriptRuns => s.frames != []
    case HostReturns => s.frames != []
    case _ => true
  }

  function Next(s: Inst, e: Event): Inst
    requires Enabled(s, e)
  {
    match e
    case Call(fits) => Called(s, fits).0
    case Arg(token, v) => Argument(s, token, v)
    case InvokeBegin(token, pool) => InvokeBegun(s, token, pool)
    case InvokeEnd(outcome) => InvokeEnded(s, outcome)
    case TakeResult(token) => Disowned(s, token)
    case TokenGone(token) => Finished(s, token)
    case Assign(i, token, mine) => Assigned(s, i, token, mine)
    case MoveOut(i) => MovedOut(s, i)
    case ResumeBegin => ResumeBegun(s)
    case ResumeEnd(status) => ResumeEnded(s, status)
    case SliceBegin(ok) => SliceBegun(s, ok)
    case SliceEnd(status) => SliceEnded(s, status)
    case ScriptRuns => s.(slotOwner := 0)
    case HostReturns => s.(slotOwner := 0)
    case Cancel => CancelledAll(s)
    case Destroy => Destroyed(s)
  }

  predicate Leads(s: Inst, events: seq<Event>, t: Inst)
    decreases |events|
  {
    if events == [] then t == s else Enabled(s, events[0]) && Leads(Next(s, events[0]), events[1..], t)
  }

  lemma NextKeeps(s: Inst, e: Event)
    requires Valid(s) && Enabled(s, e)
    ensures Valid(Next(s, e))
  {
    match e {
      case Call(fits) => { CallKeeps(s, fits); }
      case InvokeBegin(token, pool) => { InvokeBeginKeeps(s, token, pool); }
      case InvokeEnd(outcome) => { InvokeEndKeeps(s, outcome); }
      case TakeResult(token) => { FlushKeeps(s); }
      case TokenGone(token) => { FinishKeeps(s, token); }
      case Assign(i, token, mine) => { AssignKeeps(s, i, token, mine); }
      case MoveOut(i) => { MoveOutKeeps(s, i); }
      case ResumeBegin => { ResumeBeginKeeps(s); }
      case ResumeEnd(status) => { ResumeEndKeeps(s, status); }
      case SliceBegin(ok) => { SliceBeginKeeps(s, ok); }
      case SliceEnd(status) => { SliceEndKeeps(s, status); }
      case Cancel => { CancelKeeps(s); }
      case Destroy => { DestroyKeeps(s); }
      case _ => { QuietKeeps(s, e); }
    }
  }

  lemma QuietKeeps(s: Inst, e: Event)
    requires Valid(s) && Enabled(s, e) && (e.Arg? || e.ScriptRuns? || e.HostReturns?)
    ensures Valid(Next(s, e))
  {
  }

  lemma {:induction false} RunsStayValid(s: Inst, events: seq<Event>, t: Inst)
    requires Valid(s) && Leads(s, events, t)
    ensures Valid(t)
    decreases |events|
  {
    if events != [] {
      NextKeeps(s, events[0]);
      RunsStayValid(Next(s, events[0]), events[1..], t);
    }
  }

  /** The host neither assigns nor moves from an Invocation whose call runs. */
  predicate Undisturbed(events: seq<Event>) { forall e :: e in events ==> !e.Assign? && !e.MoveOut? }

  lemma NextStaysTidy(s: Inst, e: Event)
    requires Valid(s) && Tidy(s) && Enabled(s, e) && !e.Assign? && !e.MoveOut?
    ensures Tidy(Next(s, e))
  {
    match e {
      case Call(fits) => { CallStaysTidy(s, fits); }
      case InvokeBegin(token, pool) => { BeginStaysTidy(s, token, pool); }
      case InvokeEnd(outcome) => { EndStaysTidy(s, outcome); }
      case TakeResult(token) => { FlushKeeps(s); }
      case TokenGone(token) => { FinishStaysTidy(s, token); }
      case ResumeEnd(status) => { ResumeStaysTidy(s, status); }
      case SliceBegin(ok) => { FlushKeeps(s); }
      case Cancel => { FlushKeeps(s); }
      case Destroy => { FlushKeeps(s); }
      case _ => {}
    }
  }

  lemma CallStaysTidy(s: Inst, fits: bool)
    requires Valid(s) && Tidy(s)
    ensures Tidy(Called(s, fits).0)
  {
    FlushKeeps(s);
  }

  lemma BeginStaysTidy(s: Inst, token: nat, pool: bool)
    requires Valid(s) && Tidy(s) && token in s.tokens
    ensures Tidy(InvokeBegun(s, token, pool))
  {
    if s.armedSeq == token { FlushKeeps(s.(armedSeq := 0)); }
  }

  lemma EndStaysTidy(s: Inst, outcome: RunStatus)
    requires Valid(s) && Tidy(s) && s.frames != [] && s.frames[|s.frames| - 1].CallFrame? && outcome != Cancelled
    requires outcome == Suspended ==> |s.frames| == 1
    ensures Tidy(InvokeEnded(s, outcome))
  {
    assert Holds(s.frames[|s.frames| - 1], s.frames[|s.frames| - 1].token);
  }

  lemma FinishStaysTidy(s: Inst, token: nat)
    requires Valid(s) && Tidy(s) && token in s.tokens && !Running(s, token)
    ensures Tidy(Finished(s, token))
  {
    FinishKeeps(s, token);
    FinishLeaves(s, token);
    WithoutIsTidy(s, Finished(s, token), token);
  }

  lemma FinishLeaves(s: Inst, token: nat)
    requires Sound(s) && token in s.tokens
    ensures var t := Finished(s, token);
      && (t.hostCallPending <==> s.hostCallPending && s.pendingSeq != token) && (t.hostCallPending ==> t.pendingSeq == s.pendingSeq)
      && t.suspendedHostCall == s.suspendedHostCall && t.suspendedSeq == s.suspendedSeq && t.suspendedOf == s.suspendedOf
      && (t.suspendedOwnerAlive ==> s.suspendedOwnerAlive && !(s.suspendedHostCall && s.suspendedSeq == token)) && t.callSeq == s.callSeq
  {
    UnarmKeeps(s, token);
  }

  lemma WithoutIsTidy(s: Inst, t: Inst, token: nat)
    requires Valid(s) && Tidy(s) && t.frames == s.frames && t.tokens == s.tokens - {token} && !Running(s, token) && t.callSeq == s.callSeq
    requires t.armedSeq == (if s.armedSeq == token then 0 else s.armedSeq)
    requires t.hostCallPending ==> s.hostCallPending && s.pendingSeq == t.pendingSeq != token
    requires t.suspendedHostCall == s.suspendedHostCall && t.suspendedSeq == s.suspendedSeq && t.suspendedOf == s.suspendedOf
    requires t.suspendedOwnerAlive ==> s.suspendedOwnerAlive && !(s.suspendedHostCall && s.suspendedSeq == token)
    ensures Tidy(t)
  {
  }

  lemma ResumeStaysTidy(s: Inst, status: RunStatus)
    requires Valid(s) && Tidy(s) && |s.frames| == 1 && s.frames[0].ResumeFrame? && status != Cancelled
    ensures Tidy(ResumeEnded(s, status))
  {
  }

  lemma {:induction false} RunsStayTidy(s: Inst, events: seq<Event>, t: Inst)
    requires Valid(s) && Tidy(s) && Leads(s, events, t) && Undisturbed(events)
    ensures Tidy(t)
    decreases |events|
  {
    if events != [] {
      NextKeeps(s, events[0]);
      NextStaysTidy(s, events[0]);
      assert Undisturbed(events[1..]);
      RunsStayTidy(Next(s, events[0]), events[1..], t);
    }
  }

  /** Where a run is after its events. */
  function After(s: Inst, events: seq<Event>): Inst {
    if events == [] then s
    else
      var m := After(s, events[..|events| - 1]);
      if Enabled(m, events[|events| - 1]) then Next(m, events[|events| - 1]) else m
  }

  lemma {:induction false} LastStep(s: Inst, events: seq<Event>, t: Inst)
    requires Leads(s, events, t) && events != []
    ensures var front, e := events[..|events| - 1], events[|events| - 1];
      Leads(s, front, After(s, front)) && Enabled(After(s, front), e) && t == Next(After(s, front), e) == After(s, events)
    decreases |events|
  {
    var front, e := events[..|events| - 1], events[|events| - 1];
    if front == [] {
      assert events == [e] && events[1..] == [];
    } else {
      var s1 := Next(s, events[0]);
      assert front[1..] == events[1..][..|events| - 2] && front[0] == events[0];
      LastStep(s1, events[1..], t);
      AfterFirst(s, front);
    }
  }

  lemma {:induction false} AfterFirst(s: Inst, events: seq<Event>)
    requires events != [] && Enabled(s, events[0])
    ensures After(s, events) == After(Next(s, events[0]), events[1..])
    decreases |events|
  {
    var front := events[..|events| - 1];
    if front == [] {
      assert events[1..] == [] && After(s, front) == s;
    } else {
      AfterFirst(s, front);
      assert events[1..][..|events| - 2] == front[1..];
    }
  }

  // ---------------------------------------------------------------- who owns a result

  /** A call's end that makes its result pending: a token's own call ends, or a suspended one whose owner lives. */
  predicate Delivers(m: Inst, e: Event)
    requires Enabled(m, e)
  {
    match e
    case InvokeEnd(outcome) => outcome != Suspended
    case ResumeEnd(status) => status == Completed && m.frames[0].host && m.frames[0].retain && m.suspendedOwnerAlive
    case _ => false
  }

  /** What is known of a result: the token that started the call, the one that the call's Invocation held when it
      ended or stopped, and whether that one was then live and not prepared for another call. */
  datatype Delivery = Delivery(called: nat, owner: nat, fit: bool)

  function DeliveredBy(m: Inst, e: Event): Delivery
    requires Enabled(m, e) && Delivers(m, e)
  {
    var (called, owner) :=
      if e.InvokeEnd? then (m.frames[|m.frames| - 1].called, m.frames[|m.frames| - 1].token) else (m.suspendedOf, m.frames[0].owner);
    Delivery(called, owner, owner in m.tokens && owner != m.armedSeq)
  }

  /** The last result that became pending, if any, and what has happened since. */
  function LastDelivery(s: Inst, events: seq<Event>): (Option<Delivery>, seq<Event>) {
    if events == [] then (None, [])
    else
      var front, e := events[..|events| - 1], events[|events| - 1];
      var m, before := After(s, front), LastDelivery(s, front);
      if Enabled(m, e) && Delivers(m, e) then (Some(DeliveredBy(m, e)), []) else (before.0, before.1 + [e])
  }

  /** The step writes the return slot: the run a call was nested in goes on or comes to its end, or the host sets
      the value that the function called by the script returns. */
  predicate WritesSlot(e: Event) { e.ScriptRuns? || e.HostReturns? || e.SliceEnd? || e.ResumeEnd? }

  /** The pending result and the return slot, told from the last delivery and the events since. */
  predicate AsDelivered(t: Inst, d: Delivery, since: seq<Event>) {
    && t.pendingSeq == d.owner && (t.pendingSeq in t.tokens && t.pendingSeq != t.armedSeq <==> d.fit)
    && (t.callStatus == Completed ==> t.slotOwner == if exists e :: e in since && WritesSlot(e) then 0 else d.called)
    && (t.pendingBegin == Acquired ==> forall e :: e in since ==> !WritesSlot(e))
  }

  lemma {:induction false} DeliveriesTell(events: seq<Event>, t: Inst)
    requires Leads(Init(), events, t) && t.hostCallPending
    ensures var (d, since) := LastDelivery(Init(), events); d.Some? && AsDelivered(t, d.value, since)
    decreases |events|
  {
    if events != [] {
      LastStep(Init(), events, t);
      var front, e := events[..|events| - 1], events[|events| - 1];
      var m := After(Init(), front);
      RunsStayValid(Init(), front, m);
      if Delivers(m, e) {
        ResultArrives(m, e);
      } else {
        ResultStays(m, e);
        DeliveriesTell(front, m);
        DeliveredStill(m, e, Next(m, e), LastDelivery(Init(), front).0.value, LastDelivery(Init(), front).1);
      }
    }
  }

  /** A completed result is in the return slot when it becomes pending. */
  lemma ResultArrives(m: Inst, e: Event)
    requires Valid(m) && Enabled(m, e) && Delivers(m, e)
    ensures Next(m, e).hostCallPending && AsDelivered(Next(m, e), DeliveredBy(m, e), [])
  {
    FlushKeeps(m);
    if e.ResumeEnd? { ResumeEndKeeps(m, e.status); }
  }

  /** The result is still pending, and whose it is has not changed. */
  predicate Stays(m: Inst, t: Inst) {
    && m.hostCallPending && t.pendingSeq == m.pendingSeq && t.pendingBegin == m.pendingBegin && t.callStatus == m.callStatus
    && (m.pendingSeq in m.tokens && m.pendingSeq != m.armedSeq <==> m.pendingSeq in t.tokens && m.pendingSeq != t.armedSeq)
  }

  /** While it stays pending it stays whose it is; the steps that write the slot are the ones named, and for a call
      that borrowed the context there are none. */
  lemma ResultStays(m: Inst, e: Event)
    requires Valid(m) && Enabled(m, e) && !Delivers(m, e) && Next(m, e).hostCallPending
    ensures Stays(m, Next(m, e)) && Next(m, e).slotOwner == if WritesSlot(e) then 0 else m.slotOwner
    ensures m.pendingBegin == Acquired ==> !WritesSlot(e)
  {
    match e {
      case Call(fits) => { CallEndsPending(m, fits); }
      case InvokeBegin(token, pool) => { BeginEndsPending(m, token, pool); }
      case InvokeEnd(outcome) => { StopEndsPending(m); }
      case TakeResult(token) => { FlushKeeps(m); }
      case TokenGone(token) => { OthersStay(m, token); }
      case Assign(i, token, mine) => {
        if m.frames[i].mine && m.frames[i].token != 0 { OthersStay(m, m.frames[i].token); }
      }
      case ResumeEnd(status) => { ResumeEndsPending(m, status); }
      case Arg(token, value) => {}
      case MoveOut(i) => {}
      case ResumeBegin => {}
      case SliceEnd(status) => { SliceEndWrites(m, status); }
      case ScriptRuns => {}
      case HostReturns => {}
      case _ => { OthersEndPending(m, e); }
    }
  }

  lemma SliceEndWrites(m: Inst, status: RunStatus)
    requires Valid(m) && m.frames != []
    ensures Stays(m, SliceEnded(m, status)) || !m.hostCallPending
    ensures SliceEnded(m, status).slotOwner == 0 && (m.hostCallPending ==> m.pendingBegin == Nested)
    ensures SliceEnded(m, status).hostCallPending == m.hostCallPending
  {
  }

  lemma OthersEndPending(m: Inst, e: Event)
    requires Valid(m) && Enabled(m, e) && (e.SliceBegin? || e.Cancel? || e.Destroy?) && Next(m, e).hostCallPending
    ensures Next(m, e) == m
  {
    FlushKeeps(m);
  }

  lemma CallEndsPending(m: Inst, fits: bool)
    requires Valid(m) && Called(m, fits).0.hostCallPending
    ensures Called(m, fits).0 == m
  {
    FlushKeeps(m);
  }

  lemma BeginEndsPending(m: Inst, token: nat, pool: bool)
    requires Valid(m) && InvokeBegun(m, token, pool).hostCallPending
    ensures InvokeBegun(m, token, pool) == m
  {
  }

  lemma StopEndsPending(m: Inst)
    requires m.frames != [] && m.frames[|m.frames| - 1].CallFrame?
    ensures !InvokeEnded(m, Suspended).hostCallPending
  {
  }

  lemma OthersStay(m: Inst, token: nat)
    requires Valid(m) && token in m.tokens && Finished(m, token).hostCallPending
    ensures Stays(m, Finished(m, token)) && Finished(m, token).slotOwner == m.slotOwner
  {
    FinishKeeps(m, token);
    FinishLeaves(m, token);
  }

  lemma ResumeEndsPending(m: Inst, status: RunStatus)
    requires Valid(m) && |m.frames| == 1 && m.frames[0].ResumeFrame? && status != Cancelled
    requires !Delivers(m, ResumeEnd(status)) && ResumeEnded(m, status).hostCallPending
    ensures Stays(m, ResumeEnded(m, status)) && ResumeEnded(m, status).slotOwner == 0 && m.pendingBegin == Nested
  {
  }

  lemma DeliveredStill(m: Inst, e: Event, t: Inst, d: Delivery, since: seq<Event>)
    requires AsDelivered(m, d, since)
    requires Stays(m, t) && t.slotOwner == (if WritesSlot(e) then 0 else m.slotOwner) && (m.pendingBegin == Acquired ==> !WritesSlot(e))
    ensures AsDelivered(t, d, since + [e])
  {
    assert (since + [e])[|since|] == e;
    assert forall x :: x in since ==> x in since + [e];
  }

  /** A readable token reads its own result exactly if its call's Invocation still held it when the call ended or
      stopped, and no step since has written the return slot. A call that borrowed the context has its result in the
      slot as long as it is pending, out of the open lease. */
  lemma ReadsOwnResultExactly(events: seq<Event>, t: Inst, token: nat)
    requires Leads(Init(), events, t) && token != 0 && Readable(t, token)
    ensures LastDelivery(Init(), events).0.Some?
    ensures var (d, since) := LastDelivery(Init(), events);
      t.slotOwner == token <==> d.value.called == token && forall e :: e in since ==> !WritesSlot(e)
    ensures t.pendingBegin == Acquired ==> t.ctxHeld && t.frames == [] && t.slotOwner == LastDelivery(Init(), events).0.value.called
  {
    RunsStayValid(Init(), events, t);
    DeliveriesTell(events, t);
  }

  lemma {:induction false} UndisturbedKeepTheirTokens(events: seq<Event>, t: Inst)
    requires Leads(Init(), events, t) && Undisturbed(events) && LastDelivery(Init(), events).0.Some?
    ensures LastDelivery(Init(), events).0.value.called == LastDelivery(Init(), events).0.value.owner
    decreases |events|
  {
    LastStep(Init(), events, t);
    var front, e := events[..|events| - 1], events[|events| - 1];
    var m := After(Init(), front);
    RunsStayValid(Init(), front, m);
    RunsStayTidy(Init(), front, m);
    if !Delivers(m, e) { UndisturbedKeepTheirTokens(front, m); }
  }

  /** In every interleaving: a prepared token is live; leases of the context are closed once each, in order, and the
      open one belongs to a run in progress, a stopped run, or a pending result; a destroyed instance has no token
      left. A pending result belongs to a live token that is not prepared exactly if the Invocation of its call held
      such a token when the call ended or stopped. */
  lemma RunsAreSafe(events: seq<Event>, t: Inst)
    requires Leads(Init(), events, t)
    ensures t.armedSeq != 0 ==> t.armedSeq in t.tokens
    ensures |t.closed| + (if t.ctxHeld then 1 else 0) == t.leases && forall i :: 0 <= i < |t.closed| ==> t.closed[i] == i + 1
    ensures t.ctxHeld ==> t.frames != [] || t.stopped || (t.hostCallPending && t.pendingBegin == Acquired)
    ensures t.destroyed ==> t.tokens == {} && !t.ctxHeld
    ensures if t.hostCallPending then LastDelivery(Init(), events).0.Some? else t.pendingSeq == 0
    ensures t.hostCallPending ==>
      (t.pendingSeq in t.tokens && t.pendingSeq != t.armedSeq <==> LastDelivery(Init(), events).0.value.fit)
  {
    RunsStayValid(Init(), events, t);
    if t.hostCallPending { DeliveriesTell(events, t); }
  }

  /** While the host leaves the Invocations of running calls alone: a prepared token is neither pending nor running, a
      result is pending exactly if a live token owns it, the open lease belongs to a run or to that token, and each
      call's result goes to the token that started it. */
  lemma UndisturbedRunsAreSafe(events: seq<Event>, t: Inst)
    requires Leads(Init(), events, t) && Undisturbed(events)
    ensures t.armedSeq != 0 ==> t.armedSeq != t.pendingSeq && !Running(t, t.armedSeq)
    ensures t.hostCallPending <==> t.pendingSeq != 0
    ensures t.hostCallPending ==> t.pendingSeq in t.tokens && LastDelivery(Init(), events).0.Some?
    ensures t.hostCallPending ==> t.pendingSeq == LastDelivery(Init(), events).0.value.called
    ensures t.ctxHeld ==> t.frames != [] || t.stopped || (t.hostCallPending && t.pendingBegin == Acquired && t.pendingSeq in t.tokens)
  {
    RunsStayValid(Init(), events, t);
    RunsStayTidy(Init(), events, t);
    if t.hostCallPending {
      DeliveriesTell(events, t);
      UndisturbedKeepTheirTokens(events, t);
    }
  }

  /** A nested call inside a sliced run, read after the run went on: the token still answers, but the return
      slot no longer holds its result, and once the run has ended the context is gone as well. */
  lemma NestedResultGoesStale()
    ensures exists events, t :: Leads(Init(), events, t) && Readable(t, 1) && t.slotOwner != 1 && t.ctxHeld
    ensures exists events, t :: Leads(Init(), events, t) && Readable(t, 1) && t.slotOwner != 1 && !t.ctxHeld
  {
    var run := [SliceBegin(true), Call(true), InvokeBegin(1, true), InvokeEnd(Completed), ScriptRuns];
    var s3 := Nesting();
    var s4 := InvokeEnded(s3, Completed);
    assert s4.(slotOwner := 0) == StaleState();
    FiveSteps(Init(), run, SliceBegun(Init(), true), Called(SliceBegun(Init(), true), true).0, s3, s4, StaleState());
    OneMore(run);
  }

  /** A host function, called by a script, makes a nested call and then sets the value it returns itself: the token
      of the nested call still answers, but reads that value. */
  lemma ReturnValueOverwritesResult()
    ensures exists t :: (Leads(Init(), [SliceBegin(true), Call(true), InvokeBegin(1, true), InvokeEnd(Completed), HostReturns], t)
      && Readable(t, 1) && t.slotOwner != 1)
  {
    var run := [SliceBegin(true), Call(true), InvokeBegin(1, true), InvokeEnd(Completed), HostReturns];
    var s3 := Nesting();
    FiveSteps(Init(), run, SliceBegun(Init(), true), Called(SliceBegun(Init(), true), true).0, s3, InvokeEnded(s3, Completed), StaleState());
    assert Readable(StaleState(), 1) && StaleState().slotOwner != 1;
  }

  /** A host function, called by token 1's script, prepares token 2 and assigns it to the Invocation that runs: the
      result goes to token 2, which is still prepared and reads what the call of token 1 returned. */
  lemma AssignedTokenGetsResult()
    ensures exists t :: (Leads(Init(), [Call(true), InvokeBegin(1, true), Call(true), Assign(0, 2, true), InvokeEnd(Completed)], t)
      && t.armedSeq == t.pendingSeq == 2 && Readable(t, 2) && t.slotOwner == 1)
  {
    var run := [Call(true), InvokeBegin(1, true), Call(true), Assign(0, 2, true), InvokeEnd(Completed)];
    var s1 := Called(Init(), true).0;
    var s2 := InvokeBegun(s1, 1, true);
    var s3 := Called(s2, true).0;
    var s4 := Assigned(s3, 0, 2, true);
    FiveSteps(Init(), run, s1, s2, s3, s4, InvokeEnded(s4, Completed));
  }

  /** The same with the running Invocation moved from, and its token given up after the call: the context stays
      borrowed although no token is left to give it back. */
  lemma MovedTokenLeavesLease()
    ensures exists t :: (Leads(Init(), [Call(true), InvokeBegin(1, true), MoveOut(0), InvokeEnd(Completed), TokenGone(1)], t)
      && t.ctxHeld && t.frames == [] && !t.stopped && t.tokens == {})
  {
    var run := [Call(true), InvokeBegin(1, true), MoveOut(0), InvokeEnd(Completed), TokenGone(1)];
    var s1 := Called(Init(), true).0;
    var s2 := InvokeBegun(s1, 1, true);
    var s3 := MovedOut(s2, 0);
    var s4 := InvokeEnded(s3, Completed);
    FiveSteps(Init(), run, s1, s2, s3, s4, Finished(s4, 1));
  }

  /** The nested call of token 1 is running inside the sliced run. */
  function Nesting(): (r: Inst)
    ensures r == InvokeBegun(Called(SliceBegun(Init(), true), true).0, 1, true)
  {
    Inst(1, 0, 0, 0, false, Acquired, false, false, 0, Failed, [], 1, false, true, false,
         [SliceFrame, CallFrame(1, Nested, [], 1, 1, true)], {1}, 1, [], 0, 0)
  }

  /** Where that run leads: the token's result is pending, the return slot is someone else's. */
  function StaleState(): Inst {
    Inst(1, 0, 1, 1, true, Nested, false, false, 0, Completed, [], 1, false, true, false, [SliceFrame], {1}, 1, [], 0, 0)
  }

  lemma OneMore(run: seq<Event>)
    requires Leads(Init(), run, StaleState())
    ensures exists events, t :: Leads(Init(), events, t) && Readable(t, 1) && t.slotOwner != 1 && t.ctxHeld
    ensures exists events, t :: Leads(Init(), events, t) && Readable(t, 1) && t.slotOwner != 1 && !t.ctxHeld
  {
    var s5 := StaleState();
    var s6 := Next(s5, SliceEnd(Completed));
    Extended(Init(), run, s5, SliceEnd(Completed));
    assert Readable(s5, 1) && s5.slotOwner != 1 && s5.ctxHeld;
    assert Readable(s6, 1) && s6.slotOwner != 1 && !s6.ctxHeld;
  }

  lemma FiveSteps(s: Inst, run: seq<Event>, s1: Inst, s2: Inst, s3: Inst, s4: Inst, s5: Inst)
    requires |run| == 5 && Enabled(s, run[0]) && s1 == Next(s, run[0]) && Enabled(s1, run[1]) && s2 == Next(s1, run[1])
    requires Enabled(s2, run[2]) && s3 == Next(s2, run[2]) && Enabled(s3, run[3]) && s4 == Next(s3, run[3])
    requires Enabled(s4, run[4]) && s5 == Next(s4, run[4])
    ensures Leads(s, run, s5)
  {
    assert Leads(s4, run[4..], s5) by { assert run[4..][1..] == []; }
    assert run[3..][1..] == run[4..] && Leads(s3, run[3..], s5);
    assert run[2..][1..] == run[3..] && Leads(s2, run[2..], s5);
    assert run[1..][1..] == run[2..] && Leads(s1, run[1..], s5);
  }

  lemma {:induction false} Extended(s: Inst, run: seq<Event>, t: Inst, e: Event)
    requires Leads(s, run, t) && Enabled(t, e)
    ensures Leads(s, run + [e], Next(t, e))
    decreases |run|
  {
    if run == [] {
      assert ([e])[1..] == [];
      assert run + [e] == [e];
    } else {
      Extended(Next(s, run[0]), run[1..], t, e);
      assert (run + [e])[1..] == run[1..] + [e];
    }
  }

  /** The arguments given to a prepared token stay as they are in every step in which it stays prepared and
      adds none, exactly unless the step is a cancellation that finds some: that one drops them and leaves
      the token prepared. */
  lemma ArgumentsKeptExactly(s: Inst, e: Event)
    requires Valid(s) && Enabled(s, e) && s.armedSeq != 0 && Next(s, e).armedSeq == s.armedSeq && !e.Arg?
    ensures Next(s, e).callArgs == s.callArgs <==> !(e.Cancel? && s.frames == [] && s.callArgs != [])
    ensures e.Cancel? && s.frames == [] ==> Next(s, e).callArgs == []
  {
    FlushKeeps(s);
    if e.Cancel? { CancelDropsArguments(s); } else { ArgumentsKept(s, e); }
  }

  /** The values given to a token, in the order of the events, since the last cancellation that found nothing
      running. */
  function Given(s: Inst, events: seq<Event>, token: nat): seq<int> {
    if events == [] then []
    else
      var front, e := events[..|events| - 1], events[|events| - 1];
      if e.Cancel? && After(s, front).frames == [] then []
      else if e.Arg? && e.token == token then Given(s, front, token) + [e.value]
      else Given(s, front, token)
  }

  /** Only preparing a call arms a token, the next one, and starts its arguments afresh. */
  lemma ArmedBefore(m: Inst, e: Event)
    requires Valid(m) && Enabled(m, e)
    ensures Next(m, e).callSeq >= m.callSeq
    ensures Next(m, e).armedSeq != 0 && Next(m, e).armedSeq != m.armedSeq ==> Next(m, e).armedSeq == m.callSeq + 1 && Next(m, e).callArgs == []
  {
    FlushKeeps(m);
    match e {
      case TokenGone(token) => { ArmedAfterFinish(m, token); }
      case Assign(i, token, mine) => {
        if m.frames[i].mine && m.frames[i].token != 0 { ArmedAfterFinish(m, m.frames[i].token); }
      }
      case InvokeBegin(token, pool) => { ArmedAfterBegin(m, token, pool); }
      case InvokeEnd(outcome) => { ArmedAfterEnd(m, outcome); }
      case ResumeEnd(status) => { ArmedAfterResume(m, status); }
      case _ => {}
    }
  }

  lemma ArmedAfterFinish(m: Inst, token: nat)
    requires Valid(m) && token in m.tokens
    ensures Finished(m, token).callSeq == m.callSeq && Finished(m, token).armedSeq in {0, m.armedSeq}
  {
    FinishKeeps(m, token);
    FinishLeaves(m, token);
  }

  lemma ArmedAfterBegin(m: Inst, token: nat, pool: bool)
    ensures InvokeBegun(m, token, pool).callSeq == m.callSeq && InvokeBegun(m, token, pool).armedSeq in {0, m.armedSeq}
  {
  }

  lemma ArmedAfterEnd(m: Inst, outcome: RunStatus)
    requires m.frames != [] && m.frames[|m.frames| - 1].CallFrame?
    ensures InvokeEnded(m, outcome).callSeq == m.callSeq && InvokeEnded(m, outcome).armedSeq == m.armedSeq
  {
  }

  lemma ArmedAfterResume(m: Inst, status: RunStatus)
    requires Valid(m) && |m.frames| == 1 && m.frames[0].ResumeFrame? && status != Cancelled
    ensures ResumeEnded(m, status).callSeq == m.callSeq && ResumeEnded(m, status).armedSeq == m.armedSeq
  {
    ResumeEndMeans(m, status);
    CountedAfterResume(m, status);
  }

  lemma CountedAfterResume(m: Inst, status: RunStatus)
    requires |m.frames| == 1 && m.frames[0].ResumeFrame?
    ensures ResumeEnded(m, status).callSeq == m.callSeq
  {
  }

  /** Nothing was given to a token that is yet to come. */
  lemma {:induction false} NothingGivenAhead(events: seq<Event>, t: Inst, token: nat)
    requires Leads(Init(), events, t) && token > t.callSeq
    ensures Given(Init(), events, token) == []
    decreases |events|
  {
    if events != [] {
      LastStep(Init(), events, t);
      var front, e := events[..|events| - 1], events[|events| - 1];
      var m := After(Init(), front);
      RunsStayValid(Init(), front, m);
      ArmedBefore(m, e);
      NothingGivenAhead(front, m, token);
    }
  }

  /** A prepared token has the arguments that it was given, all of them, in their order. */
  lemma {:induction false} PreparedWithGiven(events: seq<Event>, t: Inst)
    requires Leads(Init(), events, t) && t.armedSeq != 0
    ensures t.callArgs == Given(Init(), events, t.armedSeq)
    decreases |events|
  {
    if events != [] {
      LastStep(Init(), events, t);
      var front, e := events[..|events| - 1], events[|events| - 1];
      var m := After(Init(), front);
      RunsStayValid(Init(), front, m);
      ArmedBefore(m, e);
      if m.armedSeq == t.armedSeq {
        PreparedWithGiven(front, m);
        StaysPrepared(m, e);
      } else {
        NothingGivenAhead(front, m, t.armedSeq);
      }
    }
  }

  lemma StaysPrepared(m: Inst, e: Event)
    requires Valid(m) && Enabled(m, e) && m.armedSeq != 0 && Next(m, e).armedSeq == m.armedSeq
    ensures Next(m, e).callArgs ==
      if e.Cancel? && m.frames == [] then [] else if e.Arg? && e.token == m.armedSeq then m.callArgs + [e.value] else m.callArgs
  {
    if !e.Arg? { ArgumentsKeptExactly(m, e); }
  }

  /** In every interleaving a call starts with exactly the values its token was given, in the order in which they
      were given, since it was prepared or since the last cancellation that dropped them. */
  lemma CallStartsWithGiven(events: seq<Event>, s: Inst, token: nat, pool: bool)
    requires Leads(Init(), events, s) && token in s.tokens
    ensures var t := InvokeBegun(s, token, pool);
      |t.frames| > |s.frames| ==> t.frames == s.frames + [t.frames[|s.frames|]] && Started(t.frames[|s.frames|], token,
        if s.frames == [] then Acquired else Nested, Given(Init(), events, token))
  {
    RunsStayValid(Init(), events, s);
    InvokeMeans(s, token, pool);
    var t := InvokeBegun(s, token, pool);
    if |t.frames| > |s.frames| {
      PreparedWithGiven(events, s);
      assert t.frames == t.frames[..|s.frames|] + [t.frames[|s.frames|]];
    }
  }

  /** A run that shows it: one argument is given, the call is cancelled before it starts, and the token, still
      prepared, starts it without the argument. */
  lemma PreparedArgumentsAreLost()
    ensures exists t :: Leads(Init(), [Call(true), Arg(1, 5)], t) && t.armedSeq == 1 && t.callArgs == [5]
    ensures exists t :: Leads(Init(), [Call(true), Arg(1, 5), Cancel, InvokeBegin(1, true)], t) && t.frames == [CallFrame(1, Acquired, [], 1, 0, true)]
  {
    var s1 := Next(Init(), Call(true));
    var s2 := Next(s1, Arg(1, 5));
    var s3 := Next(s2, Cancel);
    var s4 := Next(s3, InvokeBegin(1, true));
    Before(s1, Arg(1, 5), [], s2);
    Before(Init(), Call(true), [Arg(1, 5)], s2);
    assert [Call(true)] + [Arg(1, 5)] == [Call(true), Arg(1, 5)] && [Arg(1, 5)] + [] == [Arg(1, 5)];
    Before(s3, InvokeBegin(1, true), [], s4);
    Before(s2, Cancel, [InvokeBegin(1, true)], s4);
    Before(s1, Arg(1, 5), [Cancel] + [InvokeBegin(1, true)], s4);
    Before(Init(), Call(true), [Arg(1, 5)] + ([Cancel] + [InvokeBegin(1, true)]), s4);
    assert [Call(true)] + ([Arg(1, 5)] + ([Cancel] + [InvokeBegin(1, true)])) == [Call(true), Arg(1, 5), Cancel, InvokeBegin(1, true)];
    assert [InvokeBegin(1, true)] + [] == [InvokeBegin(1, true)];
  }

  lemma Before(s: Inst, e: Event, rest: seq<Event>, t: Inst)
    requires Enabled(s, e) && Leads(Next(s, e), rest, t)
    ensures Leads(s, [e] + rest, t)
  {
    assert ([e] + rest)[1..] == rest;
  }

  lemma CancelDropsArguments(s: Inst)
    requires Valid(s) && s.armedSeq != 0
    ensures CancelledAll(s).armedSeq == s.armedSeq
    ensures CancelledAll(s).callArgs == if s.frames == [] then [] else s.callArgs
  {
  }

  lemma ArgumentsKept(s: Inst, e: Event)
    requires Valid(s) && Enabled(s, e) && s.armedSeq != 0 && Next(s, e).armedSeq == s.armedSeq && !e.Arg? && !e.Cancel?
    ensures Next(s, e).callArgs == s.callArgs
  {
    match e {
      case InvokeBegin(token, pool) => { BegunKeepsArguments(s, token, pool); }
      case InvokeEnd(outcome) => { EndKeepsArguments(s, outcome); }
      case TakeResult(token) => { FlushKeeps(s); }
      case TokenGone(token) => { GivingUpKeepsArguments(s, token); }
      case Assign(i, token, mine) => {
        if s.frames[i].mine && s.frames[i].token != 0 { GivingUpKeepsArguments(s, s.frames[i].token); }
      }
      case ResumeEnd(status) => { ResumeKeepsArguments(s, status); }
      case Destroy => { FlushKeeps(s); }
      case _ => {}
    }
  }

  lemma GivingUpKeepsArguments(s: Inst, token: nat)
    requires Valid(s) && token in s.tokens && s.armedSeq != 0 && Finished(s, token).armedSeq == s.armedSeq
    ensures Finished(s, token).callArgs == s.callArgs
  {
    FinishKeeps(s, token);
  }

  lemma EndKeepsArguments(s: Inst, outcome: RunStatus)
    requires s.frames != [] && s.frames[|s.frames| - 1].CallFrame?
    ensures InvokeEnded(s, outcome).callArgs == s.callArgs
  {
  }

  lemma BegunKeepsArguments(s: Inst, token: nat, pool: bool)
    requires Valid(s) && s.armedSeq != 0 && token in s.tokens && InvokeBegun(s, token, pool).armedSeq == s.armedSeq
    ensures InvokeBegun(s, token, pool).callArgs == s.callArgs
  {
  }

  lemma ResumeKeepsArguments(s: Inst, status: RunStatus)
    requires Valid(s) && |s.frames| == 1 && s.frames[0].ResumeFrame?
    ensures ResumeEnded(s, status).callArgs == s.callArgs
  {
  }
}

/** The same protocol carried out by an instance that changes its record field by field. */
module HostCalls {
  import opened Collections
  import opened HostProtocol

  class InstanceRec {
    var s: Inst

    constructor ()
      ensures s == Init() && Valid(s)
    {
      s := Init();
    }

    method ReleaseExecution()
      modifies this
      ensures s == Released(old(s))
    {
      s := s.(closed := s.closed + [s.leases]);
      s := s.(ctxHeld := false, stopped := false, slotOwner := 0);
    }

    /** Only the call that borrowed the context gives it back, and not while its run is stopped. */
    method EndHostCall(begin: Begin)
      requires LeasesOk(s) && (begin == Acquired && !s.stopped ==> s.ctxHeld)
      modifies this
      ensures LeasesOk(s) && Closes(old(s), s, begin == Acquired && !old(s).stopped)
      ensures s.ctxHeld <==> old(s).ctxHeld && !(begin == Acquired && !old(s).stopped)
      ensures s == LeaseEnded(old(s), begin)
    {
      if begin != Acquired || s.stopped { return; }
      ReleaseExecution();
    }

    method FlushPendingCall()
      requires LeasesOk(s) && (s.hostCallPending && s.pendingBegin == Acquired && !s.stopped ==> s.ctxHeld)
      modifies this
      ensures s == Flushed(old(s)) && LeasesOk(s)
      ensures Valid(old(s)) ==> Valid(s) && GivesUpResult(old(s), s)
    {
      if Valid(s) { FlushMeans(s); }
      if !s.hostCallPending { return; }
      s := s.(hostCallPending := false, pendingSeq := 0);
      EndHostCall(s.pendingBegin);
    }

    /** Prepares a call; 0 stands for a token without a call. As in all steps below, `busy` says that the runtime is
        loading or unloading the instance, and refuses. */
    method Call(closureFits: bool, busy: bool) returns (token: nat)
      requires Valid(s)
      modifies this
      ensures Valid(s) && if busy && old(s).frames == [] then token == 0 && s == old(s) else Prepares(old(s), s, closureFits, token)
      ensures (s, token) == if busy && old(s).frames == [] then (old(s), 0) else Called(old(s), closureFits)
    {
      CallMeans(s, closureFits);
      if busy && s.frames == [] { return 0; }
      if s.destroyed || s.armedSeq != 0 || s.stopped { return 0; }
      FlushPendingCall();
      if !closureFits { return 0; }
      s := s.(callArgs := [], callStatus := Failed);
      s := s.(callSeq := s.callSeq + 1);
      token := s.callSeq;
      s := s.(armedSeq := token);
      s := s.(invocationCount := s.invocationCount + 1, tokens := s.tokens + {token});
    }

    method ArgInt(token: nat, v: int)
      modifies this
      ensures s == if token != 0 && old(s).armedSeq == token then old(s).(callArgs := s.callArgs) else old(s)
      ensures token != 0 && old(s).armedSeq == token ==>
        |s.callArgs| == |old(s).callArgs| + 1 && old(s).callArgs < s.callArgs && s.callArgs[|old(s).callArgs|] == v
      ensures s == Argument(old(s), token, v)
    {
      if token != 0 && s.armedSeq == token { s := s.(callArgs := s.callArgs + [v]); }
    }

    method BeginHostCall(pool: bool) returns (begin: Begin)
      requires LeasesOk(s)
      modifies this
      ensures LeasesOk(s) && Borrows(old(s), s, pool, begin)
      ensures (s, begin) == Lent(old(s), pool)
    {
      if s.ctxHeld { return if s.stopped then Refused else Nested; }
      if !pool { return Refused; }
      s := s.(ctxHeld := true, leases := s.leases + 1, slotOwner := 0);
      return Acquired;
    }

    /** The first half of an invocation, up to the point where the script runs. */
    method Invoke(token: nat, pool: bool) returns (running: bool)
      requires Valid(s) && token in s.tokens
      modifies this
      ensures Valid(s) && Starts(old(s), s, token, pool, running)
      ensures s == InvokeBegun(old(s), token, pool)
    {
      InvokeMeans(s, token, pool);
      FlushKeeps(s.(armedSeq := 0));
      if token == 0 || s.armedSeq != token { return false; }
      s := s.(armedSeq := 0);
      FlushPendingCall();
      var args := s.callArgs;
      var begin := BeginHostCall(pool);
      s := s.(callArgs := []);
      if begin == Refused {
        s := s.(resultSeq := token, callStatus := Failed);
        FlushPendingCall();
        return false;
      }
      s := s.(frames := s.frames + [CallFrame(token, begin, args, token, Holder(s.frames, token), true)], slotOwner := 0);
      return true;
    }

    /** The second half, once the script has returned, failed or stopped: whose result it is, is for the Invocation to
        say, which may hold another token by now. */
    method InvokeReturned(outcome: RunStatus) returns (status: RunStatus)
      requires Valid(s) && s.frames != [] && s.frames[|s.frames| - 1].CallFrame? && outcome != Cancelled
      requires outcome == Suspended ==> |s.frames| == 1
      modifies this
      ensures Valid(s) && Returns(old(s), s, outcome) && status == outcome
      ensures s == InvokeEnded(old(s), outcome)
    {
      ReturnMeans(s, outcome);
      var f := s.frames[|s.frames| - 1];
      s := s.(frames := s.frames[..|s.frames| - 1], resultSeq := f.token);
      if outcome == Suspended {
        s := s.(stopped := true);
        FlushPendingCall();
        s := s.(slotOwner := 0, callStatus := Suspended, suspendedHostCall := true, suspendedOwnerAlive := true,
                suspendedSeq := f.token, suspendedOf := f.called);
        return s.callStatus;
      }
      s := s.(callStatus := outcome);
      FlushPendingCall();
      s := s.(hostCallPending := true, pendingBegin := f.begin, pendingSeq := f.token,
              slotOwner := if outcome == Completed then f.called else 0);
      return s.callStatus;
    }

    /** A token is given up, with what it owns; its call may still be running. */
    method InvFinish(token: nat)
      requires Sound(s) && token in s.tokens
      modifies this
      ensures Sound(s) && GivesUpToken(old(s), s, token)
      ensures Valid(old(s)) && !Running(old(s), token) ==> Valid(s)
      ensures s == Finished(old(s), token)
    {
      FinishMeans(s, token);
      UnarmKeeps(s, token);
      if s.armedSeq == token { s := s.(armedSeq := 0, callArgs := []); }
      assert s == Unarmed(old(s), token);
      if s.pendingSeq == token { FlushPendingCall(); }
      assert s == Disowned(Unarmed(old(s), token), token);
      Forget(token);
    }

    /** Move assignment to the Invocation of a running call: a token of this instance, of another, or none. */
    method MoveAssign(i: nat, token: nat, mine: bool)
      requires Valid(s) && i < |s.frames| && s.frames[i].CallFrame?
      requires mine && token != 0 ==> token in s.tokens && !Holds(s.frames[i], token)
      modifies this
      ensures Valid(s) && Rebinds(old(s), s, i, token, mine, if old(s).frames[i].mine then old(s).frames[i].token else 0)
      ensures s == Assigned(old(s), i, token, mine)
    {
      AssignMeans(s, i, token, mine);
      var f := s.frames[i];
      if f.mine && f.token != 0 { InvFinish(f.token); }
      s := s.(frames := AllRebound(s.frames, f.invocation, token, mine));
    }

    method Forget(token: nat)
      modifies this
      ensures s == Forgotten(old(s), token)
    {
      if s.suspendedHostCall && s.suspendedSeq == token { s := s.(suspendedOwnerAlive := false); }
      s := s.(invocationCount := if s.invocationCount > 0 then s.invocationCount - 1 else 0);
      s := s.(tokens := s.tokens - {token});
    }

    /** Whether a token may read the return slot: never two at once, and while Invocations of running calls are left
        alone only a living one that is neither prepared nor running. */
    method InvReturn(token: nat) returns (readable: bool)
      requires Valid(s) && token != 0
      ensures readable <==> Readable(s, token)
      ensures readable ==> forall u: nat :: Readable(s, u) ==> u == token
      ensures readable && Tidy(s) ==> token in s.tokens && token != s.armedSeq && !Running(s, token)
    {
      readable := s.pendingSeq == token && s.hostCallPending && s.callStatus == Completed;
    }

    method Resume(busy: bool) returns (running: bool)
      requires Valid(s)
      modifies this
      ensures Valid(s) && if busy then !running && s == old(s) else Resumes(old(s), s, running)
      ensures s == if busy then old(s) else ResumeBegun(old(s))
    {
      ResumeMeans(s);
      if busy || s.destroyed || s.armedSeq != 0 || s.frames != [] || s.hostCallPending || !s.ctxHeld { return false; }
      s := s.(frames := [ResumeFrame(s.suspendedHostCall, s.suspendedSeq, s.suspendedHostCall && s.suspendedOwnerAlive)]);
      s := s.(stopped := false, slotOwner := 0);
      return true;
    }

    /** What the worker does when the run it was resumed or started for has ended. */
    method RunSettle(status: RunStatus, retain: bool)
      modifies this
      ensures s == Settled(old(s), status, retain)
    {
      s := s.(frames := [], slotOwner := 0);
      if status == Suspended { s := s.(stopped := true); }
      else if !(status == Completed && retain) { ReleaseExecution(); }
    }

    method ResumeReturned(status: RunStatus)
      requires Valid(s) && |s.frames| == 1 && s.frames[0].ResumeFrame? && status != Cancelled
      modifies this
      ensures Valid(s) && ResumeReturns(old(s), s, status)
      ensures s == ResumeEnded(old(s), status)
    {
      ResumeEndMeans(s, status);
      var f := s.frames[0];
      RunSettle(status, f.retain);
      if !f.host { return; }
      s := s.(resultSeq := f.owner, callStatus := status);
      FlushPendingCall();
      if status == Suspended { return; }
      if status == Completed && f.retain {
        if s.suspendedOwnerAlive {
          s := s.(hostCallPending := true, pendingBegin := Acquired, pendingSeq := f.owner, slotOwner := s.suspendedOf);
        } else {
          EndHostCall(Acquired);
        }
      }
      s := s.(suspendedHostCall := false, suspendedOwnerAlive := false, suspendedSeq := 0);
    }

    method StartSliced(found: bool, busy: bool) returns (running: bool)
      requires Valid(s)
      modifies this
      ensures Valid(s) && if busy then !running && s == old(s) else StartsSlice(old(s), s, found, running)
      ensures s == if busy then old(s) else SliceBegun(old(s), found)
    {
      SliceMeans(s, found);
      if busy || s.destroyed || s.armedSeq != 0 || s.frames != [] { return false; }
      FlushPendingCall();
      if s.ctxHeld || !found { return false; }
      s := s.(ctxHeld := true, leases := s.leases + 1, frames := [SliceFrame], slotOwner := 0);
      return true;
    }

    method Cancel(busy: bool) returns (done: bool)
      requires Valid(s)
      modifies this
      ensures Valid(s) && if busy then !done && s == old(s) else CancelsAll(old(s), s, done)
      ensures s == if busy then old(s) else CancelledAll(old(s))
    {
      CancelMeans(s);
      if busy || s.destroyed || s.frames != [] { return false; }
      FlushPendingCall();
      s := s.(callArgs := []);
      if s.ctxHeld { ReleaseExecution(); }
      s := s.(suspendedHostCall := false, suspendedOwnerAlive := false, suspendedSeq := 0, callStatus := Cancelled);
      return true;
    }

    /** Destroys the instance only if no token lives and nothing runs, and not from a function that a script has
        called, which may run in another instance. */
    method Destroy(busy: bool, inCallback: bool)
      requires Valid(s)
      modifies this
      ensures Valid(s) && if busy || inCallback then s == old(s) else Destroys(old(s), s)
      ensures s == if busy || inCallback then old(s) else Destroyed(old(s))
    {
      DestroyMeans(s);
      if busy || inCallback || s.destroyed || s.invocationCount != 0 || s.frames != [] { return; }
      FlushPendingCall();
      if s.ctxHeld { ReleaseExecution(); }
      s := s.(callArgs := [], suspendedHostCall := false, suspendedOwnerAlive := false, suspendedSeq := 0, destroyed := true);
    }
  }
}
