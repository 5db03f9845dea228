/**
 The ring buffer of the off-policy algorithms (abmem/services/algorithms/replay_buffer.py), with the
 arrays of the source. The float32 rows are vectors of reals; draws of the generator are parameters.
 */
module ReplayBuffer {
  import opened Wrappers
  import opened Experience

  /** What the ring keeps of a transition. */
  datatype Stored = Stored(obs: Vec, action: Vec, reward: real, nextObs: Vec, terminated: bool, intervened: bool)

  function Kept(t: Transition): Stored {
    Stored(t.obs, t.action, t.reward, t.nextObs, t.terminated, t.intervened)
  }

  /** A stored row has the transition's own columns. */
  lemma KeptColumns(t: Transition)
    ensures var x := Kept(t);
            && x.obs == t.obs && x.action == t.action && x.reward == t.reward && x.nextObs == t.nextObs
            && x.terminated == t.terminated && x.intervened == t.intervened
  {
  }

  /** The content of a ring of this capacity after the transitions, oldest first. */
  function RingAfter(ts: seq<Stored>, capacity: nat): (s: seq<Stored>)
    requires capacity >= 1
    ensures |s| <= capacity
  {
    if ts == [] then [] else LastN(RingAfter(ts[..|ts| - 1], capacity) + [ts[|ts| - 1]], capacity)
  }

  /** The ring is the last min(n, capacity) transitions in insertion order. */
  lemma {:induction false} RingIsLastN(ts: seq<Stored>, capacity: nat)
    requires capacity >= 1
    ensures RingAfter(ts, capacity) == LastN(ts, capacity)
  {
    if ts != [] {
      RingIsLastN(ts[..|ts| - 1], capacity);
      LastNAppend(ts[..|ts| - 1], ts[|ts| - 1], capacity);
      assert ts[..|ts| - 1] + [ts[|ts| - 1]] == ts;
    }
  }

  // ---------------------------------------------------------------- choice of the generator

  predicate Distinct(s: seq<nat>) {
    forall i, j :: 0 <= i < j < |s| ==> s[i] != s[j]
  }

  /** What Generator.choice(n, size, replace) promises. */
  predicate Choice(s: seq<nat>, n: nat, size: nat, replace: bool) {
    |s| == size && (forall i :: 0 <= i < |s| ==> s[i] < n) && (!replace ==> Distinct(s))
  }

  /** Position k of the chronological order in the arrays. */
  function Physical(start: nat, capacity: nat, k: nat): (i: nat)
    requires capacity >= 1
    ensures i < capacity
  {
    (start + k) % capacity
  }

  lemma Wrap(x: nat, capacity: nat)
    requires 1 <= capacity && x < 2 * capacity
    ensures x % capacity == if x < capacity then x else x - capacity
  {
    var q := x / capacity;
    assert x == capacity * q + x % capacity;
    assert q == 0 || q == 1;
    if q == 1 {
      assert capacity * q == capacity;
    }
  }

  /** The inverse of Physical. */
  function LogicalOf(capacity: nat, pos: nat, size: nat, i: nat): (k: nat)
    requires pos < capacity && i < size <= capacity
    ensures k < size && Physical(First(capacity, pos, size), capacity, k) == i
  {
    var k := if size < capacity then i else if pos <= i then i - pos else i + capacity - pos;
    Wrap(First(capacity, pos, size) + k, capacity);
    k
  }

  function First(capacity: nat, pos: nat, size: nat): nat {
    if size == capacity then pos else 0
  }

  /** The rows in chronological order. */
  function Chronological(rows: seq<Stored>, pos: nat, size: nat): (s: seq<Stored>)
    requires |rows| >= 1
    ensures |s| == size
  {
    seq(size, k requires 0 <= k < size => rows[Physical(First(|rows|, pos, size), |rows|, k)])
  }

  /** Writing at `pos` appends in chronological order and, in a full ring, forgets the oldest row. */
  lemma WriteAppends(rows: seq<Stored>, pos: nat, size: nat, x: Stored)
    requires pos < |rows| && size <= |rows| && (size < |rows| ==> pos == size)
    ensures var n := |rows|;
            Chronological(rows[pos := x], (pos + 1) % n, if size + 1 < n then size + 1 else n)
            == LastN(Chronological(rows, pos, size) + [x], n)
  {
    var n := |rows|;
    var pos', size' := (pos + 1) % n, if size + 1 < n then size + 1 else n;
    Wrap(pos + 1, n);
    var before, after := Chronological(rows, pos, size), Chronological(rows[pos := x], pos', size');
    forall k | 0 <= k < size'
      ensures after[k] == LastN(before + [x], n)[k]
    {
      var j := if size == n then k + 1 else k;
      Wrap(First(n, pos', size') + k, n);
      Wrap(First(n, pos, size) + j, n);
    }
  }

  /** The batch takes the transitions at these positions, no position twice. */
  predicate TakenAt(stored: seq<Stored>, batch: seq<Stored>, at: seq<nat>) {
    |at| == |batch| && Distinct(at) && forall i :: 0 <= i < |at| ==> at[i] < |stored| && batch[i] == stored[at[i]]
  }

  class Ring {
    const obsDim: nat
    const actionDim: nat
    const capacity: nat
    const obs: array<Vec>
    const actions: array<Vec>
    const rewards: array<real>
    const nextObs: array<Vec>
    const terminated: array<bool>
    const intervened: array<bool>
    var pos: nat
    var size: nat

    ghost const Repr: set<object> := {this, obs, actions, rewards, nextObs, terminated, intervened}

    predicate Shape() {
      && capacity >= 1
      && obs.Length == actions.Length == rewards.Length == nextObs.Length == terminated.Length == intervened.Length == capacity
      && obs != actions && obs != nextObs && actions != nextObs && terminated != intervened
    }

    ghost predicate Valid()
      reads this
    {
      Shape() && pos < capacity && size <= capacity && (size < capacity ==> pos == size)
    }

    ghost function Row(i: nat): Stored
      requires Shape() && i < capacity
      reads obs, actions, rewards, nextObs, terminated, intervened
    {
      Stored(obs[i], actions[i], rewards[i], nextObs[i], terminated[i], intervened[i])
    }

    ghost function Rows(): (s: seq<Stored>)
      requires Shape()
      reads obs, actions, rewards, nextObs, terminated, intervened
      ensures |s| == capacity && forall i :: 0 <= i < capacity ==> s[i] == Row(i)
    {
      seq(capacity, i requires 0 <= i < capacity reads obs, actions, rewards, nextObs, terminated, intervened => Row(i))
    }

    function Start(): nat
      reads this
    {
      First(capacity, pos, size)
    }

    /** The stored transitions, oldest first. */
    ghost function Contents(): (s: seq<Stored>)
      requires Valid()
      reads Repr
      ensures |s| == size
    {
      Chronological(Rows(), pos, size)
    }

    constructor (obsDim: nat, actionDim: nat, capacity: nat)
      requires obsDim >= 1 && actionDim >= 1 && capacity >= 1
      ensures Valid() && fresh(Repr) && Contents() == []
      ensures this.obsDim == obsDim && this.actionDim == actionDim && this.capacity == capacity
    {
      this.obsDim, this.actionDim, this.capacity := obsDim, actionDim, capacity;
      obs := new Vec[capacity](i => []);
      actions := new Vec[capacity](i => []);
      rewards := new real[capacity](i => 0.0);
      nextObs := new Vec[capacity](i => []);
      terminated := new bool[capacity](i => false);
      intervened := new bool[capacity](i => false);
      pos, size := 0, 0;
    }

    method Write(i: nat, t: Transition)
      requires Shape() && i < capacity
      modifies obs, actions, rewards, nextObs, terminated, intervened
      ensures Rows() == old(Rows())[i := Kept(t)]
    {
      obs[i] := t.obs;
      actions[i] := t.action;
      rewards[i] := t.reward;
      nextObs[i] := t.nextObs;
      terminated[i] := t.terminated;
      intervened[i] := t.intervened;
    }

    method Advance()
      requires Valid()
      modifies this`pos, this`size
      ensures Valid()
      ensures pos == (old(pos) + 1) % capacity && size == if old(size) + 1 < capacity then old(size) + 1 else capacity
    {
      Wrap(pos + 1, capacity);
      pos := (pos + 1) % capacity;
      size := if size + 1 < capacity then size + 1 else capacity;
    }

    /** Stores a transition, overwriting the oldest one when full. */
    method Add(t: Transition) returns (r: Result<(), Error>)
      requires Valid()
      modifies Repr
      ensures Valid() && (r.Ok? <==> ShapesOk(t, obsDim, actionDim))
      ensures Contents() == if r.Ok? then LastN(old(Contents()) + [Kept(t)], capacity) else old(Contents())
    {
      if !ShapesOk(t, obsDim, actionDim) {
        return Err(ValueError);
      }
      hide Chronological, LastN;
      ghost var rows, i, n := Rows(), pos, size;
      WriteAppends(rows, i, n, Kept(t));
      Write(pos, t);
      Advance();
      assert Rows() == rows[i := Kept(t)];
      return Ok(());
    }

    method Length() returns (n: nat)
      requires Valid()
      ensures n == |Contents()|
    {
      n := size;
    }

    /** The stored rewards in insertion order. */
    method Rewards() returns (rs: seq<real>)
      requires Valid()
      ensures |rs| == |Contents()| && forall k :: 0 <= k < |rs| ==> rs[k] == Contents()[k].reward
    {
      rs := [];
      for k := 0 to size
        invariant |rs| == k && forall j :: 0 <= j < k ==> rs[j] == Contents()[j].reward
      {
        var p := Physical(Start(), capacity, k);
        assert Contents()[k] == Row(p);
        rs := rs + [rewards[p]];
      }
    }

    /** Where the transition at physical index i stands in the chronological order. */
    function Logical(i: nat): (k: nat)
      requires Valid() && i < size
      reads this
      ensures k < size && Physical(Start(), capacity, k) == i
    {
      LogicalOf(capacity, pos, size, i)
    }

    /** Independent transitions without replacement: `choice` is what the generator draws. */
    method Sample(batchSize: int, choice: seq<nat>) returns (r: Result<seq<Stored>, Error>, ghost at: seq<nat>)
      requires Valid()
      requires 1 <= batchSize <= size ==> Choice(choice, size, batchSize, false)
      ensures r.Ok? <==> 1 <= batchSize <= |Contents()|
      ensures r.Ok? ==>
                && |r.value| == batchSize == |choice| && TakenAt(Contents(), r.value, at)
                && (forall i :: 0 <= i < batchSize ==> at[i] == Logical(choice[i]))
    {
      at := [];
      if batchSize < 1 || size < batchSize {
        return Err(ValueError), at;
      }
      var batch: seq<Stored> := [];
      for i := 0 to batchSize
        invariant |batch| == |at| == i && forall k :: 0 <= k < i ==> batch[k] == Row(choice[k]) && at[k] == Logical(choice[k])
      {
        var p := choice[i];
        batch := batch + [Stored(obs[p], actions[p], rewards[p], nextObs[p], terminated[p], intervened[p])];
        at := at + [Logical(p)];
      }
      return Ok(batch), at;
    }

    /** Windows of consecutive transitions: `starts` is what the generator draws. */
    method SampleSequences(batchSize: int, seqLen: int, starts: seq<nat>) returns (r: Result<seq<seq<Stored>>, Error>)
      requires Valid()
      requires batchSize >= 1 && 1 <= seqLen <= size ==>
                 Choice(starts, size - seqLen + 1, batchSize, size - seqLen + 1 < batchSize)
      ensures r.Ok? <==> batchSize >= 1 && 1 <= seqLen <= |Contents()|
      ensures r.Ok? ==>
                && |r.value| == batchSize == |starts|
                && (forall i :: 0 <= i < batchSize ==>
                      starts[i] + seqLen <= |Contents()| && r.value[i] == Contents()[starts[i]..starts[i] + seqLen])
                && (batchSize <= |Contents()| - seqLen + 1 ==> Distinct(starts))
    {
      if batchSize < 1 || seqLen < 1 || size < seqLen {
        return Err(ValueError);
      }
      ghost var c := Contents();
      var windows: seq<seq<Stored>> := [];
      for i := 0 to batchSize
        invariant |windows| == i
        invariant forall k :: 0 <= k < i ==> windows[k] == c[starts[k]..starts[k] + seqLen]
      {
        var w := Window(starts[i], seqLen);
        windows := windows + [w];
      }
      return Ok(windows);
    }

    method Window(start: nat, seqLen: nat) returns (w: seq<Stored>)
      requires Valid() && start + seqLen <= size
      ensures w == Contents()[start..start + seqLen]
    {
      w := [];
      for k := 0 to seqLen
        invariant w == Contents()[start..start + k]
      {
        var p := Physical(Start(), capacity, start + k);
        w := w + [Stored(obs[p], actions[p], rewards[p], nextObs[p], terminated[p], intervened[p])];
      }
    }
  }
}
