/**
  The profiler's bookkeeping: the append-only anchor registry, the stack of
  open anchor ids, and the attribution of a finished block to its own anchor
  and to every anchor still open around it.

  The pure functions state each operation on a `Snapshot` of the two
  vectors; the class `Profiler` performs the same operations in place and
  is proved to agree with them.
 */
module Profiling {
  import opened Anchors

  /** A finished block: the anchor it was opened for and the ticks it lasted. */
  datatype Block = Block(anchorId: nat, duration: nat)

  /** The profiler's state: the anchors in registration order and the open-anchor stack. */
  datatype Snapshot = Snapshot(anchors: seq<Anchor>, stack: seq<nat>)

  function Empty(): Snapshot
  {
    Snapshot([], [])
  }

  /** Every id on the stack indexes an anchor. */
  predicate StackInRange(s: Snapshot)
  {
    forall k :: 0 <= k < |s.stack| ==> s.stack[k] < |s.anchors|
  }

  /** No two anchors carry the same name. */
  predicate NamesDistinct(anchors: seq<Anchor>)
  {
    forall i, j :: 0 <= i < j < |anchors| ==> anchors[i].name != anchors[j].name
  }

  predicate Valid(s: Snapshot)
  {
    StackInRange(s) && NamesDistinct(s.anchors)
  }

  predicate HasName(anchors: seq<Anchor>, name: string)
  {
    exists k :: 0 <= k < |anchors| && anchors[k].name == name
  }

  /**
    The index of the first anchor named `name`, or `|anchors|` when there is
    none: the position `get_anchor_id` finds, or the one it appends at.
   */
  function FirstMatch(anchors: seq<Anchor>, name: string): (i: nat)
    ensures i <= |anchors|
    ensures i < |anchors| ==> anchors[i].name == name
    ensures forall k :: 0 <= k < i ==> anchors[k].name != name
    decreases |anchors|
  {
    if |anchors| == 0 then 0
    else if anchors[0].name == name then 0
    else 1 + FirstMatch(anchors[1..], name)
  }

  /** `get_anchor_id`: find or append the anchor, and push its id. */
  function Register(s: Snapshot, name: string): (r: Snapshot)
    ensures |r.stack| == |s.stack| + 1 && r.stack[..|s.stack|] == s.stack
    ensures |s.anchors| <= |r.anchors| && r.anchors[..|s.anchors|] == s.anchors
    ensures r.stack[|s.stack|] < |r.anchors| && r.anchors[r.stack[|s.stack|]].name == name
    ensures HasName(s.anchors, name) ==>
      && r.anchors == s.anchors
      && forall k :: 0 <= k < r.stack[|s.stack|] ==> s.anchors[k].name != name
    ensures !HasName(s.anchors, name) ==>
      && r.stack[|s.stack|] == |s.anchors|
      && r.anchors == s.anchors + [NewAnchor(name)]
      && var a := r.anchors[|s.anchors|];
         a.calls == 0 && a.elapsed == 0 && a.childrenElapsed == 0 && a.selfChildrenElapsed == 0 && a.bytes == 0
  {
    var i := FirstMatch(s.anchors, name);
    Snapshot(if i < |s.anchors| then s.anchors else s.anchors + [NewAnchor(name)], s.stack + [i])
  }

  /** The id `Register` pushes. */
  function IdOf(s: Snapshot, name: string): nat
  {
    FirstMatch(s.anchors, name)
  }

  lemma RegisterPushesId(s: Snapshot, name: string)
    ensures Register(s, name).stack == s.stack + [IdOf(s, name)]
  {
  }

  /** Registration keeps the stack in range and the names distinct. */
  lemma RegisterValid(s: Snapshot, name: string)
    requires Valid(s)
    ensures Valid(Register(s, name))
  {
    var r := Register(s, name);
    if !HasName(s.anchors, name) {
      forall i, j | 0 <= i < j < |r.anchors|
        ensures r.anchors[i].name != r.anchors[j].name
      {
        if j == |s.anchors| {
          assert r.anchors[i] == s.anchors[i];
        }
      }
    }
  }

  /** Looking up the same name twice yields the same id and adds nothing the second time. */
  lemma RegisterTwice(s: Snapshot, name: string)
    ensures IdOf(Register(s, name), name) == IdOf(s, name)
    ensures Register(Register(s, name), name).anchors == Register(s, name).anchors
  {
    var r := Register(s, name);
    var i := IdOf(s, name);
    assert r.anchors[i].name == name;
    assert forall k :: 0 <= k < i ==> r.anchors[k] == s.anchors[k];
    assert HasName(r.anchors, name);
  }

  /** The stack without its last element: `Vec::pop`, which leaves an empty vector alone. */
  function Pop(stack: seq<nat>): (r: seq<nat>)
    ensures stack == [] ==> r == []
    ensures stack != [] ==> r + [stack[|stack| - 1]] == stack
  {
    if stack == [] then [] else stack[..|stack| - 1]
  }

  /** One credit of a nested block's duration to an enclosing anchor. */
  function Credit(a: Anchor, selfChild: bool, duration: nat): Anchor
  {
    if selfChild then UpdateFromSelfChild(a, duration) else UpdateFromChild(a, duration)
  }

  /**
    Every anchor whose id occurs in `open` credited exactly once, however
    many times it occurs: to its self-children time when it is the finished
    block's anchor `id`, to its children time otherwise.
   */
  function CreditOpen(anchors: seq<Anchor>, open: seq<nat>, id: nat, duration: nat): (r: seq<Anchor>)
    ensures |r| == |anchors|
  {
    seq(|anchors|, j requires 0 <= j < |anchors| =>
      if j in open then Credit(anchors[j], j == id, duration) else anchors[j])
  }

  /** Crediting one more occurrence: a repeated id changes nothing, a new one is credited once. */
  lemma CreditOpenStep(anchors: seq<Anchor>, open: seq<nat>, id: nat, duration: nat, a: nat)
    requires a < |anchors|
    ensures var before := CreditOpen(anchors, open, id, duration);
      CreditOpen(anchors, open + [a], id, duration) ==
        if a in open then before else before[a := Credit(anchors[a], a == id, duration)]
  {
    var before := CreditOpen(anchors, open, id, duration);
    var after := CreditOpen(anchors, open + [a], id, duration);
    forall j | 0 <= j < |anchors|
      ensures after[j] == if a in open then before[j] else before[a := Credit(anchors[a], a == id, duration)][j]
    {
      assert j in open + [a] <==> j in open || j == a;
    }
  }

  /**
    The loop of `add_block`: walk the open ids in order, remembering in
    `updatedChildren` the ones already credited, so each distinct id is
    credited once.
   */
  method CreditDistinct(counted: seq<Anchor>, stack: seq<nat>, id: nat, duration: nat) returns (anchors: seq<Anchor>)
    requires forall k :: 0 <= k < |stack| ==> stack[k] < |counted|
    ensures anchors == CreditOpen(counted, stack, id, duration)
  {
    anchors := counted;
    var updatedChildren: seq<nat> := [];
    var i := 0;
    while i < |stack|
      invariant 0 <= i <= |stack|
      invariant forall k :: 0 <= k < i ==> stack[k] in updatedChildren
      invariant forall x :: x in updatedChildren ==> x in stack[..i]
      invariant anchors == CreditOpen(counted, stack[..i], id, duration)
    {
      var a := stack[i];
      assert stack[..i + 1] == stack[..i] + [a];
      CreditOpenStep(counted, stack[..i], id, duration, a);
      if a !in updatedChildren {
        updatedChildren := updatedChildren + [a];
        if a == id {
          anchors := anchors[a := UpdateFromSelfChild(anchors[a], duration)];
        } else {
          anchors := anchors[a := UpdateFromChild(anchors[a], duration)];
        }
      }
      i := i + 1;
    }
    assert stack[..i] == stack;
  }

  /**
    `add_block` as written: pop the stack, count the call and its duration
    on the block's anchor, then credit each distinct id left on the stack.
   */
  function AddBlockSpec(s: Snapshot, b: Block): (r: Snapshot)
    requires b.anchorId < |s.anchors|
    ensures r.stack == Pop(s.stack) && |r.anchors| == |s.anchors|
    ensures forall j :: 0 <= j < |s.anchors| ==>
      && r.anchors[j].name == s.anchors[j].name
      && r.anchors[j].bytes == s.anchors[j].bytes
      && r.anchors[j].calls == s.anchors[j].calls + (if j == b.anchorId then 1 else 0)
      && r.anchors[j].elapsed == s.anchors[j].elapsed + (if j == b.anchorId then b.duration else 0)
      && r.anchors[j].selfChildrenElapsed ==
           s.anchors[j].selfChildrenElapsed + (if j == b.anchorId && j in r.stack then b.duration else 0)
      && r.anchors[j].childrenElapsed ==
           s.anchors[j].childrenElapsed + (if j != b.anchorId && j in r.stack then b.duration else 0)
  {
    var counted := s.anchors[b.anchorId := Update(s.anchors[b.anchorId], b.duration)];
    Snapshot(CreditOpen(counted, Pop(s.stack), b.anchorId, b.duration), Pop(s.stack))
  }

  /** `add_bytes`: grow one anchor's byte count. */
  function AddBytesSpec(s: Snapshot, id: nat, bytes: nat): (r: Snapshot)
    requires id < |s.anchors|
    ensures r.stack == s.stack && |r.anchors| == |s.anchors|
    ensures r.anchors[id].bytes == s.anchors[id].bytes + bytes
    ensures r.anchors[id].(bytes := 0) == s.anchors[id].(bytes := 0)
    ensures forall j :: 0 <= j < |s.anchors| && j != id ==> r.anchors[j] == s.anchors[j]
  {
    Snapshot(s.anchors[id := s.anchors[id].(bytes := s.anchors[id].bytes + bytes)], s.stack)
  }

  /** Finishing a block keeps the profiler's invariant. */
  lemma AddBlockValid(s: Snapshot, b: Block)
    requires Valid(s) && b.anchorId < |s.anchors|
    ensures Valid(AddBlockSpec(s, b))
  {
    var r := AddBlockSpec(s, b);
    assert forall i :: 0 <= i < |r.anchors| ==> r.anchors[i].name == s.anchors[i].name;
    forall k | 0 <= k < |r.stack| ensures r.stack[k] < |r.anchors| {
      assert r.stack[k] == s.stack[k];
    }
  }

  /**
    The profiler object. `anchors` and `anchorIdStack` are the two vectors
    of the source; the start instant is only read by the report's
    floating-point part and is not modelled.
   */
  class Profiler {
    var anchors: seq<Anchor>
    var anchorIdStack: seq<nat>

    function Model(): Snapshot
      reads this
    {
      Snapshot(anchors, anchorIdStack)
    }

    ghost predicate Invariant()
      reads this
    {
      Valid(Model())
    }

    /** `Profiler::new`: no anchors, nothing open. */
    constructor ()
      ensures Invariant()
      ensures Model() == Empty()
    {
      anchors := [];
      anchorIdStack := [];
    }

    /**
      `get_anchor_id`: the first anchor with this name, or a new zeroed one
      appended at the end; the id is pushed onto the open-anchor stack.
     */
    method GetAnchorId(name: string) returns (id: nat)
      requires Invariant()
      modifies this
      ensures Invariant()
      ensures id < |anchors| && anchors[id].name == name
      ensures anchorIdStack == old(anchorIdStack) + [id]
      ensures Model() == Register(old(Model()), name)
    {
      var i := 0;
      while i < |anchors| && anchors[i].name != name
        invariant 0 <= i <= |anchors|
        invariant forall k :: 0 <= k < i ==> anchors[k].name != name
      {
        i := i + 1;
      }
      assert i == FirstMatch(anchors, name);
      RegisterValid(Model(), name);
      if i == |anchors| {
        anchors := anchors + [NewAnchor(name)];
      }
      anchorIdStack := anchorIdStack + [i];
      id := i;
    }

    /**
      `add_block`: pop the stack, count the block on its own anchor, then walk
      the remaining stack, remembering the ids already credited.
     */
    method AddBlock(block: Block)
      requires Invariant() && block.anchorId < |anchors|
      modifies this
      ensures Invariant()
      ensures Model() == AddBlockSpec(old(Model()), block)
    {
      AddBlockValid(Model(), block);
      anchorIdStack := Pop(anchorIdStack);
      var duration := block.duration;
      anchors := anchors[block.anchorId := Update(anchors[block.anchorId], duration)];
      anchors := CreditDistinct(anchors, anchorIdStack, block.anchorId, duration);
    }

    /** `add_bytes`: only the addressed anchor's byte count changes. */
    method AddBytes(anchorId: nat, bytes: nat)
      requires Invariant() && anchorId < |anchors|
      modifies this
      ensures Invariant()
      ensures Model() == AddBytesSpec(old(Model()), anchorId, bytes)
    {
      anchors := anchors[anchorId := anchors[anchorId].(bytes := anchors[anchorId].bytes + bytes)];
      assert forall k :: 0 <= k < |anchors| ==> anchors[k].name == old(anchors)[k].name;
    }
  }
}
