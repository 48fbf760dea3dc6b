/** The optional value the model uses where the source's unsigned arithmetic can fail. */
module Wrappers {
  datatype Option<+T> = None | Some(value: T)
}

/**
  One measurement point ("anchor") of the profiler: its counters, the three
  in-place updates the profiler applies to them, and the two integer
  numerators of the report.
 */
module Anchors {
  import opened Wrappers

  /** The source's counters are `usize`/`u64`; they are unbounded here. */
  datatype Anchor = Anchor(
    name: string,
    calls: nat,
    elapsed: nat,
    childrenElapsed: nat,
    selfChildrenElapsed: nat,
    bytes: nat)

  /** A freshly registered anchor: the name and every counter at zero. */
  function NewAnchor(name: string): (r: Anchor)
    ensures r.name == name
    ensures r.calls == 0 && r.elapsed == 0 && r.childrenElapsed == 0 && r.selfChildrenElapsed == 0 && r.bytes == 0
  {
    Anchor(name, 0, 0, 0, 0, 0)
  }

  /** A finished block of this anchor: one more call and its duration. */
  function Update(a: Anchor, duration: nat): (r: Anchor)
    ensures r.calls == a.calls + 1 && r.elapsed == a.elapsed + duration
    ensures r.(calls := a.calls, elapsed := a.elapsed) == a
  {
    a.(elapsed := a.elapsed + duration, calls := a.calls + 1)
  }

  /** A finished block of another anchor nested inside this one. */
  function UpdateFromChild(a: Anchor, duration: nat): (r: Anchor)
    ensures r.childrenElapsed == a.childrenElapsed + duration
    ensures r.(childrenElapsed := a.childrenElapsed) == a
  {
    a.(childrenElapsed := a.childrenElapsed + duration)
  }

  /** A finished block of this same anchor nested inside an open one (recursion). */
  function UpdateFromSelfChild(a: Anchor, duration: nat): (r: Anchor)
    ensures r.selfChildrenElapsed == a.selfChildrenElapsed + duration
    ensures r.(selfChildrenElapsed := a.selfChildrenElapsed) == a
  {
    a.(selfChildrenElapsed := a.selfChildrenElapsed + duration)
  }

  /**
    The report's "total" numerator `elapsed - self_children_elapsed`, an
    unsigned subtraction: None where it would underflow.
   */
  function TotalTicks(a: Anchor): (r: Option<nat>)
    ensures r.Some? <==> a.selfChildrenElapsed <= a.elapsed
    ensures r.Some? ==> a.selfChildrenElapsed + r.value == a.elapsed
  {
    if a.selfChildrenElapsed <= a.elapsed then Some(a.elapsed - a.selfChildrenElapsed) else None
  }

  /**
    The report's "self" numerator `elapsed - children_elapsed`, an unsigned
    subtraction: None where it would underflow.
   */
  function SelfTicks(a: Anchor): (r: Option<nat>)
    ensures r.Some? <==> a.childrenElapsed <= a.elapsed
    ensures r.Some? ==> a.childrenElapsed + r.value == a.elapsed
  {
    if a.childrenElapsed <= a.elapsed then Some(a.elapsed - a.childrenElapsed) else None
  }
}
