/**
  Properly nested runs of instrumented code, and what they leave in the
  report's two numerators.

  A `Call` is one instrumented block (the `block!` macro: look the anchor up,
  run the body, finish the block when it is dropped) together with the
  blocks nested inside it; `span` is the duration its clock read reports.
  `Run` drives the profiler's `get_anchor_id` and `add_block` exactly as the
  nesting dictates.
 */
module Sessions {
  import opened Wrappers
  import opened Anchors
  import opened Profiling

  /** How a finished block credits the anchors still open around it. */
  datatype Attribution =
    | EveryEnclosing  // as written: children time to every distinct open anchor
    | DirectParent    // corrected: children time to the innermost open anchor only

  /** The innermost open anchor after a pop, if any. */
  function Parent(stack: seq<nat>): Option<nat>
  {
    var rest := Pop(stack);
    if rest == [] then None else Some(rest[|rest| - 1])
  }

  /**
    `add_block` with the children credit corrected: the block's own anchor
    and its self-children rule are as written, but only the directly
    enclosing block's anchor is charged the block's duration as child time.
   */
  function AddBlockDirect(s: Snapshot, b: Block): (r: Snapshot)
    requires StackInRange(s) && b.anchorId < |s.anchors|
    ensures r.stack == Pop(s.stack) && |r.anchors| == |s.anchors|
    ensures forall j :: 0 <= j < |s.anchors| ==>
      && r.anchors[j].name == s.anchors[j].name
      && r.anchors[j].bytes == s.anchors[j].bytes
      && r.anchors[j].calls == s.anchors[j].calls + (if j == b.anchorId then 1 else 0)
      && r.anchors[j].elapsed == s.anchors[j].elapsed + (if j == b.anchorId then b.duration else 0)
      && r.anchors[j].selfChildrenElapsed ==
           s.anchors[j].selfChildrenElapsed + (if j == b.anchorId && j in r.stack then b.duration else 0)
      && r.anchors[j].childrenElapsed ==
           s.anchors[j].childrenElapsed + (if Parent(s.stack) == Some(j) then b.duration else 0)
  {
    var rest := Pop(s.stack);
    assert forall k :: 0 <= k < |rest| ==> rest[k] == s.stack[k];
    var counted := s.anchors[b.anchorId := Update(s.anchors[b.anchorId], b.duration)];
    var selfCredited :=
      if b.anchorId in rest then counted[b.anchorId := UpdateFromSelfChild(counted[b.anchorId], b.duration)]
      else counted;
    var parentCredited :=
      if rest == [] then selfCredited
      else var p := rest[|rest| - 1]; selfCredited[p := UpdateFromChild(selfCredited[p], b.duration)];
    Snapshot(parentCredited, rest)
  }

  /** A finished block under the chosen attribution. */
  function Finish(s: Snapshot, b: Block, rule: Attribution): (r: Snapshot)
    requires StackInRange(s) && b.anchorId < |s.anchors|
    ensures StackInRange(r) && r.stack == Pop(s.stack) && |r.anchors| == |s.anchors|
    ensures forall j :: 0 <= j < |s.anchors| ==> r.anchors[j].name == s.anchors[j].name
  {
    var r := if rule == EveryEnclosing then AddBlockSpec(s, b) else AddBlockDirect(s, b);
    assert forall k :: 0 <= k < |r.stack| ==> r.stack[k] == s.stack[k];
    r
  }

  /** One instrumented block with the blocks it runs, in order. */
  datatype Call = Call(name: string, span: nat, body: seq<Call>)

  function SpanSum(cs: seq<Call>): nat
  {
    if cs == [] then 0 else cs[0].span + SpanSum(cs[1..])
  }

  /**
    The clock is consistent with the nesting: the blocks run inside a block
    one after another, so their durations add up to at most its own.
   */
  predicate WellTimed(c: Call)
  {
    SpanSum(c.body) <= c.span && forall i :: 0 <= i < |c.body| ==> WellTimed(c.body[i])
  }

  /**
    Run one block: register its anchor (pushing the id), run the body, then
    finish the block with its span. Whatever the body does, the stack comes
    back to what it was and the existing anchors keep their names.
   */
  function Run(s: Snapshot, c: Call, rule: Attribution): (r: Snapshot)
    requires StackInRange(s)
    ensures StackInRange(r) && r.stack == s.stack
    ensures |s.anchors| <= |r.anchors|
    ensures forall k :: 0 <= k < |s.anchors| ==> r.anchors[k].name == s.anchors[k].name
    decreases c
  {
    var id := IdOf(s, c.name);
    var entered := Register(s, c.name);
    RegisterPushesId(s, c.name);
    assert forall k :: 0 <= k < |s.anchors| ==> entered.anchors[k] == s.anchors[k];
    var inner := RunAll(entered, c.body, rule);
    Finish(inner, Block(id, c.span), rule)
  }

  /** Run blocks one after another at the same depth. */
  function RunAll(s: Snapshot, cs: seq<Call>, rule: Attribution): (r: Snapshot)
    requires StackInRange(s)
    ensures StackInRange(r) && r.stack == s.stack
    ensures |s.anchors| <= |r.anchors|
    ensures forall k :: 0 <= k < |s.anchors| ==> r.anchors[k].name == s.anchors[k].name
    decreases cs
  {
    if cs == [] then s else RunAll(Run(s, cs[0], rule), cs[1..], rule)
  }

  /** The "total" numerator as a signed quantity; an anchor not yet registered has 0. */
  function TotalOf(s: Snapshot, x: nat): int
  {
    if x < |s.anchors| then s.anchors[x].elapsed - s.anchors[x].selfChildrenElapsed else 0
  }

  /** The "self" numerator as a signed quantity; an anchor not yet registered has 0. */
  function SelfOf(s: Snapshot, x: nat): int
  {
    if x < |s.anchors| then s.anchors[x].elapsed - s.anchors[x].childrenElapsed else 0
  }

  lemma RegisterKeepsNumerators(s: Snapshot, name: string, x: nat)
    ensures TotalOf(Register(s, name), x) == TotalOf(s, x)
    ensures SelfOf(Register(s, name), x) == SelfOf(s, x)
  {
    var r := Register(s, name);
    if x < |s.anchors| {
      assert r.anchors[x] == s.anchors[x];
    }
  }

  /**
    Finishing a block raises the total numerator of its own anchor by its
    duration when no block of that anchor is still open, and leaves every
    other total numerator alone, under either attribution.
   */
  lemma FinishTotal(s: Snapshot, b: Block, rule: Attribution, x: nat)
    requires StackInRange(s) && b.anchorId < |s.anchors|
    ensures TotalOf(Finish(s, b, rule), x) ==
      TotalOf(s, x) + (if x == b.anchorId && x !in Pop(s.stack) then b.duration else 0)
  {
  }

  /**
    Under the corrected attribution, finishing a block raises its anchor's
    self numerator by its duration and lowers its direct parent's by the
    same amount.
   */
  lemma FinishSelfDirect(s: Snapshot, b: Block, x: nat)
    requires StackInRange(s) && b.anchorId < |s.anchors|
    ensures SelfOf(Finish(s, b, DirectParent), x) ==
      SelfOf(s, x) + (if x == b.anchorId then b.duration else 0)
                   - (if Parent(s.stack) == Some(x) then b.duration else 0)
  {
    if x < |s.anchors| {
      var r := Finish(s, b, DirectParent);
      assert r == AddBlockDirect(s, b);
    } else {
      var r := Finish(s, b, DirectParent);
      assert Parent(s.stack) != Some(x) by {
        if Parent(s.stack).Some? {
          assert Pop(s.stack)[|Pop(s.stack)| - 1] == s.stack[|Pop(s.stack)| - 1];
        }
      }
    }
  }

  /** The three stages of `Run`: register, run the body, finish. */
  lemma RunSteps(s: Snapshot, c: Call, rule: Attribution) returns (id: nat, entered: Snapshot, inner: Snapshot)
    requires StackInRange(s)
    ensures id == IdOf(s, c.name) && entered == Register(s, c.name)
    ensures StackInRange(entered) && entered.stack == s.stack + [id]
    ensures inner == RunAll(entered, c.body, rule) && StackInRange(inner) && id < |inner.anchors|
    ensures inner.stack == s.stack + [id] && Pop(inner.stack) == s.stack
    ensures Parent(inner.stack) == if s.stack == [] then None else Some(s.stack[|s.stack| - 1])
    ensures forall y :: y in inner.stack <==> y in s.stack || y == id
    ensures Run(s, c, rule) == Finish(inner, Block(id, c.span), rule)
  {
    id := IdOf(s, c.name);
    entered := Register(s, c.name);
    RegisterPushesId(s, c.name);
    inner := RunAll(entered, c.body, rule);
  }

  /**
    Running a block never lowers a total numerator; it leaves those of the
    anchors already open unchanged; and it raises its own anchor's, when no
    block of that anchor is open around it, by exactly its own span, however
    deeply the anchor recurses inside it.
   */
  lemma {:induction false} RunTotal(s: Snapshot, c: Call, rule: Attribution, x: nat)
    requires StackInRange(s)
    ensures TotalOf(s, x) <= TotalOf(Run(s, c, rule), x)
    ensures x in s.stack ==> TotalOf(Run(s, c, rule), x) == TotalOf(s, x)
    ensures x == IdOf(s, c.name) && x !in s.stack ==>
      TotalOf(Run(s, c, rule), x) == TotalOf(s, x) + c.span
    decreases c
  {
    var id, entered, inner := RunSteps(s, c, rule);
    RegisterKeepsNumerators(s, c.name, x);
    RunAllTotal(entered, c.body, rule, x);
    FinishTotal(inner, Block(id, c.span), rule, x);
  }

  lemma {:induction false} RunAllTotal(s: Snapshot, cs: seq<Call>, rule: Attribution, x: nat)
    requires StackInRange(s)
    ensures TotalOf(s, x) <= TotalOf(RunAll(s, cs, rule), x)
    ensures x in s.stack ==> TotalOf(RunAll(s, cs, rule), x) == TotalOf(s, x)
    decreases cs
  {
    if cs != [] {
      RunTotal(s, cs[0], rule, x);
      RunAllTotal(Run(s, cs[0], rule), cs[1..], rule, x);
    }
  }

  /**
    Under the corrected attribution, a well-timed block never lowers a self
    numerator except its direct parent's, and that one by at most its span.
   */
  lemma {:induction false} RunSelf(s: Snapshot, c: Call, x: nat)
    requires StackInRange(s) && WellTimed(c)
    ensures SelfOf(Run(s, c, DirectParent), x) >=
      SelfOf(s, x) - (if s.stack != [] && x == s.stack[|s.stack| - 1] then c.span else 0)
    decreases c
  {
    var id, entered, inner := RunSteps(s, c, DirectParent);
    RegisterKeepsNumerators(s, c.name, x);
    RunAllSelf(entered, c.body, x);
    FinishSelfDirect(inner, Block(id, c.span), x);
  }

  lemma {:induction false} RunAllSelf(s: Snapshot, cs: seq<Call>, x: nat)
    requires StackInRange(s) && forall i :: 0 <= i < |cs| ==> WellTimed(cs[i])
    ensures SelfOf(RunAll(s, cs, DirectParent), x) >=
      SelfOf(s, x) - (if s.stack != [] && x == s.stack[|s.stack| - 1] then SpanSum(cs) else 0)
    decreases cs
  {
    if cs != [] {
      RunSelf(s, cs[0], x);
      RunAllSelf(Run(s, cs[0], DirectParent), cs[1..], x);
    }
  }

  /**
    Under the corrected attribution, finishing a block gives its direct
    parent's anchor its duration as child time and, when a block of its own
    anchor is still open, charges that anchor the same as self-child time.
    (`TotalOf - SelfOf` is `children_elapsed - self_children_elapsed`.)
   */
  lemma FinishGapDirect(s: Snapshot, b: Block, x: nat)
    requires StackInRange(s) && b.anchorId < |s.anchors|
    ensures TotalOf(Finish(s, b, DirectParent), x) - SelfOf(Finish(s, b, DirectParent), x) ==
      TotalOf(s, x) - SelfOf(s, x)
      + (if Parent(s.stack) == Some(x) then b.duration else 0)
      - (if x == b.anchorId && x in Pop(s.stack) then b.duration else 0)
  {
    FinishTotal(s, b, DirectParent, x);
    FinishSelfDirect(s, b, x);
  }

  /**
    Under the corrected attribution, a well-timed block lowers
    `children_elapsed - self_children_elapsed` only for anchors already open
    around it, by at most its span, and not at all for its direct parent.
   */
  lemma {:induction false} RunGap(s: Snapshot, c: Call, x: nat)
    requires StackInRange(s) && WellTimed(c)
    ensures TotalOf(Run(s, c, DirectParent), x) - SelfOf(Run(s, c, DirectParent), x) >=
      TotalOf(s, x) - SelfOf(s, x)
      - (if x in s.stack then c.span else 0)
      + (if s.stack != [] && x == s.stack[|s.stack| - 1] then c.span else 0)
    decreases c
  {
    var id, entered, inner := RunSteps(s, c, DirectParent);
    RegisterKeepsNumerators(s, c.name, x);
    RunAllGap(entered, c.body, x);
    FinishGapDirect(inner, Block(id, c.span), x);
    GapStep(TotalOf(s, x) - SelfOf(s, x),
            TotalOf(inner, x) - SelfOf(inner, x),
            TotalOf(Run(s, c, DirectParent), x) - SelfOf(Run(s, c, DirectParent), x),
            x in s.stack, s.stack != [] && x == s.stack[|s.stack| - 1], x == id,
            c.span, SpanSum(c.body));
  }

  /** The arithmetic of one `RunGap` step. */
  lemma GapStep(before: int, afterBody: int, afterFinish: int, open: bool, top: bool, same: bool,
                span: nat, bodySpan: nat)
    requires bodySpan <= span
    requires afterBody >= before - (if open || same then bodySpan else 0) + (if same then bodySpan else 0)
    requires afterFinish == afterBody + (if top then span else 0) - (if same && open then span else 0)
    ensures afterFinish >= before - (if open then span else 0) + (if top then span else 0)
  {
  }

  lemma {:induction false} RunAllGap(s: Snapshot, cs: seq<Call>, x: nat)
    requires StackInRange(s) && forall i :: 0 <= i < |cs| ==> WellTimed(cs[i])
    ensures TotalOf(RunAll(s, cs, DirectParent), x) - SelfOf(RunAll(s, cs, DirectParent), x) >=
      TotalOf(s, x) - SelfOf(s, x)
      - (if x in s.stack then SpanSum(cs) else 0)
      + (if s.stack != [] && x == s.stack[|s.stack| - 1] then SpanSum(cs) else 0)
    decreases cs
  {
    if cs != [] {
      RunGap(s, cs[0], x);
      RunAllGap(Run(s, cs[0], DirectParent), cs[1..], x);
    }
  }

  /**
    What the report needs of an anchor: both numerators are defined (no
    unsigned underflow) and the self figure does not exceed the total one.
   */
  predicate Reportable(a: Anchor)
  {
    && TotalTicks(a).Some? && SelfTicks(a).Some?
    && SelfTicks(a).value <= TotalTicks(a).value
  }

  /**
    With the corrected attribution, a session of well-timed top-level blocks
    started with nothing open leaves every anchor reportable once every
    block has finished:
    `self_children_elapsed <= children_elapsed <= elapsed`.
   */
  lemma SessionReportable(s: Snapshot, cs: seq<Call>)
    requires s.stack == [] && forall j :: 0 <= j < |s.anchors| ==> Reportable(s.anchors[j])
    requires forall i :: 0 <= i < |cs| ==> WellTimed(cs[i])
    ensures var r := RunAll(s, cs, DirectParent);
      forall j :: 0 <= j < |r.anchors| ==> Reportable(r.anchors[j])
  {
    var r := RunAll(s, cs, DirectParent);
    forall j | 0 <= j < |r.anchors|
      ensures Reportable(r.anchors[j])
    {
      RunAllTotal(s, cs, DirectParent, j);
      RunAllSelf(s, cs, j);
      RunAllGap(s, cs, j);
    }
  }

  /**
    Under either attribution, and whatever the durations, a session started
    with nothing open never makes a total numerator underflow.
   */
  lemma SessionTotalDefined(s: Snapshot, cs: seq<Call>, rule: Attribution)
    requires s.stack == []
    requires forall j :: 0 <= j < |s.anchors| ==> TotalTicks(s.anchors[j]).Some?
    ensures var r := RunAll(s, cs, rule);
      forall j :: 0 <= j < |r.anchors| ==> TotalTicks(r.anchors[j]).Some?
  {
    var r := RunAll(s, cs, rule);
    forall j | 0 <= j < |r.anchors|
      ensures TotalTicks(r.anchors[j]).Some?
    {
      RunAllTotal(s, cs, rule, j);
    }
  }

  /** Anchors only ever get appended, so a name's id never moves once it is registered. */
  lemma FirstMatchStable(a: seq<Anchor>, b: seq<Anchor>, name: string)
    requires |a| <= |b| && forall k :: 0 <= k < |a| ==> b[k].name == a[k].name
    requires FirstMatch(a, name) < |a|
    ensures FirstMatch(b, name) == FirstMatch(a, name)
  {
    var i := FirstMatch(a, name);
    assert b[i].name == name;
  }

  /** Registering any name keeps the id of a name already registered, or of the name itself. */
  lemma RegisterKeepsId(s: Snapshot, n: string, name: string)
    requires name == n || IdOf(s, name) < |s.anchors|
    ensures IdOf(Register(s, n), name) == IdOf(s, name) < |Register(s, n).anchors|
  {
    var r := Register(s, n);
    if name == n {
      RegisterTwice(s, n);
    } else {
      assert forall k :: 0 <= k < |s.anchors| ==> r.anchors[k] == s.anchors[k];
      FirstMatchStable(s.anchors, r.anchors, name);
    }
  }

  /** A run keeps every name of the profiler as it was once the block was entered. */
  lemma RunKeepsEnteredNames(s: Snapshot, c: Call, rule: Attribution) returns (entered: Snapshot)
    requires StackInRange(s)
    ensures entered == Register(s, c.name)
    ensures |entered.anchors| <= |Run(s, c, rule).anchors|
    ensures forall k :: 0 <= k < |entered.anchors| ==> Run(s, c, rule).anchors[k].name == entered.anchors[k].name
  {
    var id, inner;
    id, entered, inner := RunSteps(s, c, rule);
  }

  /** After a block of `name` has run, `name` is registered at the id it was given. */
  lemma RunKeepsId(s: Snapshot, c: Call, rule: Attribution, name: string)
    requires StackInRange(s)
    requires name == c.name || IdOf(s, name) < |s.anchors|
    ensures IdOf(Run(s, c, rule), name) == IdOf(s, name) < |Run(s, c, rule).anchors|
  {
    var entered := RunKeepsEnteredNames(s, c, rule);
    RegisterKeepsId(s, c.name, name);
    FirstMatchStable(entered.anchors, Run(s, c, rule).anchors, name);
  }

  /**
    Recursion: when every top-level block of a session is of one anchor and
    no block of that anchor is open around the session, its total numerator
    grows by exactly the sum of the top-level spans, not by the spans of the
    nested recursive blocks.
   */
  lemma {:induction false} RecursionTotal(s: Snapshot, cs: seq<Call>, rule: Attribution, name: string)
    requires StackInRange(s) && IdOf(s, name) !in s.stack
    requires forall i :: 0 <= i < |cs| ==> cs[i].name == name
    ensures TotalOf(RunAll(s, cs, rule), IdOf(s, name)) == TotalOf(s, IdOf(s, name)) + SpanSum(cs)
    decreases cs
  {
    if cs != [] {
      var next := Run(s, cs[0], rule);
      RunTotal(s, cs[0], rule, IdOf(s, name));
      RunKeepsId(s, cs[0], rule, name);
      RecursionTotal(next, cs[1..], rule, name);
    }
  }

  /** A block with nothing nested: register, then finish at once. */
  lemma RunLeaf(s: Snapshot, name: string, span: nat, rule: Attribution)
    requires StackInRange(s)
    ensures Run(s, Call(name, span, []), rule) == Finish(Register(s, name), Block(IdOf(s, name), span), rule)
  {
    var id, entered, inner := RunSteps(s, Call(name, span, []), rule);
    assert inner == entered;
  }

  /** A block with exactly one block nested in it. */
  lemma RunOneInner(s: Snapshot, name: string, span: nat, inner: Call, rule: Attribution)
    requires StackInRange(s)
    ensures Run(s, Call(name, span, [inner]), rule) ==
      Finish(Run(Register(s, name), inner, rule), Block(IdOf(s, name), span), rule)
  {
    var id, entered, afterBody := RunSteps(s, Call(name, span, [inner]), rule);
    assert [inner][1..] == [];
    assert afterBody == RunAll(Run(entered, inner, rule), [], rule);
  }

  /** Two distinct names opened on an empty profiler get ids 0 and 1. */
  lemma TwoOpenDistinct(outer: string, inner: string)
    requires outer != inner
    ensures Register(Register(Empty(), outer), inner) ==
      Snapshot([NewAnchor(outer), NewAnchor(inner)], [0, 1])
  {
    var s1 := Register(Empty(), outer);
    assert s1 == Snapshot([NewAnchor(outer)], [0]);
    assert !HasName(s1.anchors, inner);
  }

  /** The same name opened twice on an empty profiler gets id 0 both times. */
  lemma TwoOpenSame(name: string)
    ensures Register(Register(Empty(), name), name) == Snapshot([NewAnchor(name)], [0, 0])
  {
    var s1 := Register(Empty(), name);
    assert s1 == Snapshot([NewAnchor(name)], [0]);
    assert FirstMatch(s1.anchors, name) == 0;
  }

  /** Three distinct names opened on an empty profiler get ids 0, 1 and 2. */
  lemma ThreeOpenDistinct(outer: string, middle: string, inner: string)
    requires outer != middle && middle != inner && outer != inner
    ensures Register(Register(Register(Empty(), outer), middle), inner) ==
      Snapshot([NewAnchor(outer), NewAnchor(middle), NewAnchor(inner)], [0, 1, 2])
  {
    TwoOpenDistinct(outer, middle);
    var s2 := Register(Register(Empty(), outer), middle);
    assert !HasName(s2.anchors, inner);
  }

  /**
    A block with exactly one block nested in it, which runs nothing:
    register twice, then finish twice. `s2` is the state after both
    registrations, `id` and `innerId` the ids they push.
   */
  lemma RunLeafInside(s: Snapshot, name: string, span: nat, innerName: string, innerSpan: nat, rule: Attribution,
                      s2: Snapshot, id: nat, innerId: nat)
    requires StackInRange(s)
    requires id == IdOf(s, name) && innerId == IdOf(Register(s, name), innerName)
    requires s2 == Register(Register(s, name), innerName)
    ensures StackInRange(s2) && id < |s2.anchors| && innerId < |s2.anchors|
    ensures Run(s, Call(name, span, [Call(innerName, innerSpan, [])]), rule) ==
      Finish(Finish(s2, Block(innerId, innerSpan), rule), Block(id, span), rule)
  {
    var s1 := Register(s, name);
    RegisterPushesId(s, name);
    RegisterPushesId(s1, innerName);
    RunOneInner(s, name, span, Call(innerName, innerSpan, []), rule);
    RunLeaf(s1, innerName, innerSpan, rule);
  }

  /** Two nested blocks run from an empty profiler, as their two finishes. */
  lemma TwoLevelSteps(outer: string, outerSpan: nat, inner: string, innerSpan: nat, rule: Attribution,
                      s2: Snapshot, innerId: nat)
    requires s2 == Register(Register(Empty(), outer), inner) && s2.stack == [0, innerId]
    ensures StackInRange(s2) && innerId < |s2.anchors|
    ensures Run(Empty(), Call(outer, outerSpan, [Call(inner, innerSpan, [])]), rule) ==
      Finish(Finish(s2, Block(innerId, innerSpan), rule), Block(0, outerSpan), rule)
  {
    var s1 := Register(Empty(), outer);
    RegisterPushesId(Empty(), outer);
    RegisterPushesId(s1, inner);
    assert IdOf(Empty(), outer) == 0 && IdOf(s1, inner) == innerId;
    RunLeafInside(Empty(), outer, outerSpan, inner, innerSpan, rule, s2, 0, innerId);
  }

  /** Three nested blocks run from an empty profiler, as their three finishes. */
  lemma ThreeLevelSteps(outer: string, outerSpan: nat, middle: string, middleSpan: nat,
                        inner: string, innerSpan: nat, rule: Attribution)
    returns (s3: Snapshot)
    requires outer != middle && middle != inner && outer != inner
    ensures s3 == Snapshot([NewAnchor(outer), NewAnchor(middle), NewAnchor(inner)], [0, 1, 2])
    ensures Run(Empty(), Call(outer, outerSpan, [Call(middle, middleSpan, [Call(inner, innerSpan, [])])]), rule) ==
      Finish(Finish(Finish(s3, Block(2, innerSpan), rule), Block(1, middleSpan), rule), Block(0, outerSpan), rule)
  {
    var s1 := Register(Empty(), outer);
    var s2 := Register(s1, middle);
    s3 := Register(s2, inner);
    TwoOpenDistinct(outer, middle);
    ThreeOpenDistinct(outer, middle, inner);
    RegisterPushesId(Empty(), outer);
    RegisterPushesId(s1, middle);
    RegisterPushesId(s2, inner);
    assert IdOf(Empty(), outer) == 0 && IdOf(s1, middle) == 1 && IdOf(s2, inner) == 2;
    RunLeafInside(s1, middle, middleSpan, inner, innerSpan, rule, s3, 1, 2);
    RunOneInner(Empty(), outer, outerSpan, Call(middle, middleSpan, [Call(inner, innerSpan, [])]), rule);
  }

  /** A chain of three blocks, each the only block run by the one around it. */
  function Chain3(outer: string, outerSpan: nat, middle: string, middleSpan: nat,
                  inner: string, innerSpan: nat): Call
  {
    Call(outer, outerSpan, [Call(middle, middleSpan, [Call(inner, innerSpan, [])])])
  }

  lemma Chain3WellTimed(outer: string, outerSpan: nat, middle: string, middleSpan: nat,
                        inner: string, innerSpan: nat)
    requires innerSpan <= middleSpan <= outerSpan
    ensures WellTimed(Chain3(outer, outerSpan, middle, middleSpan, inner, innerSpan))
  {
    var b := Call(inner, innerSpan, []);
    var c := Call(middle, middleSpan, [b]);
    assert [b][1..] == [] && [c][1..] == [];
    assert SpanSum([b]) == innerSpan && SpanSum([c]) == middleSpan;
    assert WellTimed(b) && WellTimed(c);
  }

  /** The three finishes of a chain as written, as seen from anchor 0. */
  lemma AsWrittenChain3(s3: Snapshot, outerSpan: nat, middleSpan: nat, innerSpan: nat)
    requires s3.stack == [0, 1, 2] && |s3.anchors| == 3 && s3.anchors[0].elapsed == 0
    requires s3.anchors[0].childrenElapsed == 0
    ensures StackInRange(s3)
    ensures var r := AddBlockSpec(AddBlockSpec(AddBlockSpec(s3, Block(2, innerSpan)), Block(1, middleSpan)),
                                  Block(0, outerSpan));
      && |r.anchors| == 3 && r.anchors[0].name == s3.anchors[0].name
      && r.anchors[0].elapsed == outerSpan && r.anchors[0].childrenElapsed == middleSpan + innerSpan
  {
    var s4 := AddBlockSpec(s3, Block(2, innerSpan));
    assert s4.stack == [0, 1] && 0 in s4.stack;
    var s5 := AddBlockSpec(s4, Block(1, middleSpan));
    assert s5.stack == [0] && 0 in s5.stack;
  }

  /** A chain of three distinct blocks, run as written, as its three finishes. */
  lemma AsWrittenChain3Steps(outer: string, outerSpan: nat, middle: string, middleSpan: nat,
                             inner: string, innerSpan: nat) returns (s3: Snapshot)
    requires outer != middle && middle != inner && outer != inner
    ensures s3 == Snapshot([NewAnchor(outer), NewAnchor(middle), NewAnchor(inner)], [0, 1, 2])
    ensures Run(Empty(), Chain3(outer, outerSpan, middle, middleSpan, inner, innerSpan), EveryEnclosing) ==
      AddBlockSpec(AddBlockSpec(AddBlockSpec(s3, Block(2, innerSpan)), Block(1, middleSpan)), Block(0, outerSpan))
  {
    s3 := Snapshot([NewAnchor(outer), NewAnchor(middle), NewAnchor(inner)], [0, 1, 2]);
    var s4 := Finish(s3, Block(2, innerSpan), EveryEnclosing);
    var s5 := Finish(s4, Block(1, middleSpan), EveryEnclosing);
    assert Run(Empty(), Chain3(outer, outerSpan, middle, middleSpan, inner, innerSpan), EveryEnclosing) ==
      Finish(s5, Block(0, outerSpan), EveryEnclosing) by {
      var t := ThreeLevelSteps(outer, outerSpan, middle, middleSpan, inner, innerSpan, EveryEnclosing);
    }
    assert s4 == AddBlockSpec(s3, Block(2, innerSpan));
    assert s5 == AddBlockSpec(s4, Block(1, middleSpan));
  }

  /**
    As written, `add_block` charges the innermost block's span to both
    enclosing anchors, so the outermost anchor's child time is the middle
    span plus the inner span. Whenever those two add up to more than the
    outer span (10, 9 and 8 ticks, say), its self numerator
    `elapsed - children_elapsed` underflows, although the nesting is well
    timed.
   */
  lemma AsWrittenSelfUnderflows(outer: string, outerSpan: nat, middle: string, middleSpan: nat,
                                inner: string, innerSpan: nat)
    requires outer != middle && middle != inner && outer != inner
    requires innerSpan <= middleSpan <= outerSpan < middleSpan + innerSpan
    ensures WellTimed(Chain3(outer, outerSpan, middle, middleSpan, inner, innerSpan))
    ensures var r := Run(Empty(), Chain3(outer, outerSpan, middle, middleSpan, inner, innerSpan), EveryEnclosing);
      && |r.anchors| == 3 && r.anchors[0].name == outer
      && r.anchors[0].elapsed == outerSpan && r.anchors[0].childrenElapsed == middleSpan + innerSpan
      && SelfTicks(r.anchors[0]).None?
  {
    Chain3WellTimed(outer, outerSpan, middle, middleSpan, inner, innerSpan);
    var s3 := AsWrittenChain3Steps(outer, outerSpan, middle, middleSpan, inner, innerSpan);
    AsWrittenChain3(s3, outerSpan, middleSpan, innerSpan);
    var r := AddBlockSpec(AddBlockSpec(AddBlockSpec(s3, Block(2, innerSpan)), Block(1, middleSpan)),
                          Block(0, outerSpan));
    assert SelfTicks(r.anchors[0]).None?;
  }

  /** The three finishes of a chain with the corrected attribution, on anchor 0. */
  lemma DirectParentChain3(s3: Snapshot, outerSpan: nat, middleSpan: nat, innerSpan: nat)
    requires s3.stack == [0, 1, 2] && |s3.anchors| == 3 && s3.anchors[0].elapsed == 0
    requires s3.anchors[0].childrenElapsed == 0
    ensures StackInRange(s3)
    ensures var r := AddBlockDirect(AddBlockDirect(AddBlockDirect(s3, Block(2, innerSpan)), Block(1, middleSpan)),
                                    Block(0, outerSpan));
      && |r.anchors| == 3 && r.anchors[0].name == s3.anchors[0].name
      && r.anchors[0].elapsed == outerSpan && r.anchors[0].childrenElapsed == middleSpan
  {
    var s4 := AddBlockDirect(s3, Block(2, innerSpan));
    assert Parent(s3.stack) == Some(1) && s4.stack == [0, 1];
    var s5 := AddBlockDirect(s4, Block(1, middleSpan));
    assert Parent(s4.stack) == Some(0) && s5.stack == [0];
    assert Parent(s5.stack) == None;
  }

  /** A chain of three distinct blocks, run with the corrected attribution, as its three finishes. */
  lemma DirectParentChain3Steps(outer: string, outerSpan: nat, middle: string, middleSpan: nat,
                                inner: string, innerSpan: nat) returns (s3: Snapshot)
    requires outer != middle && middle != inner && outer != inner
    ensures s3 == Snapshot([NewAnchor(outer), NewAnchor(middle), NewAnchor(inner)], [0, 1, 2])
    ensures StackInRange(s3)
    ensures Run(Empty(), Chain3(outer, outerSpan, middle, middleSpan, inner, innerSpan), DirectParent) ==
      AddBlockDirect(AddBlockDirect(AddBlockDirect(s3, Block(2, innerSpan)), Block(1, middleSpan)), Block(0, outerSpan))
  {
    s3 := Snapshot([NewAnchor(outer), NewAnchor(middle), NewAnchor(inner)], [0, 1, 2]);
    var s4 := Finish(s3, Block(2, innerSpan), DirectParent);
    var s5 := Finish(s4, Block(1, middleSpan), DirectParent);
    assert Run(Empty(), Chain3(outer, outerSpan, middle, middleSpan, inner, innerSpan), DirectParent) ==
      Finish(s5, Block(0, outerSpan), DirectParent) by {
      var t := ThreeLevelSteps(outer, outerSpan, middle, middleSpan, inner, innerSpan, DirectParent);
    }
    assert s4 == AddBlockDirect(s3, Block(2, innerSpan));
    assert s5 == AddBlockDirect(s4, Block(1, middleSpan));
  }

  /** The corrected attribution charges the outer anchor only the middle span. */
  lemma DirectParentChain3Self(outer: string, outerSpan: nat, middle: string, middleSpan: nat,
                               inner: string, innerSpan: nat)
    requires outer != middle && middle != inner && outer != inner
    requires innerSpan <= middleSpan <= outerSpan
    ensures var r := Run(Empty(), Chain3(outer, outerSpan, middle, middleSpan, inner, innerSpan), DirectParent);
      && |r.anchors| == 3 && r.anchors[0].name == outer
      && r.anchors[0].childrenElapsed == middleSpan
      && SelfTicks(r.anchors[0]) == Some(outerSpan - middleSpan)
  {
    var s3 := DirectParentChain3Steps(outer, outerSpan, middle, middleSpan, inner, innerSpan);
    DirectParentChain3(s3, outerSpan, middleSpan, innerSpan);
    var r := AddBlockDirect(AddBlockDirect(AddBlockDirect(s3, Block(2, innerSpan)), Block(1, middleSpan)),
                            Block(0, outerSpan));
    assert SelfTicks(r.anchors[0]) == Some(outerSpan - middleSpan);
  }

  /** The two finishes of a block recursing once into itself, as written. */
  lemma AsWrittenRecursionChain(s2: Snapshot, outerSpan: nat, innerSpan: nat)
    requires s2.stack == [0, 0] && |s2.anchors| == 1
    requires s2.anchors[0].elapsed == 0 && s2.anchors[0].childrenElapsed == 0
    requires s2.anchors[0].selfChildrenElapsed == 0
    ensures StackInRange(s2)
    ensures var r := AddBlockSpec(AddBlockSpec(s2, Block(0, innerSpan)), Block(0, outerSpan));
      && |r.anchors| == 1
      && r.anchors[0].elapsed == outerSpan + innerSpan
      && r.anchors[0].childrenElapsed == 0 && r.anchors[0].selfChildrenElapsed == innerSpan
      && TotalTicks(r.anchors[0]) == Some(outerSpan)
      && SelfTicks(r.anchors[0]) == Some(outerSpan + innerSpan)
  {
    var s3 := AddBlockSpec(s2, Block(0, innerSpan));
    assert s3.stack == [0] && 0 in s3.stack;
    var s4 := AddBlockSpec(s3, Block(0, outerSpan));
    assert s4.stack == [];
  }

  /** A block recursing once into itself, run as written, as its two finishes. */
  lemma RecursionAsWrittenSteps(name: string, outerSpan: nat, innerSpan: nat) returns (s2: Snapshot)
    ensures s2 == Snapshot([NewAnchor(name)], [0, 0])
    ensures Run(Empty(), Call(name, outerSpan, [Call(name, innerSpan, [])]), EveryEnclosing) ==
      AddBlockSpec(AddBlockSpec(s2, Block(0, innerSpan)), Block(0, outerSpan))
  {
    s2 := Snapshot([NewAnchor(name)], [0, 0]);
    TwoOpenSame(name);
    TwoLevelSteps(name, outerSpan, name, innerSpan, EveryEnclosing, s2, 0);
    var s3 := Finish(s2, Block(0, innerSpan), EveryEnclosing);
    assert s3 == AddBlockSpec(s2, Block(0, innerSpan));
  }

  /**
    As written, an anchor recursing once into itself reports a self figure
    of both spans added (15 ticks for 10 around 5) against a total of the
    outer span alone (10): the inner block's time is subtracted from the
    total but never from the self time.
   */
  lemma AsWrittenRecursionSelfExceedsTotal(name: string, outerSpan: nat, innerSpan: nat)
    requires 0 < innerSpan <= outerSpan
    ensures WellTimed(Call(name, outerSpan, [Call(name, innerSpan, [])]))
    ensures var r := Run(Empty(), Call(name, outerSpan, [Call(name, innerSpan, [])]), EveryEnclosing);
      && |r.anchors| == 1
      && TotalTicks(r.anchors[0]) == Some(outerSpan)
      && SelfTicks(r.anchors[0]) == Some(outerSpan + innerSpan)
      && !Reportable(r.anchors[0])
  {
    var b := Call(name, innerSpan, []);
    assert [b][1..] == [] && SpanSum([b]) == innerSpan;
    assert WellTimed(b);
    var s2 := RecursionAsWrittenSteps(name, outerSpan, innerSpan);
    AsWrittenRecursionChain(s2, outerSpan, innerSpan);
    var r := AddBlockSpec(AddBlockSpec(s2, Block(0, innerSpan)), Block(0, outerSpan));
    assert !Reportable(r.anchors[0]);
  }

  /** The two finishes of two distinct nested anchors, as written. */
  lemma OuterInnerChain(s2: Snapshot, outerSpan: nat, innerSpan: nat)
    requires s2.stack == [0, 1] && |s2.anchors| == 2
    requires forall j :: 0 <= j < 2 ==>
      s2.anchors[j].calls == 0 && s2.anchors[j].elapsed == 0 &&
      s2.anchors[j].childrenElapsed == 0 && s2.anchors[j].selfChildrenElapsed == 0
    ensures StackInRange(s2)
    ensures var r := AddBlockSpec(AddBlockSpec(s2, Block(1, innerSpan)), Block(0, outerSpan));
      && |r.anchors| == 2
      && r.anchors[0].calls == 1 && r.anchors[0].elapsed == outerSpan
      && r.anchors[0].childrenElapsed == innerSpan && r.anchors[0].selfChildrenElapsed == 0
      && r.anchors[1].calls == 1 && r.anchors[1].elapsed == innerSpan
      && r.anchors[1].childrenElapsed == 0 && r.anchors[1].selfChildrenElapsed == 0
      && TotalTicks(r.anchors[0]) == Some(outerSpan) && TotalTicks(r.anchors[1]) == Some(innerSpan)
      && SelfTicks(r.anchors[1]) == Some(innerSpan)
  {
    var s3 := AddBlockSpec(s2, Block(1, innerSpan));
    assert s3.stack == [0] && 0 in s3.stack && 1 !in s3.stack;
    var s4 := AddBlockSpec(s3, Block(0, outerSpan));
    assert s4.stack == [];
  }

  /** Two distinct nested blocks, run as written, as their two finishes. */
  lemma OuterInnerSteps(outer: string, outerSpan: nat, inner: string, innerSpan: nat) returns (s2: Snapshot)
    requires outer != inner
    ensures s2 == Snapshot([NewAnchor(outer), NewAnchor(inner)], [0, 1])
    ensures Run(Empty(), Call(outer, outerSpan, [Call(inner, innerSpan, [])]), EveryEnclosing) ==
      AddBlockSpec(AddBlockSpec(s2, Block(1, innerSpan)), Block(0, outerSpan))
  {
    s2 := Snapshot([NewAnchor(outer), NewAnchor(inner)], [0, 1]);
    TwoOpenDistinct(outer, inner);
    TwoLevelSteps(outer, outerSpan, inner, innerSpan, EveryEnclosing, s2, 1);
    var s3 := Finish(s2, Block(1, innerSpan), EveryEnclosing);
    assert s3 == AddBlockSpec(s2, Block(1, innerSpan));
  }

  /**
    A report taken while the first block of an anchor is still open, on a
    fresh profiler: the anchor has no elapsed time yet, but a block of
    another anchor with positive span that finished directly inside it has
    already been charged to it as child time, so its self numerator
    underflows under either attribution. (As written, a block finished
    anywhere inside it is charged too; under the corrected rule only a direct
    child is.) This is what `print` meets inside the scope of a block opened
    once at the top of `main` with a block finished directly inside it.
   */
  lemma OpenBlockSelfUnderflows(outer: string, inner: string, span: nat, rule: Attribution)
    requires outer != inner && 0 < span
    ensures var r := Run(Register(Empty(), outer), Call(inner, span, []), rule);
      && r.stack == [0] && |r.anchors| == 2 && r.anchors[0].name == outer
      && r.anchors[0].elapsed == 0 && r.anchors[0].childrenElapsed == span
      && SelfTicks(r.anchors[0]).None?
  {
    var s1 := Register(Empty(), outer);
    assert s1 == Snapshot([NewAnchor(outer)], [0]);
    TwoOpenDistinct(outer, inner);
    var s2 := Register(s1, inner);
    assert IdOf(s1, inner) == 1;
    RunLeaf(s1, inner, span, rule);
    var r := Finish(s2, Block(1, span), rule);
    if rule == EveryEnclosing {
      assert r == AddBlockSpec(s2, Block(1, span));
      assert r.stack == [0] && 0 in r.stack;
    } else {
      assert r == AddBlockDirect(s2, Block(1, span));
      assert Parent(s2.stack) == Some(0);
    }
  }

  /**
    Two levels of distinct anchors are attributed as intended even as
    written: `outer` calling `inner` once reports, for `outer`, the outer
    span as total and the outer minus the inner span as self, and for
    `inner` its span as both.
   */
  lemma OuterInnerReport(outer: string, outerSpan: nat, inner: string, innerSpan: nat)
    requires outer != inner && innerSpan <= outerSpan
    ensures var r := Run(Empty(), Call(outer, outerSpan, [Call(inner, innerSpan, [])]), EveryEnclosing);
      && |r.anchors| == 2 && r.anchors[0].name == outer && r.anchors[1].name == inner
      && r.anchors[0].calls == 1 && r.anchors[1].calls == 1
      && TotalTicks(r.anchors[0]) == Some(outerSpan) && SelfTicks(r.anchors[0]) == Some(outerSpan - innerSpan)
      && TotalTicks(r.anchors[1]) == Some(innerSpan) && SelfTicks(r.anchors[1]) == Some(innerSpan)
  {
    var s2 := OuterInnerSteps(outer, outerSpan, inner, innerSpan);
    OuterInnerChain(s2, outerSpan, innerSpan);
    var r := AddBlockSpec(AddBlockSpec(s2, Block(1, innerSpan)), Block(0, outerSpan));
    assert SelfTicks(r.anchors[0]) == Some(outerSpan - innerSpan);
  }
}
