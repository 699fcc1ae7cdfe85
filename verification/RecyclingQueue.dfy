// LockfreeQueueOfSharedPtrs, both variants, as the steps its threads take: every operation of a
// boost lock free queue, every assignment to a heap allocated shared pointer, every new and
// delete is one step. The recycling variant does the steps of the simple one, and both behave
// like a queue whose operations happen at once.
module RecyclingQueue {
  import opened Wrappers
  import opened Lists

  // A heap allocated shared pointer, the object it may own, and a thread.
  type Cell = nat
  type Item = nat
  type Thread = nat

  // What the thread does next, or what its caller chose.
  datatype Act = CallPush(x: Item) | CallPop | New(c: Cell) | Go | Refuse

  datatype Label = Tau | Called(t: Thread, x: Item) | Enqueued(t: Thread, x: Item) | Dequeued(t: Thread, x: Item)
                 | FoundEmpty(t: Thread) | PushReturned(t: Thread, ok: bool) | PopReturned(t: Thread, x: Item)

  // ---------- the recycling variant ----------

  datatype Pc =
    | Idle
    | WantCell(x: Item)
    | GotRecycled(x: Item, c: Cell)
    | Full(x: Item, c: Cell)
    | Rejected(x: Item, c: Cell)
    | PushEmptied(c: Cell)
    | PushDeleting(c: Cell)
    | PushReturning(ok: bool)
    | Popping(c: Cell)
    | Copied(x: Item, c: Cell)
    | PopEmptied(x: Item, c: Cell)
    | PopDeleting(x: Item, c: Cell)
    | PopReturning(x: Item)

  // heap: the cells that are allocated and what they own.
  datatype State = State(heap: map<Cell, Option<Item>>, main: seq<Cell>, recycled: seq<Cell>, threads: map<Thread, Pc>)

  datatype Stepped = Stepped(state: State, seen: Label)

  function At(s: State, t: Thread, pc: Pc): State { s.(threads := s.threads[t := pc]) }

  // None: not this thread's next step.
  function Step(s: State, t: Thread, a: Act): Option<Stepped>
    requires t in s.threads
  {
    match (s.threads[t], a)
    case (Idle, CallPush(x)) => Some(Stepped(At(s, t, WantCell(x)), Called(t, x)))
    case (WantCell(x), Go) =>
      if s.recycled == [] then None
      else Some(Stepped(At(s.(recycled := s.recycled[1..]), t, GotRecycled(x, s.recycled[0])), Tau))
    case (WantCell(x), New(c)) =>
      if s.recycled != [] || c in s.heap then None
      else Some(Stepped(At(s.(heap := s.heap[c := Some(x)]), t, Full(x, c)), Tau))
    case (GotRecycled(x, c), Go) => Some(Stepped(At(s.(heap := s.heap[c := Some(x)]), t, Full(x, c)), Tau))
    case (Full(x, c), Go) => Some(Stepped(At(s.(main := s.main + [c]), t, PushReturning(true)), Enqueued(t, x)))
    case (Full(x, c), Refuse) => Some(Stepped(At(s, t, Rejected(x, c)), Tau))
    case (Rejected(x, c), Go) => Some(Stepped(At(s.(heap := s.heap[c := None]), t, PushEmptied(c)), Tau))
    case (PushEmptied(c), Go) => Some(Stepped(At(s.(recycled := s.recycled + [c]), t, PushReturning(false)), Tau))
    case (PushEmptied(c), Refuse) => Some(Stepped(At(s, t, PushDeleting(c)), Tau))
    case (PushDeleting(c), Go) => Some(Stepped(At(s.(heap := s.heap - {c}), t, PushReturning(false)), Tau))
    case (PushReturning(ok), Go) => Some(Stepped(At(s, t, Idle), PushReturned(t, ok)))
    case (Idle, CallPop) =>
      if s.main == [] then Some(Stepped(s, FoundEmpty(t)))
      else if s.main[0] !in s.heap || s.heap[s.main[0]] == None then None
      else Some(Stepped(At(s.(main := s.main[1..]), t, Popping(s.main[0])), Dequeued(t, s.heap[s.main[0]].value)))
    case (Popping(c), Go) =>
      if c !in s.heap || s.heap[c] == None then None else Some(Stepped(At(s, t, Copied(s.heap[c].value, c)), Tau))
    case (Copied(x, c), Go) => Some(Stepped(At(s.(heap := s.heap[c := None]), t, PopEmptied(x, c)), Tau))
    case (PopEmptied(x, c), Go) => Some(Stepped(At(s.(recycled := s.recycled + [c]), t, PopReturning(x)), Tau))
    case (PopEmptied(x, c), Refuse) => Some(Stepped(At(s, t, PopDeleting(x, c)), Tau))
    case (PopDeleting(x, c), Go) => Some(Stepped(At(s.(heap := s.heap - {c}), t, PopReturning(x)), Tau))
    case (PopReturning(x), Go) => Some(Stepped(At(s, t, Idle), PopReturned(t, x)))
    case _ => None
  }

  // The cell only this thread knows of.
  function InHand(pc: Pc): Option<Cell>
  {
    match pc
    case Idle => None
    case WantCell(_) => None
    case GotRecycled(_, c) => Some(c)
    case Full(_, c) => Some(c)
    case Rejected(_, c) => Some(c)
    case PushEmptied(c) => Some(c)
    case PushDeleting(c) => Some(c)
    case PushReturning(_) => None
    case Popping(c) => Some(c)
    case Copied(_, c) => Some(c)
    case PopEmptied(_, c) => Some(c)
    case PopDeleting(_, c) => Some(c)
    case PopReturning(_) => None
  }

  // What that cell owns.
  predicate HoldsAs(pc: Pc, held: Option<Item>)
  {
    match pc
    case Full(x, _) => held == Some(x)
    case Rejected(x, _) => held == Some(x)
    case Popping(_) => held.Some?
    case Copied(x, _) => held == Some(x)
    case _ => held == None
  }

  ghost predicate HandOk(s: State, t: Thread)
    requires t in s.threads
  {
    match InHand(s.threads[t])
    case None => true
    case Some(c) => c in s.heap && c !in s.main && c !in s.recycled && HoldsAs(s.threads[t], s.heap[c])
  }

  ghost predicate Located(s: State, c: Cell)
  {
    c in s.main || c in s.recycled || exists t :: t in s.threads && InHand(s.threads[t]) == Some(c)
  }

  // Every allocated cell is in exactly one place, nothing refers to a deleted cell, and a cell
  // owns an item exactly while it is queued or in a hand that still needs it.
  ghost predicate Inv(s: State)
  {
    && Distinct(s.main) && Distinct(s.recycled)
    && (forall c | c in s.main :: c in s.heap && s.heap[c].Some? && c !in s.recycled)
    && (forall c | c in s.recycled :: c in s.heap && s.heap[c] == None)
    && (forall t | t in s.threads :: HandOk(s, t))
    && (forall t, u | t in s.threads && u in s.threads && t != u && InHand(s.threads[t]).Some? ::
          InHand(s.threads[t]) != InHand(s.threads[u]))
    && (forall c | c in s.heap :: Located(s, c))
  }

  // ---------- the moves steps are made of ----------

  // A cell stays where it is unless the moving thread had or gets it.
  lemma LocatedElsewhere(s: State, s': State, t: Thread, c: Cell)
    requires t in s.threads && s'.threads.Keys == s.threads.Keys && Located(s, c)
    requires forall u | u in s.threads && u != t :: s'.threads[u] == s.threads[u]
    requires c in s.main ==> c in s'.main
    requires c in s.recycled ==> c in s'.recycled
    requires InHand(s.threads[t]) != Some(c) || InHand(s'.threads[t]) == Some(c)
    ensures Located(s', c)
  {
    if c !in s.main && c !in s.recycled {
      var u: Thread :| u in s.threads && InHand(s.threads[u]) == Some(c);
      assert u in s'.threads && InHand(s'.threads[u]) == Some(c);
    }
  }

  lemma TurnKeepsInv(s: State, t: Thread, pc: Pc)
    requires t in s.threads && Inv(s) && InHand(pc) == InHand(s.threads[t])
    requires InHand(pc).Some? && InHand(pc).value in s.heap ==> HoldsAs(pc, s.heap[InHand(pc).value])
    ensures Inv(At(s, t, pc))
  {
    hide Located;
    assert HandOk(s, t);
    var s' := At(s, t, pc);
    forall u | u in s'.threads ensures HandOk(s', u) { assert HandOk(s, u); }
    forall c | c in s'.heap ensures Located(s', c) { LocatedElsewhere(s, s', t, c); }
  }

  lemma TakeMainKeepsInv(s: State, t: Thread, pc: Pc)
    requires t in s.threads && Inv(s) && InHand(s.threads[t]) == None && s.main != []
    requires pc == Popping(s.main[0])
    ensures Inv(At(s.(main := s.main[1..]), t, pc))
  {
    hide Located;
    var s' := At(s.(main := s.main[1..]), t, pc);
    var c0 := s.main[0];
    assert c0 in s.main && s.main == [c0] + s'.main;
    forall u | u in s'.threads ensures HandOk(s', u) { assert HandOk(s, u); }
    forall u | u in s.threads ensures InHand(s.threads[u]) != Some(c0) { assert HandOk(s, u); }
    forall c | c in s'.heap ensures Located(s', c) {
      if c == c0 { HandLocates(s', t, c); } else { LocatedElsewhere(s, s', t, c); }
    }
  }

  lemma HandLocates(s: State, t: Thread, c: Cell)
    requires t in s.threads && InHand(s.threads[t]) == Some(c)
    ensures Located(s, c)
  {
  }

  lemma TakeRecycledKeepsInv(s: State, t: Thread, pc: Pc)
    requires t in s.threads && Inv(s) && InHand(s.threads[t]) == None && s.recycled != []
    requires InHand(pc) == Some(s.recycled[0]) && HoldsAs(pc, None)
    ensures Inv(At(s.(recycled := s.recycled[1..]), t, pc))
  {
    hide Located;
    var s' := At(s.(recycled := s.recycled[1..]), t, pc);
    var c0 := s.recycled[0];
    assert c0 in s.recycled && s.recycled == [c0] + s'.recycled;
    forall u | u in s'.threads ensures HandOk(s', u) { assert HandOk(s, u); }
    forall u | u in s.threads ensures InHand(s.threads[u]) != Some(c0) { assert HandOk(s, u); }
    forall c | c in s'.heap ensures Located(s', c) {
      if c == c0 { HandLocates(s', t, c); } else { LocatedElsewhere(s, s', t, c); }
    }
  }

  lemma PutKeepsInv(s: State, t: Thread, pc: Pc, c0: Cell, onMain: bool)
    requires t in s.threads && Inv(s) && InHand(s.threads[t]) == Some(c0) && InHand(pc) == None
    requires c0 in s.heap ==> s.heap[c0].Some? == onMain
    ensures Inv(At(if onMain then s.(main := s.main + [c0]) else s.(recycled := s.recycled + [c0]), t, pc))
  {
    hide Located;
    var s' := At(if onMain then s.(main := s.main + [c0]) else s.(recycled := s.recycled + [c0]), t, pc);
    assert HandOk(s, t);
    forall u | u in s'.threads ensures HandOk(s', u) { assert HandOk(s, u); }
    forall c | c in s'.heap ensures Located(s', c) {
      if c == c0 { QueueLocates(s', c); } else { LocatedElsewhere(s, s', t, c); }
    }
  }

  lemma QueueLocates(s: State, c: Cell)
    requires c in s.main || c in s.recycled
    ensures Located(s, c)
  {
  }

  // Filling or emptying the cell in hand, or a new cell.
  lemma WriteKeepsInv(s: State, t: Thread, pc: Pc, c0: Cell, held: Option<Item>)
    requires t in s.threads && Inv(s) && InHand(pc) == Some(c0) && HoldsAs(pc, held)
    requires InHand(s.threads[t]) == Some(c0) || (InHand(s.threads[t]) == None && c0 !in s.heap)
    ensures Inv(At(s.(heap := s.heap[c0 := held]), t, pc))
  {
    hide Located;
    var s' := At(s.(heap := s.heap[c0 := held]), t, pc);
    assert HandOk(s, t);
    forall u | u in s'.threads ensures HandOk(s', u) { assert HandOk(s, u); }
    forall u | u in s.threads && u != t ensures InHand(s.threads[u]) != Some(c0) { assert HandOk(s, u); }
    forall c | c in s'.heap ensures Located(s', c) {
      if c == c0 { HandLocates(s', t, c); } else { LocatedElsewhere(s, s', t, c); }
    }
  }

  lemma DeleteKeepsInv(s: State, t: Thread, pc: Pc, c0: Cell)
    requires t in s.threads && Inv(s) && InHand(s.threads[t]) == Some(c0) && InHand(pc) == None
    ensures Inv(At(s.(heap := s.heap - {c0}), t, pc))
  {
    hide Located;
    var s' := At(s.(heap := s.heap - {c0}), t, pc);
    assert HandOk(s, t);
    forall u | u in s'.threads ensures HandOk(s', u) { assert HandOk(s, u); }
    forall c | c in s'.heap ensures Located(s', c) { LocatedElsewhere(s, s', t, c); }
  }

  predicate Pops(pc: Pc)
  {
    pc.Popping? || pc.Copied? || pc.PopEmptied? || pc.PopDeleting? || pc.PopReturning?
  }

  lemma PopStepKeepsInv(s: State, t: Thread, a: Act)
    requires t in s.threads && Inv(s) && HandOk(s, t) && Step(s, t, a).Some?
    requires Pops(s.threads[t]) || (s.threads[t].Idle? && a.CallPop?)
    ensures Inv(Step(s, t, a).value.state)
  {
    hide Inv;
    var pc := Step(s, t, a).value.state.threads[t];
    match (s.threads[t], a) {
      case (Idle, CallPop) => if s.main != [] { TakeMainKeepsInv(s, t, pc); }
      case (Copied(_, c), _) => WriteKeepsInv(s, t, pc, c, None);
      case (PopEmptied(_, c), Go) => PutKeepsInv(s, t, pc, c, false);
      case (PopDeleting(_, c), _) => DeleteKeepsInv(s, t, pc, c);
      case _ => TurnKeepsInv(s, t, pc);
    }
  }

  lemma StepKeepsInv(s: State, t: Thread, a: Act)
    requires t in s.threads && Inv(s) && Step(s, t, a).Some?
    ensures Inv(Step(s, t, a).value.state)
  {
    HandIsOk(s, t);
    hide Inv;
    if Pops(s.threads[t]) || (s.threads[t].Idle? && a.CallPop?) {
      PopStepKeepsInv(s, t, a);
      return;
    }
    var pc := Step(s, t, a).value.state.threads[t];
    match (s.threads[t], a) {
      case (WantCell(x), Go) => TakeRecycledKeepsInv(s, t, pc);
      case (WantCell(x), New(c)) => WriteKeepsInv(s, t, pc, c, Some(x));
      case (GotRecycled(x, c), _) => WriteKeepsInv(s, t, pc, c, Some(x));
      case (Full(x, c), Go) => PutKeepsInv(s, t, pc, c, true);
      case (Rejected(_, c), _) => WriteKeepsInv(s, t, pc, c, None);
      case (PushEmptied(c), Go) => PutKeepsInv(s, t, pc, c, false);
      case (PushDeleting(c), _) => DeleteKeepsInv(s, t, pc, c);
      case _ => TurnKeepsInv(s, t, pc);
    }
  }

  lemma HandIsOk(s: State, t: Thread)
    requires t in s.threads && Inv(s)
    ensures HandOk(s, t)
  {
  }

  // No thread ever reads, empties or deletes a cell that is gone, or one another thread or a queue
  // still has: its next step is always there.
  lemma NoStepIsMissing(s: State, t: Thread)
    requires t in s.threads && Inv(s)
    ensures s.threads[t] == Idle ==> Step(s, t, CallPop).Some?
    ensures s.threads[t] != Idle && !s.threads[t].WantCell? ==> Step(s, t, Go).Some?
    ensures s.threads[t].WantCell? && s.recycled != [] ==> Step(s, t, Go).Some?
    ensures InHand(s.threads[t]).Some? ==>
              var c := InHand(s.threads[t]).value;
              && c in s.heap && c !in s.main && c !in s.recycled
              && forall u | u in s.threads && u != t :: InHand(s.threads[u]) != Some(c)
  {
    assert HandOk(s, t);
    if s.threads[t] == Idle && s.main != [] {
      assert s.main[0] in s.main;
    }
  }

  // The references held by cells are those of the queued items and of the hands that are still
  // pushing or copying.
  lemma ReferencesAreAccountedFor(s: State, c: Cell)
    requires Inv(s)
    ensures c in s.heap && s.heap[c].Some?
            <==> c in s.main || exists t :: t in s.threads && InHand(s.threads[t]) == Some(c)
                                            && (s.threads[t].Full? || s.threads[t].Rejected? || s.threads[t].Popping?
                                                || s.threads[t].Copied?)
  {
    if c in s.heap && s.heap[c].Some? && c !in s.main {
      assert Located(s, c);
      var t :| t in s.threads && InHand(s.threads[t]) == Some(c);
      assert HandOk(s, t);
    }
    if t: Thread :| t in s.threads && InHand(s.threads[t]) == Some(c) {
      assert HandOk(s, t);
    }
  }

  // ---------- the simple variant ----------

  datatype SimplePc =
    | SIdle
    | SWantCell(x: Item)
    | SFull(x: Item, c: Cell)
    | SRejected(x: Item, c: Cell)
    | SPushReturning(ok: bool)
    | SPopping(c: Cell)
    | SCopied(x: Item, c: Cell)
    | SPopReturning(x: Item)

  datatype Simple = Simple(heap: map<Cell, Item>, queue: seq<Cell>, threads: map<Thread, SimplePc>)

  datatype SimpleStepped = SimpleStepped(state: Simple, seen: Label)

  function SAt(s: Simple, t: Thread, pc: SimplePc): Simple { s.(threads := s.threads[t := pc]) }

  function SimpleStep(s: Simple, t: Thread, a: Act): Option<SimpleStepped>
    requires t in s.threads
  {
    match (s.threads[t], a)
    case (SIdle, CallPush(x)) => Some(SimpleStepped(SAt(s, t, SWantCell(x)), Called(t, x)))
    case (SWantCell(x), New(c)) =>
      if c in s.heap then None else Some(SimpleStepped(SAt(s.(heap := s.heap[c := x]), t, SFull(x, c)), Tau))
    case (SFull(x, c), Go) => Some(SimpleStepped(SAt(s.(queue := s.queue + [c]), t, SPushReturning(true)), Enqueued(t, x)))
    case (SFull(x, c), Refuse) => Some(SimpleStepped(SAt(s, t, SRejected(x, c)), Tau))
    case (SRejected(x, c), Go) => Some(SimpleStepped(SAt(s.(heap := s.heap - {c}), t, SPushReturning(false)), Tau))
    case (SPushReturning(ok), Go) => Some(SimpleStepped(SAt(s, t, SIdle), PushReturned(t, ok)))
    case (SIdle, CallPop) =>
      if s.queue == [] then Some(SimpleStepped(s, FoundEmpty(t)))
      else if s.queue[0] !in s.heap then None
      else Some(SimpleStepped(SAt(s.(queue := s.queue[1..]), t, SPopping(s.queue[0])), Dequeued(t, s.heap[s.queue[0]])))
    case (SPopping(c), Go) =>
      if c !in s.heap then None else Some(SimpleStepped(SAt(s, t, SCopied(s.heap[c], c)), Tau))
    case (SCopied(x, c), Go) => Some(SimpleStepped(SAt(s.(heap := s.heap - {c}), t, SPopReturning(x)), Tau))
    case (SPopReturning(x), Go) => Some(SimpleStepped(SAt(s, t, SIdle), PopReturned(t, x)))
    case _ => None
  }

  // ---------- the recycling variant refines the simple one ----------

  function AsSimplePc(pc: Pc): SimplePc
  {
    match pc
    case Idle => SIdle
    case WantCell(x) => SWantCell(x)
    case GotRecycled(x, _) => SWantCell(x)
    case Full(x, c) => SFull(x, c)
    case Rejected(x, c) => SRejected(x, c)
    case PushEmptied(_) => SPushReturning(false)
    case PushDeleting(_) => SPushReturning(false)
    case PushReturning(ok) => SPushReturning(ok)
    case Popping(c) => SPopping(c)
    case Copied(x, c) => SCopied(x, c)
    case PopEmptied(x, _) => SPopReturning(x)
    case PopDeleting(x, _) => SPopReturning(x)
    case PopReturning(x) => SPopReturning(x)
  }

  // To the simple variant a cell is deleted when it is emptied and new when it is filled.
  function AsSimple(s: State): Simple
  {
    Simple(map c | c in s.heap && s.heap[c].Some? :: s.heap[c].value, s.main,
           map t | t in s.threads :: AsSimplePc(s.threads[t]))
  }

  // The act of the simple variant that answers a step, if it is to move at all.
  function Answer(s: State, t: Thread, a: Act): Option<Act>
    requires t in s.threads
  {
    match (s.threads[t], a)
    case (WantCell(_), Go) => None
    case (GotRecycled(_, c), Go) => Some(New(c))
    case (PushEmptied(_), _) => None
    case (PushDeleting(_), _) => None
    case (PopEmptied(_, _), _) => None
    case (PopDeleting(_, _), _) => None
    case _ => Some(a)
  }

  function Live(heap: map<Cell, Option<Item>>): map<Cell, Item>
  {
    map c | c in heap && heap[c].Some? :: heap[c].value
  }

  lemma LiveChanges(heap: map<Cell, Option<Item>>, c: Cell, x: Item)
    ensures Live(heap[c := Some(x)]) == Live(heap)[c := x]
    ensures Live(heap[c := None]) == Live(heap) - {c}
    ensures c in heap && heap[c] == None ==> Live(heap - {c}) == Live(heap)
  {
  }

  lemma StaysPut(m: map<Thread, SimplePc>, t: Thread)
    requires t in m
    ensures m[t := m[t]] == m
  {
  }

  // Every step changes the heap, the main queue and the stepping thread at most.
  lemma StepAbstracts(s: State, t: Thread, a: Act)
    requires t in s.threads && Step(s, t, a).Some?
    ensures var s' := Step(s, t, a).value.state;
            && t in s'.threads
            && AsSimple(s') == SAt(Simple(Live(s'.heap), s'.main, AsSimple(s).threads), t, AsSimplePc(s'.threads[t]))
  {
    var s' := Step(s, t, a).value.state;
    assert AsSimple(s').threads == AsSimple(s).threads[t := AsSimplePc(s'.threads[t])];
  }

  lemma DeletingStutters(s: State, t: Thread, a: Act)
    requires t in s.threads && HandOk(s, t) && Step(s, t, a).Some?
    requires s.threads[t].PushDeleting? || s.threads[t].PopDeleting?
    ensures var r := Step(s, t, a).value; r.seen == Tau && AsSimple(r.state) == AsSimple(s)
  {
    HandHolds(s, t);
    AsSimpleFields(s, t);
    StaysPut(AsSimple(s).threads, t);
    StepAbstracts(s, t, a);
    hide AsSimple; hide Live; hide HoldsAs; hide HandOk;
    LiveChanges(s.heap, s.threads[t].c, 0);
  }

  // Handling empty cells is invisible.
  lemma StepStutters(s: State, t: Thread, a: Act)
    requires t in s.threads && HandOk(s, t) && Step(s, t, a).Some? && Answer(s, t, a) == None
    ensures var r := Step(s, t, a).value; r.seen == Tau && AsSimple(r.state) == AsSimple(s)
  {
    hide HoldsAs; hide HandOk;
    if s.threads[t].PushDeleting? || s.threads[t].PopDeleting? {
      DeletingStutters(s, t, a);
    } else {
      AsSimpleFields(s, t);
      StaysPut(AsSimple(s).threads, t);
      StepAbstracts(s, t, a);
      hide AsSimple; hide Live;
    }
  }

  // Filling a recycled cell is new, emptying one is delete, the rest is the same.
  lemma CellStepAnswered(s: State, t: Thread, a: Act)
    requires t in s.threads && HandOk(s, t) && Step(s, t, a).Some? && Answer(s, t, a).Some?
    requires s.threads[t].WantCell? || s.threads[t].GotRecycled? || s.threads[t].Rejected? || s.threads[t].Copied?
    ensures var r := Step(s, t, a).value;
            SimpleStep(AsSimple(s), t, Answer(s, t, a).value) == Some(SimpleStepped(AsSimple(r.state), r.seen))
  {
    HandHolds(s, t);
    AsSimpleFields(s, t);
    StepAbstracts(s, t, a);
    hide AsSimple; hide Live; hide HoldsAs; hide HandOk;
    match (s.threads[t], a) {
      case (WantCell(x), New(c)) => LiveChanges(s.heap, c, x); NotLive(s.heap, c);
      case (GotRecycled(x, c), _) => LiveChanges(s.heap, c, x); NotLive(s.heap, c);
      case (Rejected(x, c), _) => LiveChanges(s.heap, c, x);
      case (Copied(x, c), _) => LiveChanges(s.heap, c, x);
    }
  }

  lemma CallPopAnswered(s: State, t: Thread)
    requires t in s.threads && Inv(s) && s.threads[t].Idle?
    ensures var r := Step(s, t, CallPop).value;
            SimpleStep(AsSimple(s), t, CallPop) == Some(SimpleStepped(AsSimple(r.state), r.seen))
  {
    FirstIsFull(s);
    AsSimpleFields(s, t);
    StepAbstracts(s, t, CallPop);
    hide Inv; hide AsSimple; hide Live; hide HoldsAs; hide HandOk;
    if s.main != [] { LiveAt(s.heap, s.main[0]); } else { StaysPut(AsSimple(s).threads, t); }
  }

  lemma PoppingAnswered(s: State, t: Thread, a: Act)
    requires t in s.threads && HandOk(s, t) && Step(s, t, a).Some? && s.threads[t].Popping?
    ensures Answer(s, t, a) == Some(a)
    ensures var r := Step(s, t, a).value;
            SimpleStep(AsSimple(s), t, a) == Some(SimpleStepped(AsSimple(r.state), r.seen))
  {
    HandHolds(s, t);
    AsSimpleFields(s, t);
    StepAbstracts(s, t, a);
    hide AsSimple; hide Live; hide HoldsAs; hide HandOk;
    LiveAt(s.heap, s.threads[t].c);
  }

  lemma OtherStepAnswered(s: State, t: Thread, a: Act)
    requires t in s.threads && Step(s, t, a).Some? && Answer(s, t, a).Some?
    requires !s.threads[t].WantCell? && !s.threads[t].GotRecycled? && !s.threads[t].Rejected? && !s.threads[t].Copied?
    requires !(s.threads[t].Idle? && a.CallPop?) && !s.threads[t].Popping?
    ensures var r := Step(s, t, a).value;
            SimpleStep(AsSimple(s), t, Answer(s, t, a).value) == Some(SimpleStepped(AsSimple(r.state), r.seen))
  {
    AsSimpleFields(s, t);
    StepAbstracts(s, t, a);
    hide AsSimple; hide Live;
  }

  lemma StepRefines(s: State, t: Thread, a: Act)
    requires t in s.threads && Inv(s) && Step(s, t, a).Some?
    ensures var r, b := Step(s, t, a).value, Answer(s, t, a);
            match b
            case None => r.seen == Tau && AsSimple(r.state) == AsSimple(s)
            case Some(act) => SimpleStep(AsSimple(s), t, act) == Some(SimpleStepped(AsSimple(r.state), r.seen))
  {
    hide Step; hide SimpleStep; hide AsSimple; hide Inv; hide HandOk;
    HandIsOk(s, t);
    if Answer(s, t, a).None? {
      StepStutters(s, t, a);
    } else if s.threads[t].WantCell? || s.threads[t].GotRecycled? || s.threads[t].Rejected? || s.threads[t].Copied? {
      CellStepAnswered(s, t, a);
    } else if s.threads[t].Idle? && a.CallPop? {
      CallPopAnswered(s, t);
    } else if s.threads[t].Popping? {
      PoppingAnswered(s, t, a);
    } else {
      OtherStepAnswered(s, t, a);
    }
  }

  lemma HandHolds(s: State, t: Thread)
    requires t in s.threads && HandOk(s, t)
    ensures match s.threads[t]
            case GotRecycled(_, c) => c in s.heap && s.heap[c] == None
            case PushDeleting(c) => c in s.heap && s.heap[c] == None
            case PopDeleting(_, c) => c in s.heap && s.heap[c] == None
            case Popping(c) => c in s.heap && s.heap[c].Some?
            case _ => true
  {
  }

  lemma AsSimpleFields(s: State, t: Thread)
    requires t in s.threads
    ensures AsSimple(s).heap == Live(s.heap) && AsSimple(s).queue == s.main
    ensures t in AsSimple(s).threads && AsSimple(s).threads[t] == AsSimplePc(s.threads[t])
  {
  }

  lemma LiveAt(heap: map<Cell, Option<Item>>, c: Cell)
    ensures c in heap && heap[c].Some? ==> c in Live(heap) && Live(heap)[c] == heap[c].value
  {
  }

  lemma NotLive(heap: map<Cell, Option<Item>>, c: Cell)
    ensures c !in Live(heap) <==> c !in heap || heap[c] == None
  {
  }

  lemma FirstIsFull(s: State)
    requires Inv(s)
    ensures s.main != [] ==> s.main[0] in s.heap && s.heap[s.main[0]].Some?
  {
    if s.main != [] { assert s.main[0] in s.main; }
  }

  // ---------- runs ----------

  datatype Choice = Choice(t: Thread, a: Act)

  datatype Ran = Ran(state: State, trace: seq<Label>)

  datatype SimpleRan = SimpleRan(state: Simple, trace: seq<Label>)

  // Only calls, returns and the moments an item enters or leaves are visible.
  function Showing(l: Label, rest: seq<Label>): seq<Label> { if l == Tau then rest else [l] + rest }

  function Run(s: State, cs: seq<Choice>): Option<Ran>
    decreases |cs|
  {
    if cs == [] then Some(Ran(s, []))
    else if cs[0].t !in s.threads then None
    else
      match Step(s, cs[0].t, cs[0].a)
      case None => None
      case Some(r) =>
        match Run(r.state, cs[1..])
        case None => None
        case Some(rest) => Some(Ran(rest.state, Showing(r.seen, rest.trace)))
  }

  function SimpleRun(s: Simple, cs: seq<Choice>): Option<SimpleRan>
    decreases |cs|
  {
    if cs == [] then Some(SimpleRan(s, []))
    else if cs[0].t !in s.threads then None
    else
      match SimpleStep(s, cs[0].t, cs[0].a)
      case None => None
      case Some(r) =>
        match SimpleRun(r.state, cs[1..])
        case None => None
        case Some(rest) => Some(SimpleRan(rest.state, Showing(r.seen, rest.trace)))
  }

  function Start(threads: set<Thread>): State { State(map[], [], [], map t | t in threads :: Idle) }

  function SimpleStart(threads: set<Thread>): Simple { Simple(map[], [], map t | t in threads :: SIdle) }

  lemma StartIsSound(threads: set<Thread>)
    ensures Inv(Start(threads)) && AsSimple(Start(threads)) == SimpleStart(threads) && AllFull(Start(threads))
  {
  }

  // What the simple variant does while the recycling one runs.
  function Answers(s: State, cs: seq<Choice>): seq<Choice>
    requires Run(s, cs).Some?
    decreases |cs|
  {
    if cs == [] then []
    else
      var rest := Answers(Step(s, cs[0].t, cs[0].a).value.state, cs[1..]);
      match Answer(s, cs[0].t, cs[0].a)
      case None => rest
      case Some(b) => [Choice(cs[0].t, b)] + rest
  }

  // Under every interleaving the recycling queue keeps its invariant and shows exactly what the
  // simple queue shows in the interleaving that answers it.
  lemma {:induction false} RecyclingRefinesSimple(s: State, cs: seq<Choice>)
    requires Inv(s) && Run(s, cs).Some?
    ensures var r := Run(s, cs).value;
            Inv(r.state) && SimpleRun(AsSimple(s), Answers(s, cs)) == Some(SimpleRan(AsSimple(r.state), r.trace))
    decreases |cs|
  {
    hide Inv; hide Step; hide SimpleStep; hide AsSimple; hide Answer;
    if cs != [] {
      var t, a := cs[0].t, cs[0].a;
      var r := Step(s, t, a).value;
      StepKeepsInv(s, t, a);
      StepRefines(s, t, a);
      SimpleThreads(s, t);
      RecyclingRefinesSimple(r.state, cs[1..]);
      var rest := Answers(r.state, cs[1..]);
      if b: Act :| Answer(s, t, a) == Some(b) {
        assert ([Choice(t, b)] + rest)[1..] == rest;
      }
    }
  }

  lemma SimpleThreads(s: State, t: Thread)
    ensures t in s.threads <==> t in AsSimple(s).threads
  {
  }

  // ---------- first in, first out ----------

  function Entered(trace: seq<Label>): seq<Item>
  {
    if trace == [] then []
    else
      var rest := Entered(trace[1..]);
      if trace[0].Enqueued? then [trace[0].x] + rest else rest
  }

  function Left(trace: seq<Label>): seq<Item>
  {
    if trace == [] then []
    else
      var rest := Left(trace[1..]);
      if trace[0].Dequeued? then [trace[0].x] + rest else rest
  }

  ghost predicate AllFull(s: State)
  {
    forall c | c in s.main :: c in s.heap && s.heap[c].Some?
  }

  function Items(heap: map<Cell, Option<Item>>, cells: seq<Cell>): seq<Item>
    requires forall c | c in cells :: c in heap && heap[c].Some?
  {
    if cells == [] then [] else [heap[cells[0]].value] + Items(heap, cells[1..])
  }

  function Queued(s: State): seq<Item>
    requires AllFull(s)
  {
    Items(s.heap, s.main)
  }

  lemma {:induction false} ItemsElsewhere(h: map<Cell, Option<Item>>, k: map<Cell, Option<Item>>, cells: seq<Cell>)
    requires forall c | c in cells :: c in h && h[c].Some? && c in k && k[c] == h[c]
    ensures Items(h, cells) == Items(k, cells)
    decreases |cells|
  {
    if cells != [] {
      ItemsElsewhere(h, k, cells[1..]);
    }
  }

  lemma {:induction false} ItemsSnoc(h: map<Cell, Option<Item>>, cells: seq<Cell>, c: Cell)
    requires c in h && h[c].Some? && forall d | d in cells :: d in h && h[d].Some?
    ensures Items(h, cells + [c]) == Items(h, cells) + [h[c].value]
    decreases |cells|
  {
    if cells == [] {
      assert cells + [c] == [c];
      assert [c][1..] == [];
    } else {
      assert (cells + [c])[1..] == cells[1..] + [c];
      ItemsSnoc(h, cells[1..], c);
    }
  }

  lemma InvIsFull(s: State)
    requires Inv(s)
    ensures AllFull(s)
  {
  }

  lemma StepIsFifo(s: State, t: Thread, a: Act)
    requires t in s.threads && Inv(s) && Step(s, t, a).Some?
    ensures AllFull(s) && AllFull(Step(s, t, a).value.state)
    ensures var r := Step(s, t, a).value;
            var before, after := Queued(s), Queued(r.state);
            match r.seen
            case Enqueued(_, x) => after == before + [x]
            case Dequeued(_, x) => before == [x] + after
            case _ => after == before
  {
    hide Located;
    assert HandOk(s, t);
    var r := Step(s, t, a).value;
    InvIsFull(s);
    StepKeepsInv(s, t, a);
    InvIsFull(r.state);
    match r.seen {
      case Enqueued(_, x) => ItemsSnoc(s.heap, s.main, s.threads[t].c);
      case Dequeued(_, x) =>
      case _ => ItemsElsewhere(s.heap, r.state.heap, s.main);
    }
  }

  // In every run, in the order of the moments at which items enter and leave the main queue:
  // what was in it and what entered is what left, followed by what is in it.
  lemma {:induction false} RunIsFifo(s: State, cs: seq<Choice>)
    requires Inv(s) && Run(s, cs).Some?
    ensures AllFull(s) && AllFull(Run(s, cs).value.state)
    ensures var r := Run(s, cs).value;
            Queued(s) + Entered(r.trace) == Left(r.trace) + Queued(r.state)
    decreases |cs|
  {
    hide Inv; hide Step; hide AllFull; hide Queued;
    InvIsFull(s);
    if cs != [] {
      var r := Step(s, cs[0].t, cs[0].a).value;
      StepKeepsInv(s, cs[0].t, cs[0].a);
      StepIsFifo(s, cs[0].t, cs[0].a);
      RunIsFifo(r.state, cs[1..]);
      Unroll(Queued(s), Queued(r.state), r.seen, Run(r.state, cs[1..]).value.trace, Queued(Run(s, cs).value.state));
    }
  }

  lemma Unroll(before: seq<Item>, after: seq<Item>, l: Label, trace: seq<Label>, end: seq<Item>)
    requires after + Entered(trace) == Left(trace) + end
    requires match l
             case Enqueued(_, x) => after == before + [x]
             case Dequeued(_, x) => before == [x] + after
             case _ => after == before
    ensures before + Entered(Showing(l, trace)) == Left(Showing(l, trace)) + end
  {
    if l != Tau {
      assert ([l] + trace)[1..] == trace;
      match l {
        case Enqueued(_, x) => assert before + ([x] + Entered(trace)) == before + [x] + Entered(trace);
        case Dequeued(_, x) => assert [x] + after + Entered(trace) == [x] + (after + Entered(trace));
        case _ =>
      }
    }
  }

  // The visible moments as operations on a list. None: not what a queue would do.
  function Replayed(queue: seq<Item>, trace: seq<Label>): Option<seq<Item>>
    decreases |trace|
  {
    if trace == [] then Some(queue)
    else
      match trace[0]
      case Enqueued(_, x) => Replayed(queue + [x], trace[1..])
      case Dequeued(_, x) => if queue != [] && queue[0] == x then Replayed(queue[1..], trace[1..]) else None
      case FoundEmpty(_) => if queue == [] then Replayed(queue, trace[1..]) else None
      case _ => Replayed(queue, trace[1..])
  }

  lemma OnlyFoundEmptyIfEmpty(s: State, t: Thread, a: Act)
    requires t in s.threads && Inv(s) && Step(s, t, a).Some? && Step(s, t, a).value.seen.FoundEmpty?
    ensures AllFull(s) && Queued(s) == []
  {
    InvIsFull(s);
  }

  // Under every interleaving a pop takes the item that entered first, and finds the queue empty only
  // at a moment when nothing is in it.
  lemma {:induction false} EveryRunReplays(s: State, cs: seq<Choice>)
    requires Inv(s) && Run(s, cs).Some?
    ensures AllFull(s) && AllFull(Run(s, cs).value.state)
    ensures Replayed(Queued(s), Run(s, cs).value.trace) == Some(Queued(Run(s, cs).value.state))
    decreases |cs|
  {
    hide Inv; hide Step; hide AllFull; hide Queued;
    InvIsFull(s);
    if cs != [] {
      var r := Step(s, cs[0].t, cs[0].a).value;
      StepKeepsInv(s, cs[0].t, cs[0].a);
      StepIsFifo(s, cs[0].t, cs[0].a);
      if r.seen.FoundEmpty? { OnlyFoundEmptyIfEmpty(s, cs[0].t, cs[0].a); }
      EveryRunReplays(r.state, cs[1..]);
      var rest := Run(r.state, cs[1..]).value.trace;
      if r.seen != Tau { assert ([r.seen] + rest)[1..] == rest; }
    }
  }

  // ---------- every call happens at one moment ----------

  // How far a thread is with a call, as far as anybody can see.
  datatype Phase = Between | Asked(x: Item) | Put | Took(x: Item)

  // A push enters its own item once and then returns true, or returns false and enters nothing.
  // A pop returns the very item it took, or finds the queue empty.
  function Next(ph: Phase, l: Label): Option<Phase>
  {
    match (ph, l)
    case (Between, Called(_, x)) => Some(Asked(x))
    case (Between, Dequeued(_, x)) => Some(Took(x))
    case (Between, FoundEmpty(_)) => Some(Between)
    case (Asked(x), Enqueued(_, y)) => if x == y then Some(Put) else None
    case (Asked(_), PushReturned(_, ok)) => if ok then None else Some(Between)
    case (Put, PushReturned(_, ok)) => if ok then Some(Between) else None
    case (Took(x), PopReturned(_, y)) => if x == y then Some(Between) else None
    case _ => None
  }

  // None: not the story of a thread that makes one call after the other.
  function Story(ph: Phase, trace: seq<Label>, u: Thread): Option<Phase>
    decreases |trace|
  {
    if trace == [] then Some(ph)
    else if trace[0] == Tau || trace[0].t != u then Story(ph, trace[1..], u)
    else
      match Next(ph, trace[0])
      case None => None
      case Some(next) => Story(next, trace[1..], u)
  }

  predicate InPhase(s: State, u: Thread, ph: Phase)
  {
    && u in s.threads
    && match s.threads[u]
       case Idle => ph == Between
       case WantCell(x) => ph == Asked(x)
       case GotRecycled(x, _) => ph == Asked(x)
       case Full(x, _) => ph == Asked(x)
       case Rejected(x, _) => ph == Asked(x)
       case PushEmptied(_) => ph.Asked?
       case PushDeleting(_) => ph.Asked?
       case PushReturning(ok) => if ok then ph == Put else ph.Asked?
       case Popping(c) => c in s.heap && s.heap[c].Some? && ph == Took(s.heap[c].value)
       case Copied(x, _) => ph == Took(x)
       case PopEmptied(x, _) => ph == Took(x)
       case PopDeleting(x, _) => ph == Took(x)
       case PopReturning(x) => ph == Took(x)
  }

  lemma OwnStepTells(s: State, t: Thread, a: Act, ph: Phase) returns (next: Phase)
    requires t in s.threads && HandOk(s, t) && Step(s, t, a).Some? && InPhase(s, t, ph)
    ensures var r := Step(s, t, a).value;
            && InPhase(r.state, t, next)
            && (if r.seen == Tau then next == ph else r.seen.t == t && Next(ph, r.seen) == Some(next))
  {
    var r := Step(s, t, a).value;
    next := if r.seen == Tau then ph else match Next(ph, r.seen) case Some(n) => n case None => ph;
  }

  // A step of t touches no cell but its own, or one it just allocated.
  lemma OtherCellsStay(s: State, t: Thread, a: Act, u: Thread, c: Cell)
    requires t in s.threads && Step(s, t, a).Some? && t != u && u in s.threads
    requires c in s.heap && InHand(s.threads[t]) != Some(c)
    ensures var r := Step(s, t, a).value;
            && u in r.state.threads && r.state.threads[u] == s.threads[u]
            && c in r.state.heap && r.state.heap[c] == s.heap[c]
  {
  }

  lemma OthersLabel(s: State, t: Thread, a: Act, u: Thread)
    requires t in s.threads && Step(s, t, a).Some? && t != u && u in s.threads
    ensures var r := Step(s, t, a).value;
            && (r.seen == Tau || r.seen.t == t) && u in r.state.threads && r.state.threads[u] == s.threads[u]
  {
  }

  // What other threads do changes nothing for u: the cell in its hand is its own.
  lemma OtherStepTellsNothing(s: State, t: Thread, a: Act, u: Thread, ph: Phase)
    requires t in s.threads && Inv(s) && Step(s, t, a).Some? && InPhase(s, u, ph) && t != u
    ensures var r := Step(s, t, a).value;
            InPhase(r.state, u, ph) && (r.seen == Tau || r.seen.t == t)
  {
    OthersLabel(s, t, a, u);
    hide Step;
    if s.threads[u].Popping? {
      NoStepIsMissing(s, u);
      OtherCellsStay(s, t, a, u, s.threads[u].c);
    }
    hide Inv; hide HandOk;
  }

  // Under every interleaving every thread's history is a sequence of whole calls: what enters for
  // a push is its own item, once, before it returns true and never if it returns false, and a pop
  // returns the item that left the queue for it. With RunIsFifo: all calls seem to happen at once.
  lemma {:induction false} EveryCallIsWhole(s: State, cs: seq<Choice>, u: Thread, ph: Phase) returns (last: Phase)
    requires Inv(s) && Run(s, cs).Some? && InPhase(s, u, ph)
    ensures var r := Run(s, cs).value;
            Story(ph, r.trace, u) == Some(last) && InPhase(r.state, u, last)
    decreases |cs|
  {
    hide Inv; hide Step; hide InPhase; hide Next; hide HandOk;
    if cs == [] {
      return ph;
    }
    var t, a := cs[0].t, cs[0].a;
    var r := Step(s, t, a).value;
    StepKeepsInv(s, t, a);
    var next := ph;
    if t == u {
      HandIsOk(s, t);
      next := OwnStepTells(s, t, a, ph);
    } else {
      OtherStepTellsNothing(s, t, a, u, ph);
    }
    last := EveryCallIsWhole(r.state, cs[1..], u, next);
    var rest := Run(r.state, cs[1..]).value.trace;
    assert r.seen != Tau ==> ([r.seen] + rest)[1..] == rest;
  }

  // From the start, under every interleaving: the simple queue can show the same, the items that
  // entered are those that left followed by those that are queued, and every thread's history is
  // a sequence of whole calls.
  lemma EveryRunIsAQueue(threads: set<Thread>, cs: seq<Choice>, u: Thread) returns (last: Phase)
    requires Run(Start(threads), cs).Some? && u in threads
    ensures var r := Run(Start(threads), cs).value;
            && Inv(r.state) && AllFull(r.state)
            && SimpleRun(SimpleStart(threads), Answers(Start(threads), cs)) == Some(SimpleRan(AsSimple(r.state), r.trace))
            && Entered(r.trace) == Left(r.trace) + Queued(r.state)
            && Replayed([], r.trace) == Some(Queued(r.state))
            && Story(Between, r.trace, u) == Some(last) && InPhase(r.state, u, last)
  {
    var s := Start(threads);
    StartIsSound(threads);
    assert InPhase(s, u, Between) && Queued(s) == [];
    hide Run; hide Inv; hide AsSimple; hide Story; hide InPhase; hide Answers; hide SimpleRun;
    RecyclingRefinesSimple(s, cs);
    RunIsFifo(s, cs);
    EveryRunReplays(s, cs);
    last := EveryCallIsWhole(s, cs, u, Between);
    var r := Run(s, cs).value;
    assert [] + Entered(r.trace) == Entered(r.trace);
  }
}
