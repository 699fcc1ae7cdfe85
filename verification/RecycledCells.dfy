// What the recycling queue does with its cells: which steps there are, where a cell goes, and how
// many cells a run needs.
module RecycledCells {
  import opened Wrappers
  import opened Lists
  import opened RecyclingQueue

  // ---------- which steps there are ----------

  // A new cell is made only when none is to be recycled; the queues may refuse a full and an
  // emptied cell.
  predicate Offered(s: State, t: Thread, a: Act)
    requires t in s.threads
  {
    var pc := s.threads[t];
    match a
    case CallPush(_) => pc.Idle?
    case CallPop => pc.Idle?
    case New(c) => pc.WantCell? && s.recycled == [] && c !in s.heap
    case Go => !pc.Idle? && (pc.WantCell? ==> s.recycled != [])
    case Refuse => pc.Full? || pc.PushEmptied? || pc.PopEmptied?
  }

  lemma StepIff(s: State, t: Thread, a: Act)
    requires t in s.threads && Inv(s)
    ensures Step(s, t, a).Some? <==> Offered(s, t, a)
  {
    NoStepIsMissing(s, t);
    hide Inv;
    match a {
      case Go => assert s.threads[t] == Idle ==> Step(s, t, a).None?;
      case CallPop => assert s.threads[t] != Idle ==> Step(s, t, a).None?;
      case _ =>
    }
  }

  predicate Emptied(pc: Pc) { pc.PushEmptied? || pc.PopEmptied? }

  predicate Deletes(pc: Pc) { pc.PushDeleting? || pc.PopDeleting? }

  // The cells that are allocated change by what is made and what is deleted.
  lemma CellsChange(s: State, t: Thread, a: Act)
    requires t in s.threads && Inv(s) && Step(s, t, a).Some?
    ensures var r, pc := Step(s, t, a).value.state, s.threads[t];
            r.heap.Keys == if a.New? then s.heap.Keys + {a.c} else if Deletes(pc) then s.heap.Keys - {pc.c} else s.heap.Keys
  {
    HandIsOk(s, t);
    InHandIsThere(s, t);
    hide Inv; hide HandOk;
  }

  lemma InHandIsThere(s: State, t: Thread)
    requires t in s.threads && HandOk(s, t)
    ensures InHand(s.threads[t]).Some? ==> InHand(s.threads[t]).value in s.heap
  {
  }

  // Only a cell that the recycled queue refused is deleted, and any other emptied cell goes to its end.
  lemma EmptiedIsRecycled(s: State, t: Thread, a: Act)
    requires t in s.threads && Step(s, t, a).Some?
    ensures var r, pc := Step(s, t, a).value.state, s.threads[t];
            && t in r.threads
            && r.recycled == (if pc.WantCell? && a == Go then s.recycled[1..]
                              else if Emptied(pc) && a == Go then s.recycled + [pc.c] else s.recycled)
            && (Deletes(r.threads[t]) <==> Emptied(pc) && a == Refuse)
  {
  }

  // ---------- every cell is counted once ----------

  function Members(cells: seq<Cell>): set<Cell> { set c | c in cells }

  lemma {:induction false} MembersCounted(cells: seq<Cell>)
    requires Distinct(cells)
    ensures |Members(cells)| == |cells|
  {
    if cells != [] {
      assert cells == [cells[0]] + cells[1..];
      MembersCounted(cells[1..]);
      assert Members(cells) == {cells[0]} + Members(cells[1..]);
    }
  }

  function Holders(s: State, ts: set<Thread>): set<Thread>
  {
    set t | t in ts && t in s.threads && InHand(s.threads[t]).Some?
  }

  function Held(s: State, ts: set<Thread>): set<Cell>
  {
    set t | t in ts && t in s.threads && InHand(s.threads[t]).Some? :: InHand(s.threads[t]).value
  }

  ghost predicate HandsDiffer(s: State)
  {
    forall t, u | t in s.threads && u in s.threads && t != u && InHand(s.threads[t]).Some? ::
      InHand(s.threads[t]) != InHand(s.threads[u])
  }

  lemma {:induction false} HeldCounted(s: State, ts: set<Thread>)
    requires HandsDiffer(s) && ts <= s.threads.Keys
    ensures |Held(s, ts)| == |Holders(s, ts)|
    decreases |ts|
  {
    if ts == {} {
      assert Holders(s, ts) == {} && Held(s, ts) == {};
    } else {
      var t :| t in ts;
      var rest := ts - {t};
      assert rest + {t} == ts;
      OneMoreHolder(s, rest, t);
      hide Holders; hide Held; hide HandsDiffer;
      HeldCounted(s, rest);
    }
  }

  lemma OneMoreHolder(s: State, rest: set<Thread>, t: Thread)
    requires HandsDiffer(s) && rest <= s.threads.Keys && t in s.threads && t !in rest
    ensures match InHand(s.threads[t])
            case None => Holders(s, rest + {t}) == Holders(s, rest) && Held(s, rest + {t}) == Held(s, rest)
            case Some(c) => Holders(s, rest + {t}) == Holders(s, rest) + {t} && t !in Holders(s, rest)
                            && Held(s, rest + {t}) == Held(s, rest) + {c} && c !in Held(s, rest)
  {
  }

  lemma PlacesAreApart(s: State)
    requires Inv(s)
    ensures s.heap.Keys == Members(s.main) + Members(s.recycled) + Held(s, s.threads.Keys)
    ensures Members(s.main) !! Members(s.recycled) && Members(s.main) + Members(s.recycled) !! Held(s, s.threads.Keys)
    ensures Distinct(s.main) && Distinct(s.recycled) && HandsDiffer(s)
  {
    forall t | t in Holders(s, s.threads.Keys) ensures HandOk(s, t) {
    }
    forall c | c in s.heap ensures c in Members(s.main) + Members(s.recycled) + Held(s, s.threads.Keys) {
      assert Located(s, c);
    }
  }

  // An allocated cell is queued, recycled or in one hand, and in no second place.
  lemma CellsAreCounted(s: State)
    requires Inv(s)
    ensures |s.heap.Keys| == |s.main| + |s.recycled| + |Holders(s, s.threads.Keys)|
  {
    PlacesAreApart(s);
    hide Inv; hide Members; hide Held; hide Holders;
    MembersCounted(s.main);
    MembersCounted(s.recycled);
    HeldCounted(s, s.threads.Keys);
  }

  // ---------- how many cells a run needs ----------

  // The longest the main queue gets.
  function Peak(s: State, cs: seq<Choice>): nat
    requires Run(s, cs).Some?
    decreases |cs|
  {
    if cs == [] then |s.main|
    else
      var rest := Peak(Step(s, cs[0].t, cs[0].a).value.state, cs[1..]);
      if |s.main| > rest then |s.main| else rest
  }

  // A new cell is made when all others are queued or in hands, so there are never more than that.
  lemma NewIsNeeded(s: State, t: Thread, a: Act)
    requires t in s.threads && Inv(s) && Step(s, t, a).Some?
    ensures var r := Step(s, t, a).value.state;
            |r.heap.Keys| <= |s.heap.Keys| || |r.heap.Keys| <= |s.main| + |s.threads.Keys|
  {
    CellsChange(s, t, a);
    StepIff(s, t, a);
    CellsAreCounted(s);
    hide Step; hide Inv;
    var r := Step(s, t, a).value.state;
    if a.New? {
      assert r.heap.Keys == s.heap.Keys + {a.c};
      assert Holders(s, s.threads.Keys) <= s.threads.Keys - {t};
      Smaller(Holders(s, s.threads.Keys), s.threads.Keys - {t});
    } else {
      assert r.heap.Keys <= s.heap.Keys;
      Smaller(r.heap.Keys, s.heap.Keys);
    }
  }

  lemma {:induction false} Smaller(a: set<nat>, b: set<nat>)
    requires a <= b
    ensures |a| <= |b|
  {
    if x :| x in a {
      Smaller(a - {x}, b - {x});
    }
  }

  // Over every run: never more cells than there were, or than the main queue once held and there
  // are threads.
  lemma {:induction false} NoMoreCellsThanNeeded(s: State, cs: seq<Choice>)
    requires Inv(s) && Run(s, cs).Some?
    ensures var cells := |Run(s, cs).value.state.heap.Keys|;
            cells <= |s.heap.Keys| || cells <= Peak(s, cs) + |s.threads.Keys|
    decreases |cs|
  {
    hide Inv; hide Step;
    if cs != [] {
      var r := Step(s, cs[0].t, cs[0].a).value;
      StepKeepsInv(s, cs[0].t, cs[0].a);
      NewIsNeeded(s, cs[0].t, cs[0].a);
      SameThreads(s, cs[0].t, cs[0].a);
      NoMoreCellsThanNeeded(r.state, cs[1..]);
    }
  }

  lemma SameThreads(s: State, t: Thread, a: Act)
    requires t in s.threads && Step(s, t, a).Some?
    ensures Step(s, t, a).value.state.threads.Keys == s.threads.Keys
  {
  }

  // The recycled queue takes every cell.
  predicate RecyclesAll(s: State, cs: seq<Choice>)
    requires Run(s, cs).Some?
    decreases |cs|
  {
    cs == [] || (!(Emptied(s.threads[cs[0].t]) && cs[0].a == Refuse)
                 && RecyclesAll(Step(s, cs[0].t, cs[0].a).value.state, cs[1..]))
  }

  function Made(cs: seq<Choice>): set<Cell>
  {
    if cs == [] then {} else (if cs[0].a.New? then {cs[0].a.c} else {}) + Made(cs[1..])
  }

  ghost predicate NobodyDeletes(s: State)
  {
    forall t | t in s.threads :: !Deletes(s.threads[t])
  }

  // Unless the recycled queue refuses one, no cell is ever deleted: the cells of a run are those
  // that were there and those that were made.
  lemma {:induction false} NothingIsDeleted(s: State, cs: seq<Choice>)
    requires Inv(s) && Run(s, cs).Some? && RecyclesAll(s, cs) && NobodyDeletes(s)
    ensures Run(s, cs).value.state.heap.Keys == s.heap.Keys + Made(cs)
    decreases |cs|
  {
    hide Step; hide Deletes; hide Emptied; hide Inv;
    if cs != [] {
      var r := Step(s, cs[0].t, cs[0].a).value.state;
      StepKeepsInv(s, cs[0].t, cs[0].a);
      CellsChange(s, cs[0].t, cs[0].a);
      EmptiedIsRecycled(s, cs[0].t, cs[0].a);
      OthersStay(s, cs[0].t, cs[0].a);
      NothingIsDeleted(r, cs[1..]);
    }
  }

  lemma OthersStay(s: State, t: Thread, a: Act)
    requires t in s.threads && Step(s, t, a).Some?
    ensures var r := Step(s, t, a).value.state;
            r.threads.Keys == s.threads.Keys && forall u | u in s.threads && u != t :: r.threads[u] == s.threads[u]
  {
  }
}
