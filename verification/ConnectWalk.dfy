// Resolving where the connect() lines of a use case go: the walk over the slots a use case
// reaches, when it ends, and which class gets which connection.
module ConnectWalk {
  import opened Wrappers
  import opened ProjectObjects

  datatype Node = Node(lifeline: Lifeline, slot: Method)

  // connect(sender, SIGNAL(signal), receiver, SLOT(slot)); None is "this".
  datatype Connect = Connect(sender: Option<Member>, signal: Method, receiver: Option<Member>, slot: Method)

  datatype Placed = Placed(class_: Type, connect: Connect)

  // A slot the walk goes on to, and what it places before it does.
  datatype Step = Step(dest: Node, placed: seq<Placed>)

  // What the walk does at every slot it may come to.
  type Plan = map<Node, seq<Step>>

  predicate Closed(w: Plan)
  {
    forall n | n in w :: forall s | s in w[n] :: s.dest in w
  }

  // ---------- paths ----------

  ghost predicate ReachesIn(w: Plan, a: Node, b: Node, steps: nat)
    decreases steps
  {
    if steps == 0 then a == b
    else a in w && exists k | 0 <= k < |w[a]| :: ReachesIn(w, w[a][k].dest, b, steps - 1)
  }

  ghost predicate Reaches(w: Plan, a: Node, b: Node)
  {
    exists steps: nat :: steps > 0 && ReachesIn(w, a, b, steps)
  }

  lemma {:induction false} PathsJoin(w: Plan, a: Node, b: Node, c: Node, i: nat, j: nat)
    requires ReachesIn(w, a, b, i) && ReachesIn(w, b, c, j)
    ensures ReachesIn(w, a, c, i + j)
    decreases i
  {
    if i > 0 {
      var k :| 0 <= k < |w[a]| && ReachesIn(w, w[a][k].dest, b, i - 1);
      PathsJoin(w, w[a][k].dest, b, c, i - 1, j);
    }
  }

  lemma EdgeThenPath(w: Plan, a: Node, k: nat, c: Node)
    requires a in w && k < |w[a]|
    ensures Reaches(w, a, w[a][k].dest)
    ensures Reaches(w, w[a][k].dest, c) ==> Reaches(w, a, c)
  {
    assert ReachesIn(w, w[a][k].dest, w[a][k].dest, 0);
    assert ReachesIn(w, a, w[a][k].dest, 1);
    if Reaches(w, w[a][k].dest, c) {
      var j: nat :| j > 0 && ReachesIn(w, w[a][k].dest, c, j);
      assert ReachesIn(w, a, c, j + 1);
    }
  }

  // No cycle can be reached.
  ghost predicate Acyclic(w: Plan, n: Node)
  {
    n in w && !Reaches(w, n, n) && forall m | m in w && Reaches(w, n, m) :: !Reaches(w, m, m)
  }

  lemma AcyclicOn(w: Plan, n: Node, k: nat)
    requires Closed(w) && Acyclic(w, n) && k < |w[n]|
    ensures Acyclic(w, w[n][k].dest)
  {
    var m := w[n][k].dest;
    assert w[n][k] in w[n];
    EdgeThenPath(w, n, k, m);
    forall c | c in w && Reaches(w, m, c) ensures !Reaches(w, c, c) {
      EdgeThenPath(w, n, k, c);
    }
  }

  ghost function Ahead(w: Plan, n: Node): set<Node>
  {
    set m | m in w.Keys && Reaches(w, n, m)
  }

  // Every step leaves at least one slot behind for good.
  lemma LessAhead(w: Plan, n: Node, k: nat)
    requires Closed(w) && Acyclic(w, n) && k < |w[n]|
    ensures |Ahead(w, w[n][k].dest)| < |Ahead(w, n)|
  {
    var m := w[n][k].dest;
    assert w[n][k] in w[n];
    EdgeThenPath(w, n, k, m);
    assert m in Ahead(w, n) && m !in Ahead(w, m);
    forall c | c in Ahead(w, m) ensures c in Ahead(w, n) {
      EdgeThenPath(w, n, k, c);
    }
    Smaller(Ahead(w, m), Ahead(w, n) - {m});
  }

  lemma {:induction false} Smaller<T>(a: set<T>, b: set<T>)
    requires a <= b
    ensures |a| <= |b|
    decreases a
  {
    if a != {} {
      var x :| x in a;
      Smaller(a - {x}, b - {x});
    }
  }

  // ---------- when the walk ends ----------

  // The recursion from n goes no deeper than so many calls.
  ghost predicate EndsWithin(w: Plan, n: Node, depth: nat)
    decreases depth
  {
    depth > 0 && n in w && forall k | 0 <= k < |w[n]| :: EndsWithin(w, w[n][k].dest, depth - 1)
  }

  lemma {:induction false} AcyclicEnds(w: Plan, n: Node)
    requires Closed(w) && Acyclic(w, n)
    ensures EndsWithin(w, n, |Ahead(w, n)| + 1)
    decreases |Ahead(w, n)|
  {
    forall k | 0 <= k < |w[n]| ensures EndsWithin(w, w[n][k].dest, |Ahead(w, n)|) {
      LessAhead(w, n, k);
      AcyclicOn(w, n, k);
      AcyclicEnds(w, w[n][k].dest);
      Deeper(w, w[n][k].dest, |Ahead(w, w[n][k].dest)| + 1, |Ahead(w, n)|);
    }
  }

  lemma {:induction false} Deeper(w: Plan, n: Node, d: nat, e: nat)
    requires EndsWithin(w, n, d) && d <= e
    ensures EndsWithin(w, n, e)
    decreases d
  {
    forall k | 0 <= k < |w[n]| ensures EndsWithin(w, w[n][k].dest, e - 1) {
      Deeper(w, w[n][k].dest, d - 1, e - 1);
    }
  }

  lemma {:induction false} PathsAreShort(w: Plan, n: Node, m: Node, depth: nat, steps: nat)
    requires EndsWithin(w, n, depth) && ReachesIn(w, n, m, steps)
    ensures steps < depth && EndsWithin(w, m, depth - steps)
    decreases steps
  {
    if steps > 0 {
      var k :| 0 <= k < |w[n]| && ReachesIn(w, w[n][k].dest, m, steps - 1);
      PathsAreShort(w, w[n][k].dest, m, depth - 1, steps - 1);
    }
  }

  lemma {:induction false} RoundAndRound(w: Plan, m: Node, steps: nat, rounds: nat)
    requires ReachesIn(w, m, m, steps)
    ensures ReachesIn(w, m, m, steps * rounds)
    decreases rounds
  {
    if rounds > 0 {
      RoundAndRound(w, m, steps, rounds - 1);
      PathsJoin(w, m, m, m, steps, steps * (rounds - 1));
      assert steps + steps * (rounds - 1) == steps * rounds;
    }
  }

  lemma NoEndOnCycle(w: Plan, m: Node, depth: nat)
    requires Reaches(w, m, m)
    ensures !EndsWithin(w, m, depth)
  {
    var steps: nat :| steps > 0 && ReachesIn(w, m, m, steps);
    if EndsWithin(w, m, depth) {
      RoundAndRound(w, m, steps, depth);
      AtLeast(steps, depth);
      PathsAreShort(w, m, m, depth, steps * depth);
    }
  }

  lemma AtLeast(steps: nat, depth: nat)
    requires steps > 0
    ensures steps * depth >= depth
  {
  }

  // The walk has no list of slots it has seen; it ends if and only if no cycle can be reached.
  lemma WalkEndsIff(w: Plan, n: Node)
    requires Closed(w) && n in w
    ensures (exists depth: nat :: EndsWithin(w, n, depth)) <==> Acyclic(w, n)
  {
    if Acyclic(w, n) {
      AcyclicEnds(w, n);
      var depth := |Ahead(w, n)| + 1;
      assert EndsWithin(w, n, depth);
    }
    if exists depth: nat :: EndsWithin(w, n, depth) {
      var depth: nat :| EndsWithin(w, n, depth);
      if Reaches(w, n, n) {
        NoEndOnCycle(w, n, depth);
      }
      forall m | m in w && Reaches(w, n, m) ensures !Reaches(w, m, m) {
        var steps: nat :| steps > 0 && ReachesIn(w, n, m, steps);
        PathsAreShort(w, n, m, depth, steps);
        if Reaches(w, m, m) {
          NoEndOnCycle(w, m, depth - steps);
        }
      }
    }
  }

  // ---------- what the walk places ----------

  // Steps of the slot n.
  ghost predicate InPlan(w: Plan, n: Node, steps: seq<Step>)
  {
    n in w && forall s | s in steps :: s in w[n]
  }

  function WalkAll(w: Plan, ghost n: Node, steps: seq<Step>): seq<Placed>
    requires Closed(w) && Acyclic(w, n) && InPlan(w, n, steps)
    decreases |Ahead(w, n)|, |steps|
  {
    if steps == [] then []
    else
      var dest := steps[0].dest;
      StepDown(w, n, steps[0]);
      steps[0].placed + WalkAll(w, dest, w[dest]) + WalkAll(w, n, steps[1..])
  }

  lemma StepDown(w: Plan, n: Node, s: Step)
    requires Closed(w) && Acyclic(w, n) && s in w[n]
    ensures s.dest in w && Acyclic(w, s.dest) && |Ahead(w, s.dest)| < |Ahead(w, n)|
  {
    var k :| 0 <= k < |w[n]| && w[n][k] == s;
    LessAhead(w, n, k);
    AcyclicOn(w, n, k);
  }

  function Walk(w: Plan, n: Node): seq<Placed>
    requires Closed(w) && Acyclic(w, n)
  {
    WalkAll(w, n, w[n])
  }

  lemma WalkAllStep(w: Plan, n: Node, s: Step, rest: seq<Step>)
    requires Closed(w) && Acyclic(w, n) && s in w[n] && InPlan(w, n, rest)
    ensures s.dest in w && Acyclic(w, s.dest)
    ensures WalkAll(w, n, [s] + rest) == s.placed + Walk(w, s.dest) + WalkAll(w, n, rest)
  {
    StepDown(w, n, s);
    hide Acyclic; hide Closed;
    assert ([s] + rest)[1..] == rest;
  }

  lemma {:induction false} WalkAllAppend(w: Plan, n: Node, a: seq<Step>, b: seq<Step>)
    requires Closed(w) && Acyclic(w, n) && InPlan(w, n, a) && InPlan(w, n, b)
    ensures WalkAll(w, n, a + b) == WalkAll(w, n, a) + WalkAll(w, n, b)
    decreases |a|
  {
    if a == [] {
      assert a + b == b;
    } else {
      hide Acyclic; hide Closed; hide WalkAll; hide Walk;
      assert a == [a[0]] + a[1..] && a + b == [a[0]] + (a[1..] + b);
      WalkAllAppend(w, n, a[1..], b);
      WalkAllStep(w, n, a[0], a[1..]);
      WalkAllStep(w, n, a[0], a[1..] + b);
      var x, y, z := a[0].placed + Walk(w, a[0].dest), WalkAll(w, n, a[1..]), WalkAll(w, n, b);
      assert x + (y + z) == x + y + z;
    }
  }

  ghost predicate ComesTo(w: Plan, n: Node, m: Node) { m == n || Reaches(w, n, m) }

  lemma {:induction false} PlacedComesFrom(w: Plan, n: Node, steps: seq<Step>, p: Placed) returns (m: Node, s: Step)
    requires Closed(w) && Acyclic(w, n) && InPlan(w, n, steps) && p in WalkAll(w, n, steps)
    ensures m in w && ComesTo(w, n, m) && s in w[m] && p in s.placed
    decreases |Ahead(w, n)|, |steps|
  {
    var dest := steps[0].dest;
    StepDown(w, n, steps[0]);
    if p in steps[0].placed {
      m, s := n, steps[0];
    } else if p in WalkAll(w, dest, w[dest]) {
      m, s := PlacedComesFrom(w, dest, w[dest], p);
      var k :| 0 <= k < |w[n]| && w[n][k] == steps[0];
      EdgeThenPath(w, n, k, m);
    } else {
      m, s := PlacedComesFrom(w, n, steps[1..], p);
    }
  }

  lemma {:induction false} OwnStepIsWalked(w: Plan, n: Node, steps: seq<Step>, s: Step)
    requires Closed(w) && Acyclic(w, n) && InPlan(w, n, steps) && s in steps
    ensures (forall p | p in s.placed :: p in WalkAll(w, n, steps))
    ensures s.dest in w && Acyclic(w, s.dest) && forall p | p in Walk(w, s.dest) :: p in WalkAll(w, n, steps)
    decreases |steps|
  {
    StepDown(w, n, s);
    if steps[0] != s {
      OwnStepIsWalked(w, n, steps[1..], s);
    }
  }

  lemma {:induction false} ReachedStepIsWalked(w: Plan, n: Node, m: Node, steps: nat, s: Step, p: Placed)
    requires Closed(w) && Acyclic(w, n) && ReachesIn(w, n, m, steps) && m in w && s in w[m] && p in s.placed
    ensures p in Walk(w, n)
    decreases steps
  {
    if steps == 0 {
      OwnStepIsWalked(w, n, w[n], s);
    } else {
      var k :| 0 <= k < |w[n]| && ReachesIn(w, w[n][k].dest, m, steps - 1);
      OwnStepIsWalked(w, n, w[n], w[n][k]);
      ReachedStepIsWalked(w, w[n][k].dest, m, steps - 1, s, p);
    }
  }

  // The walk places exactly what some step of some slot it can come to places.
  lemma WalkPlacesExactly(w: Plan, n: Node, p: Placed)
    requires Closed(w) && Acyclic(w, n)
    ensures p in Walk(w, n) <==> exists m | m in w :: ComesTo(w, n, m) && exists s | s in w[m] :: p in s.placed
  {
    if p in Walk(w, n) {
      var m, s := PlacedComesFrom(w, n, w[n], p);
    }
    if m :| m in w && ComesTo(w, n, m) && exists s | s in w[m] :: p in s.placed {
      var s :| s in w[m] && p in s.placed;
      if m == n {
        ReachedStepIsWalked(w, n, m, 0, s, p);
      } else {
        var steps: nat :| steps > 0 && ReachesIn(w, n, m, steps);
        ReachedStepIsWalked(w, n, m, steps, s, p);
      }
    }
  }

  // ---------- the plan of a use case ----------

  predicate IsChild(l: Lifeline)
    reads l`instanceType
  {
    l.instanceType == CHILD_MEMBER_OF_OTHER_CLASS_LIFELINE
  }

  // Whoever is someone's child has been assigned to a member of a class.
  predicate Assigned(l: Lifeline)
    reads l`instanceType, l`instance
  {
    IsChild(l) ==> l.instance != null && l.instance.parentType.category == CLASS
  }

  // 0: both are members of one parent. 1: the signal's class has the slot's object as a member.
  // 2: the slot's class has the signal's object as a member.
  function Placements(source: Lifeline, signal: Method, dest: Lifeline, slot: Method): seq<Placed>
    requires Assigned(source) && Assigned(dest)
    reads source`instanceType, source`instance, dest`instanceType, dest`instance
    reads source.class_`members, dest.class_`members
  {
    (if IsChild(dest) && IsChild(source) && dest.instance.parentType == source.instance.parentType then
       [Placed(dest.instance.parentType, Connect(Some(source.instance), signal, Some(dest.instance), slot))]
     else [])
    + (if IsChild(dest) && dest.instance in source.class_.members then
         [Placed(source.class_, Connect(None, signal, Some(dest.instance), slot))]
       else [])
    + (if IsChild(source) && source.instance in dest.class_.members then
         [Placed(dest.class_, Connect(Some(source.instance), signal, None, slot))]
       else [])
  }

  // All that a walk of the use case looks at is among objs and in order.
  ghost predicate Ready(u: UseCase, n: Node, objs: set<object>)
    reads objs
  {
    && u in objs && n.slot in objs && n.lifeline in objs && n.lifeline.class_ in objs && Assigned(n.lifeline)
    && (forall l | l in u.lifelines :: l in objs && l.class_ in objs && Assigned(l))
    && AllInUseCase(u, u.activations)
  }

  // at() finds a lifeline for every slot attached.
  predicate InUseCase(u: UseCase, attached: seq<Attached>)
    reads u
  {
    forall x | x in attached :: 0 <= x.lifelineIndex < |u.lifelines|
  }

  predicate AllInUseCase(u: UseCase, activations: seq<Activation>)
    reads u
  {
    forall a | a in activations :: InUseCase(u, a.attached)
  }

  ghost function AttachedSteps(u: UseCase, n: Node, signal: Method, attached: seq<Attached>, objs: set<object>): seq<Step>
    requires Ready(u, n, objs) && InUseCase(u, attached)
    reads objs
  {
    if attached == [] then []
    else
      var dest := u.lifelines[attached[0].lifelineIndex];
      [Step(Node(dest, attached[0].slot), Placements(n.lifeline, signal, dest, attached[0].slot))]
      + AttachedSteps(u, n, signal, attached[1..], objs)
  }

  predicate IsFor(a: Activation, n: Node, index: int)
  {
    a.sourceLifeline == n.lifeline && a.sourceSlot == n.slot && a.statementIndex == index
  }

  ghost function StepsOfActivation(u: UseCase, n: Node, index: int, signal: Method, a: Activation, objs: set<object>): seq<Step>
    requires Ready(u, n, objs) && InUseCase(u, a.attached)
    reads objs
  {
    if IsFor(a, n, index) then AttachedSteps(u, n, signal, a.attached, objs) else []
  }

  ghost function ActivationSteps(u: UseCase, n: Node, index: int, signal: Method, activations: seq<Activation>, objs: set<object>)
    : seq<Step>
    requires Ready(u, n, objs) && AllInUseCase(u, activations)
    reads objs
  {
    if activations == [] then []
    else
      StepsOfActivation(u, n, index, signal, activations[0], objs)
      + ActivationSteps(u, n, index, signal, activations[1..], objs)
  }

  ghost function StatementSteps(u: UseCase, n: Node, index: int, s: Statement, objs: set<object>): seq<Step>
    requires Ready(u, n, objs)
    reads objs
  {
    match s
    case SignalEmission(signal, _) => ActivationSteps(u, n, index, signal, u.activations, objs)
    case SlotInvocation(l, slot, _) => [Step(Node(l, slot), [])]
    case RawCppChunk(_) => []
  }

  ghost function StepsFrom(u: UseCase, n: Node, index: nat, objs: set<object>): seq<Step>
    requires Ready(u, n, objs) && index <= |n.slot.statements|
    reads objs
    decreases |n.slot.statements| - index
  {
    if index == |n.slot.statements| then []
    else StatementSteps(u, n, index, n.slot.statements[index], objs) + StepsFrom(u, n, index + 1, objs)
  }

  // w is the plan of the use case for every slot that can be come to.
  ghost predicate Describes(u: UseCase, w: Plan, objs: set<object>)
    reads objs
  {
    forall n | n in w :: Ready(u, n, objs) && w[n] == StepsFrom(u, n, 0, objs)
  }

  lemma PlanAt(u: UseCase, w: Plan, objs: set<object>, n: Node)
    requires Describes(u, w, objs) && n in w
    ensures Ready(u, n, objs) && w[n] == StepsFrom(u, n, 0, objs)
  {
  }

  // ---------- the walk of the generator ----------

  class Generator {
    // the hash of constructor connect statements
    var connects: map<Type, seq<Connect>>
    // the same in the order of appending
    ghost var log: seq<Placed>

    ghost predicate Valid()
      reads this
    {
      && (forall p | p in log :: p.class_ in connects)
      && forall c | c in connects :: connects[c] == ConnectsFor(log, c)
    }

    constructor ()
      ensures Valid() && log == [] && connects == map[]
    {
      connects, log := map[], [];
    }

    method AppendConnectStatementToClassInitializationSequence(c: Type, connect: Connect)
      requires Valid()
      modifies this
      ensures Valid() && log == old(log) + [Placed(c, connect)]
    {
      var current := if c in connects then connects[c] else [];
      NothingFor(log, c);
      ConnectsGrow(log, Placed(c, connect));
      connects := connects[c := current + [connect]];
      log := log + [Placed(c, connect)];
    }

    // The three cases, which do not exclude each other.
    method PlaceConnect(source: Lifeline, signal: Method, dest: Lifeline, slot: Method)
      requires Valid() && Assigned(source) && Assigned(dest)
      modifies this
      ensures Valid() && log == old(log) + Placements(source, signal, dest, slot)
    {
      hide Valid;
      ghost var before := log;
      if IsChild(dest) && IsChild(source) {
        var d: Member, s: Member := dest.instance, source.instance;
        if d.parentType == s.parentType {
          AppendConnectStatementToClassInitializationSequence(d.parentType, Connect(Some(s), signal, Some(d), slot));
        }
      }
      if IsChild(dest) {
        var d: Member := dest.instance;
        if d in source.class_.members {
          AppendConnectStatementToClassInitializationSequence(source.class_, Connect(None, signal, Some(d), slot));
        }
      }
      if IsChild(source) {
        var s: Member := source.instance;
        if s in dest.class_.members {
          AppendConnectStatementToClassInitializationSequence(dest.class_, Connect(Some(s), signal, None, slot));
        }
      }
      assert log == before + Placements(source, signal, dest, slot);
    }

    // One slot attached to a signal emission: its connections, then its own walk.
    method WalkDestination(u: UseCase, lifeline: Lifeline, slot: Method, signal: Method, dest: Lifeline, destSlot: Method,
                           ghost w: Plan, ghost objs: set<object>)
      requires Valid() && this !in objs && Closed(w) && Acyclic(w, Node(lifeline, slot)) && Describes(u, w, objs)
      requires Assigned(lifeline) && Assigned(dest)
      requires InPlan(w, Node(lifeline, slot), [Step(Node(dest, destSlot), Placements(lifeline, signal, dest, destSlot))])
      modifies this
      ensures Valid()
      ensures log == old(log) + WalkAll(w, Node(lifeline, slot),
                                        [Step(Node(dest, destSlot), Placements(lifeline, signal, dest, destSlot))])
      decreases |Ahead(w, Node(lifeline, slot))|, 0
    {
      hide *;
      ghost var s := Step(Node(dest, destSlot), Placements(lifeline, signal, dest, destSlot));
      OneStep(w, Node(lifeline, slot), s);
      ghost var now := log;
      PlaceConnect(lifeline, signal, dest, destSlot);
      var ok := WalkSlot(u, dest, destSlot, w, objs);
      Reassociate(now, s.placed, Walk(w, s.dest));
    }

    method WalkAttached(u: UseCase, lifeline: Lifeline, slot: Method, signal: Method, attached: seq<Attached>,
                        ghost w: Plan, ghost objs: set<object>)
      requires Valid() && this !in objs && Closed(w) && Acyclic(w, Node(lifeline, slot)) && Describes(u, w, objs)
      requires Ready(u, Node(lifeline, slot), objs) && InUseCase(u, attached)
      requires InPlan(w, Node(lifeline, slot), AttachedSteps(u, Node(lifeline, slot), signal, attached, objs))
      modifies this
      ensures Valid()
      ensures log == old(log) + WalkAll(w, Node(lifeline, slot), AttachedSteps(u, Node(lifeline, slot), signal, attached, objs))
      decreases |Ahead(w, Node(lifeline, slot))|, 1
    {
      hide *;
      ghost var n := Node(lifeline, slot);
      ghost var goal := log + WalkAll(w, n, AttachedSteps(u, n, signal, attached, objs));
      StartWith(w, n, log, AttachedSteps(u, n, signal, attached, objs));
      var rest := attached;
      while rest != []
        invariant Valid() && Describes(u, w, objs) && Ready(u, n, objs) && InUseCase(u, rest)
        invariant Left(w, n, log, AttachedSteps(u, n, signal, rest, objs), goal)
        decreases |rest|
      {
        AttachedUnroll(u, n, signal, rest, objs);
        var dest := u.lifelines[rest[0].lifelineIndex];
        ghost var s := Step(Node(dest, rest[0].slot), Placements(lifeline, signal, dest, rest[0].slot));
        Progress(w, n, log, [s], AttachedSteps(u, n, signal, rest[1..], objs), goal);
        WalkDestination(u, lifeline, slot, signal, dest, rest[0].slot, w, objs);
        rest := rest[1..];
      }
      NoAttached(u, n, signal, rest, objs);
      Arrived(w, n, log, goal);
    }

    method WalkActivation(u: UseCase, lifeline: Lifeline, slot: Method, index: int, signal: Method, a: Activation,
                          ghost w: Plan, ghost objs: set<object>, ghost steps: seq<Step>)
      requires Valid() && this !in objs && Closed(w) && Acyclic(w, Node(lifeline, slot)) && Describes(u, w, objs)
      requires Ready(u, Node(lifeline, slot), objs) && InUseCase(u, a.attached)
      requires InPlan(w, Node(lifeline, slot), steps) && steps == StepsOfActivation(u, Node(lifeline, slot), index, signal, a, objs)
      modifies this
      ensures Valid() && log == old(log) + WalkAll(w, Node(lifeline, slot), steps)
      decreases |Ahead(w, Node(lifeline, slot))|, 2
    {
      hide Valid; hide Describes; hide Acyclic; hide Closed; hide WalkAll; hide AttachedSteps; hide Ahead; hide Ready;
      NoSteps(w, Node(lifeline, slot), steps);
      hide InPlan;
      if a.sourceLifeline == lifeline {
        if a.sourceSlot == slot {
          if a.statementIndex == index {
            WalkAttached(u, lifeline, slot, signal, a.attached, w, objs);
            return;
          }
        }
      }
      assert log + [] == log;
    }

    // The first of the activations that are left.
    method WalkFirst(u: UseCase, lifeline: Lifeline, slot: Method, index: int, signal: Method, rest: seq<Activation>,
                     ghost w: Plan, ghost objs: set<object>, ghost goal: seq<Placed>)
      requires Valid() && this !in objs && Describes(u, w, objs) && Ready(u, Node(lifeline, slot), objs)
      requires rest != [] && AllInUseCase(u, rest)
      requires Left(w, Node(lifeline, slot), log, ActivationSteps(u, Node(lifeline, slot), index, signal, rest, objs), goal)
      modifies this
      ensures Valid() && AllInUseCase(u, rest[1..])
      ensures Left(w, Node(lifeline, slot), log, ActivationSteps(u, Node(lifeline, slot), index, signal, rest[1..], objs), goal)
      decreases |Ahead(w, Node(lifeline, slot))|, 3
    {
      hide *;
      ghost var mine, done := ActivationProgress(u, w, Node(lifeline, slot), log, index, signal, rest, rest[0], objs, goal);
      WalkActivation(u, lifeline, slot, index, signal, rest[0], w, objs, mine);
      assert log == done;
    }

    method WalkSignal(u: UseCase, lifeline: Lifeline, slot: Method, index: int, signal: Method,
                      ghost w: Plan, ghost objs: set<object>, ghost steps: seq<Step>)
      requires Valid() && this !in objs && Closed(w) && Acyclic(w, Node(lifeline, slot)) && Describes(u, w, objs)
      requires Ready(u, Node(lifeline, slot), objs) && InPlan(w, Node(lifeline, slot), steps)
      requires steps == ActivationSteps(u, Node(lifeline, slot), index, signal, u.activations, objs)
      modifies this
      ensures Valid() && log == old(log) + WalkAll(w, Node(lifeline, slot), steps)
      decreases |Ahead(w, Node(lifeline, slot))|, 4
    {
      ghost var n := Node(lifeline, slot);
      ActivationsAreReady(u, n, objs);
      hide *;
      ghost var goal := log + WalkAll(w, n, steps);
      StartWith(w, n, log, steps);
      var rest := u.activations;
      while rest != []
        invariant Valid() && Describes(u, w, objs) && Ready(u, n, objs) && AllInUseCase(u, rest)
        invariant Left(w, n, log, ActivationSteps(u, n, index, signal, rest, objs), goal)
        decreases |rest|
      {
        WalkFirst(u, lifeline, slot, index, signal, rest, w, objs, goal);
        rest := rest[1..];
      }
      NoActivations(u, n, index, signal, rest, objs);
      Arrived(w, n, log, goal);
    }

    // recursivelyWalkSlotInUseCaseMode... on a use case without a cycle
    method WalkSlot(u: UseCase, lifeline: Lifeline, slot: Method, ghost w: Plan, ghost objs: set<object>) returns (ok: bool)
      requires Valid() && this !in objs && Closed(w) && Acyclic(w, Node(lifeline, slot)) && Describes(u, w, objs)
      modifies this
      ensures Valid() && ok && log == old(log) + Walk(w, Node(lifeline, slot))
      decreases |Ahead(w, Node(lifeline, slot))|, 5
    {
      hide Valid; hide WalkAll; hide ActivationSteps; hide Ahead; hide StepsFrom;
      ghost var n := Node(lifeline, slot);
      PlanAt(u, w, objs, n);
      assert Walk(w, n) == WalkAll(w, n, w[n]);
      assert InPlan(w, n, w[n]);
      hide Describes; hide Acyclic; hide Closed; hide Walk; hide Ready; hide InPlan; hide Left;
      ghost var goal := log + WalkAll(w, n, w[n]);
      StartWith(w, n, log, w[n]);
      ReadySlot(u, n, objs);
      var currentStatementIndex := -1;
      while currentStatementIndex + 1 < |slot.statements|
        invariant -1 <= currentStatementIndex < |slot.statements| && Valid() && Describes(u, w, objs) && Ready(u, n, objs)
        invariant n.slot in objs
        invariant Left(w, n, log, StepsFrom(u, n, currentStatementIndex + 1, objs), goal)
      {
        ghost var now := log;
        currentStatementIndex := currentStatementIndex + 1;
        var statement := slot.statements[currentStatementIndex];
        StatementUnroll(u, n, currentStatementIndex, objs);
        ghost var mine, rest := StatementSteps(u, n, currentStatementIndex, statement, objs),
                                StepsFrom(u, n, currentStatementIndex + 1, objs);
        Progress(w, n, now, mine, rest, goal);
        match statement {
          case SignalEmission(signal, _) =>
            WalkSignal(u, lifeline, slot, currentStatementIndex, signal, w, objs, mine);
          case SlotInvocation(l, invoked, _) =>
            ghost var s := Step(Node(l, invoked), []);
            assert mine == [s];
            OneStep(w, n, s);
            assert [] + Walk(w, s.dest) == Walk(w, s.dest);
            ok := WalkSlot(u, l, invoked, w, objs);
          case RawCppChunk(_) =>
            NoSteps(w, n, mine);
            assert now + [] == now;
        }
      }
      NoStatements(u, n, currentStatementIndex + 1, objs);
      Arrived(w, n, log, goal);
      return true;
    }

    // processUseCase: a use case without an entry point is refused.
    method ProcessUseCase(u: UseCase, ghost w: Plan, ghost objs: set<object>) returns (ok: bool)
      requires Valid() && this !in objs && Closed(w) && Describes(u, w, objs) && u in objs
      requires u.entryLifeline != null ==> u.entrySlot != null && Acyclic(w, Node(u.entryLifeline, u.entrySlot))
      modifies this
      ensures Valid() && (ok <==> u.entryLifeline != null)
      ensures log == old(log) + if ok then Walk(w, Node(u.entryLifeline, u.entrySlot)) else []
    {
      if u.entryLifeline == null {
        assert log + [] == log;
        return false;
      }
      ok := WalkSlot(u, u.entryLifeline, u.entrySlot, w, objs);
    }
  }

  lemma Reassociate(a: seq<Placed>, b: seq<Placed>, c: seq<Placed>)
    ensures a + (b + c) == a + b + c
  {
  }

  // So many connections are placed, and these steps are left to reach the goal.
  ghost predicate Left(w: Plan, n: Node, done: seq<Placed>, steps: seq<Step>, goal: seq<Placed>)
  {
    Closed(w) && Acyclic(w, n) && InPlan(w, n, steps) && done + WalkAll(w, n, steps) == goal
  }

  lemma Progress(w: Plan, n: Node, done: seq<Placed>, mine: seq<Step>, rest: seq<Step>, goal: seq<Placed>)
    requires Left(w, n, done, mine + rest, goal)
    ensures InPlan(w, n, mine) && InPlan(w, n, rest) && Closed(w) && Acyclic(w, n)
    ensures Left(w, n, done + WalkAll(w, n, mine), rest, goal)
  {
    assert (forall s | s in mine :: s in mine + rest) && forall s | s in rest :: s in mine + rest;
    WalkAllAppend(w, n, mine, rest);
    Reassociate(done, WalkAll(w, n, mine), WalkAll(w, n, rest));
  }

  lemma StartWith(w: Plan, n: Node, done: seq<Placed>, steps: seq<Step>)
    requires Closed(w) && Acyclic(w, n) && InPlan(w, n, steps)
    ensures Left(w, n, done, steps, done + WalkAll(w, n, steps))
  {
  }

  lemma Arrived(w: Plan, n: Node, done: seq<Placed>, goal: seq<Placed>)
    requires Left(w, n, done, [], goal)
    ensures done == goal
  {
    NoSteps(w, n, []);
    assert done + [] == done;
  }

  lemma NoSteps(w: Plan, n: Node, steps: seq<Step>)
    requires Closed(w) && Acyclic(w, n) && InPlan(w, n, steps)
    ensures steps == [] ==> WalkAll(w, n, steps) == []
  {
  }

  lemma OneStep(w: Plan, n: Node, s: Step)
    requires Closed(w) && Acyclic(w, n) && InPlan(w, n, [s])
    ensures s.dest in w && Acyclic(w, s.dest) && |Ahead(w, s.dest)| < |Ahead(w, n)|
    ensures WalkAll(w, n, [s]) == s.placed + Walk(w, s.dest)
  {
    assert s in [s];
    StepDown(w, n, s);
    WalkAllStep(w, n, s, []);
    NoSteps(w, n, []);
    assert [s] + [] == [s];
    assert s.placed + Walk(w, s.dest) + [] == s.placed + Walk(w, s.dest);
  }

  lemma AttachedUnroll(u: UseCase, n: Node, signal: Method, attached: seq<Attached>, objs: set<object>)
    requires Ready(u, n, objs) && InUseCase(u, attached) && attached != []
    ensures InUseCase(u, attached[1..]) && 0 <= attached[0].lifelineIndex < |u.lifelines|
    ensures var dest := u.lifelines[attached[0].lifelineIndex];
            && Assigned(dest) && Assigned(n.lifeline)
            && AttachedSteps(u, n, signal, attached, objs)
               == [Step(Node(dest, attached[0].slot), Placements(n.lifeline, signal, dest, attached[0].slot))]
                  + AttachedSteps(u, n, signal, attached[1..], objs)
  {
    assert forall x | x in attached[1..] :: x in attached;
  }

  lemma NoAttached(u: UseCase, n: Node, signal: Method, attached: seq<Attached>, objs: set<object>)
    requires Ready(u, n, objs) && attached == []
    ensures AttachedSteps(u, n, signal, attached, objs) == []
  {
  }

  lemma ActivationUnroll(u: UseCase, n: Node, index: int, signal: Method, activations: seq<Activation>, objs: set<object>)
    requires Ready(u, n, objs) && AllInUseCase(u, activations) && activations != []
    ensures AllInUseCase(u, activations[1..]) && InUseCase(u, activations[0].attached)
    ensures ActivationSteps(u, n, index, signal, activations, objs)
            == StepsOfActivation(u, n, index, signal, activations[0], objs)
               + ActivationSteps(u, n, index, signal, activations[1..], objs)
  {
    assert forall a | a in activations[1..] :: a in activations;
    assert activations[0] in activations;
  }

  lemma ActivationProgress(u: UseCase, w: Plan, n: Node, done: seq<Placed>, index: int, signal: Method,
                           rest: seq<Activation>, a: Activation, objs: set<object>, goal: seq<Placed>)
    returns (mine: seq<Step>, after: seq<Placed>)
    requires Ready(u, n, objs) && AllInUseCase(u, rest) && rest != [] && a == rest[0]
    requires Left(w, n, done, ActivationSteps(u, n, index, signal, rest, objs), goal)
    ensures AllInUseCase(u, rest[1..]) && InUseCase(u, a.attached) && Closed(w) && Acyclic(w, n)
    ensures mine == StepsOfActivation(u, n, index, signal, a, objs)
    ensures InPlan(w, n, mine) && after == done + WalkAll(w, n, mine)
    ensures Left(w, n, after, ActivationSteps(u, n, index, signal, rest[1..], objs), goal)
  {
    ActivationUnroll(u, n, index, signal, rest, objs);
    mine := StepsOfActivation(u, n, index, signal, a, objs);
    after := done + WalkAll(w, n, mine);
    Progress(w, n, done, mine, ActivationSteps(u, n, index, signal, rest[1..], objs), goal);
  }

  lemma ActivationsAreReady(u: UseCase, n: Node, objs: set<object>)
    requires Ready(u, n, objs)
    ensures u in objs && AllInUseCase(u, u.activations)
  {
  }

  lemma NoActivations(u: UseCase, n: Node, index: int, signal: Method, activations: seq<Activation>, objs: set<object>)
    requires Ready(u, n, objs) && activations == []
    ensures ActivationSteps(u, n, index, signal, activations, objs) == []
  {
  }

  lemma ReadySlot(u: UseCase, n: Node, objs: set<object>)
    requires Ready(u, n, objs)
    ensures n.slot in objs && u in objs
  {
  }

  lemma StatementUnroll(u: UseCase, n: Node, index: nat, objs: set<object>)
    requires Ready(u, n, objs) && index < |n.slot.statements|
    ensures StepsFrom(u, n, index, objs)
            == StatementSteps(u, n, index, n.slot.statements[index], objs) + StepsFrom(u, n, index + 1, objs)
  {
  }

  lemma NoStatements(u: UseCase, n: Node, index: nat, objs: set<object>)
    requires Ready(u, n, objs) && index == |n.slot.statements|
    ensures StepsFrom(u, n, index, objs) == []
  {
  }

  ghost function ConnectsFor(log: seq<Placed>, c: Type): seq<Connect>
  {
    if log == [] then []
    else
      var rest := ConnectsFor(log[1..], c);
      if log[0].class_ == c then [log[0].connect] + rest else rest
  }

  lemma {:induction false} NothingFor(log: seq<Placed>, c: Type)
    ensures (forall p | p in log :: p.class_ != c) ==> ConnectsFor(log, c) == []
    decreases |log|
  {
    if log != [] {
      NothingFor(log[1..], c);
      assert forall p | p in log[1..] :: p in log;
      assert log[0] in log;
    }
  }

  lemma {:induction false} ConnectsSnoc(log: seq<Placed>, p: Placed, c: Type)
    ensures ConnectsFor(log + [p], c) == ConnectsFor(log, c) + if p.class_ == c then [p.connect] else []
    decreases |log|
  {
    if log == [] {
      assert log + [p] == [p] && [p][1..] == [];
    } else {
      assert (log + [p])[1..] == log[1..] + [p];
      ConnectsSnoc(log[1..], p, c);
    }
  }

  lemma ConnectsGrow(log: seq<Placed>, p: Placed)
    ensures forall c: Type :: ConnectsFor(log + [p], c) == ConnectsFor(log, c) + if p.class_ == c then [p.connect] else []
  {
    forall c: Type ensures ConnectsFor(log + [p], c) == ConnectsFor(log, c) + if p.class_ == c then [p.connect] else [] {
      ConnectsSnoc(log, p, c);
    }
  }

  // ---------- which connections are placed, and where ----------

  // The slot belongs to its lifeline's class and emits that class's signals; a child lifeline
  // stands for a member of that class, and the member is listed in its parent.
  ghost predicate Coherent(n: Node)
    reads n.slot, n.lifeline
    reads if n.lifeline.instance == null then {} else {n.lifeline.instance.parentType}
  {
    && n.slot.parentClass == n.lifeline.class_
    && (forall s | s in n.slot.statements && s.SignalEmission? :: s.emitted.parentClass == n.slot.parentClass)
    && (IsChild(n.lifeline) ==>
          && n.lifeline.instance != null && n.lifeline.instance.type_ == n.lifeline.class_
          && n.lifeline.instance in n.lifeline.instance.parentType.members)
  }

  // An object of a connection as its class sees it: this, or one of the class's own members,
  // and of the class that declares the method.
  predicate ObjectFits(c: Type, object_: Option<Member>, method_: Method)
    reads c
  {
    match object_
    case None => c == method_.parentClass
    case Some(m) => m in c.members && m.type_ == method_.parentClass
  }

  predicate Fits(p: Placed)
    reads p.class_
  {
    && ObjectFits(p.class_, p.connect.sender, p.connect.signal)
    && ObjectFits(p.class_, p.connect.receiver, p.connect.slot)
    && (p.connect.sender.Some? || p.connect.receiver.Some?)
  }

  lemma PlacementsFit(n: Node, signal: Method, dest: Node)
    requires Coherent(n) && Coherent(dest) && Assigned(n.lifeline) && Assigned(dest.lifeline)
    requires signal.parentClass == n.slot.parentClass
    ensures forall p | p in Placements(n.lifeline, signal, dest.lifeline, dest.slot) :: Fits(p)
  {
  }

  lemma {:induction false} AttachedStepHas(u: UseCase, n: Node, signal: Method, attached: seq<Attached>, objs: set<object>, k: nat)
    requires Ready(u, n, objs) && InUseCase(u, attached) && k < |attached|
    ensures var dest := u.lifelines[attached[k].lifelineIndex];
            Assigned(dest) && Step(Node(dest, attached[k].slot), Placements(n.lifeline, signal, dest, attached[k].slot))
                              in AttachedSteps(u, n, signal, attached, objs)
    decreases |attached|
  {
    assert attached[k] in attached && u.lifelines[attached[k].lifelineIndex] in u.lifelines;
    AttachedUnroll(u, n, signal, attached, objs);
    if k > 0 {
      AttachedStepHas(u, n, signal, attached[1..], objs, k - 1);
    }
  }

  lemma {:induction false} ActivationStepHas(u: UseCase, n: Node, index: int, signal: Method, activations: seq<Activation>,
                                             objs: set<object>, a: Activation, k: nat)
    requires Ready(u, n, objs) && AllInUseCase(u, activations) && a in activations
    requires IsFor(a, n, index) && k < |a.attached|
    ensures 0 <= a.attached[k].lifelineIndex < |u.lifelines|
    ensures var dest := u.lifelines[a.attached[k].lifelineIndex];
            Assigned(dest) && Step(Node(dest, a.attached[k].slot), Placements(n.lifeline, signal, dest, a.attached[k].slot))
                              in ActivationSteps(u, n, index, signal, activations, objs)
    decreases |activations|
  {
    ActivationUnroll(u, n, index, signal, activations, objs);
    assert InUseCase(u, a.attached) && a.attached[k] in a.attached;
    if activations[0] == a {
      AttachedStepHas(u, n, signal, a.attached, objs, k);
    } else {
      ActivationStepHas(u, n, index, signal, activations[1..], objs, a, k);
    }
  }

  lemma {:induction false} StatementStepHas(u: UseCase, n: Node, from: nat, i: nat, objs: set<object>, s: Step)
    requires Ready(u, n, objs) && from <= i < |n.slot.statements| && s in StatementSteps(u, n, i, n.slot.statements[i], objs)
    ensures s in StepsFrom(u, n, from, objs)
    decreases i - from
  {
    StatementUnroll(u, n, from, objs);
    if from < i {
      StatementStepHas(u, n, from + 1, i, objs, s);
    }
  }

  // Everything placed for a slot attached to a signal that a reachable slot emits is in the walk.
  lemma AttachmentIsWalked(u: UseCase, w: Plan, objs: set<object>, n: Node, m: Node, i: nat, a: Activation, k: nat, p: Placed)
    requires Closed(w) && Acyclic(w, n) && Describes(u, w, objs) && m in w && ComesTo(w, n, m)
    requires i < |m.slot.statements| && m.slot.statements[i].SignalEmission? && a in u.activations && IsFor(a, m, i)
    requires k < |a.attached| && 0 <= a.attached[k].lifelineIndex < |u.lifelines|
    requires var dest := u.lifelines[a.attached[k].lifelineIndex];
             Assigned(m.lifeline) && Assigned(dest)
             && p in Placements(m.lifeline, m.slot.statements[i].emitted, dest, a.attached[k].slot)
    ensures p in Walk(w, n)
  {
    hide Acyclic; hide Closed; hide Placements;
    PlanAt(u, w, objs, m);
    var signal := m.slot.statements[i].emitted;
    ActivationStepHas(u, m, i, signal, u.activations, objs, a, k);
    var dest := u.lifelines[a.attached[k].lifelineIndex];
    var s := Step(Node(dest, a.attached[k].slot), Placements(m.lifeline, signal, dest, a.attached[k].slot));
    StatementStepHas(u, m, 0, i, objs, s);
    WalkPlacesExactly(w, n, p);
  }

  // For every slot attached to a signal that a slot of the walk emits: two members of one parent
  // are connected in the parent, an object that is a member of the other's class in that class.
  lemma RelatedLifelinesAreConnected(u: UseCase, w: Plan, objs: set<object>, n: Node, m: Node, i: nat, a: Activation, k: nat)
    requires Closed(w) && Acyclic(w, n) && Describes(u, w, objs) && m in w && ComesTo(w, n, m)
    requires i < |m.slot.statements| && m.slot.statements[i].SignalEmission? && a in u.activations && IsFor(a, m, i)
    requires k < |a.attached| && 0 <= a.attached[k].lifelineIndex < |u.lifelines|
    ensures var source, signal := m.lifeline, m.slot.statements[i].emitted;
            var dest, slot := u.lifelines[a.attached[k].lifelineIndex], a.attached[k].slot;
            && (IsChild(source) && IsChild(dest) ==>
                  source.instance != null && dest.instance != null
                  && (source.instance.parentType == dest.instance.parentType ==>
                        Placed(source.instance.parentType, Connect(Some(source.instance), signal, Some(dest.instance), slot))
                        in Walk(w, n)))
            && (IsChild(dest) && dest.instance in source.class_.members ==>
                  Placed(source.class_, Connect(None, signal, Some(dest.instance), slot)) in Walk(w, n))
            && (IsChild(source) && source.instance in dest.class_.members ==>
                  Placed(dest.class_, Connect(Some(source.instance), signal, None, slot)) in Walk(w, n))
  {
    PlanAt(u, w, objs, m);
    var dest := u.lifelines[a.attached[k].lifelineIndex];
    assert dest in u.lifelines;
    forall p | p in Placements(m.lifeline, m.slot.statements[i].emitted, dest, a.attached[k].slot) ensures p in Walk(w, n) {
      AttachmentIsWalked(u, w, objs, n, m, i, a, k, p);
    }
  }

  lemma {:induction false} AttachedStepsFit(u: UseCase, n: Node, signal: Method, attached: seq<Attached>, objs: set<object>, s: Step)
    requires Ready(u, n, objs) && InUseCase(u, attached)
    requires Coherent(n) && signal.parentClass == n.slot.parentClass
    requires s in AttachedSteps(u, n, signal, attached, objs) && Coherent(s.dest)
    ensures forall p | p in s.placed :: Fits(p)
    decreases |attached|
  {
    AttachedUnroll(u, n, signal, attached, objs);
    var dest := u.lifelines[attached[0].lifelineIndex];
    if s == Step(Node(dest, attached[0].slot), Placements(n.lifeline, signal, dest, attached[0].slot)) {
      PlacementsFit(n, signal, s.dest);
    } else {
      AttachedStepsFit(u, n, signal, attached[1..], objs, s);
    }
  }

  lemma {:induction false} ActivationStepsFit(u: UseCase, n: Node, index: int, signal: Method, activations: seq<Activation>,
                                              objs: set<object>, s: Step)
    requires Ready(u, n, objs) && AllInUseCase(u, activations)
    requires Coherent(n) && signal.parentClass == n.slot.parentClass
    requires s in ActivationSteps(u, n, index, signal, activations, objs) && Coherent(s.dest)
    ensures forall p | p in s.placed :: Fits(p)
    decreases |activations|
  {
    hide Coherent; hide Fits;
    ActivationUnroll(u, n, index, signal, activations, objs);
    if IsFor(activations[0], n, index) && s in AttachedSteps(u, n, signal, activations[0].attached, objs) {
      AttachedStepsFit(u, n, signal, activations[0].attached, objs, s);
    } else {
      ActivationStepsFit(u, n, index, signal, activations[1..], objs, s);
    }
  }

  lemma {:induction false} StepsFit(u: UseCase, n: Node, from: nat, objs: set<object>, s: Step)
    requires Ready(u, n, objs) && from <= |n.slot.statements| && Coherent(n)
    requires s in StepsFrom(u, n, from, objs) && Coherent(s.dest)
    ensures forall p | p in s.placed :: Fits(p)
    decreases |n.slot.statements| - from
  {
    hide Fits;
    StatementUnroll(u, n, from, objs);
    var statement := n.slot.statements[from];
    if s in StatementSteps(u, n, from, statement, objs) {
      assert statement in n.slot.statements;
      if statement.SignalEmission? {
        ActivationStepsFit(u, n, from, statement.emitted, u.activations, objs, s);
      }
    } else {
      StepsFit(u, n, from + 1, objs, s);
    }
  }

  // Every connection the walk places in a class names only this and members of that class, and
  // each object is of the class that declares its signal or slot.
  lemma EveryConnectionFits(u: UseCase, w: Plan, objs: set<object>, n: Node, p: Placed)
    requires Closed(w) && Acyclic(w, n) && Describes(u, w, objs) && (forall m | m in w :: Coherent(m)) && p in Walk(w, n)
    ensures Fits(p)
  {
    hide Coherent; hide Fits; hide Acyclic;
    WalkPlacesExactly(w, n, p);
    var m :| m in w && ComesTo(w, n, m) && exists s | s in w[m] :: p in s.placed;
    var s :| s in w[m] && p in s.placed;
    PlanAt(u, w, objs, m);
    assert s.dest in w;
    StepsFit(u, m, 0, objs, s);
  }
}
