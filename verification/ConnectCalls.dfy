// The walk of ConnectWalk against the use case itself: which slot calls which, by an invocation or
// by a signal the use case attaches it to. The walk follows exactly these calls, one after the
// other, and every path of calls is walked exactly once.
module ConnectCalls {
  import opened Wrappers
  import opened ProjectObjects
  import opened ConnectWalk

  // Why a slot calls another one: its statement number i invokes it, or emits a signal that slot
  // number k of activation number a is attached to.
  datatype Cause = Invoked(i: nat) | Signalled(i: nat, a: nat, k: nat)

  // Activation number a of the use case is for statement number i of the slot n.
  ghost predicate Activates(u: UseCase, n: Node, a: nat, i: nat)
    reads u
  {
    && a < |u.activations| && u.activations[a].sourceLifeline == n.lifeline && u.activations[a].sourceSlot == n.slot
    && u.activations[a].statementIndex == i
  }

  ghost predicate IsCall(u: UseCase, n: Node, c: Cause)
    reads u, n.slot
  {
    c.i < |n.slot.statements|
    && match c
       case Invoked(i) => n.slot.statements[i].SlotInvocation?
       case Signalled(i, a, k) =>
         && n.slot.statements[i].SignalEmission? && Activates(u, n, a, i) && k < |u.activations[a].attached|
         && 0 <= u.activations[a].attached[k].lifelineIndex < |u.lifelines|
  }

  // The slot that is called.
  ghost function Dest(u: UseCase, n: Node, c: Cause): Node
    requires IsCall(u, n, c)
    reads u, n.slot
  {
    match c
    case Invoked(i) => Node(n.slot.statements[i].lifeline, n.slot.statements[i].invoked)
    case Signalled(i, a, k) =>
      var x := u.activations[a].attached[k];
      Node(u.lifelines[x.lifelineIndex], x.slot)
  }

  // What is placed for a call; an invocation connects nothing.
  ghost function PlacedBy(u: UseCase, n: Node, c: Cause): seq<Placed>
    requires IsCall(u, n, c)
    reads *
  {
    var dest := Dest(u, n, c);
    if c.Signalled? && Assigned(n.lifeline) && Assigned(dest.lifeline) then
      Placements(n.lifeline, n.slot.statements[c.i].emitted, dest.lifeline, dest.slot)
    else []
  }

  ghost function StepOf(u: UseCase, n: Node, c: Cause): Step
    requires IsCall(u, n, c)
    reads *
  {
    Step(Dest(u, n, c), PlacedBy(u, n, c))
  }

  // In the order of the statements, then of the activations, then of the slots attached.
  predicate Before(c: Cause, d: Cause)
  {
    c.i < d.i || (c.i == d.i && c.Signalled? && d.Signalled? && (c.a < d.a || (c.a == d.a && c.k < d.k)))
  }

  ghost predicate InOrder(cs: seq<Cause>)
  {
    forall x, y | 0 <= x < y < |cs| :: Before(cs[x], cs[y])
  }

  lemma OneAfterTheOther(cs: seq<Cause>, ds: seq<Cause>)
    requires InOrder(cs) && InOrder(ds) && forall c, d | c in cs && d in ds :: Before(c, d)
    ensures InOrder(cs + ds)
  {
  }

  // The steps are those of the causes, one for one.
  ghost predicate Matches(u: UseCase, n: Node, steps: seq<Step>, cs: seq<Cause>)
    reads *
  {
    |steps| == |cs| && forall j | 0 <= j < |cs| :: IsCall(u, n, cs[j]) && steps[j] == StepOf(u, n, cs[j])
  }

  lemma MatchesBoth(u: UseCase, n: Node, s: seq<Step>, t: seq<Step>, cs: seq<Cause>, ds: seq<Cause>)
    requires Matches(u, n, s, cs) && Matches(u, n, t, ds)
    ensures Matches(u, n, s + t, cs + ds)
  {
    hide StepOf; hide IsCall;
  }

  lemma {:induction false} AttachedAre(u: UseCase, n: Node, i: nat, a: nat, objs: set<object>, from: nat)
    requires Ready(u, n, objs) && i < |n.slot.statements| && n.slot.statements[i].SignalEmission? && Activates(u, n, a, i)
    requires from <= |u.activations[a].attached|
    ensures var xs := u.activations[a].attached[from..];
            InUseCase(u, xs)
            && Matches(u, n, AttachedSteps(u, n, n.slot.statements[i].emitted, xs, objs),
                       seq(|xs|, k requires 0 <= k < |xs| => Signalled(i, a, from + k)))
    decreases |u.activations[a].attached| - from
  {
    hide Placements; hide Assigned;
    var act := u.activations[a];
    var xs, signal := act.attached[from..], n.slot.statements[i].emitted;
    assert act in u.activations && InUseCase(u, act.attached);
    assert forall x | x in xs :: x in act.attached;
    if from < |act.attached| {
      AttachedUnroll(u, n, signal, xs, objs);
      AttachedAre(u, n, i, a, objs, from + 1);
      assert xs[1..] == act.attached[from + 1..] && act.attached[from] in act.attached;
      var first, rest := Signalled(i, a, from), act.attached[from + 1..];
      var cs := seq(|rest|, k requires 0 <= k < |rest| => Signalled(i, a, from + 1 + k));
      assert Dest(u, n, first).lifeline in u.lifelines;
      assert Matches(u, n, [StepOf(u, n, first)], [first]);
      MatchesBoth(u, n, [StepOf(u, n, first)], AttachedSteps(u, n, signal, xs[1..], objs), [first], cs);
      assert [first] + cs == seq(|xs|, k requires 0 <= k < |xs| => Signalled(i, a, from + k));
    }
  }

  // The calls by statement number i through the activations from number a on.
  ghost predicate ByActivation(u: UseCase, n: Node, i: nat, from: nat, c: Cause)
    reads u, n.slot
  {
    IsCall(u, n, c) && c.Signalled? && c.i == i && c.a >= from
  }

  lemma {:induction false} ActivationsAre(u: UseCase, n: Node, i: nat, objs: set<object>, from: nat) returns (cs: seq<Cause>)
    requires Ready(u, n, objs) && i < |n.slot.statements| && n.slot.statements[i].SignalEmission? && from <= |u.activations|
    ensures AllInUseCase(u, u.activations[from..])
    ensures Matches(u, n, ActivationSteps(u, n, i, n.slot.statements[i].emitted, u.activations[from..], objs), cs)
    ensures InOrder(cs) && forall c: Cause :: c in cs <==> ByActivation(u, n, i, from, c)
    decreases |u.activations| - from
  {
    hide Placements; hide Assigned;
    var signal := n.slot.statements[i].emitted;
    assert forall a | a in u.activations[from..] :: a in u.activations;
    if from == |u.activations| {
      cs := [];
      assert forall c: Cause :: !ByActivation(u, n, i, from, c);
    } else {
      var act := u.activations[from];
      assert u.activations[from..][1..] == u.activations[from + 1..];
      ActivationUnroll(u, n, i, signal, u.activations[from..], objs);
      var rest := ActivationsAre(u, n, i, objs, from + 1);
      var mine := OneActivation(u, n, i, from, objs);
      MatchesBoth(u, n, StepsOfActivation(u, n, i, signal, act, objs),
                  ActivationSteps(u, n, i, signal, u.activations[from + 1..], objs), mine, rest);
      cs := mine + rest;
      forall c, d | c in mine && d in rest ensures Before(c, d) {
        assert ByActivation(u, n, i, from + 1, d);
      }
      OneAfterTheOther(mine, rest);
      forall c: Cause ensures c in cs <==> ByActivation(u, n, i, from, c) {
        assert ByActivation(u, n, i, from, c) <==> (ByActivation(u, n, i, from, c) && c.a == from) || ByActivation(u, n, i, from + 1, c);
      }
    }
  }

  lemma OneActivation(u: UseCase, n: Node, i: nat, a: nat, objs: set<object>) returns (cs: seq<Cause>)
    requires Ready(u, n, objs) && i < |n.slot.statements| && n.slot.statements[i].SignalEmission? && a < |u.activations|
    requires InUseCase(u, u.activations[a].attached)
    ensures Matches(u, n, StepsOfActivation(u, n, i, n.slot.statements[i].emitted, u.activations[a], objs), cs)
    ensures InOrder(cs) && forall c: Cause :: c in cs <==> ByActivation(u, n, i, a, c) && c.a == a
  {
    hide Placements; hide Assigned;
    var act := u.activations[a];
    if Activates(u, n, a, i) {
      AttachedAre(u, n, i, a, objs, 0);
      assert act.attached[0..] == act.attached;
      cs := seq(|act.attached|, k requires 0 <= k < |act.attached| => Signalled(i, a, k));
      forall c: Cause | ByActivation(u, n, i, a, c) && c.a == a ensures c in cs {
        assert c == cs[c.k];
      }
    } else {
      cs := [];
    }
  }

  lemma OneStatement(u: UseCase, n: Node, i: nat, objs: set<object>) returns (cs: seq<Cause>)
    requires Ready(u, n, objs) && i < |n.slot.statements|
    ensures Matches(u, n, StatementSteps(u, n, i, n.slot.statements[i], objs), cs)
    ensures InOrder(cs) && forall c: Cause :: c in cs <==> IsCall(u, n, c) && c.i == i
  {
    hide Placements; hide Assigned;
    match n.slot.statements[i] {
      case SignalEmission(signal, _) =>
        cs := ActivationsAre(u, n, i, objs, 0);
        assert u.activations[0..] == u.activations;
        forall c: Cause ensures c in cs <==> IsCall(u, n, c) && c.i == i {
          assert ByActivation(u, n, i, 0, c) <==> IsCall(u, n, c) && c.i == i;
        }
      case SlotInvocation(_, _, _) => cs := [Invoked(i)];
      case RawCppChunk(_) => cs := [];
    }
  }

  lemma {:induction false} StatementsAre(u: UseCase, n: Node, from: nat, objs: set<object>) returns (cs: seq<Cause>)
    requires Ready(u, n, objs) && from <= |n.slot.statements|
    ensures Matches(u, n, StepsFrom(u, n, from, objs), cs)
    ensures InOrder(cs) && forall c: Cause :: c in cs <==> IsCall(u, n, c) && c.i >= from
    decreases |n.slot.statements| - from
  {
    if from == |n.slot.statements| {
      cs := [];
    } else {
      StatementUnroll(u, n, from, objs);
      var mine := OneStatement(u, n, from, objs);
      var rest := StatementsAre(u, n, from + 1, objs);
      hide Ready; hide IsCall; hide StepOf;
      MatchesBoth(u, n, StatementSteps(u, n, from, n.slot.statements[from], objs), StepsFrom(u, n, from + 1, objs), mine, rest);
      OneAfterTheOther(mine, rest);
      cs := mine + rest;
    }
  }

  // The steps the walk takes at a slot are exactly its calls, each once, in order, and each places
  // what the call needs.
  lemma StepsAreCalls(u: UseCase, w: Plan, objs: set<object>, n: Node) returns (cs: seq<Cause>)
    requires Describes(u, w, objs) && n in w
    ensures Matches(u, n, w[n], cs) && InOrder(cs) && forall c: Cause :: c in cs <==> IsCall(u, n, c)
  {
    PlanAt(u, w, objs, n);
    cs := StatementsAre(u, n, 0, objs);
  }

  // ---------- paths of calls ----------

  ghost predicate IsPath(u: UseCase, n: Node, path: seq<Cause>)
    reads *
    decreases |path|
  {
    path == [] || (IsCall(u, n, path[0]) && IsPath(u, Dest(u, n, path[0]), path[1..]))
  }

  // The slot a path leads to.
  ghost function End(u: UseCase, n: Node, path: seq<Cause>): Node
    requires IsPath(u, n, path)
    reads *
    decreases |path|
  {
    if path == [] then n else End(u, Dest(u, n, path[0]), path[1..])
  }

  // What the last call of a path places.
  ghost function PlacedAtEnd(u: UseCase, n: Node, path: seq<Cause>): seq<Placed>
    requires path != [] && IsPath(u, n, path)
    reads *
    decreases |path|
  {
    if |path| == 1 then PlacedBy(u, n, path[0]) else PlacedAtEnd(u, Dest(u, n, path[0]), path[1..])
  }

  ghost predicate ArePaths(u: UseCase, n: Node, paths: seq<seq<Cause>>)
    reads *
  {
    forall x | 0 <= x < |paths| :: paths[x] != [] && IsPath(u, n, paths[x])
  }

  ghost function PlacedAlong(u: UseCase, n: Node, paths: seq<seq<Cause>>): seq<Placed>
    requires ArePaths(u, n, paths)
    reads *
    decreases |paths|
  {
    if paths == [] then [] else PlacedAtEnd(u, n, paths[0]) + PlacedAlong(u, n, paths[1..])
  }

  // Depth first: a path in front of those that go on from it, then in the order of the calls.
  predicate DepthFirst(p: seq<Cause>, q: seq<Cause>)
    decreases |p|
  {
    q != [] && (p == [] || Before(p[0], q[0]) || (p[0] == q[0] && DepthFirst(p[1..], q[1..])))
  }

  predicate AllDepthFirst(paths: seq<seq<Cause>>)
  {
    forall x, y | 0 <= x < y < |paths| :: DepthFirst(paths[x], paths[y])
  }

  function Prefixed(c: Cause, paths: seq<seq<Cause>>): (r: seq<seq<Cause>>)
    ensures |r| == |paths| && forall x | 0 <= x < |r| :: r[x] == [c] + paths[x]
  {
    seq(|paths|, x requires 0 <= x < |paths| => [c] + paths[x])
  }

  lemma PrefixedArePaths(u: UseCase, n: Node, c: Cause, paths: seq<seq<Cause>>)
    requires IsCall(u, n, c) && ArePaths(u, Dest(u, n, c), paths)
    ensures ArePaths(u, n, Prefixed(c, paths))
    ensures forall x | 0 <= x < |paths| ::
              PlacedAtEnd(u, n, Prefixed(c, paths)[x]) == PlacedAtEnd(u, Dest(u, n, c), paths[x])
  {
    forall x | 0 <= x < |paths|
      ensures var p := Prefixed(c, paths)[x];
              p != [] && IsPath(u, n, p) && PlacedAtEnd(u, n, p) == PlacedAtEnd(u, Dest(u, n, c), paths[x])
    {
      assert ([c] + paths[x])[1..] == paths[x];
    }
  }

  lemma {:induction false} AlongPrefixed(u: UseCase, n: Node, c: Cause, paths: seq<seq<Cause>>)
    requires IsCall(u, n, c) && ArePaths(u, Dest(u, n, c), paths)
    ensures ArePaths(u, n, Prefixed(c, paths))
    ensures PlacedAlong(u, n, Prefixed(c, paths)) == PlacedAlong(u, Dest(u, n, c), paths)
    decreases |paths|
  {
    PrefixedArePaths(u, n, c, paths);
    if paths != [] {
      AlongPrefixed(u, n, c, paths[1..]);
      assert Prefixed(c, paths)[1..] == Prefixed(c, paths[1..]);
    }
  }

  lemma {:induction false} AlongAppend(u: UseCase, n: Node, a: seq<seq<Cause>>, b: seq<seq<Cause>>)
    requires ArePaths(u, n, a) && ArePaths(u, n, b)
    ensures ArePaths(u, n, a + b) && PlacedAlong(u, n, a + b) == PlacedAlong(u, n, a) + PlacedAlong(u, n, b)
    decreases |a|
  {
    if a == [] {
      assert a + b == b;
    } else {
      assert (a + b)[1..] == a[1..] + b;
      AlongAppend(u, n, a[1..], b);
      var x, y, z := PlacedAtEnd(u, n, a[0]), PlacedAlong(u, n, a[1..]), PlacedAlong(u, n, b);
      assert x + (y + z) == x + y + z;
    }
  }

  // The paths from n that start with one of the calls from number j on.
  ghost predicate StartsLate(u: UseCase, n: Node, cs: seq<Cause>, j: nat, p: seq<Cause>)
    requires j <= |cs|
    reads *
  {
    p != [] && p[0] in cs[j..] && IsPath(u, n, p)
  }

  lemma {:induction false} WalkFrom(u: UseCase, w: Plan, objs: set<object>, n: Node, cs: seq<Cause>, j: nat)
    returns (paths: seq<seq<Cause>>)
    requires Closed(w) && Acyclic(w, n) && Describes(u, w, objs) && j <= |cs|
    requires Matches(u, n, w[n], cs) && InOrder(cs)
    ensures InPlan(w, n, w[n][j..]) && ArePaths(u, n, paths) && AllDepthFirst(paths)
    ensures WalkAll(w, n, w[n][j..]) == PlacedAlong(u, n, paths)
    ensures forall p :: p in paths <==> StartsLate(u, n, cs, j, p)
    decreases |Ahead(w, n)|, |cs| - j
  {
    assert n in w;
    hide StepOf; hide Describes; hide Ahead; hide Acyclic; hide Closed;
    assert forall s | s in w[n][j..] :: s in w[n];
    if j == |cs| {
      NoSteps(w, n, w[n][j..]);
      paths := [];
    } else {
      var dest := w[n][j].dest;
      assert w[n][j] in w[n];
      StepDown(w, n, w[n][j]);
      StepOfFields(u, n, cs[j]);
      var inner := WalkIsEveryPathOnce(u, w, objs, dest);
      var rest := WalkFrom(u, w, objs, n, cs, j + 1);
      FirstStep(w, n, j);
      hide WalkAll; hide Walk; hide IsCall; hide PlacedAlong; hide IsPath;
      paths := FirstCall(u, n, cs, j, inner, rest);
    }
  }

  lemma FirstStep(w: Plan, n: Node, j: nat)
    requires Closed(w) && Acyclic(w, n) && j < |w[n]|
    ensures w[n][j].dest in w && Acyclic(w, w[n][j].dest) && InPlan(w, n, w[n][j..]) && InPlan(w, n, w[n][j + 1..])
    ensures WalkAll(w, n, w[n][j..]) == w[n][j].placed + Walk(w, w[n][j].dest) + WalkAll(w, n, w[n][j + 1..])
  {
    assert w[n][j] in w[n] && w[n][j..] == [w[n][j]] + w[n][j + 1..];
    WalkAllStep(w, n, w[n][j], w[n][j + 1..]);
  }

  lemma StepOfFields(u: UseCase, n: Node, c: Cause)
    requires IsCall(u, n, c)
    ensures StepOf(u, n, c).dest == Dest(u, n, c) && StepOf(u, n, c).placed == PlacedBy(u, n, c)
  {
  }

  // The call number j, the paths that go on from there, and the paths that start later.
  lemma FirstCall(u: UseCase, n: Node, cs: seq<Cause>, j: nat, inner: seq<seq<Cause>>, rest: seq<seq<Cause>>)
    returns (paths: seq<seq<Cause>>)
    requires j < |cs| && InOrder(cs) && IsCall(u, n, cs[j])
    requires ArePaths(u, Dest(u, n, cs[j]), inner) && AllDepthFirst(inner)
    requires forall p :: p in inner <==> p != [] && IsPath(u, Dest(u, n, cs[j]), p)
    requires ArePaths(u, n, rest) && AllDepthFirst(rest) && forall p :: p in rest <==> StartsLate(u, n, cs, j + 1, p)
    ensures ArePaths(u, n, paths) && AllDepthFirst(paths) && forall p :: p in paths <==> StartsLate(u, n, cs, j, p)
    ensures PlacedAlong(u, n, paths)
            == PlacedBy(u, n, cs[j]) + PlacedAlong(u, Dest(u, n, cs[j]), inner) + PlacedAlong(u, n, rest)
  {
    var c := cs[j];
    var first := [[c]];
    OneCall(u, n, c);
    AlongPrefixed(u, n, c, inner);
    AlongAppend(u, n, first, Prefixed(c, inner));
    AlongAppend(u, n, first + Prefixed(c, inner), rest);
    paths := first + Prefixed(c, inner) + rest;
    InnerDepthFirst(c, inner);
    forall p, q | p in first + Prefixed(c, inner) && q in rest ensures DepthFirst(p, q) {
      assert StartsLate(u, n, cs, j + 1, q) && p[0] == c;
      var y :| j + 1 <= y < |cs| && cs[y] == q[0];
    }
    DepthFirstBoth(first + Prefixed(c, inner), rest);
    forall p ensures p in paths <==> StartsLate(u, n, cs, j, p) {
      StartsNowOrLater(u, n, cs, j, inner, p);
    }
  }

  lemma OneCall(u: UseCase, n: Node, c: Cause)
    requires IsCall(u, n, c)
    ensures ArePaths(u, n, [[c]]) && PlacedAlong(u, n, [[c]]) == PlacedBy(u, n, c)
  {
    assert [c][1..] == [] && [[c]][1..] == [];
    assert IsPath(u, n, [c]);
    assert PlacedBy(u, n, c) + [] == PlacedBy(u, n, c);
  }

  lemma InnerDepthFirst(c: Cause, inner: seq<seq<Cause>>)
    requires AllDepthFirst(inner) && forall p | p in inner :: p != []
    ensures AllDepthFirst([[c]] + Prefixed(c, inner))
  {
    var paths := [[c]] + Prefixed(c, inner);
    forall x, y | 0 <= x < y < |paths| ensures DepthFirst(paths[x], paths[y]) {
      assert paths[y] == [c] + inner[y - 1] && paths[y][1..] == inner[y - 1] && inner[y - 1] in inner;
      if x == 0 {
        assert paths[x][1..] == [];
      } else {
        assert paths[x] == [c] + inner[x - 1] && paths[x][1..] == inner[x - 1];
      }
    }
  }

  lemma DepthFirstBoth(a: seq<seq<Cause>>, b: seq<seq<Cause>>)
    requires AllDepthFirst(a) && AllDepthFirst(b) && forall p, q | p in a && q in b :: DepthFirst(p, q)
    ensures AllDepthFirst(a + b)
  {
  }

  lemma StartsNowOrLater(u: UseCase, n: Node, cs: seq<Cause>, j: nat, inner: seq<seq<Cause>>, p: seq<Cause>)
    requires j < |cs| && IsCall(u, n, cs[j])
    requires forall p :: p in inner <==> p != [] && IsPath(u, Dest(u, n, cs[j]), p)
    ensures StartsLate(u, n, cs, j, p) <==> p in [[cs[j]]] + Prefixed(cs[j], inner) || StartsLate(u, n, cs, j + 1, p)
  {
    var c, all := cs[j], [[cs[j]]] + Prefixed(cs[j], inner);
    assert cs[j..] == [c] + cs[j + 1..];
    if StartsLate(u, n, cs, j, p) && p[0] == c {
      assert p == [c] + p[1..];
      if p[1..] == [] {
        assert all[0] == p;
      } else {
        assert p[1..] in inner;
        var x :| 0 <= x < |inner| && inner[x] == p[1..];
        assert all[1 + x] == p;
      }
    }
    if p in all {
      var x :| 0 <= x < |all| && all[x] == p;
      assert [c][1..] == [];
      if x > 0 { assert p[1..] == inner[x - 1] && inner[x - 1] in inner; }
      assert StartsLate(u, n, cs, j, p);
    }
  }

  // A path comes before another one, never before itself: in a list in this order it is there once.
  lemma {:induction false} NeverBeforeItself(p: seq<Cause>)
    ensures !DepthFirst(p, p)
    decreases |p|
  {
    if p != [] {
      NeverBeforeItself(p[1..]);
    }
  }

  // The walk takes every path of calls exactly once, depth first, and places what the last call of
  // each path needs.
  lemma {:induction false} WalkIsEveryPathOnce(u: UseCase, w: Plan, objs: set<object>, n: Node) returns (paths: seq<seq<Cause>>)
    requires Closed(w) && Acyclic(w, n) && Describes(u, w, objs)
    ensures ArePaths(u, n, paths) && AllDepthFirst(paths) && forall p :: p in paths <==> p != [] && IsPath(u, n, p)
    ensures Walk(w, n) == PlacedAlong(u, n, paths)
    decreases |Ahead(w, n)|, |w[n]| + 1
  {
    var cs := StepsAreCalls(u, w, objs, n);
    paths := WalkFrom(u, w, objs, n, cs, 0);
    assert w[n][0..] == w[n] && cs[0..] == cs;
    forall p ensures StartsLate(u, n, cs, 0, p) <==> p != [] && IsPath(u, n, p) {
    }
  }

  // ---------- the walk over the use case ----------

  lemma {:induction false} PathIsInPlan(u: UseCase, w: Plan, objs: set<object>, n: Node, path: seq<Cause>)
    requires Closed(w) && Describes(u, w, objs) && n in w && IsPath(u, n, path)
    ensures End(u, n, path) in w && ReachesIn(w, n, End(u, n, path), |path|)
    decreases |path|
  {
    hide *;
    if path == [] {
      NoStep(u, w, n);
    } else {
      PathGoesOn(u, n, path);
      var j := CallInPlan(u, w, objs, n, path[0]);
      StepStays(w, n, j);
      PathIsInPlan(u, w, objs, w[n][j].dest, path[1..]);
      StepAndPath(w, n, j, End(u, n, path), |path|);
    }
  }

  lemma NoStep(u: UseCase, w: Plan, n: Node)
    ensures IsPath(u, n, []) && End(u, n, []) == n && ReachesIn(w, n, n, 0)
  {
  }

  lemma PathGoesOn(u: UseCase, n: Node, path: seq<Cause>)
    requires path != [] && IsPath(u, n, path)
    ensures IsCall(u, n, path[0]) && IsPath(u, Dest(u, n, path[0]), path[1..])
    ensures End(u, n, path) == End(u, Dest(u, n, path[0]), path[1..])
  {
  }

  lemma StepStays(w: Plan, n: Node, j: nat)
    requires Closed(w) && n in w && j < |w[n]|
    ensures w[n][j].dest in w
  {
    assert w[n][j] in w[n];
  }

  lemma StepAndPath(w: Plan, n: Node, j: nat, m: Node, steps: nat)
    requires n in w && j < |w[n]| && steps > 0 && ReachesIn(w, w[n][j].dest, m, steps - 1)
    ensures ReachesIn(w, n, m, steps)
  {
  }

  lemma CallInPlan(u: UseCase, w: Plan, objs: set<object>, n: Node, c: Cause) returns (j: nat)
    requires Describes(u, w, objs) && n in w && IsCall(u, n, c)
    ensures j < |w[n]| && w[n][j].dest == Dest(u, n, c) && w[n][j].placed == PlacedBy(u, n, c)
  {
    hide Describes; hide IsCall;
    var cs := StepsAreCalls(u, w, objs, n);
    j :| 0 <= j < |cs| && cs[j] == c;
    StepOfFields(u, n, c);
  }

  lemma {:induction false} PlanIsOnPath(u: UseCase, w: Plan, objs: set<object>, n: Node, m: Node, steps: nat)
    returns (path: seq<Cause>)
    requires Closed(w) && Describes(u, w, objs) && n in w && ReachesIn(w, n, m, steps)
    ensures IsPath(u, n, path) && |path| == steps && End(u, n, path) == m
    decreases steps
  {
    if steps == 0 {
      path := [];
    } else {
      var k :| 0 <= k < |w[n]| && ReachesIn(w, w[n][k].dest, m, steps - 1);
      var c := PlanIsCall(u, w, objs, n, k);
      assert w[n][k] in w[n];
      hide Describes; hide IsCall; hide Dest;
      var rest := PlanIsOnPath(u, w, objs, w[n][k].dest, m, steps - 1);
      path := [c] + rest;
      assert path[1..] == rest;
    }
  }

  lemma PlanIsCall(u: UseCase, w: Plan, objs: set<object>, n: Node, k: nat) returns (c: Cause)
    requires Describes(u, w, objs) && n in w && k < |w[n]|
    ensures IsCall(u, n, c) && Dest(u, n, c) == w[n][k].dest
  {
    hide Describes; hide IsCall;
    var cs := StepsAreCalls(u, w, objs, n);
    c := cs[k];
    StepOfFields(u, n, c);
  }

  // Some path leads to a slot that calls itself, by whatever detour.
  ghost predicate GoesRound(u: UseCase, n: Node)
    reads *
  {
    exists p, q :: Round(u, n, p, q)
  }

  ghost predicate Round(u: UseCase, n: Node, p: seq<Cause>, q: seq<Cause>)
    reads *
  {
    IsPath(u, n, p) && q != [] && IsPath(u, End(u, n, p), q) && End(u, End(u, n, p), q) == End(u, n, p)
  }

  lemma AcyclicIff(u: UseCase, w: Plan, objs: set<object>, n: Node)
    requires Closed(w) && Describes(u, w, objs) && n in w
    ensures Acyclic(w, n) <==> !GoesRound(u, n)
  {
    if p, q :| Round(u, n, p, q) {
      RoundIsCycle(u, w, objs, n, p, q);
    }
    if !Acyclic(w, n) {
      var m, steps, round := CycleAhead(w, n);
      var p := PlanIsOnPath(u, w, objs, n, m, steps);
      var q := PlanIsOnPath(u, w, objs, m, m, round);
      assert Round(u, n, p, q);
    }
  }

  lemma CycleAhead(w: Plan, n: Node) returns (m: Node, steps: nat, round: nat)
    requires n in w && !Acyclic(w, n)
    ensures m in w && ReachesIn(w, n, m, steps) && round > 0 && ReachesIn(w, m, m, round)
  {
    if Reaches(w, n, n) {
      m, steps := n, 0;
    } else {
      m :| m in w && Reaches(w, n, m) && Reaches(w, m, m);
      steps :| steps > 0 && ReachesIn(w, n, m, steps);
    }
    round :| round > 0 && ReachesIn(w, m, m, round);
  }

  lemma RoundIsCycle(u: UseCase, w: Plan, objs: set<object>, n: Node, p: seq<Cause>, q: seq<Cause>)
    requires Closed(w) && Describes(u, w, objs) && n in w && Round(u, n, p, q)
    ensures !Acyclic(w, n)
  {
    var m := End(u, n, p);
    assert p == [] ==> m == n;
    hide Describes; hide Closed; hide IsPath; hide End; hide ReachesIn;
    PathIsInPlan(u, w, objs, n, p);
    PathIsInPlan(u, w, objs, m, q);
    assert Reaches(w, m, m);
    assert p != [] ==> Reaches(w, n, m);
  }

  // No call of the walk is deeper than so many calls.
  ghost predicate CallsEndWithin(u: UseCase, n: Node, depth: nat)
    reads *
    decreases depth
  {
    depth > 0 && forall c | IsCall(u, n, c) :: CallsEndWithin(u, Dest(u, n, c), depth - 1)
  }

  lemma {:induction false} EndsTogether(u: UseCase, w: Plan, objs: set<object>, n: Node, depth: nat)
    requires Closed(w) && Describes(u, w, objs) && n in w
    ensures EndsWithin(w, n, depth) <==> CallsEndWithin(u, n, depth)
    decreases depth
  {
    if depth > 0 {
      hide Describes;
      var cs := StepsAreCalls(u, w, objs, n);
      forall k | 0 <= k < |w[n]|
        ensures w[n][k].dest == Dest(u, n, cs[k])
        ensures EndsWithin(w, w[n][k].dest, depth - 1) <==> CallsEndWithin(u, Dest(u, n, cs[k]), depth - 1)
      {
        StepOfFields(u, n, cs[k]);
        assert w[n][k] in w[n];
        EndsTogether(u, w, objs, w[n][k].dest, depth - 1);
      }
      if EndsWithin(w, n, depth) {
        forall c | IsCall(u, n, c) ensures CallsEndWithin(u, Dest(u, n, c), depth - 1) {
          var k :| 0 <= k < |cs| && cs[k] == c;
        }
      }
      if CallsEndWithin(u, n, depth) {
        forall k | 0 <= k < |w[n]| ensures EndsWithin(w, w[n][k].dest, depth - 1) {
          assert IsCall(u, n, cs[k]);
        }
      }
    }
  }

  // The walk of a use case ends if and only if no slot it comes to calls itself again.
  lemma UseCaseWalkEndsIff(u: UseCase, w: Plan, objs: set<object>, n: Node)
    requires Closed(w) && Describes(u, w, objs) && n in w
    ensures (exists depth: nat :: CallsEndWithin(u, n, depth)) <==> !GoesRound(u, n)
  {
    AcyclicIff(u, w, objs, n);
    WalkEndsIff(w, n);
    hide GoesRound; hide Acyclic; hide CallsEndWithin; hide EndsWithin; hide Describes; hide Closed;
    if depth: nat :| CallsEndWithin(u, n, depth) {
      EndsTogether(u, w, objs, n, depth);
      assert EndsWithin(w, n, depth);
    }
    if !GoesRound(u, n) {
      var depth: nat :| EndsWithin(w, n, depth);
      EndsTogether(u, w, objs, n, depth);
    }
  }

  // ---------- what is placed for one call ----------

  // Two members of one parent are connected in the parent; an object that is a member of the
  // other's class is connected in that class.
  ghost predicate Relates(source: Lifeline, signal: Method, dest: Lifeline, slot: Method, p: Placed)
    requires Assigned(source) && Assigned(dest)
    reads source, dest, source.class_, dest.class_
  {
    || (IsChild(source) && IsChild(dest) && source.instance.parentType == dest.instance.parentType
        && p == Placed(source.instance.parentType, Connect(Some(source.instance), signal, Some(dest.instance), slot)))
    || (IsChild(dest) && dest.instance in source.class_.members
        && p == Placed(source.class_, Connect(None, signal, Some(dest.instance), slot)))
    || (IsChild(source) && source.instance in dest.class_.members
        && p == Placed(dest.class_, Connect(Some(source.instance), signal, None, slot)))
  }

  // Every connection a call needs is placed, no other one, and none twice.
  lemma PlacementsAreExactly(source: Lifeline, signal: Method, dest: Lifeline, slot: Method)
    requires Assigned(source) && Assigned(dest)
    ensures forall p :: p in Placements(source, signal, dest, slot) <==> Relates(source, signal, dest, slot, p)
    ensures multiset(Placements(source, signal, dest, slot))
            == multiset(set p | p in Placements(source, signal, dest, slot))
  {
    var a := if IsChild(dest) && IsChild(source) && dest.instance.parentType == source.instance.parentType then
               [Placed(dest.instance.parentType, Connect(Some(source.instance), signal, Some(dest.instance), slot))]
             else [];
    var b := if IsChild(dest) && dest.instance in source.class_.members then
               [Placed(source.class_, Connect(None, signal, Some(dest.instance), slot))]
             else [];
    var c := if IsChild(source) && source.instance in dest.class_.members then
               [Placed(dest.class_, Connect(Some(source.instance), signal, None, slot))]
             else [];
    assert Placements(source, signal, dest, slot) == a + b + c;
    hide Placements;
    ThreeAtMost(a, b, c);
  }

  lemma ThreeAtMost(a: seq<Placed>, b: seq<Placed>, c: seq<Placed>)
    requires |a| <= 1 && |b| <= 1 && |c| <= 1
    requires forall p, q | p in a && q in b + c :: p != q
    requires forall p, q | p in b && q in c :: p != q
    ensures multiset(a + b + c) == multiset(set p | p in a + b + c)
    ensures forall p :: p in a + b + c <==> p in a || p in b || p in c
  {
    var ps := a + b + c;
    forall i, j | 0 <= i < j < |ps| ensures ps[i] != ps[j] {
      if i < |a| {
        assert ps[i] == a[i] && ps[j] == (b + c)[j - |a|];
        assert a[i] in a && (b + c)[j - |a|] in b + c;
      } else {
        assert ps[i] == b[i - |a|] && ps[j] == c[j - |a| - |b|];
        assert b[i - |a|] in b && c[j - |a| - |b|] in c;
      }
    }
    OnlyOnce(ps);
  }

  lemma {:induction false} OnlyOnce(ps: seq<Placed>)
    requires forall i, j | 0 <= i < j < |ps| :: ps[i] != ps[j]
    ensures multiset(ps) == multiset(set p | p in ps)
    decreases |ps|
  {
    if ps != [] {
      var rest := ps[1..];
      OnlyOnce(rest);
      assert ps == [ps[0]] + rest;
      assert ps[0] !in rest;
      assert (set p | p in ps) == {ps[0]} + (set p | p in rest);
    }
  }

  // Whatever path of calls leads to a slot: the connections of each of its calls are placed.
  lemma CallsAreConnected(u: UseCase, w: Plan, objs: set<object>, n: Node, path: seq<Cause>, c: Cause, p: Placed)
    requires Closed(w) && Describes(u, w, objs) && n in w && !GoesRound(u, n)
    requires IsPath(u, n, path) && IsCall(u, End(u, n, path), c) && c.Signalled?
    requires var m := End(u, n, path);
             var dest := Dest(u, m, c);
             && Assigned(m.lifeline) && Assigned(dest.lifeline)
             && Relates(m.lifeline, m.slot.statements[c.i].emitted, dest.lifeline, dest.slot, p)
    ensures Acyclic(w, n) && p in Walk(w, n)
  {
    AcyclicIff(u, w, objs, n);
    PathIsInPlan(u, w, objs, n, path);
    var m := End(u, n, path);
    var dest := Dest(u, m, c);
    PlacementsAreExactly(m.lifeline, m.slot.statements[c.i].emitted, dest.lifeline, dest.slot);
    hide Placements; hide Relates; hide Acyclic; hide GoesRound; hide IsPath; hide End; hide Describes;
    var k := CallInPlan(u, w, objs, m, c);
    assert w[m][k] in w[m] && p in w[m][k].placed;
    ReachedStepIsWalked(w, n, m, |path|, w[m][k], p);
  }
}
