// Saving a project and opening the file again: exactly which projects come back the same,
// and what "the same" means for two graphs of distinct objects.
module ProjectRoundTrip {
  import opened Wrappers
  import opened Lists
  import opened ProjectObjects
  import opened ProjectStream
  import Saver = ProjectSaver
  import Opener = ProjectOpener

  // ---------- what survives ----------

  // No Q_PROPERTY, no private method, no exit signal, and every entry lifeline is a root.
  predicate Lossless(d: ProjectD)
  {
    && (forall t | t in d.types :: t.privateMethods == [] && (forall m | m in t.members :: m.property == None)
                                   && forall m | m in t.mySlots :: m.exitSignal == None)
    && forall u | u in d.useCases && u.entry.Some? && u.entry.value.lifeline < |u.lifelines| ::
         u.lifelines[u.entry.value.lifeline].instanceType == USE_CASES_ROOT_CLASS_LIFELINE
  }

  lemma TypeSurvives(t: TypeD)
    ensures Opener.ReopenedType(t) == t
            <==> t.privateMethods == [] && (forall m | m in t.members :: m.property == None)
                 && forall m | m in t.mySlots :: m.exitSignal == None
  {
    var r := Opener.ReopenedType(t);
    if r == t {
      forall m | m in t.members ensures m.property == None {
        var j :| 0 <= j < |t.members| && t.members[j] == m;
        assert r.members[j] == Opener.ReopenedMember(m);
        // the prefix makes the name longer, so it cannot be the saved one
        assert |MemberNameForProperty(m.name)| == |m.name| + 2;
      }
      forall m | m in t.mySlots ensures m.exitSignal == None {
        var j :| 0 <= j < |t.mySlots| && t.mySlots[j] == m;
        assert r.mySlots[j] == m.(exitSignal := None);
      }
    }
    if t.privateMethods == [] && (forall m | m in t.members :: m.property == None)
       && forall m | m in t.mySlots :: m.exitSignal == None {
      assert r.members == t.members;
      assert r.mySlots == t.mySlots;
    }
  }

  lemma UseCaseSurvives(u: UseCaseD)
    ensures Opener.ReopenedUseCase(u) == u
            <==> (u.entry.Some? && u.entry.value.lifeline < |u.lifelines| ==>
                    u.lifelines[u.entry.value.lifeline].instanceType == USE_CASES_ROOT_CLASS_LIFELINE)
  {
    if u.entry.Some? && u.entry.value.lifeline < |u.lifelines| {
      var k := u.entry.value.lifeline;
      var r := Opener.ReopenedUseCase(u);
      assert r.lifelines[k].instanceType == USE_CASES_ROOT_CLASS_LIFELINE;
      if u.lifelines[k].instanceType == USE_CASES_ROOT_CLASS_LIFELINE {
        assert r.lifelines == u.lifelines;
      }
    }
  }

  // An open rebuilds the description it was saved from if and only if nothing in it is lost.
  lemma ReopenedIsSame(d: ProjectD)
    ensures Opener.Reopened(d) == d <==> Lossless(d)
  {
    var r := Opener.Reopened(d);
    if r == d {
      forall t | t in d.types ensures Opener.ReopenedType(t) == t {
        var i :| 0 <= i < |d.types| && d.types[i] == t;
        assert r.types[i] == Opener.ReopenedType(t);
      }
      forall u | u in d.useCases ensures Opener.ReopenedUseCase(u) == u {
        var i :| 0 <= i < |d.useCases| && d.useCases[i] == u;
        assert r.useCases[i] == Opener.ReopenedUseCase(u);
      }
      forall t | t in d.types { TypeSurvives(t); }
      forall u | u in d.useCases { UseCaseSurvives(u); }
    }
    if Lossless(d) {
      forall i | 0 <= i < |d.types| ensures r.types[i] == d.types[i] {
        assert d.types[i] in d.types;
        TypeSurvives(d.types[i]);
      }
      forall i | 0 <= i < |d.useCases| ensures r.useCases[i] == d.useCases[i] {
        assert d.useCases[i] in d.useCases;
        UseCaseSurvives(d.useCases[i]);
      }
      assert r.types == d.types && r.useCases == d.useCases;
    }
  }

  // ---------- two projects with one description are isomorphic ----------

  // The objects at one place of both projects.
  ghost predicate TypeTwins(a: Type, b: Type, lp: Layout, lq: Layout)
  {
    exists i | 0 <= i < |lp.types| && i < |lq.types| :: a == lp.types[i] && b == lq.types[i]
  }

  ghost predicate SlotTwins(a: Method, b: Method, lp: Layout, lq: Layout)
  {
    exists r: Ref :: SlotAt(lp, r, a) && SlotAt(lq, r, b)
  }

  ghost predicate SignalTwins(a: Method, b: Method, lp: Layout, lq: Layout)
  {
    exists r: Ref :: SignalAt(lp, r, a) && SignalAt(lq, r, b)
  }

  ghost predicate LifelineTwins(a: Lifeline, b: Lifeline, lp: Layout, lq: Layout)
  {
    exists r: Ref :: LifelineAt(lp, r, a) && LifelineAt(lq, r, b)
  }

  ghost predicate ContextTwins(a: ContextVariable, b: ContextVariable, lp: Layout, lq: Layout)
  {
    exists c: ContextD :: ContextRep(a, c, lp) && ContextRep(b, c, lq)
  }

  ghost predicate ContextsTwins(as_: seq<ContextVariable>, bs: seq<ContextVariable>, lp: Layout, lq: Layout)
  {
    |as_| == |bs| && forall k | 0 <= k < |as_| :: ContextTwins(as_[k], bs[k], lp, lq)
  }

  // Statements of the same kind whose every pointer leads to twins.
  ghost predicate StatementTwins(a: Statement, b: Statement, lp: Layout, lq: Layout)
  {
    match (a, b)
    case (SignalEmission(x, c), SignalEmission(y, e)) => SignalTwins(x, y, lp, lq) && ContextsTwins(c, e, lp, lq)
    case (SlotInvocation(v, x, c), SlotInvocation(w, y, e)) =>
      LifelineTwins(v, w, lp, lq) && SlotTwins(x, y, lp, lq) && ContextsTwins(c, e, lp, lq)
    case (RawCppChunk(c), RawCppChunk(e)) => c == e
    case _ => false
  }

  ghost predicate ArgumentTwins(a: Argument, b: Argument, lp: Layout, lq: Layout)
  {
    a.lhs == b.lhs && a.rhs == b.rhs && a.name == b.name && TypeTwins(a.type_, b.type_, lp, lq)
  }

  ghost predicate MethodTwins(a: Method, b: Method, lp: Layout, lq: Layout)
    reads a`arguments, b`arguments
  {
    && a.name == b.name && TypeTwins(a.parentClass, b.parentClass, lp, lq) && |a.arguments| == |b.arguments|
    && forall k | 0 <= k < |a.arguments| :: ArgumentTwins(a.arguments[k], b.arguments[k], lp, lq)
  }

  ghost predicate BodyTwins(a: Method, b: Method, lp: Layout, lq: Layout)
    reads a`statements, b`statements, a`exitSignal, b`exitSignal
  {
    && |a.statements| == |b.statements|
    && ((a.exitSignal == null) == (b.exitSignal == null))
    && (a.exitSignal != null ==> b.exitSignal != null && SignalTwins(a.exitSignal, b.exitSignal, lp, lq))
    && forall k | 0 <= k < |a.statements| :: StatementTwins(a.statements[k], b.statements[k], lp, lq)
  }

  ghost predicate LifelineFieldsTwins(a: Lifeline, b: Lifeline, lp: Layout, lq: Layout)
    reads a, b
  {
    && TypeTwins(a.class_, b.class_, lp, lq) && a.position == b.position && a.instanceType == b.instanceType
    && (a.instanceType == CHILD_MEMBER_OF_OTHER_CLASS_LIFELINE ==>
          a.instance != null && b.instance != null
          && ContextTwins(MemberVariable(a.instance), MemberVariable(b.instance), lp, lq))
    && |a.mySlots| == |b.mySlots| && forall k | 0 <= k < |a.mySlots| :: SlotTwins(a.mySlots[k], b.mySlots[k], lp, lq)
  }

  // A pointer and its twin sit at the same place, so for every type, slot and lifeline there is
  // exactly one twin on the other side.
  lemma TypeTwinsAreUnique(p: Project, q: Project, d: ProjectD, lp: Layout, lq: Layout, a: Type, b: Type, c: Type)
    requires Represents(p, d, lp) && Represents(q, d, lq)
    ensures TypeTwins(a, b, lp, lq) && TypeTwins(a, c, lp, lq) ==> b == c
    ensures TypeTwins(a, c, lp, lq) && TypeTwins(b, c, lp, lq) ==> a == b
  {
  }

  lemma SlotPlaceIsUnique(p: Project, d: ProjectD, l: Layout, m: Method, r: Ref, r': Ref)
    requires Represents(p, d, l) && SlotAt(l, r, m) && SlotAt(l, r', m)
    ensures r == r'
  {
    Saver.SlotIdsAt(p, d, l, r, m);
    Saver.SlotIdsAt(p, d, l, r', m);
  }

  lemma SlotTwinsAreUnique(p: Project, q: Project, d: ProjectD, lp: Layout, lq: Layout, a: Method, b: Method, c: Method)
    requires Represents(p, d, lp) && Represents(q, d, lq)
    ensures SlotTwins(a, b, lp, lq) && SlotTwins(a, c, lp, lq) ==> b == c
    ensures SlotTwins(a, c, lp, lq) && SlotTwins(b, c, lp, lq) ==> a == b
  {
    hide Represents;
    if SlotTwins(a, b, lp, lq) && SlotTwins(a, c, lp, lq) {
      var r: Ref :| SlotAt(lp, r, a) && SlotAt(lq, r, b);
      var r': Ref :| SlotAt(lp, r', a) && SlotAt(lq, r', c);
      SlotPlaceIsUnique(p, d, lp, a, r, r');
    }
    if SlotTwins(a, c, lp, lq) && SlotTwins(b, c, lp, lq) {
      var r: Ref :| SlotAt(lp, r, a) && SlotAt(lq, r, c);
      var r': Ref :| SlotAt(lp, r', b) && SlotAt(lq, r', c);
      SlotPlaceIsUnique(q, d, lq, c, r, r');
    }
  }

  lemma StatementsAreTwins(a: Statement, b: Statement, sd: StatementD, lp: Layout, lq: Layout)
    requires StatementRep(a, sd, lp) && StatementRep(b, sd, lq)
    ensures StatementTwins(a, b, lp, lq)
  {
    hide ContextRep;
    match sd {
      case SignalEmissionD(r, ctx) =>
        assert SignalAt(lp, r, a.emitted) && SignalAt(lq, r, b.emitted);
        ContextsAreTwins(a.context, b.context, ctx, lp, lq);
      case SlotInvocationD(x, r, ctx) =>
        assert LifelineAt(lp, x, a.lifeline) && LifelineAt(lq, x, b.lifeline);
        assert SlotAt(lp, r, a.invoked) && SlotAt(lq, r, b.invoked);
        ContextsAreTwins(a.context, b.context, ctx, lp, lq);
      case RawCppChunkD(_) =>
    }
  }

  lemma ContextsAreTwins(as_: seq<ContextVariable>, bs: seq<ContextVariable>, cds: seq<ContextD>, lp: Layout, lq: Layout)
    requires ContextsRep(as_, cds, lp) && ContextsRep(bs, cds, lq)
    ensures ContextsTwins(as_, bs, lp, lq)
  {
    forall k | 0 <= k < |as_| ensures ContextTwins(as_[k], bs[k], lp, lq) {
      assert ContextRep(as_[k], cds[k], lp) && ContextRep(bs[k], cds[k], lq);
    }
  }

  lemma MethodsAreTwins(a: Method, b: Method, md: MethodD, i: nat, as_: seq<Argument>, bs: seq<Argument>, lp: Layout, lq: Layout)
    requires i < |lp.types| && i < |lq.types|
    requires MethodRep(a, md, lp.types[i], as_, lp.types) && MethodRep(b, md, lq.types[i], bs, lq.types)
    ensures MethodTwins(a, b, lp, lq)
  {
    forall k | 0 <= k < |as_| ensures ArgumentTwins(as_[k], bs[k], lp, lq) {
      assert ArgRep(as_[k], md.arguments[k], a, lp.types) && ArgRep(bs[k], md.arguments[k], b, lq.types);
    }
  }

  lemma LifelinesAreTwins(a: Lifeline, b: Lifeline, ld: LifelineD, u: UseCase, v: UseCase, lp: Layout, lq: Layout)
    requires LifelineRep(a, ld, u, lp) && LifelineRep(b, ld, v, lq)
    ensures LifelineFieldsTwins(a, b, lp, lq)
  {
    if a.instanceType == CHILD_MEMBER_OF_OTHER_CLASS_LIFELINE {
      var c := MemberVariableD(ld.instance);
      assert ContextRep(MemberVariable(a.instance), c, lp) && ContextRep(MemberVariable(b.instance), c, lq);
    }
    forall k | 0 <= k < |a.mySlots| ensures SlotTwins(a.mySlots[k], b.mySlots[k], lp, lq) {
      assert SlotAt(lp, ld.mySlots[k], a.mySlots[k]) && SlotAt(lq, ld.mySlots[k], b.mySlots[k]);
    }
  }

  // What it means for q to be p again, object for object.
  ghost predicate Isomorphic(p: Project, q: Project, lp: Layout, lq: Layout)
    reads *
  {
    && p.name == q.name && p.types == lp.types && q.types == lq.types && |p.types| == |q.types|
    && p.useCases == lp.useCases && q.useCases == lq.useCases && |p.useCases| == |q.useCases|
    && (forall i | 0 <= i < |p.types| :: TypeFieldsTwins(p.types[i], q.types[i], lp, lq))
    && (forall i | 0 <= i < |p.useCases| :: UseCaseFieldsTwins(p.useCases[i], q.useCases[i], lp, lq))
  }

  ghost predicate TypeFieldsTwins(a: Type, b: Type, lp: Layout, lq: Layout)
    reads *
  {
    && a.category == b.category && a.name == b.name && (a.category < DEFINED_ELSEWHERE ==> a.position == b.position)
    && |a.ancestors| == |b.ancestors|
    && (forall k | 0 <= k < |a.ancestors| ::
          a.ancestors[k].visibility == b.ancestors[k].visibility
          && TypeTwins(a.ancestors[k].type_, b.ancestors[k].type_, lp, lq))
    && |a.mySignals| == |b.mySignals|
    && (forall j | 0 <= j < |a.mySignals| :: MethodTwins(a.mySignals[j], b.mySignals[j], lp, lq))
    && |a.mySlots| == |b.mySlots|
    && (forall j | 0 <= j < |a.mySlots| ::
          MethodTwins(a.mySlots[j], b.mySlots[j], lp, lq) && BodyTwins(a.mySlots[j], b.mySlots[j], lp, lq))
    && |a.members| == |b.members|
    && (forall j | 0 <= j < |a.members| :: MemberFieldsTwins(a.members[j], b.members[j], lp, lq))
    && a.privateMethods == b.privateMethods
  }

  ghost predicate MemberFieldsTwins(a: Member, b: Member, lp: Layout, lq: Layout)
  {
    && a.name == b.name && a.lhs == b.lhs && a.rhs == b.rhs && TypeTwins(a.type_, b.type_, lp, lq)
    && TypeTwins(a.parentType, b.parentType, lp, lq)
    && a.hasInit == b.hasInit && a.optionalInit == b.optionalInit
    && a.visibility == b.visibility && a.ownership == b.ownership && a.property == b.property
  }

  ghost predicate UseCaseFieldsTwins(a: UseCase, b: UseCase, lp: Layout, lq: Layout)
    reads *
  {
    && a.name == b.name && a.actor == b.actor && |a.lifelines| == |b.lifelines|
    && (forall k | 0 <= k < |a.lifelines| :: LifelineFieldsTwins(a.lifelines[k], b.lifelines[k], lp, lq))
    && ((a.entryLifeline == null) == (b.entryLifeline == null))
    && (a.entryLifeline != null ==>
          && a.entrySlot != null && b.entrySlot != null && SlotTwins(a.entrySlot, b.entrySlot, lp, lq)
          && LifelineTwins(a.entryLifeline, b.entryLifeline, lp, lq))
    && |a.activations| == |b.activations|
    && forall k | 0 <= k < |a.activations| :: ActivationTwins(a.activations[k], b.activations[k], lp, lq)
  }

  ghost predicate ActivationTwins(a: Activation, b: Activation, lp: Layout, lq: Layout)
  {
    && LifelineTwins(a.sourceLifeline, b.sourceLifeline, lp, lq) && SlotTwins(a.sourceSlot, b.sourceSlot, lp, lq)
    && a.statementIndex == b.statementIndex && |a.attached| == |b.attached|
    && forall k | 0 <= k < |a.attached| ::
         a.attached[k].lifelineIndex == b.attached[k].lifelineIndex && SlotTwins(a.attached[k].slot, b.attached[k].slot, lp, lq)
  }

  lemma TypesAreTwins(p: Project, q: Project, d: ProjectD, lp: Layout, lq: Layout, i: nat)
    requires Represents(p, d, lp) && Represents(q, d, lq) && i < |d.types|
    ensures i < |p.types| == |q.types| && TypeFieldsTwins(p.types[i], q.types[i], lp, lq)
  {
    hide Represents; hide MethodRep; hide MethodTwins; hide StatementTwins; hide StatementRep;
    Saver.ListsOf(p, d, lp);
    Saver.ListsOf(q, d, lq);
    Saver.TypeAt(p, d, lp, i);
    Saver.TypeAt(q, d, lq, i);
    var a, b, td := p.types[i], q.types[i], d.types[i];
    forall k | 0 <= k < |a.ancestors| ensures TypeTwins(a.ancestors[k].type_, b.ancestors[k].type_, lp, lq) {
      assert a.ancestors[k].type_ == lp.types[td.ancestors[k].type_];
    }
    forall j | 0 <= j < |a.mySignals| ensures MethodTwins(a.mySignals[j], b.mySignals[j], lp, lq) {
      MethodsAreTwins(a.mySignals[j], b.mySignals[j], td.mySignals[j], i, lp.parts[i].signalArgs[j], lq.parts[i].signalArgs[j],
                      lp, lq);
    }
    forall j | 0 <= j < |a.mySlots|
      ensures MethodTwins(a.mySlots[j], b.mySlots[j], lp, lq) && BodyTwins(a.mySlots[j], b.mySlots[j], lp, lq)
    {
      MethodsAreTwins(a.mySlots[j], b.mySlots[j], td.mySlots[j], i, lp.parts[i].slotArgs[j], lq.parts[i].slotArgs[j], lp, lq);
      assert BodyRep(a.mySlots[j], td.mySlots[j], lp) && BodyRep(b.mySlots[j], td.mySlots[j], lq);
      if td.mySlots[j].exitSignal.Some? {
        var r := td.mySlots[j].exitSignal.value;
        assert SignalAt(lp, r, a.mySlots[j].exitSignal) && SignalAt(lq, r, b.mySlots[j].exitSignal);
      }
      forall k | 0 <= k < |td.mySlots[j].statements|
        ensures StatementTwins(a.mySlots[j].statements[k], b.mySlots[j].statements[k], lp, lq)
      {
        StatementsAreTwins(a.mySlots[j].statements[k], b.mySlots[j].statements[k], td.mySlots[j].statements[k], lp, lq);
      }
    }
    forall j | 0 <= j < |a.members| ensures MemberFieldsTwins(a.members[j], b.members[j], lp, lq) {
      assert MemberRep(a.members[j], td.members[j], a, lp.types) && MemberRep(b.members[j], td.members[j], b, lq.types);
    }
  }

  lemma UseCasesAreTwins(p: Project, q: Project, d: ProjectD, lp: Layout, lq: Layout, i: nat)
    requires Represents(p, d, lp) && Represents(q, d, lq) && i < |d.useCases|
    ensures i < |p.useCases| == |q.useCases| && UseCaseFieldsTwins(p.useCases[i], q.useCases[i], lp, lq)
  {
    hide Represents; hide LifelineRep; hide LifelineFieldsTwins;
    Saver.ListsOf(p, d, lp);
    Saver.ListsOf(q, d, lq);
    Saver.UseCaseAt(p, d, lp, i);
    Saver.UseCaseAt(q, d, lq, i);
    var a, b, ud := p.useCases[i], q.useCases[i], d.useCases[i];
    forall k | 0 <= k < |a.lifelines| ensures LifelineFieldsTwins(a.lifelines[k], b.lifelines[k], lp, lq) {
      LifelinesAreTwins(a.lifelines[k], b.lifelines[k], ud.lifelines[k], a, b, lp, lq);
    }
    if ud.entry.Some? {
      var e := ud.entry.value;
      assert LifelineAt(lp, Ref(i, e.lifeline), a.entryLifeline) && LifelineAt(lq, Ref(i, e.lifeline), b.entryLifeline);
      var r := Ref(ud.lifelines[e.lifeline].class_, e.slot);
      assert SlotAt(lp, r, a.entrySlot) && SlotAt(lq, r, b.entrySlot);
    }
    forall k | 0 <= k < |a.activations| ensures ActivationTwins(a.activations[k], b.activations[k], lp, lq) {
      ActivationsAreTwins(a.activations[k], b.activations[k], ud.activations[k], i, lp, lq);
    }
  }

  lemma ActivationsAreTwins(a: Activation, b: Activation, ad: ActivationD, i: nat, lp: Layout, lq: Layout)
    requires i < |lp.lifelines| && i < |lq.lifelines|
    requires ActivationRep(a, ad, lp.lifelines[i], lp) && ActivationRep(b, ad, lq.lifelines[i], lq)
    ensures ActivationTwins(a, b, lp, lq)
  {
    assert LifelineAt(lp, Ref(i, ad.sourceLifeline), a.sourceLifeline)
           && LifelineAt(lq, Ref(i, ad.sourceLifeline), b.sourceLifeline);
    assert SlotAt(lp, ad.sourceSlot, a.sourceSlot) && SlotAt(lq, ad.sourceSlot, b.sourceSlot);
    forall k | 0 <= k < |a.attached| ensures SlotTwins(a.attached[k].slot, b.attached[k].slot, lp, lq) {
      assert SlotAt(lp, ad.attached[k].slot, a.attached[k].slot) && SlotAt(lq, ad.attached[k].slot, b.attached[k].slot);
    }
  }

  lemma SameDescriptionIsIsomorphic(p: Project, q: Project, d: ProjectD, lp: Layout, lq: Layout)
    requires Represents(p, d, lp) && Represents(q, d, lq)
    ensures Isomorphic(p, q, lp, lq)
  {
    hide Represents; hide TypeFieldsTwins; hide UseCaseFieldsTwins;
    Saver.ListsOf(p, d, lp);
    Saver.ListsOf(q, d, lq);
    forall i | 0 <= i < |p.types| ensures TypeFieldsTwins(p.types[i], q.types[i], lp, lq) {
      TypesAreTwins(p, q, d, lp, lq, i);
    }
    forall i | 0 <= i < |p.useCases| ensures UseCaseFieldsTwins(p.useCases[i], q.useCases[i], lp, lq) {
      UseCasesAreTwins(p, q, d, lp, lq, i);
    }
  }

  // ---------- a graph that comes back isomorphic has lost nothing ----------

  lemma KeptMember(m: MemberD, a: Member, b: Member, t: Type, t': Type, lp: Layout, lq: Layout)
    requires MemberRep(a, m, t, lp.types) && MemberRep(b, Opener.ReopenedMember(m), t', lq.types)
    requires a.name == b.name
    ensures m.property == None
  {
    // the prefix makes the name longer, so it cannot be the saved one
    assert |MemberNameForProperty(m.name)| == |m.name| + 2;
  }

  lemma KeptType(p: Project, q: Project, d: ProjectD, lp: Layout, lq: Layout, i: nat)
    requires Represents(p, d, lp) && Represents(q, Opener.Reopened(d), lq) && i < |d.types|
    requires Isomorphic(p, q, lp, lq)
    ensures d.types[i].privateMethods == [] && forall m | m in d.types[i].members :: m.property == None
    ensures forall m | m in d.types[i].mySlots :: m.exitSignal == None
  {
    hide Represents; hide MethodRep; hide MethodTwins; hide StatementsRep; hide StatementTwins; hide AncestorsRep;
    hide MemberRep; hide TypeTwins; hide UseCaseFieldsTwins; hide ShapeOf; hide SignalTwins; hide SignalAt;
    Saver.TypeAt(p, d, lp, i);
    Saver.TypeAt(q, Opener.Reopened(d), lq, i);
    var a, b, td := p.types[i], q.types[i], d.types[i];
    assert TypeFieldsTwins(a, b, lp, lq);
    forall m | m in td.members ensures m.property == None {
      var j :| 0 <= j < |td.members| && td.members[j] == m;
      assert MemberFieldsTwins(a.members[j], b.members[j], lp, lq);
      KeptMember(m, a.members[j], b.members[j], a, b, lp, lq);
    }
    forall m | m in td.mySlots ensures m.exitSignal == None {
      var j :| 0 <= j < |td.mySlots| && td.mySlots[j] == m;
      assert BodyTwins(a.mySlots[j], b.mySlots[j], lp, lq);
      assert BodyRep(a.mySlots[j], m, lp) && BodyRep(b.mySlots[j], m.(exitSignal := None), lq);
    }
  }

  lemma KeptUseCase(p: Project, q: Project, d: ProjectD, lp: Layout, lq: Layout, i: nat)
    requires Represents(p, d, lp) && Represents(q, Opener.Reopened(d), lq) && i < |d.useCases|
    requires Isomorphic(p, q, lp, lq)
    ensures var u := d.useCases[i];
            u.entry.Some? && u.entry.value.lifeline < |u.lifelines| ==>
              u.lifelines[u.entry.value.lifeline].instanceType == USE_CASES_ROOT_CLASS_LIFELINE
  {
    hide Represents; hide ActivationsRep; hide ActivationTwins;
    Saver.UseCaseAt(p, d, lp, i);
    Saver.UseCaseAt(q, Opener.Reopened(d), lq, i);
    var a, b, u := p.useCases[i], q.useCases[i], d.useCases[i];
    assert UseCaseFieldsTwins(a, b, lp, lq);
    if u.entry.Some? && u.entry.value.lifeline < |u.lifelines| {
      var k := u.entry.value.lifeline;
      assert LifelineFieldsTwins(a.lifelines[k], b.lifelines[k], lp, lq);
      assert LifelineRep(a.lifelines[k], u.lifelines[k], a, lp);
      assert LifelineRep(b.lifelines[k], Opener.ReopenedUseCase(u).lifelines[k], b, lq);
    }
  }

  lemma IsomorphicIffLossless(p: Project, q: Project, d: ProjectD, lp: Layout, lq: Layout)
    requires Represents(p, d, lp) && Represents(q, Opener.Reopened(d), lq)
    ensures Isomorphic(p, q, lp, lq) <==> Lossless(d)
  {
    hide Represents; hide Isomorphic;
    if Lossless(d) {
      ReopenedIsSame(d);
      SameDescriptionIsIsomorphic(p, q, d, lp, lq);
    }
    if Isomorphic(p, q, lp, lq) {
      forall t | t in d.types
        ensures t.privateMethods == [] && (forall m | m in t.members :: m.property == None)
        ensures forall m | m in t.mySlots :: m.exitSignal == None
      {
        var i :| 0 <= i < |d.types| && d.types[i] == t;
        KeptType(p, q, d, lp, lq, i);
      }
      forall u | u in d.useCases && u.entry.Some? && u.entry.value.lifeline < |u.lifelines|
        ensures u.lifelines[u.entry.value.lifeline].instanceType == USE_CASES_ROOT_CLASS_LIFELINE
      {
        var i :| 0 <= i < |d.useCases| && d.useCases[i] == u;
        KeptUseCase(p, q, d, lp, lq, i);
      }
    }
  }

  // ---------- what an opened project looks like where something is lost ----------

  // A member that is no property is as it was saved. A property member has the prefix in front of
  // the saved name, whose first letter is now upper case, is private whatever it was, and does not
  // own what it points to; it counts as a pointer exactly if its right qualifier has an asterisk.
  lemma OpenedMember(q: Project, d: ProjectD, lq: Layout, i: nat, j: nat)
    requires Represents(q, Opener.Reopened(d), lq) && i < |d.types| && j < |d.types[i].members|
    ensures i < |q.types| && j < |q.types[i].members|
    ensures var m, md := q.types[i].members[j], d.types[i].members[j];
            && m.lhs == md.lhs && m.rhs == md.rhs && m.hasInit == md.hasInit && m.optionalInit == md.optionalInit
            && match md.property
               case None =>
                 m.name == md.name && m.visibility == md.visibility && m.ownership == md.ownership && m.property == None
               case Some(p) =>
                 && |m.name| == |md.name| + 2 && m.name[..2] == "m_"
                 && (md.name != "" ==> m.name[2] == (if 'a' <= md.name[0] <= 'z' then md.name[0] - 'a' + 'A' else md.name[0])
                                       && m.name[3..] == md.name[1..])
                 && m.visibility == VISIBILITY_PRIVATE
                 && (m.ownership == NOT_POINTER <==> '*' !in m.rhs)
                 && (m.ownership == DOES_NOT_OWN_POINTED_TO_DATA <==> '*' in m.rhs)
                 && m.property == Some(PropertyInfo(md.name, p.readOnly, p.notifiesOnChange))
  {
    hide Represents; hide MethodRep; hide AncestorsRep;
    Saver.TypeAt(q, Opener.Reopened(d), lq, i);
    var t, td := q.types[i], d.types[i];
    assert MembersRep(t.members, Opener.ReopenedMembers(td.members), t, lq.types);
    assert MemberRep(t.members[j], Opener.ReopenedMember(td.members[j]), t, lq.types);
  }

  // There are no private methods and no exit signals, and the lifeline of an entry is the root.
  lemma OpenedTypeAndUseCase(q: Project, d: ProjectD, lq: Layout, i: nat, k: nat)
    requires Represents(q, Opener.Reopened(d), lq)
    ensures i < |q.types| == |d.types| ==>
              q.types[i].privateMethods == [] && forall m | m in q.types[i].mySlots :: m.exitSignal == null
    ensures |q.useCases| == |d.useCases|
    ensures k < |q.useCases| && q.useCases[k].entryLifeline != null ==>
              q.useCases[k].entryLifeline.instanceType == USE_CASES_ROOT_CLASS_LIFELINE
  {
    var r := Opener.Reopened(d);
    Saver.ListsOf(q, r, lq);
    hide MethodRep; hide AncestorsRep; hide MembersRep; hide StatementsRep;
    if i < |q.types| == |d.types| {
      Saver.TypeAt(q, r, lq, i);
      hide Represents;
      forall m | m in q.types[i].mySlots ensures m.exitSignal == null {
        var j :| 0 <= j < |q.types[i].mySlots| && q.types[i].mySlots[j] == m;
        assert BodyRep(m, r.types[i].mySlots[j], lq);
      }
    }
    if k < |q.useCases| {
      Saver.UseCaseAt(q, r, lq, k);
      EntryIsRoot(q, r, d, lq, k);
    }
  }

  lemma EntryIsRoot(q: Project, r: ProjectD, d: ProjectD, lq: Layout, k: nat)
    requires Represents(q, r, lq) && r == Opener.Reopened(d) && k < |q.useCases|
    ensures q.useCases[k].entryLifeline != null ==>
              q.useCases[k].entryLifeline.instanceType == USE_CASES_ROOT_CLASS_LIFELINE
  {
    Saver.UseCaseAt(q, r, lq, k);
    hide Represents; hide TypeRep;
    var u, ud := q.useCases[k], r.useCases[k];
    if u.entryLifeline != null {
      var e := ud.entry.value;
      assert LifelineRep(lq.lifelines[k][e.lifeline], ud.lifelines[e.lifeline], u, lq);
    }
  }

  // ---------- save, then open ----------

  // For every project in memory that the constructors of an open accept: the file holds exactly
  // the project, opening consumes exactly the file, and the opened project is the saved one
  // with precisely the losses of Reopened; it is isomorphic to the saved one if and only if
  // there was nothing to lose.
  method SaveThenOpen(p: Project, ghost d: ProjectD, ghost lp: Layout) returns (q: Project, ghost lq: Layout)
    requires Represents(p, d, lp) && Opener.Openable(d)
    ensures fresh(q) && Represents(p, d, lp) && Represents(q, Opener.Reopened(d), lq)
    ensures Isomorphic(p, q, lp, lq) <==> Lossless(d)
  {
    hide Represents; hide Opener.Openable; hide Isomorphic; hide Lossless; hide EncProject;
    var stream := new DataStream();
    Saver.Save(p, stream, d, lp);
    q := new Project();
    ghost var tokens := EncProject(d);
    VersionFirst(d);
    assert tokens + [] == tokens;
    lq := Opener.Open(stream, q, d, []);
    IsomorphicIffLossless(p, q, d, lp, lq);
  }

  // The other way round: opening a file and saving the project again writes the very same
  // file when the description loses nothing, and such a description is that of a project in memory.
  method OpenThenSave(file: DataStream, ghost d: ProjectD, ghost tail: seq<Token>)
    returns (q: Project, copy: DataStream, ghost lq: Layout)
    requires file.Holds(EncProject(d) + tail) && Opener.Openable(d)
    modifies file`next
    ensures file.Holds(tail) && fresh(q) && Represents(q, Opener.Reopened(d), lq)
    ensures copy.tokens == EncProject(Opener.Reopened(d))
    ensures Lossless(d) ==> Represents(q, d, lq) && copy.tokens == EncProject(d)
  {
    hide Represents; hide Opener.Openable; hide Lossless; hide EncProject;
    q := new Project();
    VersionFirst(d);
    assert file.tokens[file.next] == file.Rest()[0];
    lq := Opener.Open(file, q, d, tail);
    ghost var repr := lq.repr;
    assert forall o | o in repr :: allocated(o);
    copy := new DataStream();
    Saver.Save(q, copy, Opener.Reopened(d), lq);
    ReopenedIsSame(d);
  }

  lemma VersionFirst(d: ProjectD)
    ensures EncProject(d) != [] && EncProject(d)[0] == U8(1)
  {
  }
}
