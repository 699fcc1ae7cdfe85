// serializeProjectToIoDevice: every loop of the save, each proved to write exactly what the
// positional description of the project in memory stands for.
module ProjectSaver {
  import opened Wrappers
  import opened Lists
  import opened ProjectObjects
  import opened ProjectStream

  // ---------- the id lookups give back the place ----------

  lemma SlotIdsAt(p: Project, d: ProjectD, l: Layout, r: Ref, m: Method)
    requires Represents(p, d, l) && SlotAt(l, r, m)
    ensures m.parentClass == l.types[r.owner] && IndexOf(p.types, m.parentClass) == r.owner
    ensures m.parentClass.mySlots == l.parts[r.owner].mySlots && IndexOf(m.parentClass.mySlots, m) == r.index
    ensures m.arguments == l.parts[r.owner].slotArgs[r.index] && Distinct(m.arguments)
    ensures forall a | a in m.arguments :: a.parentMethod == m
  {
    assert TypeRep(l.types[r.owner], d.types[r.owner], l.parts[r.owner], l.types);
    assert MethodRep(m, d.types[r.owner].mySlots[r.index], l.types[r.owner], l.parts[r.owner].slotArgs[r.index], l.types);
    IndexOfAt(l.types, r.owner);
    IndexOfAt(l.parts[r.owner].mySlots, r.index);
  }

  lemma SignalIdsAt(p: Project, d: ProjectD, l: Layout, r: Ref, m: Method)
    requires Represents(p, d, l) && SignalAt(l, r, m)
    ensures m.parentClass == l.types[r.owner] && IndexOf(p.types, m.parentClass) == r.owner
    ensures m.parentClass.mySignals == l.parts[r.owner].mySignals && IndexOf(m.parentClass.mySignals, m) == r.index
  {
    assert TypeRep(l.types[r.owner], d.types[r.owner], l.parts[r.owner], l.types);
    assert MethodRep(m, d.types[r.owner].mySignals[r.index], l.types[r.owner], l.parts[r.owner].signalArgs[r.index], l.types);
    IndexOfAt(l.types, r.owner);
    IndexOfAt(l.parts[r.owner].mySignals, r.index);
  }

  lemma MemberIdsAt(p: Project, d: ProjectD, l: Layout, r: Ref, m: Member)
    requires Represents(p, d, l)
    requires r.owner < |l.parts| && r.index < |l.parts[r.owner].members| && m == l.parts[r.owner].members[r.index]
    ensures m.parentType == l.types[r.owner] && IndexOf(p.types, m.parentType) == r.owner
    ensures m.parentType.members == l.parts[r.owner].members && IndexOf(m.parentType.members, m) == r.index
  {
    assert TypeRep(l.types[r.owner], d.types[r.owner], l.parts[r.owner], l.types);
    assert MemberRep(m, d.types[r.owner].members[r.index], l.types[r.owner], l.types);
    IndexOfAt(l.types, r.owner);
    IndexOfAt(l.parts[r.owner].members, r.index);
  }

  lemma LifelineIdsAt(p: Project, d: ProjectD, l: Layout, r: Ref, x: Lifeline)
    requires Represents(p, d, l) && LifelineAt(l, r, x)
    ensures x.parentUseCase == l.useCases[r.owner] && IndexOf(p.useCases, x.parentUseCase) == r.owner
    ensures x.parentUseCase.lifelines == l.lifelines[r.owner] && IndexOf(x.parentUseCase.lifelines, x) == r.index
  {
    assert UseCaseRep(l.useCases[r.owner], d.useCases[r.owner], l.lifelines[r.owner], l);
    assert LifelinesRep(l.lifelines[r.owner], d.useCases[r.owner].lifelines, l.useCases[r.owner], l);
    assert LifelineRep(x, d.useCases[r.owner].lifelines[r.index], l.useCases[r.owner], l);
    IndexOfAt(l.useCases, r.owner);
    IndexOfAt(l.lifelines[r.owner], r.index);
  }

  lemma TypeAt(p: Project, d: ProjectD, l: Layout, i: nat)
    requires Represents(p, d, l) && i < |d.types|
    ensures ShapeOf(d, l) && p.types == l.types && Distinct(l.types)
    ensures var t, td := p.types[i], d.types[i];
            && t.category == td.category && t.name == td.name
            && (t.category < DEFINED_ELSEWHERE ==> t.position == td.position)
            && AncestorsRep(t.ancestors, td.ancestors, l.types)
            && MethodsRep(t.mySignals, td.mySignals, t, l.parts[i].signalArgs, l.types)
            && MethodsRep(t.mySlots, td.mySlots, t, l.parts[i].slotArgs, l.types)
            && MembersRep(t.members, td.members, t, l.types)
            && t.mySlots == l.parts[i].mySlots && BodiesRep(t.mySlots, td.mySlots, l)
            && t.privateMethods == td.privateMethods
  {
    assert TypeRep(l.types[i], d.types[i], l.parts[i], l.types);
  }

  lemma UseCaseAt(p: Project, d: ProjectD, l: Layout, i: nat)
    requires Represents(p, d, l) && i < |d.useCases|
    ensures ShapeOf(d, l) && p.useCases == l.useCases && Distinct(l.useCases)
    ensures var u, ud := p.useCases[i], d.useCases[i];
            && UseCaseRep(u, ud, l.lifelines[i], l)
            && LifelinesRep(l.lifelines[i], ud.lifelines, u, l)
            && ActivationsRep(u.activations, ud.activations, l.lifelines[i], l)
  {
  }

  lemma ListsOf(p: Project, d: ProjectD, l: Layout)
    requires Represents(p, d, l)
    ensures ShapeOf(d, l) && p.name == d.name && p.types == l.types && p.useCases == l.useCases
    ensures Distinct(l.types) && Distinct(l.useCases)
  {
  }

  // ---------- types, ancestors, signals, slots, members ----------

  method WriteArguments(p: Project, m: Method, ghost md: MethodD, ghost t: Type, ghost args: seq<Argument>)
    returns (out: seq<Token>)
    requires Distinct(p.types) && MethodRep(m, md, t, args, p.types)
    ensures out == [I32(|md.arguments|)] + Flat(md.arguments, EncArg)
  {
    hide Flat;
    out := [I32(|m.arguments|)];
    FlatStart(md.arguments, EncArg);
    for i := 0 to |m.arguments|
      invariant out == [I32(|md.arguments|)] + Flat(md.arguments[..i], EncArg)
    {
      var a := m.arguments[i];
      assert ArgRep(args[i], md.arguments[i], m, p.types);
      IndexOfAt(p.types, md.arguments[i].type_);
      out := out + [Str(a.lhs), I32(IndexOf(p.types, a.type_)), Str(a.rhs), Str(a.name)];
      FlatSnoc(md.arguments, EncArg, i);
    }
    assert md.arguments[..|md.arguments|] == md.arguments;
  }

  method WriteMethods(p: Project, ms: seq<Method>, ghost mds: seq<MethodD>, ghost t: Type, ghost argss: seq<seq<Argument>>)
    returns (out: seq<Token>)
    requires Distinct(p.types) && MethodsRep(ms, mds, t, argss, p.types)
    ensures out == EncMethods(mds)
  {
    hide Flat; hide EncArg; hide ArgRep;
    out := [I32(|ms|)];
    FlatStart(mds, EncMethod);
    for i := 0 to |ms|
      invariant out == [I32(|mds|)] + Flat(mds[..i], EncMethod)
    {
      var args := WriteArguments(p, ms[i], mds[i], t, argss[i]);
      out := out + ([Str(ms[i].name)] + args);
      assert [Str(mds[i].name)] + ([I32(|mds[i].arguments|)] + Flat(mds[i].arguments, EncArg)) == EncMethod(mds[i]);
      FlatSnoc(mds, EncMethod, i);
    }
    assert mds[..|mds|] == mds;
  }

  method WriteTypeHeads(p: Project, ghost d: ProjectD, ghost l: Layout) returns (out: seq<Token>)
    requires Represents(p, d, l)
    ensures out == EncTypes(d)
  {
    hide Flat;
    hide Represents;
    ListsOf(p, d, l);
    out := [I32(|p.types|)];
    FlatStart(d.types, EncTypeHead);
    for i := 0 to |p.types|
      invariant out == [I32(|d.types|)] + Flat(d.types[..i], EncTypeHead)
    {
      TypeAt(p, d, l, i);
      out := out + [I32(p.types[i].category), Str(p.types[i].name)];
      FlatSnoc(d.types, EncTypeHead, i);
    }
    assert d.types[..|d.types|] == d.types;
  }

  lemma {:induction false} EntriesSplit(ts: seq<TypeD>, from: nat, i: nat)
    requires from <= i <= |ts|
    ensures AncestorEntries(ts[..i], from) + AncestorEntries(ts, i) == AncestorEntries(ts, from)
    decreases i - from
  {
    if from == i {
    } else {
      EntriesSplit(ts, from + 1, i);
    }
  }

  method WriteAncestorEntry(p: Project, as_: seq<Ancestor>, i: nat, ghost ads: seq<AncestorD>) returns (out: seq<Token>)
    requires Distinct(p.types) && i < |p.types| && AncestorsRep(as_, ads, p.types)
    ensures out == EncAncestorEntry(AncestorEntry(i, ads))
  {
    hide Flat;
    IndexOfAt(p.types, i);
    out := [I32(IndexOf(p.types, p.types[i])), I32(|as_|)];
    FlatStart(ads, EncAncestor);
    for j := 0 to |as_|
      invariant out == [I32(i), I32(|ads|)] + Flat(ads[..j], EncAncestor)
    {
      IndexOfAt(p.types, ads[j].type_);
      out := out + [U8(as_[j].visibility), I32(IndexOf(p.types, as_[j].type_))];
      FlatSnoc(ads, EncAncestor, j);
    }
    assert ads[..|ads|] == ads;
  }

  lemma EntriesSnoc(ts: seq<TypeD>, i: nat)
    requires i < |ts|
    ensures var before, after := AncestorEntries(ts[..i], 0), AncestorEntries(ts[..i + 1], 0);
            if ts[i].ancestors == [] then after == before
            else |after| == |before| + 1
                 && Flat(after, EncAncestorEntry)
                    == Flat(before, EncAncestorEntry) + EncAncestorEntry(AncestorEntry(i, ts[i].ancestors))
  {
    var one := ts[..i + 1];
    assert one[..i] == ts[..i];
    EntriesSplit(one, 0, i);
    if ts[i].ancestors != [] {
      var e := AncestorEntry(i, ts[i].ancestors);
      assert AncestorEntries(one, i) == [e] + AncestorEntries(one, i + 1) == [e];
      FlatAppend(AncestorEntries(ts[..i], 0), [e], EncAncestorEntry);
      assert Flat([e], EncAncestorEntry) == EncAncestorEntry(e) + Flat([e][1..], EncAncestorEntry);
    } else {
      assert AncestorEntries(one, i) == [] + AncestorEntries(one, i + 1) == [];
      assert AncestorEntries(ts[..i], 0) + [] == AncestorEntries(ts[..i], 0);
    }
  }

  method WriteAncestors(p: Project, ghost d: ProjectD, ghost l: Layout) returns (out: seq<Token>)
    requires Represents(p, d, l)
    ensures out == EncAncestors(d)
  {
    hide Represents;
    ListsOf(p, d, l);
    var entries := [];
    var count := 0;
    ghost var ts := d.types;
    for i := 0 to |p.types|
      invariant count == |AncestorEntries(ts[..i], 0)|
      invariant entries == Flat(AncestorEntries(ts[..i], 0), EncAncestorEntry)
    {
      TypeAt(p, d, l, i);
      EntriesSnoc(ts, i);
      if p.types[i].ancestors != [] {
        count := count + 1;
        var one := WriteAncestorEntry(p, p.types[i].ancestors, i, ts[i].ancestors);
        entries := entries + one;
      }
    }
    assert ts[..|ts|] == ts;
    out := [I32(count)] + entries;
  }

  method WriteSpecifics(p: Project, ghost d: ProjectD, ghost l: Layout) returns (out: seq<Token>)
    requires Represents(p, d, l)
    ensures out == Flat(d.types, EncSpecifics)
  {
    hide Flat;
    hide Represents;
    ListsOf(p, d, l);
    out := [];
    FlatStart(d.types, EncSpecifics);
    for i := 0 to |p.types|
      invariant out == Flat(d.types[..i], EncSpecifics)
    {
      var t := p.types[i];
      TypeAt(p, d, l, i);
      var one := if t.category < DEFINED_ELSEWHERE then [Pos(t.position)] else [];
      if t.category == CLASS {
        var sigs := WriteMethods(p, t.mySignals, d.types[i].mySignals, t, l.parts[i].signalArgs);
        var slots_ := WriteMethods(p, t.mySlots, d.types[i].mySlots, t, l.parts[i].slotArgs);
        one := one + (sigs + slots_);
      }
      assert one == EncSpecifics(d.types[i]);
      out := out + one;
      FlatSnoc(d.types, EncSpecifics, i);
    }
    assert d.types[..|d.types|] == d.types;
  }

  method WriteMember(p: Project, m: Member, ghost md: MemberD, ghost t: Type, isClass: bool) returns (out: seq<Token>)
    requires Distinct(p.types) && MemberRep(m, md, t, p.types)
    ensures out == if isClass then EncClassMember(md) else EncMemberFields(md)
  {
    IndexOfAt(p.types, md.type_);
    out := [Str(m.lhs), I32(IndexOf(p.types, m.type_)), Str(m.rhs), Str(m.name), Flag(m.hasInit), Str(m.optionalInit),
            U8(m.visibility), U8(m.ownership)];
    if !isClass {
      return;
    }
    out := out + [Flag(m.property.Some?)];
    if m.property.Some? {
      out := out + [Flag(m.property.value.readOnly), Flag(m.property.value.notifiesOnChange)];
    }
  }

  method WriteMembersOf(p: Project, ms: seq<Member>, ghost mds: seq<MemberD>, ghost t: Type, isClass: bool)
    returns (out: seq<Token>)
    requires Distinct(p.types) && MembersRep(ms, mds, t, p.types)
    ensures out == [I32(|mds|)] + (if isClass then Flat(mds, EncClassMember) else Flat(mds, EncMemberFields))
  {
    hide Flat; hide MemberRep; hide EncClassMember; hide EncMemberFields;
    ghost var f := if isClass then EncClassMember else EncMemberFields;
    out := [I32(|ms|)];
    FlatStart(mds, f);
    for j := 0 to |ms|
      invariant out == [I32(|mds|)] + Flat(mds[..j], f)
    {
      var m := WriteMember(p, ms[j], mds[j], t, isClass);
      out := out + m;
      FlatSnoc(mds, f, j);
    }
    assert mds[..|mds|] == mds;
  }

  method WriteMembers(p: Project, ghost d: ProjectD, ghost l: Layout) returns (out: seq<Token>)
    requires Represents(p, d, l)
    ensures out == Flat(d.types, EncMembers)
  {
    hide Flat;
    hide Represents;
    ListsOf(p, d, l);
    out := [];
    FlatStart(d.types, EncMembers);
    for i := 0 to |p.types|
      invariant out == Flat(d.types[..i], EncMembers)
    {
      var t := p.types[i];
      TypeAt(p, d, l, i);
      FlatSnoc(d.types, EncMembers, i);
      if t.category >= DEFINED_ELSEWHERE {
        continue;
      }
      var one := WriteMembersOf(p, t.members, d.types[i].members, t, t.category == CLASS);
      out := out + one;
    }
    assert d.types[..|d.types|] == d.types;
  }

  // ---------- use cases and lifelines ----------

  method WriteSlotIds(p: Project, ms: seq<Method>, ghost rs: seq<Ref>, ghost d: ProjectD, ghost l: Layout)
    returns (ids: seq<(int, int)>)
    requires Represents(p, d, l) && |ms| == |rs| && forall k | 0 <= k < |rs| :: SlotAt(l, rs[k], ms[k])
    ensures ids == RefPairs(rs)
  {
    hide Represents;
    ids := [];
    for j := 0 to |ms|
      invariant |ids| == j
      invariant forall k | 0 <= k < j :: ids[k] == RefPair(rs[k])
    {
      SlotIdsAt(p, d, l, rs[j], ms[j]);
      ids := ids + [(IndexOf(p.types, ms[j].parentClass), IndexOf(ms[j].parentClass.mySlots, ms[j]))];
    }
  }

  method WriteLifeline(p: Project, x: Lifeline, ghost ld: LifelineD, ghost u: UseCase, ghost d: ProjectD, ghost l: Layout)
    returns (out: seq<Token>)
    requires Represents(p, d, l) && LifelineRep(x, ld, u, l)
    ensures out == EncLifeline(ld)
  {
    hide Represents;
    ListsOf(p, d, l);
    IndexOfAt(p.types, ld.class_);
    out := [I32(IndexOf(p.types, x.class_)), Pos(x.position), U8(x.instanceType)];
    if x.instanceType == CHILD_MEMBER_OF_OTHER_CLASS_LIFELINE {
      var instance: Member := x.instance;
      MemberIdsAt(p, d, l, ld.instance, instance);
      var parentClass := instance.parentType;
      out := out + [I32(IndexOf(p.types, parentClass)), I32(IndexOf(parentClass.members, instance))];
    }
    var ids := WriteSlotIds(p, x.mySlots, ld.mySlots, d, l);
    out := out + [SlotIds(ids)];
    assert out == EncLifeline(ld);
  }

  method WriteLifelines(p: Project, xs: seq<Lifeline>, ghost lds: seq<LifelineD>, ghost u: UseCase, ghost d: ProjectD,
                        ghost l: Layout)
    returns (out: seq<Token>)
    requires Represents(p, d, l) && LifelinesRep(xs, lds, u, l)
    ensures out == [I32(|lds|)] + Flat(lds, EncLifeline)
  {
    hide Flat; hide EncLifeline; hide LifelineRep;
    hide Represents;
    out := [I32(|xs|)];
    FlatStart(lds, EncLifeline);
    for k := 0 to |xs|
      invariant out == [I32(|lds|)] + Flat(lds[..k], EncLifeline)
    {
      var one := WriteLifeline(p, xs[k], lds[k], u, d, l);
      out := out + one;
      FlatSnoc(lds, EncLifeline, k);
    }
    assert lds[..|lds|] == lds;
  }

  method WriteUseCase(p: Project, u: UseCase, ghost i: nat, ghost d: ProjectD, ghost l: Layout) returns (out: seq<Token>)
    requires Represents(p, d, l) && i < |d.useCases| && i < |p.useCases| && u == p.useCases[i]
    ensures out == EncUseCase(d.useCases[i])
  {
    hide Represents;
    UseCaseAt(p, d, l, i);
    ghost var ud := d.useCases[i];
    var head := [Str(u.name), Flag(u.actor.Some?)];
    if u.actor.Some? {
      head := head + [Pos(u.actor.value)];
    }
    assert head == [Str(ud.name)] + match ud.actor case None => [Flag(false)] case Some(q) => [Flag(true), Pos(q)];
    var entry := [Flag(u.entryLifeline != null)];
    ghost var entryTokens := match ud.entry
                             case None => [Flag(false)]
                             case Some(e) => [Flag(true), I32(e.lifeline), I32(e.slot)];
    if u.entryLifeline != null {
      var root: Lifeline, slot: Method := u.entryLifeline, u.entrySlot;
      IndexOfAt(u.lifelines, ud.entry.value.lifeline);
      SlotIdsAt(p, d, l, Ref(ud.lifelines[ud.entry.value.lifeline].class_, ud.entry.value.slot), slot);
      entry := entry + [I32(IndexOf(u.lifelines, root)), I32(IndexOf(slot.parentClass.mySlots, slot))];
    }
    assert entry == entryTokens;
    var lines := WriteLifelines(p, u.lifelines, ud.lifelines, u, d, l);
    out := head + lines + entry;
  }

  method WriteUseCases(p: Project, ghost d: ProjectD, ghost l: Layout) returns (out: seq<Token>)
    requires Represents(p, d, l)
    ensures out == EncUseCases(d)
  {
    hide Flat;
    hide Represents; hide EncUseCase; hide Distinct;
    ListsOf(p, d, l);
    out := [I32(|p.useCases|)];
    FlatStart(d.useCases, EncUseCase);
    for i := 0 to |p.useCases|
      invariant out == [I32(|d.useCases|)] + Flat(d.useCases[..i], EncUseCase)
    {
      ListsOf(p, d, l);
      var one := WriteUseCase(p, p.useCases[i], i, d, l);
      out := out + one;
      FlatSnoc(d.useCases, EncUseCase, i);
    }
    assert d.useCases[..|d.useCases|] == d.useCases;
  }

  // ---------- statements ----------

  // TypeInstance::streamOutReference
  method WriteContext(p: Project, c: ContextVariable, ghost cd: ContextD, ghost d: ProjectD, ghost l: Layout)
    returns (out: seq<Token>)
    requires Represents(p, d, l) && ContextRep(c, cd, l)
    ensures out == EncContext(cd)
  {
    hide Represents;
    ListsOf(p, d, l);
    match c
    case SlotArgument(a) =>
      ghost var s := cd.slot;
      TypeAt(p, d, l, s.owner);
      ghost var m := l.parts[s.owner].mySlots[s.index];
      SlotIdsAt(p, d, l, s, m);
      IndexOfAt(m.arguments, cd.argument);
      assert a in m.arguments;
      var owner := a.parentMethod.parentClass;
      out := [U8(0), I32(IndexOf(p.types, owner)), I32(IndexOf(owner.mySlots, a.parentMethod)),
              I32(IndexOf(a.parentMethod.arguments, a))];
    case MemberVariable(m) =>
      MemberIdsAt(p, d, l, cd.member, m);
      out := [U8(2), I32(IndexOf(p.types, m.parentType)), I32(IndexOf(m.parentType.members, m))];
  }

  method WriteContexts(p: Project, cs: seq<ContextVariable>, ghost cds: seq<ContextD>, ghost d: ProjectD, ghost l: Layout)
    returns (out: seq<Token>)
    requires Represents(p, d, l) && ContextsRep(cs, cds, l)
    ensures out == EncContexts(cds)
  {
    hide Flat; hide EncContext; hide ContextRep;
    hide Represents;
    ListsOf(p, d, l);
    out := [I32(|cs|)];
    FlatStart(cds, EncContext);
    for k := 0 to |cs|
      invariant out == [I32(|cds|)] + Flat(cds[..k], EncContext)
    {
      var one := WriteContext(p, cs[k], cds[k], d, l);
      out := out + one;
      FlatSnoc(cds, EncContext, k);
    }
    assert cds[..|cds|] == cds;
  }

  // The statement type byte followed by the statement's own streamOut.
  method WriteStatement(p: Project, s: Statement, ghost sd: StatementD, ghost d: ProjectD, ghost l: Layout)
    returns (out: seq<Token>)
    requires Represents(p, d, l) && StatementRep(s, sd, l)
    ensures out == EncStatement(sd)
  {
    hide Represents;
    ListsOf(p, d, l);
    match s
    case SignalEmission(m, ctx) =>
      SignalIdsAt(p, d, l, sd.emitted, m);
      var rest := WriteContexts(p, ctx, sd.context, d, l);
      out := [U8(0), I32(IndexOf(p.types, m.parentClass)), I32(IndexOf(m.parentClass.mySignals, m))] + rest;
    case SlotInvocation(x, m, ctx) =>
      LifelineIdsAt(p, d, l, sd.lifeline, x);
      SlotIdsAt(p, d, l, sd.invoked, m);
      var rest := WriteContexts(p, ctx, sd.context, d, l);
      out := [U8(1), I32(IndexOf(p.useCases, x.parentUseCase)), I32(IndexOf(x.parentUseCase.lifelines, x)),
              I32(IndexOf(p.types, m.parentClass)), I32(IndexOf(m.parentClass.mySlots, m))] + rest;
    case RawCppChunk(lines) =>
      out := [U8(3), Strings(lines)];
  }

  method WriteBody(p: Project, ss: seq<Statement>, ghost sds: seq<StatementD>, ghost d: ProjectD, ghost l: Layout)
    returns (out: seq<Token>)
    requires Represents(p, d, l) && StatementsRep(ss, sds, l)
    ensures out == [I32(|sds|)] + Flat(sds, EncStatement)
  {
    hide Flat; hide EncStatement; hide StatementRep;
    hide Represents;
    out := [I32(|ss|)];
    FlatStart(sds, EncStatement);
    for k := 0 to |ss|
      invariant out == [I32(|sds|)] + Flat(sds[..k], EncStatement)
    {
      var one := WriteStatement(p, ss[k], sds[k], d, l);
      out := out + one;
      FlatSnoc(sds, EncStatement, k);
    }
    assert sds[..|sds|] == sds;
  }

  method WriteBodiesOf(p: Project, ms: seq<Method>, ghost mds: seq<MethodD>, ghost d: ProjectD, ghost l: Layout)
    returns (out: seq<Token>)
    requires Represents(p, d, l) && BodiesRep(ms, mds, l)
    ensures out == Flat(mds, EncBody)
  {
    hide Flat;
    hide Represents;
    out := [];
    FlatStart(mds, EncBody);
    for j := 0 to |ms|
      invariant out == Flat(mds[..j], EncBody)
    {
      assert BodyRep(ms[j], mds[j], l);
      var b := WriteBody(p, ms[j].statements, mds[j].statements, d, l);
      out := out + b;
      FlatSnoc(mds, EncBody, j);
    }
    assert mds[..|mds|] == mds;
  }

  method WriteBodies(p: Project, ghost d: ProjectD, ghost l: Layout) returns (out: seq<Token>)
    requires Represents(p, d, l)
    ensures out == Flat(d.types, EncBodies)
  {
    hide Flat;
    hide Represents;
    ListsOf(p, d, l);
    out := [];
    FlatStart(d.types, EncBodies);
    for i := 0 to |p.types|
      invariant out == Flat(d.types[..i], EncBodies)
    {
      var t := p.types[i];
      TypeAt(p, d, l, i);
      FlatSnoc(d.types, EncBodies, i);
      if t.category == CLASS {
        var one := WriteBodiesOf(p, t.mySlots, d.types[i].mySlots, d, l);
        out := out + one;
      }
    }
    assert d.types[..|d.types|] == d.types;
  }

  // ---------- activations ----------

  method WriteActivation(p: Project, a: Activation, xs: seq<Lifeline>, ghost ad: ActivationD, ghost d: ProjectD,
                         ghost l: Layout)
    returns (out: seq<Token>)
    requires Represents(p, d, l) && Distinct(xs) && ActivationRep(a, ad, xs, l)
    ensures out == EncActivation(ad)
  {
    hide Flat;
    hide Represents;
    IndexOfAt(xs, ad.sourceLifeline);
    SlotIdsAt(p, d, l, ad.sourceSlot, a.sourceSlot);
    out := [I32(IndexOf(xs, a.sourceLifeline)),
            SlotId((IndexOf(p.types, a.sourceSlot.parentClass), IndexOf(a.sourceSlot.parentClass.mySlots, a.sourceSlot))),
            I32(a.statementIndex), I32(|a.attached|)];
    ghost var head := out;
    FlatStart(ad.attached, EncAttached);
    for k := 0 to |a.attached|
      invariant out == head + Flat(ad.attached[..k], EncAttached)
    {
      var x := a.attached[k];
      SlotIdsAt(p, d, l, ad.attached[k].slot, x.slot);
      out := out + [I32(x.lifelineIndex),
                    SlotId((IndexOf(p.types, x.slot.parentClass), IndexOf(x.slot.parentClass.mySlots, x.slot)))];
      FlatSnoc(ad.attached, EncAttached, k);
    }
    assert ad.attached[..|ad.attached|] == ad.attached;
  }

  method WriteActivationsOf(p: Project, as_: seq<Activation>, xs: seq<Lifeline>, ghost ads: seq<ActivationD>,
                            ghost d: ProjectD, ghost l: Layout)
    returns (out: seq<Token>)
    requires Represents(p, d, l) && Distinct(xs) && ActivationsRep(as_, ads, xs, l)
    ensures out == [I32(|ads|)] + Flat(ads, EncActivation)
  {
    hide Flat; hide EncActivation; hide ActivationRep;
    hide Represents;
    out := [I32(|as_|)];
    FlatStart(ads, EncActivation);
    for k := 0 to |as_|
      invariant out == [I32(|ads|)] + Flat(ads[..k], EncActivation)
    {
      var a := WriteActivation(p, as_[k], xs, ads[k], d, l);
      out := out + a;
      FlatSnoc(ads, EncActivation, k);
    }
    assert ads[..|ads|] == ads;
  }

  method WriteActivations(p: Project, ghost d: ProjectD, ghost l: Layout) returns (out: seq<Token>)
    requires Represents(p, d, l)
    ensures out == Flat(d.useCases, EncActivations)
  {
    hide Flat;
    hide Represents;
    ListsOf(p, d, l);
    out := [];
    FlatStart(d.useCases, EncActivations);
    for i := 0 to |p.useCases|
      invariant out == Flat(d.useCases[..i], EncActivations)
    {
      UseCaseAt(p, d, l, i);
      var u := p.useCases[i];
      var one := WriteActivationsOf(p, u.activations, u.lifelines, d.useCases[i].activations, d, l);
      out := out + one;
      FlatSnoc(d.useCases, EncActivations, i);
    }
    assert d.useCases[..|d.useCases|] == d.useCases;
  }

  // serializeProjectToIoDevice
  method Save(p: Project, stream: DataStream, ghost d: ProjectD, ghost l: Layout)
    requires Represents(p, d, l)
    modifies stream`tokens
    ensures stream.tokens == old(stream.tokens) + EncProject(d)
  {
    hide Represents;
    ListsOf(p, d, l);
    var types := WriteTypeHeads(p, d, l);
    var ancestors := WriteAncestors(p, d, l);
    var specifics := WriteSpecifics(p, d, l);
    var members := WriteMembers(p, d, l);
    var useCases := WriteUseCases(p, d, l);
    var bodies := WriteBodies(p, d, l);
    var activations := WriteActivations(p, d, l);
    stream.tokens := stream.tokens
    + ([U8(1), Str(p.name)] + (types + (ancestors + (specifics + (members + (useCases + (bodies + activations)))))));
  }
}
