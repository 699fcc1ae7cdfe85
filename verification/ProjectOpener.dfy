// deserializeProjectFromIoDevice: every loop of the open. Reading the tokens of a description d
// rebuilds objects whose description is Reopened(d), never follows an id to an object that
// does not exist yet, and leaves exactly what followed the project unread.
module ProjectOpener {
  import opened Wrappers
  import opened Text
  import opened Lists
  import opened ProjectObjects
  import opened ProjectStream

  // ---------- what an open makes of a description ----------

  // createNewProperty is handed the saved variable name as the property name, so the prefix is
  // applied again, and visibility and ownership fall back to what the constructor chooses.
  function ReopenedMember(m: MemberD): MemberD
  {
    match m.property
    case None => m
    case Some(p) =>
      m.(name := MemberNameForProperty(m.name), visibility := VISIBILITY_PRIVATE, ownership := ParsedOwnership(m.rhs),
         property := Some(PropertyInfo(m.name, p.readOnly, p.notifiesOnChange)))
  }

  function ReopenedMembers(ms: seq<MemberD>): (r: seq<MemberD>)
    ensures |r| == |ms| && forall i | 0 <= i < |ms| :: r[i] == ReopenedMember(ms[i])
  {
    seq(|ms|, i requires 0 <= i < |ms| => ReopenedMember(ms[i]))
  }

  // Exit signals are not saved.
  function ReopenedSlots(ms: seq<MethodD>): (r: seq<MethodD>)
    ensures |r| == |ms| && forall i | 0 <= i < |ms| :: r[i] == ms[i].(exitSignal := None)
  {
    seq(|ms|, i requires 0 <= i < |ms| => ms[i].(exitSignal := None))
  }

  // Private methods are not saved.
  function ReopenedType(t: TypeD): TypeD
  {
    t.(mySlots := ReopenedSlots(t.mySlots), members := ReopenedMembers(t.members), privateMethods := [])
  }

  // setUseCaseSlotEntryPoint makes its lifeline the root, whatever it was before.
  function ReopenedUseCase(u: UseCaseD): UseCaseD
  {
    match u.entry
    case None => u
    case Some(e) =>
      if e.lifeline < |u.lifelines| then
        u.(lifelines := u.lifelines[e.lifeline := u.lifelines[e.lifeline].(instanceType := USE_CASES_ROOT_CLASS_LIFELINE)])
      else u
  }

  function Reopened(d: ProjectD): (r: ProjectD)
    ensures |r.types| == |d.types| && forall i | 0 <= i < |d.types| :: r.types[i] == ReopenedType(d.types[i])
    ensures |r.useCases| == |d.useCases| && forall i | 0 <= i < |d.useCases| :: r.useCases[i] == ReopenedUseCase(d.useCases[i])
  {
    ProjectD(d.name,
             seq(|d.types|, i requires 0 <= i < |d.types| => ReopenedType(d.types[i])),
             seq(|d.useCases|, i requires 0 <= i < |d.useCases| => ReopenedUseCase(d.useCases[i])))
  }

  // ---------- what the constructors called by an open insist on ----------

  // Splitting the qualified type at the type's name gives back both qualifiers.
  predicate Clean(lhs: string, typeName: string, rhs: string)
  {
    typeName != "" && Split(lhs + typeName + rhs, typeName) == [lhs, rhs]
  }

  predicate CleanArgument(d: ProjectD, a: ArgD)
  {
    HasType(d, a.type_) && Clean(a.lhs, d.types[a.type_].name, a.rhs)
  }

  predicate CleanMethods(d: ProjectD, ms: seq<MethodD>)
  {
    forall m | m in ms :: forall a | a in m.arguments :: CleanArgument(d, a)
  }

  // createNewNonFunctionMember would invent a name for a blank one; an implicitly shared type
  // refuses members of class type.
  predicate CleanMember(d: ProjectD, t: TypeD, m: MemberD)
  {
    && HasType(d, m.type_) && Clean(m.lhs, d.types[m.type_].name, m.rhs)
    && (m.property == None ==> Trim(m.name) != "")
    && (t.category == IMPLICITLY_SHARED ==> d.types[m.type_].category != CLASS)
  }

  predicate CleanType(d: ProjectD, t: TypeD)
  {
    CleanMethods(d, t.mySignals) && CleanMethods(d, t.mySlots) && forall m | m in t.members :: CleanMember(d, t, m)
  }

  predicate Openable(d: ProjectD)
  {
    InRange(d) && forall t | t in d.types :: CleanType(d, t)
  }

  // ---------- reading a known head off the stream ----------

  lemma Ahead(s: DataStream, head: seq<Token>, tail: seq<Token>)
    requires s.Holds(head + tail)
    ensures s.next + |head| <= |s.tokens|
    ensures forall k | s.next <= k < s.next + |head| :: s.tokens[k] == head[k - s.next]
    ensures s.tokens[s.next + |head|..] == tail
  {
    var rest := s.tokens[s.next..];
    forall k | s.next <= k < s.next + |head| ensures s.tokens[k] == head[k - s.next] {
      assert s.tokens[k] == rest[k - s.next];
    }
    assert rest[|head|..] == s.tokens[s.next + |head|..];
  }

  // ---------- types ----------

  ghost predicate NamesRead(types: seq<Type>, d: ProjectD)
  {
    && |types| == |d.types| && Distinct(types)
    && forall i | 0 <= i < |types| :: types[i].name == d.types[i].name && types[i].category == d.types[i].category
  }

  ghost predicate Bare(t: Type, td: TypeD)
    reads t
  {
    && t.name == td.name && t.category == td.category
    && t.ancestors == [] && t.mySignals == [] && t.mySlots == [] && t.members == [] && t.privateMethods == []
  }

  method ReadTypeHead(s: DataStream, ghost td: TypeD, ghost tail: seq<Token>) returns (t: Type)
    requires s.Holds(EncTypeHead(td) + tail)
    modifies s`next
    ensures s.Holds(tail) && fresh(t) && Bare(t, td)
  {
    Ahead(s, EncTypeHead(td), tail);
    var category := s.GetInt();
    var name := s.GetString();
    t := new Type(category, name);
  }

  method ReadTypes(s: DataStream, q: Project, ghost d: ProjectD, ghost tail: seq<Token>)
    requires s.Holds(EncTypes(d) + tail) && q.types == []
    modifies s`next, q`types
    ensures s.Holds(tail) && fresh(q.types) && |q.types| == |d.types| && Distinct(q.types)
    ensures forall i | 0 <= i < |q.types| :: Bare(q.types[i], d.types[i])
  {
    hide Flat;
    hide Bare; hide EncTypeHead;
    assert EncTypes(d) + tail == [I32(|d.types|)] + (Flat(d.types[0..], EncTypeHead) + tail);
    Ahead(s, [I32(|d.types|)], Flat(d.types[0..], EncTypeHead) + tail);
    var numTypes := s.GetInt();
    for i := 0 to numTypes
      invariant |q.types| == i && s.Holds(Flat(d.types[i..], EncTypeHead) + tail)
      invariant fresh(q.types) && Distinct(q.types)
      invariant forall k | 0 <= k < i :: Bare(q.types[k], d.types[k])
    {
      FlatStep(d.types, EncTypeHead, i, tail);
      var t := ReadTypeHead(s, d.types[i], Flat(d.types[i + 1..], EncTypeHead) + tail);
      q.types := q.types + [t];
    }
    FlatEnd(d.types, EncTypeHead, tail);
  }

  // ---------- ancestors ----------

  method ReadAncestor(s: DataStream, q: Project, ghost ad: AncestorD, ghost tail: seq<Token>) returns (a: Ancestor)
    requires s.Holds(EncAncestor(ad) + tail) && ad.type_ < |q.types|
    modifies s`next
    ensures s.Holds(tail) && a == Ancestor(ad.visibility, q.types[ad.type_])
  {
    Ahead(s, EncAncestor(ad), tail);
    var visibility := s.GetU8();
    var ancestorId := s.GetInt();
    a := Ancestor(visibility, q.types[ancestorId]);
  }

  method ReadAncestorEntry(s: DataStream, q: Project, ghost e: AncestorEntry, ghost tail: seq<Token>)
    requires s.Holds(EncAncestorEntry(e) + tail)
    requires e.type_ < |q.types| && forall a | a in e.ancestors :: a.type_ < |q.types|
    requires q.types[e.type_].ancestors == []
    modifies s`next, {q.types[e.type_]}`ancestors
    ensures s.Holds(tail) && AncestorsRep(q.types[e.type_].ancestors, e.ancestors, q.types)
  {
    hide Flat;
    hide EncAncestor;
    ghost var ads := e.ancestors;
    assert EncAncestorEntry(e) + tail == [I32(e.type_), I32(|ads|)] + (Flat(ads[0..], EncAncestor) + tail);
    Ahead(s, [I32(e.type_), I32(|ads|)], Flat(ads[0..], EncAncestor) + tail);
    var id := s.GetInt();
    var t := q.types[id];
    var numAncestors := s.GetInt();
    for j := 0 to numAncestors
      invariant numAncestors == |ads| && s.Holds(Flat(ads[j..], EncAncestor) + tail)
      invariant AncestorsRep(t.ancestors, ads[..j], q.types)
    {
      FlatStep(ads, EncAncestor, j, tail);
      assert ads[j] in ads;
      var a := ReadAncestor(s, q, ads[j], Flat(ads[j + 1..], EncAncestor) + tail);
      t.ancestors := t.ancestors + [a];
    }
    FlatEnd(ads, EncAncestor, tail);
    assert ads[..|ads|] == ads;
  }

  // The first type from here on that has an entry; everything before it has no ancestors.
  lemma {:induction false} NextEntry(ts: seq<TypeD>, from: nat) returns (i: nat)
    requires from <= |ts|
    ensures from <= i <= |ts| && forall k | from <= k < i :: ts[k].ancestors == []
    ensures if i == |ts| then AncestorEntries(ts, from) == []
            else AncestorEntries(ts, from) == [AncestorEntry(i, ts[i].ancestors)] + AncestorEntries(ts, i + 1)
    decreases |ts| - from
  {
    if from < |ts| && ts[from].ancestors == [] {
      i := NextEntry(ts, from + 1);
    } else {
      i := from;
    }
  }

  // The types before from have got their ancestors back; the others have none yet.
  ghost predicate AncestorsUpTo(types: seq<Type>, ts: seq<TypeD>, from: nat)
    reads types`ancestors
  {
    && |types| == |ts| && from <= |ts|
    && (forall i | 0 <= i < from :: AncestorsRep(types[i].ancestors, ts[i].ancestors, types))
    && forall i | from <= i < |ts| :: types[i].ancestors == []
  }

  lemma AncestorlessSkipped(types: seq<Type>, ts: seq<TypeD>, from: nat, i: nat)
    requires AncestorsUpTo(types, ts, from) && from <= i <= |ts| && forall k | from <= k < i :: ts[k].ancestors == []
    ensures AncestorsUpTo(types, ts, i)
  {
  }

  method ReadNextEntry(s: DataStream, q: Project, ghost d: ProjectD, ghost from: nat, ghost tail: seq<Token>)
    returns (ghost to: nat)
    requires InRange(d) && AncestorsUpTo(q.types, d.types, from) && AncestorEntries(d.types, from) != []
    requires s.Holds(Flat(AncestorEntries(d.types, from), EncAncestorEntry) + tail) && Distinct(q.types)
    modifies s`next, q.types`ancestors
    ensures AncestorsUpTo(q.types, d.types, to)
    ensures |AncestorEntries(d.types, from)| == |AncestorEntries(d.types, to)| + 1
    ensures s.Holds(Flat(AncestorEntries(d.types, to), EncAncestorEntry) + tail)
  {
    hide InRange; hide EncAncestorEntry; hide AncestorsRep;
    ghost var ts := d.types;
    ghost var i := NextEntry(ts, from);
    AncestorlessSkipped(q.types, ts, from, i);
    EntryTargets(d, i);
    FlatStep(AncestorEntries(ts, from), EncAncestorEntry, 0, tail);
    assert AncestorEntries(ts, from)[1..] == AncestorEntries(ts, i + 1);
    ReadAncestorEntry(s, q, AncestorEntry(i, ts[i].ancestors), Flat(AncestorEntries(ts, i + 1), EncAncestorEntry) + tail);
    to := i + 1;
  }

  method ReadAncestors(s: DataStream, q: Project, ghost d: ProjectD, ghost tail: seq<Token>)
    requires s.Holds(EncAncestors(d) + tail) && InRange(d) && |q.types| == |d.types| && Distinct(q.types)
    requires forall t | t in q.types :: t.ancestors == []
    modifies s`next, q.types`ancestors
    ensures s.Holds(tail)
    ensures forall i | 0 <= i < |q.types| :: AncestorsRep(q.types[i].ancestors, d.types[i].ancestors, q.types)
  {
    hide InRange; hide EncAncestorEntry; hide AncestorsRep;
    ghost var ts := d.types;
    ghost var es := AncestorEntries(ts, 0);
    assert EncAncestors(d) + tail == [I32(|es|)] + (Flat(es, EncAncestorEntry) + tail);
    Ahead(s, [I32(|es|)], Flat(es, EncAncestorEntry) + tail);
    var numTypesWithAncestors := s.GetInt();
    ghost var from := 0;
    for k := 0 to numTypesWithAncestors
      invariant AncestorsUpTo(q.types, ts, from) && |AncestorEntries(ts, from)| == numTypesWithAncestors - k
      invariant s.Holds(Flat(AncestorEntries(ts, from), EncAncestorEntry) + tail)
    {
      from := ReadNextEntry(s, q, d, from, tail);
    }
    ghost var end := NextEntry(ts, from);
    AncestorlessSkipped(q.types, ts, from, end);
  }

  lemma EntryTargets(d: ProjectD, i: nat)
    requires InRange(d) && i < |d.types|
    ensures forall a | a in d.types[i].ancestors :: a.type_ < |d.types|
  {
    assert TypeInRange(d, d.types[i]);
  }

  // ---------- signals and slots ----------

  method ReadArgument(s: DataStream, q: Project, m: Method, ghost ad: ArgD, ghost d: ProjectD, ghost tail: seq<Token>)
    returns (a: Argument)
    requires s.Holds(EncArg(ad) + tail) && NamesRead(q.types, d) && CleanArgument(d, ad)
    modifies s`next
    ensures s.Holds(tail) && fresh(a) && ArgRep(a, ad, m, q.types)
  {
    Ahead(s, EncArg(ad), tail);
    var qualifiersLhs := s.GetString();
    var argTypeId := s.GetInt();
    var argType := q.types[argTypeId];
    var qualifiersRhs := s.GetString();
    var argName := s.GetString();
    a := new Argument(m, argType, qualifiersLhs + argType.name + qualifiersRhs, argName);
    assert [a.lhs, a.rhs][0] == ad.lhs && [a.lhs, a.rhs][1] == ad.rhs;
  }

  method ReadArguments(s: DataStream, q: Project, m: Method, ghost ads: seq<ArgD>, ghost d: ProjectD, ghost tail: seq<Token>)
    returns (ghost args: seq<Argument>)
    requires s.Holds([I32(|ads|)] + Flat(ads, EncArg) + tail)
    requires NamesRead(q.types, d) && (forall a | a in ads :: CleanArgument(d, a)) && m.arguments == []
    modifies s`next, m`arguments
    ensures s.Holds(tail) && fresh(args)
    ensures m.arguments == args && |args| == |ads| && Distinct(args)
    ensures forall k | 0 <= k < |args| :: ArgRep(args[k], ads[k], m, q.types)
  {
    hide Flat;
    hide ArgRep; hide EncArg; hide NamesRead; hide CleanArgument;
    args := [];
    assert [I32(|ads|)] + Flat(ads, EncArg) + tail == [I32(|ads|)] + (Flat(ads[0..], EncArg) + tail);
    Ahead(s, [I32(|ads|)], Flat(ads[0..], EncArg) + tail);
    var numArgs := s.GetInt();
    for i := 0 to numArgs
      invariant s.Holds(Flat(ads[i..], EncArg) + tail)
      invariant m.arguments == args && |args| == i && fresh(args) && Distinct(args)
      invariant forall k | 0 <= k < i :: ArgRep(args[k], ads[k], m, q.types)
    {
      FlatStep(ads, EncArg, i, tail);
      var a := ReadArgument(s, q, m, ads[i], d, Flat(ads[i + 1..], EncArg) + tail);
      m.arguments := m.arguments + [a];
      args := args + [a];
    }
    FlatEnd(ads, EncArg, tail);
  }

  method ReadMethod(s: DataStream, q: Project, t: Type, ghost md: MethodD, ghost d: ProjectD, ghost tail: seq<Token>)
    returns (m: Method, ghost args: seq<Argument>)
    requires s.Holds(EncMethod(md) + tail) && NamesRead(q.types, d) && forall a | a in md.arguments :: CleanArgument(d, a)
    modifies s`next
    ensures s.Holds(tail) && fresh(m) && fresh(args) && MethodRep(m, md, t, args, q.types)
    ensures m.statements == [] && m.exitSignal == null
  {
    hide ArgRep; hide EncArg; hide NamesRead; hide CleanArgument;
    ghost var ads := md.arguments;
    assert EncMethod(md) + tail == [Str(md.name)] + ([I32(|ads|)] + Flat(ads, EncArg) + tail);
    Ahead(s, [Str(md.name)], [I32(|ads|)] + Flat(ads, EncArg) + tail);
    var name := s.GetString();
    m := new Method(name, t);
    args := ReadArguments(s, q, m, ads, d, tail);
  }

  // The signals or the slots of t, in order.
  method ReadMethods(s: DataStream, q: Project, t: Type, ghost mds: seq<MethodD>, ghost d: ProjectD, ghost tail: seq<Token>)
    returns (ms: seq<Method>, ghost argss: seq<seq<Argument>>)
    requires s.Holds(EncMethods(mds) + tail) && NamesRead(q.types, d) && CleanMethods(d, mds)
    modifies s`next
    ensures s.Holds(tail) && fresh(ms) && MethodsRep(ms, mds, t, argss, q.types)
    ensures forall m | m in ms :: m.statements == [] && m.exitSignal == null
  {
    hide Flat;
    hide MethodRep; hide EncMethod; hide NamesRead; hide CleanArgument;
    ms, argss := [], [];
    assert EncMethods(mds) + tail == [I32(|mds|)] + (Flat(mds[0..], EncMethod) + tail);
    Ahead(s, [I32(|mds|)], Flat(mds[0..], EncMethod) + tail);
    var numMethods := s.GetInt();
    for j := 0 to numMethods
      invariant s.Holds(Flat(mds[j..], EncMethod) + tail)
      invariant |ms| == |argss| == j && Distinct(ms) && fresh(ms)
      invariant forall k | 0 <= k < j :: MethodRep(ms[k], mds[k], t, argss[k], q.types)
      invariant forall m | m in ms :: m.statements == [] && m.exitSignal == null
    {
      FlatStep(mds, EncMethod, j, tail);
      assert mds[j] in mds;
      var m, args := ReadMethod(s, q, t, mds[j], d, Flat(mds[j + 1..], EncMethod) + tail);
      ms, argss := ms + [m], argss + [args];
    }
    FlatEnd(mds, EncMethod, tail);
  }

  ghost predicate SpecificsRep(t: Type, td: TypeD, parts: Parts, types: seq<Type>)
    reads t`position, t`mySignals, t`mySlots
    reads parts.mySignals`arguments, parts.mySlots`arguments, parts.mySlots`statements, parts.mySlots`exitSignal
  {
    && (t.category < DEFINED_ELSEWHERE ==> t.position == td.position)
    && t.mySignals == parts.mySignals && MethodsRep(parts.mySignals, td.mySignals, t, parts.signalArgs, types)
    && t.mySlots == parts.mySlots && MethodsRep(parts.mySlots, td.mySlots, t, parts.slotArgs, types)
    && forall m | m in parts.mySlots :: m.statements == [] && m.exitSignal == null
  }

  method ReadSpecificsOf(s: DataStream, q: Project, t: Type, ghost td: TypeD, ghost d: ProjectD, ghost tail: seq<Token>)
    returns (ghost parts: Parts)
    requires s.Holds(EncSpecifics(td) + tail) && NamesRead(q.types, d) && CleanType(d, td) && TypeInRange(d, td)
    requires t.category == td.category && t.mySignals == [] && t.mySlots == []
    modifies s`next, t`position, t`mySignals, t`mySlots
    ensures s.Holds(tail) && fresh(parts.mySignals) && fresh(parts.mySlots)
    ensures SpecificsRep(t, td, parts, q.types)
  {
    hide MethodRep; hide EncMethods; hide NamesRead;
    parts := Parts([], [], [], [], []);
    if t.category < DEFINED_ELSEWHERE {
      ghost var later := (if t.category == CLASS then EncMethods(td.mySignals) + EncMethods(td.mySlots) else []) + tail;
      assert EncSpecifics(td) + tail == [Pos(td.position)] + later;
      Ahead(s, [Pos(td.position)], later);
      t.position := s.GetPoint();
    }
    if t.category == CLASS {
      ghost var later := EncMethods(td.mySlots) + tail;
      assert EncMethods(td.mySignals) + EncMethods(td.mySlots) + tail == EncMethods(td.mySignals) + later;
      var theSignals, signalArgs := ReadMethods(s, q, t, td.mySignals, d, later);
      t.mySignals := t.mySignals + theSignals;
      var theSlots, slotArgs := ReadMethods(s, q, t, td.mySlots, d, tail);
      t.mySlots := t.mySlots + theSlots;
      parts := Parts(theSignals, signalArgs, theSlots, slotArgs, []);
    }
  }

  lemma TypesKnown(types: seq<Type>, d: ProjectD)
    requires NamesRead(types, d) && Openable(d)
    ensures |types| == |d.types| && Distinct(types)
    ensures forall i | 0 <= i < |types| ::
              CleanType(d, d.types[i]) && TypeInRange(d, d.types[i]) && types[i].category == d.types[i].category
  {
    forall i | 0 <= i < |types| ensures CleanType(d, d.types[i]) && TypeInRange(d, d.types[i]) {
      assert d.types[i] in d.types;
    }
  }

  method ReadSpecifics(s: DataStream, q: Project, ghost d: ProjectD, ghost tail: seq<Token>)
    returns (ghost parts: seq<Parts>)
    requires s.Holds(Flat(d.types, EncSpecifics) + tail) && NamesRead(q.types, d) && Openable(d)
    requires forall t | t in q.types :: t.mySignals == [] && t.mySlots == []
    modifies s`next, q.types`position, q.types`mySignals, q.types`mySlots
    ensures s.Holds(tail) && |parts| == |q.types|
    ensures forall k | 0 <= k < |parts| :: fresh(parts[k].mySignals) && fresh(parts[k].mySlots)
    ensures forall k | 0 <= k < |parts| :: SpecificsRep(q.types[k], d.types[k], parts[k], q.types)
  {
    hide Flat;
    hide SpecificsRep; hide EncSpecifics; hide CleanType; hide TypeInRange; hide Openable; hide NamesRead;
    ghost var types := q.types;
    TypesKnown(types, d);
    parts := [];
    assert Flat(d.types, EncSpecifics) == Flat(d.types[0..], EncSpecifics);
    for i := 0 to |q.types|
      invariant s.Holds(Flat(d.types[i..], EncSpecifics) + tail) && |parts| == i
      invariant forall k | 0 <= k < i :: fresh(parts[k].mySignals) && fresh(parts[k].mySlots)
      invariant forall k | 0 <= k < i :: SpecificsRep(q.types[k], d.types[k], parts[k], q.types)
      invariant forall k | i <= k < |q.types| :: q.types[k].mySignals == [] && q.types[k].mySlots == []
    {
      FlatStep(d.types, EncSpecifics, i, tail);
      ghost var one := ReadSpecificsOf(s, q, q.types[i], d.types[i], d, Flat(d.types[i + 1..], EncSpecifics) + tail);
      parts := parts + [one];
    }
    FlatEnd(d.types, EncSpecifics, tail);
  }

  // ---------- members ----------

  method ReadMemberFields(s: DataStream, ghost md: MemberD, ghost tail: seq<Token>)
    returns (lhs: string, typeId: nat, rhs: string, name: string, hasInit: bool, optionalInit: string, visibility: Enum8,
             ownership: Enum8)
    requires s.Holds(EncMemberFields(md) + tail)
    modifies s`next
    ensures s.Holds(tail)
    ensures lhs == md.lhs && typeId == md.type_ && rhs == md.rhs && name == md.name && hasInit == md.hasInit
    ensures optionalInit == md.optionalInit && visibility == md.visibility && ownership == md.ownership
  {
    Ahead(s, EncMemberFields(md), tail);
    lhs := s.GetString();
    var id := s.GetInt();
    typeId := id;
    rhs := s.GetString();
    name := s.GetString();
    hasInit := s.GetFlag();
    optionalInit := s.GetString();
    visibility := s.GetU8();
    ownership := s.GetU8();
  }

  function EncFlags(md: MemberD, isClass: bool): seq<Token>
  {
    if !isClass then []
    else match md.property
         case None => [Flag(false)]
         case Some(p) => [Flag(true), Flag(p.readOnly), Flag(p.notifiesOnChange)]
  }

  method ReadFlags(s: DataStream, isClass: bool, ghost md: MemberD, ghost tail: seq<Token>)
    returns (isProperty: bool, readOnly: bool, notifiesOnChange: bool)
    requires s.Holds(EncFlags(md, isClass) + tail)
    modifies s`next
    ensures s.Holds(tail) && isProperty == (isClass && md.property.Some?)
    ensures isProperty ==> md.property.value.readOnly == readOnly && md.property.value.notifiesOnChange == notifiesOnChange
  {
    Ahead(s, EncFlags(md, isClass), tail);
    isProperty, readOnly, notifiesOnChange := false, false, false;
    if isClass {
      isProperty := s.GetFlag();
      if isProperty {
        readOnly := s.GetFlag();
        notifiesOnChange := s.GetFlag();
      }
    }
  }

  method ReadMember(s: DataStream, q: Project, t: Type, ghost md: MemberD, ghost td: TypeD, ghost d: ProjectD,
                    ghost tail: seq<Token>)
    returns (m: Member)
    requires s.Holds((if t.category == CLASS then EncClassMember(md) else EncMemberFields(md)) + tail)
    requires NamesRead(q.types, d) && CleanMember(d, td, md) && (t.category != CLASS ==> md.property == None)
    modifies s`next
    ensures s.Holds(tail) && fresh(m) && MemberRep(m, ReopenedMember(md), t, q.types)
  {
    ghost var flags := EncFlags(md, t.category == CLASS);
    assert (if t.category == CLASS then EncClassMember(md) else EncMemberFields(md)) + tail
           == EncMemberFields(md) + (flags + tail);
    hide EncMemberFields; hide EncClassMember; hide EncFlags;
    var lhs, typeId, rhs, name, hasInit, optionalInit, visibility, ownership := ReadMemberFields(s, md, flags + tail);
    var isProperty, readOnly, notifiesOnChange := ReadFlags(s, t.category == CLASS, md, tail);
    var memberType := q.types[typeId];
    var qualified := lhs + memberType.name + rhs;
    if isProperty {
      m := new Member.OfProperty(t, memberType, qualified, name, hasInit, optionalInit, readOnly, notifiesOnChange);
    } else {
      m := new Member(t, memberType, qualified, name, visibility, ownership, hasInit, optionalInit);
    }
    assert [m.lhs, m.rhs][0] == md.lhs && [m.lhs, m.rhs][1] == md.rhs;
  }

  method ReadMembersOf(s: DataStream, q: Project, t: Type, ghost td: TypeD, ghost d: ProjectD, ghost tail: seq<Token>)
    returns (ms: seq<Member>)
    requires s.Holds(EncMembers(td) + tail) && NamesRead(q.types, d) && CleanType(d, td) && TypeInRange(d, td)
    requires t.category == td.category < DEFINED_ELSEWHERE
    modifies s`next
    ensures s.Holds(tail) && fresh(ms) && MembersRep(ms, ReopenedMembers(td.members), t, q.types)
  {
    hide Flat;
    hide MemberRep; hide EncClassMember; hide EncMemberFields; hide CleanMember; hide NamesRead;
    ghost var mds := td.members;
    ghost var f := if t.category == CLASS then EncClassMember else EncMemberFields;
    ms := [];
    assert EncMembers(td) + tail == [I32(|mds|)] + (Flat(mds[0..], f) + tail);
    Ahead(s, [I32(|mds|)], Flat(mds[0..], f) + tail);
    var numNonFunctionMembers := s.GetInt();
    for j := 0 to numNonFunctionMembers
      invariant s.Holds(Flat(mds[j..], f) + tail)
      invariant |ms| == j && Distinct(ms) && fresh(ms)
      invariant forall k | 0 <= k < j :: MemberRep(ms[k], ReopenedMember(mds[k]), t, q.types)
    {
      FlatStep(mds, f, j, tail);
      assert mds[j] in mds;
      var m := ReadMember(s, q, t, mds[j], td, d, Flat(mds[j + 1..], f) + tail);
      ms := ms + [m];
    }
    FlatEnd(mds, f, tail);
  }

  // Reads the members of one type; types defined elsewhere have none.
  method ReadMembersInto(s: DataStream, q: Project, t: Type, ghost td: TypeD, ghost d: ProjectD, ghost tail: seq<Token>)
    requires s.Holds(EncMembers(td) + tail) && NamesRead(q.types, d) && CleanType(d, td) && TypeInRange(d, td)
    requires t.category == td.category && t.members == []
    modifies s`next, t`members
    ensures s.Holds(tail) && fresh(t.members) && MembersRep(t.members, ReopenedMembers(td.members), t, q.types)
  {
    if t.category >= DEFINED_ELSEWHERE {
      assert EncMembers(td) + tail == tail;
      return;
    }
    hide MembersRep; hide CleanType;
    var ms := ReadMembersOf(s, q, t, td, d, tail);
    t.members := t.members + ms;
  }

  method ReadMembers(s: DataStream, q: Project, ghost d: ProjectD, ghost tail: seq<Token>)
    requires s.Holds(Flat(d.types, EncMembers) + tail) && NamesRead(q.types, d) && Openable(d)
    requires forall t | t in q.types :: t.members == []
    modifies s`next, q.types`members
    ensures s.Holds(tail) && forall t | t in q.types :: fresh(t.members)
    ensures forall i | 0 <= i < |q.types| ::
              MembersRep(q.types[i].members, ReopenedMembers(d.types[i].members), q.types[i], q.types)
  {
    hide Flat;
    hide MembersRep; hide CleanType; hide TypeInRange; hide EncMembers;
    assert Flat(d.types, EncMembers) == Flat(d.types[0..], EncMembers);
    for i := 0 to |q.types|
      invariant s.Holds(Flat(d.types[i..], EncMembers) + tail)
      invariant forall k | 0 <= k < |q.types| :: if k < i then fresh(q.types[k].members) else q.types[k].members == []
      invariant forall k | 0 <= k < i ::
                  MembersRep(q.types[k].members, ReopenedMembers(d.types[k].members), q.types[k], q.types)
    {
      FlatStep(d.types, EncMembers, i, tail);
      assert d.types[i] in d.types;
      ReadMembersInto(s, q, q.types[i], d.types[i], d, Flat(d.types[i + 1..], EncMembers) + tail);
    }
    FlatEnd(d.types, EncMembers, tail);
  }

  // ---------- looking up what has been created so far ----------

  ghost predicate TypeTable(t: Type, td: TypeD, parts: Parts, allSlots: set<Method>)
    reads t`mySignals, t`mySlots, t`members, allSlots`arguments
  {
    && t.category == td.category
    && t.mySignals == parts.mySignals && |parts.mySignals| == |td.mySignals|
    && t.mySlots == parts.mySlots && |parts.mySlots| == |parts.slotArgs| == |td.mySlots|
    && t.members == parts.members && |parts.members| == |td.members|
    && forall j | 0 <= j < |parts.mySlots| ::
         && parts.mySlots[j] in allSlots && parts.mySlots[j].parentClass == t
         && parts.mySlots[j].arguments == parts.slotArgs[j] && |parts.slotArgs[j]| == |td.mySlots[j].arguments|
  }

  // All types with their signals, slots and members exist.
  ghost predicate TypesReady(q: Project, d: ProjectD, l: Layout)
    reads q`types, l.types`mySignals, l.types`mySlots, l.types`members, l.allSlots`arguments
  {
    && q.types == l.types && |l.types| == |l.parts| == |d.types|
    && forall i | 0 <= i < |l.types| :: TypeTable(l.types[i], d.types[i], l.parts[i], l.allSlots)
  }

  // Every type, slot, signal or member id of a saved project finds its object.
  lemma SlotFound(q: Project, d: ProjectD, l: Layout, r: Ref)
    requires TypesReady(q, d, l) && HasSlot(d, r)
    ensures r.owner < |q.types| && q.types[r.owner].category == CLASS && r.index < |q.types[r.owner].mySlots|
    ensures SlotAt(l, r, q.types[r.owner].mySlots[r.index]) && r.index < |l.parts[r.owner].slotArgs|
    ensures q.types[r.owner].mySlots[r.index].arguments == l.parts[r.owner].slotArgs[r.index]
    ensures |l.parts[r.owner].slotArgs[r.index]| == |d.types[r.owner].mySlots[r.index].arguments|
  {
    assert TypeTable(l.types[r.owner], d.types[r.owner], l.parts[r.owner], l.allSlots);
  }

  lemma SignalFound(q: Project, d: ProjectD, l: Layout, r: Ref)
    requires TypesReady(q, d, l) && HasSignal(d, r)
    ensures r.owner < |q.types| && q.types[r.owner].category == CLASS && r.index < |q.types[r.owner].mySignals|
    ensures SignalAt(l, r, q.types[r.owner].mySignals[r.index])
  {
    assert TypeTable(l.types[r.owner], d.types[r.owner], l.parts[r.owner], l.allSlots);
  }

  lemma MemberFound(q: Project, d: ProjectD, l: Layout, r: Ref)
    requires TypesReady(q, d, l) && HasMember(d, r)
    ensures r.owner < |q.types| == |l.parts| && r.index < |q.types[r.owner].members| == |l.parts[r.owner].members|
    ensures q.types[r.owner].members[r.index] == l.parts[r.owner].members[r.index]
  {
    assert TypeTable(l.types[r.owner], d.types[r.owner], l.parts[r.owner], l.allSlots);
  }

  lemma ClassFound(q: Project, d: ProjectD, l: Layout, i: nat)
    requires TypesReady(q, d, l) && HasClass(d, i)
    ensures i < |q.types| == |l.types| && q.types[i] == l.types[i] && q.types[i].category == CLASS
  {
    assert TypeTable(l.types[i], d.types[i], l.parts[i], l.allSlots);
  }

  // ---------- use cases and lifelines ----------

  method ReadSlotsAppearing(s: DataStream, q: Project, x: Lifeline, ghost rs: seq<Ref>, ghost d: ProjectD, ghost l: Layout,
                            ghost tail: seq<Token>)
    requires s.Holds([SlotIds(RefPairs(rs))] + tail) && TypesReady(q, d, l) && (forall r | r in rs :: HasSlot(d, r))
    requires x.mySlots == []
    modifies s`next, x`mySlots
    ensures s.Holds(tail) && |x.mySlots| == |rs| && forall k | 0 <= k < |rs| :: SlotAt(l, rs[k], x.mySlots[k])
  {
    hide TypesReady; hide HasSlot;
    Ahead(s, [SlotIds(RefPairs(rs))], tail);
    var ids := s.GetSlotIds();
    for k := 0 to |ids|
      invariant s.Holds(tail) && |x.mySlots| == k && forall j | 0 <= j < k :: SlotAt(l, rs[j], x.mySlots[j])
    {
      SlotFound(q, d, l, rs[k]);
      x.mySlots := x.mySlots + [q.types[ids[k].0].mySlots[ids[k].1]];
    }
  }

  method ReadLifelineHead(s: DataStream, q: Project, u: UseCase, ghost ld: LifelineD, ghost d: ProjectD, ghost l: Layout,
                          ghost tail: seq<Token>)
    returns (x: Lifeline)
    requires s.Holds([I32(ld.class_), Pos(ld.position), U8(ld.instanceType)] + tail)
    requires TypesReady(q, d, l) && LifelineInRange(d, ld)
    modifies s`next
    ensures s.Holds(tail) && fresh(x) && ld.class_ < |l.types| && x.class_ == l.types[ld.class_]
    ensures x.parentUseCase == u && x.position == ld.position && x.instanceType == ld.instanceType && x.mySlots == []
  {
    hide TypesReady;
    ClassFound(q, d, l, ld.class_);
    Ahead(s, [I32(ld.class_), Pos(ld.position), U8(ld.instanceType)], tail);
    var classId := s.GetInt();
    var position := s.GetPoint();
    x := new Lifeline(q.types[classId], u, position);
    x.instanceType := s.GetU8();
  }

  method ReadInstance(s: DataStream, q: Project, x: Lifeline, ghost ld: LifelineD, ghost d: ProjectD, ghost l: Layout,
                      ghost tail: seq<Token>)
    requires s.Holds([I32(ld.instance.owner), I32(ld.instance.index)] + tail)
    requires TypesReady(q, d, l) && HasMember(d, ld.instance) && HasClass(d, ld.instance.owner)
    modifies s`next, x`instance, x`instanceType
    ensures s.Holds(tail) && x.instanceType == CHILD_MEMBER_OF_OTHER_CLASS_LIFELINE
    ensures ld.instance.owner < |l.parts| && ld.instance.index < |l.parts[ld.instance.owner].members|
    ensures x.instance == l.parts[ld.instance.owner].members[ld.instance.index]
  {
    hide TypesReady;
    MemberFound(q, d, l, ld.instance);
    Ahead(s, [I32(ld.instance.owner), I32(ld.instance.index)], tail);
    var parentId := s.GetInt();
    var memberId := s.GetInt();
    x.instanceType := CHILD_MEMBER_OF_OTHER_CLASS_LIFELINE;
    x.instance := q.types[parentId].members[memberId];
  }

  method ReadLifeline(s: DataStream, q: Project, u: UseCase, ghost ld: LifelineD, ghost d: ProjectD, ghost l: Layout,
                      ghost tail: seq<Token>)
    returns (x: Lifeline)
    requires s.Holds(EncLifeline(ld) + tail) && TypesReady(q, d, l) && LifelineInRange(d, ld)
    modifies s`next
    ensures s.Holds(tail) && fresh(x) && LifelineRep(x, ld, u, l)
  {
    hide TypesReady;
    ghost var end := [SlotIds(RefPairs(ld.mySlots))] + tail;
    ghost var later := if ld.instanceType == CHILD_MEMBER_OF_OTHER_CLASS_LIFELINE
                       then [I32(ld.instance.owner), I32(ld.instance.index)] + end else end;
    assert EncLifeline(ld) + tail == [I32(ld.class_), Pos(ld.position), U8(ld.instanceType)] + later;
    x := ReadLifelineHead(s, q, u, ld, d, l, later);
    if x.instanceType == CHILD_MEMBER_OF_OTHER_CLASS_LIFELINE {
      ReadInstance(s, q, x, ld, d, l, end);
    }
    ReadSlotsAppearing(s, q, x, ld.mySlots, d, l, tail);
  }

  method ReadLifelines(s: DataStream, q: Project, u: UseCase, ghost lds: seq<LifelineD>, ghost d: ProjectD, ghost l: Layout,
                       ghost tail: seq<Token>)
    returns (xs: seq<Lifeline>)
    requires s.Holds([I32(|lds|)] + Flat(lds, EncLifeline) + tail)
    requires TypesReady(q, d, l) && forall ld | ld in lds :: LifelineInRange(d, ld)
    modifies s`next
    ensures s.Holds(tail) && fresh(xs) && LifelinesRep(xs, lds, u, l)
  {
    hide Flat;
    hide TypesReady; hide LifelineRep; hide LifelineInRange; hide EncLifeline;
    xs := [];
    assert [I32(|lds|)] + Flat(lds, EncLifeline) + tail == [I32(|lds|)] + (Flat(lds[0..], EncLifeline) + tail);
    Ahead(s, [I32(|lds|)], Flat(lds[0..], EncLifeline) + tail);
    var numClassLifelines := s.GetInt();
    for k := 0 to numClassLifelines
      invariant s.Holds(Flat(lds[k..], EncLifeline) + tail) && TypesReady(q, d, l)
      invariant |xs| == k && Distinct(xs) && fresh(xs)
      invariant forall j | 0 <= j < k :: LifelineRep(xs[j], lds[j], u, l)
    {
      FlatStep(lds, EncLifeline, k, tail);
      assert lds[k] in lds;
      var x := ReadLifeline(s, q, u, lds[k], d, l, Flat(lds[k + 1..], EncLifeline) + tail);
      xs := xs + [x];
    }
    FlatEnd(lds, EncLifeline, tail);
  }

  function EncActor(u: UseCaseD): seq<Token>
  {
    [Str(u.name)] + match u.actor case None => [Flag(false)] case Some(p) => [Flag(true), Pos(p)]
  }

  function EncEntry(e: Option<EntryD>): seq<Token>
  {
    match e case None => [Flag(false)] case Some(e) => [Flag(true), I32(e.lifeline), I32(e.slot)]
  }

  method ReadActor(s: DataStream, ghost ud: UseCaseD, ghost tail: seq<Token>) returns (u: UseCase)
    requires s.Holds(EncActor(ud) + tail)
    modifies s`next
    ensures s.Holds(tail) && fresh(u) && u.name == ud.name && u.actor == ud.actor
    ensures u.lifelines == [] && u.entryLifeline == null && u.activations == []
  {
    Ahead(s, EncActor(ud), tail);
    var name := s.GetString();
    u := new UseCase(name);
    var actorInUseCase := s.GetFlag();
    if actorInUseCase {
      var position := s.GetPoint();
      u.actor := Some(position);
    }
  }

  // setUseCaseSlotEntryPoint
  method ReadEntry(s: DataStream, u: UseCase, xs: seq<Lifeline>, ghost ud: UseCaseD, ghost q: Project, ghost d: ProjectD,
                   ghost l: Layout, ghost tail: seq<Token>)
    requires s.Holds(EncEntry(ud.entry) + tail) && TypesReady(q, d, l) && UseCaseInRange(d, ud)
    requires u.name == ud.name && u.actor == ud.actor && u.lifelines == xs && u.entryLifeline == null
    requires LifelinesRep(xs, ud.lifelines, u, l)
    modifies s`next, u`entryLifeline, u`entrySlot, xs`instanceType
    ensures s.Holds(tail)
    ensures UseCaseRep(u, ReopenedUseCase(ud), xs, l) && LifelinesRep(xs, ReopenedUseCase(ud).lifelines, u, l)
  {
    hide TypesReady;
    Ahead(s, EncEntry(ud.entry), tail);
    var hasEntryPoint := s.GetFlag();
    if hasEntryPoint {
      var rootId := s.GetInt();
      var slotId := s.GetInt();
      var root := xs[rootId];
      ghost var e := ud.entry.value;
      assert LifelineRep(root, ud.lifelines[e.lifeline], u, l);
      SlotFound(q, d, l, Ref(ud.lifelines[e.lifeline].class_, e.slot));
      ClassFound(q, d, l, ud.lifelines[e.lifeline].class_);
      u.entryLifeline, u.entrySlot := root, root.class_.mySlots[slotId];
      root.instanceType := USE_CASES_ROOT_CLASS_LIFELINE;
    }
  }

  ghost predicate UseCaseReady(u: UseCase, ud: UseCaseD, xs: seq<Lifeline>, l: Layout)
    reads u, xs`instanceType, xs`instance, xs`mySlots
  {
    UseCaseRep(u, ud, xs, l) && LifelinesRep(xs, ud.lifelines, u, l) && u.activations == []
  }

  method ReadUseCase(s: DataStream, q: Project, ghost ud: UseCaseD, ghost d: ProjectD, ghost l: Layout, ghost tail: seq<Token>)
    returns (u: UseCase, ghost xs: seq<Lifeline>)
    requires s.Holds(EncUseCase(ud) + tail) && TypesReady(q, d, l) && UseCaseInRange(d, ud)
    modifies s`next
    ensures s.Holds(tail) && fresh(u) && UseCaseReady(u, ReopenedUseCase(ud), xs, l)
  {
    hide TypesReady; hide LifelinesRep; hide LifelineInRange; hide UseCaseRep;
    ghost var lines := [I32(|ud.lifelines|)] + Flat(ud.lifelines, EncLifeline);
    assert EncUseCase(ud) + tail == EncActor(ud) + (lines + (EncEntry(ud.entry) + tail));
    u := ReadActor(s, ud, lines + (EncEntry(ud.entry) + tail));
    var lifelines := ReadLifelines(s, q, u, ud.lifelines, d, l, EncEntry(ud.entry) + tail);
    u.lifelines := lifelines;
    xs := lifelines;
    ReadEntry(s, u, lifelines, ud, q, d, l, tail);
  }

  method ReadUseCases(s: DataStream, q: Project, ghost d: ProjectD, ghost l: Layout, ghost tail: seq<Token>)
    returns (ghost lifelines: seq<seq<Lifeline>>)
    requires s.Holds(EncUseCases(d) + tail) && TypesReady(q, d, l) && InRange(d) && q.useCases == []
    modifies s`next, q`useCases
    ensures s.Holds(tail) && TypesReady(q, d, l) && |q.useCases| == |lifelines| == |d.useCases| && Distinct(q.useCases)
    ensures fresh(q.useCases)
    ensures forall i | 0 <= i < |lifelines| ::
              UseCaseReady(q.useCases[i], ReopenedUseCase(d.useCases[i]), lifelines[i], l)
  {
    hide Flat;
    hide TypesReady; hide UseCaseReady; hide UseCaseInRange; hide EncUseCase; hide ReopenedUseCase; hide TypeInRange;
    hide HasType;
    lifelines := [];
    ghost var uds := d.useCases;
    assert EncUseCases(d) + tail == [I32(|uds|)] + (Flat(uds[0..], EncUseCase) + tail);
    Ahead(s, [I32(|uds|)], Flat(uds[0..], EncUseCase) + tail);
    var numUseCases := s.GetInt();
    for i := 0 to numUseCases
      invariant s.Holds(Flat(uds[i..], EncUseCase) + tail) && TypesReady(q, d, l)
      invariant |q.useCases| == |lifelines| == i && Distinct(q.useCases) && fresh(q.useCases)
      invariant forall k | 0 <= k < i :: UseCaseReady(q.useCases[k], ReopenedUseCase(uds[k]), lifelines[k], l)
    {
      FlatStep(uds, EncUseCase, i, tail);
      assert uds[i] in uds;
      var u, xs := ReadUseCase(s, q, uds[i], d, l, Flat(uds[i + 1..], EncUseCase) + tail);
      q.useCases := q.useCases + [u];
      lifelines := lifelines + [xs];
    }
    FlatEnd(uds, EncUseCase, tail);
  }

  // ---------- statements ----------

  ghost predicate LifelinesReady(q: Project, d: ProjectD, l: Layout)
    reads q`useCases, l.useCases`lifelines
  {
    && q.useCases == l.useCases && |l.useCases| == |l.lifelines| == |d.useCases|
    && forall i | 0 <= i < |l.useCases| ::
         l.useCases[i].lifelines == l.lifelines[i] && |l.lifelines[i]| == |d.useCases[i].lifelines|
  }

  // TypeInstance::streamInReferenceAndReturnPointerToIt
  method ReadContext(s: DataStream, q: Project, ghost cd: ContextD, ghost d: ProjectD, ghost l: Layout, ghost tail: seq<Token>)
    returns (c: ContextVariable)
    requires s.Holds(EncContext(cd) + tail) && TypesReady(q, d, l) && HasContext(d, cd)
    modifies s`next
    ensures s.Holds(tail) && ContextRep(c, cd, l)
  {
    hide TypesReady;
    match cd {
      case SlotArgumentD(r, _) => SlotFound(q, d, l, r);
      case MemberVariableD(r) => MemberFound(q, d, l, r);
    }
    Ahead(s, EncContext(cd), tail);
    var category := s.GetU8();
    var typeId := s.GetInt();
    var memberId := s.GetInt();
    if category == 2 {
      return MemberVariable(q.types[typeId].members[memberId]);
    }
    var argumentId := s.GetInt();
    c := SlotArgument(q.types[typeId].mySlots[memberId].arguments[argumentId]);
  }

  method ReadContexts(s: DataStream, q: Project, ghost cds: seq<ContextD>, ghost d: ProjectD, ghost l: Layout,
                      ghost tail: seq<Token>)
    returns (cs: seq<ContextVariable>)
    requires s.Holds(EncContexts(cds) + tail) && TypesReady(q, d, l) && forall c | c in cds :: HasContext(d, c)
    modifies s`next
    ensures s.Holds(tail) && ContextsRep(cs, cds, l)
  {
    hide Flat;
    hide TypesReady; hide ContextRep; hide HasContext; hide EncContext;
    cs := [];
    assert EncContexts(cds) + tail == [I32(|cds|)] + (Flat(cds[0..], EncContext) + tail);
    Ahead(s, [I32(|cds|)], Flat(cds[0..], EncContext) + tail);
    var size := s.GetInt();
    for k := 0 to size
      invariant s.Holds(Flat(cds[k..], EncContext) + tail) && |cs| == k
      invariant forall j | 0 <= j < k :: ContextRep(cs[j], cds[j], l)
    {
      FlatStep(cds, EncContext, k, tail);
      assert cds[k] in cds;
      var c := ReadContext(s, q, cds[k], d, l, Flat(cds[k + 1..], EncContext) + tail);
      cs := cs + [c];
    }
    FlatEnd(cds, EncContext, tail);
  }

  method ReadSignalEmission(s: DataStream, q: Project, ghost sd: StatementD, ghost d: ProjectD, ghost l: Layout,
                            ghost tail: seq<Token>)
    returns (st: Statement)
    requires sd.SignalEmissionD? && HasStatement(d, sd)
    requires s.Holds([I32(sd.emitted.owner), I32(sd.emitted.index)] + (EncContexts(sd.context) + tail)) && TypesReady(q, d, l)
    modifies s`next
    ensures s.Holds(tail) && StatementRep(st, sd, l)
  {
    hide TypesReady; hide EncContexts; hide HasContext; hide ContextsRep;
    SignalFound(q, d, l, sd.emitted);
    Ahead(s, [I32(sd.emitted.owner), I32(sd.emitted.index)], EncContexts(sd.context) + tail);
    var classId := s.GetInt();
    var signalId := s.GetInt();
    var theSignal := q.types[classId].mySignals[signalId];
    var context := ReadContexts(s, q, sd.context, d, l, tail);
    st := SignalEmission(theSignal, context);
  }

  method ReadSlotInvocation(s: DataStream, q: Project, ghost sd: StatementD, ghost d: ProjectD, ghost l: Layout,
                            ghost tail: seq<Token>)
    returns (st: Statement)
    requires sd.SlotInvocationD? && HasStatement(d, sd)
    requires s.Holds([I32(sd.lifeline.owner), I32(sd.lifeline.index), I32(sd.invoked.owner), I32(sd.invoked.index)]
                     + (EncContexts(sd.context) + tail))
    requires TypesReady(q, d, l) && LifelinesReady(q, d, l)
    modifies s`next
    ensures s.Holds(tail) && StatementRep(st, sd, l)
  {
    hide TypesReady; hide EncContexts; hide HasContext; hide ContextsRep;
    SlotFound(q, d, l, sd.invoked);
    Ahead(s, [I32(sd.lifeline.owner), I32(sd.lifeline.index), I32(sd.invoked.owner), I32(sd.invoked.index)],
          EncContexts(sd.context) + tail);
    var useCaseId := s.GetInt();
    var classLifelineId := s.GetInt();
    var classId := s.GetInt();
    var slotId := s.GetInt();
    var lifeline := q.useCases[useCaseId].lifelines[classLifelineId];
    var slot := q.types[classId].mySlots[slotId];
    var context := ReadContexts(s, q, sd.context, d, l, tail);
    st := SlotInvocation(lifeline, slot, context);
  }

  function StatementCode(sd: StatementD): Enum8
  {
    match sd
    case SignalEmissionD(_, _) => 0
    case SlotInvocationD(_, _, _) => 1
    case RawCppChunkD(_) => 3
  }

  function StatementRest(sd: StatementD, tail: seq<Token>): seq<Token>
  {
    match sd
    case SignalEmissionD(r, ctx) => [I32(r.owner), I32(r.index)] + (EncContexts(ctx) + tail)
    case SlotInvocationD(x, r, ctx) => [I32(x.owner), I32(x.index), I32(r.owner), I32(r.index)] + (EncContexts(ctx) + tail)
    case RawCppChunkD(lines) => [Strings(lines)] + tail
  }

  lemma StatementSplit(sd: StatementD, tail: seq<Token>)
    ensures EncStatement(sd) + tail == [U8(StatementCode(sd))] + StatementRest(sd, tail)
  {
  }

  method ReadStatement(s: DataStream, q: Project, ghost sd: StatementD, ghost d: ProjectD, ghost l: Layout, ghost tail: seq<Token>)
    returns (st: Statement)
    requires s.Holds(EncStatement(sd) + tail) && HasStatement(d, sd)
    requires TypesReady(q, d, l) && LifelinesReady(q, d, l)
    modifies s`next
    ensures s.Holds(tail) && StatementRep(st, sd, l)
  {
    hide TypesReady; hide LifelinesReady; hide EncContexts; hide HasContext; hide ContextsRep;
    hide EncStatement;
    StatementSplit(sd, tail);
    Ahead(s, [U8(StatementCode(sd))], StatementRest(sd, tail));
    var statementType := s.GetU8();
    if statementType == 0 {
      st := ReadSignalEmission(s, q, sd, d, l, tail);
    } else if statementType == 1 {
      st := ReadSlotInvocation(s, q, sd, d, l, tail);
    } else {
      Ahead(s, [Strings(sd.lines)], tail);
      var lines := s.GetStrings();
      st := RawCppChunk(lines);
    }
  }

  method ReadBody(s: DataStream, q: Project, m: Method, ghost md: MethodD, ghost d: ProjectD, ghost l: Layout,
                  ghost tail: seq<Token>)
    requires s.Holds(EncBody(md) + tail) && HasMethod(d, md) && m.statements == []
    requires TypesReady(q, d, l) && LifelinesReady(q, d, l)
    modifies s`next, m`statements
    ensures s.Holds(tail) && StatementsRep(m.statements, md.statements, l)
  {
    hide Flat;
    hide TypesReady; hide LifelinesReady; hide StatementRep; hide HasStatement; hide EncStatement;
    ghost var sds := md.statements;
    assert EncBody(md) + tail == [I32(|sds|)] + (Flat(sds[0..], EncStatement) + tail);
    Ahead(s, [I32(|sds|)], Flat(sds[0..], EncStatement) + tail);
    var numStatements := s.GetInt();
    for k := 0 to numStatements
      invariant s.Holds(Flat(sds[k..], EncStatement) + tail) && |m.statements| == k
      invariant forall j | 0 <= j < k :: StatementRep(m.statements[j], sds[j], l)
    {
      FlatStep(sds, EncStatement, k, tail);
      assert sds[k] in sds;
      var st := ReadStatement(s, q, sds[k], d, l, Flat(sds[k + 1..], EncStatement) + tail);
      m.statements := m.statements + [st];
    }
    FlatEnd(sds, EncStatement, tail);
  }

  ghost predicate BodiesRead(slots: seq<Method>, mds: seq<MethodD>, l: Layout)
    reads slots`statements
  {
    |slots| == |mds| && forall j | 0 <= j < |slots| :: StatementsRep(slots[j].statements, mds[j].statements, l)
  }

  method ReadBodiesOf(s: DataStream, q: Project, slots: seq<Method>, ghost mds: seq<MethodD>, ghost d: ProjectD,
                      ghost l: Layout, ghost tail: seq<Token>)
    requires s.Holds(Flat(mds, EncBody) + tail) && (forall m | m in mds :: HasMethod(d, m))
    requires TypesReady(q, d, l) && LifelinesReady(q, d, l)
    requires |slots| == |mds| && Distinct(slots) && Empty(slots)
    modifies s`next, slots`statements
    ensures s.Holds(tail) && BodiesRead(slots, mds, l)
  {
    hide Flat;
    hide TypesReady; hide LifelinesReady; hide StatementsRep; hide HasMethod; hide EncBody;
    assert Flat(mds, EncBody) == Flat(mds[0..], EncBody);
    for j := 0 to |slots|
      invariant s.Holds(Flat(mds[j..], EncBody) + tail) && TypesReady(q, d, l) && LifelinesReady(q, d, l)
      invariant forall k | 0 <= k < j :: StatementsRep(slots[k].statements, mds[k].statements, l)
      invariant forall k | j <= k < |slots| :: slots[k].statements == []
    {
      FlatStep(mds, EncBody, j, tail);
      assert mds[j] in mds;
      ReadBody(s, q, slots[j], mds[j], d, l, Flat(mds[j + 1..], EncBody) + tail);
    }
    FlatEnd(mds, EncBody, tail);
  }

  // Slots of different classes are different objects.
  lemma SlotsApart(q: Project, d: ProjectD, l: Layout)
    requires TypesReady(q, d, l) && Distinct(q.types)
    ensures forall i, k, a, b | 0 <= i < |l.parts| && 0 <= k < |l.parts| && i != k
                                && 0 <= a < |l.parts[i].mySlots| && 0 <= b < |l.parts[k].mySlots| ::
              l.parts[i].mySlots[a] != l.parts[k].mySlots[b]
    ensures forall i, a | 0 <= i < |l.parts| && 0 <= a < |l.parts[i].mySlots| :: l.parts[i].mySlots[a] in l.allSlots
  {
    forall i, a | 0 <= i < |l.parts| && 0 <= a < |l.parts[i].mySlots|
      ensures l.parts[i].mySlots[a].parentClass == l.types[i] && l.parts[i].mySlots[a] in l.allSlots
    {
      assert TypeTable(l.types[i], d.types[i], l.parts[i], l.allSlots);
    }
  }

  lemma SlotListAt(q: Project, d: ProjectD, l: Layout, i: nat)
    requires TypesReady(q, d, l) && i < |d.types|
    ensures i < |q.types| == |l.parts| && q.types[i].category == d.types[i].category
    ensures q.types[i].mySlots == l.parts[i].mySlots && |l.parts[i].mySlots| == |d.types[i].mySlots|
  {
    assert TypeTable(l.types[i], d.types[i], l.parts[i], l.allSlots);
  }

  method ReadBodiesAt(s: DataStream, q: Project, i: nat, ghost d: ProjectD, ghost l: Layout, ghost tail: seq<Token>)
    requires i < |d.types| && s.Holds(EncBodies(d.types[i]) + tail) && TypeInRange(d, d.types[i])
    requires TypesReady(q, d, l) && LifelinesReady(q, d, l)
    requires i < |l.parts| && Distinct(l.parts[i].mySlots) && Empty(l.parts[i].mySlots)
    modifies s`next, l.parts[i].mySlots`statements
    ensures s.Holds(tail) && BodiesRead(l.parts[i].mySlots, d.types[i].mySlots, l)
  {
    hide TypesReady; hide LifelinesReady;
    SlotListAt(q, d, l, i);
    var t := q.types[i];
    if t.category == CLASS {
      ReadBodiesOf(s, q, t.mySlots, d.types[i].mySlots, d, l, tail);
    } else {
      assert EncBodies(d.types[i]) + tail == tail;
    }
  }

  method ReadBodies(s: DataStream, q: Project, ghost d: ProjectD, ghost l: Layout, ghost tail: seq<Token>)
    requires s.Holds(Flat(d.types, EncBodies) + tail) && InRange(d) && Distinct(q.types)
    requires TypesReady(q, d, l) && LifelinesReady(q, d, l)
    requires forall i | 0 <= i < |l.parts| :: Distinct(l.parts[i].mySlots) && Empty(l.parts[i].mySlots)
    modifies s`next, l.allSlots`statements
    ensures s.Holds(tail) && |l.parts| == |d.types|
    ensures forall i | 0 <= i < |l.parts| :: BodiesRead(l.parts[i].mySlots, d.types[i].mySlots, l)
  {
    hide Flat;
    hide LifelinesReady; hide BodiesRead; hide TypeInRange; hide EncBodies; hide TypeTable; hide Empty; hide UseCaseInRange;
    hide Distinct;
    ghost var parts := l.parts;
    SlotsApart(q, d, l);
    assert Flat(d.types, EncBodies) == Flat(d.types[0..], EncBodies);
    for i := 0 to |q.types|
      invariant s.Holds(Flat(d.types[i..], EncBodies) + tail) && TypesReady(q, d, l) && LifelinesReady(q, d, l)
      invariant forall k | 0 <= k < i :: BodiesRead(parts[k].mySlots, d.types[k].mySlots, l)
      invariant forall k | i <= k < |parts| :: Empty(parts[k].mySlots)
    {
      FlatStep(d.types, EncBodies, i, tail);
      assert d.types[i] in d.types;
      ReadBodiesAt(s, q, i, d, l, Flat(d.types[i + 1..], EncBodies) + tail);
    }
    FlatEnd(d.types, EncBodies, tail);
  }

  // ---------- activations ----------

  method ReadOneAttached(s: DataStream, q: Project, ghost xd: AttachedD, ghost d: ProjectD, ghost l: Layout, ghost tail: seq<Token>)
    returns (x: Attached)
    requires s.Holds(EncAttached(xd) + tail) && TypesReady(q, d, l) && HasSlot(d, xd.slot)
    modifies s`next
    ensures s.Holds(tail) && x.lifelineIndex == xd.lifelineIndex && SlotAt(l, xd.slot, x.slot)
  {
    hide TypesReady; hide HasSlot;
    Ahead(s, EncAttached(xd), tail);
    SlotFound(q, d, l, xd.slot);
    var lifelineIndex := s.GetInt();
    var slotId := s.GetSlotId();
    x := Attached(lifelineIndex, q.types[slotId.0].mySlots[slotId.1]);
  }

  method ReadAttached(s: DataStream, q: Project, ghost xds: seq<AttachedD>, ghost d: ProjectD, ghost l: Layout,
                      ghost tail: seq<Token>)
    returns (xs: seq<Attached>)
    requires s.Holds([I32(|xds|)] + (Flat(xds, EncAttached) + tail)) && TypesReady(q, d, l)
    requires forall x | x in xds :: HasSlot(d, x.slot)
    modifies s`next
    ensures s.Holds(tail) && |xs| == |xds|
    ensures forall k | 0 <= k < |xds| :: xs[k].lifelineIndex == xds[k].lifelineIndex && SlotAt(l, xds[k].slot, xs[k].slot)
  {
    hide Flat;
    hide TypesReady; hide HasSlot; hide SlotAt; hide EncAttached;
    xs := [];
    assert Flat(xds, EncAttached) == Flat(xds[0..], EncAttached);
    Ahead(s, [I32(|xds|)], Flat(xds[0..], EncAttached) + tail);
    var numSlotsAttached := s.GetInt();
    for k := 0 to numSlotsAttached
      invariant s.Holds(Flat(xds[k..], EncAttached) + tail) && |xs| == k
      invariant forall j | 0 <= j < k :: xs[j].lifelineIndex == xds[j].lifelineIndex && SlotAt(l, xds[j].slot, xs[j].slot)
    {
      FlatStep(xds, EncAttached, k, tail);
      assert xds[k] in xds;
      var x := ReadOneAttached(s, q, xds[k], d, l, Flat(xds[k + 1..], EncAttached) + tail);
      xs := xs + [x];
    }
    FlatEnd(xds, EncAttached, tail);
  }

  method ReadActivation(s: DataStream, q: Project, lifelines: seq<Lifeline>, ghost ad: ActivationD, ghost ud: UseCaseD,
                        ghost d: ProjectD, ghost l: Layout, ghost tail: seq<Token>)
    returns (a: Activation)
    requires s.Holds(EncActivation(ad) + tail) && TypesReady(q, d, l)
    requires ActivationInRange(d, ud, ad) && |lifelines| == |ud.lifelines|
    modifies s`next
    ensures s.Holds(tail) && ActivationRep(a, ad, lifelines, l)
  {
    hide TypesReady; hide HasSlot;
    ghost var head := [I32(ad.sourceLifeline), SlotId(RefPair(ad.sourceSlot)), I32(ad.statementIndex)];
    ghost var later := [I32(|ad.attached|)] + (Flat(ad.attached, EncAttached) + tail);
    assert EncActivation(ad) + tail == head + later;
    Ahead(s, head, later);
    SlotFound(q, d, l, ad.sourceSlot);
    var lifelineId := s.GetInt();
    var slotId := s.GetSlotId();
    var slot := q.types[slotId.0].mySlots[slotId.1];
    var statementIndex := s.GetInt();
    var attached := ReadAttached(s, q, ad.attached, d, l, tail);
    a := Activation(lifelines[lifelineId], slot, statementIndex, attached);
  }

  method ReadActivationsOf(s: DataStream, q: Project, u: UseCase, ghost ud: UseCaseD, ghost d: ProjectD, ghost l: Layout,
                           ghost tail: seq<Token>)
    requires s.Holds(EncActivations(ud) + tail) && TypesReady(q, d, l) && UseCaseInRange(d, ud)
    requires |u.lifelines| == |ud.lifelines| && u.activations == []
    modifies s`next, u`activations
    ensures s.Holds(tail) && ActivationsRep(u.activations, ud.activations, u.lifelines, l)
  {
    hide Flat;
    hide TypesReady; hide ActivationRep; hide ActivationInRange; hide EncActivation; hide LifelineInRange;
    ghost var ads := ud.activations;
    var lifelines := u.lifelines;
    assert EncActivations(ud) + tail == [I32(|ads|)] + (Flat(ads[0..], EncActivation) + tail);
    Ahead(s, [I32(|ads|)], Flat(ads[0..], EncActivation) + tail);
    var numActivations := s.GetInt();
    for k := 0 to numActivations
      invariant s.Holds(Flat(ads[k..], EncActivation) + tail) && TypesReady(q, d, l) && |u.activations| == k
      invariant forall j | 0 <= j < k :: ActivationRep(u.activations[j], ads[j], lifelines, l)
    {
      FlatStep(ads, EncActivation, k, tail);
      assert ads[k] in ads;
      var a := ReadActivation(s, q, lifelines, ads[k], ud, d, l, Flat(ads[k + 1..], EncActivation) + tail);
      u.activations := u.activations + [a];
    }
    FlatEnd(ads, EncActivation, tail);
  }

  method ReadActivations(s: DataStream, q: Project, ghost d: ProjectD, ghost l: Layout, ghost tail: seq<Token>)
    requires s.Holds(Flat(d.useCases, EncActivations) + tail) && InRange(d) && Distinct(q.useCases)
    requires TypesReady(q, d, l) && LifelinesReady(q, d, l)
    requires forall u | u in q.useCases :: u.activations == []
    modifies s`next, q.useCases`activations
    ensures s.Holds(tail)
    ensures |q.useCases| == |l.lifelines| == |d.useCases|
    ensures forall i | 0 <= i < |q.useCases| ::
              ActivationsRep(q.useCases[i].activations, d.useCases[i].activations, l.lifelines[i], l)
  {
    hide Flat;
    hide TypesReady; hide ActivationsRep; hide UseCaseInRange; hide EncActivations; hide TypeInRange;
    assert Flat(d.useCases, EncActivations) == Flat(d.useCases[0..], EncActivations);
    var useCases := q.useCases;
    for i := 0 to |useCases|
      invariant s.Holds(Flat(d.useCases[i..], EncActivations) + tail) && TypesReady(q, d, l)
      invariant forall k | 0 <= k < i ::
                  ActivationsRep(useCases[k].activations, d.useCases[k].activations, l.lifelines[k], l)
      invariant forall k | i <= k < |useCases| :: useCases[k].activations == []
    {
      FlatStep(d.useCases, EncActivations, i, tail);
      assert d.useCases[i] in d.useCases;
      ReadActivationsOf(s, q, useCases[i], d.useCases[i], d, l, Flat(d.useCases[i + 1..], EncActivations) + tail);
    }
    FlatEnd(d.useCases, EncActivations, tail);
  }

  // ---------- the whole file ----------

  ghost predicate Empty(slots: seq<Method>)
    reads slots`statements
  {
    forall m | m in slots :: m.statements == []
  }

  ghost predicate NoExits(slots: seq<Method>)
    reads slots`exitSignal
  {
    forall m | m in slots :: m.exitSignal == null
  }

  lemma TypeAssembled(t: Type, td: TypeD, specifics: Parts, types: seq<Type>)
    requires t.name == td.name && t.category == td.category && t.privateMethods == []
    requires AncestorsRep(t.ancestors, td.ancestors, types) && SpecificsRep(t, td, specifics, types)
    requires MembersRep(t.members, ReopenedMembers(td.members), t, types)
    ensures TypeRep(t, ReopenedType(td), specifics.(members := t.members), types)
    ensures Distinct(specifics.mySlots) && Empty(specifics.mySlots) && NoExits(specifics.mySlots)
  {
    forall j | 0 <= j < |specifics.mySlots|
      ensures MethodRep(specifics.mySlots[j], ReopenedType(td).mySlots[j], t, specifics.slotArgs[j], types)
    {
      assert MethodRep(specifics.mySlots[j], td.mySlots[j], t, specifics.slotArgs[j], types);
    }
  }

  lemma TypesAssembled(types: seq<Type>, d: ProjectD, specifics: seq<Parts>) returns (parts: seq<Parts>)
    requires |types| == |specifics| == |d.types|
    requires forall i | 0 <= i < |types| ::
               types[i].name == d.types[i].name && types[i].category == d.types[i].category && types[i].privateMethods == []
    requires forall i | 0 <= i < |types| :: AncestorsRep(types[i].ancestors, d.types[i].ancestors, types)
    requires forall i | 0 <= i < |types| :: SpecificsRep(types[i], d.types[i], specifics[i], types)
    requires forall i | 0 <= i < |types| :: MembersRep(types[i].members, ReopenedMembers(d.types[i].members), types[i], types)
    ensures |parts| == |types|
    ensures forall i | 0 <= i < |parts| ::
              && parts[i].mySlots == specifics[i].mySlots && Distinct(parts[i].mySlots)
              && Empty(parts[i].mySlots) && NoExits(parts[i].mySlots)
              && TypeRep(types[i], ReopenedType(d.types[i]), parts[i], types)
  {
    hide AncestorsRep; hide SpecificsRep; hide MembersRep; hide TypeRep; hide ReopenedType;
    parts := [];
    for i := 0 to |types|
      invariant |parts| == i
      invariant forall k | 0 <= k < i :: parts[k].mySlots == specifics[k].mySlots && Distinct(parts[k].mySlots)
      invariant forall k | 0 <= k < i :: TypeRep(types[k], ReopenedType(d.types[k]), parts[k], types)
      invariant forall k | 0 <= k < i :: Empty(parts[k].mySlots) && NoExits(parts[k].mySlots)
    {
      TypeAssembled(types[i], d.types[i], specifics[i], types);
      parts := parts + [specifics[i].(members := types[i].members)];
    }
  }

  function EncTypePart(d: ProjectD, rest: seq<Token>): seq<Token>
  {
    EncTypes(d) + (EncAncestors(d) + (Flat(d.types, EncSpecifics) + (Flat(d.types, EncMembers) + rest)))
  }

  // Named, with its ancestors, still without signals, slots and members.
  ghost predicate Declared(t: Type, td: TypeD, types: seq<Type>)
    reads t`ancestors, t`mySignals, t`mySlots, t`members, t`privateMethods
  {
    && t.name == td.name && t.category == td.category && AncestorsRep(t.ancestors, td.ancestors, types)
    && t.mySignals == [] && t.mySlots == [] && t.members == [] && t.privateMethods == []
  }

  method OpenDeclarations(s: DataStream, q: Project, ghost d: ProjectD, ghost tail: seq<Token>)
    requires InRange(d) && q.types == [] && s.Holds(EncTypes(d) + (EncAncestors(d) + tail))
    modifies s`next, q`types
    ensures s.Holds(tail) && |q.types| == |d.types| && Distinct(q.types) && fresh(q.types)
    ensures forall i | 0 <= i < |q.types| :: Declared(q.types[i], d.types[i], q.types)
  {
    hide TypeInRange; hide AncestorsRep; hide EncAncestors; hide EncTypes;
    ReadTypes(s, q, d, EncAncestors(d) + tail);
    ReadAncestors(s, q, d, tail);
  }

  // Reads everything that describes the types themselves.
  method OpenTypes(s: DataStream, q: Project, ghost d: ProjectD, ghost tail: seq<Token>) returns (ghost parts: seq<Parts>)
    requires Openable(d) && q.types == [] && s.Holds(EncTypePart(d, tail))
    modifies s`next, q`types
    ensures s.Holds(tail) && |q.types| == |parts| == |d.types| && Distinct(q.types) && fresh(q.types)
    ensures forall i | 0 <= i < |parts| ::
              && fresh(parts[i].mySlots) && Distinct(parts[i].mySlots)
              && Empty(parts[i].mySlots) && NoExits(parts[i].mySlots)
              && TypeRep(q.types[i], ReopenedType(d.types[i]), parts[i], q.types)
  {
    hide Empty; hide NoExits; hide SpecificsRep; hide MembersRep; hide CleanType; hide AncestorsRep; hide InRange;
    hide TypeRep; hide ReopenedType; hide EncTypes; hide EncAncestors; hide ReopenedMembers; hide EncSpecifics; hide EncMembers;
    OpenDeclarations(s, q, d, Flat(d.types, EncSpecifics) + (Flat(d.types, EncMembers) + tail));
    ghost var specifics := ReadSpecifics(s, q, d, Flat(d.types, EncMembers) + tail);
    ReadMembers(s, q, d, tail);
    parts := TypesAssembled(q.types, d, specifics);
  }

  ghost function SlotsOf(parts: seq<Parts>): set<Method>
  {
    set i, j | 0 <= i < |parts| && 0 <= j < |parts[i].mySlots| :: parts[i].mySlots[j]
  }

  ghost function ObjectsOf(q: Project, types: seq<Type>, parts: seq<Parts>, useCases: seq<UseCase>,
                           lifelines: seq<seq<Lifeline>>): set<object>
  {
    {q as object} + (set t: Type | t in types :: t as object) + (set u: UseCase | u in useCases :: u as object)
    + (set i, j | 0 <= i < |parts| && 0 <= j < |parts[i].mySignals| :: parts[i].mySignals[j] as object)
    + (set i, j | 0 <= i < |parts| && 0 <= j < |parts[i].mySlots| :: parts[i].mySlots[j] as object)
    + (set i, j | 0 <= i < |lifelines| && 0 <= j < |lifelines[i]| :: lifelines[i][j] as object)
  }

  lemma TypesAreReady(q: Project, d: ProjectD, l: Layout)
    requires q.types == l.types && |l.types| == |l.parts| == |d.types| && l.allSlots == SlotsOf(l.parts)
    requires forall i | 0 <= i < |l.parts| :: TypeRep(q.types[i], ReopenedType(d.types[i]), l.parts[i], q.types)
    ensures TypesReady(q, d, l)
  {
    forall i | 0 <= i < |l.parts| ensures TypeTable(l.types[i], d.types[i], l.parts[i], l.allSlots) {
      assert TypeRep(q.types[i], ReopenedType(d.types[i]), l.parts[i], q.types);
      forall j | 0 <= j < |l.parts[i].mySlots|
        ensures l.parts[i].mySlots[j].arguments == l.parts[i].slotArgs[j]
        ensures l.parts[i].mySlots[j].parentClass == l.types[i]
        ensures |l.parts[i].slotArgs[j]| == |d.types[i].mySlots[j].arguments|
      {
        assert MethodRep(l.parts[i].mySlots[j], ReopenedType(d.types[i]).mySlots[j], q.types[i], l.parts[i].slotArgs[j], q.types);
      }
    }
  }

  lemma UseCaseReadyAnywhere(u: UseCase, ud: UseCaseD, xs: seq<Lifeline>, l: Layout, l': Layout)
    requires UseCaseReady(u, ud, xs, l) && l'.types == l.types && l'.parts == l.parts
    ensures UseCaseReady(u, ud, xs, l')
  {
    forall k | 0 <= k < |xs| ensures LifelineRep(xs[k], ud.lifelines[k], u, l') {
      assert LifelineRep(xs[k], ud.lifelines[k], u, l);
    }
  }

  method OpenUseCases(s: DataStream, q: Project, ghost d: ProjectD, ghost parts: seq<Parts>, ghost tail: seq<Token>)
    returns (ghost l: Layout)
    requires s.Holds(EncUseCases(d) + tail) && InRange(d) && q.useCases == []
    requires |q.types| == |parts| == |d.types|
    requires forall i | 0 <= i < |parts| :: TypeRep(q.types[i], ReopenedType(d.types[i]), parts[i], q.types)
    modifies s`next, q`useCases
    ensures s.Holds(tail) && TypesReady(q, d, l) && LifelinesReady(q, d, l)
    ensures l.types == q.types && l.parts == parts && l.useCases == q.useCases && l.allSlots == SlotsOf(parts)
    ensures l.repr == ObjectsOf(q, l.types, l.parts, l.useCases, l.lifelines)
    ensures Distinct(q.useCases) && fresh(q.useCases)
    ensures forall u | u in q.useCases :: u.activations == []
    ensures forall i | 0 <= i < |l.useCases| ::
              && UseCaseRep(l.useCases[i], ReopenedUseCase(d.useCases[i]), l.lifelines[i], l)
              && LifelinesRep(l.lifelines[i], ReopenedUseCase(d.useCases[i]).lifelines, l.useCases[i], l)
  {
    hide UseCaseRep; hide LifelinesRep; hide ReopenedUseCase;
    hide TypesReady; hide UseCaseReady; hide EncUseCases; hide TypeRep; hide TypeInRange; hide UseCaseInRange;
    ghost var l0 := Layout(q.types, parts, [], [], SlotsOf(parts), {});
    TypesAreReady(q, d, l0);
    ghost var lifelines := ReadUseCases(s, q, d, l0, tail);
    l := l0.(useCases := q.useCases, lifelines := lifelines,
             repr := ObjectsOf(q, q.types, parts, q.useCases, lifelines));
    TypesReadyAnywhere(q, d, l0, l);
    forall i | 0 <= i < |l.useCases|
      ensures UseCaseRep(l.useCases[i], ReopenedUseCase(d.useCases[i]), l.lifelines[i], l)
      ensures LifelinesRep(l.lifelines[i], ReopenedUseCase(d.useCases[i]).lifelines, l.useCases[i], l)
      ensures l.useCases[i].lifelines == l.lifelines[i] && |l.lifelines[i]| == |d.useCases[i].lifelines|
      ensures l.useCases[i].activations == []
    {
      UseCaseReadyAnywhere(l.useCases[i], ReopenedUseCase(d.useCases[i]), l.lifelines[i], l0, l);
      UseCaseReadyLines(l.useCases[i], d.useCases[i], l.lifelines[i], l);
    }
  }

  lemma UseCaseReadyLines(u: UseCase, ud: UseCaseD, xs: seq<Lifeline>, l: Layout)
    requires UseCaseReady(u, ReopenedUseCase(ud), xs, l)
    ensures u.lifelines == xs && |xs| == |ud.lifelines| && u.activations == []
    ensures UseCaseRep(u, ReopenedUseCase(ud), xs, l) && LifelinesRep(xs, ReopenedUseCase(ud).lifelines, u, l)
  {
  }

  lemma TypesReadyAnywhere(q: Project, d: ProjectD, l: Layout, l': Layout)
    requires TypesReady(q, d, l) && l'.types == l.types && l'.parts == l.parts && l'.allSlots == l.allSlots
    ensures TypesReady(q, d, l')
  {
  }

  // An open changes no count and no category, so references stay in range.
  lemma ReopenedInRange(d: ProjectD)
    requires InRange(d)
    ensures InRange(Reopened(d))
  {
    var r := Reopened(d);
    forall t | t in r.types ensures TypeInRange(r, t) {
      var i :| 0 <= i < |r.types| && r.types[i] == t;
      assert TypeInRange(d, d.types[i]);
      forall m | m in t.mySlots ensures HasMethod(r, m) {
        var j :| 0 <= j < |t.mySlots| && t.mySlots[j] == m;
        assert HasMethod(d, d.types[i].mySlots[j]);
        ReopenedHasMethod(d, d.types[i].mySlots[j]);
      }
      forall m | m in t.mySignals ensures HasMethod(r, m) {
        ReopenedHasMethod(d, m);
      }
      forall m | m in t.members ensures HasType(r, m.type_) && (t.category != CLASS ==> m.property == None) {
        var j :| 0 <= j < |t.members| && t.members[j] == m;
        assert d.types[i].members[j] in d.types[i].members;
      }
    }
    forall u | u in r.useCases ensures UseCaseInRange(r, u) {
      var i :| 0 <= i < |r.useCases| && r.useCases[i] == u;
      assert UseCaseInRange(d, d.useCases[i]);
      ReopenedUseCaseInRange(d, d.useCases[i]);
    }
  }

  lemma ReopenedHasMethod(d: ProjectD, m: MethodD)
    requires HasMethod(d, m)
    ensures HasMethod(Reopened(d), m) && HasMethod(Reopened(d), m.(exitSignal := None))
  {
    var r := Reopened(d);
    forall s | s in m.statements ensures HasStatement(r, s) {
      assert HasStatement(d, s);
    }
  }

  lemma ReopenedUseCaseInRange(d: ProjectD, ud: UseCaseD)
    requires UseCaseInRange(d, ud)
    ensures UseCaseInRange(Reopened(d), ReopenedUseCase(ud))
  {
    var r, u := Reopened(d), ReopenedUseCase(ud);
    forall l | l in u.lifelines ensures LifelineInRange(r, l) {
      var k :| 0 <= k < |u.lifelines| && u.lifelines[k] == l;
      assert LifelineInRange(d, ud.lifelines[k]);
    }
    forall a | a in u.activations ensures ActivationInRange(r, u, a) {
      assert ActivationInRange(d, ud, a);
    }
  }

  lemma ObjectsOwned(q: Project, l: Layout)
    requires |l.types| == |l.parts| && l.repr == ObjectsOf(q, l.types, l.parts, l.useCases, l.lifelines)
    ensures Owned(q, l)
  {
    forall i | 0 <= i < |l.types| ensures OwnedType(l.types[i], l, i) {
      assert l.types[i] in l.types;
      forall j | 0 <= j < |l.parts[i].mySignals| ensures l.parts[i].mySignals[j] in l.repr {
      }
      forall j | 0 <= j < |l.parts[i].mySlots| ensures l.parts[i].mySlots[j] in l.repr {
      }
    }
  }

  lemma ProjectAssembled(q: Project, d: ProjectD, l: Layout)
    requires InRange(d) && q.name == d.name && q.types == l.types && q.useCases == l.useCases
    requires |l.types| == |l.parts| == |d.types| && |l.useCases| == |l.lifelines| == |d.useCases|
    requires Distinct(l.types) && Distinct(l.useCases)
    requires l.repr == ObjectsOf(q, l.types, l.parts, l.useCases, l.lifelines)
    requires forall i | 0 <= i < |l.parts| :: TypeRep(l.types[i], ReopenedType(d.types[i]), l.parts[i], l.types)
    requires forall i | 0 <= i < |l.parts| :: NoExits(l.parts[i].mySlots)
    requires forall i | 0 <= i < |l.parts| :: BodiesRead(l.parts[i].mySlots, d.types[i].mySlots, l)
    requires forall i | 0 <= i < |l.useCases| ::
               && UseCaseRep(l.useCases[i], ReopenedUseCase(d.useCases[i]), l.lifelines[i], l)
               && LifelinesRep(l.lifelines[i], ReopenedUseCase(d.useCases[i]).lifelines, l.useCases[i], l)
               && ActivationsRep(l.useCases[i].activations, d.useCases[i].activations, l.lifelines[i], l)
    ensures Represents(q, Reopened(d), l)
  {
    hide TypeRep; hide UseCaseRep; hide LifelinesRep; hide ActivationsRep; hide InRange; hide StatementsRep;
    ReopenedInRange(d);
    ObjectsOwned(q, l);
    forall i | 0 <= i < |l.useCases|
      ensures ActivationsRep(l.useCases[i].activations, Reopened(d).useCases[i].activations, l.lifelines[i], l)
    {
    }
    forall i | 0 <= i < |l.parts| ensures BodiesRep(l.parts[i].mySlots, Reopened(d).types[i].mySlots, l) {
      forall j | 0 <= j < |l.parts[i].mySlots|
        ensures BodyRep(l.parts[i].mySlots[j], Reopened(d).types[i].mySlots[j], l)
      {
        assert StatementsRep(l.parts[i].mySlots[j].statements, d.types[i].mySlots[j].statements, l);
      }
    }
  }

  function EncBodyPart(d: ProjectD, rest: seq<Token>): seq<Token>
  {
    Flat(d.types, EncBodies) + (Flat(d.useCases, EncActivations) + rest)
  }

  lemma Regroup(head: seq<Token>, a: seq<Token>, b: seq<Token>, c: seq<Token>, e: seq<Token>, f: seq<Token>, g: seq<Token>,
                h: seq<Token>, tail: seq<Token>)
    ensures head + (a + (b + (c + (e + (f + (g + h)))))) + tail
            == head + (a + (b + (c + (e + (f + (g + (h + tail)))))))
  {
    assert (g + h) + tail == g + (h + tail);
    assert (f + (g + h)) + tail == f + (g + (h + tail));
    assert (e + (f + (g + h))) + tail == e + (f + (g + (h + tail)));
    assert (c + (e + (f + (g + h)))) + tail == c + (e + (f + (g + (h + tail))));
    assert (b + (c + (e + (f + (g + h))))) + tail == b + (c + (e + (f + (g + (h + tail)))));
    assert (a + (b + (c + (e + (f + (g + h)))))) + tail == a + (b + (c + (e + (f + (g + (h + tail))))));
  }

  lemma ProjectTokens(d: ProjectD, tail: seq<Token>)
    ensures EncProject(d) + tail
            == [U8(1), Str(d.name)] + EncTypePart(d, EncUseCases(d) + EncBodyPart(d, tail))
  {
    hide EncTypes; hide EncAncestors; hide EncUseCases; hide Flat;
    Regroup([U8(1), Str(d.name)], EncTypes(d), EncAncestors(d), Flat(d.types, EncSpecifics), Flat(d.types, EncMembers),
            EncUseCases(d), Flat(d.types, EncBodies), Flat(d.useCases, EncActivations), tail);
  }

  // Statements and activations, once everything they point at exists.
  method OpenBodies(s: DataStream, q: Project, ghost d: ProjectD, ghost l: Layout, ghost tail: seq<Token>)
    requires s.Holds(EncBodyPart(d, tail)) && InRange(d) && Distinct(q.types) && Distinct(q.useCases)
    requires TypesReady(q, d, l) && LifelinesReady(q, d, l)
    requires forall i | 0 <= i < |l.parts| :: Distinct(l.parts[i].mySlots) && Empty(l.parts[i].mySlots)
    requires forall u | u in q.useCases :: u.activations == []
    modifies s`next, l.allSlots`statements, q.useCases`activations
    ensures s.Holds(tail) && |l.parts| == |d.types| && |q.useCases| == |l.lifelines| == |d.useCases|
    ensures forall i | 0 <= i < |l.parts| :: BodiesRead(l.parts[i].mySlots, d.types[i].mySlots, l)
    ensures forall i | 0 <= i < |q.useCases| ::
              ActivationsRep(q.useCases[i].activations, d.useCases[i].activations, l.lifelines[i], l)
  {
    hide TypesReady; hide LifelinesReady; hide BodiesRead; hide ActivationsRep; hide Empty; hide InRange;
    ReadBodies(s, q, d, l, Flat(d.useCases, EncActivations) + tail);
    ReadActivations(s, q, d, l, tail);
  }

  method OpenVersion1(s: DataStream, q: Project, ghost d: ProjectD, ghost tail: seq<Token>) returns (ghost l: Layout)
    requires q.types == [] && q.useCases == [] && Openable(d)
    requires s.Holds([Str(d.name)] + EncTypePart(d, EncUseCases(d) + EncBodyPart(d, tail)))
    modifies s`next, q
    ensures s.Holds(tail) && Represents(q, Reopened(d), l)
  {
    hide Represents; hide TypeRep; hide UseCaseRep; hide LifelinesRep; hide EncTypes; hide EncAncestors; hide EncUseCases;
    hide TypesReady; hide LifelinesReady; hide BodiesRead; hide ActivationsRep; hide ReopenedType; hide EncBodyPart;
    hide TypeInRange; hide UseCaseInRange; hide CleanType; hide Empty; hide NoExits; hide ObjectsOf; hide ReopenedUseCase;
    Ahead(s, [Str(d.name)], EncTypePart(d, EncUseCases(d) + EncBodyPart(d, tail)));
    q.name := s.GetString();
    ghost var parts := OpenTypes(s, q, d, EncUseCases(d) + EncBodyPart(d, tail));
    l := OpenUseCases(s, q, d, parts, EncBodyPart(d, tail));
    OpenBodies(s, q, d, l, tail);
    ProjectAssembled(q, d, l);
  }

  // deserializeProjectFromIoDevice into a project that is still empty.
  method Open(s: DataStream, q: Project, ghost d: ProjectD, ghost tail: seq<Token>) returns (ghost l: Layout)
    requires q.types == [] && q.useCases == [] && s.next < |s.tokens| && s.tokens[s.next].U8?
    requires s.tokens[s.next] == U8(1) ==> s.Holds(EncProject(d) + tail) && Openable(d)
    modifies s`next, q
    ensures s.tokens[old(s.next)] == U8(1) ==> s.Holds(tail) && Represents(q, Reopened(d), l)
    ensures s.tokens[old(s.next)] != U8(1) ==> q.name == old(q.name) && q.types == [] && q.useCases == []
  {
    hide Represents; hide EncProject; hide Openable; hide EncTypePart; hide EncUseCases; hide EncBodyPart;
    ghost var body := EncTypePart(d, EncUseCases(d) + EncBodyPart(d, tail));
    ProjectTokens(d, tail);
    assert [U8(1), Str(d.name)] + body == [U8(1)] + ([Str(d.name)] + body);
    l := Layout([], [], [], [], {}, {});
    if s.tokens[s.next] == U8(1) {
      Ahead(s, [U8(1)], [Str(d.name)] + body);
    }
    var serializationVersion := s.GetU8();
    if serializationVersion != 1 {
      return;
    }
    l := OpenVersion1(s, q, d, tail);
  }
}
