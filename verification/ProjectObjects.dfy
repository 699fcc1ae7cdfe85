// The objects of a Design = Implementation project as they live in memory, and the
// positional description of such an object graph: the same graph with every pointer
// replaced by the place of its target in the list that owns it.
module ProjectObjects {
  import opened Wrappers
  import opened Text
  import opened Lists

  datatype Point = Point(x: real, y: real)

  // Enums travel as quint8.
  type Enum8 = n: int | 0 <= n < 256
  const VISIBILITY_PRIVATE: Enum8 := 2
  const NOT_POINTER: Enum8 := 0
  const DOES_NOT_OWN_POINTED_TO_DATA: Enum8 := 2
  const USE_CASES_ROOT_CLASS_LIFELINE: Enum8 := 1
  const CHILD_MEMBER_OF_OTHER_CLASS_LIFELINE: Enum8 := 2

  // typeCategory()
  const CLASS := 0
  const IMPLICITLY_SHARED := 1
  const DEFINED_ELSEWHERE := 2
  const BUILT_IN := 3

  // ---------- the objects ----------
  // A field is const here when neither saving nor opening changes it once its object exists.

  class Type {
    const category: int
    const name: string
    var position: Point
    var ancestors: seq<Ancestor>
    var mySignals: seq<Method>
    var mySlots: seq<Method>
    var members: seq<Member>
    var privateMethods: seq<string>

    constructor (category: int, name: string)
      ensures this.category == category && this.name == name
      ensures ancestors == [] && mySignals == [] && mySlots == [] && members == [] && privateMethods == []
    {
      this.category, this.name := category, name;
      position := Point(0.0, 0.0);
      ancestors, mySignals, mySlots, members, privateMethods := [], [], [], [], [];
    }
  }

  datatype Ancestor = Ancestor(visibility: Enum8, type_: Type)

  // A signal or a slot; only slots have statements and an exit signal.
  class Method {
    const name: string
    const parentClass: Type
    var arguments: seq<Argument>
    var statements: seq<Statement>
    var exitSignal: Method?

    constructor (name: string, parentClass: Type)
      ensures this.name == name && this.parentClass == parentClass
      ensures arguments == [] && statements == [] && exitSignal == null
    {
      this.name, this.parentClass := name, parentClass;
      arguments, statements, exitSignal := [], [], null;
    }
  }

  // TypeInstance::parseQualifiedTypeString: the qualified type must contain the type's name
  // exactly once; anything else is a qFatal.
  ghost predicate Qualifies(qualified: string, typeName: string)
  {
    typeName != "" && |Split(qualified, typeName)| == 2
  }

  class Argument {
    const parentMethod: Method
    const type_: Type
    const lhs: string
    const rhs: string
    const name: string

    constructor (parentMethod: Method, type_: Type, qualified: string, name: string)
      requires Qualifies(qualified, type_.name)
      ensures this.parentMethod == parentMethod && this.type_ == type_ && this.name == name
      ensures [lhs, rhs] == Split(qualified, type_.name)
    {
      this.parentMethod, this.type_, this.name := parentMethod, type_, name;
      var parts := Split(qualified, type_.name);
      lhs, rhs := parts[0], parts[1];
    }
  }

  // Set exactly for Q_PROPERTY members.
  datatype PropertyInfo = PropertyInfo(propertyName: string, readOnly: bool, notifiesOnChange: bool)

  function FirstCharacterToUpper(s: string): string
  {
    if s != "" && 'a' <= s[0] <= 'z' then [s[0] - 'a' + 'A'] + s[1..] else s
  }

  function MemberNameForProperty(propertyName: string): (r: string)
    ensures |r| == |propertyName| + 2
  {
    "m_" + FirstCharacterToUpper(propertyName)
  }

  // What parseQualifiedTypeString concludes about ownership.
  function ParsedOwnership(rhs: string): Enum8
  {
    if '*' in rhs then DOES_NOT_OWN_POINTED_TO_DATA else NOT_POINTER
  }

  class Member {
    const parentType: Type
    const type_: Type
    const lhs: string
    const rhs: string
    const name: string
    const hasInit: bool
    const optionalInit: string
    const visibility: Enum8
    const ownership: Enum8
    const property: Option<PropertyInfo>

    // createNewNonFunctionMember with a name that is not blank
    constructor (parentType: Type, type_: Type, qualified: string, name: string, visibility: Enum8, ownership: Enum8,
                 hasInit: bool, optionalInit: string)
      requires Qualifies(qualified, type_.name) && Trim(name) != ""
      ensures this.parentType == parentType && this.type_ == type_ && this.name == name
      ensures [lhs, rhs] == Split(qualified, type_.name)
      ensures this.hasInit == hasInit && this.optionalInit == optionalInit
      ensures this.visibility == visibility && this.ownership == ownership && property == None
    {
      this.parentType, this.type_, this.name := parentType, type_, name;
      this.hasInit, this.optionalInit := hasInit, optionalInit;
      this.visibility, this.ownership, property := visibility, ownership, None;
      var parts := Split(qualified, type_.name);
      lhs, rhs := parts[0], parts[1];
    }

    // createNewProperty
    constructor OfProperty(parentType: Type, type_: Type, qualified: string, propertyName: string,
                           hasInit: bool, optionalInit: string, readOnly: bool, notifiesOnChange: bool)
      requires Qualifies(qualified, type_.name)
      ensures this.parentType == parentType && this.type_ == type_
      ensures this.name == MemberNameForProperty(propertyName)
      ensures [lhs, rhs] == Split(qualified, type_.name)
      ensures this.hasInit == hasInit && this.optionalInit == optionalInit
      ensures visibility == VISIBILITY_PRIVATE && ownership == ParsedOwnership(rhs)
      ensures property == Some(PropertyInfo(propertyName, readOnly, notifiesOnChange))
    {
      this.parentType, this.type_ := parentType, type_;
      this.name := MemberNameForProperty(propertyName);
      this.hasInit, this.optionalInit := hasInit, optionalInit;
      var parts := Split(qualified, type_.name);
      lhs, rhs := parts[0], parts[1];
      visibility, ownership := VISIBILITY_PRIVATE, ParsedOwnership(parts[1]);
      property := Some(PropertyInfo(propertyName, readOnly, notifiesOnChange));
    }
  }

  // A variable passed along by an emit or an invoke.
  datatype ContextVariable = SlotArgument(argument: Argument) | MemberVariable(member: Member)

  datatype Statement =
    | SignalEmission(emitted: Method, context: seq<ContextVariable>)
    | SlotInvocation(lifeline: Lifeline, invoked: Method, context: seq<ContextVariable>)
    | RawCppChunk(lines: seq<string>)

  class Lifeline {
    const class_: Type
    const position: Point
    var instanceType: Enum8
    var instance: Member?
    var mySlots: seq<Method>
    const parentUseCase: UseCase

    constructor (class_: Type, parentUseCase: UseCase, position: Point)
      ensures this.class_ == class_ && this.parentUseCase == parentUseCase && this.position == position
      ensures instanceType == 0 && instance == null && mySlots == []
    {
      this.class_, this.parentUseCase, this.position := class_, parentUseCase, position;
      instanceType, instance, mySlots := 0, null, [];
    }
  }

  datatype Attached = Attached(lifelineIndex: int, slot: Method)
  datatype Activation = Activation(sourceLifeline: Lifeline, sourceSlot: Method, statementIndex: int,
                                   attached: seq<Attached>)

  class UseCase {
    const name: string
    var actor: Option<Point>
    var lifelines: seq<Lifeline>
    var entryLifeline: Lifeline?
    var entrySlot: Method?
    var activations: seq<Activation>

    constructor (name: string)
      ensures this.name == name && actor == None && lifelines == [] && entryLifeline == null && activations == []
    {
      this.name := name;
      actor, lifelines, entryLifeline, entrySlot, activations := None, [], null, null, [];
    }
  }

  class Project {
    var name: string
    var types: seq<Type>
    var useCases: seq<UseCase>

    constructor ()
      ensures types == [] && useCases == []
    {
      name, types, useCases := "", [], [];
    }
  }

  // ---------- the positional description ----------

  // The index of an owner and the index of one of the things it owns.
  datatype Ref = Ref(owner: nat, index: nat)

  datatype ArgD = ArgD(lhs: string, type_: nat, rhs: string, name: string)
  datatype ContextD = SlotArgumentD(slot: Ref, argument: nat) | MemberVariableD(member: Ref)
  datatype StatementD =
    | SignalEmissionD(emitted: Ref, context: seq<ContextD>)
    | SlotInvocationD(lifeline: Ref, invoked: Ref, context: seq<ContextD>)
    | RawCppChunkD(lines: seq<string>)
  datatype MethodD = MethodD(name: string, arguments: seq<ArgD>, statements: seq<StatementD>, exitSignal: Option<Ref>)
  datatype MemberD = MemberD(lhs: string, type_: nat, rhs: string, name: string, hasInit: bool, optionalInit: string,
                             visibility: Enum8, ownership: Enum8, property: Option<PropertyInfo>)
  datatype AncestorD = AncestorD(visibility: Enum8, type_: nat)
  datatype TypeD = TypeD(category: int, name: string, position: Point, ancestors: seq<AncestorD>,
                         mySignals: seq<MethodD>, mySlots: seq<MethodD>, members: seq<MemberD>,
                         privateMethods: seq<string>)
  datatype LifelineD = LifelineD(class_: nat, position: Point, instanceType: Enum8, instance: Ref, mySlots: seq<Ref>)
  datatype EntryD = EntryD(lifeline: nat, slot: nat)
  datatype AttachedD = AttachedD(lifelineIndex: int, slot: Ref)
  datatype ActivationD = ActivationD(sourceLifeline: nat, sourceSlot: Ref, statementIndex: int, attached: seq<AttachedD>)
  datatype UseCaseD = UseCaseD(name: string, actor: Option<Point>, lifelines: seq<LifelineD>, entry: Option<EntryD>,
                               activations: seq<ActivationD>)
  datatype ProjectD = ProjectD(name: string, types: seq<TypeD>, useCases: seq<UseCaseD>)

  // Which object sits at which place; the set of all slots and the set of all objects.
  datatype Layout = Layout(types: seq<Type>, parts: seq<Parts>, useCases: seq<UseCase>, lifelines: seq<seq<Lifeline>>,
                           allSlots: set<Method>, repr: set<object>)

  // The objects one type owns.
  datatype Parts = Parts(mySignals: seq<Method>, signalArgs: seq<seq<Argument>>,
                         mySlots: seq<Method>, slotArgs: seq<seq<Argument>>, members: seq<Member>)

  // ---------- every reference of a description names an existing place ----------

  predicate HasType(d: ProjectD, i: nat) { i < |d.types| }

  predicate HasClass(d: ProjectD, i: nat) { i < |d.types| && d.types[i].category == CLASS }

  predicate HasSignal(d: ProjectD, r: Ref) { HasClass(d, r.owner) && r.index < |d.types[r.owner].mySignals| }

  predicate HasSlot(d: ProjectD, r: Ref) { HasClass(d, r.owner) && r.index < |d.types[r.owner].mySlots| }

  predicate HasMember(d: ProjectD, r: Ref) { HasType(d, r.owner) && r.index < |d.types[r.owner].members| }

  predicate HasLifeline(d: ProjectD, r: Ref) { r.owner < |d.useCases| && r.index < |d.useCases[r.owner].lifelines| }

  predicate HasContext(d: ProjectD, c: ContextD)
  {
    match c
    case SlotArgumentD(s, k) => HasSlot(d, s) && k < |d.types[s.owner].mySlots[s.index].arguments|
    case MemberVariableD(m) => HasMember(d, m)
  }

  predicate HasStatement(d: ProjectD, s: StatementD)
  {
    match s
    case SignalEmissionD(sig, ctx) => HasSignal(d, sig) && forall c | c in ctx :: HasContext(d, c)
    case SlotInvocationD(l, slot, ctx) => HasLifeline(d, l) && HasSlot(d, slot) && forall c | c in ctx :: HasContext(d, c)
    case RawCppChunkD(_) => true
  }

  predicate HasMethod(d: ProjectD, m: MethodD)
  {
    && (forall a | a in m.arguments :: HasType(d, a.type_))
    && (forall s | s in m.statements :: HasStatement(d, s))
    && (m.exitSignal.Some? ==> HasSignal(d, m.exitSignal.value))
  }

  predicate TypeInRange(d: ProjectD, t: TypeD)
  {
    && CLASS <= t.category <= BUILT_IN
    && (forall a | a in t.ancestors :: HasType(d, a.type_))
    && (forall m | m in t.mySignals :: HasMethod(d, m) && m.statements == [] && m.exitSignal == None)
    && (forall m | m in t.mySlots :: HasMethod(d, m))
    && (forall m | m in t.members :: HasType(d, m.type_))
    && (t.category != CLASS ==> t.mySignals == [] && t.mySlots == [] && t.privateMethods == [])
    && (t.category != CLASS ==> forall m | m in t.members :: m.property == None)
    && (t.category >= DEFINED_ELSEWHERE ==> t.members == [])
  }

  predicate LifelineInRange(d: ProjectD, l: LifelineD)
  {
    && HasClass(d, l.class_)
    && (l.instanceType == CHILD_MEMBER_OF_OTHER_CLASS_LIFELINE ==> HasMember(d, l.instance) && HasClass(d, l.instance.owner))
    && (forall s | s in l.mySlots :: HasSlot(d, s))
  }

  predicate ActivationInRange(d: ProjectD, u: UseCaseD, a: ActivationD)
  {
    a.sourceLifeline < |u.lifelines| && HasSlot(d, a.sourceSlot) && forall x | x in a.attached :: HasSlot(d, x.slot)
  }

  predicate UseCaseInRange(d: ProjectD, u: UseCaseD)
  {
    && (forall l | l in u.lifelines :: LifelineInRange(d, l))
    && (u.entry.Some? ==> u.entry.value.lifeline < |u.lifelines|
                          && HasSlot(d, Ref(u.lifelines[u.entry.value.lifeline].class_, u.entry.value.slot)))
    && (forall a | a in u.activations :: ActivationInRange(d, u, a))
  }

  predicate InRange(d: ProjectD)
  {
    && (forall t | t in d.types :: TypeInRange(d, t))
    && (forall u | u in d.useCases :: UseCaseInRange(d, u))
  }

  // ---------- a project in memory has this description ----------

  ghost predicate ArgRep(a: Argument, ad: ArgD, m: Method, types: seq<Type>)
  {
    && ad.type_ < |types|
    && a.parentMethod == m && a.type_ == types[ad.type_] && a.lhs == ad.lhs && a.rhs == ad.rhs && a.name == ad.name
  }

  ghost predicate MethodRep(m: Method, md: MethodD, t: Type, args: seq<Argument>, types: seq<Type>)
    reads m`arguments
  {
    && m.name == md.name && m.parentClass == t && m.arguments == args
    && |args| == |md.arguments| && Distinct(args)
    && forall k | 0 <= k < |args| :: ArgRep(args[k], md.arguments[k], m, types)
  }

  ghost predicate MethodsRep(ms: seq<Method>, mds: seq<MethodD>, t: Type, argss: seq<seq<Argument>>, types: seq<Type>)
    reads ms`arguments
  {
    && |ms| == |mds| == |argss| && Distinct(ms)
    && forall j | 0 <= j < |ms| :: MethodRep(ms[j], mds[j], t, argss[j], types)
  }

  ghost predicate MemberRep(m: Member, md: MemberD, t: Type, types: seq<Type>)
  {
    && md.type_ < |types|
    && m.parentType == t && m.type_ == types[md.type_] && m.lhs == md.lhs && m.rhs == md.rhs && m.name == md.name
    && m.hasInit == md.hasInit && m.optionalInit == md.optionalInit
    && m.visibility == md.visibility && m.ownership == md.ownership && m.property == md.property
  }

  ghost predicate MembersRep(ms: seq<Member>, mds: seq<MemberD>, t: Type, types: seq<Type>)
  {
    && |ms| == |mds| && Distinct(ms)
    && forall j | 0 <= j < |ms| :: MemberRep(ms[j], mds[j], t, types)
  }

  ghost predicate AncestorsRep(as_: seq<Ancestor>, ads: seq<AncestorD>, types: seq<Type>)
  {
    && |as_| == |ads|
    && forall j | 0 <= j < |as_| :: ads[j].type_ < |types| && as_[j] == Ancestor(ads[j].visibility, types[ads[j].type_])
  }

  ghost predicate ContextRep(c: ContextVariable, cd: ContextD, l: Layout)
  {
    match cd
    case SlotArgumentD(s, k) =>
      && s.owner < |l.parts| && s.index < |l.parts[s.owner].slotArgs| && k < |l.parts[s.owner].slotArgs[s.index]|
      && c == SlotArgument(l.parts[s.owner].slotArgs[s.index][k])
    case MemberVariableD(m) =>
      m.owner < |l.parts| && m.index < |l.parts[m.owner].members| && c == MemberVariable(l.parts[m.owner].members[m.index])
  }

  ghost predicate ContextsRep(cs: seq<ContextVariable>, cds: seq<ContextD>, l: Layout)
  {
    |cs| == |cds| && forall k | 0 <= k < |cs| :: ContextRep(cs[k], cds[k], l)
  }

  ghost predicate SignalAt(l: Layout, r: Ref, m: Method)
  {
    r.owner < |l.parts| && r.index < |l.parts[r.owner].mySignals| && m == l.parts[r.owner].mySignals[r.index]
  }

  ghost predicate SlotAt(l: Layout, r: Ref, m: Method)
  {
    r.owner < |l.parts| && r.index < |l.parts[r.owner].mySlots| && m == l.parts[r.owner].mySlots[r.index]
  }

  ghost predicate LifelineAt(l: Layout, r: Ref, x: Lifeline)
  {
    r.owner < |l.lifelines| && r.index < |l.lifelines[r.owner]| && x == l.lifelines[r.owner][r.index]
  }

  ghost predicate StatementRep(s: Statement, sd: StatementD, l: Layout)
  {
    match sd
    case SignalEmissionD(sig, ctx) =>
      s.SignalEmission? && SignalAt(l, sig, s.emitted) && ContextsRep(s.context, ctx, l)
    case SlotInvocationD(ll, slot, ctx) =>
      s.SlotInvocation? && LifelineAt(l, ll, s.lifeline) && SlotAt(l, slot, s.invoked) && ContextsRep(s.context, ctx, l)
    case RawCppChunkD(lines) => s == RawCppChunk(lines)
  }

  ghost predicate StatementsRep(ss: seq<Statement>, sds: seq<StatementD>, l: Layout)
  {
    |ss| == |sds| && forall k | 0 <= k < |ss| :: StatementRep(ss[k], sds[k], l)
  }

  // The part of a slot that is filled in after all use cases exist.
  ghost predicate BodyRep(m: Method, md: MethodD, l: Layout)
    reads m`statements, m`exitSignal
  {
    && StatementsRep(m.statements, md.statements, l)
    && match md.exitSignal
       case None => m.exitSignal == null
       case Some(r) => m.exitSignal != null && SignalAt(l, r, m.exitSignal)
  }

  ghost predicate LifelineRep(x: Lifeline, ld: LifelineD, u: UseCase, l: Layout)
    reads x`instanceType, x`instance, x`mySlots
  {
    && ld.class_ < |l.types| && x.class_ == l.types[ld.class_] && x.parentUseCase == u && x.position == ld.position
    && x.instanceType == ld.instanceType
    && (ld.instanceType == CHILD_MEMBER_OF_OTHER_CLASS_LIFELINE ==>
          && ld.instance.owner < |l.parts| && ld.instance.index < |l.parts[ld.instance.owner].members|
          && x.instance == l.parts[ld.instance.owner].members[ld.instance.index])
    && |x.mySlots| == |ld.mySlots|
    && forall k | 0 <= k < |ld.mySlots| :: SlotAt(l, ld.mySlots[k], x.mySlots[k])
  }

  ghost predicate LifelinesRep(xs: seq<Lifeline>, lds: seq<LifelineD>, u: UseCase, l: Layout)
    reads xs`instanceType, xs`instance, xs`mySlots
  {
    && |xs| == |lds| && Distinct(xs)
    && forall k | 0 <= k < |xs| :: LifelineRep(xs[k], lds[k], u, l)
  }

  ghost predicate ActivationRep(a: Activation, ad: ActivationD, xs: seq<Lifeline>, l: Layout)
  {
    && ad.sourceLifeline < |xs| && a.sourceLifeline == xs[ad.sourceLifeline]
    && SlotAt(l, ad.sourceSlot, a.sourceSlot) && a.statementIndex == ad.statementIndex
    && |a.attached| == |ad.attached|
    && forall k | 0 <= k < |ad.attached| ::
         a.attached[k].lifelineIndex == ad.attached[k].lifelineIndex && SlotAt(l, ad.attached[k].slot, a.attached[k].slot)
  }

  ghost predicate ActivationsRep(as_: seq<Activation>, ads: seq<ActivationD>, xs: seq<Lifeline>, l: Layout)
  {
    |as_| == |ads| && forall k | 0 <= k < |as_| :: ActivationRep(as_[k], ads[k], xs, l)
  }

  ghost predicate UseCaseRep(u: UseCase, ud: UseCaseD, xs: seq<Lifeline>, l: Layout)
    reads u`actor, u`lifelines, u`entryLifeline, u`entrySlot
  {
    && u.name == ud.name && u.actor == ud.actor && u.lifelines == xs && |xs| == |ud.lifelines|
    && match ud.entry
       case None => u.entryLifeline == null
       case Some(e) =>
         && e.lifeline < |xs| && u.entryLifeline == xs[e.lifeline] && u.entrySlot != null
         && SlotAt(l, Ref(ud.lifelines[e.lifeline].class_, e.slot), u.entrySlot)
  }

  // The project p, its objects laid out as l, has the description d.
  ghost predicate Represents(p: Project, d: ProjectD, l: Layout)
    reads l.repr
  {
    && InRange(d) && ShapeOf(d, l) && Owned(p, l)
    && p.name == d.name && p.types == l.types && p.useCases == l.useCases
    && Distinct(l.types) && Distinct(l.useCases)
    && (forall i | 0 <= i < |l.types| :: TypeRep(l.types[i], d.types[i], l.parts[i], l.types))
    && (forall i | 0 <= i < |l.types| :: BodiesRep(l.parts[i].mySlots, d.types[i].mySlots, l))
    && (forall i | 0 <= i < |l.useCases| :: UseCaseRep(l.useCases[i], d.useCases[i], l.lifelines[i], l))
    && (forall i | 0 <= i < |l.useCases| :: LifelinesRep(l.lifelines[i], d.useCases[i].lifelines, l.useCases[i], l))
    && (forall i | 0 <= i < |l.useCases| ::
          ActivationsRep(l.useCases[i].activations, d.useCases[i].activations, l.lifelines[i], l))
  }

  ghost predicate ShapeOf(d: ProjectD, l: Layout)
  {
    && |l.types| == |l.parts| == |d.types|
    && |l.useCases| == |l.lifelines| == |d.useCases|
  }

  ghost predicate Owned(p: Project, l: Layout)
  {
    && p in l.repr
    && |l.types| == |l.parts|
    && (forall i | 0 <= i < |l.types| :: OwnedType(l.types[i], l, i))
    && (forall u | u in l.useCases :: u in l.repr)
    && (forall i, j | 0 <= i < |l.lifelines| && 0 <= j < |l.lifelines[i]| :: l.lifelines[i][j] in l.repr)
  }

  ghost predicate OwnedType(t: Type, l: Layout, i: nat)
    requires i < |l.types| == |l.parts|
  {
    && t in l.repr
    && (forall j | 0 <= j < |l.parts[i].mySignals| :: l.parts[i].mySignals[j] in l.repr)
    && (forall j | 0 <= j < |l.parts[i].mySlots| :: l.parts[i].mySlots[j] in l.repr)
  }

  ghost predicate TypeRep(t: Type, td: TypeD, parts: Parts, types: seq<Type>)
    reads t, parts.mySignals`arguments, parts.mySlots`arguments
  {
    && t.category == td.category && t.name == td.name
    && (t.category < DEFINED_ELSEWHERE ==> t.position == td.position)
    && AncestorsRep(t.ancestors, td.ancestors, types)
    && t.mySignals == parts.mySignals && MethodsRep(parts.mySignals, td.mySignals, t, parts.signalArgs, types)
    && t.mySlots == parts.mySlots && MethodsRep(parts.mySlots, td.mySlots, t, parts.slotArgs, types)
    && t.members == parts.members && MembersRep(parts.members, td.members, t, types)
    && t.privateMethods == td.privateMethods
  }

  ghost predicate BodiesRep(ms: seq<Method>, mds: seq<MethodD>, l: Layout)
    reads ms`statements, ms`exitSignal
  {
    |ms| == |mds| && forall j | 0 <= j < |ms| :: BodyRep(ms[j], mds[j], l)
  }
}
