// The QDataStream a project is saved to, one token per streamed value, and the token
// sequence that a positional description stands for.
module ProjectStream {
  import opened Wrappers
  import opened Lists
  import opened ProjectObjects

  datatype Token =
    | U8(u8: Enum8)
    | I32(i32: int)
    | Str(str: string)
    | Flag(flag: bool)
    | Pos(pos: Point)
    | SlotId(slotId: (int, int))
    | SlotIds(slotIds: seq<(int, int)>)
    | Strings(strings: seq<string>)

  class DataStream {
    var tokens: seq<Token>
    var next: nat

    constructor ()
      ensures tokens == [] && next == 0
    {
      tokens, next := [], 0;
    }

    ghost function Rest(): seq<Token>
      reads this
      requires next <= |tokens|
    {
      tokens[next..]
    }

    // What is left to read is exactly this.
    ghost predicate Holds(left: seq<Token>)
      reads this
    {
      next <= |tokens| && Rest() == left
    }

    // operator>>, one for each type a reader asks for
    method GetU8() returns (b: Enum8)
      requires next < |tokens| && tokens[next].U8?
      modifies this`next
      ensures next == old(next) + 1 && tokens[old(next)] == U8(b)
    {
      b, next := tokens[next].u8, next + 1;
    }

    method GetInt() returns (n: int)
      requires next < |tokens| && tokens[next].I32?
      modifies this`next
      ensures next == old(next) + 1 && tokens[old(next)] == I32(n)
    {
      n, next := tokens[next].i32, next + 1;
    }

    method GetString() returns (s: string)
      requires next < |tokens| && tokens[next].Str?
      modifies this`next
      ensures next == old(next) + 1 && tokens[old(next)] == Str(s)
    {
      s, next := tokens[next].str, next + 1;
    }

    method GetFlag() returns (b: bool)
      requires next < |tokens| && tokens[next].Flag?
      modifies this`next
      ensures next == old(next) + 1 && tokens[old(next)] == Flag(b)
    {
      b, next := tokens[next].flag, next + 1;
    }

    method GetPoint() returns (p: Point)
      requires next < |tokens| && tokens[next].Pos?
      modifies this`next
      ensures next == old(next) + 1 && tokens[old(next)] == Pos(p)
    {
      p, next := tokens[next].pos, next + 1;
    }

    method GetSlotId() returns (id: (int, int))
      requires next < |tokens| && tokens[next].SlotId?
      modifies this`next
      ensures next == old(next) + 1 && tokens[old(next)] == SlotId(id)
    {
      id, next := tokens[next].slotId, next + 1;
    }

    method GetSlotIds() returns (ids: seq<(int, int)>)
      requires next < |tokens| && tokens[next].SlotIds?
      modifies this`next
      ensures next == old(next) + 1 && tokens[old(next)] == SlotIds(ids)
    {
      ids, next := tokens[next].slotIds, next + 1;
    }

    method GetStrings() returns (ss: seq<string>)
      requires next < |tokens| && tokens[next].Strings?
      modifies this`next
      ensures next == old(next) + 1 && tokens[old(next)] == Strings(ss)
    {
      ss, next := tokens[next].strings, next + 1;
    }
  }

  // ---------- what each part of a description is saved as ----------

  function EncArg(a: ArgD): seq<Token> { [Str(a.lhs), I32(a.type_), Str(a.rhs), Str(a.name)] }

  function EncMethod(m: MethodD): seq<Token>
  {
    [Str(m.name), I32(|m.arguments|)] + Flat(m.arguments, EncArg)
  }

  function EncTypeHead(t: TypeD): seq<Token> { [I32(t.category), Str(t.name)] }

  function EncAncestor(a: AncestorD): seq<Token> { [U8(a.visibility), I32(a.type_)] }

  datatype AncestorEntry = AncestorEntry(type_: nat, ancestors: seq<AncestorD>)

  // Only types with at least one ancestor are written, each behind its own id.
  function AncestorEntries(ts: seq<TypeD>, from: nat): seq<AncestorEntry>
    requires from <= |ts|
    decreases |ts| - from
  {
    if from == |ts| then []
    else
      var rest := AncestorEntries(ts, from + 1);
      if ts[from].ancestors == [] then rest else [AncestorEntry(from, ts[from].ancestors)] + rest
  }

  function EncAncestorEntry(e: AncestorEntry): seq<Token>
  {
    [I32(e.type_), I32(|e.ancestors|)] + Flat(e.ancestors, EncAncestor)
  }

  function EncMethods(ms: seq<MethodD>): seq<Token> { [I32(|ms|)] + Flat(ms, EncMethod) }

  function EncSpecifics(t: TypeD): seq<Token>
  {
    (if t.category < DEFINED_ELSEWHERE then [Pos(t.position)] else [])
    + (if t.category == CLASS then EncMethods(t.mySignals) + EncMethods(t.mySlots) else [])
  }

  function EncMemberFields(m: MemberD): seq<Token>
  {
    [Str(m.lhs), I32(m.type_), Str(m.rhs), Str(m.name), Flag(m.hasInit), Str(m.optionalInit),
     U8(m.visibility), U8(m.ownership)]
  }

  function EncClassMember(m: MemberD): seq<Token>
  {
    EncMemberFields(m)
    + match m.property
      case None => [Flag(false)]
      case Some(p) => [Flag(true), Flag(p.readOnly), Flag(p.notifiesOnChange)]
  }

  function EncMembers(t: TypeD): seq<Token>
  {
    if t.category >= DEFINED_ELSEWHERE then []
    else
      [I32(|t.members|)]
      + (if t.category == CLASS then Flat(t.members, EncClassMember) else Flat(t.members, EncMemberFields))
  }

  function RefPair(r: Ref): (int, int) { (r.owner, r.index) }

  function RefPairs(rs: seq<Ref>): (ids: seq<(int, int)>)
    ensures |ids| == |rs| && forall k | 0 <= k < |rs| :: ids[k] == RefPair(rs[k])
  {
    seq(|rs|, k requires 0 <= k < |rs| => RefPair(rs[k]))
  }

  function EncLifeline(l: LifelineD): seq<Token>
  {
    [I32(l.class_), Pos(l.position), U8(l.instanceType)]
    + (if l.instanceType == CHILD_MEMBER_OF_OTHER_CLASS_LIFELINE then [I32(l.instance.owner), I32(l.instance.index)] else [])
    + [SlotIds(RefPairs(l.mySlots))]
  }

  function EncUseCase(u: UseCaseD): seq<Token>
  {
    [Str(u.name)]
    + (match u.actor case None => [Flag(false)] case Some(p) => [Flag(true), Pos(p)])
    + ([I32(|u.lifelines|)] + Flat(u.lifelines, EncLifeline))
    + (match u.entry case None => [Flag(false)] case Some(e) => [Flag(true), I32(e.lifeline), I32(e.slot)])
  }

  function EncContext(c: ContextD): seq<Token>
  {
    match c
    case SlotArgumentD(s, k) => [U8(0), I32(s.owner), I32(s.index), I32(k)]
    case MemberVariableD(m) => [U8(2), I32(m.owner), I32(m.index)]
  }

  function EncContexts(cs: seq<ContextD>): seq<Token> { [I32(|cs|)] + Flat(cs, EncContext) }

  function EncStatement(s: StatementD): seq<Token>
  {
    match s
    case SignalEmissionD(sig, ctx) => [U8(0), I32(sig.owner), I32(sig.index)] + EncContexts(ctx)
    case SlotInvocationD(l, slot, ctx) =>
      [U8(1), I32(l.owner), I32(l.index), I32(slot.owner), I32(slot.index)] + EncContexts(ctx)
    case RawCppChunkD(lines) => [U8(3), Strings(lines)]
  }

  function EncBody(m: MethodD): seq<Token> { [I32(|m.statements|)] + Flat(m.statements, EncStatement) }

  function EncBodies(t: TypeD): seq<Token>
  {
    if t.category == CLASS then Flat(t.mySlots, EncBody) else []
  }

  function EncAttached(a: AttachedD): seq<Token> { [I32(a.lifelineIndex), SlotId(RefPair(a.slot))] }

  function EncActivation(a: ActivationD): seq<Token>
  {
    [I32(a.sourceLifeline), SlotId(RefPair(a.sourceSlot)), I32(a.statementIndex), I32(|a.attached|)]
    + Flat(a.attached, EncAttached)
  }

  function EncActivations(u: UseCaseD): seq<Token> { [I32(|u.activations|)] + Flat(u.activations, EncActivation) }

  // The parts in dependency order: what a part refers to is always created by an earlier part.
  function EncTypes(d: ProjectD): seq<Token> { [I32(|d.types|)] + Flat(d.types, EncTypeHead) }

  function EncAncestors(d: ProjectD): seq<Token>
  {
    [I32(|AncestorEntries(d.types, 0)|)] + Flat(AncestorEntries(d.types, 0), EncAncestorEntry)
  }

  function EncUseCases(d: ProjectD): seq<Token> { [I32(|d.useCases|)] + Flat(d.useCases, EncUseCase) }

  function EncProject(d: ProjectD): seq<Token>
  {
    [U8(1), Str(d.name)]
    + (EncTypes(d)
    + (EncAncestors(d)
    + (Flat(d.types, EncSpecifics)
    + (Flat(d.types, EncMembers)
    + (EncUseCases(d)
    + (Flat(d.types, EncBodies)
    + Flat(d.useCases, EncActivations)))))))
  }
}
