// Editing C++ outside the designer: the generator leaves a gap between delimiting comments in
// front of every statement of a slot and behind the last one, and the importer scans the edited
// source file for what was written into the gaps.
module CppEditMode {
  import opened Wrappers
  import opened Text

  // ---------- the delimiting comments ----------

  function BeginDelimiter(): string { "[BEGIN CHUNK OF RAW CPP STATEMENTS]" }

  function BeginCloser(): string { "[/BEGIN CHUNK OF RAW CPP STATEMENTS]" }

  function EndDelimiter(): string { "[END CHUNK OF RAW CPP STATEMENTS]" }

  function EndCloser(): string { "[/END CHUNK OF RAW CPP STATEMENTS]" }

  function DoNotWriteAbove(): string { "DO NOT WRITE C++ ABOVE THESE COMMENTS" }

  function MayWriteBelow(): string { "YOU MAY WRITE C++ BELOW THESE COMMENTS" }

  function MayWriteAbove(): string { "YOU MAY WRITE C++ ABOVE THESE COMMENTS" }

  function DoNotWriteBelow(): string { "DO NOT WRITE C++ BELOW THESE COMMENTS" }

  function Helper(): string { "//====CHUNK OF RAW CPP GOES HERE====" }

  function ClassPrefix(): string { "Class: " }

  function SlotIndexPrefix(): string { "SlotIndex: " }

  function InsertIndexPrefix(): string { "StatementInsertIndex: " }

  function Comment(s: string): string { "\t//" + s }

  // ---------- the project as far as the import changes it ----------

  // Existing: any statement that was there, by its generated lines.
  datatype Statement = Existing(lines: seq<string>) | RawCppChunk(lines: seq<string>)
  datatype Class = Class(name: string, mySlots: seq<seq<Statement>>)

  // QList::insert puts an index outside the list at its nearer end.
  function Inserted(xs: seq<Statement>, at: int, x: Statement): seq<Statement>
  {
    var k := if at < 0 then 0 else if at > |xs| then |xs| else at;
    xs[..k] + [x] + xs[k..]
  }

  // classFromClassName: the first match
  function ClassAt(classes: seq<Class>, name: string): Option<nat>
  {
    if classes == [] then None
    else if classes[0].name == name then Some(0)
    else match ClassAt(classes[1..], name) case None => None case Some(i) => Some(i + 1)
  }

  lemma ClassAtIsThere(classes: seq<Class>, name: string)
    ensures ClassAt(classes, name).Some? ==> ClassAt(classes, name).value < |classes|
                                             && classes[ClassAt(classes, name).value].name == name
  {
  }

  function WithSlot(classes: seq<Class>, c: nat, slot: nat, statements: seq<Statement>): seq<Class>
    requires c < |classes| && slot < |classes[c].mySlots|
  {
    classes[c := classes[c].(mySlots := classes[c].mySlots[slot := statements])]
  }

  // ---------- the importer's state and one line ----------

  datatype Importer = Importer(classes: seq<Class>, inBeginComment: bool, className: string, slotIndex: int,
                               insertIndex: int, inChunk: bool, chunk: seq<string>, rollingOffset: int,
                               lastSeenClass: string, lastSeenSlotIndex: int)

  function Fresh(classes: seq<Class>): Importer
  {
    Importer(classes, false, "", -1, -1, false, [], 0, "", -1)
  }

  // Refused: the delimiting comments were tampered with. Crashed: no such class or slot.
  datatype Outcome = Going(i: Importer) | Refused(i: Importer) | Crashed(i: Importer)

  predicate Skipped(line: string)
  {
    var trimmed := Trim(line);
    trimmed == "" || trimmed == "//" || trimmed == Helper()
  }

  function Insert(i: Importer): Outcome
  {
    match ClassAt(i.classes, i.className)
    case None => Crashed(i)
    case Some(c) =>
      ClassAtIsThere(i.classes, i.className);
      if !(0 <= i.slotIndex < |i.classes[c].mySlots|) then Crashed(i)
      else
        var statements := Inserted(i.classes[c].mySlots[i.slotIndex], i.insertIndex + i.rollingOffset, RawCppChunk(i.chunk));
        Going(i.(classes := WithSlot(i.classes, c, i.slotIndex, statements), rollingOffset := i.rollingOffset + 1))
  }

  function BeginCommentLine(i: Importer, line: string): Outcome
  {
    if Contains(line, ClassPrefix()) then
      var split := Split(line, ClassPrefix());
      if |split| != 2 then Refused(i)
      else
        Going(i.(className := split[1], rollingOffset := if split[1] != i.lastSeenClass then 0 else i.rollingOffset,
                 lastSeenClass := split[1]))
    else if Contains(line, SlotIndexPrefix()) then
      var split := Split(line, SlotIndexPrefix());
      if |split| != 2 then Refused(i)
      else
        match ParseInt(split[1], 32)
        case None => Refused(i.(slotIndex := 0))
        case Some(n) =>
          Going(i.(slotIndex := n, rollingOffset := if n != i.lastSeenSlotIndex then 0 else i.rollingOffset,
                   lastSeenSlotIndex := n))
    else if Contains(line, InsertIndexPrefix()) then
      var split := Split(line, InsertIndexPrefix());
      if |split| != 2 then Refused(i)
      else
        match ParseInt(split[1], 32)
        case None => Refused(i.(insertIndex := 0))
        case Some(n) => Going(i.(insertIndex := n))
    else if Contains(line, BeginCloser()) then
      if i.className == "" || i.slotIndex == -1 || i.insertIndex == -1 then Refused(i) else Going(i.(inChunk := true))
    else Going(i)
  }

  function Closed(o: Outcome): Outcome
  {
    match o
    case Going(j) => Going(j.(inBeginComment := false, inChunk := false, chunk := []))
    case other => other
  }

  function ChunkLine(i: Importer, line: string): Outcome
  {
    if Contains(line, EndDelimiter()) then Closed(if i.chunk == [] then Going(i) else Insert(i))
    else Going(i.(chunk := i.chunk + [line]))
  }

  function ImportLine(i: Importer, line: string): Outcome
  {
    if Skipped(line) then Going(i)
    else if i.inChunk then ChunkLine(i, line)
    else if i.inBeginComment then BeginCommentLine(i, line)
    else if Contains(line, BeginDelimiter()) then Going(i.(inBeginComment := true))
    else Going(i)
  }

  function ImportLines(i: Importer, lines: seq<string>): Outcome
    decreases |lines|
  {
    if lines == [] then Going(i)
    else
      match ImportLine(i, lines[0])
      case Going(j) => ImportLines(j, lines[1..])
      case other => other
  }

  // One file after the other, each with fresh flags.
  function ImportFiles(classes: seq<Class>, files: seq<seq<string>>): Outcome
    decreases |files|
  {
    if files == [] then Going(Fresh(classes))
    else
      match ImportLines(Fresh(classes), files[0])
      case Going(j) => ImportFiles(j.classes, files[1..])
      case other => other
  }

  lemma {:induction false} ImportAppend(i: Importer, a: seq<string>, b: seq<string>)
    ensures ImportLines(i, a + b) == match ImportLines(i, a)
                                     case Going(j) => ImportLines(j, b)
                                     case other => other
    decreases |a|
  {
    hide ImportLine;
    if a == [] {
      assert a + b == b;
    } else {
      assert (a + b)[1..] == a[1..] + b;
      match ImportLine(i, a[0]) {
        case Going(j) => ImportAppend(j, a[1..], b);
        case _ =>
      }
    }
  }

  // ---------- the gaps ----------

  function GapHead(className: string, slotIndex: nat, insertIndex: nat): seq<string>
  {
    [Comment(BeginDelimiter()), Comment(DoNotWriteAbove()), Comment(""),
     Comment(ClassPrefix() + className), Comment(SlotIndexPrefix() + IntToString(slotIndex)),
     Comment(InsertIndexPrefix() + IntToString(insertIndex)), Comment(""),
     Comment(MayWriteBelow()), Comment(BeginCloser())]
  }

  function EmptyGap(): seq<string> { ["", "", "\t" + Helper(), "", "", ""] }

  function GapTail(): seq<string>
  {
    [Comment(EndDelimiter()), Comment(MayWriteAbove()),
     Comment(DoNotWriteBelow()), Comment(EndCloser())]
  }

  function Gap(className: string, slotIndex: nat, insertIndex: nat, written: seq<string>): seq<string>
  {
    GapHead(className, slotIndex, insertIndex) + written + GapTail()
  }

  // What is kept of the lines in a gap.
  function Kept(lines: seq<string>): seq<string>
  {
    if lines == [] then []
    else
      var rest := Kept(lines[1..]);
      if Skipped(lines[0]) then rest else [lines[0]] + rest
  }

  ghost predicate FreeOf(lines: seq<string>, delimiter: string)
  {
    forall l | l in lines :: !Contains(l, delimiter)
  }

  // ---------- a file with gaps, edited or not ----------

  // One gap with the lines in front of it and the lines written into it.
  datatype Edit = Edit(before: seq<string>, written: seq<string>)

  function SlotText(className: string, slotIndex: nat, edits: seq<Edit>, from: nat): seq<string>
    requires from <= |edits|
    decreases |edits| - from
  {
    if from == |edits| then []
    else edits[from].before + Gap(className, slotIndex, from, edits[from].written) + SlotText(className, slotIndex, edits, from + 1)
  }

  function SlotsText(className: string, edits: seq<seq<Edit>>, from: nat): seq<string>
    requires from <= |edits|
    decreases |edits| - from
  {
    if from == |edits| then [] else SlotText(className, from, edits[from], 0) + SlotsText(className, edits, from + 1)
  }

  function FileText(className: string, edits: seq<seq<Edit>>, end: seq<string>): seq<string>
  {
    SlotsText(className, edits, 0) + end
  }

  // The chunks in between the statements; an empty one is left out.
  function ChunkAt(e: Edit): seq<Statement>
  {
    if Kept(e.written) == [] then [] else [RawCppChunk(Kept(e.written))]
  }

  function Interleaved(statements: seq<Statement>, edits: seq<Edit>, upTo: nat): seq<Statement>
    requires upTo <= |edits| <= |statements| + 1
  {
    if upTo == 0 then []
    else
      Interleaved(statements, edits, upTo - 1)
      + (if upTo == 1 then [] else [statements[upTo - 2]]) + ChunkAt(edits[upTo - 1])
  }

  // One gap per statement and one behind the last; nothing looks like a delimiter by accident.
  ghost predicate EditsFit(statements: seq<Statement>, edits: seq<Edit>)
  {
    && |edits| == |statements| + 1 && |edits| < 0x8000_0000
    && forall e | e in edits :: FreeOf(e.before, BeginDelimiter()) && FreeOf(e.written, EndDelimiter())
  }

  ghost predicate ClassEditsFit(c: Class, edits: seq<seq<Edit>>, end: seq<string>)
  {
    && |edits| == |c.mySlots| < 0x8000_0000 && FreeOf(end, BeginDelimiter())
    && c.name != "" && !Contains(c.name, ClassPrefix())
    && forall j | 0 <= j < |edits| :: EditsFit(c.mySlots[j], edits[j])
  }
}
