// The loops of the generator that write the slots of a class with their gaps, and of the project
// that reads the edited files, proved against CppEditMode and CppReimport.
module CppSourceFile {
  import opened Wrappers
  import opened Text
  import opened CppEditMode
  import opened CppReimport

  // What stands around the statements of a slot: its signature and opening brace, and the exit
  // signal, if any, with the closing brace.
  datatype Frame = Frame(header: seq<string>, closing: seq<string>)

  datatype Place = Place(className: string, slotIndex: nat, insertIndex: nat)

  // ---------- the file as gaps that nobody wrote into ----------

  function Pending(preamble: seq<string>, frames: seq<Frame>, slot: nat): seq<string>
    requires slot <= |frames|
  {
    if slot == 0 then preamble else frames[slot - 1].closing
  }

  function GeneratedEdit(pending: seq<string>, frame: Frame, statements: seq<Statement>, k: nat): Edit
    requires k <= |statements|
  {
    Edit(if k == 0 then pending + frame.header else [""] + statements[k - 1].lines + [""], EmptyGap())
  }

  function GeneratedSlot(pending: seq<string>, frame: Frame, statements: seq<Statement>): seq<Edit>
  {
    seq(|statements| + 1, k requires 0 <= k <= |statements| => GeneratedEdit(pending, frame, statements, k))
  }

  function GeneratedFile(c: Class, preamble: seq<string>, frames: seq<Frame>): EditedFile
    requires |frames| == |c.mySlots|
  {
    EditedFile(seq(|c.mySlots|, j requires 0 <= j < |c.mySlots| =>
                     GeneratedSlot(Pending(preamble, frames, j), frames[j], c.mySlots[j])),
               Pending(preamble, frames, |frames|))
  }

  function GeneratedText(c: Class, preamble: seq<string>, frames: seq<Frame>): seq<string>
    requires |frames| == |c.mySlots|
  {
    var f := GeneratedFile(c, preamble, frames);
    FileText(c.name, f.edits, f.end)
  }

  // The line to jump to is the first free one of the gap.
  predicate JumpsInto(lines: seq<string>, lineNumber: int, place: Place)
  {
    && 13 <= lineNumber <= |lines| + 1
    && lines[lineNumber - 13..lineNumber - 1]
       == GapHead(place.className, place.slotIndex, place.insertIndex) + ["", "", "\t" + Helper()]
  }

  lemma StillJumpsInto(lines: seq<string>, more: seq<string>, lineNumber: int, place: Place)
    requires JumpsInto(lines, lineNumber, place)
    ensures JumpsInto(lines + more, lineNumber, place)
  {
  }

  class SourceFile {
    // Every line as it is ended with endl.
    var lines: seq<string>
    const wanted: Option<Place>
    var lineNumberToJumpTo: int

    constructor (wanted: Option<Place>)
      ensures lines == [] && this.wanted == wanted && lineNumberToJumpTo == -1 && Valid()
    {
      lines, this.wanted, lineNumberToJumpTo := [], wanted, -1;
    }

    predicate Valid()
      reads this
    {
      lineNumberToJumpTo == -1 || (wanted.Some? && JumpsInto(lines, lineNumberToJumpTo, wanted.value))
    }

    // The wanted gap is one of the first of this slot.
    predicate Wants(className: string, slotIndex: nat, gaps: nat)
    {
      && wanted.Some? && wanted.value.className == className && wanted.value.slotIndex == slotIndex
      && wanted.value.insertIndex < gaps
    }

    method Write(more: seq<string>)
      requires Valid()
      modifies this`lines
      ensures Valid() && lines == old(lines) + more
    {
      if lineNumberToJumpTo != -1 { StillJumpsInto(lines, more, lineNumberToJumpTo, wanted.value); }
      lines := lines + more;
    }

    // writePairOfDelimitedCommentsInBetweenWhichAchunkOfRawCppStatementsCanBeWritten
    method WriteGap(className: string, slotIndex: nat, insertIndex: nat)
      requires Valid()
      modifies this
      ensures Valid() && lines == old(lines) + Gap(className, slotIndex, insertIndex, EmptyGap())
      ensures wanted == Some(Place(className, slotIndex, insertIndex)) || old(lineNumberToJumpTo) != -1 ==> lineNumberToJumpTo != -1
    {
      hide GapHead; hide Comment; hide GapTail; hide Helper;
      ghost var before := lines;
      var head := GapHead(className, slotIndex, insertIndex);
      HeadLength(className, slotIndex, insertIndex);
      Write(head);
      Write(["", "", "\t" + Helper()]);
      assert lines == before + (head + ["", "", "\t" + Helper()]);
      if wanted == Some(Place(className, slotIndex, insertIndex)) {
        assert lines[|before|..] == head + ["", "", "\t" + Helper()];
        lineNumberToJumpTo := |lines| + 1;
      }
      Write(["", "", ""]);
      Write(GapTail());
      assert EmptyGap() == ["", "", "\t" + Helper()] + ["", "", ""];
      assert lines == before + (head + EmptyGap() + GapTail());
    }

    // The lines of a statement between two gaps.
    method WriteStatement(statement: Statement)
      requires Valid()
      modifies this`lines
      ensures Valid() && lines == old(lines) + ([""] + statement.lines + [""])
    {
      hide JumpsInto; hide Valid;
      Write([""]);
      Write(statement.lines);
      Write([""]);
    }

    // One slot: a gap in front of every statement and one behind the last.
    method WriteSlot(className: string, slotIndex: nat, frame: Frame, statements: seq<Statement>,
                     ghost pending: seq<string>, ghost written: seq<string>)
      requires Valid() && lines == written + pending
      modifies this
      ensures Valid()
      ensures lines == written + SlotText(className, slotIndex, GeneratedSlot(pending, frame, statements), 0) + frame.closing
      ensures old(lineNumberToJumpTo) != -1 ==> lineNumberToJumpTo != -1
      ensures Wants(className, slotIndex, |statements| + 1) ==> lineNumberToJumpTo != -1
    {
      hide Gap; hide SlotText; hide JumpsInto; hide Valid;
      ghost var edits, w := GeneratedSlot(pending, frame, statements), written;
      Write(frame.header);
      var k := 0;
      while k < |statements|
        invariant 0 <= k <= |statements| && Valid() && lines == w + edits[k].before
        invariant w + SlotText(className, slotIndex, edits, k) == written + SlotText(className, slotIndex, edits, 0)
        invariant old(lineNumberToJumpTo) != -1 ==> lineNumberToJumpTo != -1
        invariant Wants(className, slotIndex, k) ==> lineNumberToJumpTo != -1
      {
        WriteGap(className, slotIndex, k);
        SlotTextStep(className, slotIndex, edits, k);
        w := lines;
        WriteStatement(statements[k]);
        k := k + 1;
      }
      WriteGap(className, slotIndex, k);
      SlotTextStep(className, slotIndex, edits, k);
      SlotTextEnds(className, slotIndex, edits);
      Write(frame.closing);
    }

    method WriteClass(c: Class, preamble: seq<string>, frames: seq<Frame>)
      requires |frames| == |c.mySlots| && lines == [] && Valid()
      modifies this
      ensures Valid() && lines == GeneratedText(c, preamble, frames)
      ensures forall slot | 0 <= slot < |c.mySlots| && Wants(c.name, slot, |c.mySlots[slot]| + 1) ::
                JumpsInto(lines, lineNumberToJumpTo, wanted.value)
    {
      hide SlotText; hide JumpsInto; hide SlotsText;
      ghost var file := GeneratedFile(c, preamble, frames);
      ghost var w := [];
      Write(preamble);
      var j := 0;
      while j < |c.mySlots|
        invariant 0 <= j <= |c.mySlots| && Valid() && lines == w + Pending(preamble, frames, j)
        invariant w + SlotsText(c.name, file.edits, j) == SlotsText(c.name, file.edits, 0)
        invariant forall slot | 0 <= slot < j && Wants(c.name, slot, |c.mySlots[slot]| + 1) :: lineNumberToJumpTo != -1
      {
        WriteSlot(c.name, j, frames[j], c.mySlots[j], Pending(preamble, frames, j), w);
        SlotsTextStep(c.name, file.edits, j);
        w := w + SlotText(c.name, j, file.edits[j], 0);
        j := j + 1;
      }
      SlotsTextEnds(c.name, file.edits);
      assert w + [] == w;
    }
  }

  lemma HeadLength(className: string, slotIndex: nat, insertIndex: nat)
    ensures |GapHead(className, slotIndex, insertIndex)| == 9
  {
  }

  lemma SlotTextStep(className: string, slotIndex: nat, edits: seq<Edit>, k: nat)
    requires k < |edits|
    ensures forall w: seq<string> ::
              w + SlotText(className, slotIndex, edits, k)
              == w + edits[k].before + Gap(className, slotIndex, k, edits[k].written) + SlotText(className, slotIndex, edits, k + 1)
  {
    hide Gap;
    var a, b, c := edits[k].before, Gap(className, slotIndex, k, edits[k].written), SlotText(className, slotIndex, edits, k + 1);
    forall w: seq<string> ensures w + (a + b + c) == w + a + b + c {
    }
  }

  lemma SlotTextEnds(className: string, slotIndex: nat, edits: seq<Edit>)
    ensures forall w: seq<string> :: w + SlotText(className, slotIndex, edits, |edits|) == w
  {
    assert forall w: seq<string> :: w + [] == w;
  }

  lemma SlotsTextStep(className: string, edits: seq<seq<Edit>>, j: nat)
    requires j < |edits|
    ensures forall w: seq<string> ::
              w + SlotsText(className, edits, j) == w + SlotText(className, j, edits[j], 0) + SlotsText(className, edits, j + 1)
  {
    hide SlotText;
    var a, b := SlotText(className, j, edits[j], 0), SlotsText(className, edits, j + 1);
    forall w: seq<string> ensures w + (a + b) == w + a + b {
    }
  }

  lemma SlotsTextEnds(className: string, edits: seq<seq<Edit>>)
    ensures SlotsText(className, edits, |edits|) == []
  {
  }

  // ---------- importing ----------

  class Project {
    var classes: seq<Class>

    constructor (classes: seq<Class>)
      ensures this.classes == classes
    {
      this.classes := classes;
    }

    method ClassFromClassName(name: string) returns (found: Option<nat>)
      ensures found == ClassAt(classes, name)
    {
      var k := 0;
      while k < |classes|
        invariant 0 <= k <= |classes|
        invariant ClassAt(classes, name) == match ClassAt(classes[k..], name)
                                            case None => None
                                            case Some(n) => Some(n + k)
      {
        if classes[k].name == name {
          return Some(k);
        }
        k := k + 1;
      }
      return None;
    }

    // insertStatementIntoOrderedListOfStatements on the slot the comments named; false: no such slot.
    method InsertChunk(i: Importer) returns (inserted: bool)
      requires i.classes == classes
      modifies this
      ensures inserted <==> Insert(i).Going?
      ensures classes == Insert(i).i.classes
    {
      hide Inserted;
      var found := ClassFromClassName(i.className);
      ClassAtIsThere(classes, i.className);
      if found == None {
        return false;
      }
      var c := found.value;
      if !(0 <= i.slotIndex < |classes[c].mySlots|) {
        return false;
      }
      var statements := Inserted(classes[c].mySlots[i.slotIndex], i.insertIndex + i.rollingOffset, RawCppChunk(i.chunk));
      classes := classes[c := classes[c].(mySlots := classes[c].mySlots[i.slotIndex := statements])];
      return true;
    }

    // The scan of one source file. Chunks that went in before the scan is given up stay in.
    method ImportSourceFile(lines: seq<string>) returns (ok: bool)
      modifies this
      ensures ok <==> ImportLines(Fresh(old(classes)), lines).Going?
      ensures classes == ImportLines(Fresh(old(classes)), lines).i.classes
    {
      hide Skipped; hide BeginCommentLine; hide Insert; hide Contains;
      var i := Fresh(classes);
      var k := 0;
      assert lines[0..] == lines;
      while k < |lines|
        invariant 0 <= k <= |lines| && i.classes == classes
        invariant ImportLines(i, lines[k..]) == ImportLines(Fresh(old(classes)), lines)
      {
        var currentLine := lines[k];
        assert lines[k..][0] == currentLine && lines[k..][1..] == lines[k + 1..];
        k := k + 1;
        if Skipped(currentLine) {
          continue;
        }
        if !i.inChunk {
          if !i.inBeginComment {
            if Contains(currentLine, BeginDelimiter()) {
              i := i.(inBeginComment := true);
            }
            continue;
          }
          var read := BeginCommentLine(i, currentLine);
          BeginKeepsClasses(i, currentLine);
          if !read.Going? {
            return false;
          }
          i := read.i;
        } else if Contains(currentLine, EndDelimiter()) {
          if i.chunk != [] {
            InsertOnlyInserts(i);
            var inserted := InsertChunk(i);
            if !inserted {
              return false;
            }
            i := i.(classes := classes, rollingOffset := i.rollingOffset + 1);
          }
          i := i.(inBeginComment := false, inChunk := false, chunk := []);
        } else {
          i := i.(chunk := i.chunk + [currentLine]);
        }
      }
      return true;
    }

    method ImportEditedFiles(files: seq<seq<string>>) returns (ok: bool)
      modifies this
      ensures ok <==> ImportFiles(old(classes), files).Going?
      ensures classes == ImportFiles(old(classes), files).i.classes
    {
      hide ImportLines;
      var k := 0;
      assert files[0..] == files;
      while k < |files|
        invariant 0 <= k <= |files|
        invariant ImportFiles(classes, files[k..]) == ImportFiles(old(classes), files)
      {
        assert files[k..][1..] == files[k + 1..];
        var imported := ImportSourceFile(files[k]);
        if !imported {
          return false;
        }
        k := k + 1;
      }
      return true;
    }
  }

  lemma BeginKeepsClasses(i: Importer, line: string)
    ensures BeginCommentLine(i, line).i.classes == i.classes && !BeginCommentLine(i, line).Crashed?
  {
    hide Contains; hide Split; hide ParseInt;
  }

  lemma InsertOnlyInserts(i: Importer)
    ensures Insert(i).Going? ==> Insert(i).i == i.(classes := Insert(i).i.classes, rollingOffset := i.rollingOffset + 1)
  {
  }

  // ---------- generate, edit, import ----------

  // What is written with gaps and read back as it is changes nothing.
  lemma GeneratedFileIsUnedited(c: Class, preamble: seq<string>, frames: seq<Frame>)
    requires |frames| == |c.mySlots|
    ensures forall j | 0 <= j < |c.mySlots| :: Unedited(GeneratedFile(c, preamble, frames).edits[j])
  {
    EmptyGapIsSkipped();
    hide Kept; hide EmptyGap;
  }

  // Generated lines that do not look like a delimiter.
  ghost predicate Harmless(c: Class, preamble: seq<string>, frames: seq<Frame>)
  {
    && |frames| == |c.mySlots| < 0x8000_0000 && c.name != "" && !Contains(c.name, ClassPrefix())
    && FreeOf(preamble, BeginDelimiter())
    && (forall f | f in frames :: FreeOf(f.header, BeginDelimiter()) && FreeOf(f.closing, BeginDelimiter()))
    && (forall statements | statements in c.mySlots :: |statements| < 0x7FFF_FFFF && SlotHarmless(statements))
  }

  ghost predicate SlotHarmless(statements: seq<Statement>)
  {
    forall s | s in statements :: FreeOf(s.lines, BeginDelimiter())
  }

  lemma GeneratedFileFits(c: Class, preamble: seq<string>, frames: seq<Frame>)
    requires Harmless(c, preamble, frames)
    ensures ClassEditsFit(c, GeneratedFile(c, preamble, frames).edits, GeneratedFile(c, preamble, frames).end)
  {
    hide Contains;
    var f := GeneratedFile(c, preamble, frames);
    forall j | 0 <= j < |c.mySlots| ensures EditsFit(c.mySlots[j], f.edits[j]) {
      assert c.mySlots[j] in c.mySlots && frames[j] in frames;
      PendingIsFree(c, preamble, frames, j);
      SlotFits(Pending(preamble, frames, j), frames[j], c.mySlots[j]);
    }
    PendingIsFree(c, preamble, frames, |frames|);
  }

  datatype Surroundings = Surroundings(preamble: seq<string>, frames: seq<Frame>)

  ghost predicate AllHarmless(classes: seq<Class>, around: seq<Surroundings>)
  {
    && |around| == |classes| && NoFileShared(classes)
    && (forall k | 0 <= k < |classes| :: |around[k].frames| == |classes[k].mySlots|)
    && (forall k | 0 <= k < |classes| :: Harmless(classes[k], around[k].preamble, around[k].frames))
  }

  ghost function GeneratedFiles(classes: seq<Class>, around: seq<Surroundings>): seq<EditedFile>
    requires AllHarmless(classes, around)
  {
    seq(|classes|, k requires 0 <= k < |classes| => GeneratedFile(classes[k], around[k].preamble, around[k].frames))
  }

  // Generating all classes and importing the files as they are leaves the project as it is.
  lemma GeneratedProjectStays(classes: seq<Class>, around: seq<Surroundings>)
    requires AllHarmless(classes, around)
    ensures ImportFiles(classes, ReadBack(classes, Texts(classes, GeneratedFiles(classes, around), 0))) == Going(Fresh(classes))
  {
    hide ImportFiles; hide Harmless; hide ClassEditsFit; hide Unedited; hide Texts; hide ReadBack; hide NoFileShared;
    var files := GeneratedFiles(classes, around);
    forall k | 0 <= k < |classes|
      ensures ClassEditsFit(classes[k], files[k].edits, files[k].end)
      ensures forall j | 0 <= j < |files[k].edits| :: Unedited(files[k].edits[j])
    {
      GeneratedFileFits(classes[k], around[k].preamble, around[k].frames);
      GeneratedFileIsUnedited(classes[k], around[k].preamble, around[k].frames);
    }
    UneditedChangesNothing(classes, files);
  }

  lemma PendingIsFree(c: Class, preamble: seq<string>, frames: seq<Frame>, slot: nat)
    requires Harmless(c, preamble, frames) && slot <= |frames|
    ensures FreeOf(Pending(preamble, frames, slot), BeginDelimiter())
  {
    if slot > 0 { assert frames[slot - 1] in frames; }
  }

  lemma SlotFits(pending: seq<string>, frame: Frame, statements: seq<Statement>)
    requires FreeOf(pending, BeginDelimiter()) && FreeOf(frame.header, BeginDelimiter())
    requires SlotHarmless(statements) && |statements| < 0x7FFF_FFFF
    ensures EditsFit(statements, GeneratedSlot(pending, frame, statements))
  {
    var edits := GeneratedSlot(pending, frame, statements);
    EmptyGapIsFree();
    EmptyLineIsFree();
    hide Contains; hide EmptyGap; hide BeginDelimiter; hide EndDelimiter;
    forall k | 0 <= k < |edits|
      ensures FreeOf(edits[k].before, BeginDelimiter()) && FreeOf(edits[k].written, EndDelimiter())
    {
      if k > 0 { assert statements[k - 1] in statements; }
    }
  }

  lemma EmptyLineIsFree()
    ensures !Contains("", BeginDelimiter())
  {
    Delimiters();
    hide BeginDelimiter;
    ContainedChar("", BeginDelimiter(), 0);
  }

  lemma EmptyGapIsFree()
    ensures FreeOf(EmptyGap(), EndDelimiter())
  {
    Delimiters();
    HelperLacks();
    hide EndDelimiter; hide Helper; hide Contains;
    ContainedChar("", EndDelimiter(), 0);
    ContainedChar("\t" + Helper(), EndDelimiter(), 0);
  }
}
