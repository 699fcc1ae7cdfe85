// Importing an edited source file: what was written into the gaps of a slot ends up between its
// statements, for every slot of every class, and a file that was not edited changes nothing.
module CppReimport {
  import opened Wrappers
  import opened Text
  import opened CppEditMode

  predicate Idle(i: Importer) { !i.inBeginComment && !i.inChunk && i.chunk == [] }

  // ---------- single lines ----------

  function Onwards(o: Outcome, rest: seq<string>): Outcome
  {
    match o
    case Going(next) => ImportLines(next, rest)
    case _ => o
  }

  lemma OneByOne(i: Importer, line: string, rest: seq<string>)
    ensures ImportLines(i, [line] + rest) == Onwards(ImportLine(i, line), rest)
  {
    assert ([line] + rest)[1..] == rest;
  }

  // What tells the fixed texts apart.
  lemma Prefixes()
    ensures |ClassPrefix()| > 2 && ClassPrefix()[0] == 'C' && ClassPrefix()[1] == 'l'
    ensures |SlotIndexPrefix()| > 2 && SlotIndexPrefix()[0] == 'S' && SlotIndexPrefix()[1] == 'l' && 'C' !in SlotIndexPrefix()
    ensures |InsertIndexPrefix()| > 3 && InsertIndexPrefix()[0] == 'S' && InsertIndexPrefix()[2] == 'a'
    ensures 'l' !in InsertIndexPrefix()
  {
  }

  lemma Delimiters()
    ensures |BeginDelimiter()| > 4 && BeginDelimiter()[0] == '[' && BeginDelimiter()[3] == 'G'
    ensures EndDelimiter() != "" && EndDelimiter()[0] == '['
  {
  }

  lemma Closers()
    ensures BeginCloser() != "" && BeginCloser()[0] == '['
    ensures 'l' !in BeginCloser() && 'a' !in BeginCloser() && 'G' !in EndCloser()
  {
    BeginCloserLacks();
    hide EndCloser;
    EndCloserLacks();
  }

  lemma BeginCloserLacks()
    ensures 'l' !in BeginCloser() && 'a' !in BeginCloser()
  {
  }

  lemma EndCloserLacks()
    ensures 'G' !in EndCloser()
  {
  }

  lemma PlainAboveText()
    ensures 'l' !in DoNotWriteAbove() && 'a' !in DoNotWriteAbove() && '[' !in DoNotWriteAbove()
  {
  }

  lemma PlainBelowText()
    ensures 'l' !in MayWriteBelow() && 'a' !in MayWriteBelow() && '[' !in MayWriteBelow()
  {
  }

  lemma PlainTailTexts()
    ensures '[' !in MayWriteAbove() && '[' !in DoNotWriteBelow()
  {
  }

  lemma HelperLacks()
    ensures 'l' !in Helper() && 'a' !in Helper() && '[' !in Helper()
  {
  }

  lemma NotSkipped(line: string, c: char)
    requires c in line && (c == 'l' || c == 'a' || c == '[')
    ensures !Skipped(line)
  {
    HelperLacks();
    hide Helper;
    assert c in Trim(line);
  }

  lemma InComment(s: string, k: nat)
    requires k < |s|
    ensures s[k] in Comment(s) && forall c | c !in s && c != '\t' && c != '/' :: c !in Comment(s)
  {
    assert Comment(s)[k + 3] == s[k];
  }

  lemma CommentContains(delimiter: string)
    ensures Contains(Comment(delimiter), delimiter)
  {
    ContainsPart("\t//", delimiter, "");
    assert "\t//" + delimiter + "" == Comment(delimiter);
  }

  lemma BeginLine(i: Importer)
    requires Idle(i)
    ensures ImportLine(i, Comment(BeginDelimiter())) == Going(i.(inBeginComment := true))
  {
    Delimiters();
    hide Skipped; hide Contains; hide BeginDelimiter; hide Comment;
    InComment(BeginDelimiter(), 0);
    NotSkipped(Comment(BeginDelimiter()), '[');
    CommentContains(BeginDelimiter());
  }

  // A comment that is none of those the importer looks for.
  lemma PlainBeginLine(i: Importer, line: string)
    requires i.inBeginComment && !i.inChunk && 'l' !in line && 'a' !in line && '[' !in line
    ensures ImportLine(i, line) == Going(i)
  {
    Prefixes();
    Closers();
    hide Skipped; hide Contains; hide ClassPrefix; hide SlotIndexPrefix; hide InsertIndexPrefix; hide BeginCloser;
    ContainedChar(line, ClassPrefix(), 1);
    ContainedChar(line, SlotIndexPrefix(), 1);
    ContainedChar(line, InsertIndexPrefix(), 2);
    ContainedChar(line, BeginCloser(), 0);
  }

  // A prefix behind the slashes of the comment splits the line in two.
  lemma PrefixSplits(prefix: string, value: string)
    requires prefix != "" && prefix[0] != '\t' && prefix[0] != '/' && !Contains(value, prefix)
    ensures Contains(Comment(prefix + value), prefix) && Split(Comment(prefix + value), prefix) == ["\t//", value]
  {
    var line := "\t//" + prefix + value;
    assert Comment(prefix + value) == line;
    ContainsPart("\t//", prefix, value);
    forall k | 0 <= k < 3 ensures !OccursAt(line, prefix, k) {
      if k + |prefix| <= |line| { assert line[k..k + |prefix|][0] == line[k]; }
    }
    SplitFirst("\t//", prefix, value);
    SplitNone(value, prefix);
  }

  lemma ClassLine(i: Importer, name: string)
    requires i.inBeginComment && !i.inChunk && !Contains(name, ClassPrefix())
    ensures ImportLine(i, Comment(ClassPrefix() + name))
            == Going(i.(className := name, rollingOffset := if name != i.lastSeenClass then 0 else i.rollingOffset,
                        lastSeenClass := name))
  {
    Prefixes();
    hide Skipped; hide Contains; hide Split; hide ClassPrefix; hide Comment;
    InComment(ClassPrefix() + name, 1);
    NotSkipped(Comment(ClassPrefix() + name), 'l');
    PrefixSplits(ClassPrefix(), name);
  }

  lemma NumberLacks(n: nat, c: char)
    requires !IsDigit(c) && c != '-'
    ensures c !in IntToString(n)
  {
    assert forall d | d in IntToString(n) :: IsDigit(d) || d == '-';
  }

  lemma SlotLine(i: Importer, n: nat)
    requires i.inBeginComment && !i.inChunk && n < 0x8000_0000
    ensures ImportLine(i, Comment(SlotIndexPrefix() + IntToString(n)))
            == Going(i.(slotIndex := n, rollingOffset := if n != i.lastSeenSlotIndex then 0 else i.rollingOffset,
                        lastSeenSlotIndex := n))
  {
    Prefixes();
    hide Skipped; hide Contains; hide Split; hide IntToString; hide ParseInt; hide ClassPrefix; hide SlotIndexPrefix; hide Comment;
    var number := IntToString(n);
    var line := Comment(SlotIndexPrefix() + number);
    NumberLacks(n, 'C');
    NumberLacks(n, 'S');
    InComment(SlotIndexPrefix() + number, 1);
    NotSkipped(line, 'l');
    ContainedChar(line, ClassPrefix(), 0);
    ContainedChar(number, SlotIndexPrefix(), 0);
    PrefixSplits(SlotIndexPrefix(), number);
    ParseIntOfNumber(n, 32);
  }

  lemma IndexLine(i: Importer, n: nat)
    requires i.inBeginComment && !i.inChunk && n < 0x8000_0000
    ensures ImportLine(i, Comment(InsertIndexPrefix() + IntToString(n))) == Going(i.(insertIndex := n))
  {
    Prefixes();
    hide Skipped; hide Contains; hide Split; hide IntToString; hide ParseInt; hide ClassPrefix; hide SlotIndexPrefix;
    hide InsertIndexPrefix; hide Comment;
    var number := IntToString(n);
    var line := Comment(InsertIndexPrefix() + number);
    NumberLacks(n, 'l');
    NumberLacks(n, 'S');
    InComment(InsertIndexPrefix() + number, 2);
    NotSkipped(line, 'a');
    ContainedChar(line, ClassPrefix(), 1);
    ContainedChar(line, SlotIndexPrefix(), 1);
    ContainedChar(number, InsertIndexPrefix(), 0);
    PrefixSplits(InsertIndexPrefix(), number);
    ParseIntOfNumber(n, 32);
  }

  lemma CloserLine(i: Importer)
    requires i.inBeginComment && !i.inChunk && i.className != "" && i.slotIndex != -1 && i.insertIndex != -1
    ensures ImportLine(i, Comment(BeginCloser())) == Going(i.(inChunk := true))
  {
    Prefixes();
    Closers();
    hide Skipped; hide Contains; hide ClassPrefix; hide SlotIndexPrefix; hide InsertIndexPrefix; hide BeginCloser; hide Comment;
    var line := Comment(BeginCloser());
    InComment(BeginCloser(), 0);
    NotSkipped(line, '[');
    ContainedChar(line, ClassPrefix(), 1);
    ContainedChar(line, SlotIndexPrefix(), 1);
    ContainedChar(line, InsertIndexPrefix(), 2);
    CommentContains(BeginCloser());
  }

  // ---------- the parts of a gap ----------

  function AtGap(i: Importer, name: string, slot: int, index: int): Importer
  {
    i.(inBeginComment := true, inChunk := true, className := name, slotIndex := slot, insertIndex := index,
       rollingOffset := if name != i.lastSeenClass || slot != i.lastSeenSlotIndex then 0 else i.rollingOffset,
       lastSeenClass := name, lastSeenSlotIndex := slot)
  }

  lemma PlainHeadLines(i: Importer)
    requires i.inBeginComment && !i.inChunk
    ensures ImportLine(i, Comment(DoNotWriteAbove())) == Going(i)
    ensures ImportLine(i, Comment(MayWriteBelow())) == Going(i)
    ensures ImportLine(i, Comment("")) == Going(i)
  {
    PlainAboveText();
    PlainBelowText();
    hide ImportLine; hide DoNotWriteAbove; hide MayWriteBelow;
    PlainBeginLine(i, Comment(DoNotWriteAbove()));
    PlainBeginLine(i, Comment(MayWriteBelow()));
    PlainBeginLine(i, Comment(""));
  }

  lemma HeadImported(i: Importer, name: string, slot: nat, index: nat)
    requires Idle(i) && name != "" && !Contains(name, ClassPrefix()) && slot < 0x8000_0000 && index < 0x8000_0000
    ensures ImportLines(i, GapHead(name, slot, index)) == Going(AtGap(i, name, slot, index))
  {
    hide ImportLine; hide Comment; hide Contains; hide BeginDelimiter; hide BeginCloser; hide ClassPrefix; hide SlotIndexPrefix;
    hide InsertIndexPrefix; hide DoNotWriteAbove; hide MayWriteBelow; hide IntToString;
    var h := GapHead(name, slot, index);
    var i1 := i.(inBeginComment := true);
    var i2 := i1.(className := name, rollingOffset := if name != i.lastSeenClass then 0 else i.rollingOffset, lastSeenClass := name);
    var i3 := i2.(slotIndex := slot, rollingOffset := if slot != i.lastSeenSlotIndex then 0 else i2.rollingOffset,
                  lastSeenSlotIndex := slot);
    var i4 := i3.(insertIndex := index);
    BeginLine(i);
    PlainHeadLines(i1);
    ClassLine(i1, name);
    SlotLine(i2, slot);
    IndexLine(i3, index);
    PlainHeadLines(i4);
    CloserLine(i4);
    assert h == [h[0]] + ([h[1]] + ([h[2]] + ([h[3]] + ([h[4]] + ([h[5]] + ([h[6]] + ([h[7]] + ([h[8]] + []))))))));
    OneByOne(i, h[0], [h[1]] + ([h[2]] + ([h[3]] + ([h[4]] + ([h[5]] + ([h[6]] + ([h[7]] + ([h[8]] + []))))))));
    OneByOne(i1, h[1], [h[2]] + ([h[3]] + ([h[4]] + ([h[5]] + ([h[6]] + ([h[7]] + ([h[8]] + [])))))));
    OneByOne(i1, h[2], [h[3]] + ([h[4]] + ([h[5]] + ([h[6]] + ([h[7]] + ([h[8]] + []))))));
    OneByOne(i1, h[3], [h[4]] + ([h[5]] + ([h[6]] + ([h[7]] + ([h[8]] + [])))));
    OneByOne(i2, h[4], [h[5]] + ([h[6]] + ([h[7]] + ([h[8]] + []))));
    OneByOne(i3, h[5], [h[6]] + ([h[7]] + ([h[8]] + [])));
    OneByOne(i4, h[6], [h[7]] + ([h[8]] + []));
    OneByOne(i4, h[7], [h[8]] + []);
    OneByOne(i4, h[8], []);
  }

  lemma {:induction false} WrittenImported(i: Importer, lines: seq<string>)
    requires i.inChunk && FreeOf(lines, EndDelimiter())
    ensures ImportLines(i, lines) == Going(i.(chunk := i.chunk + Kept(lines)))
    decreases |lines|
  {
    hide Skipped; hide Contains;
    if lines == [] {
      assert i.chunk + [] == i.chunk;
    } else {
      assert lines[0] in lines && forall l | l in lines[1..] :: l in lines;
      var j := if Skipped(lines[0]) then i else i.(chunk := i.chunk + [lines[0]]);
      WrittenImported(j, lines[1..]);
      assert i.chunk + ([lines[0]] + Kept(lines[1..])) == i.chunk + [lines[0]] + Kept(lines[1..]);
      assert i.chunk + ([] + Kept(lines[1..])) == i.chunk + Kept(lines[1..]);
    }
  }

  lemma {:induction false} OutsideImported(i: Importer, lines: seq<string>)
    requires Idle(i) && FreeOf(lines, BeginDelimiter())
    ensures ImportLines(i, lines) == Going(i)
    decreases |lines|
  {
    hide Skipped; hide Contains;
    if lines != [] {
      assert lines[0] in lines && forall l | l in lines[1..] :: l in lines;
      OutsideImported(i, lines[1..]);
    }
  }

  lemma EndLine(i: Importer)
    requires i.inChunk
    ensures ImportLine(i, Comment(EndDelimiter()))
            == Closed(if i.chunk == [] then Going(i) else Insert(i))
  {
    Delimiters();
    hide Skipped; hide Contains; hide Insert; hide EndDelimiter; hide Comment;
    InComment(EndDelimiter(), 0);
    NotSkipped(Comment(EndDelimiter()), '[');
    CommentContains(EndDelimiter());
  }

  lemma TailIsFree()
    ensures FreeOf(GapTail()[1..], BeginDelimiter())
  {
    Delimiters();
    Closers();
    PlainTailTexts();
    hide Contains; hide BeginDelimiter; hide MayWriteAbove; hide DoNotWriteBelow; hide EndCloser; hide EndDelimiter;
    var a, b, c := Comment(MayWriteAbove()), Comment(DoNotWriteBelow()), Comment(EndCloser());
    assert GapTail()[1..] == [a, b, c];
    assert '[' !in a && '[' !in b && 'G' !in c;
    ContainedChar(a, BeginDelimiter(), 0);
    ContainedChar(b, BeginDelimiter(), 0);
    ContainedChar(c, BeginDelimiter(), 3);
  }

  // ---------- a whole gap ----------

  predicate HasSlot(i: Importer, name: string, c: nat, slot: nat)
  {
    ClassAt(i.classes, name) == Some(c) && c < |i.classes| && slot < |i.classes[c].mySlots|
  }

  // The state behind a gap of slot number slot of class c.
  function AfterGap(i: Importer, name: string, c: nat, slot: nat, index: nat, e: Edit): Importer
    requires HasSlot(i, name, c, slot)
  {
    var g := AtGap(i, name, slot, index);
    if Kept(e.written) == [] then g.(inBeginComment := false, inChunk := false)
    else
      g.(inBeginComment := false, inChunk := false, rollingOffset := g.rollingOffset + 1,
         classes := WithSlot(i.classes, c, slot, Inserted(i.classes[c].mySlots[slot], index + g.rollingOffset,
                                                          RawCppChunk(Kept(e.written)))))
  }

  lemma GapImported(i: Importer, name: string, c: nat, slot: nat, index: nat, e: Edit)
    requires Idle(i) && name != "" && !Contains(name, ClassPrefix()) && slot < 0x8000_0000 && index < 0x8000_0000
    requires HasSlot(i, name, c, slot) && FreeOf(e.before, BeginDelimiter()) && FreeOf(e.written, EndDelimiter())
    ensures ImportLines(i, e.before + Gap(name, slot, index, e.written)) == Going(AfterGap(i, name, c, slot, index, e))
    ensures Idle(AfterGap(i, name, c, slot, index, e))
  {
    hide ImportLines; hide ImportLine; hide GapHead; hide GapTail; hide Contains; hide Kept; hide FreeOf;
    var g := AtGap(i, name, slot, index);
    var written := g.(chunk := Kept(e.written));
    OutsideImported(i, e.before);
    ImportAppend(i, e.before, Gap(name, slot, index, e.written));
    HeadImported(i, name, slot, index);
    ImportAppend(i, GapHead(name, slot, index) + e.written, GapTail());
    ImportAppend(i, GapHead(name, slot, index), e.written);
    WrittenImported(g, e.written);
    assert [] + Kept(e.written) == Kept(e.written);
    TailImported(written, c);
  }

  lemma TailImported(i: Importer, c: nat)
    requires i.inChunk && i.inBeginComment && ClassAt(i.classes, i.className) == Some(c)
    requires c < |i.classes| && 0 <= i.slotIndex < |i.classes[c].mySlots|
    ensures ImportLines(i, GapTail())
            == Closed(if i.chunk == [] then Going(i) else Insert(i))
  {
    hide ImportLine; hide FreeOf; hide Insert; hide EndDelimiter; hide EndCloser; hide MayWriteAbove; hide DoNotWriteBelow;
    var t := GapTail();
    assert t == [t[0]] + t[1..];
    EndLine(i);
    TailIsFree();
    OneByOne(i, t[0], t[1..]);
    var closed := Closed(if i.chunk == [] then Going(i) else Insert(i));
    if closed.Going? {
      OutsideImported(closed.i, t[1..]);
    }
  }

  // ---------- a slot ----------

  function Chunks(edits: seq<Edit>, upTo: nat): nat
    requires upTo <= |edits|
  {
    if upTo == 0 then 0 else Chunks(edits, upTo - 1) + |ChunkAt(edits[upTo - 1])|
  }

  lemma {:induction false} InterleavedLength(statements: seq<Statement>, edits: seq<Edit>, upTo: nat)
    requires 0 < upTo <= |edits| <= |statements| + 1
    ensures |Interleaved(statements, edits, upTo)| == upTo - 1 + Chunks(edits, upTo)
  {
    if upTo == 1 {
      assert Interleaved(statements, edits, 0) == [] && Chunks(edits, 0) == 0;
    } else {
      InterleavedLength(statements, edits, upTo - 1);
    }
  }

  // The statements of the slot when so many gaps were imported.
  function Halfway(statements: seq<Statement>, edits: seq<Edit>, upTo: nat): seq<Statement>
    requires upTo <= |edits| == |statements| + 1
  {
    Interleaved(statements, edits, upTo) + statements[if upTo == 0 then 0 else upTo - 1..]
  }

  lemma HalfwayStart(statements: seq<Statement>, edits: seq<Edit>)
    requires |edits| == |statements| + 1
    ensures Halfway(statements, edits, 0) == statements && Chunks(edits, 0) == 0
    ensures Halfway(statements, edits, 1) == ChunkAt(edits[0]) + statements
  {
    assert Interleaved(statements, edits, 1) == ChunkAt(edits[0]);
    assert statements[0..] == statements;
  }

  lemma HalfwayStep(statements: seq<Statement>, edits: seq<Edit>, k: nat)
    requires k < |edits| == |statements| + 1
    ensures Halfway(statements, edits, k + 1)
            == if Kept(edits[k].written) == [] then Halfway(statements, edits, k)
               else Inserted(Halfway(statements, edits, k), k + Chunks(edits, k), RawCppChunk(Kept(edits[k].written)))
  {
    hide Kept;
    if k == 0 {
      HalfwayStart(statements, edits);
      hide Halfway; hide Interleaved; hide Chunks;
    } else {
      var front, half := Interleaved(statements, edits, k), Halfway(statements, edits, k);
      InterleavedLength(statements, edits, k);
      hide Chunks;
      assert half[..k + Chunks(edits, k)] == front + [statements[k - 1]] && half[k + Chunks(edits, k)..] == statements[k..];
      assert Interleaved(statements, edits, k + 1) == front + [statements[k - 1]] + ChunkAt(edits[k]);
    }
  }

  // The state in front of gap number k of a slot: the offset counts the chunks that went in.
  ghost predicate AtSlot(i: Importer, c: nat, name: string, slot: nat, statements: seq<Statement>, edits: seq<Edit>, k: nat)
    requires k <= |edits| == |statements| + 1
  {
    && Idle(i) && HasSlot(i, name, c, slot) && i.classes[c].mySlots[slot] == Halfway(statements, edits, k)
    && (if k == 0 then i.lastSeenClass != name || i.lastSeenSlotIndex != slot
        else i.lastSeenClass == name && i.lastSeenSlotIndex == slot && i.rollingOffset == Chunks(edits, k))
  }

  lemma {:induction false} SlotImported(i: Importer, c: nat, name: string, slot: nat, statements: seq<Statement>,
                                        edits: seq<Edit>, k: nat) returns (last: Importer)
    requires EditsFit(statements, edits) && k <= |edits| && AtSlot(i, c, name, slot, statements, edits, k)
    requires name != "" && !Contains(name, ClassPrefix()) && slot < 0x8000_0000
    ensures ImportLines(i, SlotText(name, slot, edits, k)) == Going(last)
    ensures AtSlot(last, c, name, slot, statements, edits, |edits|)
    ensures last.classes == WithSlot(i.classes, c, slot, Halfway(statements, edits, |edits|))
    decreases |edits| - k
  {
    hide ImportLines; hide Contains; hide FreeOf; hide Kept; hide Halfway; hide Inserted; hide Gap; hide ImportLine; hide Chunks;
    if k == |edits| {
      NothingToImport(i);
      last := i;
      SlotAsItIs(i, c, slot);
    } else {
      assert edits[k] in edits;
      GapImported(i, name, c, slot, k, edits[k]);
      HalfwayStep(statements, edits, k);
      NoChunksYet(edits);
      OneMore(edits, k);
      var i' := AfterGap(i, name, c, slot, k, edits[k]);
      StillThere(i.classes, c, slot, Halfway(statements, edits, k + 1), name);
      SlotAsItIs(i, c, slot);
      last := SlotImported(i', c, name, slot, statements, edits, k + 1);
      ImportAppend(i, edits[k].before + Gap(name, slot, k, edits[k].written), SlotText(name, slot, edits, k + 1));
      Overwritten(i.classes, c, slot, Halfway(statements, edits, k + 1), Halfway(statements, edits, |edits|));
    }
  }

  lemma NothingToImport(i: Importer)
    ensures ImportLines(i, []) == Going(i)
  {
  }

  lemma SlotAsItIs(i: Importer, c: nat, slot: nat)
    requires c < |i.classes| && slot < |i.classes[c].mySlots|
    ensures WithSlot(i.classes, c, slot, i.classes[c].mySlots[slot]) == i.classes
  {
    assert i.classes[c].mySlots[slot := i.classes[c].mySlots[slot]] == i.classes[c].mySlots;
  }

  lemma Overwritten(classes: seq<Class>, c: nat, slot: nat, first: seq<Statement>, second: seq<Statement>)
    requires c < |classes| && slot < |classes[c].mySlots|
    ensures WithSlot(WithSlot(classes, c, slot, first), c, slot, second) == WithSlot(classes, c, slot, second)
  {
    assert classes[c].mySlots[slot := first][slot := second] == classes[c].mySlots[slot := second];
  }

  lemma NoChunksYet(edits: seq<Edit>)
    ensures Chunks(edits, 0) == 0
  {
  }

  lemma OneMore(edits: seq<Edit>, k: nat)
    requires k < |edits|
    ensures Chunks(edits, k + 1) == Chunks(edits, k) + if Kept(edits[k].written) == [] then 0 else 1
  {
  }

  // The class is found under its name as before.
  lemma {:induction false} SameNames(classes: seq<Class>, others: seq<Class>, name: string)
    requires |classes| == |others| && forall k | 0 <= k < |classes| :: classes[k].name == others[k].name
    ensures ClassAt(classes, name) == ClassAt(others, name)
    decreases |classes|
  {
    if classes != [] {
      SameNames(classes[1..], others[1..], name);
    }
  }

  lemma StillThere(classes: seq<Class>, c: nat, slot: nat, statements: seq<Statement>, name: string)
    requires c < |classes| && slot < |classes[c].mySlots|
    ensures ClassAt(WithSlot(classes, c, slot, statements), name) == ClassAt(classes, name)
  {
    SameNames(classes, WithSlot(classes, c, slot, statements), name);
  }

  // ---------- a class, a project ----------

  function Interleaving(statements: seq<Statement>, edits: seq<Edit>): seq<Statement>
    requires |edits| == |statements| + 1
  {
    Interleaved(statements, edits, |edits|)
  }

  lemma AllTheWay(statements: seq<Statement>, edits: seq<Edit>)
    requires |edits| == |statements| + 1
    ensures Halfway(statements, edits, |edits|) == Interleaving(statements, edits)
    ensures Halfway(statements, edits, 0) == statements
  {
    assert statements[|statements|..] == [] && statements[0..] == statements;
  }

  // The class when so many slots were imported.
  function ImportedUpTo(c: Class, edits: seq<seq<Edit>>, upTo: nat): Class
    requires |edits| == |c.mySlots| && forall j | 0 <= j < |edits| :: |edits[j]| == |c.mySlots[j]| + 1
  {
    c.(mySlots := seq(|c.mySlots|, j requires 0 <= j < |c.mySlots| =>
      if j < upTo then Interleaving(c.mySlots[j], edits[j]) else c.mySlots[j]))
  }

  function ImportedClass(c: Class, edits: seq<seq<Edit>>): Class
    requires |edits| == |c.mySlots| && forall j | 0 <= j < |edits| :: |edits[j]| == |c.mySlots[j]| + 1
  {
    ImportedUpTo(c, edits, |edits|)
  }

  lemma {:induction false} SlotsImported(i: Importer, at: nat, c: Class, edits: seq<seq<Edit>>, end: seq<string>, from: nat)
    returns (last: Importer)
    requires ClassEditsFit(c, edits, end) && from <= |edits|
    requires Idle(i) && ClassAt(i.classes, c.name) == Some(at) && at < |i.classes|
    requires i.classes[at] == ImportedUpTo(c, edits, from)
    requires if from == 0 then i.lastSeenClass != c.name else i.lastSeenSlotIndex == from - 1
    ensures ImportLines(i, SlotsText(c.name, edits, from)) == Going(last) && Idle(last)
    ensures last.classes == i.classes[at := ImportedClass(c, edits)]
    decreases |edits| - from
  {
    hide ImportLines; hide Contains; hide FreeOf; hide SlotText; hide Interleaved;
    if from == |edits| {
      NothingToImport(i);
      last := i;
    } else {
      var statements := c.mySlots[from];
      assert EditsFit(statements, edits[from]);
      AllTheWay(statements, edits[from]);
      assert i.classes[at].mySlots[from] == statements;
      NoChunksYet(edits[from]);
      var next := SlotImported(i, at, c.name, from, statements, edits[from], 0);
      StillThere(i.classes, at, from, Interleaving(statements, edits[from]), c.name);
      assert ImportedUpTo(c, edits, from).mySlots[from := Interleaving(statements, edits[from])]
             == ImportedUpTo(c, edits, from + 1).mySlots;
      last := SlotsImported(next, at, c, edits, end, from + 1);
      ImportAppend(i, SlotText(c.name, from, edits[from], 0), SlotsText(c.name, edits, from + 1));
    }
  }

  lemma ClassImported(classes: seq<Class>, at: nat, c: Class, edits: seq<seq<Edit>>, end: seq<string>) returns (last: Importer)
    requires ClassEditsFit(c, edits, end) && at < |classes| && classes[at] == c && ClassAt(classes, c.name) == Some(at)
    ensures ImportLines(Fresh(classes), FileText(c.name, edits, end)) == Going(last)
    ensures last.classes == classes[at := ImportedClass(c, edits)]
  {
    hide ImportLines; hide Contains; hide FreeOf; hide SlotsText;
    assert ImportedUpTo(c, edits, 0).mySlots == c.mySlots;
    last := SlotsImported(Fresh(classes), at, c, edits, end, 0);
    OutsideImported(last, end);
    ImportAppend(Fresh(classes), SlotsText(c.name, edits, 0), end);
  }

  // One edited source file per class.
  datatype EditedFile = EditedFile(edits: seq<seq<Edit>>, end: seq<string>)

  // DesignEqualsImplementationType::sourceFilenameOnly
  function SourceFilename(c: Class): string { ToLower(c.name) + ".cpp" }

  ghost predicate NoFileShared(classes: seq<Class>)
  {
    forall j, k | 0 <= j < k < |classes| :: SourceFilename(classes[j]) != SourceFilename(classes[k])
  }

  // The files of all classes, written one after the other: a later one replaces one of its name.
  function Disk(classes: seq<Class>, texts: seq<seq<string>>): map<string, seq<string>>
    requires |texts| == |classes|
  {
    if classes == [] then map[]
    else
      var last := |classes| - 1;
      Disk(classes[..last], texts[..last])[SourceFilename(classes[last]) := texts[last]]
  }

  lemma {:induction false} OnDisk(classes: seq<Class>, texts: seq<seq<string>>, k: nat)
    requires k < |classes| == |texts|
    ensures SourceFilename(classes[k]) in Disk(classes, texts)
    ensures NoFileShared(classes) ==> Disk(classes, texts)[SourceFilename(classes[k])] == texts[k]
    decreases |classes|
  {
    hide SourceFilename;
    var last := |classes| - 1;
    if k < last {
      OnDisk(classes[..last], texts[..last], k);
      assert classes[..last][k] == classes[k] && texts[..last][k] == texts[k];
    }
  }

  // What the import reads, class after class.
  function ReadBack(classes: seq<Class>, texts: seq<seq<string>>): (r: seq<seq<string>>)
    requires |texts| == |classes|
    ensures |r| == |classes|
  {
    seq(|classes|, k requires 0 <= k < |classes| =>
      OnDisk(classes, texts, k);
      Disk(classes, texts)[SourceFilename(classes[k])])
  }

  // Every class finds its own file if and only if no two names agree after lower-casing.
  lemma FilesComeBackIff(classes: seq<Class>)
    ensures (forall texts | |texts| == |classes| :: ReadBack(classes, texts) == texts) <==> NoFileShared(classes)
  {
    if NoFileShared(classes) {
      forall texts | |texts| == |classes| ensures ReadBack(classes, texts) == texts {
        OwnFiles(classes, texts);
      }
    } else {
      var j, k :| 0 <= j < k < |classes| && SourceFilename(classes[j]) == SourceFilename(classes[k]);
      hide SourceFilename; hide Disk;
      var texts: seq<seq<string>> := seq(|classes|, i => if i == j then ["of the first"] else []);
      var r := ReadBack(classes, texts);
      assert r[j] == r[k];
      assert texts[j] != texts[k];
    }
  }

  lemma OwnFiles(classes: seq<Class>, texts: seq<seq<string>>)
    requires |texts| == |classes| && NoFileShared(classes)
    ensures ReadBack(classes, texts) == texts
  {
    forall k | 0 <= k < |classes| ensures ReadBack(classes, texts)[k] == texts[k] {
      OnDisk(classes, texts, k);
    }
  }

  ghost predicate FilesFit(classes: seq<Class>, files: seq<EditedFile>)
  {
    && |files| == |classes| && NoFileShared(classes)
    && forall k | 0 <= k < |classes| :: ClassEditsFit(classes[k], files[k].edits, files[k].end)
  }

  function Texts(classes: seq<Class>, files: seq<EditedFile>, from: nat): (r: seq<seq<string>>)
    requires from <= |classes| == |files|
    ensures |r| == |classes| - from
    decreases |classes| - from
  {
    if from == |classes| then []
    else [FileText(classes[from].name, files[from].edits, files[from].end)] + Texts(classes, files, from + 1)
  }

  ghost function ImportedClasses(classes: seq<Class>, files: seq<EditedFile>, upTo: nat): (r: seq<Class>)
    requires FilesFit(classes, files)
    ensures |r| == |classes| && forall k | 0 <= k < |r| :: r[k].name == classes[k].name
  {
    seq(|classes|, k requires 0 <= k < |classes| =>
      assert EditsFitAll(classes[k], files[k]);
      if k < upTo then ImportedClass(classes[k], files[k].edits) else classes[k])
  }

  ghost predicate EditsFitAll(c: Class, f: EditedFile)
  {
    |f.edits| == |c.mySlots| && forall j | 0 <= j < |f.edits| :: EditsFit(c.mySlots[j], f.edits[j])
  }

  lemma {:induction false} FoundAt(classes: seq<Class>, at: nat)
    requires at < |classes| && forall j | 0 <= j < at :: classes[j].name != classes[at].name
    ensures ClassAt(classes, classes[at].name) == Some(at)
    decreases |classes|
  {
    if at > 0 {
      assert classes[1..][at - 1] == classes[at];
      FoundAt(classes[1..], at - 1);
    }
  }

  lemma {:induction false} FilesImported(classes: seq<Class>, files: seq<EditedFile>, from: nat)
    requires FilesFit(classes, files) && from <= |classes|
    ensures ImportFiles(ImportedClasses(classes, files, from), Texts(classes, files, from))
            == Going(Fresh(ImportedClasses(classes, files, |classes|)))
    decreases |classes| - from
  {
    hide ImportLines; hide ClassEditsFit; hide FileText; hide ImportedClass;
    assert forall j | 0 <= j < from < |classes| :: SourceFilename(classes[j]) != SourceFilename(classes[from]);
    var now := ImportedClasses(classes, files, from);
    if from < |classes| {
      FoundAt(now, from);
      var last := ClassImported(now, from, classes[from], files[from].edits, files[from].end);
      assert last.classes == ImportedClasses(classes, files, from + 1);
      FilesImported(classes, files, from + 1);
      assert Texts(classes, files, from)[1..] == Texts(classes, files, from + 1);
    }
  }

  // Every slot of every class ends as chunk, statement, chunk, ..., statement, chunk with the
  // empty chunks left out, whatever was written into the gaps and around them.
  lemma EditsAreInterleaved(classes: seq<Class>, files: seq<EditedFile>)
    requires FilesFit(classes, files)
    ensures ImportFiles(classes, ReadBack(classes, Texts(classes, files, 0)))
            == Going(Fresh(ImportedClasses(classes, files, |classes|)))
  {
    hide ImportedClass; hide ClassEditsFit; hide ImportFiles;
    OwnFiles(classes, Texts(classes, files, 0));
    assert ImportedClasses(classes, files, 0) == classes;
    FilesImported(classes, files, 0);
  }

  // ---------- two classes in one file ----------

  // The file of a class with one slot that has no statements yet.
  lemma OneGapImported(classes: seq<Class>, c: nat, e: Edit, end: seq<string>)
    requires c < |classes| && ClassAt(classes, classes[c].name) == Some(c) && |classes[c].mySlots| == 1
    requires ClassEditsFit(Class(classes[c].name, [[]]), [[e]], end) && Kept(e.written) != []
    ensures var o := ImportLines(Fresh(classes), FileText(classes[c].name, [[e]], end));
            o.Going? && o.i.classes == WithSlot(classes, c, 0, Inserted(classes[c].mySlots[0], 0, RawCppChunk(Kept(e.written))))
  {
    var name := classes[c].name;
    var text := e.before + Gap(name, 0, 0, e.written);
    OneGapText(name, e, end);
    assert EditsFit([], [e]) && e in [e];
    hide ImportLines; hide Gap; hide Kept; hide EditsFit; hide FileText; hide Inserted; hide Contains;
    GapImported(Fresh(classes), name, c, 0, 0, e);
    var i := AfterGap(Fresh(classes), name, c, 0, 0, e);
    OutsideImported(i, end);
    ImportAppend(Fresh(classes), text, end);
  }

  lemma OneGapText(name: string, e: Edit, end: seq<string>)
    ensures FileText(name, [[e]], end) == e.before + Gap(name, 0, 0, e.written) + end
  {
    hide Gap;
    var one := e.before + Gap(name, 0, 0, e.written);
    assert SlotText(name, 0, [e], 1) == [] && SlotText(name, 0, [e], 0) == one + [] == one;
    assert SlotsText(name, [[e]], 1) == [] && SlotsText(name, [[e]], 0) == one + [] == one;
  }

  // When the names of two classes differ only in case, there is only the file of the second one.
  // It is imported for both of them, so what is written into it is there twice.
  lemma SharedFileIsImportedTwice(first: Class, second: Class, lost: seq<string>, e: Edit, end: seq<string>)
    requires first.name != second.name && ToLower(first.name) == ToLower(second.name) && second.mySlots == [[]]
    requires ClassEditsFit(second, [[e]], end) && Kept(e.written) != []
    ensures var classes := [first, second];
            var chunk := RawCppChunk(Kept(e.written));
            ImportFiles(classes, ReadBack(classes, [lost, FileText(second.name, [[e]], end)]))
            == Going(Fresh([first, second.(mySlots := [[chunk, chunk]])]))
  {
    var classes, text := [first, second], FileText(second.name, [[e]], end);
    var chunk := RawCppChunk(Kept(e.written));
    OneFileOnly(first, second, lost, text);
    assert second == Class(second.name, [[]]);
    var once, twice := [first, second.(mySlots := [[chunk]])], [first, second.(mySlots := [[chunk, chunk]])];
    SecondOf(classes);
    SecondOf(once);
    hide ImportLines; hide Kept; hide FileText; hide ClassEditsFit; hide ReadBack; hide ClassAt;
    OneGapImported(classes, 1, e, end);
    AtTheFront(first, second, chunk);
    assert [chunk] + second.mySlots[0] == [chunk];
    OneGapImported(once, 1, e, end);
    AtTheFront(first, once[1], chunk);
    assert [chunk] + once[1].mySlots[0] == [chunk, chunk];
    hide WithSlot; hide Inserted;
    TwoFiles(classes, once, twice, text);
  }

  lemma AtTheFront(first: Class, second: Class, chunk: Statement)
    requires |second.mySlots| == 1
    ensures WithSlot([first, second], 1, 0, Inserted(second.mySlots[0], 0, chunk))
            == [first, second.(mySlots := [[chunk] + second.mySlots[0]])]
  {
    var statements := second.mySlots[0];
    assert Inserted(statements, 0, chunk) == [chunk] + statements;
    assert second.mySlots[0 := [chunk] + statements] == [[chunk] + statements];
  }

  lemma OneFileOnly(first: Class, second: Class, lost: seq<string>, text: seq<string>)
    requires ToLower(first.name) == ToLower(second.name)
    ensures ReadBack([first, second], [lost, text]) == [text, text]
  {
    var classes, texts := [first, second], [lost, text];
    assert classes[..1] == [first] && texts[..1] == [lost];
    assert SourceFilename(first) == SourceFilename(second);
    assert Disk(classes, texts)[SourceFilename(second)] == text;
  }

  lemma SecondOf(classes: seq<Class>)
    requires |classes| == 2 && classes[0].name != classes[1].name
    ensures ClassAt(classes, classes[1].name) == Some(1)
  {
    assert classes[1..] == [classes[1]];
    assert ClassAt(classes[1..], classes[1].name) == Some(0);
  }

  lemma TwoFiles(classes: seq<Class>, once: seq<Class>, twice: seq<Class>, text: seq<string>)
    requires ImportLines(Fresh(classes), text).Going? && ImportLines(Fresh(classes), text).i.classes == once
    requires ImportLines(Fresh(once), text).Going? && ImportLines(Fresh(once), text).i.classes == twice
    ensures ImportFiles(classes, [text, text]) == Going(Fresh(twice))
  {
    hide ImportLines;
    assert [text, text][1..] == [text] && [text][1..] == [];
    assert ImportFiles(once, [text]) == ImportFiles(twice, []);
  }

  // ---------- nothing written, nothing changed ----------

  ghost predicate Unedited(edits: seq<Edit>)
  {
    forall e | e in edits :: Kept(e.written) == []
  }

  lemma EmptyGapIsSkipped()
    ensures Kept(EmptyGap()) == []
  {
    var g := EmptyGap();
    HelperIsSkipped();
    assert Skipped("") by { assert Trim("") == ""; }
    hide Skipped; hide Helper;
    assert g[1..][1..][1..][1..][1..][1..] == [];
    assert Kept(g[1..][1..][1..][1..][1..]) == [];
    assert Kept(g[1..][1..][1..][1..]) == [];
    assert Kept(g[1..][1..][1..]) == [];
    assert Kept(g[1..][1..]) == [];
    assert Kept(g[1..]) == [];
  }

  lemma HelperIsSkipped()
    ensures Skipped("\t" + Helper())
  {
    HelperEnds();
    hide Helper;
    var line := "\t" + Helper();
    assert line[1..] == Helper();
    assert TrimLeft(line) == TrimLeft(line[1..]) == Helper();
  }

  lemma HelperEnds()
    ensures Helper() != "" && Helper()[0] == '/' && Helper()[|Helper()| - 1] == '='
  {
  }

  lemma {:induction false} UneditedStays(statements: seq<Statement>, edits: seq<Edit>, upTo: nat)
    requires |edits| == |statements| + 1 && Unedited(edits) && 0 < upTo <= |edits|
    ensures Interleaved(statements, edits, upTo) == statements[..upTo - 1]
  {
    hide Kept;
    assert edits[upTo - 1] in edits && ChunkAt(edits[upTo - 1]) == [];
    if upTo == 1 {
      assert Interleaved(statements, edits, 0) == [];
    } else {
      UneditedStays(statements, edits, upTo - 1);
      assert statements[..upTo - 1] == statements[..upTo - 2] + [statements[upTo - 2]];
    }
  }

  lemma UneditedChangesNothing(classes: seq<Class>, files: seq<EditedFile>)
    requires FilesFit(classes, files)
    requires forall k, j | 0 <= k < |files| && 0 <= j < |files[k].edits| :: Unedited(files[k].edits[j])
    ensures ImportFiles(classes, ReadBack(classes, Texts(classes, files, 0))) == Going(Fresh(classes))
  {
    EditsAreInterleaved(classes, files);
    AllStay(classes, files);
    hide *;
  }

  lemma AllStay(classes: seq<Class>, files: seq<EditedFile>)
    requires FilesFit(classes, files)
    requires forall k, j | 0 <= k < |files| && 0 <= j < |files[k].edits| :: Unedited(files[k].edits[j])
    ensures ImportedClasses(classes, files, |classes|) == classes
  {
    hide Unedited; hide ImportedClass; hide NoFileShared;
    forall k | 0 <= k < |classes| ensures ImportedClass(classes[k], files[k].edits) == classes[k] {
      ClassStays(classes[k], files[k]);
    }
  }

  lemma ClassStays(c: Class, file: EditedFile)
    requires ClassEditsFit(c, file.edits, file.end) && forall j | 0 <= j < |file.edits| :: Unedited(file.edits[j])
    ensures EditsFitAll(c, file) && ImportedClass(c, file.edits) == c
  {
    hide Unedited; hide Interleaving;
    forall j | 0 <= j < |c.mySlots| ensures Interleaving(c.mySlots[j], file.edits[j]) == c.mySlots[j] {
      SlotStays(c.mySlots[j], file.edits[j]);
    }
    assert ImportedClass(c, file.edits).mySlots == c.mySlots;
  }

  lemma SlotStays(statements: seq<Statement>, edits: seq<Edit>)
    requires EditsFit(statements, edits) && Unedited(edits)
    ensures |edits| == |statements| + 1 && Interleaving(statements, edits) == statements
  {
    UneditedStays(statements, edits, |edits|);
    assert statements[..|statements|] == statements;
  }
}
