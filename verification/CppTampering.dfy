// What the importer makes of lines the generator did not write: when it refuses a file, when the
// program would crash, and what a gap without its own head is taken for.
module CppTampering {
  import opened Wrappers
  import opened Text
  import opened CppEditMode
  import opened CppReimport
  import opened CppChunks

  // ---------- the text behind a prefix ----------

  // a is what stands before the first occurrence of the prefix, b what stands behind it.
  ghost predicate FirstAt(line: string, prefix: string, a: string, b: string)
  {
    line == a + prefix + b && NoneBefore(line, prefix, |a|)
  }

  lemma FirstOccurrence(line: string, prefix: string) returns (a: string, b: string)
    requires Contains(line, prefix)
    ensures FirstAt(line, prefix, a, b)
  {
    var j: nat :| j <= |line| && OccursAt(line, prefix, j);
    var k := 0;
    while !OccursAt(line, prefix, k)
      invariant k <= j && NoneBefore(line, prefix, k)
      decreases j - k
    {
      k := k + 1;
    }
    a, b := line[..k], line[k + |prefix|..];
    assert line[k..k + |prefix|] == prefix;
    assert line == a + prefix + b;
  }

  lemma FirstIsUnique(line: string, prefix: string, a: string, b: string, c: string, d: string)
    requires FirstAt(line, prefix, a, b) && FirstAt(line, prefix, c, d)
    ensures a == c && b == d
  {
    assert OccursAt(line, prefix, |a|) by { assert line[|a|..|a| + |prefix|] == prefix; }
    assert OccursAt(line, prefix, |c|) by { assert line[|c|..|c| + |prefix|] == prefix; }
    assert a == line[..|a|] && c == line[..|c|] && b == line[|a| + |prefix|..] && d == line[|c| + |prefix|..];
  }

  lemma SplitAtFirst(line: string, prefix: string, a: string, b: string)
    requires prefix != "" && FirstAt(line, prefix, a, b)
    ensures Contains(line, prefix) && Split(line, prefix) == [a] + Split(b, prefix)
    ensures |Split(line, prefix)| == 2 <==> !Contains(b, prefix)
    ensures !Contains(b, prefix) ==> Split(line, prefix)[1] == b
  {
    ContainsPart(a, prefix, b);
    SplitFirst(a, prefix, b);
    if Contains(b, prefix) {
      var c, d := FirstOccurrence(b, prefix);
      SplitFirst(c, prefix, d);
    } else {
      SplitNone(b, prefix);
    }
  }

  ghost predicate Twice(line: string, prefix: string)
  {
    exists a, b :: FirstAt(line, prefix, a, b) && Contains(b, prefix)
  }

  ghost predicate NoNumberBehind(line: string, prefix: string)
  {
    exists a, b :: FirstAt(line, prefix, a, b) && ParseInt(b, 32) == None
  }

  lemma NumberBehind(line: string, prefix: string)
    requires prefix != "" && Contains(line, prefix)
    ensures Twice(line, prefix) <==> |Split(line, prefix)| != 2
    ensures !Twice(line, prefix) ==> (NoNumberBehind(line, prefix) <==> ParseInt(Split(line, prefix)[1], 32) == None)
  {
    hide ParseInt; hide Split; hide FirstAt; hide Contains;
    var a, b := FirstOccurrence(line, prefix);
    SplitAtFirst(line, prefix, a, b);
    if Twice(line, prefix) {
      var c, d :| FirstAt(line, prefix, c, d) && Contains(d, prefix);
      FirstIsUnique(line, prefix, a, b, c, d);
    }
    if NoNumberBehind(line, prefix) {
      var c, d :| FirstAt(line, prefix, c, d) && ParseInt(d, 32) == None;
      FirstIsUnique(line, prefix, a, b, c, d);
    }
  }

  // ---------- when a file is refused and when the program crashes ----------

  // Before the closing comment of the head only the first of these that the line holds counts.
  ghost predicate SpoiltHead(i: Importer, line: string)
  {
    if Contains(line, "Class: ") then Twice(line, "Class: ")
    else if Contains(line, "SlotIndex: ") then Twice(line, "SlotIndex: ") || NoNumberBehind(line, "SlotIndex: ")
    else if Contains(line, "StatementInsertIndex: ") then
      Twice(line, "StatementInsertIndex: ") || NoNumberBehind(line, "StatementInsertIndex: ")
    else Contains(line, BeginCloser()) && (i.className == "" || i.slotIndex == -1 || i.insertIndex == -1)
  }

  // A line makes the importer refuse the file if and only if it stands in the head of a gap and
  // spoils it: a value twice, an index that is no number, or a head that ends without all values.
  lemma RefusedIff(i: Importer, line: string)
    ensures ImportLine(i, line).Refused? <==> i.inBeginComment && !i.inChunk && !PassedOver(line) && SpoiltHead(i, line)
    ensures ImportLine(i, line).Refused? ==> ImportLine(i, line).i.classes == i.classes
  {
    SkippedIff(line);
    hide Skipped; hide PassedOver; hide ParseInt; hide Split; hide Contains; hide Twice; hide NoNumberBehind;
    PrefixTexts();
    hide ClassPrefix; hide SlotIndexPrefix; hide InsertIndexPrefix; hide BeginCloser; hide EndDelimiter; hide BeginDelimiter;
    if Contains(line, ClassPrefix()) { NumberBehind(line, ClassPrefix()); }
    if Contains(line, SlotIndexPrefix()) { NumberBehind(line, SlotIndexPrefix()); }
    if Contains(line, InsertIndexPrefix()) { NumberBehind(line, InsertIndexPrefix()); }
  }

  lemma PrefixTexts()
    ensures ClassPrefix() == "Class: " && SlotIndexPrefix() == "SlotIndex: " && InsertIndexPrefix() == "StatementInsertIndex: "
  {
  }

  // The first class with that name has that slot.
  ghost predicate NamesSlot(classes: seq<Class>, name: string, slot: int)
  {
    exists k :: 0 <= k < |classes| && FirstNamed(classes, name, k) && 0 <= slot < |classes[k].mySlots|
  }

  ghost predicate FirstNamed(classes: seq<Class>, name: string, k: nat)
  {
    k < |classes| && classes[k].name == name && forall j | 0 <= j < k :: classes[j].name != name
  }

  lemma {:induction false} ClassAtIff(classes: seq<Class>, name: string, k: nat)
    ensures ClassAt(classes, name) == Some(k) <==> FirstNamed(classes, name, k)
    decreases |classes|
  {
    if classes != [] && classes[0].name != name && k > 0 {
      ClassAtIff(classes[1..], name, k - 1);
      if FirstNamed(classes, name, k) {
        assert forall j | 0 <= j < k - 1 :: classes[1..][j] == classes[j + 1];
      }
      if FirstNamed(classes[1..], name, k - 1) {
        assert forall j | 0 < j < k :: classes[j] == classes[1..][j - 1];
      }
    }
  }

  // The program crashes exactly at the end of a chunk with text when the head names no class of the
  // project or no slot of the class.
  lemma CrashedIff(i: Importer, line: string)
    ensures ImportLine(i, line).Crashed?
            <==> i.inChunk && i.chunk != [] && !PassedOver(line) && Contains(line, EndDelimiter())
                 && !NamesSlot(i.classes, i.className, i.slotIndex)
    ensures ImportLine(i, line).Crashed? ==> ImportLine(i, line).i.classes == i.classes
  {
    SkippedIff(line);
    hide Skipped; hide PassedOver; hide ParseInt; hide Split; hide Contains; hide EndDelimiter; hide BeginDelimiter;
    InsertCrashesIff(i);
    hide Insert; hide NamesSlot;
  }

  lemma InsertCrashesIff(i: Importer)
    ensures Insert(i).Crashed? <==> !NamesSlot(i.classes, i.className, i.slotIndex)
    ensures !Insert(i).Refused? && (Insert(i).Crashed? ==> Insert(i).i == i)
  {
    match ClassAt(i.classes, i.className) {
      case None =>
        if NamesSlot(i.classes, i.className, i.slotIndex) {
          var k :| 0 <= k < |i.classes| && FirstNamed(i.classes, i.className, k);
          ClassAtIff(i.classes, i.className, k);
        }
      case Some(c) =>
        ClassAtIff(i.classes, i.className, c);
        if NamesSlot(i.classes, i.className, i.slotIndex) {
          var k :| 0 <= k < |i.classes| && FirstNamed(i.classes, i.className, k) && 0 <= i.slotIndex < |i.classes[k].mySlots|;
          ClassAtIff(i.classes, i.className, k);
        }
    }
  }

  // The import ends there: what was imported before stays, nothing behind it is looked at, in that
  // file or in later ones.
  lemma ImportStops(classes: seq<Class>, before: seq<string>, i: Importer, line: string, behind: seq<string>,
                    later: seq<seq<string>>)
    requires ImportLines(Fresh(classes), before) == Going(i) && !ImportLine(i, line).Going?
    ensures ImportFiles(classes, [before + [line] + behind] + later) == ImportLine(i, line)
    ensures ImportLine(i, line).i.classes == i.classes
  {
    RefusedIff(i, line);
    CrashedIff(i, line);
    hide ImportLine; hide PassedOver; hide SpoiltHead; hide NamesSlot; hide Contains;
    var file := before + [line] + behind;
    assert file == before + ([line] + behind);
    ImportAppend(Fresh(classes), before, [line] + behind);
    OneByOne(i, line, behind);
    hide ImportLines;
    assert ([file] + later)[0] == file;
  }

  // ---------- where a chunk goes ----------

  // Behind the head of a gap its values are known; the offset goes on from the gap before if that
  // was one of the same slot of the same class, and starts again otherwise.
  lemma HeadIs(i: Importer, name: string, slot: nat, index: nat)
    requires Idle(i) && name != "" && !Contains(name, "Class: ") && slot < 0x8000_0000 && index < 0x8000_0000
    ensures var o := ImportLines(i, GapHead(name, slot, index));
            && o.Going? && o.i.inChunk && o.i.chunk == [] && o.i.classes == i.classes
            && o.i.className == name && o.i.slotIndex == slot && o.i.insertIndex == index
            && o.i.rollingOffset == (if name == i.lastSeenClass && slot == i.lastSeenSlotIndex then i.rollingOffset else 0)
  {
    PrefixTexts();
    hide ImportLines; hide GapHead; hide Contains;
    HeadImported(i, name, slot, index);
  }

  // A gap that the file does not close is lost, and the next file does not notice.
  lemma UnfinishedGapIsLost(classes: seq<Class>, name: string, slot: nat, index: nat, written: seq<string>, later: seq<seq<string>>)
    requires name != "" && !Contains(name, "Class: ") && slot < 0x8000_0000 && index < 0x8000_0000
    requires FreeOf(written, EndDelimiter())
    ensures ImportFiles(classes, [GapHead(name, slot, index) + written] + later) == ImportFiles(classes, later)
  {
    var i, file := Fresh(classes), GapHead(name, slot, index) + written;
    HeadIs(i, name, slot, index);
    hide GapHead; hide FreeOf; hide Contains;
    ImportAppend(i, GapHead(name, slot, index), written);
    WrittenImported(ImportLines(i, GapHead(name, slot, index)).i, written);
    hide ImportLines;
    assert ([file] + later)[0] == file && ([file] + later)[1..] == later;
  }

  // An index in front of the list or behind it means its nearer end; what is behind moves up.
  lemma InsertedIs(xs: seq<Statement>, at: int, x: Statement)
    ensures |Inserted(xs, at, x)| == |xs| + 1
    ensures at <= 0 ==> Inserted(xs, at, x)[0] == x
    ensures at >= |xs| ==> Inserted(xs, at, x)[|xs|] == x
    ensures 0 <= at <= |xs| ==> Inserted(xs, at, x)[at] == x
    ensures forall k | 0 <= k < at && k < |xs| :: Inserted(xs, at, x)[k] == xs[k]
    ensures forall k | 0 <= k && at <= k < |xs| :: Inserted(xs, at, x)[k + 1] == xs[k]
  {
    var k := if at < 0 then 0 else if at > |xs| then |xs| else at;
    var all := Inserted(xs, at, x);
    assert all == xs[..k] + [x] + xs[k..];
    hide Inserted;
    PutAt(xs, k, x, all);
  }

  lemma PutAt(xs: seq<Statement>, k: nat, x: Statement, all: seq<Statement>)
    requires k <= |xs| && all == xs[..k] + [x] + xs[k..]
    ensures |all| == |xs| + 1 && all[k] == x
    ensures forall j | 0 <= j < k :: all[j] == xs[j]
    ensures forall j | k <= j < |xs| :: all[j + 1] == xs[j]
  {
  }

  // A pair of delimiters without values of its own.
  function BareGap(written: seq<string>): seq<string>
  {
    [Comment(BeginDelimiter()), Comment(BeginCloser())] + written + [Comment(EndDelimiter())]
  }

  // It is taken for one more gap behind the last one: its text goes in behind what that one put there.
  lemma BareGapImported(i: Importer, written: seq<string>, c: nat)
    requires Idle(i) && i.className != "" && i.slotIndex != -1 && i.insertIndex != -1
    requires FreeOf(written, EndDelimiter()) && Kept(written) != []
    requires FirstNamed(i.classes, i.className, c) && 0 <= i.slotIndex < |i.classes[c].mySlots|
    ensures var statements := Inserted(i.classes[c].mySlots[i.slotIndex], i.insertIndex + i.rollingOffset, RawCppChunk(Kept(written)));
            ImportLines(i, BareGap(written))
            == Going(i.(classes := WithSlot(i.classes, c, i.slotIndex, statements), rollingOffset := i.rollingOffset + 1))
  {
    hide ImportLine; hide Kept; hide Comment; hide BeginDelimiter; hide BeginCloser; hide EndDelimiter; hide FreeOf;
    var begin, closer, end := Comment(BeginDelimiter()), Comment(BeginCloser()), Comment(EndDelimiter());
    var i1 := i.(inBeginComment := true);
    var i2 := i1.(inChunk := true);
    var i3 := i2.(chunk := Kept(written));
    BeginLine(i);
    CloserLine(i1);
    FromAnEmptyChunk(i2, written);
    ClassAtIff(i.classes, i.className, c);
    EndLine(i3);
    hide ImportLines;
    assert BareGap(written) == [begin] + ([closer] + (written + [end]));
    OneByOne(i, begin, [closer] + (written + [end]));
    OneByOne(i1, closer, written + [end]);
    ImportAppend(i2, written, [end]);
    OneByOne(i3, end, []);
    assert [end] + [] == [end];
    assert ImportLines(Closed(Insert(i3)).i, []) == Closed(Insert(i3)) by { NoLinesLeft(Closed(Insert(i3)).i); }
  }

  lemma FromAnEmptyChunk(i: Importer, written: seq<string>)
    requires i.inChunk && i.chunk == [] && FreeOf(written, EndDelimiter())
    ensures ImportLines(i, written) == Going(i.(chunk := Kept(written)))
  {
    WrittenImported(i, written);
    hide *;
    NothingInFront(i.chunk, Kept(written));
  }

  lemma NoLinesLeft(i: Importer)
    ensures ImportLines(i, []) == Going(i)
  {
  }
}
