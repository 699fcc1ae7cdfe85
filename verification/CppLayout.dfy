// Where everything stands in a generated source file, by line numbers: the preamble, then slot
// after slot its header, every statement in order behind its own gap, a last gap and its closing.
module CppLayout {
  import opened Text
  import opened CppEditMode
  import opened CppSourceFile

  // Lines from..to are gap number k and, directly behind it, a statement between blank lines.
  predicate StatementAt(lines: seq<string>, from: nat, to: nat, className: string, slot: nat, k: nat, s: Statement)
  {
    from <= to <= |lines| && lines[from..to] == Gap(className, slot, k, EmptyGap()) + ([""] + s.lines + [""])
  }

  // Lines from..to are the last gap and what closes the slot.
  predicate EndAt(lines: seq<string>, from: nat, to: nat, className: string, slot: nat, k: nat, closing: seq<string>)
  {
    from <= to <= |lines| && lines[from..to] == Gap(className, slot, k, EmptyGap()) + closing
  }

  // The statements from number k on and the end of the slot, one right behind the other.
  ghost predicate StatementsStand(lines: seq<string>, to: nat, className: string, slot: nat, frame: Frame,
                                  statements: seq<Statement>, k: nat, starts: seq<nat>)
  {
    && |starts| == |statements| + 1 && k <= |statements|
    && (forall i | k <= i < |statements| :: StatementAt(lines, starts[i], starts[i + 1], className, slot, i, statements[i]))
    && EndAt(lines, starts[|statements|], to, className, slot, |statements|, frame.closing)
  }

  // Lines from..to hold one slot.
  ghost predicate SlotStands(lines: seq<string>, from: nat, to: nat, className: string, slot: nat, frame: Frame,
                             statements: seq<Statement>, starts: seq<nat>)
  {
    && StatementsStand(lines, to, className, slot, frame, statements, 0, starts)
    && from <= starts[0] <= |lines| && lines[from..starts[0]] == frame.header
  }

  // The slots from number j on, one right behind the other up to the end of the file.
  ghost predicate SlotsStand(lines: seq<string>, c: Class, frames: seq<Frame>, j: nat, slots: seq<nat>, starts: seq<seq<nat>>)
  {
    && |slots| == |c.mySlots| + 1 == |frames| + 1 == |starts| + 1 && slots[|c.mySlots|] == |lines|
    && forall i | j <= i < |c.mySlots| ::
         SlotStands(lines, slots[i], slots[i + 1], c.name, i, frames[i], c.mySlots[i], starts[i])
  }

  ghost predicate ClassStands(lines: seq<string>, c: Class, preamble: seq<string>, frames: seq<Frame>, slots: seq<nat>,
                              starts: seq<seq<nat>>)
  {
    SlotsStand(lines, c, frames, 0, slots, starts) && slots[0] <= |lines| && lines[..slots[0]] == preamble
  }

  // ---------- the text piece by piece ----------

  function Body(className: string, slot: nat, statements: seq<Statement>, k: nat): seq<string>
    requires k <= |statements|
    decreases |statements| - k
  {
    var gap := Gap(className, slot, k, EmptyGap());
    if k == |statements| then gap
    else gap + ([""] + statements[k].lines + [""]) + Body(className, slot, statements, k + 1)
  }

  function SlotBody(c: Class, frames: seq<Frame>, j: nat): seq<string>
    requires j < |c.mySlots| == |frames|
  {
    Body(c.name, j, c.mySlots[j], 0) + frames[j].closing
  }

  function ClassBody(c: Class, frames: seq<Frame>, j: nat): seq<string>
    requires j <= |c.mySlots| == |frames|
    decreases |c.mySlots| - j
  {
    if j == |c.mySlots| then [] else frames[j].header + SlotBody(c, frames, j) + ClassBody(c, frames, j + 1)
  }

  lemma {:induction false} SlotTextIsBody(pending: seq<string>, frame: Frame, className: string, slot: nat,
                                          statements: seq<Statement>, k: nat)
    requires k <= |statements|
    ensures var edits := GeneratedSlot(pending, frame, statements);
            SlotText(className, slot, edits, k) == edits[k].before + Body(className, slot, statements, k)
    decreases |statements| - k
  {
    var edits := GeneratedSlot(pending, frame, statements);
    var gap := Gap(className, slot, k, EmptyGap());
    hide Gap; hide EmptyGap;
    if k == |statements| {
      assert SlotText(className, slot, edits, k + 1) == [];
      assert edits[k].before + gap + [] == edits[k].before + gap;
    } else {
      SlotTextIsBody(pending, frame, className, slot, statements, k + 1);
      var a, b, c := edits[k].before, [""] + statements[k].lines + [""], Body(className, slot, statements, k + 1);
      assert edits[k + 1].before == b;
      hide SlotText; hide Body;
      assert a + gap + (b + c) == a + (gap + b + c);
    }
  }

  // From slot number j on the text with its gaps is what the class writes.
  ghost predicate BodyFrom(c: Class, preamble: seq<string>, frames: seq<Frame>, j: nat)
    requires j <= |c.mySlots| == |frames|
  {
    var f := GeneratedFile(c, preamble, frames);
    SlotsText(c.name, f.edits, j) + f.end == Pending(preamble, frames, j) + ClassBody(c, frames, j)
  }

  lemma {:induction false} SlotsTextIsBody(c: Class, preamble: seq<string>, frames: seq<Frame>, j: nat)
    requires j <= |c.mySlots| == |frames|
    ensures BodyFrom(c, preamble, frames, j)
    decreases |c.mySlots| - j
  {
    hide BodyFrom;
    if j < |c.mySlots| {
      SlotsTextIsBody(c, preamble, frames, j + 1);
      OneSlotMore(c, preamble, frames, j);
    } else {
      NoSlotsLeft(c, preamble, frames);
    }
  }

  lemma OneSlotMore(c: Class, preamble: seq<string>, frames: seq<Frame>, j: nat)
    requires j < |c.mySlots| == |frames| && BodyFrom(c, preamble, frames, j + 1)
    ensures BodyFrom(c, preamble, frames, j)
  {
    var f := GeneratedFile(c, preamble, frames);
    OneSlotText(c, preamble, frames, j);
    hide GeneratedFile; hide SlotsText; hide ClassBody; hide SlotText; hide Body;
    SlotsTextUnroll(c.name, f.edits, j);
    ClassBodyStep(c, frames, j);
    Shifted(Pending(preamble, frames, j), frames[j].header, Body(c.name, j, c.mySlots[j], 0), frames[j].closing,
            ClassBody(c, frames, j + 1), SlotsText(c.name, f.edits, j + 1), f.end);
  }

  lemma NoSlotsLeft(c: Class, preamble: seq<string>, frames: seq<Frame>)
    requires |c.mySlots| == |frames|
    ensures BodyFrom(c, preamble, frames, |frames|)
  {
    NothingLeft(GeneratedFile(c, preamble, frames).end);
  }

  lemma SlotsTextUnroll(className: string, edits: seq<seq<Edit>>, j: nat)
    requires j < |edits|
    ensures SlotsText(className, edits, j) == SlotText(className, j, edits[j], 0) + SlotsText(className, edits, j + 1)
  {
    hide SlotText;
  }

  lemma NothingLeft(x: seq<string>)
    ensures [] + x == x == x + []
  {
  }

  lemma ClassBodyStep(c: Class, frames: seq<Frame>, j: nat)
    requires j < |c.mySlots| == |frames|
    ensures ClassBody(c, frames, j)
            == frames[j].header + (Body(c.name, j, c.mySlots[j], 0) + frames[j].closing) + ClassBody(c, frames, j + 1)
  {
    hide Body;
  }

  lemma OneSlotText(c: Class, preamble: seq<string>, frames: seq<Frame>, j: nat)
    requires j < |c.mySlots| == |frames|
    ensures var f := GeneratedFile(c, preamble, frames);
            && |f.edits| == |c.mySlots| && Pending(preamble, frames, j + 1) == frames[j].closing
            && SlotText(c.name, j, f.edits[j], 0)
               == Pending(preamble, frames, j) + frames[j].header + Body(c.name, j, c.mySlots[j], 0)
  {
    hide Body; hide SlotText;
    SlotTextIsBody(Pending(preamble, frames, j), frames[j], c.name, j, c.mySlots[j], 0);
  }

  lemma Shifted(p: seq<string>, h: seq<string>, b: seq<string>, x: seq<string>, rest: seq<string>, later: seq<string>,
                end: seq<string>)
    requires later + end == x + rest
    ensures p + h + b + later + end == p + (h + (b + x) + rest)
  {
    assert p + h + b + later + end == p + h + b + (later + end);
    assert p + h + b + (x + rest) == p + (h + (b + x) + rest);
  }

  // ---------- from pieces to line numbers ----------

  // A piece of a text, wherever it stands.
  lemma PieceAt(before: seq<string>, piece: seq<string>, after: seq<string>)
    ensures var lines := before + piece + after;
            |before| + |piece| <= |lines| && lines[|before|..|before| + |piece|] == piece
  {
  }

  lemma {:induction false} FindStatements(before: seq<string>, className: string, slot: nat, frame: Frame,
                                          statements: seq<Statement>, k: nat, after: seq<string>)
    returns (starts: seq<nat>)
    requires k <= |statements|
    ensures var body := Body(className, slot, statements, k) + frame.closing;
            StatementsStand(before + body + after, |before| + |body|, className, slot, frame, statements, k, starts)
    ensures |starts| == |statements| + 1 && starts[k] == |before|
    decreases |statements| - k
  {
    hide Gap; hide EmptyGap; hide StatementsStand;
    if k == |statements| {
      starts := seq(|statements| + 1, i => |before|);
      LastGapStands(before, className, slot, frame, statements, after, starts);
    } else {
      var piece := Gap(className, slot, k, EmptyGap()) + ([""] + statements[k].lines + [""]);
      var later := FindStatements(before + piece, className, slot, frame, statements, k + 1, after);
      StatementJoins(before, piece, className, slot, frame, statements, k, after, later);
      starts := later[k := |before|];
    }
  }

  lemma LastGapStands(before: seq<string>, className: string, slot: nat, frame: Frame, statements: seq<Statement>,
                      after: seq<string>, starts: seq<nat>)
    requires |starts| == |statements| + 1 && starts[|statements|] == |before|
    ensures var body := Body(className, slot, statements, |statements|) + frame.closing;
            StatementsStand(before + body + after, |before| + |body|, className, slot, frame, statements, |statements|, starts)
  {
    hide Gap; hide EmptyGap;
    PieceAt(before, Body(className, slot, statements, |statements|) + frame.closing, after);
  }

  lemma StatementJoins(before: seq<string>, piece: seq<string>, className: string, slot: nat, frame: Frame,
                       statements: seq<Statement>, k: nat, after: seq<string>, later: seq<nat>)
    requires k < |statements| && piece == Gap(className, slot, k, EmptyGap()) + ([""] + statements[k].lines + [""])
    requires var body := Body(className, slot, statements, k + 1) + frame.closing;
             StatementsStand(before + piece + body + after, |before + piece| + |body|, className, slot, frame, statements, k + 1, later)
    requires |later| == |statements| + 1 && later[k + 1] == |before + piece|
    ensures var body := Body(className, slot, statements, k) + frame.closing;
            StatementsStand(before + body + after, |before| + |body|, className, slot, frame, statements, k, later[k := |before|])
  {
    var rest := Body(className, slot, statements, k + 1);
    assert Body(className, slot, statements, k) == piece + rest;
    hide Gap; hide EmptyGap; hide Body; hide EndAt;
    Regrouped(before, piece, rest, frame.closing, after);
    PieceAt(before, piece, rest + frame.closing + after);
    assert StatementAt(before + piece + (rest + frame.closing) + after, |before|, |before + piece|, className, slot, k, statements[k]);
    hide StatementAt;
  }

  lemma Regrouped(before: seq<string>, piece: seq<string>, b: seq<string>, c: seq<string>, after: seq<string>)
    ensures before + (piece + b + c) + after == before + piece + (b + c) + after == before + piece + (b + c + after)
    ensures |before| + |piece + b + c| == |before + piece| + |b + c|
  {
  }

  lemma {:induction false} FindSlots(before: seq<string>, c: Class, frames: seq<Frame>, j: nat)
    returns (slots: seq<nat>, starts: seq<seq<nat>>)
    requires j <= |c.mySlots| == |frames|
    ensures SlotsStand(before + ClassBody(c, frames, j), c, frames, j, slots, starts)
    ensures |slots| == |c.mySlots| + 1 == |starts| + 1 && slots[j] == |before|
    decreases |c.mySlots| - j
  {
    hide Body; hide StatementsStand; hide SlotsStand; hide SlotBody;
    if j == |c.mySlots| {
      slots, starts := seq(|c.mySlots| + 1, i => |before|), seq(|c.mySlots|, i => []);
      NoSlotStands(before, c, frames, slots, starts);
    } else {
      var h, body, rest := frames[j].header, SlotBody(c, frames, j), ClassBody(c, frames, j + 1);
      var mine := FindStatements(before + h, c.name, j, frames[j], c.mySlots[j], 0, rest);
      SlotBodyIs(c, frames, j);
      var moreSlots, moreStarts := FindSlots(before + h + body, c, frames, j + 1);
      SlotJoins(before, h, body, rest, c, frames, j, mine, moreSlots, moreStarts);
      slots, starts := moreSlots[j := |before|], moreStarts[j := mine];
    }
  }

  lemma SlotBodyIs(c: Class, frames: seq<Frame>, j: nat)
    requires j < |c.mySlots| == |frames|
    ensures SlotBody(c, frames, j) == Body(c.name, j, c.mySlots[j], 0) + frames[j].closing
  {
  }

  lemma NoSlotStands(before: seq<string>, c: Class, frames: seq<Frame>, slots: seq<nat>, starts: seq<seq<nat>>)
    requires |slots| == |c.mySlots| + 1 == |frames| + 1 == |starts| + 1 && slots[|c.mySlots|] == |before|
    ensures SlotsStand(before + ClassBody(c, frames, |c.mySlots|), c, frames, |c.mySlots|, slots, starts)
  {
    hide SlotStands;
    assert ClassBody(c, frames, |c.mySlots|) == [];
    assert |before + ClassBody(c, frames, |c.mySlots|)| == |before|;
    hide ClassBody;
  }

  lemma SlotJoins(before: seq<string>, h: seq<string>, body: seq<string>, rest: seq<string>, c: Class, frames: seq<Frame>,
                  j: nat, mine: seq<nat>, slots: seq<nat>, starts: seq<seq<nat>>)
    requires j < |c.mySlots| == |frames| && h == frames[j].header && |slots| == |c.mySlots| + 1 == |starts| + 1
    requires SlotsStand(before + h + body + rest, c, frames, j + 1, slots, starts) && slots[j + 1] == |before + h + body|
    requires |c.mySlots[j]| + 1 == |mine| && mine[0] == |before + h|
    requires StatementsStand(before + h + body + rest, |before + h| + |body|, c.name, j, frames[j], c.mySlots[j], 0, mine)
    ensures SlotsStand(before + (h + body + rest), c, frames, j, slots[j := |before|], starts[j := mine])
  {
    var lines := before + h + body + rest;
    assert before + (h + body + rest) == lines;
    assert lines[|before|..|before + h|] == h;
    hide StatementsStand;
    assert SlotStands(lines, |before|, slots[j + 1], c.name, j, frames[j], c.mySlots[j], mine);
    hide SlotStands;
  }

  // The text the generator writes for a class, line by line.
  lemma GeneratedTextStands(c: Class, preamble: seq<string>, frames: seq<Frame>) returns (slots: seq<nat>, starts: seq<seq<nat>>)
    requires |frames| == |c.mySlots|
    ensures ClassStands(GeneratedText(c, preamble, frames), c, preamble, frames, slots, starts)
  {
    SlotsTextIsBody(c, preamble, frames, 0);
    slots, starts := FindSlots(preamble, c, frames, 0);
    hide SlotsStand; hide ClassBody; hide SlotsText;
    assert GeneratedText(c, preamble, frames) == preamble + ClassBody(c, frames, 0);
  }

  // So line number i of statement number k of slot number j stands behind the statement's own gap
  // and a blank line.
  lemma StatementStands(lines: seq<string>, c: Class, preamble: seq<string>, frames: seq<Frame>, slots: seq<nat>,
                        starts: seq<seq<nat>>, j: nat, k: nat, i: nat)
    requires ClassStands(lines, c, preamble, frames, slots, starts)
    requires j < |c.mySlots| && k < |c.mySlots[j]| && i < |c.mySlots[j][k].lines|
    ensures |starts| == |c.mySlots| && |starts[j]| == |c.mySlots[j]| + 1
    ensures var at := starts[j][k] + |Gap(c.name, j, k, EmptyGap())|;
            at + 1 + i < |lines| && lines[at] == "" && lines[at + 1 + i] == c.mySlots[j][k].lines[i]
  {
    StatementIsThere(lines, c, preamble, frames, slots, starts, j, k);
    hide *;
    LineInPiece(lines, starts[j][k], starts[j][k + 1], Gap(c.name, j, k, EmptyGap()), c.mySlots[j][k].lines, i);
  }

  lemma StatementIsThere(lines: seq<string>, c: Class, preamble: seq<string>, frames: seq<Frame>, slots: seq<nat>,
                         starts: seq<seq<nat>>, j: nat, k: nat)
    requires ClassStands(lines, c, preamble, frames, slots, starts) && j < |c.mySlots| && k < |c.mySlots[j]|
    ensures |starts| == |c.mySlots| && |starts[j]| == |c.mySlots[j]| + 1
    ensures var s := c.mySlots[j][k].lines;
            && starts[j][k] <= starts[j][k + 1] <= |lines|
            && lines[starts[j][k]..starts[j][k + 1]] == Gap(c.name, j, k, EmptyGap()) + ([""] + s + [""])
  {
    hide Gap; hide EmptyGap; hide EndAt;
    assert SlotStands(lines, slots[j], slots[j + 1], c.name, j, frames[j], c.mySlots[j], starts[j]);
    assert StatementAt(lines, starts[j][k], starts[j][k + 1], c.name, j, k, c.mySlots[j][k]);
  }

  lemma LineInPiece(lines: seq<string>, from: nat, to: nat, gap: seq<string>, s: seq<string>, i: nat)
    requires from <= to <= |lines| && lines[from..to] == gap + ([""] + s + [""]) && i < |s|
    ensures from + |gap| + 1 + i < |lines| && lines[from + |gap|] == "" && lines[from + |gap| + 1 + i] == s[i]
  {
    var piece := lines[from..to];
    assert piece[|gap|] == "" && piece[|gap| + 1 + i] == s[i];
    assert lines[from + |gap|] == piece[|gap|] && lines[from + |gap| + 1 + i] == piece[|gap| + 1 + i];
  }
}
