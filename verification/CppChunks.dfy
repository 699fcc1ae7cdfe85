// What a re-import makes of the lines that were written: which of them are passed over, and where
// the chunks and the old statements end up, by their numbers.
module CppChunks {
  import opened Text
  import opened CppEditMode
  import opened CppReimport

  // The line is one of the three texts with nothing but white space around it.
  ghost predicate PassedOver(line: string)
  {
    exists a, t, b :: Around(line, a, t, b) && (t == "" || t == "//" || t == Helper())
  }

  // The import passes over exactly blank lines, empty comments and the helper comment.
  lemma SkippedIff(line: string)
    ensures Skipped(line) <==> PassedOver(line)
  {
    HelperEnds();
    hide Helper;
    if Skipped(line) {
      var a, b := TrimParts(line);
      assert Around(line, a, Trim(line), b);
    }
    if PassedOver(line) {
      var a, t, b :| Around(line, a, t, b) && (t == "" || t == "//" || t == Helper());
      TrimAround(a, t, b);
    }
  }

  lemma {:induction false} KeptAppend(a: seq<string>, b: seq<string>)
    ensures Kept(a + b) == Kept(a) + Kept(b)
    decreases |a|
  {
    if a == [] {
      NothingBefore(b);
    } else {
      assert (a + b)[1..] == a[1..] + b;
      KeptAppend(a[1..], b);
      hide Skipped;
      assert [a[0]] + (Kept(a[1..]) + Kept(b)) == [a[0]] + Kept(a[1..]) + Kept(b);
    }
  }

  lemma NothingBefore(b: seq<string>)
    ensures [] + b == b && Kept([]) + Kept(b) == Kept(b)
  {
  }

  lemma KeptOne(line: string)
    ensures Kept([line]) == if PassedOver(line) then [] else [line]
  {
    SkippedIff(line);
    hide Skipped; hide PassedOver;
    assert [line][1..] == [] && [line] + [] == [line];
  }

  // A chunk is the written lines that are not passed over: every other line is in it, unchanged,
  // behind what is kept of the lines in front of it and in front of what is kept of the rest.
  lemma LineIsKept(lines: seq<string>, k: nat)
    requires k < |lines|
    ensures Kept(lines) == Kept(lines[..k]) + (if PassedOver(lines[k]) then [] else [lines[k]]) + Kept(lines[k + 1..])
  {
    CutAt(lines, k);
    hide Kept; hide PassedOver;
    KeptThree(lines[..k], lines[k], lines[k + 1..]);
  }

  lemma CutAt(lines: seq<string>, k: nat)
    requires k < |lines|
    ensures lines == lines[..k] + [lines[k]] + lines[k + 1..]
  {
  }

  lemma KeptThree(a: seq<string>, line: string, b: seq<string>)
    ensures Kept(a + [line] + b) == Kept(a) + (if PassedOver(line) then [] else [line]) + Kept(b)
  {
    hide Kept; hide PassedOver;
    KeptAppend(a + [line], b);
    KeptAppend(a, [line]);
    KeptOne(line);
  }

  lemma {:induction false} StatementAtNumber(statements: seq<Statement>, edits: seq<Edit>, upTo: nat, k: nat)
    requires k < upTo - 1 < |edits| <= |statements| + 1
    ensures var r, at := Interleaved(statements, edits, upTo), k + Chunks(edits, k + 1);
            at < |r| && r[at] == statements[k]
    decreases upTo
  {
    hide Kept;
    InterleavedLength(statements, edits, upTo - 1);
    var front := Interleaved(statements, edits, upTo - 1);
    LastPiece(statements, edits, upTo);
    hide Interleaved; hide ChunkAt;
    if k < upTo - 2 {
      StatementAtNumber(statements, edits, upTo - 1, k);
    } else {
      assert |front| == k + Chunks(edits, k + 1);
    }
  }

  lemma {:induction false} ChunkAtNumber(statements: seq<Statement>, edits: seq<Edit>, upTo: nat, k: nat)
    requires k < upTo <= |edits| <= |statements| + 1 && Kept(edits[k].written) != []
    ensures var r, at := Interleaved(statements, edits, upTo), k + Chunks(edits, k);
            at < |r| && r[at] == RawCppChunk(Kept(edits[k].written))
    decreases upTo
  {
    hide Kept;
    if upTo == 1 {
      assert Interleaved(statements, edits, 0) == [] && Chunks(edits, 0) == 0;
      assert Interleaved(statements, edits, 1) == ChunkAt(edits[0]);
    } else {
      InterleavedLength(statements, edits, upTo - 1);
      LastPiece(statements, edits, upTo);
      hide Interleaved;
      if k < upTo - 1 { ChunkAtNumber(statements, edits, upTo - 1, k); }
    }
  }

  lemma LastPiece(statements: seq<Statement>, edits: seq<Edit>, upTo: nat)
    requires 1 < upTo <= |edits| <= |statements| + 1
    ensures Interleaved(statements, edits, upTo)
            == Interleaved(statements, edits, upTo - 1) + ([statements[upTo - 2]] + ChunkAt(edits[upTo - 1]))
  {
    hide ChunkAt;
    var front, s, chunk := Interleaved(statements, edits, upTo - 1), [statements[upTo - 2]], ChunkAt(edits[upTo - 1]);
    assert front + s + chunk == front + (s + chunk);
  }

  ghost predicate StatementIsAt(r: seq<Statement>, statements: seq<Statement>, edits: seq<Edit>, k: nat)
    requires k < |statements| < |edits|
  {
    var at := k + Chunks(edits, k + 1);
    at < |r| && r[at] == statements[k]
  }

  ghost predicate ChunkIsAt(r: seq<Statement>, edits: seq<Edit>, k: nat)
    requires k < |edits|
  {
    var at := k + Chunks(edits, k);
    at < |r| && r[at] == RawCppChunk(Kept(edits[k].written))
  }

  // What the slot holds after the import, number by number: statement k stands behind all statements
  // and chunks in front of it, and so does chunk k if anything of it was kept; there is nothing else.
  lemma InterleavingStands(statements: seq<Statement>, edits: seq<Edit>)
    requires |edits| == |statements| + 1
    ensures |Interleaving(statements, edits)| == |statements| + Chunks(edits, |edits|)
    ensures forall k | 0 <= k < |statements| :: StatementIsAt(Interleaving(statements, edits), statements, edits, k)
    ensures forall k | 0 <= k < |edits| && Kept(edits[k].written) != [] :: ChunkIsAt(Interleaving(statements, edits), edits, k)
  {
    InterleavedLength(statements, edits, |edits|);
    hide Kept; hide Interleaved; hide ChunkAt; hide Chunks; hide StatementIsAt; hide ChunkIsAt;
    forall k | 0 <= k < |statements| ensures StatementIsAt(Interleaving(statements, edits), statements, edits, k) {
      StatementStands(statements, edits, k);
    }
    forall k | 0 <= k < |edits| && Kept(edits[k].written) != [] ensures ChunkIsAt(Interleaving(statements, edits), edits, k) {
      ChunkStands(statements, edits, k);
    }
  }

  lemma StatementStands(statements: seq<Statement>, edits: seq<Edit>, k: nat)
    requires k < |statements| == |edits| - 1
    ensures StatementIsAt(Interleaving(statements, edits), statements, edits, k)
  {
    StatementAtNumber(statements, edits, |edits|, k);
  }

  lemma ChunkStands(statements: seq<Statement>, edits: seq<Edit>, k: nat)
    requires k < |edits| == |statements| + 1 && Kept(edits[k].written) != []
    ensures ChunkIsAt(Interleaving(statements, edits), edits, k)
  {
    ChunkAtNumber(statements, edits, |edits|, k);
  }

  // The chunks in front of a gap are those of the gaps before it in which something is kept.
  lemma ChunksInFront(edits: seq<Edit>, k: nat)
    requires k < |edits|
    ensures Chunks(edits, 0) == 0 && Chunks(edits, k + 1) == Chunks(edits, k) + if Kept(edits[k].written) == [] then 0 else 1
  {
    OneMore(edits, k);
  }
}
