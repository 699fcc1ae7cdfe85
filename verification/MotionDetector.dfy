// MouseOrMotionOrPeriodOfInactivityDetector: comparing two screen grabs while excusing text
// cursors that blink. The scan paints every excused cursor over its copies of both grabs and
// goes on; the result is compared here with what is asked of the untouched grabs.
module MotionDetector {
  // Grabs are Format_RGB32, so the alpha byte is always set and only the colour is kept.
  type Rgb = n: int | 0 <= n < 0x100_0000
  const BLACK: Rgb := 0

  // Row first, as scanLine addresses it.
  type Image = array2<Rgb>

  const CURSOR_WIDTH := 2
  const CURSOR_HEIGHT := 13
  const BOTTOM_PIXEL_ROWS_TO_IGNORE := 16

  datatype Point = Point(x: int, y: int)

  // ---------- what an excused cursor is ----------

  predicate InImage(image: Image, p: Point)
  {
    0 <= p.y < image.Length0 && 0 <= p.x < image.Length1
  }

  // The block of a cursor whose bottom left pixel is b.
  predicate InBlock(b: Point, p: Point)
  {
    b.x <= p.x < b.x + CURSOR_WIDTH && b.y - CURSOR_HEIGHT < p.y <= b.y
  }

  predicate DisjointBlocks(b: Point, c: Point)
  {
    b.x + CURSOR_WIDTH <= c.x || c.x + CURSOR_WIDTH <= b.x || b.y + CURSOR_HEIGHT <= c.y || c.y + CURSOR_HEIGHT <= b.y
  }

  predicate Scanned(image: Image, p: Point)
  {
    InImage(image, p) && p.y <= image.Length0 - 1 - BOTTOM_PIXEL_ROWS_TO_IGNORE
  }

  // One row more than the cursor needs is asked for.
  predicate EnoughRoom(p: Point, width: int)
  {
    p.y - CURSOR_HEIGHT >= 0 && p.x + CURSOR_WIDTH <= width
  }

  predicate Differ(old_: Image, new_: Image, p: Point)
    requires InImage(old_, p) && InImage(new_, p)
    reads old_, new_
  {
    old_[p.y, p.x] != new_[p.y, p.x]
  }

  predicate SameSize(a: Image, b: Image)
  {
    a.Length0 == b.Length0 && a.Length1 == b.Length1
  }

  ghost predicate AllDiffer(old_: Image, new_: Image, b: Point)
    reads old_, new_
  {
    forall p | InBlock(b, p) && InImage(old_, p) && InImage(new_, p) :: Differ(old_, new_, p)
  }

  ghost predicate ShowsCursor(image: Image, b: Point)
    reads image
  {
    forall p | InBlock(b, p) && InImage(image, p) :: image[p.y, p.x] == BLACK
  }

  // Every pixel of the block changed and the whole cursor is on one of the two grabs.
  ghost predicate Excused(old_: Image, new_: Image, b: Point)
    reads old_, new_
  {
    && SameSize(old_, new_) && Scanned(new_, b) && EnoughRoom(b, new_.Length1)
    && AllDiffer(old_, new_, b) && (ShowsCursor(old_, b) || ShowsCursor(new_, b))
  }

  ghost predicate Covered(blocks: set<Point>, p: Point)
  {
    exists b :: b in blocks && InBlock(b, p)
  }

  ghost predicate AllExcused(old_: Image, new_: Image, blocks: set<Point>)
    reads old_, new_
  {
    && (forall b | b in blocks :: Excused(old_, new_, b))
    && forall b, c | b in blocks && c in blocks && b != c :: DisjointBlocks(b, c)
  }

  // Cursors that do not overlap account for every change in the scanned rows.
  ghost predicate Explains(old_: Image, new_: Image, blocks: set<Point>)
    requires SameSize(old_, new_)
    reads old_, new_
  {
    && AllExcused(old_, new_, blocks)
    && forall p | Scanned(new_, p) && Differ(old_, new_, p) :: Covered(blocks, p)
  }

  ghost predicate OnlyCursorsBlinked(old_: Image, new_: Image)
    requires SameSize(old_, new_)
    reads old_, new_
  {
    exists blocks :: Explains(old_, new_, blocks)
  }

  // ---------- the scan order: left to right, bottom to top ----------

  predicate Before(p: Point, q: Point)
  {
    p.y > q.y || (p.y == q.y && p.x < q.x)
  }

  // Every change before q is accounted for by cursors found before q.
  ghost predicate ExplainsBefore(old_: Image, new_: Image, blocks: set<Point>, q: Point)
    requires SameSize(old_, new_)
    reads old_, new_
  {
    && AllExcused(old_, new_, blocks)
    && (forall b | b in blocks :: Before(b, q))
    && forall p | Scanned(new_, p) && Before(p, q) && Differ(old_, new_, p) :: Covered(blocks, p)
  }

  // The scan stops at the first change that is not accounted for and starts no excusable cursor
  // of its own.
  ghost predicate StopsAt(old_: Image, new_: Image, blocks: set<Point>, q: Point)
    requires SameSize(old_, new_)
    reads old_, new_
  {
    && ExplainsBefore(old_, new_, blocks, q)
    && Scanned(new_, q) && Differ(old_, new_, q) && !Covered(blocks, q)
    && !(Excused(old_, new_, q) && forall b | b in blocks :: DisjointBlocks(b, q))
  }

  lemma CommonPixel(b: Point, c: Point, p: Point)
    requires InBlock(b, p) && InBlock(c, p)
    ensures !DisjointBlocks(b, c)
  {
  }

  // Whatever set of cursors explains all changes, the scan can only have found cursors of it.
  lemma {:induction false} FoundIsNecessary(old_: Image, new_: Image, found: set<Point>, q: Point, all: set<Point>, b: Point)
    requires SameSize(old_, new_) && ExplainsBefore(old_, new_, found, q) && Explains(old_, new_, all) && b in found
    ensures b in all
    decreases new_.Length0 - b.y, b.x
  {
    assert Differ(old_, new_, b) by { assert InBlock(b, b); }
    var c :| c in all && InBlock(c, b);
    if c != b {
      assert Before(c, b);
      assert Differ(old_, new_, c) by { assert InBlock(c, c); }
      var g :| g in found && InBlock(g, c);
      FoundIsNecessary(old_, new_, found, q, all, g);
      CommonPixel(g, c, c);
      assert g == c;
      CommonPixel(g, b, b);
      assert false;
    }
  }

  // The first change that the scan cannot account for must start a cursor of every explanation.
  lemma FirstUnexplained(old_: Image, new_: Image, found: set<Point>, q: Point, all: set<Point>)
    requires SameSize(old_, new_) && ExplainsBefore(old_, new_, found, q) && Explains(old_, new_, all)
    requires Scanned(new_, q) && Differ(old_, new_, q) && !Covered(found, q)
    ensures q in all && Excused(old_, new_, q) && forall b | b in found :: DisjointBlocks(b, q)
  {
    forall b | b in found ensures b in all && !InBlock(b, q) {
      FoundIsNecessary(old_, new_, found, q, all, b);
    }
    var c :| c in all && InBlock(c, q);
    if c != q {
      assert Differ(old_, new_, c) by { assert InBlock(c, c); }
      var g :| g in found && InBlock(g, c);
      CommonPixel(g, c, c);
      assert false;
    }
    assert InBlock(q, q);
  }

  // So a scan that stops early has refuted every explanation.
  lemma StopRefutes(old_: Image, new_: Image, found: set<Point>, q: Point)
    requires SameSize(old_, new_) && StopsAt(old_, new_, found, q)
    ensures !OnlyCursorsBlinked(old_, new_)
  {
    forall all ensures !Explains(old_, new_, all) {
      if Explains(old_, new_, all) {
        FirstUnexplained(old_, new_, found, q, all);
      }
    }
  }

  // The explanation, when there is one, is unique.
  lemma ExplanationIsUnique(old_: Image, new_: Image, blocks: set<Point>, others: set<Point>)
    requires SameSize(old_, new_) && Explains(old_, new_, blocks) && Explains(old_, new_, others)
    ensures blocks == others
  {
    var end := Point(0, -1);
    forall b | b in blocks ensures b in others { FoundIsNecessary(old_, new_, blocks, end, others, b); }
    forall b | b in others ensures b in blocks { FoundIsNecessary(old_, new_, others, end, blocks, b); }
  }

  // The spare row of EnoughRoom: no cursor ever excuses a change in the topmost row.
  lemma TopRowIsNeverExcused(old_: Image, new_: Image, p: Point)
    requires SameSize(old_, new_) && Scanned(new_, p) && p.y == 0 && Differ(old_, new_, p)
    ensures !OnlyCursorsBlinked(old_, new_)
  {
    forall blocks | AllExcused(old_, new_, blocks) ensures !Covered(blocks, p) {
      forall b | b in blocks ensures !InBlock(b, p) {
        assert Excused(old_, new_, b);
      }
    }
  }

  // One cursor that blinked, and nothing else: every pixel of its block changed, it is on one
  // of the grabs, and no other scanned pixel changed.
  lemma BlinkIsExcused(old_: Image, new_: Image, b: Point)
    requires SameSize(old_, new_) && Excused(old_, new_, b)
    requires forall p | Scanned(new_, p) && !InBlock(b, p) :: !Differ(old_, new_, p)
    ensures OnlyCursorsBlinked(old_, new_)
  {
    forall p | Scanned(new_, p) && Differ(old_, new_, p) ensures Covered({b}, p) {
      assert b in {b} && InBlock(b, p);
    }
    assert Explains(old_, new_, {b});
  }

  // ---------- the same in plain numbers ----------

  // The block two wide and thirteen high, with its bottom left pixel at (x, y), is black all over.
  ghost predicate BlackBlock(image: Image, x: int, y: int)
    reads image
  {
    forall v: nat, u: nat | x <= u < x + 2 && y - 13 < v <= y && v < image.Length0 && u < image.Length1 :: image[v, u] == 0
  }

  ghost predicate ChangedBlock(old_: Image, new_: Image, x: int, y: int)
    requires SameSize(old_, new_)
    reads old_, new_
  {
    forall v: nat, u: nat | x <= u < x + 2 && y - 13 < v <= y && v < new_.Length0 && u < new_.Length1 ::
      old_[v, u] != new_[v, u]
  }

  lemma ExcusedIff(old_: Image, new_: Image, b: Point)
    requires SameSize(old_, new_)
    ensures Excused(old_, new_, b)
            <==> 0 <= b.x <= new_.Length1 - 2 && 13 <= b.y < new_.Length0 - 16 && ChangedBlock(old_, new_, b.x, b.y)
                 && (BlackBlock(old_, b.x, b.y) || BlackBlock(new_, b.x, b.y))
  {
    var inside := 0 <= b.x <= new_.Length1 - 2 && 13 <= b.y < new_.Length0 - 16;
    assert inside <==> Scanned(new_, b) && EnoughRoom(b, new_.Length1);
    if inside {
      BlockChanged(old_, new_, b);
      BlockIsBlack(old_, b);
      BlockIsBlack(new_, b);
    }
  }

  lemma BlockChanged(old_: Image, new_: Image, b: Point)
    requires SameSize(old_, new_)
    ensures AllDiffer(old_, new_, b) <==> ChangedBlock(old_, new_, b.x, b.y)
  {
    if AllDiffer(old_, new_, b) {
      forall v: nat, u: nat | b.x <= u < b.x + 2 && b.y - 13 < v <= b.y && v < new_.Length0 && u < new_.Length1
        ensures old_[v, u] != new_[v, u]
      {
        assert Differ(old_, new_, Point(u, v));
      }
    }
  }

  lemma BlockIsBlack(image: Image, b: Point)
    ensures ShowsCursor(image, b) <==> BlackBlock(image, b.x, b.y)
  {
    if ShowsCursor(image, b) {
      forall v: nat, u: nat | b.x <= u < b.x + 2 && b.y - 13 < v <= b.y && v < image.Length0 && u < image.Length1
        ensures image[v, u] == 0
      {
        var p := Point(u, v);
        assert InBlock(b, p) && InImage(image, p) && image[p.y, p.x] == BLACK;
      }
    }
  }

  // Without motion every change above the lowest sixteen rows lies in a block that changed as a
  // whole, is black on one of the grabs, and has a spare row above it.
  lemma EveryChangeIsInACursor(old_: Image, new_: Image, x: nat, y: nat)
    requires SameSize(old_, new_) && OnlyCursorsBlinked(old_, new_)
    requires x < new_.Length1 && y < new_.Length0 - 16 && old_[y, x] != new_[y, x]
    ensures exists b: Point ::
              && b.x <= x < b.x + 2 && b.y - 13 < y <= b.y
              && 0 <= b.x <= new_.Length1 - 2 && 13 <= b.y < new_.Length0 - 16 && ChangedBlock(old_, new_, b.x, b.y)
              && (BlackBlock(old_, b.x, b.y) || BlackBlock(new_, b.x, b.y))
  {
    var blocks :| Explains(old_, new_, blocks);
    var p := Point(x, y);
    assert Scanned(new_, p) && Differ(old_, new_, p);
    var b :| b in blocks && InBlock(b, p);
    assert Excused(old_, new_, b);
    hide *;
    ExcusedIff(old_, new_, b);
    InCursor(b, p);
  }

  lemma InCursor(b: Point, p: Point)
    requires InBlock(b, p)
    ensures b.x <= p.x < b.x + 2 && b.y - 13 < p.y <= b.y
  {
  }

  // Whatever changes in the lowest sixteen rows is no motion, and one such block anywhere above
  // them is none either.
  lemma QuietUnlessScanned(old_: Image, new_: Image)
    requires SameSize(old_, new_)
    requires forall y: nat, x: nat | y < new_.Length0 - 16 && x < new_.Length1 :: old_[y, x] == new_[y, x]
    ensures OnlyCursorsBlinked(old_, new_)
  {
    assert Explains(old_, new_, {});
  }

  lemma OneBlinkIsNoMotion(old_: Image, new_: Image, x: int, y: int)
    requires SameSize(old_, new_) && 0 <= x <= new_.Length1 - 2 && 13 <= y < new_.Length0 - 16
    requires ChangedBlock(old_, new_, x, y) && (BlackBlock(old_, x, y) || BlackBlock(new_, x, y))
    requires forall v: nat, u: nat | v < new_.Length0 - 16 && u < new_.Length1 && !(x <= u < x + 2 && y - 13 < v <= y) ::
               old_[v, u] == new_[v, u]
    ensures OnlyCursorsBlinked(old_, new_)
  {
    var b := Point(x, y);
    ExcusedIff(old_, new_, b);
    forall p | Scanned(new_, p) && !InBlock(b, p) ensures !Differ(old_, new_, p) {
      assert old_[p.y, p.x] == new_[p.y, p.x];
    }
    BlinkIsExcused(old_, new_, b);
  }

  // ---------- the painted copies ----------

  // The copy equals its original except that found cursors are painted on it.
  ghost predicate Painted(copy: Image, original: Image, blocks: set<Point>)
    reads copy, original
  {
    && SameSize(copy, original)
    && forall p | InImage(copy, p) ::
         copy[p.y, p.x] == if Covered(blocks, p) then BLACK else original[p.y, p.x]
  }

  method Copied(image: Image) returns (copy: Image)
    ensures fresh(copy) && Painted(copy, image, {})
  {
    copy := new Rgb[image.Length0, image.Length1]((y, x) reads image =>
      if 0 <= y < image.Length0 && 0 <= x < image.Length1 then image[y, x] else BLACK);
    forall p | InImage(copy, p) ensures copy[p.y, p.x] == image[p.y, p.x] && !Covered({}, p) {
    }
  }

  class Detector {
    // null before the first poll
    var oldScreenGrab: array2?<Rgb>
    var pointOfMotion: Point
    // drawn by startDetecting..., all black
    const cursor: Image

    ghost predicate Valid()
      reads cursor
    {
      && cursor.Length0 == CURSOR_HEIGHT && cursor.Length1 == CURSOR_WIDTH
      && forall y, x | 0 <= y < CURSOR_HEIGHT && 0 <= x < CURSOR_WIDTH :: cursor[y, x] == BLACK
    }

    constructor ()
      ensures Valid() && oldScreenGrab == null && fresh(cursor)
    {
      cursor := new Rgb[CURSOR_HEIGHT, CURSOR_WIDTH]((y, x) => BLACK);
      oldScreenGrab := null;
      pointOfMotion := Point(0, 0);
    }

    // QPainter::drawImage with the bottom left pixel of the cursor at b.
    method DrawCursor(image: Image, ghost original: Image, b: Point, ghost blocks: set<Point>)
      requires Valid() && image != cursor && image != original && original != cursor
      requires Painted(image, original, blocks) && InImage(image, b) && EnoughRoom(b, image.Length1)
      modifies image
      ensures Painted(image, original, blocks + {b})
    {
      var top := b.y - cursor.Length0 + 1;
      var y2 := 0;
      while y2 < cursor.Length0
        invariant 0 <= y2 <= cursor.Length0
        invariant forall p | InImage(image, p) ::
          image[p.y, p.x] == if InBlock(b, p) && p.y < top + y2 then BLACK else old(image[p.y, p.x])
      {
        var x2 := 0;
        while x2 < cursor.Length1
          invariant 0 <= x2 <= cursor.Length1
          invariant forall p | InImage(image, p) ::
            image[p.y, p.x] == if InBlock(b, p) && (p.y < top + y2 || (p.y == top + y2 && p.x < b.x + x2)) then BLACK
                               else old(image[p.y, p.x])
        {
          image[top + y2, b.x + x2] := cursor[y2, x2];
          x2 := x2 + 1;
        }
        y2 := y2 + 1;
      }
      forall p | InImage(image, p)
        ensures image[p.y, p.x] == if Covered(blocks + {b}, p) then BLACK else original[p.y, p.x]
      {
        CoveredByOneMore(blocks, b, p);
      }
    }

    // The block at b in both painted copies: every pixel differs and one copy shows the cursor.
    method CursorBlinkedAt(newCopy: Image, oldCopy: Image, b: Point, ghost new_: Image, ghost old_: Image, ghost blocks: set<Point>)
      returns (blinked: bool)
      requires Valid() && SameSize(old_, new_) && Painted(newCopy, new_, blocks) && Painted(oldCopy, old_, blocks)
      requires Scanned(new_, b) && EnoughRoom(b, new_.Length1)
      ensures blinked <==> Excused(old_, new_, b) && forall c | c in blocks :: DisjointBlocks(c, b)
    {
      var oldScreenGrabHasCursor, newScreenGrabHasCursor := true, true;
      var y2 := cursor.Length0 - 1;
      while y2 > -1
        invariant -1 <= y2 < CURSOR_HEIGHT
        invariant forall p | InBlock(b, p) && b.y - p.y > y2 :: Changed(old_, new_, blocks, p)
        invariant newScreenGrabHasCursor <==> forall p | InBlock(b, p) && b.y - p.y > y2 :: IsBlack(new_, p)
        invariant oldScreenGrabHasCursor <==> forall p | InBlock(b, p) && b.y - p.y > y2 :: IsBlack(old_, p)
        invariant newScreenGrabHasCursor || oldScreenGrabHasCursor
      {
        var x2 := 0;
        while x2 < cursor.Length1
          invariant 0 <= x2 <= CURSOR_WIDTH
          invariant forall p | InBlock(b, p) && Compared(b, p, y2, x2) :: Changed(old_, new_, blocks, p)
          invariant newScreenGrabHasCursor <==> forall p | InBlock(b, p) && Compared(b, p, y2, x2) :: IsBlack(new_, p)
          invariant oldScreenGrabHasCursor <==> forall p | InBlock(b, p) && Compared(b, p, y2, x2) :: IsBlack(old_, p)
          invariant newScreenGrabHasCursor || oldScreenGrabHasCursor
        {
          ghost var p := Point(b.x + x2, b.y - y2);
          assert InBlock(b, p) && InImage(new_, p);
          var newPixel := newCopy[b.y - y2, b.x + x2];
          var oldPixel := oldCopy[b.y - y2, b.x + x2];
          if newPixel == oldPixel {
            if Covered(blocks, p) {
              Overlap(blocks, b, p);
            }
            return false;
          }
          if newScreenGrabHasCursor && newPixel != cursor[y2, x2] {
            newScreenGrabHasCursor := false;
          }
          if oldScreenGrabHasCursor && oldPixel != cursor[y2, x2] {
            oldScreenGrabHasCursor := false;
          }
          assert Changed(old_, new_, blocks, p);
          assert newPixel == new_[p.y, p.x] && oldPixel == old_[p.y, p.x];
          assert forall r | InBlock(b, r) && Compared(b, r, y2, x2 + 1) :: Compared(b, r, y2, x2) || r == p;
          if !newScreenGrabHasCursor && !oldScreenGrabHasCursor {
            return false;
          }
          x2 := x2 + 1;
        }
        y2 := y2 - 1;
      }
      forall c | c in blocks ensures DisjointBlocks(c, b) {
        Apart(blocks, c, b);
      }
      return true;
    }

    // One step of the scan: a difference must be the bottom left pixel of a cursor that blinked,
    // and that cursor is then painted on both copies.
    method CheckPixel(newCopy: Image, oldCopy: Image, x: int, y: int, ghost new_: Image, ghost old_: Image, ghost blocks: set<Point>)
      returns (unexplained: bool, ghost found: set<Point>)
      requires Valid() && {newCopy, oldCopy} !! {new_, old_, cursor} && newCopy != oldCopy && cursor !in {new_, old_}
      requires SameSize(old_, new_) && Painted(newCopy, new_, blocks) && Painted(oldCopy, old_, blocks)
      requires Scanned(new_, Point(x, y)) && ExplainsBefore(old_, new_, blocks, Point(x, y))
      modifies newCopy, oldCopy
      ensures unexplained ==> StopsAt(old_, new_, found, Point(x, y)) && !OnlyCursorsBlinked(old_, new_)
      ensures !unexplained ==> Painted(newCopy, new_, found) && Painted(oldCopy, old_, found)
                               && ExplainsBefore(old_, new_, found, Point(x + 1, y))
    {
      hide StopsAt; hide Painted; hide Excused; hide AllExcused; hide ExplainsBefore; hide OnlyCursorsBlinked; hide Covered;
      hide DisjointBlocks;
      ghost var q := Point(x, y);
      found := blocks;
      PaintedAt(newCopy, new_, blocks, q);
      PaintedAt(oldCopy, old_, blocks, q);
      if newCopy[y, x] != oldCopy[y, x] {
        if !EnoughRoom(Point(x, y), newCopy.Length1) {
          NoCursorHere(old_, new_, blocks, q);
          return true, found;
        }
        var blinked := CursorBlinkedAt(newCopy, oldCopy, Point(x, y), new_, old_, blocks);
        if !blinked {
          NoCursorHere(old_, new_, blocks, q);
          return true, found;
        }
        DrawCursor(newCopy, new_, Point(x, y), blocks);
        DrawCursor(oldCopy, old_, Point(x, y), blocks);
        CursorFound(old_, new_, blocks, q);
        found := blocks + {q};
      } else {
        NothingHere(old_, new_, blocks, q);
      }
      return false, found;
    }

    // newScreenGrabMatchesOldScreenGrab_andBtwNoteThePointWhereTheyDontMatchPlox
    method NewScreenGrabMatchesOldScreenGrab(newScreenGrab: Image) returns (matches: bool, ghost found: set<Point>)
      requires Valid() && newScreenGrab != cursor && oldScreenGrab != cursor
      modifies this
      ensures old(oldScreenGrab) == null || !SameSize(old(oldScreenGrab), newScreenGrab) ==>
                matches && oldScreenGrab == newScreenGrab && pointOfMotion == old(pointOfMotion)
      ensures old(oldScreenGrab) != null && SameSize(old(oldScreenGrab), newScreenGrab) ==>
                && oldScreenGrab == old(oldScreenGrab)
                && (matches <==> OnlyCursorsBlinked(oldScreenGrab, newScreenGrab))
                && (matches ==> Explains(oldScreenGrab, newScreenGrab, found) && pointOfMotion == old(pointOfMotion))
                && (!matches ==> StopsAt(oldScreenGrab, newScreenGrab, found, pointOfMotion))
    {
      found := {};
      if oldScreenGrab == null {
        oldScreenGrab := newScreenGrab;
        return true, found;
      }
      var old_: Image := oldScreenGrab;
      if newScreenGrab.Length0 != old_.Length0 || newScreenGrab.Length1 != old_.Length1 {
        oldScreenGrab := newScreenGrab;
        return true, found;
      }
      var mutableOldScreenGrab := Copied(old_);
      var mutableNewScreenGrab := Copied(newScreenGrab);
      hide StopsAt; hide Explains; hide Painted; hide Excused; hide AllExcused; hide ExplainsBefore; hide OnlyCursorsBlinked;
      var y := newScreenGrab.Length0 - 1 - BOTTOM_PIXEL_ROWS_TO_IGNORE;
      NothingScannedYet(old_, newScreenGrab);
      while y > -1
        invariant y <= newScreenGrab.Length0 - 1 - BOTTOM_PIXEL_ROWS_TO_IGNORE
        invariant oldScreenGrab == old_ && pointOfMotion == old(pointOfMotion)
        invariant ExplainsBefore(old_, newScreenGrab, found, Point(0, y))
        invariant Painted(mutableNewScreenGrab, newScreenGrab, found) && Painted(mutableOldScreenGrab, old_, found)
      {
        var x := 0;
        while x < newScreenGrab.Length1
          invariant 0 <= x <= newScreenGrab.Length1
          invariant oldScreenGrab == old_ && pointOfMotion == old(pointOfMotion)
          invariant ExplainsBefore(old_, newScreenGrab, found, Point(x, y))
          invariant Painted(mutableNewScreenGrab, newScreenGrab, found) && Painted(mutableOldScreenGrab, old_, found)
        {
          var unexplained;
          unexplained, found := CheckPixel(mutableNewScreenGrab, mutableOldScreenGrab, x, y, newScreenGrab, old_, found);
          if unexplained {
            pointOfMotion := Point(x, y);
            return false, found;
          }
          x := x + 1;
        }
        RowDone(old_, newScreenGrab, found, y);
        y := y - 1;
      }
      AllScanned(old_, newScreenGrab, found, y);
      return true, found;
    }

    // thereWasMotionOnScreenSinceLastPoll: the grab that showed motion becomes the one to
    // compare with, and it is the one that is emitted.
    method ThereWasMotionOnScreenSinceLastPoll(newScreenGrab: Image)
      returns (motion: bool, emitted: array2?<Rgb>, ghost found: set<Point>)
      requires Valid() && newScreenGrab != cursor && oldScreenGrab != cursor
      modifies this
      ensures var before := old(oldScreenGrab);
              && (motion <==> before != null && SameSize(before, newScreenGrab) && !OnlyCursorsBlinked(before, newScreenGrab))
              && (oldScreenGrab == if before != null && SameSize(before, newScreenGrab) && !motion then before else newScreenGrab)
              && (emitted == if motion then newScreenGrab else null)
              && (motion ==> StopsAt(before, newScreenGrab, found, pointOfMotion))
    {
      hide StopsAt; hide Explains; hide OnlyCursorsBlinked;
      motion, emitted := false, null;
      var matches;
      matches, found := NewScreenGrabMatchesOldScreenGrab(newScreenGrab);
      if !matches {
        oldScreenGrab := newScreenGrab;
        motion, emitted := true, newScreenGrab;
      }
    }
  }

  // ---------- one step of the scan ----------

  predicate Compared(b: Point, p: Point, y2: int, x2: int)
  {
    b.y - p.y > y2 || (b.y - p.y == y2 && p.x < b.x + x2)
  }

  ghost predicate Changed(old_: Image, new_: Image, blocks: set<Point>, p: Point)
    reads old_, new_
  {
    InImage(old_, p) && InImage(new_, p) && Differ(old_, new_, p) && !Covered(blocks, p)
  }

  predicate IsBlack(image: Image, p: Point)
    reads image
  {
    InImage(image, p) && image[p.y, p.x] == BLACK
  }

  lemma CoveredByOneMore(blocks: set<Point>, b: Point, p: Point)
    ensures Covered(blocks + {b}, p) <==> Covered(blocks, p) || InBlock(b, p)
  {
    if Covered(blocks, p) {
      var c :| c in blocks && InBlock(c, p);
      assert c in blocks + {b};
    }
    if InBlock(b, p) {
      assert b in blocks + {b};
    }
  }

  lemma Overlap(blocks: set<Point>, b: Point, p: Point)
    requires Covered(blocks, p) && InBlock(b, p)
    ensures exists c :: c in blocks && !DisjointBlocks(c, b)
  {
    var c :| c in blocks && InBlock(c, p);
    CommonPixel(c, b, p);
  }

  // Two blocks that overlap share a corner pixel of their intersection.
  lemma Apart(blocks: set<Point>, c: Point, b: Point)
    requires c in blocks && forall p | InBlock(b, p) :: !Covered(blocks, p)
    ensures DisjointBlocks(c, b)
  {
    var p := Point(if c.x < b.x then b.x else c.x, if c.y < b.y then c.y else b.y);
    if !DisjointBlocks(c, b) {
      assert InBlock(b, p) && InBlock(c, p);
    }
  }

  lemma PaintedAt(copy: Image, original: Image, blocks: set<Point>, p: Point)
    requires Painted(copy, original, blocks) && InImage(original, p)
    ensures SameSize(copy, original)
    ensures copy[p.y, p.x] == if Covered(blocks, p) then BLACK else original[p.y, p.x]
  {
  }

  lemma NothingScannedYet(old_: Image, new_: Image)
    requires SameSize(old_, new_)
    ensures ExplainsBefore(old_, new_, {}, Point(0, new_.Length0 - 1 - BOTTOM_PIXEL_ROWS_TO_IGNORE))
  {
  }

  lemma NoCursorHere(old_: Image, new_: Image, found: set<Point>, q: Point)
    requires SameSize(old_, new_) && ExplainsBefore(old_, new_, found, q)
    requires Scanned(new_, q) && Differ(old_, new_, q) && !Covered(found, q)
    requires !(Excused(old_, new_, q) && forall b | b in found :: DisjointBlocks(b, q))
             || !EnoughRoom(q, new_.Length1)
    ensures StopsAt(old_, new_, found, q) && !OnlyCursorsBlinked(old_, new_)
  {
    StopRefutes(old_, new_, found, q);
  }

  lemma CursorFound(old_: Image, new_: Image, found: set<Point>, q: Point)
    requires SameSize(old_, new_) && ExplainsBefore(old_, new_, found, q)
    requires Excused(old_, new_, q) && forall b | b in found :: DisjointBlocks(b, q)
    ensures ExplainsBefore(old_, new_, found + {q}, Point(q.x + 1, q.y))
  {
    forall p | Scanned(new_, p) && Before(p, Point(q.x + 1, q.y)) && Differ(old_, new_, p)
      ensures Covered(found + {q}, p)
    {
      CoveredByOneMore(found, q, p);
      assert p == q || Before(p, q);
    }
  }

  lemma NothingHere(old_: Image, new_: Image, found: set<Point>, q: Point)
    requires SameSize(old_, new_) && ExplainsBefore(old_, new_, found, q) && InImage(new_, q)
    requires Differ(old_, new_, q) ==> Covered(found, q)
    ensures ExplainsBefore(old_, new_, found, Point(q.x + 1, q.y))
  {
    forall p | Scanned(new_, p) && Before(p, Point(q.x + 1, q.y)) && Differ(old_, new_, p)
      ensures Covered(found, p)
    {
      assert p == q || Before(p, q);
    }
  }

  lemma RowDone(old_: Image, new_: Image, found: set<Point>, y: int)
    requires SameSize(old_, new_) && ExplainsBefore(old_, new_, found, Point(new_.Length1, y))
    ensures ExplainsBefore(old_, new_, found, Point(0, y - 1))
  {
    forall p | Scanned(new_, p) && Before(p, Point(0, y - 1)) && Differ(old_, new_, p)
      ensures Covered(found, p)
    {
      assert Before(p, Point(new_.Length1, y));
    }
  }

  lemma AllScanned(old_: Image, new_: Image, found: set<Point>, y: int)
    requires SameSize(old_, new_) && y <= -1 && ExplainsBefore(old_, new_, found, Point(0, y))
    ensures Explains(old_, new_, found) && OnlyCursorsBlinked(old_, new_)
  {
    assert Explains(old_, new_, found);
  }
}
