/** The monochrome sprite blitter: rows of 32-pixel words, most significant bit leftmost, drawn a word
    at a time through masks. The specification is a per-pixel masked copy. */
module MonoBlit {
  import opened Bits32

  const ONES: bv32 := 0xFFFF_FFFF

  /** Pixel j of a word, from the left. */
  predicate Pix(w: bv32, j: int)
    requires 0 <= j < 32
  {
    Bit(w, 31 - j)
  }

  /** A bitmap or mask of a sprite, with the arbitrary words that fetches outside its rows would find; Solid
      stands for a missing mask. */
  datatype Plane = Plane(rows: seq<seq<bv32>>, outside: (int, int) -> bv32) | Solid

  /** The word the blitter fetches. */
  function Word(p: Plane, line: int, i: int): bv32 {
    if p.Solid? then ONES
    else if 0 <= line < |p.rows| && 0 <= i < |p.rows[line]| then p.rows[line][i] else p.outside(line, i)
  }

  predicate PlaneBit(p: Plane, line: int, q: int)
    requires q >= 0
  {
    Pix(Word(p, line, q / 32), q % 32)
  }

  /** One row of a blit: sprite line `line` drawn with its column 0 at screen column x, clipped to the
      screen columns lo..hi. */
  datatype Row = Row(bmp: Plane, mask: Plane, line: int, x: int, lo: int, hi: int)

  /** What the pixel at screen column c should become. */
  predicate Target(r: Row, c: int, was: bool) {
    if r.lo <= c <= r.hi && c >= r.x && PlaneBit(r.mask, r.line, c - r.x)
    then PlaneBit(r.bmp, r.line, c - r.x) else was
  }

  /** Word w of the row went from was to now exactly as the per-pixel copy demands. */
  ghost predicate Drawn(r: Row, w: int, was: bv32, now: bv32) {
    forall j :: 0 <= j < 32 ==> Pix(now, j) == Target(r, 32 * w + j, Pix(was, j))
  }

  // ---------------------------------------------------------------- pixels under the word operators

  lemma PixShr(w: bv32, s: int, j: int)
    requires 0 <= s < 32 && 0 <= j < 32
    ensures Pix(Shr(w, s), j) <==> j >= s && Pix(w, j - s)
  {
    hide Bit, And, Or, Not;
    ShrBit(w, s, 31 - j);
  }

  lemma PixShl(w: bv32, s: int, j: int)
    requires 0 <= s < 32 && 0 <= j < 32
    ensures Pix(Shl(w, s), j) <==> j + s < 32 && Pix(w, j + s)
  {
    hide Bit, And, Or, Not;
    ShlBit(w, s, 31 - j);
  }

  lemma PixOnes(j: int)
    requires 0 <= j < 32
    ensures Pix(ONES, j)
  {
    hide Bit, And, Or, Not;
    NotBit(0, 31 - j);
  }

  function Merge(was: bv32, pix: bv32, mask: bv32): bv32 {
    Or(And(pix, mask), And(was, Not(mask)))
  }

  lemma PixMerge(was: bv32, pix: bv32, mask: bv32, j: int)
    requires 0 <= j < 32
    ensures Pix(Merge(was, pix, mask), j) == if Pix(mask, j) then Pix(pix, j) else Pix(was, j)
  {
    hide Bit, And, Or, Not;
    var i := 31 - j;
    OrBit(And(pix, mask), And(was, Not(mask)), i);
    AndBit(pix, mask, i);
    AndBit(was, Not(mask), i);
    NotBit(mask, i);
  }

  lemma PixAnd(a: bv32, b: bv32, j: int)
    requires 0 <= j < 32
    ensures Pix(And(a, b), j) <==> Pix(a, j) && Pix(b, j)
  {
    hide Bit, And, Or, Not;
    AndBit(a, b, 31 - j);
  }

  lemma PixOr(a: bv32, b: bv32, j: int)
    requires 0 <= j < 32
    ensures Pix(Or(a, b), j) <==> Pix(a, j) || Pix(b, j)
  {
    hide Bit, And, Or, Not;
    OrBit(a, b, 31 - j);
  }

  // ---------------------------------------------------------------- fetching across a word border

  /** The sprite word whose pixel 0 is sprite pixel 32t, shifted into place: for s != 0 the screen word
      takes s pixels from sprite word t and the rest from word t + 1. */
  function Joined(p: Plane, line: int, t: int, s: int): bv32
    requires 0 <= s < 32
  {
    if s == 0 then Word(p, line, t)
    else Or(Shr(Word(p, line, t + 1), s), Shl(Word(p, line, t), 32 - s))
  }

  /** Sprite pixel that lands on pixel 0 of the joined word. */
  function Origin(t: int, s: int): int {
    if s == 0 then 32 * t else 32 * t + 32 - s
  }

  lemma SamePlaneBit(p: Plane, line: int, t: int, j: int, q: int)
    requires 0 <= j < 32 && 0 <= t && q == 32 * t + j
    ensures PlaneBit(p, line, q) == Pix(Word(p, line, t), j)
  {
    assert q / 32 == t && q % 32 == j;
  }

  lemma JoinedPix(p: Plane, line: int, t: int, s: int, j: int)
    requires 0 <= s < 32 && 0 <= j < 32 && 0 <= t
    ensures Pix(Joined(p, line, t, s), j) == PlaneBit(p, line, Origin(t, s) + j)
  {
    hide Pix, Word, PlaneBit, Or, Shr, Shl;
    if s == 0 {
      SamePlaneBit(p, line, t, j, 32 * t + j);
    } else {
      var a, b := Word(p, line, t), Word(p, line, t + 1);
      PixOr(Shr(b, s), Shl(a, 32 - s), j);
      PixShr(b, s, j);
      PixShl(a, 32 - s, j);
      if j >= s {
        SamePlaneBit(p, line, t + 1, j - s, Origin(t, s) + j);
      } else {
        SamePlaneBit(p, line, t, 32 - s + j, Origin(t, s) + j);
      }
    }
  }

  // ---------------------------------------------------------------- one word

  /** Words sel and src agree with the row on the pixels a..b: drawing src through mask & sel there, and
      nothing elsewhere, is what the per-pixel copy does. */
  lemma MergeDrawn(r: Row, w: int, was: bv32, pix: bv32, mask: bv32)
    requires forall j :: 0 <= j < 32 ==>
               (Pix(mask, j) <==> r.lo <= 32 * w + j <= r.hi && 32 * w + j >= r.x
                                  && PlaneBit(r.mask, r.line, 32 * w + j - r.x))
    requires forall j :: 0 <= j < 32 && Pix(mask, j) ==>
               32 * w + j >= r.x && Pix(pix, j) == PlaneBit(r.bmp, r.line, 32 * w + j - r.x)
    ensures Drawn(r, w, was, Merge(was, pix, mask))
  {
    hide Pix, PlaneBit, Merge;
    forall j | 0 <= j < 32 ensures Pix(Merge(was, pix, mask), j) == Target(r, 32 * w + j, Pix(was, j)) {
      PixMerge(was, pix, mask, j);
    }
  }

  /** A word without clipped pixels stays as it is. */
  lemma Untouched(r: Row, w: int, was: bv32)
    requires 32 * w + 31 < r.lo || r.hi < 32 * w
    ensures Drawn(r, w, was, was)
  {
    hide Pix, PlaneBit;
  }

  function LeftMask(m: int): bv32
    requires 0 <= m < 32
  {
    Shr(ONES, m)
  }

  function RightMask(m: int): bv32
    requires 0 <= m < 32
  {
    Shl(ONES, 31 - m)
  }

  lemma LeftPix(m: int, j: int)
    requires 0 <= m < 32 && 0 <= j < 32
    ensures Pix(LeftMask(m), j) <==> j >= m
  {
    hide Pix;
    PixShr(ONES, m, j);
    if j >= m { PixOnes(j - m); }
  }

  lemma RightPix(m: int, j: int)
    requires 0 <= m < 32 && 0 <= j < 32
    ensures Pix(RightMask(m), j) <==> j <= m
  {
    hide Pix;
    PixShl(ONES, 31 - m, j);
    if j <= m { PixOnes(j + 31 - m); }
  }

  // ---------------------------------------------------------------- where the words come from

  /** Index of the sprite word that screen word w starts in. */
  function First(x: int, w: int): int {
    w - x / 32 - (if x % 32 == 0 then 0 else 1)
  }

  lemma FirstOrigin(x: int, w: int)
    ensures Origin(First(x, w), x % 32) == 32 * w - x
    ensures 32 * w - x >= 0 ==> First(x, w) >= 0
  {
  }

  lemma JoinedCovers(p: Plane, r: Row, w: int, j: int)
    requires 0 <= j < 32 && First(r.x, w) >= 0
    ensures 32 * w + j - r.x >= 0
    ensures Pix(Joined(p, r.line, First(r.x, w), r.x % 32), j) == PlaneBit(p, r.line, 32 * w + j - r.x)
  {
    hide Pix, PlaneBit, Joined;
    FirstOrigin(r.x, w);
    JoinedPix(p, r.line, First(r.x, w), r.x % 32, j);
  }

  /** The head word when it needs no pixel of the word before. */
  lemma ShiftedRight(p: Plane, r: Row, w: int, j: int)
    requires 0 <= j < 32 && w - r.x / 32 >= 0 && j >= r.x % 32
    ensures 32 * w + j - r.x >= 0
    ensures Pix(Shr(Word(p, r.line, w - r.x / 32), r.x % 32), j) == PlaneBit(p, r.line, 32 * w + j - r.x)
  {
    hide Pix, PlaneBit, Word, Shr;
    var t, s := w - r.x / 32, r.x % 32;
    PixShr(Word(p, r.line, t), s, j);
    SamePlaneBit(p, r.line, t, j - s, 32 * w + j - r.x);
  }

  /** The tail word when only pixels of its first sprite word are fetched: the others read as 0. */
  lemma ShiftedLeft(p: Plane, r: Row, w: int, j: int)
    requires 0 <= j < 32 && First(r.x, w) >= 0 && r.x % 32 != 0
    ensures 32 * w + j - r.x >= 0
    ensures Pix(Shl(Word(p, r.line, First(r.x, w)), 32 - r.x % 32), j) <==>
            j < r.x % 32 && PlaneBit(p, r.line, 32 * w + j - r.x)
  {
    hide Pix, PlaneBit, Word, Shl;
    var t, s := First(r.x, w), r.x % 32;
    PixShl(Word(p, r.line, t), 32 - s, j);
    if j < s {
      SamePlaneBit(p, r.line, t, 32 - s + j, 32 * w + j - r.x);
    }
  }

  // ---------------------------------------------------------------- the words of one row

  /** sel picks the clipped pixels of word w. */
  ghost predicate Picks(r: Row, w: int, sel: bv32) {
    forall j :: 0 <= j < 32 ==> (Pix(sel, j) <==> r.lo <= 32 * w + j <= r.hi)
  }

  /** v carries plane p on the clipped pixels of word w. */
  ghost predicate Carries(r: Row, w: int, p: Plane, v: bv32) {
    forall j :: 0 <= j < 32 && r.lo <= 32 * w + j <= r.hi ==>
      32 * w + j >= r.x && Pix(v, j) == PlaneBit(p, r.line, 32 * w + j - r.x)
  }

  lemma WordDrawn(r: Row, w: int, was: bv32, pix: bv32, msk: bv32, sel: bv32)
    requires Picks(r, w, sel) && Carries(r, w, r.bmp, pix) && Carries(r, w, r.mask, msk)
    ensures Drawn(r, w, was, Merge(was, pix, And(sel, msk)))
  {
    hide Pix, PlaneBit, Merge, And;
    forall j | 0 <= j < 32
      ensures Pix(And(sel, msk), j) <==>
              r.lo <= 32 * w + j <= r.hi && 32 * w + j >= r.x && PlaneBit(r.mask, r.line, 32 * w + j - r.x)
    {
      PixAnd(sel, msk, j);
    }
    MergeDrawn(r, w, was, pix, And(sel, msk));
  }

  lemma JoinedCarries(r: Row, w: int, p: Plane)
    requires First(r.x, w) >= 0
    ensures Carries(r, w, p, Joined(p, r.line, First(r.x, w), r.x % 32))
  {
    hide Pix, PlaneBit, Joined;
    FirstOrigin(r.x, w);
    var v := Joined(p, r.line, First(r.x, w), r.x % 32);
    forall j | 0 <= j < 32 && r.lo <= 32 * w + j <= r.hi
      ensures Pix(v, j) == PlaneBit(p, r.line, 32 * w + j - r.x)
    {
      JoinedCovers(p, r, w, j);
    }
  }

  lemma RightCarries(r: Row, w: int, p: Plane)
    requires w - r.x / 32 >= 0 && r.lo >= 32 * w + r.x % 32
    ensures Carries(r, w, p, Shr(Word(p, r.line, w - r.x / 32), r.x % 32))
  {
    hide Pix, PlaneBit, Word, Shr;
    assert r.lo >= r.x;
    var v := Shr(Word(p, r.line, w - r.x / 32), r.x % 32);
    forall j | 0 <= j < 32 && r.lo <= 32 * w + j <= r.hi
      ensures Pix(v, j) == PlaneBit(p, r.line, 32 * w + j - r.x)
    {
      ShiftedRight(p, r, w, j);
    }
  }

  /** The columns lo..hi of a sprite at x span several words, the last column is the first pixel of a sprite
      word, the sprite is not word-aligned on the screen, and the last screen word is not filled. */
  predicate Misses(x: int, lo: int, hi: int) {
    lo / 32 < hi / 32 && x % 32 != 0 && hi % 32 == x % 32 && hi % 32 != 31
  }

  /** The columns run backwards over a word border, and not from border to border. */
  predicate Torn(lo: int, hi: int) {
    hi / 32 < lo / 32 && !(lo % 32 == 0 && hi % 32 == 31)
  }

  /** Screen word in which the tail of the columns lo..hi is drawn: the word of hi, unless the head is
      already behind it. */
  function EndWord(lo: int, hi: int): int {
    if lo / 32 <= hi / 32 then hi / 32 else if lo % 32 == 0 then lo / 32 else lo / 32 + 1
  }

  /** The last column the blitter really draws. It is hi, except that a missed column is lost, and that the
      head and tail of a torn row are drawn side by side. */
  function EffectiveEnd(x: int, lo: int, hi: int): int {
    if lo / 32 <= hi / 32 then if Misses(x, lo, hi) then hi - 1 else hi
    else if hi % 32 == 31 then 32 * EndWord(lo, hi) - 1
    else 32 * EndWord(lo, hi) + hi % 32 - if x % 32 != 0 && hi % 32 == x % 32 then 1 else 0
  }

  function Effective(r: Row): Row {
    r.(hi := EffectiveEnd(r.x, r.lo, r.hi))
  }

  lemma LeftTailPix(r: Row, w: int, j: int)
    requires w == r.hi / 32 && r.lo <= 32 * w && r.lo / 32 < r.hi / 32
    requires First(r.x, w) >= 0 && r.x % 32 != 0 && r.x % 32 >= r.hi % 32 != 31 && 0 <= j < 32
    ensures var s := 32 - r.x % 32;
            var pix := Shl(Word(r.bmp, r.line, First(r.x, w)), s);
            var m := And(RightMask(r.hi % 32), Shl(Word(r.mask, r.line, First(r.x, w)), s));
            var e := Effective(r);
            && 32 * w + j >= r.x
            && (Pix(m, j) <==> e.lo <= 32 * w + j <= e.hi && PlaneBit(r.mask, r.line, 32 * w + j - r.x))
            && (Pix(m, j) ==> Pix(pix, j) == PlaneBit(r.bmp, r.line, 32 * w + j - r.x))
  {
    hide Pix, PlaneBit, And, Shl, Word, RightMask, First;
    FirstOrigin(r.x, w);
    PixAnd(RightMask(r.hi % 32), Shl(Word(r.mask, r.line, First(r.x, w)), 32 - r.x % 32), j);
    RightPix(r.hi % 32, j);
    ShiftedLeft(r.mask, r, w, j);
    ShiftedLeft(r.bmp, r, w, j);
  }

  lemma LeftShiftTail(r: Row, w: int, was: bv32)
    requires w == r.hi / 32 && r.lo <= 32 * w && r.lo / 32 < r.hi / 32
    requires First(r.x, w) >= 0 && r.x % 32 != 0 && r.x % 32 >= r.hi % 32 != 31
    ensures var s := 32 - r.x % 32;
            var pix := Shl(Word(r.bmp, r.line, First(r.x, w)), s);
            var msk := Shl(Word(r.mask, r.line, First(r.x, w)), s);
            Drawn(Effective(r), w, was, Merge(was, pix, And(RightMask(r.hi % 32), msk)))
  {
    hide Pix, PlaneBit, Merge, And, Shl, Word, RightMask, Drawn, First;
    var e, s := Effective(r), 32 - r.x % 32;
    var pix := Shl(Word(r.bmp, r.line, First(r.x, w)), s);
    var m := And(RightMask(r.hi % 32), Shl(Word(r.mask, r.line, First(r.x, w)), s));
    FirstOrigin(r.x, w);
    forall j | 0 <= j < 32
      ensures Pix(m, j) <==> e.lo <= 32 * w + j <= e.hi && PlaneBit(r.mask, r.line, 32 * w + j - r.x)
      ensures Pix(m, j) ==> Pix(pix, j) == PlaneBit(r.bmp, r.line, 32 * w + j - r.x)
    {
      LeftTailPix(r, w, j);
    }
    MergeDrawn(e, w, was, pix, m);
  }

  // ---------------------------------------------------------------- _mono_draw_sprite_box

  /** Where tsprx starts. */
  lemma SpriteStart(r: Row)
    requires r.lo >= r.x
    ensures var w := r.lo / 32;
            (r.lo - r.x) / 32 == if r.x % 32 <= r.lo % 32 then w - r.x / 32 else First(r.x, w)
    ensures (r.lo - r.x) / 32 >= 0
    ensures r.x % 32 <= r.lo % 32 ==> r.lo / 32 - r.x / 32 >= 0
    ensures r.x % 32 > r.lo % 32 ==> First(r.x, r.lo / 32) >= 0
    ensures forall w :: w > r.lo / 32 ==> First(r.x, w) >= 0
  {
  }

  lemma NarrowPicks(r: Row)
    requires r.lo / 32 == r.hi / 32
    ensures Picks(r, r.lo / 32, And(LeftMask(r.lo % 32), RightMask(r.hi % 32)))
  {
    hide Pix, And, LeftMask, RightMask;
    var w := r.lo / 32;
    forall j | 0 <= j < 32
      ensures Pix(And(LeftMask(r.lo % 32), RightMask(r.hi % 32)), j) <==> r.lo <= 32 * w + j <= r.hi
    {
      PixAnd(LeftMask(r.lo % 32), RightMask(r.hi % 32), j);
      LeftPix(r.lo % 32, j);
      RightPix(r.hi % 32, j);
    }
  }

  lemma HeadPicks(r: Row)
    requires r.lo / 32 < r.hi / 32
    ensures Picks(r, r.lo / 32, LeftMask(r.lo % 32))
  {
    hide Pix, LeftMask;
    forall j | 0 <= j < 32 ensures Pix(LeftMask(r.lo % 32), j) <==> r.lo <= 32 * (r.lo / 32) + j <= r.hi {
      LeftPix(r.lo % 32, j);
    }
  }

  lemma TailPicks(r: Row)
    requires r.lo / 32 < r.hi / 32
    ensures Picks(r, r.hi / 32, RightMask(r.hi % 32))
  {
    hide Pix, RightMask;
    forall j | 0 <= j < 32 ensures Pix(RightMask(r.hi % 32), j) <==> r.lo <= 32 * (r.hi / 32) + j <= r.hi {
      RightPix(r.hi % 32, j);
    }
  }

  /** Words strictly inside the row, or whole words at its ends, are drawn through the sprite mask alone. */
  lemma CentralDrawn(r: Row, w: int, was: bv32)
    requires r.lo <= 32 * w && 32 * w + 31 <= r.hi && First(r.x, w) >= 0
    ensures Drawn(r, w, was, Merge(was, Joined(r.bmp, r.line, First(r.x, w), r.x % 32),
                                   Joined(r.mask, r.line, First(r.x, w), r.x % 32)))
  {
    hide Pix, PlaneBit, Merge, Joined;
    var pix, msk := Joined(r.bmp, r.line, First(r.x, w), r.x % 32), Joined(r.mask, r.line, First(r.x, w), r.x % 32);
    JoinedCarries(r, w, r.bmp);
    JoinedCarries(r, w, r.mask);
    MergeDrawn(r, w, was, pix, msk);
  }

  /** A word is drawn the same way for two rows that agree on its columns. */
  lemma DrawnSame(r: Row, e: Row, w: int, was: bv32, now: bv32)
    requires Drawn(r, w, was, now) && e == r.(lo := e.lo, hi := e.hi)
    requires (r.lo == e.lo || (r.lo <= 32 * w && e.lo <= 32 * w))
    requires (r.hi == e.hi || (32 * w + 31 <= r.hi && 32 * w + 31 <= e.hi))
    ensures Drawn(e, w, was, now)
  {
    hide Pix, PlaneBit;
    forall j | 0 <= j < 32 ensures Pix(now, j) == Target(e, 32 * w + j, Pix(was, j)) {
      assert Pix(now, j) == Target(r, 32 * w + j, Pix(was, j));
    }
  }

  ghost predicate RowFits(a: array2<bv32>, y: int, r: Row) {
    0 <= y < a.Length0 && 0 <= r.lo && r.x <= r.lo && EffectiveEnd(r.x, r.lo, r.hi) / 32 < a.Length1
  }

  /** Narrow sprite: the clipped row lies in one screen word. */
  method NarrowRow(a: array2<bv32>, y: int, r: Row)
    requires RowFits(a, y, r) && r.lo / 32 == r.hi / 32
    modifies a
    ensures Drawn(Effective(r), r.lo / 32, old(a[y, r.lo / 32]), a[y, r.lo / 32])
    ensures forall i, j :: 0 <= i < a.Length0 && 0 <= j < a.Length1 && !(i == y && j == r.lo / 32) ==>
              a[i, j] == old(a[i, j])
  {
    hide Drawn, Merge, And, Shr, Shl, Word, LeftMask, RightMask, Joined, Picks, Carries;
    var w, shift, modI := r.lo / 32, r.x % 32, r.lo % 32;
    var t := (r.lo - r.x) / 32;
    var sel := And(LeftMask(modI), RightMask(r.hi % 32));
    SpriteStart(r);
    NarrowPicks(r);
    var pix, msk;
    if shift <= modI {
      pix, msk := Shr(Word(r.bmp, r.line, t), shift), Shr(Word(r.mask, r.line, t), shift);
      RightCarries(r, w, r.bmp);
      RightCarries(r, w, r.mask);
    } else {
      pix, msk := Joined(r.bmp, r.line, t, shift), Joined(r.mask, r.line, t, shift);
      JoinedCarries(r, w, r.bmp);
      JoinedCarries(r, w, r.mask);
    }
    WordDrawn(r, w, a[y, w], pix, msk, sel);
    a[y, w] := Merge(a[y, w], pix, And(sel, msk));
  }

  /** What the head of a row fetches from a plane. */
  function HeadSource(p: Plane, r: Row): bv32 {
    var t, shift := (r.lo - r.x) / 32, r.x % 32;
    if shift <= r.lo % 32 then Shr(Word(p, r.line, t), shift) else Joined(p, r.line, t, shift)
  }

  function HeadWord(r: Row, was: bv32): bv32 {
    Merge(was, HeadSource(r.bmp, r), And(LeftMask(r.lo % 32), HeadSource(r.mask, r)))
  }

  /** What the tail in screen word w fetches, its sprite words starting at t. */
  function TailSource(p: Plane, r: Row, t: int): bv32 {
    var shift := r.x % 32;
    if shift < r.hi % 32 || shift == 0 then Joined(p, r.line, t, shift) else Shl(Word(p, r.line, t), 32 - shift)
  }

  function TailWord(r: Row, t: int, was: bv32): bv32 {
    Merge(was, TailSource(r.bmp, r, t), And(RightMask(r.hi % 32), TailSource(r.mask, r, t)))
  }

  lemma HeadDrawn(r: Row, was: bv32)
    requires r.x <= r.lo && r.lo / 32 != r.hi / 32 && r.lo % 32 != 0
    ensures Drawn(Effective(r), r.lo / 32, was, HeadWord(r, was))
  {
    hide Drawn, Merge, And, Shr, Shl, Word, LeftMask, RightMask, Joined, Picks, Carries;
    var w := r.lo / 32;
    var e := r.(hi := 32 * w + 32);
    SpriteStart(e);
    HeadPicks(e);
    if r.x % 32 <= r.lo % 32 {
      RightCarries(e, w, r.bmp);
      RightCarries(e, w, r.mask);
    } else {
      JoinedCarries(e, w, r.bmp);
      JoinedCarries(e, w, r.mask);
    }
    WordDrawn(e, w, was, HeadSource(r.bmp, r), HeadSource(r.mask, r), LeftMask(r.lo % 32));
    DrawnSame(e, Effective(r), w, was, HeadWord(r, was));
  }

  lemma TailDrawn(r: Row, was: bv32)
    requires r.lo / 32 < r.hi / 32 && First(r.x, r.hi / 32) >= 0 && r.hi % 32 != 31
    ensures Drawn(Effective(r), r.hi / 32, was, TailWord(r, First(r.x, r.hi / 32), was))
  {
    hide Drawn, Merge, And, Shr, Shl, Word, LeftMask, RightMask, Joined, Picks, Carries;
    var w := r.hi / 32;
    if r.x % 32 < r.hi % 32 || r.x % 32 == 0 {
      TailPicks(r);
      JoinedCarries(r, w, r.bmp);
      JoinedCarries(r, w, r.mask);
      WordDrawn(r, w, was, TailSource(r.bmp, r, First(r.x, w)), TailSource(r.mask, r, First(r.x, w)),
                RightMask(r.hi % 32));
    } else {
      LeftShiftTail(r, w, was);
    }
  }

  /** The tail goes by the columns of its own word alone. */
  lemma TailAnywhere(r: Row, was: bv32)
    requires r.lo / 32 != r.hi / 32 && r.hi % 32 != 31 && r.lo <= 32 * EndWord(r.lo, r.hi)
    requires First(r.x, EndWord(r.lo, r.hi)) >= 0
    ensures var w := EndWord(r.lo, r.hi);
            Drawn(Effective(r), w, was, TailWord(r, First(r.x, w), was))
  {
    hide Drawn, Merge, TailSource, RightMask;
    var w := EndWord(r.lo, r.hi);
    var e := r.(lo := 32 * w - 1, hi := 32 * w + r.hi % 32);
    TailDrawn(e, was);
    TailSame(r, e, First(r.x, w), was);
    DrawnSame(Effective(e), Effective(r), w, was, TailWord(r, First(r.x, w), was));
  }

  lemma TailSame(r: Row, e: Row, t: int, was: bv32)
    requires e == r.(lo := e.lo, hi := e.hi) && e.hi % 32 == r.hi % 32
    ensures TailWord(e, t, was) == TailWord(r, t, was)
  {
    hide Joined, Shl, Word, Merge, And, RightMask;
  }

  /** First word of a wide row that does not start on a word border. */
  method Head(a: array2<bv32>, y: int, r: Row)
    requires RowFits(a, y, r) && r.lo / 32 != r.hi / 32 && r.lo % 32 != 0
    modifies a
    ensures Drawn(Effective(r), r.lo / 32, old(a[y, r.lo / 32]), a[y, r.lo / 32])
    ensures forall i, j :: 0 <= i < a.Length0 && 0 <= j < a.Length1 && !(i == y && j == r.lo / 32) ==>
              a[i, j] == old(a[i, j])
  {
    hide Drawn, Merge, And, Shr, Shl, Word, LeftMask, Joined;
    var w, t, shift, modI := r.lo / 32, (r.lo - r.x) / 32, r.x % 32, r.lo % 32;
    HeadDrawn(r, a[y, w]);
    var pix, msk;
    if shift <= modI {
      pix, msk := Shr(Word(r.bmp, r.line, t), shift), Shr(Word(r.mask, r.line, t), shift);
    } else {
      pix, msk := Joined(r.bmp, r.line, t, shift), Joined(r.mask, r.line, t, shift);
    }
    a[y, w] := Merge(a[y, w], pix, And(LeftMask(modI), msk));
  }

  /** Last word of a wide row that does not end on a word border. */
  method Tail(a: array2<bv32>, y: int, r: Row, w: int, t: int)
    requires RowFits(a, y, r) && r.lo / 32 != r.hi / 32 && r.hi % 32 != 31
    requires w == EndWord(r.lo, r.hi) && r.lo <= 32 * w && t == First(r.x, w)
    modifies a
    ensures Drawn(Effective(r), w, old(a[y, w]), a[y, w])
    ensures forall i, j :: 0 <= i < a.Length0 && 0 <= j < a.Length1 && !(i == y && j == w) ==> a[i, j] == old(a[i, j])
  {
    hide Drawn, Merge, And, Shr, Shl, Word, RightMask, Joined;
    var shift, modE := r.x % 32, r.hi % 32;
    FirstOrigin(r.x, w);
    TailAnywhere(r, a[y, w]);
    var pix, msk;
    if shift < modE || shift == 0 {
      pix, msk := Joined(r.bmp, r.line, t, shift), Joined(r.mask, r.line, t, shift);
    } else {
      pix, msk := Shl(Word(r.bmp, r.line, t), 32 - shift), Shl(Word(r.mask, r.line, t), 32 - shift);
    }
    a[y, w] := Merge(a[y, w], pix, And(RightMask(modE), msk));
  }

  /** Words of a wide row: the tail is in the word behind the head and the whole words. */
  lemma WideSpan(r: Row)
    requires r.lo / 32 != r.hi / 32
    ensures Effective(r).hi == EffectiveEnd(r.x, r.lo, r.hi)
    ensures var end := EndWord(r.lo, r.hi);
            && Effective(r).hi / 32 == (if r.hi % 32 != 31 || r.lo / 32 < r.hi / 32 then end else end - 1)
            && end == if r.lo / 32 < r.hi / 32 then r.hi / 32 else r.lo / 32 + if r.lo % 32 == 0 then 0 else 1
  {
  }

  /** The head, if any, and the first screen and sprite word behind it. */
  method Start(a: array2<bv32>, y: int, r: Row) returns (scr: int, t: int)
    requires RowFits(a, y, r) && r.lo / 32 != r.hi / 32
    modifies a
    ensures scr == (if r.lo % 32 == 0 then r.lo / 32 else r.lo / 32 + 1) && t == First(r.x, scr)
    ensures forall j :: r.lo / 32 <= j < scr ==> Drawn(Effective(r), j, old(a[y, j]), a[y, j])
    ensures forall i, j | 0 <= i < a.Length0 && 0 <= j < a.Length1 && !(i == y && r.lo / 32 <= j < scr)
              :: a[i, j] == old(a[i, j])
  {
    hide Drawn, Effective, EffectiveEnd;
    scr, t := r.lo / 32, (r.lo - r.x) / 32;
    SpriteStart(r);
    if r.lo % 32 != 0 {
      Head(a, y, r);
      scr := scr + 1;
      if r.x % 32 > r.lo % 32 || r.x % 32 == 0 {
        t := t + 1;
      }
    }
  }

  /** Wide sprite: head, whole words, tail. */
  method WideRow(a: array2<bv32>, y: int, r: Row)
    requires RowFits(a, y, r) && r.lo / 32 != r.hi / 32
    modifies a
    ensures forall j :: r.lo / 32 <= j <= Effective(r).hi / 32 ==> Drawn(Effective(r), j, old(a[y, j]), a[y, j])
    ensures forall i, j | 0 <= i < a.Length0 && 0 <= j < a.Length1 &&
                          !(i == y && r.lo / 32 <= j <= Effective(r).hi / 32) :: a[i, j] == old(a[i, j])
  {
    hide Drawn, Merge, Joined, Effective, EffectiveEnd, EndWord, First;
    WideSpan(r);
    var spanI, spanE, shift, tail := r.lo / 32, r.hi / 32, r.x % 32, r.hi % 32 != 31;
    var centralE := if tail then spanE else spanE + 1;
    var scr, t := Start(a, y, r);
    while scr < centralE
      invariant spanI <= scr && r.lo <= 32 * scr && t == First(r.x, scr)
      invariant scr <= centralE || (spanE < spanI && scr == EndWord(r.lo, r.hi))
      invariant forall j :: spanI <= j < scr ==> Drawn(Effective(r), j, old(a[y, j]), a[y, j])
      invariant forall i, j | 0 <= i < a.Length0 && 0 <= j < a.Length1 && !(i == y && spanI <= j < scr)
                  :: a[i, j] == old(a[i, j])
    {
      WholeDrawn(r, scr, a[y, scr]);
      FirstNext(r.x, scr);
      a[y, scr] := Merge(a[y, scr], Joined(r.bmp, r.line, t, shift), Joined(r.mask, r.line, t, shift));
      scr, t := scr + 1, t + 1;
    }
    if tail {
      Tail(a, y, r, scr, t);
    }
  }

  lemma FirstNext(x: int, w: int)
    ensures First(x, w + 1) == First(x, w) + 1
  {
  }

  lemma WholeDrawn(r: Row, w: int, was: bv32)
    requires r.lo <= 32 * w && 32 * w + 31 <= r.hi && r.x <= r.lo && w <= r.hi / 32 && r.lo / 32 < r.hi / 32
    requires w == r.hi / 32 ==> r.hi % 32 == 31
    ensures Drawn(Effective(r), w, was, Merge(was, Joined(r.bmp, r.line, First(r.x, w), r.x % 32),
                                              Joined(r.mask, r.line, First(r.x, w), r.x % 32)))
  {
    hide Drawn, Merge, Joined;
    FirstOrigin(r.x, w);
    CentralDrawn(r, w, was);
    if w < r.hi / 32 {
      DrawnSame(r, Effective(r), w, was, Merge(was, Joined(r.bmp, r.line, First(r.x, w), r.x % 32),
                                               Joined(r.mask, r.line, First(r.x, w), r.x % 32)));
    }
  }

  // ---------------------------------------------------------------- the whole box

  datatype Sprite = Sprite(width: int, height: int, bmp: Plane, mask: Plane)

  datatype Box = Box(xi: int, xe: int, yi: int, ye: int)

  /** The row of sprite s on screen line v, drawn at x, y and clipped to the sprite columns of box. */
  function RowAt(s: Sprite, x: int, y: int, box: Box, v: int): Row {
    Row(s.bmp, s.mask, v - y, x, box.xi + x, box.xe + x)
  }

  ghost predicate BoxFits(a: array2<bv32>, x: int, y: int, box: Box) {
    && 0 <= box.xi && 0 <= box.xi + x && EffectiveEnd(x, box.xi + x, box.xe + x) / 32 < a.Length1
    && (box.yi <= box.ye ==> 0 <= box.yi + y && box.ye + y < a.Length0)
  }

  /** Line v of the canvas after the blit. */
  ghost predicate LineDrawn(s: Sprite, x: int, y: int, box: Box, v: int, w: int, was: bv32, now: bv32) {
    if box.yi + y <= v <= box.ye + y then Drawn(Effective(RowAt(s, x, y, box, v)), w, was, now) else now == was
  }

  lemma BoxRow(a: array2<bv32>, s: Sprite, x: int, y: int, box: Box, v: int)
    requires BoxFits(a, x, y, box) && box.yi + y <= v <= box.ye + y
    ensures RowFits(a, v, RowAt(s, x, y, box, v))
  {
    hide EffectiveEnd;
  }

  /** _mono_draw_sprite_box */
  method DrawBox(a: array2<bv32>, s: Sprite, x: int, y: int, box: Box)
    requires BoxFits(a, x, y, box)
    modifies a
    ensures forall v, w :: 0 <= v < a.Length0 && 0 <= w < a.Length1 ==>
              LineDrawn(s, x, y, box, v, w, old(a[v, w]), a[v, w])
  {
    hide Drawn, Effective, EffectiveEnd, RowFits;
    var v := box.yi + y;
    while v <= box.ye + y
      invariant box.yi + y <= v && (v == box.yi + y || v <= box.ye + y + 1)
      invariant forall u, w :: 0 <= u < a.Length0 && 0 <= w < a.Length1 ==>
                  if box.yi + y <= u < v then Drawn(Effective(RowAt(s, x, y, box, u)), w, old(a[u, w]), a[u, w])
                  else a[u, w] == old(a[u, w])
      decreases box.ye + y + 1 - v
    {
      var r := RowAt(s, x, y, box, v);
      BoxRow(a, s, x, y, box, v);
      OtherWords(r, a.Length1);
      if r.lo / 32 == r.hi / 32 {
        NarrowRow(a, v, r);
      } else {
        WideRow(a, v, r);
      }
      v := v + 1;
    }
  }

  /** Words outside the row's span count as drawn when they are left alone. */
  lemma OtherWords(r: Row, n: int)
    ensures forall w, was :: 0 <= w < n && !(r.lo / 32 <= w <= Effective(r).hi / 32) ==>
              Drawn(Effective(r), w, was, was)
    ensures r.lo / 32 == r.hi / 32 ==> Effective(r) == r
  {
    hide Drawn, EndWord;
    forall w, was | 0 <= w < n && !(r.lo / 32 <= w <= Effective(r).hi / 32) ensures Drawn(Effective(r), w, was, was) {
      Untouched(Effective(r), w, was);
    }
  }

  // ---------------------------------------------------------------- canvas.h

  predicate Within(i: int, e: int, v: int) {
    i <= v <= e
  }

  /** _segment_intersection: on success the result is exactly the common part, which may be empty when an
      argument is; on failure there is no common part. */
  method SegmentIntersection(ai0: int, ae0: int, bi0: int, be0: int) returns (ok: bool, ri: int, re: int)
    ensures ok ==> forall v :: Within(ri, re, v) <==> Within(ai0, ae0, v) && Within(bi0, be0, v)
    ensures ok ==> ri == (if ai0 < bi0 then bi0 else ai0) && re == (if ae0 < be0 then ae0 else be0)
    ensures ok <==> if bi0 < ai0 then ai0 <= be0 else bi0 <= ae0
    ensures !ok ==> forall v :: !(Within(ai0, ae0, v) && Within(bi0, be0, v))
  {
    var ai, ae, bi, be := ai0, ae0, bi0, be0;
    if bi < ai {
      ai, bi := bi, ai;
      ae, be := be, ae;
    }
    if ae < bi {
      return false, 0, 0;
    }
    ri, re := bi, if ae < be then ae else be;
    ok := true;
  }

  ghost predicate InBox(b: Box, u: int, v: int) {
    Within(b.xi, b.xe, u) && Within(b.yi, b.ye, v)
  }

  /** _box_intersection */
  method BoxIntersection(a: Box, b: Box) returns (ok: bool, r: Box)
    ensures ok ==> forall u, v :: InBox(r, u, v) <==> InBox(a, u, v) && InBox(b, u, v)
    ensures ok ==> (forall u :: Within(r.xi, r.xe, u) <==> Within(a.xi, a.xe, u) && Within(b.xi, b.xe, u))
    ensures ok ==> (forall v :: Within(r.yi, r.ye, v) <==> Within(a.yi, a.ye, v) && Within(b.yi, b.ye, v))
    ensures ok ==> r.xi == (if a.xi < b.xi then b.xi else a.xi) && r.xe == (if a.xe < b.xe then a.xe else b.xe)
    ensures ok ==> if b.xi < a.xi then a.xi <= b.xe else b.xi <= a.xe
    ensures !ok ==> forall u, v :: !(InBox(a, u, v) && InBox(b, u, v))
  {
    var ok0, xi, xe := SegmentIntersection(a.xi, a.xe, b.xi, b.xe);
    var ok1, yi, ye := SegmentIntersection(a.yi, a.ye, b.yi, b.ye);
    ok, r := ok0 && ok1, Box(xi, xe, yi, ye);
  }

  // ---------------------------------------------------------------- mono_draw_sprite, mono_draw_sprite_part

  /** Pixel at column c, line v of the canvas. */
  predicate At(a: array2<bv32>, c: int, v: int)
    requires 0 <= v < a.Length0 && 0 <= c < 32 * a.Length1
    reads a
  {
    Pix(a[v, c / 32], c % 32)
  }

  /** A canvas of width by height pixels held in a. */
  ghost predicate CanvasFits(a: array2<bv32>, width: int, height: int) {
    0 <= width <= 32 * a.Length1 && 0 <= height <= a.Length0
  }

  /** What a pixel becomes when part of sprite s is drawn with the sprite's column 0 at x and line 0 at
      y: the per-pixel masked copy. */
  ghost predicate Copied(s: Sprite, x: int, y: int, box: Box, c: int, v: int, was: bool) {
    if InBox(box, c - x, v - y) && c >= x && PlaneBit(s.mask, v - y, c - x) then PlaneBit(s.bmp, v - y, c - x) else was
  }

  /** The box with the columns the blitter really draws. */
  function EffectiveBox(x: int, box: Box): Box {
    box.(xe := EffectiveEnd(x, box.xi + x, box.xe + x) - x)
  }

  lemma EffectiveAt(r: Row)
    ensures Effective(r) == r.(hi := EffectiveEnd(r.x, r.lo, r.hi))
  {
  }

  /** Word-level and pixel-level descriptions of a drawn line agree. */
  lemma LinePixel(s: Sprite, x: int, y: int, box: Box, c: int, v: int, was: bv32, now: bv32)
    requires LineDrawn(s, x, y, box, v, c / 32, was, now)
    ensures Pix(now, c % 32) == Copied(s, x, y, EffectiveBox(x, box), c, v, Pix(was, c % 32))
  {
    hide Pix, PlaneBit, EffectiveEnd, Effective;
    assert 32 * (c / 32) + c % 32 == c;
    EffectiveAt(RowAt(s, x, y, box, v));
    if box.yi + y <= v <= box.ye + y {
      var r := Effective(RowAt(s, x, y, box, v));
      assert Pix(now, c % 32) == Target(r, 32 * (c / 32) + c % 32, Pix(was, c % 32));
    }
  }

  /** For every alignment of sprite, clip and screen, the box blit changes exactly the pixels a per-pixel
      masked copy of the effective box would. */
  method DrawPixels(a: array2<bv32>, s: Sprite, x: int, y: int, box: Box)
    requires BoxFits(a, x, y, box)
    modifies a
    ensures forall c, v :: 0 <= v < a.Length0 && 0 <= c < 32 * a.Length1 ==>
              At(a, c, v) == Copied(s, x, y, EffectiveBox(x, box), c, v, old(At(a, c, v)))
  {
    hide Pix, Copied, LineDrawn, EffectiveBox;
    DrawBox(a, s, x, y, box);
    forall c, v | 0 <= v < a.Length0 && 0 <= c < 32 * a.Length1
      ensures At(a, c, v) == Copied(s, x, y, EffectiveBox(x, box), c, v, old(At(a, c, v)))
    {
      LinePixel(s, x, y, box, c, v, old(a[v, c / 32]), a[v, c / 32]);
    }
  }

  /** Every row of the plane holds the sprite's pixels. */
  ghost predicate Holds(p: Plane, width: int, height: int) {
    p.Plane? ==> |p.rows| >= height && forall i :: 0 <= i < height ==> 32 * |p.rows[i]| >= width
  }

  /** The pixel the sprite stores at line, column q: a bit of its row, 32 to a word, highest bit first; a missing
      mask is set everywhere. */
  ghost predicate Stored(p: Plane, line: int, q: int) {
    p.Solid? || (0 <= line < |p.rows| && 0 <= q / 32 < |p.rows[line]| && Bit(p.rows[line][q / 32], 31 - q % 32))
  }

  lemma StoredBit(p: Plane, width: int, height: int, line: int, q: int)
    requires Holds(p, width, height) && 0 <= line < height && 0 <= q < width
    ensures PlaneBit(p, line, q) <==> Stored(p, line, q)
    ensures p.Plane? ==> q / 32 < |p.rows[line]| && (PlaneBit(p, line, q) <==> Bit(p.rows[line][q / 32], 31 - q % 32))
    ensures p.Solid? ==> PlaneBit(p, line, q)
  {
    hide Bit;
    if p.Solid? {
      PixOnes(q % 32);
    } else {
      assert 32 * |p.rows[line]| >= width;
    }
  }

  /** Pixels of the sprite are copied as the sprite stores them. */
  lemma CopiedStored(s: Sprite, x: int, y: int, box: Box, c: int, v: int, was: bool)
    requires Holds(s.bmp, s.width, s.height) && Holds(s.mask, s.width, s.height)
    requires InBox(box, c - x, v - y) ==> InSprite(s, c - x, v - y)
    ensures Copied(s, x, y, box, c, v, was) ==
            if InBox(box, c - x, v - y) && Stored(s.mask, v - y, c - x) then Stored(s.bmp, v - y, c - x) else was
  {
    hide PlaneBit, Stored, Holds;
    if InBox(box, c - x, v - y) {
      StoredBit(s.bmp, s.width, s.height, v - y, c - x);
      StoredBit(s.mask, s.width, s.height, v - y, c - x);
    }
  }

  /** A box in order draws none but its own pixels. */
  lemma EffectiveInside(x: int, box: Box, c: int, v: int)
    requires box.xi <= box.xe + 1 && InBox(EffectiveBox(x, box), c, v)
    ensures InBox(box, c, v)
  {
  }

  ghost predicate OnScreen(width: int, height: int, x: int, y: int, c: int, v: int) {
    0 <= c + x < width && 0 <= v + y < height
  }

  ghost predicate InSprite(s: Sprite, c: int, v: int) {
    0 <= c < s.width && 0 <= v < s.height
  }

  /** mono_draw_sprite: the box drawn is the part of the sprite that is on the screen. */
  method DrawSprite(a: array2<bv32>, width: int, height: int, s: Sprite, x: int, y: int) returns (ghost box: Box)
    requires CanvasFits(a, width, height) && 0 <= s.width && 0 <= s.height
    modifies a
    ensures forall c, v :: InBox(box, c, v) <==> InSprite(s, c, v) && OnScreen(width, height, x, y, c, v)
    ensures forall c, v :: 0 <= v < a.Length0 && 0 <= c < 32 * a.Length1 ==>
              At(a, c, v) == Copied(s, x, y, EffectiveBox(x, box), c, v, old(At(a, c, v)))
    ensures Holds(s.bmp, s.width, s.height) && Holds(s.mask, s.width, s.height) ==>
              forall c, v :: 0 <= v < a.Length0 && 0 <= c < 32 * a.Length1 ==>
                At(a, c, v) == if InBox(EffectiveBox(x, box), c - x, v - y) && Stored(s.mask, v - y, c - x)
                               then Stored(s.bmp, v - y, c - x) else old(At(a, c, v))
  {
    hide Pix, Copied, EffectiveBox, PlaneBit, Stored, Holds;
    var scr := Box(-x, -x + width - 1, -y, -y + height - 1);
    var sub := Box(0, s.width - 1, 0, s.height - 1);
    var ok, res := BoxIntersection(scr, sub);
    box := if ok then res else Box(0, -1, 0, -1);
    forall c, v ensures InBox(box, c, v) <==> InSprite(s, c, v) && OnScreen(width, height, x, y, c, v) {
      assert InBox(scr, c, v) && InBox(sub, c, v) <==> InSprite(s, c, v) && OnScreen(width, height, x, y, c, v);
    }
    if ok {
      ClipFits(a, x, y, scr, sub, res);
      DrawPixels(a, s, x, y, res);
    } else {
      NothingCopied(s, x, y, box);
    }
    if Holds(s.bmp, s.width, s.height) && Holds(s.mask, s.width, s.height) {
      forall c, v | 0 <= v < a.Length0 && 0 <= c < 32 * a.Length1
        ensures At(a, c, v) == if InBox(EffectiveBox(x, box), c - x, v - y) && Stored(s.mask, v - y, c - x)
                               then Stored(s.bmp, v - y, c - x) else old(At(a, c, v))
      {
        if InBox(EffectiveBox(x, box), c - x, v - y) { EffectiveInside(x, box, c - x, v - y); }
        CopiedStored(s, x, y, EffectiveBox(x, box), c, v, old(At(a, c, v)));
      }
    }
  }

  /** The clipping of mono_draw_sprite_part: the part is first cut to the sprite, then its top left corner is
      put at x, y and the result is cut to the screen. */
  method ClipPart(width: int, height: int, s: Sprite, x: int, y: int, part: Box) returns (ok: bool, cut: Box, box: Box)
    requires 0 <= width && 0 <= height && 0 <= s.width && 0 <= s.height
    ensures forall c, v :: InBox(cut, c, v) <==> InBox(part, c, v) && InSprite(s, c, v)
    ensures forall c, v :: InBox(box, c, v) <==>
              InBox(cut, c, v) && OnScreen(width, height, x - cut.xi, y - cut.yi, c, v)
    ensures !ok ==> box == NOTHING
    ensures ok ==> 0 <= box.xi && 0 <= box.xi + x - cut.xi && box.xe + x - cut.xi < width
    ensures ok && box.yi <= box.ye ==> 0 <= box.yi + y - cut.yi && box.ye + y - cut.yi < height
    ensures ok ==> box.xi <= box.xe + 1 || (0 <= x < width && cut.xi == part.xi == box.xi && part.xe == box.xe)
  {
    hide InBox, InSprite, OnScreen;
    var bitm := Box(0, s.width - 1, 0, s.height - 1);
    var res;
    ok, cut := BoxIntersection(part, bitm);
    SpriteBox(s);
    box := NOTHING;
    if !ok {
      cut := NOTHING;
      NothingIn();
      return;
    }
    var scr := Box(-x, -x + width - 1, -y, -y + height - 1);
    var sub := Box(0, cut.xe - cut.xi, 0, cut.ye - cut.yi);
    ok, res := BoxIntersection(scr, sub);
    ScreenBox(width, height, x, y, cut);
    if ok {
      box := Box(res.xi + cut.xi, res.xe + cut.xi, res.yi + cut.yi, res.ye + cut.yi);
      MovedBox(box, res, cut);
      assert Within(res.yi, res.ye, res.yi) <==> res.yi <= res.ye;
      assert Within(res.yi, res.ye, res.ye) <==> res.yi <= res.ye;
    } else {
      NothingIn();
    }
  }

  const NOTHING := Box(0, -1, 0, -1)

  lemma NothingIn()
    ensures forall c, v :: !InBox(NOTHING, c, v)
  {
  }

  lemma SpriteBox(s: Sprite)
    ensures forall c, v :: InBox(Box(0, s.width - 1, 0, s.height - 1), c, v) <==> InSprite(s, c, v)
  {
  }

  lemma ScreenBox(width: int, height: int, x: int, y: int, cut: Box)
    ensures forall c, v ::
              InBox(Box(-x, -x + width - 1, -y, -y + height - 1), c - cut.xi, v - cut.yi)
              && InBox(Box(0, cut.xe - cut.xi, 0, cut.ye - cut.yi), c - cut.xi, v - cut.yi)
              <==> InBox(cut, c, v) && OnScreen(width, height, x - cut.xi, y - cut.yi, c, v)
  {
  }

  lemma MovedBox(box: Box, res: Box, cut: Box)
    requires box == Box(res.xi + cut.xi, res.xe + cut.xi, res.yi + cut.yi, res.ye + cut.yi)
    ensures forall c, v :: InBox(box, c, v) <==> InBox(res, c - cut.xi, v - cut.yi)
  {
  }

  /** mono_draw_sprite_part */
  method DrawSpritePart(a: array2<bv32>, width: int, height: int, s: Sprite, x: int, y: int, part: Box)
    returns (ghost cut: Box, ghost box: Box)
    requires CanvasFits(a, width, height) && 0 <= s.width && 0 <= s.height
    requires part.xe + 1 < part.xi && 0 <= x < width ==>
               EffectiveEnd(x - part.xi, x, x + part.xe - part.xi) / 32 < a.Length1
    modifies a
    ensures forall c, v :: InBox(cut, c, v) <==> InBox(part, c, v) && InSprite(s, c, v)
    ensures forall c, v :: InBox(box, c, v) <==>
              InBox(cut, c, v) && OnScreen(width, height, x - cut.xi, y - cut.yi, c, v)
    ensures Torn(box.xi + x - cut.xi, box.xe + x - cut.xi) ==>
              part.xe + 1 < part.xi && cut.xi == part.xi == box.xi && part.xe == box.xe
    ensures forall c, v :: 0 <= v < a.Length0 && 0 <= c < 32 * a.Length1 ==>
              At(a, c, v) == Copied(s, x - cut.xi, y - cut.yi, EffectiveBox(x - cut.xi, box), c, v, old(At(a, c, v)))
    ensures Holds(s.bmp, s.width, s.height) && Holds(s.mask, s.width, s.height) ==>
              forall c, v :: 0 <= v < a.Length0 && 0 <= c < 32 * a.Length1 ==>
                var q, l, e := c - x + cut.xi, v - y + cut.yi, EffectiveBox(x - cut.xi, box);
                (InBox(e, q, l) ==> InSprite(s, q, l)) ==>
                  At(a, c, v) == if InBox(e, q, l) && Stored(s.mask, l, q) then Stored(s.bmp, l, q)
                                 else old(At(a, c, v))
  {
    hide Pix, Copied, EffectiveBox, EffectiveEnd, Torn, BoxFits, PlaneBit, InBox, InSprite, OnScreen, Stored, Holds;
    var ok, bpart, res := ClipPart(width, height, s, x, y, part);
    cut, box := bpart, res;
    if ok {
      PartFits(a, x - bpart.xi, y - bpart.yi, width, height, res);
      DrawPixels(a, s, x - bpart.xi, y - bpart.yi, res);
    } else {
      NothingCopied(s, x - cut.xi, y - cut.yi, box);
    }
    if Holds(s.bmp, s.width, s.height) && Holds(s.mask, s.width, s.height) {
      ghost var e := EffectiveBox(x - cut.xi, box);
      forall c, v | 0 <= v < a.Length0 && 0 <= c < 32 * a.Length1
        ensures var q, l := c - x + cut.xi, v - y + cut.yi;
                (InBox(e, q, l) ==> InSprite(s, q, l)) ==>
                  At(a, c, v) == if InBox(e, q, l) && Stored(s.mask, l, q) then Stored(s.bmp, l, q)
                                 else old(At(a, c, v))
      {
        if InBox(e, c - (x - cut.xi), v - (y - cut.yi)) ==> InSprite(s, c - (x - cut.xi), v - (y - cut.yi)) {
          CopiedStored(s, x - cut.xi, y - cut.yi, e, c, v, old(At(a, c, v)));
        }
      }
    }
  }

  /** A box within the screen fits, and so does a torn one that ends within the screen. */
  lemma PartFits(a: array2<bv32>, x: int, y: int, width: int, height: int, box: Box)
    requires CanvasFits(a, width, height) && 0 <= box.xi && 0 <= box.xi + x && box.xe + x < width
    requires box.yi <= box.ye ==> 0 <= box.yi + y && box.ye + y < height
    requires box.xi <= box.xe + 1 || EffectiveEnd(x, box.xi + x, box.xe + x) / 32 < a.Length1
    ensures BoxFits(a, x, y, box)
    ensures Torn(box.xi + x, box.xe + x) ==> box.xe + 1 < box.xi
  {
  }

  lemma NothingCopied(s: Sprite, x: int, y: int, box: Box)
    requires box.xe + 1 == box.xi
    ensures !Torn(box.xi + x, box.xe + x)
    ensures forall c, v, was :: Copied(s, x, y, EffectiveBox(x, box), c, v, was) == was
  {
    hide PlaneBit;
  }

  lemma ClipFits(a: array2<bv32>, x: int, y: int, scr: Box, sub: Box, res: Box)
    requires scr.xi == -x && scr.yi == -y && 0 <= sub.xi && 0 <= sub.yi
    requires scr.xe + x < 32 * a.Length1 && scr.ye + y < a.Length0
    requires forall u :: Within(res.yi, res.ye, u) <==> Within(scr.yi, scr.ye, u) && Within(sub.yi, sub.ye, u)
    requires scr.xi <= res.xi && sub.xi <= res.xi <= res.xe + 1 && res.xe <= scr.xe
    ensures BoxFits(a, x, y, res)
  {
    assert Within(res.yi, res.ye, res.yi) <==> res.yi <= res.ye;
    assert Within(res.yi, res.ye, res.ye) <==> res.yi <= res.ye;
  }

  // ---------------------------------------------------------------- what the box blit misses, exactly

  /** Two planes with the same rows. */
  ghost predicate SameRows(p: Plane, q: Plane) {
    p.Solid? == q.Solid? && (p.Plane? ==> p.rows == q.rows)
  }

  /** Words fetched outside a row never show. */
  lemma OutsideMasked(s: Sprite, s': Sprite, x: int, y: int, box: Box, c: int, v: int, was: bool)
    requires Holds(s.bmp, s.width, s.height) && Holds(s.mask, s.width, s.height)
    requires SameRows(s.bmp, s'.bmp) && SameRows(s.mask, s'.mask)
    requires InBox(box, c - x, v - y) ==> InSprite(s, c - x, v - y)
    ensures Copied(s, x, y, box, c, v, was) == Copied(s', x, y, box, c, v, was)
  {
    hide Pix;
    if InBox(box, c - x, v - y) {
      assert s.bmp.Plane? ==> 32 * |s.bmp.rows[v - y]| >= s.width;
      assert s.mask.Plane? ==> 32 * |s.mask.rows[v - y]| >= s.width;
    }
  }

  /** The blit of a box is the per-pixel copy of that box, for all contents, exactly when the box does not
      end in a missed column and is not torn. */
  lemma ExactUnlessMissed(x: int, y: int, box: Box)
    requires box.yi <= box.ye && 0 <= box.xi
    ensures (forall s, c, v, was ::
               Copied(s, x, y, EffectiveBox(x, box), c, v, was) == Copied(s, x, y, box, c, v, was))
            <==> !Misses(x, box.xi + x, box.xe + x) && !Torn(box.xi + x, box.xe + x)
  {
    hide PlaneBit;
    var s := Sprite(0, 0, Solid, Solid);
    if Misses(x, box.xi + x, box.xe + x) {
      SolidBit(box.ye, box.xe);
      assert Copied(s, x, y, box, box.xe + x, box.ye + y, false);
      assert !Copied(s, x, y, EffectiveBox(x, box), box.xe + x, box.ye + y, false);
    } else if Torn(box.xi + x, box.xe + x) {
      SolidBit(box.ye, box.xi);
      assert !Copied(s, x, y, box, box.xi + x, box.ye + y, false);
      assert Copied(s, x, y, EffectiveBox(x, box), box.xi + x, box.ye + y, false);
    }
  }

  /** A solid sprite of 33 pixels at column 5: its last column stays clear. */
  lemma MissedExample()
    ensures var s, box := Sprite(33, 1, Solid, Solid), Box(0, 32, 0, 0);
            && Misses(5, 5, 37)
            && Copied(s, 5, 0, box, 37, 0, false) && !Copied(s, 5, 0, EffectiveBox(5, box), 37, 0, false)
  {
    SolidBit(0, 32);
  }

  /** The empty part from column 40 to column 2 of a solid sprite, put at column 40: 24 + 3 pixels are drawn. */
  lemma TornExample()
    ensures var s, box := Sprite(64, 1, Solid, Solid), Box(40, 2, 0, 0);
            && Torn(40, 2)
            && forall c :: Copied(s, 0, 0, EffectiveBox(0, box), c, 0, false) <==> 40 <= c <= 66
  {
    hide PlaneBit;
    forall c | c >= 0 ensures PlaneBit(Solid, 0, c) {
      SolidBit(0, c);
    }
  }

  lemma SolidBit(line: int, q: int)
    requires q >= 0
    ensures PlaneBit(Solid, line, q)
  {
    PixOnes(q % 32);
  }

  // ---------------------------------------------------------------- span fill of mono_filled_polygon

  /** mask_e: the pixels left of m. */
  function BeforeMask(m: int): bv32
    requires 0 <= m < 32
  {
    Not(Shr(ONES, m))
  }

  lemma BeforePix(m: int, j: int)
    requires 0 <= m < 32 && 0 <= j < 32
    ensures Pix(BeforeMask(m), j) <==> j < m
  {
    hide Bit, Not, Shr;
    NotBit(Shr(ONES, m), 31 - j);
    LeftPix(m, j);
  }

  /** Pixel j of word w after filling the columns xi..xe-1 with ink. */
  ghost predicate Filled(xi: int, xe: int, ink: bv32, w: int, was: bv32, now: bv32) {
    forall j :: 0 <= j < 32 ==> Pix(now, j) == if xi <= 32 * w + j < xe then Pix(ink, j) else Pix(was, j)
  }

  lemma FillWord(xi: int, xe: int, ink: bv32, w: int, was: bv32, sel: bv32)
    requires forall j :: 0 <= j < 32 ==> (Pix(sel, j) <==> xi <= 32 * w + j < xe)
    ensures Filled(xi, xe, ink, w, was, Merge(was, ink, sel))
  {
    hide Pix, Merge;
    forall j | 0 <= j < 32
      ensures Pix(Merge(was, ink, sel), j) == if xi <= 32 * w + j < xe then Pix(ink, j) else Pix(was, j)
    {
      PixMerge(was, ink, sel, j);
    }
  }

  lemma EndMasks(xi: int, xe: int)
    requires 0 <= xi <= xe
    ensures xi / 32 == xe / 32 ==> forall j :: 0 <= j < 32 ==>
              (Pix(And(LeftMask(xi % 32), BeforeMask(xe % 32)), j) <==> xi <= 32 * (xi / 32) + j < xe)
    ensures xi / 32 < xe / 32 ==> forall j :: 0 <= j < 32 ==>
              (Pix(LeftMask(xi % 32), j) <==> xi <= 32 * (xi / 32) + j < xe)
    ensures xi / 32 < xe / 32 ==> forall j :: 0 <= j < 32 ==>
              (Pix(BeforeMask(xe % 32), j) <==> xi <= 32 * (xe / 32) + j < xe)
  {
    hide Pix, And, LeftMask, BeforeMask;
    var l, b := LeftMask(xi % 32), BeforeMask(xe % 32);
    forall j | 0 <= j < 32
      ensures Pix(l, j) <==> j >= xi % 32
      ensures Pix(b, j) <==> j < xe % 32
      ensures Pix(And(l, b), j) <==> Pix(l, j) && Pix(b, j)
    {
      LeftPix(xi % 32, j);
      BeforePix(xe % 32, j);
      PixAnd(l, b, j);
    }
  }

  /** The fill of one scan line: columns xi..xe-1 take the ink, nothing else changes. */
  method FillSpan(a: array2<bv32>, y: int, xi: int, xe: int, ink: bv32)
    requires 0 <= y < a.Length0 && 0 <= xi <= xe < 32 * a.Length1
    modifies a
    ensures forall w :: xi / 32 <= w <= xe / 32 ==> Filled(xi, xe, ink, w, old(a[y, w]), a[y, w])
    ensures forall i, w :: 0 <= i < a.Length0 && 0 <= w < a.Length1 && !(i == y && xi / 32 <= w <= xe / 32) ==>
              a[i, w] == old(a[i, w])
  {
    hide Filled, Merge, And, LeftMask, BeforeMask, Pix;
    var i, e := xi / 32, xe / 32;
    var maskI, maskE := LeftMask(xi % 32), BeforeMask(xe % 32);
    EndMasks(xi, xe);
    if i == e {
      FillWord(xi, xe, ink, i, a[y, i], And(maskI, maskE));
      a[y, i] := Merge(a[y, i], ink, And(maskI, maskE));
    } else {
      FillWord(xi, xe, ink, i, a[y, i], maskI);
      FillWord(xi, xe, ink, e, a[y, e], maskE);
      a[y, i] := Merge(a[y, i], ink, maskI);
      i := i + 1;
      while i != e
        invariant xi / 32 < i <= e
        invariant forall w :: xi / 32 <= w < i ==> Filled(xi, xe, ink, w, old(a[y, w]), a[y, w])
        invariant forall u, w :: 0 <= u < a.Length0 && 0 <= w < a.Length1 && !(u == y && xi / 32 <= w < i) ==>
                    a[u, w] == old(a[u, w])
        decreases e - i
      {
        InkWord(xi, xe, ink, i, a[y, i]);
        a[y, i] := ink;
        i := i + 1;
      }
      a[y, e] := Merge(a[y, e], ink, maskE);
    }
  }

  lemma InkWord(xi: int, xe: int, ink: bv32, w: int, was: bv32)
    requires xi <= 32 * w && 32 * w + 31 < xe
    ensures Filled(xi, xe, ink, w, was, ink)
  {
    hide Pix;
  }
}
