/** The macros of src/rbtree.h: parent pointer and colour bit in one machine word. */
module RbPacking {
  /** A word as `unsigned long` holds it on a 64-bit platform; on a 32-bit one it holds those
      below 2^32, and there every macro stays among them (the lemmas at the end). */
  type Word = bv64

  const RED: Word := 0
  const BLACK: Word := 1
  const MASK: Word := 0xFFFF_FFFF_FFFF_FFFC

  /** `aligned(sizeof(long))`: node addresses leave their low bits clear, three of them where a
      long has 8 bytes, two where it has 4. Two are enough. */
  predicate Aligned(p: Word) { p & 3 == 0 }

  function Parent(w: Word): Word { w & MASK }

  function Colour(w: Word): Word { w & 1 }

  function SetParent(w: Word, p: Word): Word { (w & 3) | p }

  function SetRed(w: Word): Word { w & 0xFFFF_FFFF_FFFF_FFFE }

  function SetBlack(w: Word): Word { w | 1 }

  function SetColour(w: Word, colour: Word): Word { (w & 0xFFFF_FFFF_FFFF_FFFE) | colour }

  /** The word for an aligned parent address and a colour. */
  function Pack(p: Word, colour: Word): Word { p | colour }

  // The two halves of a packed word are independent fields: every macro reads or writes the
  // one it names and leaves the other alone.

  lemma FieldsRead(p: Word, colour: Word)
    requires Aligned(p) && (colour == RED || colour == BLACK)
    ensures Parent(Pack(p, colour)) == p && Colour(Pack(p, colour)) == colour
  {}

  lemma ParentWritten(p: Word, colour: Word, q: Word)
    requires Aligned(p) && Aligned(q) && (colour == RED || colour == BLACK)
    ensures SetParent(Pack(p, colour), q) == Pack(q, colour)
  {
    assert Pack(p, colour) & 3 == colour;
    assert colour | q == q | colour;
  }

  lemma RedWritten(p: Word, colour: Word)
    requires Aligned(p) && (colour == RED || colour == BLACK)
    ensures SetRed(Pack(p, colour)) == Pack(p, RED)
  {
    assert p | 0 == p;
    if colour == RED {
      EvenCleared(p);
    } else {
      OddCleared(p);
    }
  }

  lemma EvenCleared(p: Word)
    requires Aligned(p)
    ensures p & 0xFFFF_FFFF_FFFF_FFFE == p
  {}

  lemma OddCleared(p: Word)
    requires Aligned(p)
    ensures (p | 1) & 0xFFFF_FFFF_FFFF_FFFE == p
  {}

  lemma BlackWritten(p: Word, colour: Word)
    requires colour == RED || colour == BLACK
    ensures SetBlack(Pack(p, colour)) == Pack(p, BLACK)
  {}

  lemma ColourWritten(p: Word, colour: Word, colour': Word)
    requires Aligned(p) && (colour == RED || colour == BLACK)
    ensures SetColour(Pack(p, colour), colour') == Pack(p, colour')
  {
    RedWritten(p, colour);
    assert Pack(p, RED) == p by { assert p | 0 == p; }
  }

  /** `rb_link_node` stores the bare parent address, which makes a red node; `rb_erase` copies
      the whole word, and with it parent and colour. */
  lemma WholeWord(p: Word, colour: Word, p': Word, colour': Word)
    requires Aligned(p) && (colour == RED || colour == BLACK)
    requires Aligned(p') && (colour' == RED || colour' == BLACK)
    ensures Pack(p, RED) == p
    ensures Pack(p, colour) == Pack(p', colour') <==> p == p' && colour == colour'
  {
    FieldsRead(p, colour);
    FieldsRead(p', colour');
  }

  /** Without alignment the packing loses information: exactly the addresses with bit 0 and
      bit 1 clear survive `rb_set_parent`, whatever the word held before. */
  lemma ParentSurvives(w: Word, p: Word)
    ensures Parent(SetParent(w, p)) == p && Colour(SetParent(w, p)) == Colour(w) <==> p & 3 == 0
  {}

  predicate Short(w: Word) { w < 0x1_0000_0000 }

  // On 32-bit words the macros compute what the 32-bit masks would, and nothing wider.

  lemma NarrowParent(w: Word)
    requires Short(w)
    ensures Short(Parent(w)) && Parent(w) == w & 0xFFFF_FFFC
  {}

  lemma NarrowSetParent(w: Word, p: Word)
    requires Short(w) && Short(p)
    ensures Short(SetParent(w, p))
  {}

  lemma NarrowRed(w: Word)
    requires Short(w)
    ensures Short(SetRed(w)) && SetRed(w) == w & 0xFFFF_FFFE
  {}

  lemma NarrowBlack(w: Word)
    requires Short(w)
    ensures Short(SetBlack(w))
  {}
}
