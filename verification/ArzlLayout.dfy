/**
 Where ARZL keeps its probabilities: six tables packed into 3240 cells.

 A `Role` names what a probability is for. The decoder addresses cells through
 the functions of this module only.
 */
module ArzlLayout {
  import opened ArzlCoder

  /** The largest distance slot of a well-formed stream, and of the table's memory. */
  const LAST_SLOT := 18
  const LAST_SLOT_IN_MEMORY := 28

  datatype Role =
    | LiteralNode(context: nat, node: nat)
    | SlotNode(klass: nat, short: bool, node: nat)
    | DistanceBit(slot: nat, align: nat, klass: nat, which: nat)
    | Flag(history: nat)
    | ClassBit(history: nat, step: nat)
    | LengthBit(klass: nat, align: nat, history: nat, which: nat)

  /**
   A number of `n` bits below its leading one uses at most four probabilities,
   and picks among aligned copies of short tables.
   */
  predicate ValidNumberCell(n: nat, align: nat, which: nat) {
    && n >= 1
    && (n == 1 ==> align < 4 && which == 0)
    && (n == 2 ==> (align == 0 || align == 2) && which < 2)
    && (n >= 3 ==> align == 0 && which < 4)
    && (n == 3 ==> which < 3)
  }

  predicate ValidRole(r: Role) {
    match r
    case LiteralNode(context, node) => context < 8 && 1 <= node < 256
    case SlotNode(klass, short, node) =>
      if short then klass < 2 && 1 <= node < 8 else 1 <= klass < 8 && 1 <= node < 32
    case DistanceBit(slot, align, klass, which) =>
      slot <= LAST_SLOT && klass < 8 && ValidNumberCell(slot, align, which)
    case Flag(history) => history < 8
    case ClassBit(history, step) => history < 8 && step < 7
    case LengthBit(klass, align, history, which) =>
      klass < 8 && history < 8 && ValidNumberCell(klass, align, which)
  }

  function LiteralTree(context: nat): int {
    255 * context - 1
  }

  function SlotTree(klass: nat, short: bool): int {
    if short then 2280 + klass else 2032 + klass
  }

  /** The length class, as the low three bits of a counter that starts at -1. */
  function LengthContext(klass: nat): nat {
    if klass == 0 then 7 else klass - 1
  }

  function DistanceBase(slot: nat, align: nat, klass: nat): int {
    2344 + 8 * align + 32 * (slot - 1) + LengthContext(klass)
  }

  function FlagCell(history: nat): int {
    2920 + history
  }

  function ClassCell(history: nat, step: nat): int {
    2928 + 8 * step + history
  }

  function LengthBase(klass: nat, align: nat, history: nat): int {
    2984 + 32 * (klass - 1) + 8 * align + history
  }

  function CellOf(r: Role): int {
    match r
    case LiteralNode(context, node) => LiteralTree(context) + node
    case SlotNode(klass, short, node) => SlotTree(klass, short) + 8 * node
    case DistanceBit(slot, align, klass, which) => DistanceBase(slot, align, klass) + 8 * which
    case Flag(history) => FlagCell(history)
    case ClassBit(history, step) => ClassCell(history, step)
    case LengthBit(klass, align, history, which) => LengthBase(klass, align, history) + 8 * which
  }

  /** Each kind of role has a stretch of cells of its own. */
  function StretchOf(r: Role): (int, int) {
    match r
    case LiteralNode(_, _) => (0, 2040)
    case SlotNode(_, short, _) => if short then (2288, 2338) else (2041, 2288)
    case DistanceBit(_, _, _, _) => (2344, 2920)
    case Flag(_) => (2920, 2928)
    case ClassBit(_, _) => (2928, 2984)
    case LengthBit(_, _, _, _) => (2984, 3208)
  }

  lemma CellInStretch(r: Role)
    requires ValidRole(r)
    ensures StretchOf(r).0 <= CellOf(r) < StretchOf(r).1
  {
  }

  lemma NumberCellsDistinct(n1: nat, a1: nat, w1: nat, low1: nat, n2: nat, a2: nat, w2: nat, low2: nat)
    requires ValidNumberCell(n1, a1, w1) && ValidNumberCell(n2, a2, w2) && low1 < 8 && low2 < 8
    requires 32 * n1 + 8 * a1 + 8 * w1 + low1 == 32 * n2 + 8 * a2 + 8 * w2 + low2
    ensures n1 == n2 && a1 == a2 && w1 == w2 && low1 == low2
  {
  }

  lemma KindFromCell(r1: Role, r2: Role)
    requires ValidRole(r1) && ValidRole(r2) && CellOf(r1) == CellOf(r2)
    ensures StretchOf(r1) == StretchOf(r2)
  {
    CellInStretch(r1);
    CellInStretch(r2);
  }

  lemma TreeCellsDistinct(r1: Role, r2: Role)
    requires ValidRole(r1) && ValidRole(r2) && CellOf(r1) == CellOf(r2) && StretchOf(r1) == StretchOf(r2)
    requires r1.LiteralNode? || r1.SlotNode? || r1.Flag? || r1.ClassBit?
    ensures r1 == r2
  {
  }

  /** No probability serves two purposes. */
  lemma CellsDistinct(r1: Role, r2: Role)
    requires ValidRole(r1) && ValidRole(r2) && CellOf(r1) == CellOf(r2)
    ensures r1 == r2
  {
    KindFromCell(r1, r2);
    if r1.DistanceBit? {
      NumberCellsDistinct(r1.slot, r1.align, r1.which, LengthContext(r1.klass),
                          r2.slot, r2.align, r2.which, LengthContext(r2.klass));
    } else if r1.LengthBit? {
      NumberCellsDistinct(r1.klass, r1.align, r1.which, r1.history, r2.klass, r2.align, r2.which, r2.history);
    } else {
      TreeCellsDistinct(r1, r2);
    }
  }

  /** A probability of distance slot `slot` lies in a cell that has another role. */
  ghost predicate Shares(slot: nat, r: Role, other: Role) {
    && r.DistanceBit? && r.slot == slot && r.klass < 8 && ValidNumberCell(slot, r.align, r.which)
    && ValidRole(other) && other != r && CellOf(other) == CellOf(r)
  }

  /** Slots 19, 20 and 21 to 27 reach into the tables of the match flags, the length classes and the lengths. */
  function SharingRole(slot: nat): Role
    requires 19 <= slot <= 27
  {
    if slot == 19 then Flag(0) else if slot == 20 then ClassBit(0, 3) else LengthBit(slot - 20, 0, 0, 0)
  }

  /**
   Of the slots that lie in memory, those up to 18 and slot 28 have cells of
   their own, and those between use cells of other tables.
   */
  lemma SharedSlots(slot: nat)
    requires slot <= LAST_SLOT_IN_MEMORY
    ensures (exists r, other :: Shares(slot, r, other)) <==> 19 <= slot <= 27
  {
    if 19 <= slot <= 27 {
      assert Shares(slot, DistanceBit(slot, 0, 1, 0), SharingRole(slot));
    } else {
      forall r, other
        ensures !Shares(slot, r, other)
      {
        if Shares(slot, r, other) {
          CellInStretch(other);
          if slot <= LAST_SLOT {
            CellsDistinct(r, other);
          }
        }
      }
    }
  }

  /** Slot 28 ends at the end of the array, and slot 29 starts outside it. */
  lemma SlotsInMemory(slot: nat, align: nat, klass: nat, which: nat)
    requires klass < 8 && ValidNumberCell(slot, align, which)
    ensures 0 <= CellOf(DistanceBit(slot, align, klass, which)) < TABLE_SIZE <==> slot <= LAST_SLOT_IN_MEMORY
  {
  }
}
