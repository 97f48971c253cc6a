/** The closed form of an H-tree: what the wires of every level must carry, as a function of
    how many horizontal and vertical branchings lie between the root and that level. */
module HtreeLevels {
  import opened Powers

  /** The wires of one level.  A slot of the level arrays is `Unrouted` until the walk fills it. */
  datatype Level =
    | Unrouted
    | Level(addressBits: int, distributeBits: nat, broadcastBits: nat, sumWire: nat, activeWire: nat)
  {
    /** Wires in one bundle of this level. */
    function Bits(): int
      requires Level?
    {
      addressBits + distributeBits + broadcastBits
    }
  }

  /** The two ways a bundle continues below a branching. */
  function Branch(l: Level, split: bool): (m: Level)
    requires l.Level?
    ensures m.Level? && m.broadcastBits == l.broadcastBits
  {
    if split
    then l.(distributeBits := l.distributeBits / 2, sumWire := 2 * l.sumWire, activeWire := 2 * l.activeWire)
    else l.(addressBits := l.addressBits - 1, sumWire := 2 * l.sumWire)
  }

  /** A tree over 2^columns by 2^rows subarrays, of which an access activates
      2^activeColumns by 2^activeRows. */
  datatype Tree = Tree(
    columns: nat,
    rows: nat,
    activeColumns: nat,
    activeRows: nat,
    addressBits: nat,
    distributeBits: nat,
    broadcastBits: nat)
  {
    predicate WellFormed() {
      activeColumns <= columns && activeRows <= rows
    }

    /** The wires below h horizontal and v vertical branchings.  A branching splits the
        active subarrays while any remain to be split in its direction, and otherwise selects
        one side. */
    function At(h: nat, v: nat): (l: Level)
      ensures l.Level? && l.broadcastBits == broadcastBits
      decreases h + v
    {
      if h > 0 then Branch(At(h - 1, v), h <= activeColumns)
      else if v > 0 then Branch(At(h, v - 1), v <= activeRows)
      else Level(addressBits, distributeBits, broadcastBits, 1, 1)
    }

    /** Of h horizontal and v vertical branchings, those that split. */
    function Splits(h: nat, v: nat): nat {
      Min(h, activeColumns) + Min(v, activeRows)
    }

    /** The same wires computed at once: each split has halved the distributed bits and each
        selection has consumed an address bit, in whatever order they came. */
    function ClosedForm(h: nat, v: nat): Level {
      var s := Splits(h, v);
      Level(addressBits - (h + v - s), Quotient(distributeBits, Pow2(s)), broadcastBits, Pow2(h + v), Pow2(s))
    }

    /** Nothing is left to route at (h, v). */
    predicate Starved(h: nat, v: nat) {
      var l := At(h, v);
      l.addressBits <= 0 || l.distributeBits + l.broadcastBits == 0
    }

    /** Horizontal branchings above the last one, which leads into the subarray itself. */
    function LastColumn(): nat {
      if columns > 0 then columns - 1 else 0
    }

    /** The walk refuses exactly the trees that are starved just before the last
        horizontal branching. */
    predicate Routable() {
      !Starved(LastColumn(), rows)
    }

    /** Vertical branchings above horizontal level i: the longer dimension is walked first,
        then the two alternate, and level 0 is always horizontal. */
    function VerticalAbove(i: nat): nat {
      if i == 0 || rows + i <= columns then 0 else rows + i - columns
    }

    /** Horizontal branchings above vertical level j. */
    function HorizontalAbove(j: nat): nat {
      if columns + j <= rows then 0 else columns + j - rows
    }
  }

  /** One more split halves, with the rounding the source's integer division makes. */
  lemma Halve(d: nat, s: nat)
    ensures Quotient(d, Pow2(s + 1)) == Quotient(d, Pow2(s)) / 2
  {
    DivDiv(d, Pow2(s), 2);
    assert Pow2(s) * 2 == Pow2(s + 1);
  }

  /** The order of the branchings does not matter. */
  lemma {:induction false} AtClosedForm(t: Tree, h: nat, v: nat)
    ensures t.At(h, v) == t.ClosedForm(h, v)
    decreases h + v
  {
    if h > 0 {
      AtClosedForm(t, h - 1, v);
      Halve(t.distributeBits, t.Splits(h - 1, v));
    } else if v > 0 {
      AtClosedForm(t, h, v - 1);
      Halve(t.distributeBits, t.Splits(h, v - 1));
    } else {
      assert Quotient(t.distributeBits, 1) == t.distributeBits;
    }
  }

  /** A vertical branching acts alike below any number of horizontal ones. */
  lemma StepVertical(t: Tree, h: nat, v: nat)
    ensures t.At(h, v + 1) == Branch(t.At(h, v), v < t.activeRows)
  {
    AtClosedForm(t, h, v);
    AtClosedForm(t, h, v + 1);
    Halve(t.distributeBits, t.Splits(h, v));
  }

  lemma QuotientMonotone(d: nat, s: nat, t: nat)
    requires s <= t
    ensures Quotient(d, Pow2(t)) <= Quotient(d, Pow2(s))
    decreases t - s
  {
    if s < t {
      Halve(d, s);
      QuotientMonotone(d, s + 1, t);
    }
  }

  /** Bits only run out along a path, so a starved point starves everything below it. */
  lemma StarvationSpreads(t: Tree, h: nat, v: nat, h': nat, v': nat)
    requires h <= h' && v <= v'
    requires t.Starved(h, v)
    ensures t.Starved(h', v')
  {
    AtClosedForm(t, h, v);
    AtClosedForm(t, h', v');
    QuotientMonotone(t.distributeBits, t.Splits(h, v), t.Splits(h', v'));
  }

  /** Active bundles times the bits each carries is the word being distributed, exactly when
      the bundles divide it; otherwise bits are dropped. */
  lemma LevelConservesData(t: Tree, h: nat, v: nat)
    ensures var l := t.At(h, v);
            l.activeWire >= 1 && l.activeWire * l.distributeBits == t.distributeBits - t.distributeBits % l.activeWire
  {
    hide Pow2, Tree.At;
    AtClosedForm(t, h, v);
    DivModLaw(t.distributeBits, Pow2(t.Splits(h, v)));
  }

  /** All bundles of a level address the same storage: 2^(address bits) sets, each
      activeWire bundles wide, times the groups selected so far. */
  lemma LevelConservesAddresses(t: Tree, h: nat, v: nat)
    requires t.At(h, v).addressBits >= 0
    ensures var l := t.At(h, v);
            Pow2(l.addressBits) * l.sumWire == Pow2(t.addressBits) * l.activeWire
  {
    AtClosedForm(t, h, v);
    var l := t.At(h, v);
    Pow2Add(l.addressBits, h + v);
    Pow2Add(t.addressBits, t.Splits(h, v));
  }

  /** If the active subarray count divides the distributed bits, no level drops any. */
  lemma DivisibilityDescends(t: Tree, h: nat, v: nat)
    requires t.distributeBits % Pow2(t.activeColumns + t.activeRows) == 0
    ensures var l := t.At(h, v);
            l.activeWire * l.distributeBits == t.distributeBits
  {
    hide Pow2, Tree.At;
    AtClosedForm(t, h, v);
    var s, a := t.Splits(h, v), t.activeColumns + t.activeRows;
    var d := t.distributeBits;
    var q := d / Pow2(a);
    DivModLaw(d, Pow2(a));
    Pow2Add(a - s, s);
    assert d == q * Pow2(a - s) * Pow2(s) by {
      Associate(q, Pow2(a - s), Pow2(s));
    }
    DivExact(q * Pow2(a - s), Pow2(s));
  }

  /** Per-level conservation: whenever the active subarrays divide the distributed bits, every
      level's address space times its width times its bundles is the whole address space
      times the whole word. */
  lemma LevelConservation(t: Tree, h: nat, v: nat)
    requires t.distributeBits % Pow2(t.activeColumns + t.activeRows) == 0
    requires t.At(h, v).addressBits >= 0
    ensures var l := t.At(h, v);
            Pow2(l.addressBits) * l.distributeBits * l.sumWire == Pow2(t.addressBits) * t.distributeBits
  {
    var l := t.At(h, v);
    LevelConservesAddresses(t, h, v);
    DivisibilityDescends(t, h, v);
    Exchange(Pow2(l.addressBits), l.distributeBits, l.sumWire, Pow2(t.addressBits), l.activeWire);
  }

  lemma Exchange(a: int, d: int, s: int, n: int, g: int)
    requires a * s == n * g
    ensures a * d * s == n * (g * d)
  {}

  /** The points of the tree at which wires are recorded all lie on the way to the bottom, so a
      routable tree has address bits left on every one of them. */
  lemma RecordedLevelsCarryAddresses(t: Tree)
    requires t.Routable()
    ensures forall i :: 0 <= i < t.columns ==> t.At(i, t.VerticalAbove(i)).addressBits > 0
    ensures forall j :: 0 <= j < t.rows ==> t.At(t.HorizontalAbove(j), j + 1).addressBits > 0
  {
    forall i | 0 <= i < t.columns ensures t.At(i, t.VerticalAbove(i)).addressBits > 0 {
      if t.Starved(i, t.VerticalAbove(i)) {
        StarvationSpreads(t, i, t.VerticalAbove(i), t.LastColumn(), t.rows);
      }
    }
    forall j | 0 <= j < t.rows ensures t.At(t.HorizontalAbove(j), j + 1).addressBits > 0 {
      if t.Starved(t.HorizontalAbove(j), j + 1) {
        StarvationSpreads(t, t.HorizontalAbove(j), j + 1, t.LastColumn(), t.rows);
      }
    }
  }

  /** A level keeps the whole word and the whole address space. */
  predicate Conserves(t: Tree, l: Level)
    requires l.Level? && l.addressBits >= 0
  {
    && l.activeWire * l.distributeBits == t.distributeBits
    && Pow2(l.addressBits) * l.distributeBits * l.sumWire == Pow2(t.addressBits) * t.distributeBits
  }

  /** Conservation on every level the walk records, however its loops interleave. */
  lemma RecordedLevelsConserve(t: Tree)
    requires t.Routable()
    requires t.distributeBits % Pow2(t.activeColumns + t.activeRows) == 0
    ensures forall i :: 0 <= i < t.columns ==>
                          t.At(i, t.VerticalAbove(i)).addressBits >= 0 && Conserves(t, t.At(i, t.VerticalAbove(i)))
    ensures forall j :: 0 <= j < t.rows ==>
                          t.At(t.HorizontalAbove(j), j + 1).addressBits >= 0 && Conserves(t, t.At(t.HorizontalAbove(j), j + 1))
  {
    RecordedLevelsCarryAddresses(t);
    forall i | 0 <= i < t.columns ensures Conserves(t, t.At(i, t.VerticalAbove(i))) {
      LevelConservation(t, i, t.VerticalAbove(i));
      DivisibilityDescends(t, i, t.VerticalAbove(i));
    }
    forall j | 0 <= j < t.rows ensures Conserves(t, t.At(t.HorizontalAbove(j), j + 1)) {
      LevelConservation(t, t.HorizontalAbove(j), j + 1);
      DivisibilityDescends(t, t.HorizontalAbove(j), j + 1);
    }
  }
}
