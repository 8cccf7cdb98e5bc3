/** The container of referrers, with its four grids. */
module ReferrerGrid {
  import opened MachineNumbers
  import opened ReferrerSelection

  /** A 64-bit number converted to a 32-bit one. */
  function AsInt(x: int): int {
    var m := x % UINT32_RANGE;
    if m < UINT32_RANGE / 2 then m else m - UINT32_RANGE
  }

  /** Division that drops the fraction. */
  function TruncDiv(x: int, d: nat): int
    requires d > 0
  {
    if x >= 0 then x / d else -(-x / d)
  }

  /** The quotient is the largest in size that does not lead past the number, on its side of zero. */
  lemma {:induction false} TruncDivIs(x: int, d: nat)
    requires d in {1, 2, 4, 8}
    ensures var q := TruncDiv(x, d);
      if x >= 0 then q >= 0 && q * d <= x < (q + 1) * d else q <= 0 && (q - 1) * d < x <= q * d
  {
  }

  predicate InIntRange(x: int) {
    -(UINT32_RANGE / 2) <= x < UINT32_RANGE / 2
  }

  type Key = (int, int)
  type Grid = map<Key, set<nat>>

  /** The cell of a place in the grid of this coarseness. */
  function Cell(lat: int, lon: int, d: nat): Key
    requires d > 0
  {
    (AsInt(TruncDiv(lat, d)), AsInt(TruncDiv(lon, d)))
  }

  function Bucket(g: Grid, k: Key): set<nat> {
    if k in g then g[k] else {}
  }

  function Enter(g: Grid, k: Key, sa: nat): Grid {
    g[k := Bucket(g, k) + {sa}]
  }

  /** Halving both numbers of a cell. */
  function Coarser(k: Key): Key {
    (TruncDiv(k.0, 2), TruncDiv(k.1, 2))
  }

  /** Whoever is in a cell of the fine grid is in the coarser cell around it. */
  ghost predicate Nested(fine: Grid, coarse: Grid) {
    forall k, sa :: k in fine && sa in fine[k] ==> sa in Bucket(coarse, Coarser(k))
  }

  lemma {:induction false} TruncTwice(x: int, d: nat)
    requires d in {1, 2, 4}
    ensures TruncDiv(TruncDiv(x, d), 2) == TruncDiv(x, 2 * d)
  {
    if d == 1 {
      assert TruncDiv(x, 1) == x;
    } else if d == 2 {
      assert x >= 0 ==> x / 2 / 2 == x / 4;
      assert x < 0 ==> -x / 2 / 2 == -x / 4;
    } else {
      assert x >= 0 ==> x / 4 / 2 == x / 8;
      assert x < 0 ==> -x / 4 / 2 == -x / 8;
    }
  }

  /**
   * When halving a number and converting it to 32 bits can be done in either order: the number is off by an even
   * multiple of 2^32, and no fraction is dropped in different directions.
   */
  predicate Halves(x: int) {
    var wraps := (x - AsInt(x)) / UINT32_RANGE;
    wraps % 2 == 0 && (AsInt(x) % 2 == 0 || wraps == 0 || (AsInt(x) < 0 <==> x < 0))
  }

  lemma {:induction false} HalvesExactly(x: int)
    ensures TruncDiv(AsInt(x), 2) == AsInt(TruncDiv(x, 2)) <==> Halves(x)
  {
    var a := AsInt(x);
    WrapsOf(x);
    hide AsInt, TruncDiv, HalfToward;
    HalfOfSum(a, 0, a);
    RoundedAlike(a, x >= 0);
    ConvertedHalf(x, (x - a) / UINT32_RANGE, a);
  }

  lemma {:induction false} ConvertedHalf(x: int, w: int, a: int)
    requires x == w * UINT32_RANGE + a && InIntRange(a)
    ensures var b := HalfToward(a, x >= 0);
      AsInt(TruncDiv(x, 2)) ==
      if w % 2 == 0 then b else if b >= 0 then b - UINT32_RANGE / 2 else b + UINT32_RANGE / 2
  {
    hide AsInt, TruncDiv, HalfToward;
    RoundedAlike(a, x >= 0);
    var u := w / 2;
    if w % 2 == 0 {
      HalfOfSum(x, u * UINT32_RANGE, a);
      WrapsAway(u, HalfToward(a, x >= 0));
    } else {
      HalfOfSum(x, u * UINT32_RANGE + UINT32_RANGE / 2, a);
      WrapsOver(u, HalfToward(a, x >= 0));
    }
  }

  lemma {:induction false} WrapsOf(x: int)
    ensures InIntRange(AsInt(x)) && x == (x - AsInt(x)) / UINT32_RANGE * UINT32_RANGE + AsInt(x)
    ensures (x - AsInt(x)) / UINT32_RANGE == 0 ==> x == AsInt(x)
  {
  }

  lemma {:induction false} RoundedAlike(a: int, down: bool)
    requires InIntRange(a)
    ensures HalfToward(a, a >= 0) == HalfToward(a, down) <==> a % 2 == 0 || (a >= 0 <==> down)
    ensures -(UINT32_RANGE / 4) <= HalfToward(a, down) <= UINT32_RANGE / 4
    ensures HalfToward(a, a >= 0) - HalfToward(a, down) in {-1, 0, 1}
  {
  }

  /** Half of a number, rounded down or up. */
  function HalfToward(a: int, down: bool): int {
    if down then a / 2 else -(-a / 2)
  }

  lemma {:induction false} HalfOfSum(x: int, y: int, a: int)
    requires x == 2 * y + a
    ensures TruncDiv(x, 2) == y + HalfToward(a, x >= 0)
  {
  }

  lemma {:induction false} WrapsAway(u: int, b: int)
    requires InIntRange(b)
    ensures AsInt(u * UINT32_RANGE + b) == b
  {
  }

  lemma {:induction false} WrapsOver(u: int, b: int)
    requires -(UINT32_RANGE / 4) <= b <= UINT32_RANGE / 4
    ensures AsInt(u * UINT32_RANGE + UINT32_RANGE / 2 + b) ==
      if b >= 0 then b - UINT32_RANGE / 2 else b + UINT32_RANGE / 2
  {
  }

  lemma {:induction false} HalvingCells(x: int, d: nat)
    requires d in {1, 2, 4}
    ensures TruncDiv(AsInt(TruncDiv(x, d)), 2) == AsInt(TruncDiv(x, 2 * d)) <==> Halves(TruncDiv(x, d))
  {
    hide TruncDiv, AsInt, Halves;
    HalvesExactly(TruncDiv(x, d));
    TruncTwice(x, d);
  }

  /** The cell of the place at coarseness 2 * d is the one around its cell at coarseness d. */
  predicate CellHalves(lat: int, lon: int, d: nat)
    requires d > 0
  {
    Halves(TruncDiv(lat, d)) && Halves(TruncDiv(lon, d))
  }

  lemma {:induction false} CellHalvesExactly(lat: int, lon: int, d: nat)
    requires d in {1, 2, 4}
    ensures Coarser(Cell(lat, lon, d)) == Cell(lat, lon, 2 * d) <==> CellHalves(lat, lon, d)
  {
    hide TruncDiv, AsInt, Halves;
    HalvingCells(lat, d);
    HalvingCells(lon, d);
  }

  lemma {:induction false} InRangeHalves(x: int, d: nat)
    requires InIntRange(x) && d in {1, 2, 4}
    ensures Halves(TruncDiv(x, d))
  {
    assert InIntRange(TruncDiv(x, d));
    NoWraps(TruncDiv(x, d));
  }

  lemma {:induction false} NoWraps(x: int)
    requires InIntRange(x)
    ensures Halves(x)
  {
  }

  /** The grid names only referrers that are known. */
  ghost predicate Names(g: Grid, known: set<nat>) {
    forall k, sa :: k in g && sa in g[k] ==> sa in known
  }

  lemma {:induction false} EnterNames(g: Grid, known: set<nat>, k: Key, sa: nat)
    requires Names(g, known)
    ensures Names(Enter(g, k, sa), known + {sa})
  {
  }

  /**
   * Entering somebody in two cells keeps the grids nested exactly if one cell is around the other or he was there
   * before.
   */
  lemma {:induction false} EnterNested(fine: Grid, coarse: Grid, k: Key, c: Key, sa: nat)
    requires Nested(fine, coarse)
    ensures Nested(Enter(fine, k, sa), Enter(coarse, c, sa)) <==> c == Coarser(k) || sa in Bucket(coarse, Coarser(k))
  {
    hide TruncDiv;
    assert sa in Enter(fine, k, sa)[k];
  }

  ghost predicate PointersDiffer(referrers: map<nat, Item>) {
    forall x, y :: x in referrers && y in referrers && referrers[x].ptr == referrers[y].ptr ==> x == y
  }

  /** Whom to choose from: the finest cell with enough referrers, or all of them. */
  function CandidatesAmong(known: set<nat>, q1: Grid, q2: Grid, q4: Grid, q8: Grid, lat: int, lon: int): set<nat> {
    if |Bucket(q1, Cell(lat, lon, 1))| > MAX_REFERRERS then Bucket(q1, Cell(lat, lon, 1))
    else if |Bucket(q2, Cell(lat, lon, 2))| > MAX_REFERRERS then Bucket(q2, Cell(lat, lon, 2))
    else if |Bucket(q4, Cell(lat, lon, 4))| > MAX_REFERRERS then Bucket(q4, Cell(lat, lon, 4))
    else if |Bucket(q8, Cell(lat, lon, 8))| > MAX_REFERRERS then Bucket(q8, Cell(lat, lon, 8))
    else known
  }

  ghost predicate AllNested(q1: Grid, q2: Grid, q4: Grid, q8: Grid) {
    Nested(q1, q2) && Nested(q2, q4) && Nested(q4, q8)
  }

  ghost predicate AllName(known: set<nat>, q1: Grid, q2: Grid, q4: Grid, q8: Grid) {
    Names(q1, known) && Names(q2, known) && Names(q4, known) && Names(q8, known)
  }

  /** The cells of the place lie in each other at all four coarsenesses. */
  predicate PlaceHalves(lat: int, lon: int) {
    CellHalves(lat, lon, 1) && CellHalves(lat, lon, 2) && CellHalves(lat, lon, 4)
  }

  /** Places of 32-bit degrees are such. */
  lemma {:induction false} RangeHalves(lat: int, lon: int)
    requires InIntRange(lat) && InIntRange(lon)
    ensures PlaceHalves(lat, lon)
  {
    forall d: nat | d in {1, 2, 4}
      ensures CellHalves(lat, lon, d)
    {
      InRangeHalves(lat, d);
      InRangeHalves(lon, d);
    }
  }

  /**
   * In nested grids, whoever shares such a place's finest cell is a candidate: none of them is passed over for somebody
   * farther away.
   */
  lemma {:induction false} FinestCellCompetes(known: set<nat>, q1: Grid, q2: Grid, q4: Grid, q8: Grid, lat: int,
          lon: int)
    requires AllNested(q1, q2, q4, q8) && AllName(known, q1, q2, q4, q8) && PlaceHalves(lat, lon)
    ensures Bucket(q1, Cell(lat, lon, 1)) <= CandidatesAmong(known, q1, q2, q4, q8, lat, lon)
  {
    hide TruncDiv, AsInt, Cell, Halves;
    CellHalvesExactly(lat, lon, 1);
    CellHalvesExactly(lat, lon, 2);
    CellHalvesExactly(lat, lon, 4);
    assert Bucket(q1, Cell(lat, lon, 1)) <= Bucket(q2, Cell(lat, lon, 2));
    assert Bucket(q2, Cell(lat, lon, 2)) <= Bucket(q4, Cell(lat, lon, 4));
    assert Bucket(q4, Cell(lat, lon, 4)) <= Bucket(q8, Cell(lat, lon, 8));
  }

  /**
   * The candidates are all referrers that are known, or more than 40 in one cell: the smallest cell around the place
   * that has so many.
   */
  lemma {:induction false} SmallestCrowdedCell(known: set<nat>, q1: Grid, q2: Grid, q4: Grid, q8: Grid, lat: int,
          lon: int)
    requires AllNested(q1, q2, q4, q8) && AllName(known, q1, q2, q4, q8) && PlaceHalves(lat, lon)
    ensures var c := CandidatesAmong(known, q1, q2, q4, q8, lat, lon);
      && (|c| > 40 || c == known) && c <= known
      && (|Bucket(q1, Cell(lat, lon, 1))| > 40 ==> c <= Bucket(q1, Cell(lat, lon, 1)))
      && (|Bucket(q2, Cell(lat, lon, 2))| > 40 ==> c <= Bucket(q2, Cell(lat, lon, 2)))
      && (|Bucket(q4, Cell(lat, lon, 4))| > 40 ==> c <= Bucket(q4, Cell(lat, lon, 4)))
      && (|Bucket(q8, Cell(lat, lon, 8))| > 40 ==> c <= Bucket(q8, Cell(lat, lon, 8)))
  {
    hide TruncDiv, AsInt, Cell, Halves;
    CellHalvesExactly(lat, lon, 1);
    CellHalvesExactly(lat, lon, 2);
    CellHalvesExactly(lat, lon, 4);
    assert Bucket(q1, Cell(lat, lon, 1)) <= Bucket(q2, Cell(lat, lon, 2));
    assert Bucket(q2, Cell(lat, lon, 2)) <= Bucket(q4, Cell(lat, lon, 4));
    assert Bucket(q4, Cell(lat, lon, 4)) <= Bucket(q8, Cell(lat, lon, 8));
  }

  function UpTo(n: nat): (s: set<nat>)
    ensures |s| == n && forall i :: i in s <==> 1 <= i <= n
  {
    if n == 0 then {} else UpTo(n - 1) + {n}
  }

  /** The cell is full, but not with referrer 0. */
  ghost predicate Crowded(q: Grid, k: Key) {
    |Bucket(q, k)| > MAX_REFERRERS && 0 !in Bucket(q, k)
  }

  ghost predicate Alone(q: Grid, k: Key) {
    Bucket(q, k) == {0}
  }

  lemma {:induction false} CrowdAtTwo(c1: Key, c2: Key)
    returns (known: set<nat>, q1: Grid, q2: Grid, q4: Grid, q8: Grid)
    requires Coarser(c1) != c2
    ensures AllNested(q1, q2, q4, q8) && AllName(known, q1, q2, q4, q8) && Alone(q1, c1) && Crowded(q2, c2)
  {
    hide Coarser;
    var many: set<nat> := UpTo(MAX_REFERRERS + 1);
    known, q1 := {0} + many, map[c1 := {0}];
    q2 := map[Coarser(c1) := {0}, c2 := many];
    q4 := map[Coarser(Coarser(c1)) := known, Coarser(c2) := known];
    q8 := map[Coarser(Coarser(Coarser(c1))) := known, Coarser(Coarser(c2)) := known];
  }

  lemma {:induction false} CrowdAtFour(c1: Key, c2: Key, c4: Key)
      returns (known: set<nat>, q1: Grid, q2: Grid, q4: Grid, q8: Grid)
    requires Coarser(c1) == c2 && Coarser(c2) != c4
    ensures AllNested(q1, q2, q4, q8) && AllName(known, q1, q2, q4, q8)
    ensures Alone(q1, c1) && Alone(q2, c2) && Crowded(q4, c4)
  {
    hide Coarser;
    var many: set<nat> := UpTo(MAX_REFERRERS + 1);
    known, q1, q2 := {0} + many, map[c1 := {0}], map[c2 := {0}];
    q4 := map[Coarser(c2) := {0}, c4 := many];
    q8 := map[Coarser(Coarser(c2)) := known, Coarser(c4) := known];
  }

  lemma {:induction false} CrowdAtEight(c1: Key, c2: Key, c4: Key, c8: Key)
      returns (known: set<nat>, q1: Grid, q2: Grid, q4: Grid, q8: Grid)
    requires Coarser(c1) == c2 && Coarser(c2) == c4 && Coarser(c4) != c8
    ensures AllNested(q1, q2, q4, q8) && AllName(known, q1, q2, q4, q8)
    ensures Alone(q1, c1) && Alone(q2, c2) && Alone(q4, c4) && Crowded(q8, c8)
  {
    hide Coarser;
    var many: set<nat> := UpTo(MAX_REFERRERS + 1);
    known, q1, q2, q4 := {0} + many, map[c1 := {0}], map[c2 := {0}], map[c4 := {0}];
    q8 := map[Coarser(c4) := {0}, c8 := many];
  }

  /** For any other place there are nested grids in which somebody in its finest cell is no candidate. */
  lemma {:induction false} FinestCellPassedOver(lat: int, lon: int)
      returns (known: set<nat>, q1: Grid, q2: Grid, q4: Grid, q8: Grid)
    requires !PlaceHalves(lat, lon)
    ensures AllNested(q1, q2, q4, q8) && AllName(known, q1, q2, q4, q8)
    ensures !(Bucket(q1, Cell(lat, lon, 1)) <= CandidatesAmong(known, q1, q2, q4, q8, lat, lon))
  {
    hide Cell, Halves, Coarser, AllNested, AllName, Bucket, TruncDiv;
    CellHalvesExactly(lat, lon, 1);
    CellHalvesExactly(lat, lon, 2);
    CellHalvesExactly(lat, lon, 4);
    var c1, c2, c4, c8 := Cell(lat, lon, 1), Cell(lat, lon, 2), Cell(lat, lon, 4), Cell(lat, lon, 8);
    if Coarser(c1) != c2 {
      known, q1, q2, q4, q8 := CrowdAtTwo(c1, c2);
    } else if Coarser(c2) != c4 {
      known, q1, q2, q4, q8 := CrowdAtFour(c1, c2, c4);
    } else {
      known, q1, q2, q4, q8 := CrowdAtEight(c1, c2, c4, c8);
    }
    assert 0 in Bucket(q1, c1);
  }

  /** At a place off by 2^32 the cells do not lie in each other; off by twice as much, they do. */
  lemma {:induction false} WideCells()
    ensures Coarser(Cell(UINT32_RANGE, 0, 1)) != Cell(UINT32_RANGE, 0, 2)
    ensures Coarser(Cell(2 * UINT32_RANGE, 0, 1)) == Cell(2 * UINT32_RANGE, 0, 2)
  {
  }

  /** The first referrer stored at such a place leaves a fine cell that the coarse one around it does not contain. */
  lemma {:induction false} WideCellsNotNested(sa: nat)
    ensures !PlaceHalves(UINT32_RANGE, 0)
    ensures !Nested(Enter(map[], Cell(UINT32_RANGE, 0, 1), sa), Enter(map[], Cell(UINT32_RANGE, 0, 2), sa))
  {
    hide Cell, Coarser, Halves;
    WideCells();
    CellHalvesExactly(UINT32_RANGE, 0, 1);
    EnterNested(map[], map[], Cell(UINT32_RANGE, 0, 1), Cell(UINT32_RANGE, 0, 2), sa);
  }

  /** The referrers with one of them stored or moved; a new one gets the given pointer. */
  function Stored(referrers: map<nat, Item>, sa: nat, lat: int, lon: int, ptr: nat): map<nat, Item> {
    referrers[sa := Item(if sa in referrers then referrers[sa].ptr else ptr, lat, lon)]
  }

  /** What a container holds: the referrers by address, each with its pointer, and four grids. */
  datatype Contents = Contents(referrers: map<nat, Item>, q1: Grid, q2: Grid, q4: Grid, q8: Grid) {
    ghost predicate Valid() {
      PointersDiffer(referrers) && AllName(referrers.Keys, q1, q2, q4, q8)
    }

    function Candidates(lat: int, lon: int): set<nat> {
      CandidatesAmong(referrers.Keys, q1, q2, q4, q8, lat, lon)
    }

    /** The items of a set of referrers. */
    function Items(sas: set<nat>): set<Item>
      requires sas <= referrers.Keys
    {
      set sa | sa in sas :: referrers[sa]
    }

    lemma {:induction false} CandidatesKnown(lat: int, lon: int)
      requires Valid()
      ensures Candidates(lat, lon) <= referrers.Keys
      ensures |Candidates(lat, lon)| <= MAX_REFERRERS ==> Candidates(lat, lon) == referrers.Keys
    {
    }

    lemma {:induction false} FewAreCandidates(lat: int, lon: int)
      requires Valid()
      ensures |referrers.Keys| <= MAX_REFERRERS ==> Candidates(lat, lon) == referrers.Keys
    {
      hide Cell;
      SubsetSize(Bucket(q1, Cell(lat, lon, 1)), referrers.Keys);
      SubsetSize(Bucket(q2, Cell(lat, lon, 2)), referrers.Keys);
      SubsetSize(Bucket(q4, Cell(lat, lon, 4)), referrers.Keys);
      SubsetSize(Bucket(q8, Cell(lat, lon, 8)), referrers.Keys);
    }

    lemma {:induction false} ItemsCount(sas: set<nat>)
      requires sas <= referrers.Keys
      ensures |Items(sas)| <= |sas|
    {
      if sas != {} {
        var sa :| sa in sas;
        ItemsCount(sas - {sa});
        assert Items(sas) == Items(sas - {sa}) + {referrers[sa]};
      }
    }

    lemma {:induction false} ItemsDiffer(sas: set<nat>)
      requires PointersDiffer(referrers) && sas <= referrers.Keys
      ensures DistinctPointers(Items(sas)) && (Items(sas) == {} <==> sas == {})
    {
      if sas != {} {
        var sa :| sa in sas;
        assert referrers[sa] in Items(sas);
      }
    }
  }

  class ReferrerContainer {
    /** The referrers by address; each keeps its pointer. */
    var referrers: map<nat, Item>
    var quadratsDegree: Grid
    var quadratsDegree2: Grid
    var quadratsDegree4: Grid
    var quadratsDegree8: Grid

    function View(): Contents
      reads this
    {
      Contents(referrers, quadratsDegree, quadratsDegree2, quadratsDegree4, quadratsDegree8)
    }

    ghost predicate Valid()
      reads this
    {
      View().Valid()
    }

    ghost predicate GridsNested()
      reads this
    {
      AllNested(quadratsDegree, quadratsDegree2, quadratsDegree4, quadratsDegree8)
    }

    constructor ()
      ensures Valid() && GridsNested() && referrers == map[]
    {
      referrers := map[];
      quadratsDegree, quadratsDegree2, quadratsDegree4, quadratsDegree8 := map[], map[], map[], map[];
    }

    /** A container that holds what is given. */
    constructor From(c: Contents)
      ensures View() == c
    {
      referrers := c.referrers;
      quadratsDegree, quadratsDegree2, quadratsDegree4, quadratsDegree8 := c.q1, c.q2, c.q4, c.q8;
    }

    /**
     * Stores a referrer or moves it; ptr is what the allocator gives for a new one. Nested grids stay nested exactly
     * if the place's cells lie in each other, or the referrer has been in the cells around them before.
     */
    method Add(lat: int, lon: int, sa: nat, ptr: nat)
      requires Valid() && (sa !in referrers ==> forall x :: x in referrers ==> referrers[x].ptr != ptr)
      modifies this
      ensures Valid()
      ensures referrers == Stored(old(referrers), sa, lat, lon, ptr)
      ensures referrers.Keys == old(referrers.Keys) + {sa} && referrers[sa].lat == lat && referrers[sa].lon == lon
      ensures referrers[sa].ptr == if sa in old(referrers) then old(referrers)[sa].ptr else ptr
      ensures forall x :: x in old(referrers) && x != sa ==> referrers[x] == old(referrers)[x]
      ensures quadratsDegree == Enter(old(quadratsDegree), Cell(lat, lon, 1), sa)
      ensures quadratsDegree2 == Enter(old(quadratsDegree2), Cell(lat, lon, 2), sa)
      ensures quadratsDegree4 == Enter(old(quadratsDegree4), Cell(lat, lon, 4), sa)
      ensures quadratsDegree8 == Enter(old(quadratsDegree8), Cell(lat, lon, 8), sa)
      ensures old(GridsNested()) ==>
        (GridsNested() <==>
          && (CellHalves(lat, lon, 1) || sa in Bucket(old(quadratsDegree2), Coarser(Cell(lat, lon, 1))))
          && (CellHalves(lat, lon, 2) || sa in Bucket(old(quadratsDegree4), Coarser(Cell(lat, lon, 2))))
          && (CellHalves(lat, lon, 4) || sa in Bucket(old(quadratsDegree8), Coarser(Cell(lat, lon, 4)))))
      ensures old(GridsNested()) && sa !in old(referrers) ==> (GridsNested() <==> PlaceHalves(lat, lon))
    {
      hide TruncDiv, AsInt, Nested, Names, Enter, PointersDiffer, Halves, Cell, Coarser;
      CellHalvesExactly(lat, lon, 1);
      CellHalvesExactly(lat, lon, 2);
      CellHalvesExactly(lat, lon, 4);
      EnterNames(quadratsDegree, referrers.Keys, Cell(lat, lon, 1), sa);
      EnterNames(quadratsDegree2, referrers.Keys, Cell(lat, lon, 2), sa);
      EnterNames(quadratsDegree4, referrers.Keys, Cell(lat, lon, 4), sa);
      EnterNames(quadratsDegree8, referrers.Keys, Cell(lat, lon, 8), sa);
      StoreDiffers(referrers, sa, Item(if sa in referrers then referrers[sa].ptr else ptr, lat, lon));
      if GridsNested() {
        EnterNested(quadratsDegree, quadratsDegree2, Cell(lat, lon, 1), Cell(lat, lon, 2), sa);
        EnterNested(quadratsDegree2, quadratsDegree4, Cell(lat, lon, 2), Cell(lat, lon, 4), sa);
        EnterNested(quadratsDegree4, quadratsDegree8, Cell(lat, lon, 4), Cell(lat, lon, 8), sa);
      }
      NotInBucket(quadratsDegree2, referrers.Keys, Coarser(Cell(lat, lon, 1)), sa);
      NotInBucket(quadratsDegree4, referrers.Keys, Coarser(Cell(lat, lon, 2)), sa);
      NotInBucket(quadratsDegree8, referrers.Keys, Coarser(Cell(lat, lon, 4)), sa);
      ghost var before := referrers;
      if sa !in referrers {
        referrers := referrers[sa := Item(ptr, 0, 0)];
      }
      referrers := referrers[sa := Item(referrers[sa].ptr, lat, lon)];
      assert referrers == before[sa := referrers[sa]];
      quadratsDegree := Enter(quadratsDegree, Cell(lat, lon, 1), sa);
      quadratsDegree2 := Enter(quadratsDegree2, Cell(lat, lon, 2), sa);
      quadratsDegree4 := Enter(quadratsDegree4, Cell(lat, lon, 4), sa);
      quadratsDegree8 := Enter(quadratsDegree8, Cell(lat, lon, 8), sa);
    }

    /**
     * Finds the referrers nearest to a place. There are none only if no referrer is known, so listing all that
     * are known as a last resort adds nobody.
     */
    method FindReferrers(lat: int, lon: int) returns (ret: seq<Item>)
      requires Valid()
      ensures View().Candidates(lat, lon) <= referrers.Keys
      ensures FirstOf(lat, lon, View().Items(View().Candidates(lat, lon)), ret, MAX_REFERRERS + 1)
      ensures ret == [] <==> referrers == map[]
      ensures |referrers.Keys| <= MAX_REFERRERS ==> forall sa :: sa in referrers ==> referrers[sa] in ret
    {
      hide Cell, FirstOf, Names, PointersDiffer, CandidatesAmong;
      var c := View();
      c.FewAreCandidates(lat, lon);
      c.CandidatesKnown(lat, lon);
      c.ItemsDiffer(c.Candidates(lat, lon));
      c.ItemsCount(c.Candidates(lat, lon));
      var lookFor := c.Items(c.Candidates(lat, lon));
      ret := SelectNearest(lat, lon, lookFor);
      NobodyFound(lat, lon, lookFor, ret);
      FewAreFound(lat, lon, lookFor, ret);
      if ret == [] {
        ret := TakeAny(referrers);
      }
    }
  }

  lemma {:induction false} NobodyFound(lat: int, lon: int, items: set<Item>, ret: seq<Item>)
    requires FirstOf(lat, lon, items, ret, MAX_REFERRERS + 1)
    ensures ret == [] <==> items == {}
  {
    if ret == [] {
      assert forall z :: z in items ==> z in ret;
    } else {
      assert ret[0] in items;
    }
  }

  /** If there are no more than MAX_REFERRERS items, all are listed. */
  lemma {:induction false} FewAreFound(lat: int, lon: int, items: set<Item>, ret: seq<Item>)
    requires FirstOf(lat, lon, items, ret, MAX_REFERRERS + 1)
    ensures |items| <= MAX_REFERRERS ==> forall z :: z in items ==> z in ret
  {
    ListedCount(lat, lon, items, ret, |ret|);
  }

  /** Lists referrers until there are enough. */
  method TakeAny(referrers: map<nat, Item>) returns (ret: seq<Item>)
    ensures referrers == map[] ==> ret == []
    ensures |ret| <= MAX_REFERRERS + 1 && forall z :: z in ret ==> exists sa :: sa in referrers && referrers[sa] == z
  {
    ret := [];
    var rest := referrers.Keys;
    while rest != {} && |ret| <= MAX_REFERRERS
      invariant rest <= referrers.Keys && |ret| <= MAX_REFERRERS + 1 && (referrers == map[] ==> ret == [])
      invariant forall z :: z in ret ==> exists sa :: sa in referrers && referrers[sa] == z
      decreases |rest|
    {
      var sa :| sa in rest;
      rest := rest - {sa};
      ret := ret + [referrers[sa]];
    }
  }

  lemma {:induction false} NotInBucket(g: Grid, known: set<nat>, k: Key, sa: nat)
    requires Names(g, known)
    ensures sa !in known ==> sa !in Bucket(g, k)
  {
  }

  lemma {:induction false} StoreDiffers(referrers: map<nat, Item>, sa: nat, z: Item)
    requires PointersDiffer(referrers)
    requires if sa in referrers then z.ptr == referrers[sa].ptr
      else forall x :: x in referrers ==> referrers[x].ptr != z.ptr
    ensures PointersDiffer(referrers[sa := z]) && referrers[sa := z].Keys == referrers.Keys + {sa}
  {
  }
}
