/** Choosing the referrers nearest to a place, and the grids in which they are looked up. */
module ReferrerSelection {
  const MAX_REFERRERS := 40

  /** A referrer as it is stored: which one it is (the order of pointers) and where. */
  datatype Item = Item(ptr: nat, lat: int, lon: int)

  function Square(x: int): int {
    x * x
  }

  function Dist(lat: int, lon: int, z: Item): int {
    Square(lat - z.lat) + Square(lon - z.lon)
  }

  lemma {:induction false} SquareGrows(x: int, y: int)
    requires Gap(x) < Gap(y)
    ensures Square(x) < Square(y)
  {
    SquareOfGap(x);
    SquareOfGap(y);
    MoreSquared(Gap(x), Gap(y));
  }

  /** How far apart two coordinates are. */
  function Gap(d: int): nat {
    if d < 0 then -d else d
  }

  lemma {:induction false} SquareOfGap(x: int)
    ensures Square(x) == Gap(x) * Gap(x) >= 0 && (Square(x) == 0 <==> x == 0)
  {
  }

  lemma {:induction false} MoreSquared(a: nat, b: nat)
    requires a < b
    ensures a * a < b * b
  {
    assert b * b == a * b + (b - a) * b && a * b == a * a + a * (b - a);
  }

  /** The squared distance, written out: latitude against latitude, longitude against longitude. */
  lemma {:induction false} DistIs(lat: int, lon: int, z: Item)
    ensures Dist(lat, lon, z) == (lat - z.lat) * (lat - z.lat) + (lon - z.lon) * (lon - z.lon)
    ensures Dist(lat, lon, z) >= 0 && (Dist(lat, lon, z) == 0 <==> z.lat == lat && z.lon == lon)
    ensures Dist(lat, lon, z) == Dist(lon, lat, Item(z.ptr, z.lon, z.lat))
  {
    SquareOfGap(lat - z.lat);
    SquareOfGap(lon - z.lon);
  }

  /** It grows with the gap in either coordinate while the other gap stays. */
  lemma {:induction false} DistGrows(lat: int, lon: int, x: Item, y: Item)
    ensures Gap(lat - x.lat) == Gap(lat - y.lat) && Gap(lon - x.lon) < Gap(lon - y.lon) ==>
      Dist(lat, lon, x) < Dist(lat, lon, y)
    ensures Gap(lon - x.lon) == Gap(lon - y.lon) && Gap(lat - x.lat) < Gap(lat - y.lat) ==>
      Dist(lat, lon, x) < Dist(lat, lon, y)
  {
    hide Square, Gap;
    SquareOfGap(lat - x.lat);
    SquareOfGap(lat - y.lat);
    SquareOfGap(lon - x.lon);
    SquareOfGap(lon - y.lon);
    if Gap(lon - x.lon) < Gap(lon - y.lon) {
      SquareGrows(lon - x.lon, lon - y.lon);
    }
    if Gap(lat - x.lat) < Gap(lat - y.lat) {
      SquareGrows(lat - x.lat, lat - y.lat);
    }
  }

  /** Nearer, or as near and first in the order of pointers. */
  predicate Before(lat: int, lon: int, x: Item, y: Item) {
    Dist(lat, lon, x) < Dist(lat, lon, y) || (Dist(lat, lon, x) == Dist(lat, lon, y) && x.ptr < y.ptr)
  }

  /** The order, written out. */
  lemma {:induction false} BeforeIs(lat: int, lon: int, x: Item, y: Item)
    ensures var p, q := (lat - x.lat) * (lat - x.lat) + (lon - x.lon) * (lon - x.lon),
                        (lat - y.lat) * (lat - y.lat) + (lon - y.lon) * (lon - y.lon);
      Before(lat, lon, x, y) <==> p < q || (p == q && x.ptr < y.ptr)
  {
    hide Dist;
    DistIs(lat, lon, x);
    DistIs(lat, lon, y);
  }

  /** No two items have the same pointer. */
  ghost predicate DistinctPointers(items: set<Item>) {
    forall x, y :: x in items && y in items && x.ptr == y.ptr ==> x == y
  }

  ghost predicate InOrder(lat: int, lon: int, r: seq<Item>) {
    forall i, j :: 0 <= i < j < |r| ==> Before(lat, lon, r[i], r[j])
  }

  /** r lists the first n items in the order of (distance, pointer), or all of them if there are no more than n. */
  ghost predicate FirstOf(lat: int, lon: int, items: set<Item>, r: seq<Item>, n: nat) {
    && InOrder(lat, lon, r) && |r| <= n && (forall i :: 0 <= i < |r| ==> r[i] in items)
    && forall z :: z in items && z !in r ==> |r| == n && forall i :: 0 <= i < |r| ==> Before(lat, lon, r[i], z)
  }

  // Grouping by distance.

  predicate AllBelow(ds: set<int>, d: int) {
    forall k :: k in ds ==> k < d
  }

  type Dists = map<int, set<Item>>

  /** The groups hold items of the given set, each under its distance. */
  ghost predicate Groups(lat: int, lon: int, dists: Dists, items: set<Item>) {
    && (forall d :: d in dists ==> dists[d] != {})
    && (forall d, z :: d in dists && z in dists[d] ==> z in items && Dist(lat, lon, z) == d)
  }

  ghost predicate Grouped(dists: Dists, z: Item, lat: int, lon: int) {
    Dist(lat, lon, z) in dists && z in dists[Dist(lat, lon, z)]
  }

  /** More than MAX_REFERRERS distances are smaller. */
  ghost predicate TooFar(dists: Dists, d: int) {
    |dists.Keys| > MAX_REFERRERS && AllBelow(dists.Keys, d)
  }

  /** What is left out of the groups is farther away than more than MAX_REFERRERS items. */
  ghost predicate OnlyFarLeftOut(lat: int, lon: int, dists: Dists, items: set<Item>) {
    forall z :: z in items && !Grouped(dists, z, lat, lon) ==> LeftOut(dists, Dist(lat, lon, z))
  }

  /** Among the distances below d there are more than MAX_REFERRERS. */
  ghost predicate LeftOut(dists: Dists, d: int) {
    exists near: set<int> :: near <= dists.Keys && |near| > MAX_REFERRERS && AllBelow(near, d)
  }

  method GroupByDistance(lat: int, lon: int, lookFor: set<Item>) returns (dists: Dists)
    ensures Groups(lat, lon, dists, lookFor) && OnlyFarLeftOut(lat, lon, dists, lookFor)
  {
    hide Dist;
    dists := map[];
    var rest := lookFor;
    while rest != {}
      invariant rest <= lookFor && Groups(lat, lon, dists, lookFor - rest)
        && OnlyFarLeftOut(lat, lon, dists, lookFor - rest)
      decreases |rest|
    {
      ghost var seen := lookFor - rest;
      var z :| z in rest;
      rest := rest - {z};
      assert lookFor - rest == seen + {z};
      var dist := Dist(lat, lon, z);
      if |dists.Keys| > MAX_REFERRERS && AllBelow(dists.Keys, dist) {
        SkipFar(lat, lon, dists, seen, z);
        continue;
      }
      AddToGroup(lat, lon, dists, seen, z);
      dists := WithMember(dists, dist, z);
    }
    assert lookFor - {} == lookFor;
  }

  lemma {:induction false} SkipFar(lat: int, lon: int, dists: Dists, items: set<Item>, z: Item)
    requires Groups(lat, lon, dists, items) && OnlyFarLeftOut(lat, lon, dists, items)
      && TooFar(dists, Dist(lat, lon, z))
    ensures Groups(lat, lon, dists, items + {z}) && OnlyFarLeftOut(lat, lon, dists, items + {z})
  {
    hide Dist;
    assert dists.Keys <= dists.Keys;
    assert LeftOut(dists, Dist(lat, lon, z));
  }

  function WithMember(dists: Dists, d: int, z: Item): Dists {
    dists[d := (if d in dists then dists[d] else {}) + {z}]
  }

  lemma {:induction false} GroupsMore(lat: int, lon: int, dists: Dists, items: set<Item>, z: Item)
    requires Groups(lat, lon, dists, items)
    ensures Groups(lat, lon, WithMember(dists, Dist(lat, lon, z), z), items + {z})
  {
    hide Dist;
  }

  lemma {:induction false} WithMemberFacts(lat: int, lon: int, dists: Dists, z: Item, y: Item)
    ensures var dists' := WithMember(dists, Dist(lat, lon, z), z);
      && dists.Keys <= dists'.Keys && Grouped(dists', z, lat, lon)
      && (Grouped(dists, y, lat, lon) ==> Grouped(dists', y, lat, lon))
  {
    hide Dist;
  }

  lemma {:induction false} LeftOutMore(dists: Dists, dists': Dists, d: int)
    requires dists.Keys <= dists'.Keys && LeftOut(dists, d)
    ensures LeftOut(dists', d)
  {
    var near: set<int> :| near <= dists.Keys && |near| > MAX_REFERRERS && AllBelow(near, d);
    assert near <= dists'.Keys;
  }

  lemma {:induction false} AddToGroup(lat: int, lon: int, dists: Dists, items: set<Item>, z: Item)
    requires Groups(lat, lon, dists, items) && OnlyFarLeftOut(lat, lon, dists, items)
    ensures var dists' := WithMember(dists, Dist(lat, lon, z), z);
      Groups(lat, lon, dists', items + {z}) && OnlyFarLeftOut(lat, lon, dists', items + {z})
  {
    hide Dist, Groups, WithMember, Grouped, LeftOut;
    var dists' := WithMember(dists, Dist(lat, lon, z), z);
    GroupsMore(lat, lon, dists, items, z);
    forall y | y in items + {z} && !Grouped(dists', y, lat, lon)
      ensures LeftOut(dists', Dist(lat, lon, y))
    {
      WithMemberFacts(lat, lon, dists, z, y);
      LeftOutMore(dists, dists', Dist(lat, lon, y));
    }
  }

  // Taking the nearest.

  ghost function AllGrouped(dists: Dists): set<Item> {
    set d, z | d in dists && z in dists[d] :: z
  }

  lemma {:induction false} Member<T>(s: set<T>) returns (x: T)
    requires s != {}
    ensures x in s
  {
    x :| x in s;
  }

  lemma {:induction false} LeastExists(s: set<int>)
    requires s != {}
    ensures exists d :: d in s && forall k :: k in s ==> d <= k
  {
    var x := Member(s);
    if s == {x} {
      assert x in s && forall k :: k in s ==> x <= k;
    } else {
      var t := s - {x};
      assert s == t + {x};
      LeastExists(t);
      var d :| d in t && forall k :: k in t ==> d <= k;
      var m := if d <= x then d else x;
      assert m in s && forall k :: k in s ==> m <= k;
    }
  }

  lemma {:induction false} FirstPointerExists(s: set<Item>)
    requires s != {}
    ensures exists z :: z in s && forall y :: y in s ==> z.ptr <= y.ptr
  {
    var ptrs := set z | z in s :: z.ptr as int;
    var w :| w in s;
    assert w.ptr in ptrs;
    LeastExists(ptrs);
    var p :| p in ptrs && forall k :: k in ptrs ==> p <= k;
    var z :| z in s && z.ptr == p;
    forall y | y in s
      ensures z.ptr <= y.ptr
    {
      assert y.ptr as int in ptrs;
    }
  }

  /** ret lists, in order, items of groups that are not in rest; all groups of rest are farther away. */
  ghost predicate Taking(lat: int, lon: int, dists: Dists, rest: set<int>, ret: seq<Item>) {
    && InOrder(lat, lon, ret) && rest <= dists.Keys
    && (forall j :: 0 <= j < |ret| ==> Grouped(dists, ret[j], lat, lon) && FartherThan(rest, Dist(lat, lon, ret[j])))
  }

  ghost predicate FartherThan(ds: set<int>, d: int) {
    forall k :: k in ds ==> d < k
  }

  /** All items of the groups that are not in rest have been taken. */
  ghost predicate TakenBut(dists: Dists, rest: set<int>, ret: seq<Item>) {
    forall d, z :: d in dists && d !in rest && z in dists[d] ==> z in ret
  }

  /** Takes a group's items in the order of pointers, until there are enough. */
  method TakeGroup(lat: int, lon: int, dists: Dists, d: int, ret0: seq<Item>, ghost rest: set<int>,
          ghost items: set<Item>)
      returns (ret: seq<Item>)
    requires Groups(lat, lon, dists, items) && DistinctPointers(items) && d in dists && d in rest
      && |ret0| <= MAX_REFERRERS
    requires Taking(lat, lon, dists, rest, ret0) && forall k :: k in rest ==> d <= k
    ensures |ret| <= MAX_REFERRERS + 1 && ret0 <= ret && Taking(lat, lon, dists, rest - {d}, ret)
    ensures |ret| <= MAX_REFERRERS ==> forall z :: z in dists[d] ==> z in ret
    ensures forall z :: z in dists[d] && z !in ret ==> forall j :: 0 <= j < |ret| ==> Before(lat, lon, ret[j], z)
  {
    hide Dist;
    ret := ret0;
    var group := dists[d];
    while group != {}
      invariant |ret| <= MAX_REFERRERS && ret0 <= ret && group <= dists[d] && Taking(lat, lon, dists, rest - {d}, ret)
      invariant forall z :: z in dists[d] && z !in group ==> z in ret
      invariant forall z :: z in group ==> forall j :: 0 <= j < |ret| ==> Before(lat, lon, ret[j], z)
      decreases |group|
    {
      FirstPointerExists(group);
      var x :| x in group && forall y :: y in group ==> x.ptr <= y.ptr;
      assert Dist(lat, lon, x) == d;
      ghost var before := ret;
      ret := ret + [x];
      group := group - {x};
      forall z | z in group
        ensures forall j :: 0 <= j < |ret| ==> Before(lat, lon, ret[j], z)
      {
        assert z in dists[d] && z.ptr != x.ptr;
        assert Before(lat, lon, x, z);
      }
      if |ret| > MAX_REFERRERS {
        break;
      }
    }
  }

  method TakeNearest(lat: int, lon: int, dists: Dists, ghost items: set<Item>) returns (ret: seq<Item>)
    requires Groups(lat, lon, dists, items) && DistinctPointers(items)
    ensures FirstOf(lat, lon, AllGrouped(dists), ret, MAX_REFERRERS + 1)
  {
    hide Dist;
    ret := [];
    var rest := dists.Keys;
    while rest != {}
      invariant rest <= dists.Keys && |ret| <= MAX_REFERRERS
      invariant Taking(lat, lon, dists, rest, ret) && TakenBut(dists, rest, ret)
      decreases |rest|
    {
      LeastExists(rest);
      var d :| d in rest && forall k :: k in rest ==> d <= k;
      ghost var before := ret;
      ret := TakeGroup(lat, lon, dists, d, ret, rest, items);
      StillTaken(before, ret);
      if |ret| > MAX_REFERRERS {
        EnoughTaken(lat, lon, dists, rest, d, ret, items);
        return;
      }
      rest := rest - {d};
    }
  }

  lemma {:induction false} EnoughTaken(lat: int, lon: int, dists: Dists, rest: set<int>, d: int, ret: seq<Item>,
          items: set<Item>)
    requires Groups(lat, lon, dists, items) && d in rest && |ret| == MAX_REFERRERS + 1
      && Taking(lat, lon, dists, rest - {d}, ret)
    requires d in dists && TakenBut(dists, rest, ret)
    requires forall z :: z in dists[d] && z !in ret ==> forall j :: 0 <= j < |ret| ==> Before(lat, lon, ret[j], z)
    ensures FirstOf(lat, lon, AllGrouped(dists), ret, MAX_REFERRERS + 1)
  {
    hide Dist;
    forall z | z in AllGrouped(dists) && z !in ret
      ensures forall j :: 0 <= j < |ret| ==> Before(lat, lon, ret[j], z)
    {
      var k :| k in dists && z in dists[k];
      assert k in rest && Dist(lat, lon, z) == k;
      if k != d {
        assert k in rest - {d};
      }
    }
  }

  lemma {:induction false} StillTaken(a: seq<Item>, b: seq<Item>)
    requires a <= b
    ensures forall z :: z in a ==> z in b
  {
    forall z | z in a
      ensures z in b
    {
      var i :| 0 <= i < |a| && a[i] == z;
      assert b[i] == z;
    }
  }

  // The whole selection.

  /** The distances of the first i items. */
  ghost function Distances(lat: int, lon: int, r: seq<Item>, i: nat): (ds: set<int>)
    requires i <= |r|
    ensures |ds| <= i
  {
    if i == 0 then {} else Distances(lat, lon, r, i - 1) + {Dist(lat, lon, r[i - 1])}
  }

  lemma {:induction false} DistanceAmong(lat: int, lon: int, r: seq<Item>, i: nat, j: nat)
    requires j < i <= |r|
    ensures Dist(lat, lon, r[j]) in Distances(lat, lon, r, i)
  {
    hide Dist;
    if j < i - 1 {
      DistanceAmong(lat, lon, r, i - 1, j);
    }
  }

  /** Every distance in near is that of one of the first i items. */
  lemma {:induction false} NearTaken(lat: int, lon: int, dists: Dists, r: seq<Item>, i: nat, near: set<int>,
          items: set<Item>)
    requires FirstOf(lat, lon, AllGrouped(dists), r, MAX_REFERRERS + 1) && Groups(lat, lon, dists, items)
    requires i <= |r| && near <= dists.Keys && (i < |r| ==> AllBelow(near, Dist(lat, lon, r[i])))
    requires i == |r| ==> |r| <= MAX_REFERRERS
    ensures |near| <= i
  {
    hide Dist;
    forall d | d in near
      ensures d in Distances(lat, lon, r, i)
    {
      var z := Member(dists[d]);
      assert z in AllGrouped(dists) && Dist(lat, lon, z) == d;
      if z in r {
        var j :| 0 <= j < |r| && r[j] == z;
        if j >= i {
          NotEarlier(lat, lon, r, i, j);
        }
        DistanceAmong(lat, lon, r, i, j);
      }
    }
    SubsetSize(near, Distances(lat, lon, r, i));
  }

  lemma {:induction false} NotEarlier(lat: int, lon: int, r: seq<Item>, i: nat, j: nat)
    requires InOrder(lat, lon, r) && i <= j < |r|
    ensures Dist(lat, lon, r[i]) <= Dist(lat, lon, r[j])
  {
    hide Dist;
    if i < j {
      assert Before(lat, lon, r[i], r[j]);
    }
  }

  lemma {:induction false} SubsetSize<T>(a: set<T>, b: set<T>)
    requires a <= b
    ensures |a| <= |b|
  {
    assert b == a + (b - a);
  }

  /** What was left out while grouping is not among the first, either. */
  lemma {:induction false} FirstOfAll(lat: int, lon: int, dists: Dists, items: set<Item>, r: seq<Item>)
    requires Groups(lat, lon, dists, items) && OnlyFarLeftOut(lat, lon, dists, items)
    requires FirstOf(lat, lon, AllGrouped(dists), r, MAX_REFERRERS + 1)
    ensures FirstOf(lat, lon, items, r, MAX_REFERRERS + 1)
  {
    hide Dist;
    forall z | z in items && z !in r
      ensures |r| == MAX_REFERRERS + 1 && forall i :: 0 <= i < |r| ==> Before(lat, lon, r[i], z)
    {
      if Grouped(dists, z, lat, lon) {
        assert z in AllGrouped(dists);
      } else {
        var near: set<int> :| near <= dists.Keys && |near| > MAX_REFERRERS && AllBelow(near, Dist(lat, lon, z));
        if |r| <= MAX_REFERRERS {
          NearTaken(lat, lon, dists, r, |r|, near, items);
        }
        forall i | 0 <= i < |r|
          ensures Before(lat, lon, r[i], z)
        {
          if Dist(lat, lon, r[i]) >= Dist(lat, lon, z) {
            NearTaken(lat, lon, dists, r, i, near, items);
          }
        }
      }
    }
  }

  lemma {:induction false} ListedCount(lat: int, lon: int, items: set<Item>, ret: seq<Item>, i: nat)
    requires InOrder(lat, lon, ret) && i <= |ret| && forall j :: 0 <= j < |ret| ==> ret[j] in items
    ensures i <= |items| && |Firsts(ret, i)| == i
  {
    hide InOrder;
    if i > 0 {
      ListedCount(lat, lon, items, ret, i - 1);
      assert Firsts(ret, i) == Firsts(ret, i - 1) + {ret[i - 1]};
      NoneTwice(lat, lon, ret, i - 1);
    }
    SubsetSize(Firsts(ret, i), items);
  }

  function Firsts(ret: seq<Item>, i: nat): set<Item>
    requires i <= |ret|
  {
    set j | 0 <= j < i :: ret[j]
  }

  lemma {:induction false} NoneTwice(lat: int, lon: int, ret: seq<Item>, i: nat)
    requires InOrder(lat, lon, ret) && i < |ret|
    ensures ret[i] !in Firsts(ret, i)
  {
  }

  /** How many are listed. */
  lemma {:induction false} HowManyListed(lat: int, lon: int, items: set<Item>, ret: seq<Item>, n: nat)
    requires FirstOf(lat, lon, items, ret, n)
    ensures |ret| == if |items| <= n then |items| else n
  {
    ListedCount(lat, lon, items, ret, |ret|);
    var listed := Firsts(ret, |ret|);
    assert listed <= items;
    if items <= listed {
      assert items == listed;
    } else {
      var z :| z in items && z !in listed;
      assert z !in ret;
      SubsetSize(listed + {z}, items);
    }
  }

  /** The distances are grouped, far ones being skipped, and the nearest are taken. */
  method SelectNearest(lat: int, lon: int, lookFor: set<Item>) returns (ret: seq<Item>)
    requires DistinctPointers(lookFor)
    ensures FirstOf(lat, lon, lookFor, ret, MAX_REFERRERS + 1)
    ensures |ret| == if |lookFor| <= 41 then |lookFor| else 41
  {
    hide FirstOf;
    var dists := GroupByDistance(lat, lon, lookFor);
    ret := TakeNearest(lat, lon, dists, lookFor);
    FirstOfAll(lat, lon, dists, lookFor, ret);
    HowManyListed(lat, lon, lookFor, ret, 41);
  }

  /** Whoever is no farther in both coordinates, and nearer in one, is listed first. */
  lemma {:induction false} NearerFirst(lat: int, lon: int, items: set<Item>, r: seq<Item>, n: nat, x: Item, j: nat)
    returns (i: nat)
    requires FirstOf(lat, lon, items, r, n) && x in items && j < |r|
    requires Gap(lat - x.lat) <= Gap(lat - r[j].lat) && Gap(lon - x.lon) <= Gap(lon - r[j].lon)
    requires Gap(lat - x.lat) < Gap(lat - r[j].lat) || Gap(lon - x.lon) < Gap(lon - r[j].lon)
    ensures i < j && r[i] == x
  {
    hide Gap, Dist;
    var mid := Item(x.ptr, x.lat, r[j].lon);
    DistGrows(lat, lon, x, mid);
    DistGrows(lat, lon, mid, r[j]);
    SameGaps(lat, lon, x, mid);
    SameGaps(lat, lon, mid, r[j]);
    assert x in r;
    i :| 0 <= i < |r| && r[i] == x;
  }

  lemma {:induction false} SameGaps(lat: int, lon: int, x: Item, y: Item)
    ensures Gap(lat - x.lat) == Gap(lat - y.lat) && Gap(lon - x.lon) == Gap(lon - y.lon) ==>
      Dist(lat, lon, x) == Dist(lat, lon, y)
  {
    SquareOfGap(lat - x.lat);
    SquareOfGap(lat - y.lat);
    SquareOfGap(lon - x.lon);
    SquareOfGap(lon - y.lon);
  }

  /** A referrer at the place itself, with no other there, is the first. */
  lemma {:induction false} AtThePlaceFirst(lat: int, lon: int, items: set<Item>, r: seq<Item>, n: nat, x: Item)
    requires FirstOf(lat, lon, items, r, n) && n > 0 && x in items && x.lat == lat && x.lon == lon
    requires forall y :: y in items && y.lat == lat && y.lon == lon ==> y == x
    ensures r != [] && r[0] == x
  {
    if r != [] && r[0] != x {
      var i := NearerFirst(lat, lon, items, r, n, x, 0);
    }
  }

  /** What stands at place i of one list comes before, or is, what stands there in the other. */
  lemma {:induction false} NotBehind(lat: int, lon: int, items: set<Item>, r: seq<Item>, t: seq<Item>, n: nat, i: nat)
    requires FirstOf(lat, lon, items, r, n) && FirstOf(lat, lon, items, t, n) && i < |r| && i < |t| && r[..i] == t[..i]
    ensures t[i] == r[i] || Before(lat, lon, t[i], r[i])
  {
    hide Before;
    if r[i] in t {
      var k :| 0 <= k < |t| && t[k] == r[i];
      if k < i {
        assert r[k] == r[..i][k] == t[..i][k] == r[i];
        assert Before(lat, lon, r[k], r[i]);
        NeverBeforeItself(lat, lon, r[i]);
      }
    }
  }

  lemma {:induction false} NeverBeforeItself(lat: int, lon: int, x: Item)
    ensures !Before(lat, lon, x, x)
  {
  }

  lemma {:induction false} NotBothBefore(lat: int, lon: int, x: Item, y: Item)
    ensures !(Before(lat, lon, x, y) && Before(lat, lon, y, x))
  {
    hide Dist;
  }

  lemma {:induction false} SamePrefix(lat: int, lon: int, items: set<Item>, r: seq<Item>, t: seq<Item>, n: nat, i: nat)
    requires FirstOf(lat, lon, items, r, n) && FirstOf(lat, lon, items, t, n) && i <= |r| && i <= |t|
    ensures r[..i] == t[..i]
  {
    hide FirstOf, Before;
    if i > 0 {
      SamePrefix(lat, lon, items, r, t, n, i - 1);
      NotBehind(lat, lon, items, r, t, n, i - 1);
      NotBehind(lat, lon, items, t, r, n, i - 1);
      NotBothBefore(lat, lon, r[i - 1], t[i - 1]);
      assert r[..i] == r[..i - 1] + [r[i - 1]] && t[..i] == t[..i - 1] + [t[i - 1]];
    }
  }

  /** A list of the first n cannot be longer than another. */
  lemma {:induction false} NotLonger(lat: int, lon: int, items: set<Item>, r: seq<Item>, t: seq<Item>, n: nat)
    requires FirstOf(lat, lon, items, r, n) && FirstOf(lat, lon, items, t, n)
    ensures |r| <= |t|
  {
    hide Before;
    if |t| < |r| {
      SamePrefix(lat, lon, items, r, t, n, |t|);
      var x := r[|t|];
      if x in t {
        var k :| 0 <= k < |t| && t[k] == x;
        assert r[k] == r[..|t|][k] == t[..|t|][k];
        assert Before(lat, lon, r[k], r[|t|]);
        NeverBeforeItself(lat, lon, x);
      }
    }
  }

  /** There is only one list of the first n. */
  lemma {:induction false} FirstOfUnique(lat: int, lon: int, items: set<Item>, r: seq<Item>, t: seq<Item>, n: nat)
    requires FirstOf(lat, lon, items, r, n) && FirstOf(lat, lon, items, t, n)
    ensures r == t
  {
    hide FirstOf, Before;
    NotLonger(lat, lon, items, r, t, n);
    NotLonger(lat, lon, items, t, r, n);
    SamePrefix(lat, lon, items, r, t, n, |r|);
    assert r[..|r|] == r && t[..|t|] == t;
  }
}
