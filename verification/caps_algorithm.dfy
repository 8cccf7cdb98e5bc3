/** The referrers that a top server knows, by hour and address family. */
module CapsAlgorithm {
  import opened ReferrerSelection
  import opened ReferrerGrid

  datatype Slot = Slot(hour: int, family: int)

  class CapsAlgorithm {
    /** What the containers of all hours and families hold. */
    var rcontainers: map<Slot, Contents>

    function Hours(): set<int>
      reads this
    {
      set k | k in rcontainers :: k.hour
    }

    ghost predicate Valid()
      reads this
    {
      forall k :: k in rcontainers ==> rcontainers[k].Valid()
    }

    /** The referrers of an hour and a family. */
    ghost function Known(hour: int, family: int): map<nat, Item>
      reads this
    {
      if Slot(hour, family) in rcontainers then rcontainers[Slot(hour, family)].referrers else map[]
    }

    constructor ()
      ensures Valid() && rcontainers == map[]
    {
      rcontainers := map[];
    }

    /** Adds or moves a referrer in one container, which is made if there is none. */
    method AddAt(hour: int, lat: int, lon: int, sa: nat, family: int, ptr: nat)
      requires Valid() && forall x :: x in Known(hour, family) ==> Known(hour, family)[x].ptr != ptr
      modifies this
      ensures Valid() && rcontainers.Keys == old(rcontainers.Keys) + {Slot(hour, family)}
      ensures Known(hour, family) == Stored(old(Known(hour, family)), sa, lat, lon, ptr)
      ensures forall k :: k in rcontainers && k != Slot(hour, family) ==>
        k in old(rcontainers) && rcontainers[k] == old(rcontainers)[k]
    {
      hide Contents.Valid, Stored;
      var c := new ReferrerContainer();
      if Slot(hour, family) in rcontainers {
        c := new ReferrerContainer.From(rcontainers[Slot(hour, family)]);
      }
      assert c.referrers == Known(hour, family);
      c.Add(lat, lon, sa, ptr);
      rcontainers := rcontainers[Slot(hour, family) := c.View()];
    }

    ghost predicate IsOldest(hours: set<int>, oldest: int) {
      oldest in hours && forall h :: h in hours ==> oldest <= h
    }

    /** No hour after the next one has been written to: time has not gone back. */
    ghost predicate NothingBeyond(now: int)
      reads this
    {
      forall k :: k in rcontainers ==> k.hour <= now + 1
    }

    /**
     * The oldest hour goes if there are more than two; unless time has gone back, that is not this hour or a later
     * one.
     */
    method DropOldest(ghost now: int)
      requires Valid()
      modifies this
      ensures Valid() && rcontainers.Keys <= old(rcontainers.Keys)
      ensures forall k :: k in rcontainers ==> rcontainers[k] == old(rcontainers)[k]
      ensures old(NothingBeyond(now)) ==> forall k :: k in old(rcontainers) && k.hour >= now ==> k in rcontainers
      ensures |old(Hours())| <= 2 ==> rcontainers == old(rcontainers)
      ensures |old(Hours())| > 2 ==>
        exists oldest :: IsOldest(old(Hours()), oldest) && Hours() == old(Hours()) - {oldest}
    {
      hide Contents.Valid;
      if |Hours()| > 2 {
        LeastExists(Hours());
        var oldest :| oldest in Hours() && forall h :: h in Hours() ==> oldest <= h;
        if oldest >= now && NothingBeyond(now) {
          SubsetSize(Hours(), {now, now + 1});
        }
        ghost var hours, before := Hours(), rcontainers;
        rcontainers := map k | k in rcontainers && k.hour != oldest :: rcontainers[k];
        forall h
          ensures h in Hours() <==> h in hours && h != oldest
        {
          if h in hours && h != oldest {
            var k :| k in before && k.hour == h;
            assert k in rcontainers;
          }
        }
        assert Hours() == hours - {oldest} && IsOldest(hours, oldest);
      }
    }

    /**
     * Adds a referrer for this hour and the next; ptr0 and ptr1 are what the allocator gives for new ones. Unless time
     * has gone back, nothing that is known for this hour or a later one is lost.
     */
    method AddReferrer(now: int, lat: int, lon: int, sa: nat, family: int, ptr0: nat, ptr1: nat)
      requires Valid()
      requires forall h, x :: x in Known(h, family) ==>
        Known(h, family)[x].ptr != ptr0 && Known(h, family)[x].ptr != ptr1
      modifies this
      ensures Valid() && sa in Known(now, family) && sa in Known(now + 1, family)
      ensures old(NothingBeyond(now)) ==>
        && NothingBeyond(now)
        && Known(now, family) == Stored(old(Known(now, family)), sa, lat, lon, ptr0)
        && Known(now + 1, family) == Stored(old(Known(now + 1, family)), sa, lat, lon, ptr1)
        && forall h, f :: h >= now && (f != family || h > now + 1) ==> Known(h, f) == old(Known(h, f))
    {
      hide Contents.Valid;
      DropOldest(now);
      assert Known(now, family) == old(Known(now, family)) || Known(now, family) == map[];
      ghost var next := Known(now + 1, family);
      assert next == old(Known(now + 1, family)) || next == map[];
      AddAt(now, lat, lon, sa, family, ptr0);
      assert Known(now + 1, family) == next;
      AddAt(now + 1, lat, lon, sa, family, ptr1);
    }

    /**
     * The referrers of this hour nearest to a place: the first of the candidates, all that are known if there are few,
     * and none only if none is known.
     */
    method FindReferrers(now: int, lat: int, lon: int, family: int) returns (ret: seq<Item>)
      requires Valid()
      modifies this
      ensures Valid() && forall h, f :: Known(h, f) == old(Known(h, f))
      ensures Slot(now, family) in rcontainers && rcontainers.Keys == old(rcontainers.Keys) + {Slot(now, family)}
      ensures var c := rcontainers[Slot(now, family)];
        c.Candidates(lat, lon) <= c.referrers.Keys
        && FirstOf(lat, lon, c.Items(c.Candidates(lat, lon)), ret, MAX_REFERRERS + 1)
      ensures ret == [] <==> Known(now, family) == map[]
      ensures |Known(now, family).Keys| <= MAX_REFERRERS ==>
        forall sa :: sa in Known(now, family) ==> Known(now, family)[sa] in ret
    {
      hide Contents.Valid, FirstOf;
      var c := new ReferrerContainer();
      if Slot(now, family) in rcontainers {
        c := new ReferrerContainer.From(rcontainers[Slot(now, family)]);
      }
      ret := c.FindReferrers(lat, lon);
      rcontainers := rcontainers[Slot(now, family) := c.View()];
    }
  }
}
