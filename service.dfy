/**
 * `ShipService`: the list, count, create, read, delete and update operations
 * over the ship store. The store is the sequence `findAll()` returns; it
 * changes only through `save` and `deleteById`.
 */
module Service {
  import opened Wrappers
  import opened ShipModel
  import opened Streams
  import opened ShipFilter
  import opened Validation
  import opened Rating

  /** `findById(id)`: the stored ship with that id, if any. */
  function FindById(s: seq<Ship>, id: int): (r: Option<Ship>)
    ensures r.None? <==> !HasId(s, id)
    ensures r.Some? ==> r.value in s && r.value.id == id
  {
    if s == [] then None
    else if s[0].id == id then Some(s[0])
    else
      var r := FindById(s[1..], id);
      assert HasId(s, id) ==> HasId(s[1..], id) by {
        if HasId(s, id) {
          var i :| 0 <= i < |s| && s[i].id == id;
          assert s[1..][i - 1].id == id;
        }
      }
      assert r.Some? ==> HasId(s, id) by {
        if r.Some? {
          var i :| 0 <= i < |s[1..]| && s[1..][i].id == id;
          assert s[i + 1].id == id;
        }
      }
      r
  }

  /** With unique ids, the ship `FindById` returns is the one at any position holding that id. */
  lemma FindByIdAt(s: seq<Ship>, i: int)
    requires UniqueIds(s) && 0 <= i < |s|
    ensures FindById(s, s[i].id) == Some(s[i])
  {
    var r := FindById(s, s[i].id);
    var j :| 0 <= j < |s| && s[j] == r.value;
  }

  /** `save` of a ship the store already holds: the record with its id is replaced. */
  function ReplaceById(s: seq<Ship>, x: Ship): seq<Ship> {
    seq(|s|, i requires 0 <= i < |s| => if s[i].id == x.id then x else s[i])
  }

  /** The test "has an id other than `id`". */
  function IdIsNot(id: int): Ship -> bool {
    (x: Ship) => x.id != id
  }

  /** `deleteById(id)`: every record with that id leaves the store, the rest keep their order. */
  function WithoutId(s: seq<Ship>, id: int): seq<Ship> {
    Filter(s, IdIsNot(id))
  }

  /**
   * Deleting a present id from a store with unique ids removes exactly one
   * record: that id is gone, every other record is still there, and none
   * is new.
   */
  lemma {:induction false} DeleteRemovesOne(s: seq<Ship>, id: int)
    requires UniqueIds(s) && HasId(s, id)
    ensures |WithoutId(s, id)| == |s| - 1
    ensures !HasId(WithoutId(s, id), id)
    ensures forall i :: 0 <= i < |s| && s[i].id != id ==> s[i] in WithoutId(s, id)
    ensures forall x :: x in WithoutId(s, id) ==> x in s
  {
    FilterMembers(s, IdIsNot(id));
    FilterCons(s[0], s[1..], IdIsNot(id));
    assert s == [s[0]] + s[1..];
    if s[0].id == id {
      forall x | x in s[1..] ensures IdIsNot(id)(x) {
        var j :| 0 <= j < |s[1..]| && s[1..][j] == x;
        assert s[j + 1] == x;
      }
      FilterKeepsAll(s[1..], IdIsNot(id));
    } else {
      assert HasId(s[1..], id) by {
        var i :| 0 <= i < |s| && s[i].id == id;
        assert s[1..][i - 1].id == id;
      }
      DeleteRemovesOne(s[1..], id);
    }
    forall i | 0 <= i < |WithoutId(s, id)| ensures WithoutId(s, id)[i].id != id {
      assert IdIsNot(id)(WithoutId(s, id)[i]);
    }
  }

  /** Deleting keeps ids unique: the result is a subsequence of the store. */
  lemma WithoutIdUnique(s: seq<Ship>, id: int)
    requires UniqueIds(s)
    ensures UniqueIds(WithoutId(s, id))
  {
    var idx := FilterPositions(s, IdIsNot(id));
    var r := WithoutId(s, id);
    forall i, j | 0 <= i < j < |r| ensures r[i].id != r[j].id {
      assert r[i] == s[idx[i]] && r[j] == s[idx[j]] && idx[i] < idx[j];
    }
  }

  /**
   * The field part of the update merge: each field the payload supplies
   * overwrites the stored one and the others are kept, except that an
   * omitted used flag becomes false. Id and rating are the stored ones.
   */
  function Overlay(stored: Ship, p: ShipData): (m: Ship)
    ensures m.id == stored.id && m.rating == stored.rating
    ensures p.isUsed.None? ==> !m.isUsed
  {
    Ship(stored.id, p.name.GetOr(stored.name), p.planet.GetOr(stored.planet),
         p.shipType.GetOr(stored.shipType), p.prodDate.GetOr(stored.prodDate),
         p.isUsed.GetOr(false), p.speed.GetOr(stored.speed),
         p.crewSize.GetOr(stored.crewSize), stored.rating)
  }

  /**
   * The update merge: the overlay with its rating recomputed. The merged
   * ship keeps the stored ship's id, is a valid record when the stored one
   * was, and carries the rating of its own speed, used flag and production
   * year.
   */
  function Merge(stored: Ship, p: ShipData, yearOf: int -> int): (m: Ship)
    requires YearOk(yearOf(stored.prodDate)) && UpdateFieldsOk(p, yearOf)
    ensures m.id == stored.id
    ensures ValidRecord(stored, yearOf) ==> ValidRecord(m, yearOf)
    ensures YearOk(yearOf(m.prodDate))
    ensures m.rating == ComputeRating(m.speed, m.isUsed, yearOf(m.prodDate))
    ensures p.isUsed.None? ==> !m.isUsed
  {
    var o := Overlay(stored, p);
    o.(rating := ComputeRating(o.speed, o.isUsed, yearOf(o.prodDate)))
  }

  /**
   * The store invariant: ids are unique, positive and below the next id to
   * be assigned, and every stored ship is a valid record.
   */
  predicate StoreOk(s: seq<Ship>, nextId: int, yearOf: int -> int) {
    && 1 <= nextId
    && UniqueIds(s)
    && forall i :: 0 <= i < |s| ==> 1 <= s[i].id < nextId && ValidRecord(s[i], yearOf)
  }

  /** Saving a new valid ship under the next id keeps the invariant. */
  lemma AppendKeepsStore(s: seq<Ship>, nextId: int, yearOf: int -> int, x: Ship)
    requires StoreOk(s, nextId, yearOf) && x.id == nextId && ValidRecord(x, yearOf)
    ensures StoreOk(s + [x], nextId + 1, yearOf)
  {
    var t := s + [x];
    forall i, j | 0 <= i < j < |t| ensures t[i].id != t[j].id {
      if j < |s| {
        assert t[i] == s[i] && t[j] == s[j];
      } else {
        assert t[i] == s[i] && t[j] == x;
      }
    }
  }

  /** Deleting by id keeps the invariant. */
  lemma DeleteKeepsStore(s: seq<Ship>, nextId: int, yearOf: int -> int, id: int)
    requires StoreOk(s, nextId, yearOf)
    ensures StoreOk(WithoutId(s, id), nextId, yearOf)
  {
    WithoutIdUnique(s, id);
    FilterMembers(s, IdIsNot(id));
    var t := WithoutId(s, id);
    forall i | 0 <= i < |t| ensures 1 <= t[i].id < nextId && ValidRecord(t[i], yearOf) {
      var j :| 0 <= j < |s| && s[j] == t[i];
    }
  }

  /**
   * Replacing the record with a stored id by a valid ship with that id
   * keeps every id in place, and so keeps the invariant.
   */
  lemma ReplaceKeepsStore(s: seq<Ship>, nextId: int, yearOf: int -> int, x: Ship)
    requires StoreOk(s, nextId, yearOf) && HasId(s, x.id) && ValidRecord(x, yearOf)
    ensures |ReplaceById(s, x)| == |s|
    ensures forall i :: 0 <= i < |s| ==> ReplaceById(s, x)[i].id == s[i].id
    ensures StoreOk(ReplaceById(s, x), nextId, yearOf)
  {
  }

  /** With unique ids, two stored ships with the same id are the same ship. */
  lemma SameIdSameShip(s: seq<Ship>, x: Ship, y: Ship)
    requires UniqueIds(s) && x in s && y in s && x.id == y.id
    ensures x == y
  {
    var i :| 0 <= i < |s| && s[i] == x;
    var j :| 0 <= j < |s| && s[j] == y;
  }

  /** A ship saved under an id the store does not hold is what a lookup of that id then finds. */
  lemma FindAfterAppend(s: seq<Ship>, x: Ship)
    requires !HasId(s, x.id)
    ensures FindById(s + [x], x.id) == Some(x)
    ensures forall id :: id != x.id ==> FindById(s + [x], id) == FindById(s, id)
  {
    FindLast(s, x);
    forall id | id != x.id ensures FindById(s + [x], id) == FindById(s, id) {
      FindPrefix(s, x, id);
    }
  }

  /** The appended ship is found when no earlier ship has its id. */
  lemma {:induction false} FindLast(s: seq<Ship>, x: Ship)
    requires !HasId(s, x.id)
    ensures FindById(s + [x], x.id) == Some(x)
  {
    if s == [] {
      assert s + [x] == [x];
    } else {
      assert (s + [x])[1..] == s[1..] + [x];
      assert s[0].id != x.id;
      assert !HasId(s[1..], x.id) by {
        forall i | 0 <= i < |s[1..]| ensures s[1..][i].id != x.id {
          assert s[1..][i] == s[i + 1];
        }
      }
      FindLast(s[1..], x);
    }
  }

  /** Appending a ship with another id does not change what a lookup finds. */
  lemma {:induction false} FindPrefix(s: seq<Ship>, x: Ship, id: int)
    requires x.id != id
    ensures FindById(s + [x], id) == FindById(s, id)
  {
    if s == [] {
      assert [x][1..] == [];
    } else {
      assert (s + [x])[1..] == s[1..] + [x];
      FindPrefix(s[1..], x, id);
    }
  }

  /**
   * After a record is replaced, a lookup of its id finds the new ship and a
   * lookup of any other id finds what it found before.
   */
  lemma FindAfterReplace(s: seq<Ship>, x: Ship)
    requires UniqueIds(s) && HasId(s, x.id)
    ensures FindById(ReplaceById(s, x), x.id) == Some(x)
    ensures forall id :: id != x.id ==> FindById(ReplaceById(s, x), id) == FindById(s, id)
  {
    var t := ReplaceById(s, x);
    var i :| 0 <= i < |s| && s[i].id == x.id;
    assert t[i] == x;
    var k :| 0 <= k < |t| && t[k] == FindById(t, x.id).value;
    forall id | id != x.id ensures FindById(t, id) == FindById(s, id) {
      FindAfterReplaceOther(s, x, id);
    }
  }

  /** One other id of `FindAfterReplace`. */
  lemma FindAfterReplaceOther(s: seq<Ship>, x: Ship, id: int)
    requires UniqueIds(s) && id != x.id
    ensures FindById(ReplaceById(s, x), id) == FindById(s, id)
  {
    var t := ReplaceById(s, x);
    if HasId(s, id) {
      var i :| 0 <= i < |s| && s[i].id == id;
      assert t[i] == s[i];
      var u := FindById(t, id).value;
      var j :| 0 <= j < |t| && t[j] == u;
      assert u == s[j];
      SameIdSameShip(s, u, FindById(s, id).value);
    } else {
      forall j | 0 <= j < |t| ensures t[j].id != id {
        assert t[j] == x || t[j] == s[j];
      }
    }
  }

  /**
   * After a delete, a lookup of the deleted id finds nothing and a lookup of
   * any other id finds what it found before.
   */
  lemma FindAfterDelete(s: seq<Ship>, id: int)
    requires UniqueIds(s)
    ensures FindById(WithoutId(s, id), id).None?
    ensures forall other :: other != id ==> FindById(WithoutId(s, id), other) == FindById(s, other)
  {
    var t := WithoutId(s, id);
    FilterMembers(s, IdIsNot(id));
    forall i | 0 <= i < |t| ensures t[i].id != id {
      assert IdIsNot(id)(t[i]);
    }
    forall other | other != id ensures FindById(t, other) == FindById(s, other) {
      FindAfterDeleteOther(s, id, other);
    }
  }

  /** One other id of `FindAfterDelete`. */
  lemma FindAfterDeleteOther(s: seq<Ship>, id: int, other: int)
    requires UniqueIds(s) && other != id
    ensures FindById(WithoutId(s, id), other) == FindById(s, other)
  {
    var t := WithoutId(s, id);
    FilterMembers(s, IdIsNot(id));
    WithoutIdUnique(s, id);
    if HasId(s, other) {
      var i :| 0 <= i < |s| && s[i].id == other;
      assert IdIsNot(id)(s[i]);
      var k :| 0 <= k < |t| && t[k] == s[i];
      var u := FindById(t, other).value;
      var j :| 0 <= j < |t| && t[j] == u;
      SameIdSameShip(s, u, FindById(s, other).value);
    } else {
      forall j | 0 <= j < |t| ensures t[j].id != other {
        var k :| 0 <= k < |s| && s[k] == t[j];
      }
    }
  }

  /** A ship found in a store that keeps the invariant is a valid record. */
  lemma StoredIsValid(s: seq<Ship>, nextId: int, yearOf: int -> int, x: Ship)
    requires StoreOk(s, nextId, yearOf) && x in s
    ensures ValidRecord(x, yearOf)
  {
    var i :| 0 <= i < |s| && s[i] == x;
  }

  class ShipService {
    /** The store, in `findAll()` order. */
    var ships: seq<Ship>
    /** The id the store assigns to the next new ship. */
    var nextId: int
    /** `getProdDateYear`: the calendar year of a production instant in the system time zone. */
    const yearOf: int -> int

    /** Ids are unique, positive and below `nextId`, and every stored ship is a valid record. */
    ghost predicate Valid()
      reads this
    {
      StoreOk(ships, nextId, yearOf)
    }

    /**
     * A service over a repository that already holds `ships`, whose next
     * assigned id is `nextId`.
     */
    constructor (yearOf: int -> int, ships: seq<Ship>, nextId: int)
      requires StoreOk(ships, nextId, yearOf)
      ensures Valid() && this.ships == ships && this.nextId == nextId && this.yearOf == yearOf
    {
      this.ships := ships;
      this.nextId := nextId;
      this.yearOf := yearOf;
    }

    /**
     * `getShipsList`: starting from the whole store, each criterion that is
     * set narrows the list in turn, in the source's order.
     */
    method GetShipsList(c: Criteria) returns (result: seq<Ship>)
      ensures result == Query(ships, c)
    {
      ghost var applied := NoCriteria;
      QueryNoCriteria(ships);
      result := ships;
      NarrowByName(ships, applied, c.name);
      result := Narrow(result, c.name, NameContains);
      applied := applied.(name := c.name);
      NarrowByPlanet(ships, applied, c.planet);
      result := Narrow(result, c.planet, PlanetContains);
      applied := applied.(planet := c.planet);
      NarrowByType(ships, applied, c.shipType);
      result := Narrow(result, c.shipType, TypeIs);
      applied := applied.(shipType := c.shipType);
      NarrowByAfter(ships, applied, c.after);
      result := Narrow(result, c.after, MadeAfter);
      applied := applied.(after := c.after);
      NarrowByBefore(ships, applied, c.before);
      result := Narrow(result, c.before, MadeBefore);
      applied := applied.(before := c.before);
      NarrowByUsed(ships, applied, c.isUsed);
      result := Narrow(result, c.isUsed, UsedIs);
      applied := applied.(isUsed := c.isUsed);
      NarrowByMinSpeed(ships, applied, c.minSpeed);
      result := Narrow(result, c.minSpeed, SpeedAtLeast);
      applied := applied.(minSpeed := c.minSpeed);
      NarrowByMaxSpeed(ships, applied, c.maxSpeed);
      result := Narrow(result, c.maxSpeed, SpeedAtMost);
      applied := applied.(maxSpeed := c.maxSpeed);
      NarrowByMinCrewSize(ships, applied, c.minCrewSize);
      result := Narrow(result, c.minCrewSize, CrewAtLeast);
      applied := applied.(minCrewSize := c.minCrewSize);
      NarrowByMaxCrewSize(ships, applied, c.maxCrewSize);
      result := Narrow(result, c.maxCrewSize, CrewAtMost);
      applied := applied.(maxCrewSize := c.maxCrewSize);
      NarrowByMinRating(ships, applied, c.minRating);
      result := Narrow(result, c.minRating, RatingAtLeast);
      applied := applied.(minRating := c.minRating);
      NarrowByMaxRating(ships, applied, c.maxRating);
      result := Narrow(result, c.maxRating, RatingAtMost);
      applied := applied.(maxRating := c.maxRating);
      assert applied == c;
    }

    /** `getShipsCount`: the number of ships `getShipsList` returns for the same criteria. */
    method GetShipsCount(c: Criteria) returns (n: int)
      ensures n == |Query(ships, c)|
    {
      var list := GetShipsList(c);
      n := |list|;
    }

    /**
     * `createShip`: a payload that fails any check is a bad request and
     * the store is untouched. Otherwise an absent used flag becomes false,
     * the rating is computed from the speed as given, the speed is then
     * rounded to two decimals, and the ship is saved under a new id.
     */
    method CreateShip(ship: Option<ShipData>) returns (r: Response)
      requires Valid()
      modifies this
      ensures Valid()
      ensures !AcceptableForCreate(ship, yearOf) ==>
        r == Response(BadRequest, None) && ships == old(ships) && nextId == old(nextId)
      ensures AcceptableForCreate(ship, yearOf) ==>
        var p := ship.value;
        var isUsed := p.isUsed.GetOr(false);
        && r.status == Ok
        && r.body == Some(Ship(old(nextId), p.name.value, p.planet.value, p.shipType.value,
                               p.prodDate.value, isUsed, Round2(p.speed.value), p.crewSize.value,
                               ComputeRating(p.speed.value, isUsed, yearOf(p.prodDate.value))))
        && ships == old(ships) + [r.body.value]
        && nextId == old(nextId) + 1
        && FindById(ships, old(nextId)) == r.body
    {
      if ship.None? ||
         ship.value.name.None? ||
         |ship.value.name.value| == 0 ||
         Utf16Length(ship.value.name.value) > 50 ||
         ship.value.planet.None? ||
         |ship.value.planet.value| == 0 ||
         Utf16Length(ship.value.planet.value) > 50 ||
         ship.value.shipType.None? ||
         ship.value.prodDate.None? ||
         yearOf(ship.value.prodDate.value) < 2800 ||
         yearOf(ship.value.prodDate.value) > 3019 ||
         ship.value.speed.None? ||
         ship.value.speed.value < 0.01 ||
         ship.value.speed.value > 0.99 ||
         ship.value.crewSize.None? ||
         ship.value.crewSize.value < 1 ||
         ship.value.crewSize.value > 9999
      {
        return Response(BadRequest, None);
      }
      var p := ship.value;
      var isUsed := p.isUsed.GetOr(false);
      var rating := ComputeRating(p.speed.value, isUsed, yearOf(p.prodDate.value));
      var speed := Round2(p.speed.value);
      Round2KeepsSpeed(p.speed.value);
      var saved := Ship(nextId, p.name.value, p.planet.value, p.shipType.value,
                        p.prodDate.value, isUsed, speed, p.crewSize.value, rating);
      AppendKeepsStore(ships, nextId, yearOf, saved);
      FindAfterAppend(ships, saved);
      ships := ships + [saved];
      nextId := nextId + 1;
      r := Response(Ok, Some(saved));
    }

    /** `getShipById`: the stored ship with that id, or not found. */
    method GetShipById(id: int) returns (r: Response)
      ensures !HasId(ships, id) ==> r == Response(NotFound, None)
      ensures HasId(ships, id) ==>
        r == Response(Ok, FindById(ships, id)) && r.body.value in ships && r.body.value.id == id
    {
      var found := FindById(ships, id);
      if found.None? {
        return Response(NotFound, None);
      }
      r := Response(Ok, found);
    }

    /**
     * `deleteShipById`: not found leaves the store as it is; otherwise the
     * record with that id is removed and the others keep their order.
     */
    method DeleteShipById(id: int) returns (r: Response)
      requires Valid()
      modifies this
      ensures Valid() && nextId == old(nextId)
      ensures !HasId(old(ships), id) ==> r == Response(NotFound, None) && ships == old(ships)
      ensures HasId(old(ships), id) ==>
        && r == Response(Ok, None)
        && ships == WithoutId(old(ships), id)
        && |ships| == |old(ships)| - 1
        && FindById(ships, id).None?
    {
      if FindById(ships, id).None? {
        return Response(NotFound, None);
      }
      DeleteKeepsStore(ships, nextId, yearOf, id);
      DeleteRemovesOne(ships, id);
      FindAfterDelete(ships, id);
      ships := WithoutId(ships, id);
      r := Response(Ok, None);
    }

    /**
     * The field-by-field part of `updateShip`: each field the payload
     * supplies is checked, and a failing one rejects the whole update;
     * otherwise it is copied onto the stored ship, and an omitted used flag
     * becomes false.
     */
    method PatchShip(stored: Ship, p: ShipData) returns (r: Option<Ship>)
      ensures r.None? <==> !UpdateFieldsOk(p, yearOf)
      ensures r.Some? ==> r.value == Overlay(stored, p)
    {
      var s := stored;
      if p.name.Some? && (Utf16Length(p.name.value) > 50 || |p.name.value| == 0) {
        return None;
      }
      s := s.(name := p.name.GetOr(s.name));
      if p.planet.Some? && (Utf16Length(p.planet.value) > 50 || |p.planet.value| == 0) {
        return None;
      }
      s := s.(planet := p.planet.GetOr(s.planet));
      s := s.(shipType := p.shipType.GetOr(s.shipType));
      if p.prodDate.Some? && (yearOf(p.prodDate.value) < 2800 || yearOf(p.prodDate.value) > 3019) {
        return None;
      }
      s := s.(prodDate := p.prodDate.GetOr(s.prodDate));
      s := s.(isUsed := p.isUsed.GetOr(false));
      if p.speed.Some? && (p.speed.value < 0.01 || p.speed.value > 0.99) {
        return None;
      }
      s := s.(speed := p.speed.GetOr(s.speed));
      if p.crewSize.Some? && (p.crewSize.value < 1 || p.crewSize.value > 9999) {
        return None;
      }
      s := s.(crewSize := p.crewSize.GetOr(s.crewSize));
      r := Some(s);
    }

    /**
     * `updateShip`, with its outcomes in the source's order: an empty payload
     * for a stored id returns that ship unchanged; an absent id is not found;
     * a null payload, or a supplied field that fails its check, is a bad
     * request; otherwise the merged ship, with its rating recomputed,
     * replaces the stored one. The store changes only in that last case.
     */
    method UpdateShip(ship: Option<ShipData>, id: int) returns (r: Response)
      requires Valid()
      modifies this
      ensures Valid() && nextId == old(nextId)
      ensures !HasId(old(ships), id) ==> r == Response(NotFound, None) && ships == old(ships)
      ensures HasId(old(ships), id) ==>
        var stored := FindById(old(ships), id).value;
        assert ValidRecord(stored, yearOf) by { StoredIsValid(old(ships), old(nextId), yearOf, stored); }
        if ship.Some? && IsEmptyPayload(ship.value) then
          r == Response(Ok, Some(stored)) && ships == old(ships)
        else if ship.None? || !UpdateFieldsOk(ship.value, yearOf) then
          r == Response(BadRequest, None) && ships == old(ships)
        else
          r == Response(Ok, Some(Merge(stored, ship.value, yearOf)))
          && ships == ReplaceById(old(ships), Merge(stored, ship.value, yearOf))
          && FindById(ships, id) == r.body
    {
      var found := FindById(ships, id);
      if ship.Some? && IsEmptyPayload(ship.value) && found.Some? {
        return Response(Ok, found);
      }
      if found.None? {
        return Response(NotFound, None);
      }
      var current := GetShipById(id);
      if ship.None? || current.body.None? {
        return Response(BadRequest, None);
      }
      var stored := current.body.value;
      StoredIsValid(ships, nextId, yearOf, stored);
      var merged := PatchShip(stored, ship.value);
      if merged.None? {
        return Response(BadRequest, None);
      }
      var s := merged.value;
      s := s.(rating := ComputeRating(s.speed, s.isUsed, yearOf(s.prodDate)));
      ReplaceKeepsStore(ships, nextId, yearOf, s);
      FindAfterReplace(ships, s);
      ships := ReplaceById(ships, s);
      r := Response(Ok, Some(s));
    }
  }
}
