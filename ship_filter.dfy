/**
 * The filter engine: the twelve optional criteria of a ship query and the
 * set of ships they select.
 */
module ShipFilter {
  import opened Wrappers
  import opened ShipModel
  import opened Streams

  /**
   * Java's `String.contains`: `sub` occurs in `s` as a contiguous block,
   * compared character by character (so case-sensitive).
   */
  predicate Contains(s: string, sub: string)
    decreases |s|
  {
    sub <= s || (|s| > 0 && Contains(s[1..], sub))
  }

  /** `Contains` holds exactly when `sub` is a prefix of some suffix of `s`. */
  lemma {:induction false} ContainsIff(s: string, sub: string)
    ensures Contains(s, sub) <==> exists i :: 0 <= i <= |s| && sub <= s[i..]
    decreases |s|
  {
    if |s| > 0 {
      ContainsIff(s[1..], sub);
      if sub <= s {
        assert s[0..] == s;
      } else if Contains(s, sub) {
        var i :| 0 <= i <= |s[1..]| && sub <= s[1..][i..];
        assert s[1..][i..] == s[i + 1..];
      }
      if exists i :: 0 <= i <= |s| && sub <= s[i..] {
        var i :| 0 <= i <= |s| && sub <= s[i..];
        if i > 0 {
          assert s[1..][i - 1..] == s[i..];
        } else {
          assert s[i..] == s;
        }
      }
    } else {
      if exists i :: 0 <= i <= |s| && sub <= s[i..] {
        var i :| 0 <= i <= |s| && sub <= s[i..];
        assert s[i..] == s;
      }
    }
  }

  /**
   * The optional criteria of `getShipsList` and `getShipsCount`, in the order
   * the service applies them. `None` stands for a null request parameter.
   */
  datatype Criteria = Criteria(
    name: Option<string>,
    planet: Option<string>,
    shipType: Option<ShipType>,
    after: Option<int>,
    before: Option<int>,
    isUsed: Option<bool>,
    minSpeed: Option<real>,
    maxSpeed: Option<real>,
    minCrewSize: Option<int>,
    maxCrewSize: Option<int>,
    minRating: Option<real>,
    maxRating: Option<real>)

  /** A query with every parameter null. */
  const NoCriteria := Criteria(None, None, None, None, None, None, None, None, None, None, None, None)

  /**
   * The per-criterion tests, one for each filter step of the service: the
   * text criteria are substrings of the name and planet, type and used flag
   * are equal, the production instant is strictly after `after` and strictly
   * before `before`, and speed, crew size and rating lie within inclusive
   * bounds.
   */
  function NameContains(name: string): Ship -> bool { (x: Ship) => Contains(x.name, name) }
  function PlanetContains(planet: string): Ship -> bool { (x: Ship) => Contains(x.planet, planet) }
  function TypeIs(shipType: ShipType): Ship -> bool { (x: Ship) => x.shipType == shipType }
  function MadeAfter(after: int): Ship -> bool { (x: Ship) => x.prodDate > after }
  function MadeBefore(before: int): Ship -> bool { (x: Ship) => x.prodDate < before }
  function UsedIs(isUsed: bool): Ship -> bool { (x: Ship) => x.isUsed == isUsed }
  function SpeedAtLeast(minSpeed: real): Ship -> bool { (x: Ship) => x.speed >= minSpeed }
  function SpeedAtMost(maxSpeed: real): Ship -> bool { (x: Ship) => x.speed <= maxSpeed }
  function CrewAtLeast(minCrewSize: int): Ship -> bool { (x: Ship) => x.crewSize >= minCrewSize }
  function CrewAtMost(maxCrewSize: int): Ship -> bool { (x: Ship) => x.crewSize <= maxCrewSize }
  function RatingAtLeast(minRating: real): Ship -> bool { (x: Ship) => x.rating >= minRating }
  function RatingAtMost(maxRating: real): Ship -> bool { (x: Ship) => x.rating <= maxRating }

  /** A ship satisfies every criterion that is set. */
  predicate Matches(x: Ship, c: Criteria) {
    && (c.name.None? || NameContains(c.name.value)(x))
    && (c.planet.None? || PlanetContains(c.planet.value)(x))
    && (c.shipType.None? || TypeIs(c.shipType.value)(x))
    && (c.after.None? || MadeAfter(c.after.value)(x))
    && (c.before.None? || MadeBefore(c.before.value)(x))
    && (c.isUsed.None? || UsedIs(c.isUsed.value)(x))
    && (c.minSpeed.None? || SpeedAtLeast(c.minSpeed.value)(x))
    && (c.maxSpeed.None? || SpeedAtMost(c.maxSpeed.value)(x))
    && (c.minCrewSize.None? || CrewAtLeast(c.minCrewSize.value)(x))
    && (c.maxCrewSize.None? || CrewAtMost(c.maxCrewSize.value)(x))
    && (c.minRating.None? || RatingAtLeast(c.minRating.value)(x))
    && (c.maxRating.None? || RatingAtMost(c.maxRating.value)(x))
  }

  /** `Matches` as a test that a stream filter can take. */
  function Matcher(c: Criteria): Ship -> bool {
    (x: Ship) => Matches(x, c)
  }

  /** The ships of `s` that satisfy every criterion of `c`, in their order in `s`. */
  function Query(s: seq<Ship>, c: Criteria): seq<Ship> {
    Filter(s, Matcher(c))
  }

  /**
   * The selected ships are an order-preserving subsequence of `s`, and a ship
   * of `s` is selected if and only if it satisfies every criterion that is set.
   */
  lemma QuerySelects(s: seq<Ship>, c: Criteria) returns (idx: seq<int>)
    ensures EmbedsAt(Query(s, c), s, idx)
    ensures forall j :: 0 <= j < |s| ==> (j in idx <==> Matches(s[j], c))
  {
    idx := FilterPositions(s, Matcher(c));
    FilterMembers(s, Matcher(c));
    forall j | 0 <= j < |s| && j in idx ensures Matches(s[j], c) {
      var k :| 0 <= k < |idx| && idx[k] == j;
      assert Query(s, c)[k] == s[j];
    }
  }

  /** A query whose parameters are all null returns every ship, in order. */
  lemma QueryNoCriteria(s: seq<Ship>)
    ensures Query(s, NoCriteria) == s
  {
    FilterKeepsAll(s, Matcher(NoCriteria));
  }

  /**
   * Narrowing a query's result by one more test is the query whose criteria
   * are the old ones and that test.
   */
  lemma NarrowQuery(s: seq<Ship>, c: Criteria, c': Criteria, keep: Ship -> bool)
    requires forall x :: Matches(x, c') == (Matches(x, c) && keep(x))
    ensures Filter(Query(s, c), keep) == Query(s, c')
  {
    FilterFilter(s, Matcher(c), keep, Matcher(c'));
  }

  /**
   * One step of the service's filter chain: a criterion that is set narrows
   * the list by its test, a null one leaves the list as it is.
   */
  function Narrow<T>(list: seq<Ship>, criterion: Option<T>, test: T -> (Ship -> bool)): seq<Ship> {
    if criterion.Some? then Filter(list, test(criterion.value)) else list
  }

  /*
   * One filter step per criterion: setting a criterion that a query leaves
   * unset narrows its result by that criterion's test, and leaving it null
   * changes nothing.
   */

  lemma NarrowByName(s: seq<Ship>, a: Criteria, name: Option<string>)
    requires a.name.None?
    ensures Narrow(Query(s, a), name, NameContains) == Query(s, a.(name := name))
  {
    if name.Some? {
      NarrowQuery(s, a, a.(name := name), NameContains(name.value));
    } else {
      assert a.(name := name) == a;
    }
  }

  lemma NarrowByPlanet(s: seq<Ship>, a: Criteria, planet: Option<string>)
    requires a.planet.None?
    ensures Narrow(Query(s, a), planet, PlanetContains) == Query(s, a.(planet := planet))
  {
    if planet.Some? {
      NarrowQuery(s, a, a.(planet := planet), PlanetContains(planet.value));
    } else {
      assert a.(planet := planet) == a;
    }
  }

  lemma NarrowByType(s: seq<Ship>, a: Criteria, shipType: Option<ShipType>)
    requires a.shipType.None?
    ensures Narrow(Query(s, a), shipType, TypeIs) == Query(s, a.(shipType := shipType))
  {
    if shipType.Some? {
      NarrowQuery(s, a, a.(shipType := shipType), TypeIs(shipType.value));
    } else {
      assert a.(shipType := shipType) == a;
    }
  }

  lemma NarrowByAfter(s: seq<Ship>, a: Criteria, after: Option<int>)
    requires a.after.None?
    ensures Narrow(Query(s, a), after, MadeAfter) == Query(s, a.(after := after))
  {
    if after.Some? {
      NarrowQuery(s, a, a.(after := after), MadeAfter(after.value));
    } else {
      assert a.(after := after) == a;
    }
  }

  lemma NarrowByBefore(s: seq<Ship>, a: Criteria, before: Option<int>)
    requires a.before.None?
    ensures Narrow(Query(s, a), before, MadeBefore) == Query(s, a.(before := before))
  {
    if before.Some? {
      NarrowQuery(s, a, a.(before := before), MadeBefore(before.value));
    } else {
      assert a.(before := before) == a;
    }
  }

  lemma NarrowByUsed(s: seq<Ship>, a: Criteria, isUsed: Option<bool>)
    requires a.isUsed.None?
    ensures Narrow(Query(s, a), isUsed, UsedIs) == Query(s, a.(isUsed := isUsed))
  {
    if isUsed.Some? {
      NarrowQuery(s, a, a.(isUsed := isUsed), UsedIs(isUsed.value));
    } else {
      assert a.(isUsed := isUsed) == a;
    }
  }

  lemma NarrowByMinSpeed(s: seq<Ship>, a: Criteria, minSpeed: Option<real>)
    requires a.minSpeed.None?
    ensures Narrow(Query(s, a), minSpeed, SpeedAtLeast) == Query(s, a.(minSpeed := minSpeed))
  {
    if minSpeed.Some? {
      NarrowQuery(s, a, a.(minSpeed := minSpeed), SpeedAtLeast(minSpeed.value));
    } else {
      assert a.(minSpeed := minSpeed) == a;
    }
  }

  lemma NarrowByMaxSpeed(s: seq<Ship>, a: Criteria, maxSpeed: Option<real>)
    requires a.maxSpeed.None?
    ensures Narrow(Query(s, a), maxSpeed, SpeedAtMost) == Query(s, a.(maxSpeed := maxSpeed))
  {
    if maxSpeed.Some? {
      NarrowQuery(s, a, a.(maxSpeed := maxSpeed), SpeedAtMost(maxSpeed.value));
    } else {
      assert a.(maxSpeed := maxSpeed) == a;
    }
  }

  lemma NarrowByMinCrewSize(s: seq<Ship>, a: Criteria, minCrewSize: Option<int>)
    requires a.minCrewSize.None?
    ensures Narrow(Query(s, a), minCrewSize, CrewAtLeast) == Query(s, a.(minCrewSize := minCrewSize))
  {
    if minCrewSize.Some? {
      NarrowQuery(s, a, a.(minCrewSize := minCrewSize), CrewAtLeast(minCrewSize.value));
    } else {
      assert a.(minCrewSize := minCrewSize) == a;
    }
  }

  lemma NarrowByMaxCrewSize(s: seq<Ship>, a: Criteria, maxCrewSize: Option<int>)
    requires a.maxCrewSize.None?
    ensures Narrow(Query(s, a), maxCrewSize, CrewAtMost) == Query(s, a.(maxCrewSize := maxCrewSize))
  {
    if maxCrewSize.Some? {
      NarrowQuery(s, a, a.(maxCrewSize := maxCrewSize), CrewAtMost(maxCrewSize.value));
    } else {
      assert a.(maxCrewSize := maxCrewSize) == a;
    }
  }

  lemma NarrowByMinRating(s: seq<Ship>, a: Criteria, minRating: Option<real>)
    requires a.minRating.None?
    ensures Narrow(Query(s, a), minRating, RatingAtLeast) == Query(s, a.(minRating := minRating))
  {
    if minRating.Some? {
      NarrowQuery(s, a, a.(minRating := minRating), RatingAtLeast(minRating.value));
    } else {
      assert a.(minRating := minRating) == a;
    }
  }

  lemma NarrowByMaxRating(s: seq<Ship>, a: Criteria, maxRating: Option<real>)
    requires a.maxRating.None?
    ensures Narrow(Query(s, a), maxRating, RatingAtMost) == Query(s, a.(maxRating := maxRating))
  {
    if maxRating.Some? {
      NarrowQuery(s, a, a.(maxRating := maxRating), RatingAtMost(maxRating.value));
    } else {
      assert a.(maxRating := maxRating) == a;
    }
  }

  /**
   * Applying two queries one after the other selects the ships that satisfy
   * both, whichever is applied first.
   */
  lemma QueryCommutes(s: seq<Ship>, c1: Criteria, c2: Criteria)
    ensures Query(Query(s, c1), c2) == Query(Query(s, c2), c1)
    ensures forall x :: x in Query(Query(s, c1), c2) <==> x in s && Matches(x, c1) && Matches(x, c2)
  {
    var both := (x: Ship) => Matches(x, c1) && Matches(x, c2);
    FilterFilter(s, Matcher(c1), Matcher(c2), both);
    FilterFilter(s, Matcher(c2), Matcher(c1), both);
    FilterMembers(s, both);
    forall x ensures x in Filter(s, both) <==> x in s && both(x) {
      if x in s && both(x) {
        var j :| 0 <= j < |s| && s[j] == x;
      }
    }
  }
}
