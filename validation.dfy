/**
 * The validator: the fixed domain constraints on a ship's fields, and what
 * create and update demand of a request payload.
 */
module Validation {
  import opened Wrappers
  import opened ShipModel

  const MaxTextLength := 50
  const MinYear := 2800
  const MaxYear := 3019
  const MinSpeed: real := 0.01
  const MaxSpeed: real := 0.99
  const MinCrewSize := 1
  const MaxCrewSize := 9999

  /** The first code point outside the Basic Multilingual Plane. */
  const FirstSupplementary: char := '\U{10000}'

  /**
   * Java's `String.length()`: the number of UTF-16 code units. A character
   * below U+10000 takes one unit, any other character a surrogate pair.
   */
  function Utf16Length(s: string): (n: nat)
    ensures |s| <= n <= 2 * |s|
    ensures n == 0 <==> s == []
  {
    if s == [] then 0
    else (if s[0] < FirstSupplementary then 1 else 2) + Utf16Length(s[1..])
  }

  /** A text of Basic Multilingual Plane characters is as long in Java as it is here. */
  lemma {:induction false} Utf16LengthBmp(s: string)
    requires forall i :: 0 <= i < |s| ==> s[i] < FirstSupplementary
    ensures Utf16Length(s) == |s|
  {
    if s != [] {
      Utf16LengthBmp(s[1..]);
    }
  }

  /** A text of characters outside that plane is twice as long in Java. */
  lemma {:induction false} Utf16LengthSupplementary(s: string)
    requires forall i :: 0 <= i < |s| ==> s[i] >= FirstSupplementary
    ensures Utf16Length(s) == 2 * |s|
  {
    if s != [] {
      Utf16LengthSupplementary(s[1..]);
    }
  }

  /** A name or planet is non-empty and at most 50 UTF-16 code units long. */
  predicate TextOk(s: string) {
    0 < Utf16Length(s) <= MaxTextLength
  }

  /** A production year lies in [2800, 3019]. */
  predicate YearOk(year: int) {
    MinYear <= year <= MaxYear
  }

  /** A speed lies in [0.01, 0.99]. */
  predicate SpeedOk(speed: real) {
    MinSpeed <= speed <= MaxSpeed
  }

  /** A crew size lies in [1, 9999]. */
  predicate CrewSizeOk(crewSize: int) {
    MinCrewSize <= crewSize <= MaxCrewSize
  }

  /**
   * The record invariant every stored ship satisfies: its fields lie in their
   * ranges, the year being that of its production instant under `yearOf`.
   */
  predicate ValidRecord(s: Ship, yearOf: int -> int) {
    && TextOk(s.name)
    && TextOk(s.planet)
    && YearOk(yearOf(s.prodDate))
    && SpeedOk(s.speed)
    && CrewSizeOk(s.crewSize)
  }

  /**
   * What `createShip` accepts: a non-null payload with a valid name and
   * planet, a type, a production date of a valid year, a valid speed and a
   * valid crew size. The used flag may be absent.
   */
  predicate AcceptableForCreate(ship: Option<ShipData>, yearOf: int -> int) {
    && ship.Some?
    && ship.value.name.Some? && TextOk(ship.value.name.value)
    && ship.value.planet.Some? && TextOk(ship.value.planet.value)
    && ship.value.shipType.Some?
    && ship.value.prodDate.Some? && YearOk(yearOf(ship.value.prodDate.value))
    && ship.value.speed.Some? && SpeedOk(ship.value.speed.value)
    && ship.value.crewSize.Some? && CrewSizeOk(ship.value.crewSize.value)
  }

  /** An update payload that supplies none of the seven fields the service reads. */
  predicate IsEmptyPayload(p: ShipData) {
    && p.name.None? && p.planet.None? && p.isUsed.None? && p.shipType.None?
    && p.prodDate.None? && p.speed.None? && p.crewSize.None?
  }

  /**
   * What `updateShip` demands of the fields a payload supplies: each one that
   * is present passes its own check. The type and the used flag are not checked.
   */
  predicate UpdateFieldsOk(p: ShipData, yearOf: int -> int) {
    && (p.name.None? || TextOk(p.name.value))
    && (p.planet.None? || TextOk(p.planet.value))
    && (p.prodDate.None? || YearOk(yearOf(p.prodDate.value)))
    && (p.speed.None? || SpeedOk(p.speed.value))
    && (p.crewSize.None? || CrewSizeOk(p.crewSize.value))
  }

  /**
   * A payload that create accepts passes every check of update, and a missing
   * or out-of-range field is exactly what create rejects; an empty payload is
   * never acceptable for create.
   */
  lemma CreateStricterThanUpdate(ship: Option<ShipData>, yearOf: int -> int)
    ensures AcceptableForCreate(ship, yearOf) ==> UpdateFieldsOk(ship.value, yearOf)
    ensures ship.Some? && IsEmptyPayload(ship.value) ==> !AcceptableForCreate(ship, yearOf)
  {
  }

  /** The boundary values: both ends of each range are accepted and the values just outside are not. */
  lemma Boundaries()
    ensures SpeedOk(0.01) && SpeedOk(0.99) && !SpeedOk(0.0) && !SpeedOk(1.0)
    ensures YearOk(2800) && YearOk(3019) && !YearOk(2799) && !YearOk(3020)
    ensures CrewSizeOk(1) && CrewSizeOk(9999) && !CrewSizeOk(0) && !CrewSizeOk(10000)
    ensures forall s: string :: Utf16Length(s) == 50 ==> TextOk(s)
    ensures forall s: string :: Utf16Length(s) == 51 || s == [] ==> !TextOk(s)
  {
  }

  /**
   * Text length is counted in UTF-16 code units: 25 rocket characters
   * (U+1F680) are 50 units and pass, 26 are 52 units and fail, although
   * 26 is below 50.
   */
  lemma SupplementaryText()
    ensures TextOk(seq(25, _ => '\U{1F680}'))
    ensures !TextOk(seq(26, _ => '\U{1F680}'))
    ensures TextOk(seq(50, _ => 'a')) && !TextOk(seq(51, _ => 'a'))
  {
    Utf16LengthSupplementary(seq(25, _ => '\U{1F680}'));
    Utf16LengthSupplementary(seq(26, _ => '\U{1F680}'));
    Utf16LengthBmp(seq(50, _ => 'a'));
    Utf16LengthBmp(seq(51, _ => 'a'));
  }
}
