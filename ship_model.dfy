/**
 * The entities the ship service works on. The Java types `Ship`, `ShipType`,
 * `ShipOrder` and the Spring `ResponseEntity` are stand-ins here: a ship is an
 * immutable record value, a request payload is the same record with every
 * field nullable, and a response is a status with an optional body.
 */
module ShipModel {
  import opened Wrappers

  /** The category of a ship: a fixed enumerated set. */
  datatype ShipType = Transport | Military | Merchant

  /** The four fields a ship list can be ordered by. */
  datatype ShipOrder = Id | Speed | ProdDate | Rating

  /**
   * A persisted ship. `prodDate` is the production instant in milliseconds
   * since the epoch (a `java.util.Date`); `speed` and `rating` are Java doubles,
   * modelled as reals.
   */
  datatype Ship = Ship(
    id: int,
    name: string,
    planet: string,
    shipType: ShipType,
    prodDate: int,
    isUsed: bool,
    speed: real,
    crewSize: int,
    rating: real)

  /**
   * A ship as it arrives in a create or update request: every field the
   * service inspects may be null. The service never reads a caller's id or rating.
   */
  datatype ShipData = ShipData(
    name: Option<string>,
    planet: Option<string>,
    shipType: Option<ShipType>,
    prodDate: Option<int>,
    isUsed: Option<bool>,
    speed: Option<real>,
    crewSize: Option<int>)

  /** The HTTP statuses the service answers with. */
  datatype Status = Ok | BadRequest | NotFound

  /** A `ResponseEntity<Ship>`: a status and, possibly, a ship as body. */
  datatype Response = Response(status: Status, body: Option<Ship>)

  /** True when no two ships of `s` share an id. */
  predicate UniqueIds(s: seq<Ship>) {
    forall i, j :: 0 <= i < j < |s| ==> s[i].id != s[j].id
  }

  /** True when some ship of `s` has the given id. */
  predicate HasId(s: seq<Ship>, id: int) {
    exists i :: 0 <= i < |s| && s[i].id == id
  }
}
