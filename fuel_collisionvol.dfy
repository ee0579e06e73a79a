/**
 * `CollisionVolZ` (fuel_fmt/collisionvol.rs): the FUEL collision volume has
 * the same fields, in the same order, as the WALL-E one, so it is read with
 * the same schema: exact, 252 bytes. It defines no reference extractor; it is
 * paired with an `ObjectZ` header.
 */
module FuelCollisionVol {
  import opened Bytes
  import opened Schemas
  import opened Objects
  import opened WalleCollisionVol

  /** `CollisionVolObjectType` read as (header, body): the header, then the body; either failure aborts. */
  function ExtractCollisionVol(h: OpaqueHeader, header: seq<u8>, data: seq<u8>): (r: Result<(seq<u8>, CollisionVolZ)>)
    ensures r.Ok? <==> h.decode(header).Ok? && CollisionVolZSchema().decode(data).Ok?
    ensures r.Ok? ==> |data| == 252 && r.value.1 == CollisionVolZSchema().decode(data).value
  {
    var r := Extract(h, CollisionVolZSchema(), header, data);
    if r.Ok? then CollisionVolZSize(data, r.value.1); r else r
  }
}
