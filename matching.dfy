/**
 * `calculateNearDrivers`: the drivers of the registry within the nearby
 * radius of a rider, in registry order, each reported with its stored
 * identity, position and rotation and with its distance to the rider.
 */
module Matching {
  import opened Options
  import opened Tables
  import opened Geo

  /** A `drivers[socketId]` entry: `{driverID, driverLocation, rotation}`. */
  datatype Driver = Driver(driverID: string, driverLocation: Coord, rotation: int)

  /** One element of a `nearDrivers` payload. */
  datatype NearDriver = NearDriver(driverID: string, driverLocation: Coord, distance: int, rotation: int)

  predicate IsNear(dist: DistanceFn, loc: Coord, d: Driver) {
    dist(loc, d.driverLocation) < NearRadius
  }

  /** The payload entry for driver `d` seen from `loc`. */
  function Offer(dist: DistanceFn, loc: Coord, d: Driver): NearDriver {
    NearDriver(d.driverID, d.driverLocation, dist(loc, d.driverLocation), d.rotation)
  }

  /** True when payload entry `e` carries exactly driver `d`'s stored record. */
  predicate Describes(e: NearDriver, d: Driver) {
    e.driverID == d.driverID && e.driverLocation == d.driverLocation && e.rotation == d.rotation
  }

  /** `drivers[socket.id]?.driverLocation`. */
  function PreviousLocation(drivers: Table<Driver>, sid: SocketId): (r: Option<Coord>)
    ensures r.Some? <==> sid in drivers.values
    ensures r.Some? ==> r.value == drivers.values[sid].driverLocation
  {
    match drivers.Get(sid)
    case None => None
    case Some(d) => Some(d.driverLocation)
  }

  /** The near drivers among those stored under the keys `ks`, visited in
      the order of `ks`. */
  function NearOver(dist: DistanceFn, loc: Coord, ks: seq<SocketId>, registry: map<SocketId, Driver>): (r: seq<NearDriver>)
    requires forall k :: k in ks ==> k in registry
    ensures |r| <= |ks|
    ensures forall e :: e in r ==> e.distance < NearRadius && e.distance == dist(loc, e.driverLocation)
  {
    if ks == [] then []
    else
      var rest := NearOver(dist, loc, ks[..|ks| - 1], registry);
      var d := registry[ks[|ks| - 1]];
      if IsNear(dist, loc, d) then rest + [Offer(dist, loc, d)] else rest
  }

  /** `calculateNearDrivers(loc)` against the driver table `drivers`. */
  function NearDrivers(dist: DistanceFn, loc: Coord, drivers: Table<Driver>): (r: seq<NearDriver>)
    requires drivers.Valid()
    ensures |r| <= |drivers.keys|
  {
    NearOver(dist, loc, drivers.keys, drivers.values)
  }

  /** An entry is in the result exactly when it is the offer of some stored
      driver strictly inside the radius. */
  lemma {:induction false} NearMember(dist: DistanceFn, loc: Coord, ks: seq<SocketId>, registry: map<SocketId, Driver>, e: NearDriver)
    requires forall k :: k in ks ==> k in registry
    ensures e in NearOver(dist, loc, ks, registry) <==>
      exists k :: k in ks && IsNear(dist, loc, registry[k]) && e == Offer(dist, loc, registry[k])
  {
    if ks != [] {
      var init, last := ks[..|ks| - 1], ks[|ks| - 1];
      assert ks == init + [last];
      NearMember(dist, loc, init, registry, e);
      if e in NearOver(dist, loc, ks, registry) && e !in NearOver(dist, loc, init, registry) {
        assert last in ks;
      }
      if exists k :: k in ks && IsNear(dist, loc, registry[k]) && e == Offer(dist, loc, registry[k]) {
        var k :| k in ks && IsNear(dist, loc, registry[k]) && e == Offer(dist, loc, registry[k]);
        if k != last {
          assert k in init;
        }
      }
    }
  }

  /** Filtering a concatenation is the concatenation of the filtered parts:
      the result follows the registry order. */
  lemma {:induction false} NearAppend(dist: DistanceFn, loc: Coord, ks1: seq<SocketId>, ks2: seq<SocketId>, registry: map<SocketId, Driver>)
    requires forall k :: k in ks1 ==> k in registry
    requires forall k :: k in ks2 ==> k in registry
    ensures NearOver(dist, loc, ks1 + ks2, registry) == NearOver(dist, loc, ks1, registry) + NearOver(dist, loc, ks2, registry)
  {
    if ks2 == [] {
      assert ks1 + ks2 == ks1;
    } else {
      var init := ks2[..|ks2| - 1];
      assert (ks1 + ks2)[..|ks1 + ks2| - 1] == ks1 + init;
      NearAppend(dist, loc, ks1, init, registry);
    }
  }

  /** Two near drivers appear in the result in the order of their keys. */
  lemma {:induction false} NearOrdered(dist: DistanceFn, loc: Coord, ks: seq<SocketId>, registry: map<SocketId, Driver>, i: nat, j: nat)
    requires forall k :: k in ks ==> k in registry
    requires i < j < |ks|
    requires IsNear(dist, loc, registry[ks[i]]) && IsNear(dist, loc, registry[ks[j]])
    ensures exists a, b ::
              && 0 <= a < b < |NearOver(dist, loc, ks, registry)|
              && NearOver(dist, loc, ks, registry)[a] == Offer(dist, loc, registry[ks[i]])
              && NearOver(dist, loc, ks, registry)[b] == Offer(dist, loc, registry[ks[j]])
  {
    var r := NearOver(dist, loc, ks, registry);
    var n := |ks| - 1;
    var init := ks[..n];
    var rest := NearOver(dist, loc, init, registry);
    assert r[..|rest|] == rest;
    if j == n {
      assert ks[i] == init[i];
      NearMember(dist, loc, init, registry, Offer(dist, loc, registry[ks[i]]));
      var a :| 0 <= a < |rest| && rest[a] == Offer(dist, loc, registry[ks[i]]);
      assert r[a] == rest[a];
      assert r[|rest|] == Offer(dist, loc, registry[ks[j]]);
    } else {
      assert ks[i] == init[i] && ks[j] == init[j];
      NearOrdered(dist, loc, init, registry, i, j);
      var a, b :| 0 <= a < b < |rest| &&
        rest[a] == Offer(dist, loc, registry[init[i]]) && rest[b] == Offer(dist, loc, registry[init[j]]);
      assert r[a] == rest[a] && r[b] == rest[b];
    }
  }

  /** A driver just written under `sid` is offered to a rider exactly when it
      is strictly inside that rider's radius, with the rotation just stored. */
  lemma UpdatedDriverVisible(dist: DistanceFn, loc: Coord, drivers: Table<Driver>, sid: SocketId, d: Driver)
    requires drivers.Valid()
    ensures Offer(dist, loc, d) in NearDrivers(dist, loc, drivers.Set(sid, d)) <==> IsNear(dist, loc, d)
  {
    var t := drivers.Set(sid, d);
    NearMember(dist, loc, t.keys, t.values, Offer(dist, loc, d));
    assert sid in t.keys && t.values[sid] == d;
  }
}
