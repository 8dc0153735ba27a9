/**
 * The socket.io connection handlers of the server: the process-wide
 * `users` and `drivers` dictionaries and the `userLocation`,
 * `driverLocation` and `disconnect` events that update them and push
 * `nearDrivers` payloads to riders. Each handler runs to completion on the
 * event loop, so each is one method; delivery is an append to `outbox`.
 */
module Server {
  import opened Options
  import opened Tables
  import opened Geo
  import opened Matching

  /** A `users[socketId]` entry: `{userID, userLocation}`. */
  datatype Rider = Rider(userID: string, userLocation: Coord)

  /** A `nearDrivers` event sent to the connection `to`. */
  datatype Push = Push(to: SocketId, nearDrivers: seq<NearDriver>)

  /** One fresh `nearDrivers` push per rider key of `us`, in that order,
      each computed from the same driver table. */
  function FanOutOver(dist: DistanceFn, us: seq<SocketId>, riders: map<SocketId, Rider>, drivers: Table<Driver>): (r: seq<Push>)
    requires forall k :: k in us ==> k in riders
    requires drivers.Valid()
    ensures |r| == |us|
    ensures forall i :: 0 <= i < |us| ==>
      r[i] == Push(us[i], NearDrivers(dist, riders[us[i]].userLocation, drivers))
  {
    if us == [] then []
    else
      var last := us[|us| - 1];
      FanOutOver(dist, us[..|us| - 1], riders, drivers) + [Push(last, NearDrivers(dist, riders[last].userLocation, drivers))]
  }

  /** The pushes of the `for (const userId in users)` loop. */
  function FanOut(dist: DistanceFn, users: Table<Rider>, drivers: Table<Driver>): (r: seq<Push>)
    requires users.Valid() && drivers.Valid()
    ensures |r| == |users.keys|
  {
    FanOutOver(dist, users.keys, users.values, drivers)
  }

  /** Every registered rider gets exactly one push of the fan-out, and no
      other connection gets any. */
  lemma FanOutOncePerRider(dist: DistanceFn, users: Table<Rider>, drivers: Table<Driver>, sid: SocketId)
    requires users.Valid() && drivers.Valid()
    ensures sid in users.values ==>
      exists i :: 0 <= i < |FanOut(dist, users, drivers)| && FanOut(dist, users, drivers)[i].to == sid &&
        forall j :: 0 <= j < |FanOut(dist, users, drivers)| && FanOut(dist, users, drivers)[j].to == sid ==> j == i
    ensures sid !in users.values ==>
      forall i :: 0 <= i < |FanOut(dist, users, drivers)| ==> FanOut(dist, users, drivers)[i].to != sid
  {
    var r := FanOut(dist, users, drivers);
    if sid in users.values {
      var i := IndexOf(users.keys, sid);
      assert r[i].to == sid;
    }
  }

  /** `e` is the offer, seen from `loc`, of a near driver registered under a
      socket other than `sid`. */
  ghost predicate OfferedByOther(dist: DistanceFn, loc: Coord, drivers: Table<Driver>, sid: SocketId, e: NearDriver) {
    exists k :: k in drivers.values && k != sid && IsNear(dist, loc, drivers.values[k]) && e == Offer(dist, loc, drivers.values[k])
  }

  /** After driver `sid` is deleted, every entry of every push of the
      following fan-out is the offer, seen from that push's rider, of a
      driver still registered under another socket and inside the radius. */
  lemma RemovedDriverAbsent(dist: DistanceFn, users: Table<Rider>, drivers: Table<Driver>, sid: SocketId)
    requires users.Valid() && drivers.Valid()
    ensures forall i, e :: 0 <= i < |users.keys| && e in FanOut(dist, users, drivers.Delete(sid))[i].nearDrivers ==>
      OfferedByOther(dist, users.values[users.keys[i]].userLocation, drivers, sid, e)
  {
    var rest := drivers.Delete(sid);
    var r := FanOut(dist, users, rest);
    forall i, e | 0 <= i < |users.keys| && e in r[i].nearDrivers
      ensures OfferedByOther(dist, users.values[users.keys[i]].userLocation, drivers, sid, e)
    {
      var loc := users.values[users.keys[i]].userLocation;
      NearMember(dist, loc, rest.keys, rest.values, e);
      var k :| k in rest.keys && IsNear(dist, loc, rest.values[k]) && e == Offer(dist, loc, rest.values[k]);
      assert rest.values[k] == drivers.values[k] && k != sid;
    }
  }

  /** After driver `sid` is deleted, no push of the following fan-out
      carries its record, as long as no other driver holds an identical one. */
  lemma RemovedRecordAbsent(dist: DistanceFn, users: Table<Rider>, drivers: Table<Driver>, sid: SocketId)
    requires users.Valid() && drivers.Valid()
    requires sid in drivers.values
    requires forall k :: k in drivers.values && k != sid ==> drivers.values[k] != drivers.values[sid]
    ensures forall i, e :: 0 <= i < |users.keys| && e in FanOut(dist, users, drivers.Delete(sid))[i].nearDrivers ==>
      !Describes(e, drivers.values[sid])
  {
    var gone := drivers.values[sid];
    var r := FanOut(dist, users, drivers.Delete(sid));
    RemovedDriverAbsent(dist, users, drivers, sid);
    forall i, e | 0 <= i < |users.keys| && e in r[i].nearDrivers
      ensures !Describes(e, gone)
    {
      var loc := users.values[users.keys[i]].userLocation;
      var k :| k in drivers.values && k != sid && IsNear(dist, loc, drivers.values[k]) &&
        e == Offer(dist, loc, drivers.values[k]);
      assert drivers.values[k] != gone;
    }
  }

  class Registry {
    /** `calculateDistance`, fixed for the life of the server. */
    const dist: DistanceFn
    /** The bearing inside `calculateHeading`, fixed for the life of the server. */
    const bearing: BearingFn
    /** `users`: rider entries keyed by socket id. */
    var users: Table<Rider>
    /** `drivers`: driver entries keyed by socket id. */
    var drivers: Table<Driver>
    /** Every `nearDrivers` event emitted so far, oldest first. */
    var outbox: seq<Push>

    ghost predicate Valid()
      reads this
    {
      users.Valid() && drivers.Valid()
    }

    /** The server at start-up: both dictionaries empty, nothing sent. */
    constructor (dist: DistanceFn, bearing: BearingFn)
      ensures Valid()
      ensures this.dist == dist && this.bearing == bearing
      ensures users == Table([], map[]) && drivers == Table([], map[]) && outbox == []
    {
      this.dist := dist;
      this.bearing := bearing;
      users := Table([], map[]);
      drivers := Table([], map[]);
      outbox := [];
    }

    /** `calculateNearDrivers(userLocation)`: walks the driver entries in
        registry order and keeps those strictly inside the radius. */
    method CalculateNearDrivers(loc: Coord) returns (near: seq<NearDriver>)
      requires Valid()
      ensures near == NearDrivers(dist, loc, drivers)
    {
      near := [];
      for i := 0 to |drivers.keys|
        invariant near == NearOver(dist, loc, drivers.keys[..i], drivers.values)
      {
        assert drivers.keys[..i + 1][..i] == drivers.keys[..i];
        var d := drivers.values[drivers.keys[i]];
        var distanceToWork := dist(loc, d.driverLocation);
        if distanceToWork < NearRadius {
          near := near + [NearDriver(d.driverID, d.driverLocation, distanceToWork, d.rotation)];
        }
      }
      assert drivers.keys[..|drivers.keys|] == drivers.keys;
    }

    /** The `for (const userId in users)` loop shared by the driver-location
        and driver-disconnect handlers: one push per rider, in `users` order. */
    method NotifyAllUsers()
      requires Valid()
      modifies this`outbox
      ensures outbox == old(outbox) + FanOut(dist, users, drivers)
    {
      for i := 0 to |users.keys|
        invariant outbox == old(outbox) + FanOutOver(dist, users.keys[..i], users.values, drivers)
      {
        assert users.keys[..i + 1][..i] == users.keys[..i];
        var userId := users.keys[i];
        var nearDrivers := CalculateNearDrivers(users.values[userId].userLocation);
        outbox := outbox + [Push(userId, nearDrivers)];
      }
      assert users.keys[..|users.keys|] == users.keys;
    }

    /** The `userLocation` event on connection `sid`: store the rider, then
        answer that connection alone with its near drivers. */
    method UserLocation(sid: SocketId, userID: string, userLocation: Coord)
      requires Valid()
      modifies this
      ensures Valid()
      ensures users == old(users).Set(sid, Rider(userID, userLocation))
      ensures drivers == old(drivers)
      ensures outbox == old(outbox) + [Push(sid, NearDrivers(dist, userLocation, drivers))]
    {
      users := users.Set(sid, Rider(userID, userLocation));
      var nearDrivers := CalculateNearDrivers(userLocation);
      outbox := outbox + [Push(sid, nearDrivers)];
    }

    /** The `driverLocation` event on connection `sid`: compute the rotation
        from the previous position stored for `sid`, store the driver, then
        push a fresh payload to every rider. */
    method DriverLocation(sid: SocketId, driverID: string, driverLocation: Coord)
      requires Valid()
      modifies this
      ensures Valid()
      ensures drivers == old(drivers).Set(sid,
        Driver(driverID, driverLocation, Heading(bearing, driverLocation, PreviousLocation(old(drivers), sid))))
      ensures users == old(users)
      ensures outbox == old(outbox) + FanOut(dist, users, drivers)
    {
      var rotation := Heading(bearing, driverLocation, PreviousLocation(drivers, sid));
      drivers := drivers.Set(sid, Driver(driverID, driverLocation, rotation));
      NotifyAllUsers();
    }

    /** The `disconnect` event on connection `sid`. A rider entry is deleted
        silently; only when there is none is a driver entry deleted, followed
        by a fresh push to every rider; an unknown connection changes nothing. */
    method Disconnect(sid: SocketId)
      requires Valid()
      modifies this
      ensures Valid()
      ensures old(sid in users.values) ==>
        users == old(users).Delete(sid) && drivers == old(drivers) && outbox == old(outbox)
      ensures old(sid !in users.values && sid in drivers.values) ==>
        users == old(users) && drivers == old(drivers).Delete(sid) &&
        outbox == old(outbox) + FanOut(dist, users, drivers)
      ensures old(sid !in users.values && sid !in drivers.values) ==>
        users == old(users) && drivers == old(drivers) && outbox == old(outbox)
    {
      if sid in users.values {
        users := users.Delete(sid);
      } else if sid in drivers.values {
        drivers := drivers.Delete(sid);
        NotifyAllUsers();
      }
    }
  }
}
