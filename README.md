# Rider/driver proximity broadcaster — connection registry model

This project models the real-time core of a ride-hailing server (`index.js`):
a socket.io server keeps two process-wide dictionaries keyed by connection
(socket) id — `users` (riders: `{userID, userLocation}`) and `drivers`
(`{driverID, driverLocation, rotation}`) — and reacts to three events:

- `userLocation`: store the rider, then push `nearDrivers` to that connection only;
- `driverLocation`: compute the driver's rotation from its previously stored
  position, store the driver, then push a fresh `nearDrivers` to every rider;
- `disconnect`: delete the rider entry, or else (`else if`) the driver entry
  followed by a fresh push to every rider.

`calculateNearDrivers` keeps the drivers whose distance, rounded to
hundredths, is below 5.00 km, in registry order, each with its stored identity, position and rotation.

Layout:

- `options.dfy` — `Option`.
- `tables.dfy` — `Tables.Table`: a JavaScript object used as a dictionary,
  as a sequence of keys in insertion order plus a map. Assignment keeps an
  existing key's position and appends a new key; `delete` closes the gap.
- `geo.dfy` — coordinates, the 5 km radius and `calculateHeading`.
  Distance and bearing are function values (`DistanceFn`, `BearingFn`), so
  every property holds for any geometry.
- `matching.dfy` — `calculateNearDrivers` as the specification function
  `NearOver`/`NearDrivers`, with its lemmas.
- `server.dfy` — the fan-out specification `FanOut` with its lemmas, and the
  class `Registry`: the two tables, an outbox of emitted
  `(recipient, nearDrivers)` pushes, and one method per event handler.

Units: the source rounds the distance to two decimals, renders it as a
string and compares it with `< 5`. The model counts distances in hundredths
of a kilometre, so "near" is `dist < 500`, strictly. A bearing is the
truncated value in [0, 360). The stored rotation is `bearing + 180` when a
previous position exists and the sentinel `0` on a driver's first report.
Computed rotations therefore lie in [180, 539], which never contains the
sentinel. This follows the code, which adds 180 after normalising: the
stored rotation is not a compass value in 0–359.

The code does not stop one connection from being both a rider and a
driver. The model keeps that possibility. For such a connection,
`disconnect` deletes only the rider entry, and its driver entry stays.

## Model

| member | source | states |
|---|---|---|
| Tables.Table.Set | index.js:47 | assignment keeps the table well formed (distinct keys, keys = map domain), maps the key to the new value, keeps every existing key at its position, and grows the key order by one exactly when the key was new |
| Tables.Table.Delete | index.js:67 | deletion keeps the table well formed, removes exactly that key from the map and from the key order with the other keys in their old order, and is a no-op for an absent key |
| Tables.Table.Get | index.js:55 | reading a key gives a value exactly when the key is present (an absent key reads as `undefined`), and then the stored value |
| Matching.PreviousLocation | index.js:55 | `drivers[sid]?.driverLocation` is present exactly when `sid` has a driver entry, and is then that entry's stored position |
| Geo.Heading | index.js:77-91 | rotation is 0 exactly when there is no previous position; otherwise it is the bearing from the new position to the previous one plus 180, in [180, 540) |
| Matching.NearOver | index.js:109-120 | the result is no longer than the key list, and every entry's distance is the distance from the rider to that entry's position and is strictly below 500 hundredths of a km |
| Matching.NearDrivers | index.js:109-120 | the payload for a rider has at most as many entries as there are drivers |
| Matching.NearMember | index.js:111-117 | an entry is in the payload if and only if it is the offer (stored ID, position, rotation, distance) of some registered driver strictly inside the radius |
| Matching.NearAppend | index.js:111-113 | filtering the concatenation of two key lists is the concatenation of the filtered lists, so the payload follows registry order |
| Matching.NearOrdered | index.js:111-118 | two near drivers appear in the payload in the order of their keys in the registry |
| Matching.UpdatedDriverVisible | index.js:55-58 | after a driver is written, its new record (with the stored rotation) is in a rider's payload exactly when it is strictly inside that rider's radius |
| Server.FanOutOver | index.js:57-61 | one push per rider key, in key order, each addressed to that key and carrying the payload computed from the rider's stored location against one driver table |
| Server.FanOut | index.js:70-73 | the fan-out has exactly one push per entry of `users` |
| Server.FanOutOncePerRider | index.js:57-61 | every registered rider receives exactly one push of a fan-out, and no other connection receives one |
| Server.RemovedDriverAbsent | index.js:68-73 | after a driver's entry is deleted, every entry of every push of the following fan-out is the offer, seen from that push's rider, of a driver still registered under a different socket and strictly inside the radius |
| Server.RemovedRecordAbsent | index.js:68-73 | corollary: when no other driver holds an identical record, no push of the following fan-out carries the deleted driver's record |
| Server.Registry.constructor | index.js:34-35 | the server starts with both dictionaries empty and nothing emitted |
| Server.Registry.CalculateNearDrivers | index.js:109-120 | the loop over the driver entries returns exactly the specified near-driver payload for the given location |
| Server.Registry.NotifyAllUsers | index.js:57-61 | the loop over `users` appends exactly the fan-out to the outbox and changes nothing else |
| Server.Registry.UserLocation | index.js:46-51 | `users[sid]` becomes the new rider record without duplicating the key, `drivers` is unchanged, and exactly one push goes to `sid`, computed from the current drivers |
| Server.Registry.DriverLocation | index.js:54-62 | the rotation is computed from the position stored for `sid` before the write (0 if none), `drivers[sid]` becomes the new record, `users` is unchanged, and one push per rider is appended, in `users` order, each computed from the updated drivers |
| Server.Registry.Disconnect | index.js:64-75 | a rider entry is deleted with no pushes and `drivers` untouched even if `sid` is also a driver; otherwise a driver entry is deleted and every rider gets a fresh push from the remaining drivers; an unknown connection changes nothing |

## Left out

- Express, cors, morgan, the `/api` and `/user` routes and the dotenv setup (index.js:1-23): library wiring. The route files are not part of this model.
- The Mongoose connection (index.js:18-20): external persistence with no logic here.
- The socket.io server, `socket.emit` / `io.to(...).emit` delivery and `server.listen` (index.js:25-32, 122-126): transport and I/O. Delivery is modelled only as an append to `outbox`; lost or failed deliveries are not modelled.
- The haversine distance, `toRad` and the bearing arithmetic (index.js:82-88, 92-108): floating-point trigonometry. They are uninterpreted function values, so nothing about geometric correctness (symmetry, zero self-distance, accuracy of the bearing) is stated. The bearing passes raw degrees to `Math.sin`/`Math.cos`, and this model neither reproduces nor corrects that.
- Malformed payloads (missing `lat`/`lng`, non-numeric strings, `NaN` distances or bearings): the model takes well-formed coordinates. The example payload sends `"1"` strings, which JavaScript coerces; coordinates are modelled as reals.
- The `distance` field of a payload entry is a two-decimal string in the source; it is modelled as an integer count of hundredths.
- Key order: `for...in` and `Object.entries` put integer-like string keys first in numeric order. Socket ids are random non-numeric strings, so the model uses plain insertion order.
- `console.log` calls: logging only.
- Concurrency: handlers run to completion on the event loop, so each handler is one atomic method and there is no interleaving to model.
