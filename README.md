# Vehicle store model

A Dafny model of the in-memory vehicle store of a small vehicle CRUD
service. The store, `VehicleMap`, holds one piece of state: a map from
vehicle identifier to vehicle record (its `db` field). The model covers:

- the constructor, which falls back to an empty map when given `nil`;
- `FindAll`, which copies every entry into a fresh map;
- `FindByColorAndYear`, which is a stub in the store;
- `FindByDimensions`, which scans every entry and keeps those whose length
  and width both lie within inclusive bounds, reporting
  `ErrorVehicleNotFound` when nothing matches.

The vehicle record (`Vehicle`, `VehicleAttributes`, `Dimensions`) and the
error sentinels are plain datatypes in `vehicle.dfy` (module `Vehicles`).
The store is the class `Repository.VehicleMap` in `vehicle_map.dfy`, with
the field `db: map<int, Vehicle>`. `FindAll` and `FindByDimensions` are
methods whose loops take the keys of the map one at a time. The pick is
arbitrary (`:|`), just as Go's map iteration order is. `FindAll` is
proved to return exactly the stored map. `FindByDimensions` is proved
against the specification function `WithinDimensions` (the entries that
fit the bounds) and the predicate `NoneFits`; the lemmas beside them state
what the filter promises its callers. `FindByColorAndYear` returns a
constant empty result.

Representation choices:
- A `nil` map argument is `None` of `Option<map<int, Vehicle>>`.
- An `error` result is an `Option<Error>`; `None` is the `nil` error.
- `float64` fields are `real`, since the store only compares them with
  `<=` and `>=`.
- No query method has a `modifies` clause, so Dafny guarantees that reads
  never change `db`.

Where the source's comments and its code disagree, the model follows the
code:
- The doc comments of `FindByColorAndYear`
  (internal/repository/vehicle_map.go:36, internal/vehicle_repository.go:11)
  say it returns the vehicles that match the color and year. Its body
  (internal/repository/vehicle_map.go:37-39) returns `nil, nil`, and the
  model follows the body.
- The service and the handler name the first range pair
  `minHeight`/`maxHeight` (internal/service/vehicle_default.go:71,
  internal/handler/vehicle.go:482, 496). The store compares that pair
  against `Length` (internal/repository/vehicle_map.go:47), and the model
  does the same.

## Model

| member | source | states |
|---|---|---|
| `Vehicles.MessagesDistinct` | internal/vehicle.go:51-62 | two error sentinels carry the same message exactly when they are the same sentinel |
| `Repository.VehicleMap.constructor` | internal/repository/vehicle_map.go:9-16 | a `nil` map gives an empty store; any other map becomes exactly the store's contents |
| `Repository.VehicleMap.FindAll` | internal/repository/vehicle_map.go:25-34 | the result has exactly the store's keys, each mapped to the stored vehicle (the result equals the store), and the error is nil; the store is not modified |
| `Repository.VehicleMap.FindByColorAndYear` | internal/repository/vehicle_map.go:37-39 | for every color and year the result is empty and the error is nil |
| `Repository.VehicleMap.FindByDimensions` | internal/repository/vehicle_map.go:42-60 | an id is in the result iff it is stored and its vehicle has `minLength <= Length <= maxLength` and `minWidth <= Width <= maxWidth`; each result value is the stored vehicle; the error is `ErrorVehicleNotFound` iff no stored vehicle fits and nil otherwise; the store is not modified |
| `Repository.WithinDimensions` | internal/repository/vehicle_map.go:46-49 | the filtered map is a sub-map of the store: its keys are stored keys and its values the stored vehicles |
| `Repository.NotFoundIffEmpty` | internal/repository/vehicle_map.go:54-59 | "no stored vehicle fits" holds exactly when the filtered map is empty, in both directions |
| `Repository.InvertedBoundsNotFound` | internal/repository/vehicle_map.go:46-59 | a minimum above its maximum, on either axis, matches nothing, so not-found is reported |
| `Repository.BoundsInclusive` | internal/repository/vehicle_map.go:47-48 | a stored vehicle whose length and width sit exactly on a bound is kept, unchanged |
| `Repository.WideningKeepsMatches` | internal/repository/vehicle_map.go:46-50 | widening the bounds keeps every matched id with the same vehicle |
| `Repository.AllFitGivesStore` | internal/repository/vehicle_map.go:46-50 | when every stored vehicle fits the bounds, the filter returns the whole store, the same map `FindAll` returns |
| `Repository.MatchesAtMostStore` | internal/repository/vehicle_map.go:46-50 | the filter never returns more entries than the store holds |
| `Repository.FilterIdempotent` | internal/repository/vehicle_map.go:46-50 | filtering a result again with the same bounds returns it unchanged |
| `Repository.AxesCompose` | internal/repository/vehicle_map.go:47 | the dimension filter equals the length filter followed by the width filter, in either order |

## Left out

- `Create`, `FindByBrandAndRangeYear`, `FindAverageSpeedByBrand`, `FindByFuelType`, `FindByTransmissionType` and `FindAverageCapacityByBrand` are declared in the repository interface (internal/vehicle_repository.go:9-27), but the store does not implement them. The model does not invent their behaviour.
- The service layer (internal/service/vehicle_default.go) only forwards each call to the repository. It has no logic of its own.
- The HTTP handlers (internal/handler/vehicle.go) are left out. They do URL and query parsing, JSON encoding and decoding, and response writing, all through library calls.
- Server bootstrap, configuration and the file loader (internal/application/application_default.go) are I/O and framework wiring.
- The debug `fmt.Println` calls in `FindByDimensions` (internal/repository/vehicle_map.go:44, 51) are console output.
- `float64` specifics are not modelled. These are NaN, infinities and rounding. The fields are reals compared with `<=` and `>=`.
- Go map aliasing is not modelled. When given a non-nil map, the Go store shares the caller's map. Maps here are values, so the copy `FindAll` builds and the copy held by the store cannot be told apart from the originals.
- `Repository.VehicleMap.FindByColorAndYear`: Go returns a `nil` map, and the model returns the empty map. A `nil` map and an empty map give the same lookups, `len` and `range`. They differ under `v == nil`, under writes (writing into a `nil` map panics) and in JSON (`null` against `{}`). The only caller (internal/handler/vehicle.go:198-214) only ranges over the result into a fresh map, so the difference never reaches a response.
