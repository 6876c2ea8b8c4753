/**
 The shared vocabulary of the vehicle service: the vehicle record with its
 attributes and dimensions, and the error sentinels that the store and the
 handlers return. Go's `float64` fields become `real`: the store only ever
 compares them with `<=` and `>=`.
 */
module Vehicles {

  /** A Go value that may be `nil` (a map argument, an `error` result). */
  datatype Option<+T> = None | Some(value: T)

  /** A size in three dimensions. */
  datatype Dimensions = Dimensions(height: real, length: real, width: real)

  /** Everything that describes a vehicle apart from its identifier. */
  datatype VehicleAttributes = VehicleAttributes(
    brand: string,
    model: string,
    registration: string,
    color: string,
    fabricationYear: int,
    capacity: int,
    maxSpeed: real,
    fuelType: string,
    transmission: string,
    weight: real,
    dimensions: Dimensions)

  /** A stored vehicle. Go embeds the attributes and the dimensions, so their
      fields are promoted; `Length` and `Width` give that shorthand here. */
  datatype Vehicle = Vehicle(id: int, attributes: VehicleAttributes)
  {
    function Length(): (r: real) { attributes.dimensions.length }
    function Width(): (r: real) { attributes.dimensions.width }
  }

  /** The error sentinels of the service; each is a distinct value. */
  datatype Error =
    | ErrorVehicleNotFound
    | ErrorInternalServer
    | ErrorInvalidBodyRequest
    | ErrorInvalidYear
    | ErrorInvalidColorAndYear
    | ErrorInvalidDimension
    | ErrorInvalidHeightAndWidth
    | ErrorVehicleAlreadyExists

  /** The text each sentinel carries. */
  function Message(e: Error): (r: string)
  {
    match e
    case ErrorVehicleNotFound => "Vehicle(s) not found"
    case ErrorInternalServer => "Internal server error"
    case ErrorInvalidBodyRequest => "Invalid body request"
    case ErrorInvalidYear => "Year must be a number"
    case ErrorInvalidColorAndYear => "Color and year are required"
    case ErrorInvalidDimension => "Invalid dimensions"
    case ErrorInvalidHeightAndWidth => "Length and width are required"
    case ErrorVehicleAlreadyExists => "Vehicle already exists"
  }

  /** No two sentinels carry the same text, so a caller that only sees the
      message can still tell which error it was. */
  lemma MessagesDistinct(e1: Error, e2: Error)
    ensures Message(e1) == Message(e2) <==> e1 == e2
  {
  }
}
