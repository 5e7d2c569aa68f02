/**
 * Values shared by the route handlers: optional fields, the JavaScript
 * truthiness tests the handlers apply to them, and the plain JSON scalars
 * that are passed through to responses without being inspected.
 */
module Values {

  datatype Option<+T> = None | Some(value: T)

  /** `!x` is false for a request field: it is present and not the empty string. */
  predicate Present(field: Option<string>) {
    field.Some? && field.value != ""
  }

  /** A column value that is only carried through (kw, rpm, notes). */
  datatype Scalar = Null | Num(n: real) | Str(s: string)

  /** JavaScript truthiness of a scalar: null, 0 and "" are falsy. */
  predicate Truthy(v: Scalar) {
    match v
    case Null => false
    case Num(n) => n != 0.0
    case Str(s) => s != ""
  }

  /** `a || b` on an optional string: `a` when it is truthy, otherwise `b`. */
  function OrElse(a: Option<string>, b: Option<string>): (r: Option<string>)
    ensures Present(a) ==> r == a
    ensures !Present(a) ==> r == b
  {
    if Present(a) then a else b
  }

  /** The embedded `ships(name)` of a motor. */
  datatype ShipRef = ShipRef(name: string)

  /** `motor.ships?.name` */
  function ShipName(ship: Option<ShipRef>): (r: Option<string>)
    ensures r.Some? <==> ship.Some?
    ensures ship.Some? ==> r.value == ship.value.name
  {
    if ship.Some? then Some(ship.value.name) else None
  }

  /** A `step_photos` row as the queries embed it: `{ image_url }`. */
  datatype Photo = Photo(imageUrl: string)

  /** Identity of a `motor_steps` row; the store hands out 1, 2, 3, ... so 0 is never an id. */
  type RowId = nat
}
