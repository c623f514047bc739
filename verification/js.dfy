/**
 The small part of JavaScript's value semantics that the request handlers and
 screens rely on: absent versus `null` versus present body fields, truthiness,
 the `||` and `??` operators, and how the ORM writes a field into a column.
 */
module Js {

  datatype Option<T> = None | Some(value: T)

  /** A field of a parsed JSON request body: absent (`undefined`), `null`, or a value. */
  datatype Field<T> = Missing | Null | Given(value: T)

  /** JavaScript truthiness of a field whose type has exactly one falsy value,
      `zero`: 0 for numbers, "" for strings, false for booleans. `undefined`
      and `null` are always falsy. */
  predicate Truthy<T(==)>(f: Field<T>, zero: T) {
    f.Given? && f.value != zero
  }

  /** `f || fallback` for a plain fallback value. */
  function OrElse<T(==)>(f: Field<T>, zero: T, fallback: T): T {
    if Truthy(f, zero) then f.value else fallback
  }

  /** `a ?? b`: the first operand unless it is `null` or `undefined`. */
  function Coalesce<T>(a: Field<T>, b: Field<T>): Field<T> {
    if a.Given? then a else b
  }

  /** The column value left by an ORM write of field `f` over `current`: an
      `undefined` key is skipped (the column keeps `current`, which is the
      column default on insert), `null` stores NULL, a value stores itself. */
  function Written<T>(current: Option<T>, f: Field<T>): Option<T> {
    match f
    case Missing => current
    case Null => None
    case Given(v) => Some(v)
  }

  /** Storing a JavaScript value into a nullable column: `undefined` and `null`
      both become NULL. */
  function Nullable<T>(f: Field<T>): Option<T> {
    Written(None, f)
  }

  /** What a column holds after a write of `f` over `before`, stated case by
      case: the value, NULL for `null`, the previous content when absent. */
  ghost predicate Holds<T>(column: Option<T>, f: Field<T>, before: Option<T>) {
    match f
    case Given(v) => column == Some(v)
    case Null => column == None
    case Missing => column == before
  }

  /** `Holds` is `Written` spelled case by case, for use in contracts. */
  lemma WrittenHolds<T>(column: Option<T>, f: Field<T>, before: Option<T>)
    ensures Holds(column, f, before) <==> column == Written(before, f)
  {
  }

  /** A write leaves a column as it was exactly when the key is absent, or
      it stores what the column already holds. */
  lemma WriteKeepsColumn<T>(before: Option<T>, f: Field<T>)
    ensures Written(before, f) == before <==>
      f.Missing? || (f.Null? && before.None?) || (f.Given? && before == Some(f.value))
  {
  }

  /** Writing the same field twice leaves what writing it once left. */
  lemma WriteIsIdempotent<T>(before: Option<T>, f: Field<T>)
    ensures Written(Written(before, f), f) == Written(before, f)
  {
  }

  /** A key that is present overwrites the column whatever it held, so of two
      writes the later one decides. */
  lemma LaterWriteWins<T>(before: Option<T>, f: Field<T>, g: Field<T>)
    requires !g.Missing?
    ensures Written(Written(before, f), g) == Written(before, g)
    ensures forall other: Option<T> :: Written(other, g) == Written(before, g)
  {
  }
}
