/** Small shared vocabulary: optional values, points on the canvas, and the
    few pieces of JavaScript value semantics the layout code relies on. */
module Base {

  /** A JavaScript value that may be `null` or `undefined`. */
  datatype Option<T> = None | Some(value: T)

  /** A position in the canvas' global coordinate space. */
  datatype Point = Point(x: real, y: real)

  function Abs(r: real): (a: real)
    ensures a >= 0.0 && (a == r || a == -r)
  {
    if r < 0.0 then -r else r
  }

  /** `Math.min` of two numbers. */
  function Min(a: real, b: real): (m: real)
    ensures m <= a && m <= b && (m == a || m == b)
  {
    if a < b then a else b
  }

  /** `s || …` takes the left operand only when it is truthy: for an optional
      string that means present and not empty. */
  predicate TruthyString(s: Option<string>)
  {
    s.Some? && s.value != ""
  }

  /** The same test for an optional number: present and not zero. */
  predicate TruthyNumber(n: Option<real>)
  {
    n.Some? && n.value != 0.0
  }

  /** `n || fallback` on an optional number. */
  function NumberOr(n: Option<real>, fallback: real): (r: real)
    ensures TruthyNumber(n) ==> r == n.value
    ensures !TruthyNumber(n) ==> r == fallback
  {
    if TruthyNumber(n) then n.value else fallback
  }
}
