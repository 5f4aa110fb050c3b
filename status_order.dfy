/**
 * The letter status of the procedural engine and its hand-written comparison.
 * More informative statuses compare greater: GREEN > YELLOW > RED > UNKNOWN.
 */
module StatusOrder {
  import opened Wrappers

  datatype Status = UNKNOWN | RED | YELLOW | GREEN

  datatype Ordering = Less | Equal | Greater

  /** How much a status tells about a letter; the reference for the comparison. */
  function Information(s: Status): nat
  {
    match s
    case UNKNOWN => 0
    case RED => 1
    case YELLOW => 2
    case GREEN => 3
  }

  /** `PartialOrd::partial_cmp`: total, and it agrees with the information order. */
  function PartialCmp(a: Status, b: Status): (r: Option<Ordering>)
    ensures r.Some?
    ensures r.value == Equal <==> a == b
    ensures r.value == Greater <==> Information(a) > Information(b)
    ensures r.value == Less <==> Information(a) < Information(b)
  {
    match (a, b)
    case (GREEN, GREEN) | (YELLOW, YELLOW) | (RED, RED) | (UNKNOWN, UNKNOWN) => Some(Equal)
    case (GREEN, _) | (YELLOW, RED) | (YELLOW, UNKNOWN) | (RED, UNKNOWN) => Some(Greater)
    case _ => Some(Less)
  }

  /** `Ord::cmp`, the unwrapped `partial_cmp`; swapping the operands flips the answer. */
  function Cmp(a: Status, b: Status): (o: Ordering)
    ensures PartialCmp(a, b) == Some(o)
    ensures o == Greater <==> PartialCmp(b, a) == Some(Less)
    ensures o == Equal <==> PartialCmp(b, a) == Some(Equal)
  {
    PartialCmp(a, b).value
  }

  /** `a >= b` under `Ord`. */
  predicate AtLeast(a: Status, b: Status)
  {
    Cmp(a, b) != Less
  }

  /** `std::cmp::max`: the second operand unless the first compares greater. */
  function Max(a: Status, b: Status): (m: Status)
    ensures AtLeast(m, a) && AtLeast(m, b)
    ensures m == a || m == b
  {
    if Cmp(a, b) == Greater then a else b
  }

  /** `AtLeast` is a total order, so `Max` always picks the more informative status. */
  lemma AtLeastIsTotalOrder(a: Status, b: Status, c: Status)
    ensures AtLeast(a, a)
    ensures AtLeast(a, b) && AtLeast(b, a) ==> a == b
    ensures AtLeast(a, b) && AtLeast(b, c) ==> AtLeast(a, c)
    ensures AtLeast(a, b) || AtLeast(b, a)
  {
  }

  lemma GreenIsGreatest(s: Status)
    ensures AtLeast(GREEN, s) && AtLeast(s, UNKNOWN)
    ensures Cmp(GREEN, YELLOW) == Greater && Cmp(YELLOW, RED) == Greater && Cmp(RED, UNKNOWN) == Greater
  {
  }
}
