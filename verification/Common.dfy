/** Small value types shared by the models. */
module Common {

  datatype Option<+T> = None | Some(value: T)

  lemma ConcatIsAssociative<T>(a: seq<T>, b: seq<T>, c: seq<T>)
    ensures a + (b + c) == a + b + c
  {
  }

  /** The chosen elements, in order, each with what is taken from it. */
  ghost function Filtered<T, U>(xs: seq<T>, chosen: T -> bool, take: T -> U): seq<U> {
    if xs == [] then []
    else
      var before, last := Filtered(xs[..|xs| - 1], chosen, take), xs[|xs| - 1];
      if chosen(last) then before + [take(last)] else before
  }

  ghost function Total<T>(xs: seq<T>, value: T -> int): int {
    if xs == [] then 0 else Total(xs[..|xs| - 1], value) + value(xs[|xs| - 1])
  }
}
