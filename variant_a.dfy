/**
 * `serve` of `variants/variant_a.py`: the fixed recommendation of variant
 * A, the first three titles of the item list. The list, which the source
 * loads once from a CSV file, is a parameter here.
 */
module VariantA {

  /**
   * The titles served to `userId` in `context`: the first three items, or
   * all of them when there are fewer than three.
   */
  function Serve<C>(items: seq<string>, userId: string, context: C): (r: seq<string>)
    ensures |r| == if |items| < 3 then |items| else 3
    ensures r == items[..|r|]
    ensures |items| <= 3 ==> r == items
  {
    if |items| >= 3 then items[..3] else items
  }

  /** Neither the user nor the context changes what is served. */
  lemma ServeIgnoresCaller<C>(items: seq<string>, u1: string, u2: string, c1: C, c2: C)
    ensures Serve(items, u1, c1) == Serve(items, u2, c2)
  {
  }

  /** Serving from what was served gives it back unchanged. */
  lemma ServeIdempotent<C>(items: seq<string>, userId: string, context: C)
    ensures Serve(Serve(items, userId, context), userId, context) == Serve(items, userId, context)
  {
  }
}
