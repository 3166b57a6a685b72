/**
 * The numbered menus of the scripts: the user types a number, the script
 * evaluates `options[choice - 1]` and treats `ValueError` (not a number)
 * and `IndexError` as an invalid choice.
 */
module Menu {
  import opened Wrappers

  /** Python's `xs[i]`: negative indices count from the end; out of range is `IndexError`. */
  function PyIndex<T>(xs: seq<T>, i: int): Option<T> {
    if 0 <= i < |xs| then Some(xs[i])
    else if -|xs| <= i < 0 then Some(xs[|xs| + i])
    else None
  }

  /**
   * `options[int(input(...)) - 1]` with both exceptions caught. `choice` is
   * the parsed number, `None` when `int()` raised. Entries 1..n pick
   * `options[choice - 1]`; 0 and small negatives wrap to the end of the list.
   */
  function PickOneBased<T>(options: seq<T>, choice: Option<int>): (r: Option<T>)
    ensures r.Some? ==> r.value in options
    ensures r.Some? <==> choice.Some? && 1 - |options| <= choice.value <= |options|
    ensures choice.Some? && 1 <= choice.value <= |options| ==> r == Some(options[choice.value - 1])
    ensures choice.Some? && 1 - |options| <= choice.value <= 0 ==>
              r == Some(options[|options| - 1 + choice.value])
  {
    match choice
    case None => None
    case Some(c) => PyIndex(options, c - 1)
  }
}
