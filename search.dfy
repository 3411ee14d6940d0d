/**
 * Leftmost-first search over positions, which is how `re.search` and the
 * scanning of `re.findall` and `re.split` try a pattern: at each start in
 * turn, the first start where the pattern matches wins.
 */
module Search {
  import opened Text

  /** The first position from `p` up to `n` (exclusive) where `f` holds. */
  function First(f: nat -> bool, p: nat, n: nat): (r: Option<nat>)
    ensures r.Some? ==> p <= r.value < n && f(r.value)
    decreases n - p
  {
    if p >= n then None
    else if f(p) then Some(p)
    else First(f, p + 1, n)
  }

  /** The search is leftmost: when `f` holds at `i`, with `p <= i < n`, it finds a position at or before `i`. */
  lemma {:induction false} FirstIsLeftmost(f: nat -> bool, p: nat, i: nat, n: nat)
    requires p <= i < n && f(i)
    ensures First(f, p, n).Some? && First(f, p, n).value <= i
    decreases i - p
  {
    if !f(p) {
      FirstIsLeftmost(f, p + 1, i, n);
    }
  }
}
