/** A cursor over a list of `n` elements: an index, or nothing once it has run off either end. */
module Cursors {
  import opened Basics

  function First(n: nat): Option<nat> { if n == 0 then None else Some(0) }

  function Last(n: nat): Option<nat> { if n == 0 then None else Some(n - 1) }

  function After(n: nat, p: nat): Option<nat> { if p + 1 < n then Some(p + 1) else None }

  function Before(p: nat): Option<nat> { if p == 0 then None else Some(p - 1) }

  /** A search result: `n` itself means nothing was found. */
  function Found(n: nat, p: nat): Option<nat> { if p < n then Some(p) else None }

  /** How many elements a cursor that came from the left has passed. */
  function Passed(n: nat, p: Option<nat>): nat { if p.None? then n else p.value }

  /** How many elements are left to a cursor that came from the right, its own included. */
  function Upto(p: Option<nat>): nat { if p.None? then 0 else p.value + 1 }
}
