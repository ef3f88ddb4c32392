/** app/components/TypewriterLoading.tsx: the loading screen's "..." that grows by one dot
    per tick and starts over after three. */
module Typewriter {
  import opened Text

  /** `prev.length >= 3 ? "" : prev + "."`. */
  function NextDots(prev: string): (r: string)
    ensures Utf16Length(prev) >= 3 ==> r == ""
    ensures Utf16Length(prev) < 3 ==> r == prev + "."
  {
    if Utf16Length(prev) >= 3 then "" else prev + "."
  }

  function Dots(n: nat): (r: string)
    ensures |r| == n && forall i :: 0 <= i < n ==> r[i] == '.'
  {
    seq(n, _ => '.')
  }

  /** The text after `k` ticks from the initial empty string. */
  function DotsAfter(k: nat): string {
    if k == 0 then "" else NextDots(DotsAfter(k - 1))
  }

  lemma DotsLength(n: nat)
    ensures Utf16Length(Dots(n)) == n
  {
  }

  /** One tick adds a dot to fewer than three, and empties three. */
  lemma NextDotsStep(n: nat)
    requires n < 4
    ensures NextDots(Dots(n)) == Dots((n + 1) % 4)
  {
    DotsLength(n);
    if n < 3 {
      assert Dots(n) + "." == Dots(n + 1);
    }
  }

  lemma CycleStep(k: nat)
    requires k > 0
    ensures ((k - 1) % 4 + 1) % 4 == k % 4
  {
  }

  /** After `k` ticks the text is `k mod 4` dots: "", ".", "..", "...", then "" again. */
  lemma {:induction false} DotsAfterCycle(k: nat)
    ensures DotsAfter(k) == Dots(k % 4)
  {
    if k > 0 {
      DotsAfterCycle(k - 1);
      var n := (k - 1) % 4;
      NextDotsStep(n);
      CycleStep(k);
    }
  }

  /** The component's state, updated by the interval. */
  class Loader {
    var dots: string

    constructor ()
      ensures dots == ""
    {
      dots := "";
    }

    method Tick()
      modifies this
      ensures dots == NextDots(old(dots))
    {
      dots := NextDots(dots);
    }
  }
}
