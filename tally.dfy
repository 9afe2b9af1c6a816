/** Per-item outcomes of the sync and reconciliation loops, and their counts. */
module Tally {

  /** What happened to one item: created or updated, skipped, or failed. */
  datatype Outcome = Done | Skipped | Failed

  /** How many entries of `os` are `o`. */
  function Count(os: seq<Outcome>, o: Outcome): (n: nat)
    ensures n <= |os|
  {
    if os == [] then 0
    else Count(os[..|os| - 1], o) + (if os[|os| - 1] == o then 1 else 0)
  }

  /** Every item is counted under exactly one of the three outcomes. */
  lemma {:induction false} CountsPartition(os: seq<Outcome>)
    ensures Count(os, Done) + Count(os, Skipped) + Count(os, Failed) == |os|
  {
    if os != [] {
      CountsPartition(os[..|os| - 1]);
    }
  }

  /** One more outcome raises its own count by one and leaves the others. */
  lemma CountStep(os: seq<Outcome>, o: Outcome)
    ensures Count(os + [o], Done) == Count(os, Done) + (if o == Done then 1 else 0)
    ensures Count(os + [o], Skipped) == Count(os, Skipped) + (if o == Skipped then 1 else 0)
    ensures Count(os + [o], Failed) == Count(os, Failed) + (if o == Failed then 1 else 0)
  {
    assert (os + [o])[..|os|] == os;
  }
}
