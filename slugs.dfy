/** The slug candidates `createPost` probes. The stem is the slugified title;
    each retry appends "-" and the counter to the previous candidate, the
    counter starting at 2, so the suffixes accumulate: stem, stem-2, stem-2-3,
    stem-2-3-4, and so on. */
module Slugs {
  import opened Text

  /** The candidate probed after `retries` collisions. */
  function Candidate(stem: string, retries: nat): (r: string)
    ensures |r| >= |stem| + 2 * retries
    ensures r[..|stem|] == stem
  {
    if retries == 0 then stem
    else
      var prev := Candidate(stem, retries - 1);
      var r := prev + "-" + NatToDecimal(retries + 1);
      assert r[..|stem|] == prev[..|stem|];
      r
  }

  /** A retry appends "-" and the counter to the previous candidate. */
  lemma CandidateNext(stem: string, retries: nat)
    ensures Candidate(stem, retries + 1) == Candidate(stem, retries) + "-" + NatToDecimal(retries + 2)
  {
  }

  /** Every retry makes the candidate strictly longer, so no candidate repeats
      and a store holding finitely many slugs is outgrown. */
  lemma {:induction false} CandidatesGrow(stem: string, j: nat, k: nat)
    requires j < k
    ensures |Candidate(stem, j)| < |Candidate(stem, k)|
    ensures Candidate(stem, j) != Candidate(stem, k)
  {
    if j + 1 < k {
      CandidatesGrow(stem, j, k - 1);
    }
  }

  /** The first two retries give stem-2 and stem-2-3. */
  lemma FirstRetries(stem: string)
    ensures Candidate(stem, 1) == stem + "-2"
    ensures Candidate(stem, 2) == stem + "-2-3"
  {
    assert NatToDecimal(2) == "2";
    assert NatToDecimal(3) == "3";
  }

  /** Because the suffixes accumulate, stem-3 is never probed. */
  lemma {:induction false} NeverStemDashThree(stem: string, k: nat)
    ensures Candidate(stem, k) != stem + "-3"
  {
    FirstRetries(stem);
    if k == 1 {
      assert Candidate(stem, 1)[|stem| + 1] == '2';
      assert (stem + "-3")[|stem| + 1] == '3';
    }
  }
}
