/**
 * The bounded probe loop of the menu-item create handlers:
 * it asks the store whether `base`, `base-1`, ..., `base-50` is already used by
 * a menu item of the cafe, in that order, and returns the first free one; once
 * the counter passes 50 it gives up. `taken` is the set of slugs the cafe's
 * menu items carry, so each probe of the store becomes a membership test.
 */
module SlugAllocator {
  import opened Common
  import Decimal
  import Slug

  /** The last counter value probed before the loop gives up. */
  const MaxCounter: nat := 50

  /** The one way allocation fails: the route reports it as
      "failed_to_generate_unique_slug", the action as "Failed to generate unique slug". */
  datatype SlugError = Exhausted

  /** The candidate after `k` collisions: the base itself, then the base, '-' and k. */
  function Candidate(base: string, k: nat): string {
    if k == 0 then base else base + "-" + Decimal.Show(k)
  }

  /** Different counters give different candidates. */
  lemma CandidateInjective(base: string, i: nat, j: nat)
    ensures Candidate(base, i) == Candidate(base, j) ==> i == j
  {
    if i != j {
      if i == 0 || j == 0 {
        assert |Candidate(base, i)| != |Candidate(base, j)|;
      } else {
        var n := |base| + 1;
        assert Candidate(base, i)[n..] == Decimal.Show(i);
        assert Candidate(base, j)[n..] == Decimal.Show(j);
        Decimal.ShowInjective(i, j);
      }
    }
  }

  /** A candidate with a counter of at most 50 is at most three characters longer than the base. */
  lemma CandidateLength(base: string, k: nat)
    requires k <= MaxCounter
    ensures |base| <= |Candidate(base, k)| <= |base| + 3
  {
    if k > 0 {
      Decimal.ShowLength(k, 2);
    }
  }

  /** The suffix is a hyphen and digits, so candidates keep to the slug alphabet. */
  lemma CandidateSlugChars(base: string, k: nat)
    requires Slug.AllSlugChars(base)
    ensures Slug.AllSlugChars(Candidate(base, k))
  {
    if k > 0 {
      var d := Decimal.Show(k);
      var c := Candidate(base, k);
      forall i | 0 <= i < |c|
        ensures Slug.IsSlugChar(c[i])
      {
        if i > |base| {
          assert c[i] == d[i - |base| - 1];
        }
      }
    }
  }

  /** The least counter `k` in [from, 50] whose candidate is free, if there is one. */
  function FirstFreeFrom(base: string, taken: set<string>, from: nat): (r: Option<nat>)
    requires from <= MaxCounter
    ensures r.Some? ==> from <= r.value <= MaxCounter && Candidate(base, r.value) !in taken
    ensures r.Some? ==> forall j :: from <= j < r.value ==> Candidate(base, j) in taken
    ensures r.None? ==> forall j :: from <= j <= MaxCounter ==> Candidate(base, j) in taken
    decreases MaxCounter - from
  {
    if Candidate(base, from) !in taken then Some(from)
    else if from == MaxCounter then None
    else FirstFreeFrom(base, taken, from + 1)
  }

  /** The slug the probe loop settles on: the first free candidate, or failure
      when `base` and `base-1` .. `base-50` are all taken. */
  function Allocate(base: string, taken: set<string>): (r: Result<string, SlugError>)
    ensures r.Success? ==> r.value !in taken
    ensures r.Success? ==> exists k :: (0 <= k <= MaxCounter && r.value == Candidate(base, k)
      && forall j :: 0 <= j < k ==> Candidate(base, j) in taken)
    ensures r.Failure? <==> forall k :: 0 <= k <= MaxCounter ==> Candidate(base, k) in taken
  {
    match FirstFreeFrom(base, taken, 0)
    case Some(k) => Success(Candidate(base, k))
    case None => Failure(Exhausted)
  }

  /** A free base is used as it is. */
  lemma AllocateFreeBase(base: string, taken: set<string>)
    requires base !in taken
    ensures Allocate(base, taken) == Success(base)
  {
  }

  /** The allocated slug is the base, or the base with a suffix of at most three
      characters; from a base of at most 200 characters it stays within 203. */
  lemma AllocatedLength(base: string, taken: set<string>)
    requires Allocate(base, taken).Success?
    ensures |base| <= |Allocate(base, taken).value| <= |base| + 3
  {
    var k := FirstFreeFrom(base, taken, 0).value;
    CandidateLength(base, k);
  }

  /** The allocated slug keeps to the slug alphabet. */
  lemma AllocatedSlugChars(base: string, taken: set<string>)
    requires Slug.AllSlugChars(base)
    requires Allocate(base, taken).Success?
    ensures Slug.AllSlugChars(Allocate(base, taken).value)
  {
    CandidateSlugChars(base, FirstFreeFrom(base, taken, 0).value);
  }

  /**
   * The probe loop in its own order: test the candidate, and when it is taken
   * bump the counter, build the next candidate and only then give up if the
   * counter has passed 50. `probes` records every candidate the store is
   * asked about, in order.
   */
  method EnsureUniqueSlug(base: string, taken: set<string>)
      returns (r: Result<string, SlugError>, probes: seq<string>)
    ensures r == Allocate(base, taken)
    ensures 1 <= |probes| <= MaxCounter + 1
    ensures forall i :: 0 <= i < |probes| ==> probes[i] == Candidate(base, i)
    ensures r.Success? ==> probes[|probes| - 1] == r.value
    ensures r.Failure? ==> |probes| == MaxCounter + 1
    ensures Candidate(base, MaxCounter + 1) !in probes
  {
    var candidate := base;
    var counter: nat := 0;
    probes := [];
    while true
      invariant counter <= MaxCounter
      invariant candidate == Candidate(base, counter)
      invariant |probes| == counter
      invariant forall i :: 0 <= i < counter ==> probes[i] == Candidate(base, i)
      invariant forall i :: 0 <= i < counter ==> Candidate(base, i) in taken
      decreases MaxCounter - counter
    {
      probes := probes + [candidate];
      assert forall i :: 0 <= i <= counter ==> probes[i] == Candidate(base, i);
      if candidate !in taken {
        r := Success(candidate);
        FoundAt(base, taken, counter, probes);
        return;
      }
      counter := counter + 1;
      candidate := base + "-" + Decimal.Show(counter);
      if counter > MaxCounter {
        r := Failure(Exhausted);
        NeverProbed(base, probes);
        return;
      }
    }
  }

  /** Once the base is taken, a free base-1 is next. */
  lemma AllocateAfterBase(base: string, taken: set<string>)
    requires Candidate(base, 1) !in taken
    ensures Allocate(base, taken + {base}) == Success(Candidate(base, 1))
  {
    CandidateInjective(base, 0, 1);
    FirstFreeUnique(base, taken + {base}, 1);
  }

  /** If every candidate below `k` is taken and candidate `k` is free, the search finds `k`. */
  lemma FirstFreeUnique(base: string, taken: set<string>, k: nat)
    requires k <= MaxCounter
    requires Candidate(base, k) !in taken
    requires forall j :: 0 <= j < k ==> Candidate(base, j) in taken
    ensures FirstFreeFrom(base, taken, 0) == Some(k)
  {
  }

  /** The loop's exit with a free candidate after `k` collisions. */
  lemma FoundAt(base: string, taken: set<string>, k: nat, probes: seq<string>)
    requires k <= MaxCounter && |probes| == k + 1
    requires forall i :: 0 <= i <= k ==> probes[i] == Candidate(base, i)
    requires forall i :: 0 <= i < k ==> Candidate(base, i) in taken
    requires Candidate(base, k) !in taken
    ensures Allocate(base, taken) == Success(Candidate(base, k))
    ensures Candidate(base, MaxCounter + 1) !in probes
  {
    FirstFreeUnique(base, taken, k);
    NeverProbed(base, probes);
  }

  /** A probe trace of at most 51 candidates never contains `base-51`. */
  lemma NeverProbed(base: string, probes: seq<string>)
    requires |probes| <= MaxCounter + 1
    requires forall i :: 0 <= i < |probes| ==> probes[i] == Candidate(base, i)
    ensures Candidate(base, MaxCounter + 1) !in probes
  {
    forall i | 0 <= i < |probes|
      ensures probes[i] != Candidate(base, MaxCounter + 1)
    {
      CandidateInjective(base, i, MaxCounter + 1);
    }
  }
}
