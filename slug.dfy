/**
 * `generate_unique_slug`: the base slug (what slugify makes of a name) if no
 * other row uses it, otherwise the first of base-1, base-2, ... that is free.
 * The table's slugs are a map from primary key to slug.
 */
module Slugs {
  import opened Wrappers
  import opened Text

  /** The k-th slug tried: the base itself, then base-1, base-2, ... */
  function Candidate(base: string, k: nat): string {
    if k == 0 then base else base + "-" + IntToString(k)
  }

  /** The candidates are pairwise distinct, so the loop never tries a slug twice. */
  lemma CandidatesDistinct(base: string, i: nat, j: nat)
    requires i != j
    ensures Candidate(base, i) != Candidate(base, j)
  {
    if i != 0 && j != 0 && Candidate(base, i) == Candidate(base, j) {
      var n := |base| + 1;
      assert Candidate(base, i)[n..] == IntToString(i);
      assert Candidate(base, j)[n..] == IntToString(j);
      ParseIntToString(i);
      ParseIntToString(j);
    }
  }

  /** Python truthiness of an instance's pk: None and 0 are false. */
  predicate PkTruthy(pk: Option<nat>) {
    pk.Some? && pk.value != 0
  }

  /** The slugs the collision check sees: all rows but the instance's own, when it has a truthy pk. */
  function Taken(slugs: map<nat, string>, instancePk: Option<nat>): set<string> {
    set p | p in slugs && !(PkTruthy(instancePk) && p == instancePk.value) :: slugs[p]
  }

  /** A saved instance may keep its own slug: its row does not count as a collision. */
  lemma OwnSlugIsFree(slugs: map<nat, string>, pk: nat)
    requires pk != 0 && pk in slugs
    requires forall q :: q in slugs && q != pk ==> slugs[q] != slugs[pk]
    ensures slugs[pk] !in Taken(slugs, Some(pk))
  {
  }

  /** `generate_unique_slug(model_class, value, instance)`, with `slugify(value)` given as `base`. */
  method GenerateUniqueSlug(base: string, slugs: map<nat, string>, instancePk: Option<nat>) returns (slug: string)
    ensures slug !in Taken(slugs, instancePk)
    ensures base !in Taken(slugs, instancePk) ==> slug == base
    // otherwise the first free one of base-1, base-2, ...
    ensures base in Taken(slugs, instancePk) ==>
      exists k :: 1 <= k && slug == Candidate(base, k) &&
                  forall j :: 0 <= j < k ==> Candidate(base, j) in Taken(slugs, instancePk)
  {
    slug := FirstFree(base, Taken(slugs, instancePk));
  }

  /** The loop of `generate_unique_slug` over the slugs the query sees. */
  method FirstFree(base: string, taken: set<string>) returns (slug: string)
    ensures slug !in taken
    ensures base !in taken ==> slug == base
    ensures base in taken ==>
      exists k :: 1 <= k && slug == Candidate(base, k) && forall j :: 0 <= j < k ==> Candidate(base, j) in taken
  {
    slug := base;
    var counter := 1;
    ghost var tried: set<string> := {};
    while slug in taken
      invariant 1 <= counter
      invariant slug == Candidate(base, counter - 1)
      invariant forall j :: 0 <= j < counter - 1 ==> Candidate(base, j) in taken
      invariant forall s :: s in tried ==> exists j :: 0 <= j < counter - 1 && s == Candidate(base, j)
      invariant tried <= taken
      decreases |taken - tried|
    {
      assert slug !in tried by {
        forall j | 0 <= j < counter - 1
          ensures slug != Candidate(base, j)
        {
          CandidatesDistinct(base, counter - 1, j);
        }
      }
      assert taken - (tried + {slug}) < taken - tried;
      tried := tried + {slug};
      ghost var previous := slug;
      slug := base + "-" + IntToString(counter);
      counter := counter + 1;
      forall j | 0 <= j < counter - 1
        ensures Candidate(base, j) in taken
      {
        if j == counter - 2 {
          assert Candidate(base, j) == previous;
        }
      }
    }
    assert counter > 1 ==> Candidate(base, 0) in taken;
  }
}
