/** Listings as the job API returns them, the filter criteria read from the
    configuration, and the job filter (`filter_jobs`). */
module Listing {
  import opened Wrappers
  import opened Text

  /** A JSON key whose value should be an object holding one string field
      (`address.full_location`, `reward.formatted_total`). */
  datatype Nested =
    | Absent                        // the key is missing
    | Object(field: Option<string>) // an object, with or without the inner field
    | NotObject                     // present, but null, a string, a list or a number

  /** One listing. `company` is `company.name` when the company object carries a name;
      `annualFrom` is the `annual_from` years-of-experience bound. */
  datatype Job = Job(
    id: Option<nat>,
    company: Option<string>,
    position: Option<string>,
    address: Nested,
    reward: Nested,
    annualFrom: Option<int>)

  /** The filter criteria of `config.json`: `locations`, `jobs` (title keywords) and `years`. */
  datatype Config = Config(
    locations: Option<seq<string>>,
    keywords: Option<seq<string>>,
    years: Option<int>)

  function Locations(conf: Config): seq<string> { conf.locations.GetOr([]) }
  function Keywords(conf: Config): seq<string> { conf.keywords.GetOr([]) }
  function MinYears(conf: Config): int { conf.years.GetOr(0) }

  /** The location the filter tests: the address's `full_location`, or the empty
      string when the address or the field is missing or the address is not an object. */
  function Location(j: Job): (loc: string)
    ensures j.address.Object? && j.address.field.Some? ==> loc == j.address.field.value
    ensures !(j.address.Object? && j.address.field.Some?) ==> loc == ""
  {
    match j.address
    case Object(Some(s)) => s
    case _ => ""
  }

  /** The lower-cased title the keyword test searches; a missing title is empty. */
  function Title(j: Job): string { Lower(j.position.GetOr("")) }

  function Years(j: Job): int { j.annualFrom.GetOr(0) }

  /** Some configured location occurs in the listing's location (case-sensitive). */
  predicate LocationMatches(j: Job, conf: Config)
  {
    exists r | r in Locations(conf) :: IsSubstring(r, Location(j))
  }

  /** Some configured keyword, lower-cased, occurs in the lower-cased title. */
  predicate KeywordMatches(j: Job, conf: Config)
  {
    exists k | k in Keywords(conf) :: IsSubstring(Lower(k), Title(j))
  }

  /** The three tests of `filter_jobs`; there is no upper bound on years and no expiry test. */
  predicate Keep(j: Job, conf: Config)
  {
    LocationMatches(j, conf) && KeywordMatches(j, conf) && Years(j) >= MinYears(conf)
  }

  /** The stable filter: the listings that pass `Keep`, in input order. */
  function Filtered(jobs: seq<Job>, conf: Config): seq<Job>
  {
    if jobs == [] then []
    else
      var last := jobs[|jobs| - 1];
      Filtered(jobs[..|jobs| - 1], conf) + (if Keep(last, conf) then [last] else [])
  }

  /** `filter_jobs`: one pass over the listings, appending each one that passes. */
  method FilterJobs(jobs: seq<Job>, conf: Config) returns (filtered: seq<Job>)
    ensures filtered == Filtered(jobs, conf)
  {
    filtered := [];
    for i := 0 to |jobs|
      invariant filtered == Filtered(jobs[..i], conf)
    {
      var j := jobs[i];
      if Keep(j, conf) {
        filtered := filtered + [j];
      }
      assert jobs[..i + 1][..i] == jobs[..i];
    }
    assert jobs[..|jobs|] == jobs;
  }

  /** `r` is `s` with some elements left out, the rest kept in order. */
  predicate IsSubsequence<T(==)>(r: seq<T>, s: seq<T>)
    decreases |s|
  {
    if r == [] then true
    else if s == [] then false
    else if r[|r| - 1] == s[|s| - 1] then IsSubsequence(r[..|r| - 1], s[..|s| - 1])
    else IsSubsequence(r, s[..|s| - 1])
  }

  lemma {:induction false} SubsequenceExtend<T>(r: seq<T>, s: seq<T>, x: T)
    requires IsSubsequence(r, s)
    ensures IsSubsequence(r, s + [x])
    decreases |s|, 1
  {
    assert (s + [x])[..|s|] == s;
    if r != [] {
      if r[|r| - 1] == x {
        SubsequenceDrop(r, s);
      }
    }
  }

  /** A subsequence of `s` without its last element is still one of `s`. */
  lemma {:induction false} SubsequenceDrop<T>(r: seq<T>, s: seq<T>)
    requires r != [] && IsSubsequence(r, s)
    ensures IsSubsequence(r[..|r| - 1], s)
    decreases |s|, 0
  {
    if r[|r| - 1] == s[|s| - 1] {
      SubsequenceExtend(r[..|r| - 1], s[..|s| - 1], s[|s| - 1]);
      assert s[..|s| - 1] + [s[|s| - 1]] == s;
    } else {
      SubsequenceDrop(r, s[..|s| - 1]);
      SubsequenceExtend(r[..|r| - 1], s[..|s| - 1], s[|s| - 1]);
      assert s[..|s| - 1] + [s[|s| - 1]] == s;
    }
  }

  /** The filter keeps input order and never lengthens the list. */
  lemma {:induction false} FilteredIsSubsequence(jobs: seq<Job>, conf: Config)
    ensures IsSubsequence(Filtered(jobs, conf), jobs)
    ensures |Filtered(jobs, conf)| <= |jobs|
  {
    if jobs != [] {
      var init, last := jobs[..|jobs| - 1], jobs[|jobs| - 1];
      FilteredIsSubsequence(init, conf);
      assert init + [last] == jobs;
      var f := Filtered(init, conf);
      if Keep(last, conf) {
        var r := f + [last];
        assert r[..|r| - 1] == f && r[|r| - 1] == jobs[|jobs| - 1];
      } else {
        SubsequenceExtend(f, init, last);
        assert Filtered(jobs, conf) == f + [] == f;
      }
    }
  }

  /** A listing is in the result exactly when it is in the input and passes all three tests. */
  lemma {:induction false} FilteredMembership(jobs: seq<Job>, conf: Config, j: Job)
    ensures j in Filtered(jobs, conf) <==> j in jobs && Keep(j, conf)
  {
    if jobs != [] {
      var init := jobs[..|jobs| - 1];
      FilteredMembership(init, conf, j);
      assert jobs == init + [jobs[|jobs| - 1]];
    }
  }

  /** Every listing in the result passes the filter, and every input listing that
      passes is in the result. */
  lemma {:induction false} FilteredExact(jobs: seq<Job>, conf: Config)
    ensures forall j :: j in Filtered(jobs, conf) ==> j in jobs && Keep(j, conf)
    ensures forall i :: 0 <= i < |jobs| && Keep(jobs[i], conf) ==> jobs[i] in Filtered(jobs, conf)
  {
    forall j | j in Filtered(jobs, conf) ensures j in jobs && Keep(j, conf) {
      FilteredMembership(jobs, conf, j);
    }
    forall i | 0 <= i < |jobs| && Keep(jobs[i], conf) ensures jobs[i] in Filtered(jobs, conf) {
      FilteredMembership(jobs, conf, jobs[i]);
    }
  }

  /** Filtering a concatenation filters each part: the filter decides each listing alone. */
  lemma {:induction false} FilteredAppend(a: seq<Job>, b: seq<Job>, conf: Config)
    ensures Filtered(a + b, conf) == Filtered(a, conf) + Filtered(b, conf)
    decreases |b|
  {
    if b == [] {
      assert a + b == a;
    } else {
      var init := b[..|b| - 1];
      FilteredAppend(a, init, conf);
      assert (a + b)[..|a + b| - 1] == a + init;
    }
  }

  /** `any` over an empty list is false: with no locations or no keywords configured,
      every listing is rejected. */
  lemma {:induction false} EmptyCriteriaRejectAll(jobs: seq<Job>, conf: Config)
    requires Locations(conf) == [] || Keywords(conf) == []
    ensures Filtered(jobs, conf) == []
  {
    if jobs != [] {
      EmptyCriteriaRejectAll(jobs[..|jobs| - 1], conf);
    }
  }

  /** An empty location string in the configuration matches every listing, including
      those without an address. */
  lemma {:induction false} EmptyLocationMatchesAll(j: Job, conf: Config)
    requires "" in Locations(conf)
    ensures LocationMatches(j, conf)
  {
    EmptyIsSubstring(Location(j));
  }

  /** A listing with no usable location passes only through an empty configured location. */
  lemma {:induction false} NoLocationNeedsEmptyCriterion(j: Job, conf: Config)
    requires Location(j) == ""
    ensures LocationMatches(j, conf) <==> "" in Locations(conf)
  {
    if "" in Locations(conf) {
      EmptyLocationMatchesAll(j, conf);
    }
    forall r | r in Locations(conf) && r != "" ensures !IsSubstring(r, "") {
      NothingNonEmptyInEmpty(r);
    }
  }

  // ----- The listing filter as written -----

  /** The location as `filter_jobs` computes it: `j.get("address", {}).get(...)` is
      evaluated before the `isinstance` guard, so an address that is present but not
      an object raises (None here) and the guard that follows never fires. */
  function LocationAsWritten(j: Job): (loc: Option<string>)
    ensures loc.None? <==> j.address.NotObject?
    ensures loc.Some? ==> loc.value == Location(j)
  {
    match j.address
    case Absent => Some("")
    case Object(f) => Some(f.GetOr(""))
    case NotObject => None
  }

  /** `filter_jobs` as written; None stands for the exception it raises. */
  function FilterAsWritten(jobs: seq<Job>, conf: Config): Option<seq<Job>>
  {
    if jobs == [] then Some([])
    else
      var init, last := jobs[..|jobs| - 1], jobs[|jobs| - 1];
      match FilterAsWritten(init, conf)
      case None => None
      case Some(f) =>
        if LocationAsWritten(last).None? then None
        else Some(f + (if Keep(last, conf) then [last] else []))
  }

  /** As written, the filter raises exactly when some listing's address is not an
      object, and otherwise agrees with the intended filter. */
  lemma {:induction false} FilterAsWrittenAgrees(jobs: seq<Job>, conf: Config)
    ensures FilterAsWritten(jobs, conf).None? <==> exists j | j in jobs :: j.address.NotObject?
    ensures FilterAsWritten(jobs, conf).Some? ==> FilterAsWritten(jobs, conf).value == Filtered(jobs, conf)
  {
    if jobs != [] {
      var init := jobs[..|jobs| - 1];
      FilterAsWrittenAgrees(init, conf);
      assert jobs == init + [jobs[|jobs| - 1]];
    }
  }

  /** A listing whose address is null, with an empty configured location: the guard
      at lines 127-128 means it to have location "" and pass, but the filter raises. */
  lemma NullAddressRaises()
    ensures var j := Job(None, Some("Acme"), Some("Engineer"), NotObject, Absent, None);
            var conf := Config(Some([""]), Some(["engineer"]), None);
            FilterAsWritten([j], conf) == None && Filtered([j], conf) == [j]
  {
    var j := Job(None, Some("Acme"), Some("Engineer"), NotObject, Absent, None);
    var conf := Config(Some([""]), Some(["engineer"]), None);
    EmptyLocationMatchesAll(j, conf);
    assert Lower("engineer") == "engineer";
    assert Title(j) == "engineer";
    assert OccursAt("engineer", Title(j), 0);
    assert IsSubstring(Lower("engineer"), Title(j));
    assert Keep(j, conf);
    assert [j][..0] == [];
  }

  /** A listing in Seoul for a backend engineer with three years passes criteria
      Seoul / engineer / 2 years; the same listing with one year does not. */
  lemma SeoulEngineerExample()
    ensures var conf := Config(Some(["Seoul"]), Some(["engineer"]), Some(2));
            var j := Job(Some(1), Some("Acme"), Some("Backend Engineer"),
                         Object(Some("Seoul, Gangnam-gu")), Absent, Some(3));
            Keep(j, conf) && !Keep(j.(annualFrom := Some(1)), conf)
  {
    var conf := Config(Some(["Seoul"]), Some(["engineer"]), Some(2));
    var j := Job(Some(1), Some("Acme"), Some("Backend Engineer"),
                 Object(Some("Seoul, Gangnam-gu")), Absent, Some(3));
    assert OccursAt("Seoul", Location(j), 0);
    assert IsSubstring("Seoul", Location(j));
    assert Lower("engineer") == "engineer";
    assert Title(j) == "backend engineer";
    assert OccursAt("engineer", Title(j), 8);
    assert IsSubstring(Lower("engineer"), Title(j));
  }
}
