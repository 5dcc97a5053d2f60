/**
 * What the plan endpoint promises, stated against reference definitions
 * ("the greatest size below the request", "the least size above it") that
 * do not mention how the matcher computes them.
 */
module PlanProperties {
  import opened Wrappers
  import opened Text
  import opened Decimal
  import opened Extrema
  import opened Catalog
  import opened PlanMatcher

  /** `k` is the size key of `plans` with the greatest value below `n`. */
  predicate GreatestBelow(plans: Sizes, k: string, n: nat)
    requires CanonicalSizes(plans)
  {
    && k in plans
    && ParseNat(k) < n
    && forall j :: j in plans && ParseNat(j) < n ==> ParseNat(j) <= ParseNat(k)
  }

  /** `k` is the size key of `plans` with the least value above `n`. */
  predicate LeastAbove(plans: Sizes, k: string, n: nat)
    requires CanonicalSizes(plans)
  {
    && k in plans
    && ParseNat(k) > n
    && forall j :: j in plans && ParseNat(j) > n ==> ParseNat(k) <= ParseNat(j)
  }

  /** Only one key can be the greatest size below a request. */
  lemma GreatestBelowUnique(plans: Sizes, k1: string, k2: string, n: nat)
    requires CanonicalSizes(plans)
    requires GreatestBelow(plans, k1, n) && GreatestBelow(plans, k2, n)
    ensures k1 == k2
  {
    CanonicalInjective(k1, k2);
  }

  /** Only one key can be the least size above a request. */
  lemma LeastAboveUnique(plans: Sizes, k1: string, k2: string, n: nat)
    requires CanonicalSizes(plans)
    requires LeastAbove(plans, k1, n) && LeastAbove(plans, k2, n)
    ensures k1 == k2
  {
    CanonicalInjective(k1, k2);
  }

  /** The smaller-plan branch can answer: a greatest size below exists and its file is present. */
  predicate SmallerAvailable(plans: Sizes, present: set<string>, n: nat)
    requires CanonicalSizes(plans)
  {
    exists k :: k in plans && GreatestBelow(plans, k, n) && plans[k].filename in present
  }

  /** The larger-plan branch can answer: a least size above exists and its file is present. */
  predicate LargerAvailable(plans: Sizes, present: set<string>, n: nat)
    requires CanonicalSizes(plans)
  {
    exists k :: k in plans && LeastAbove(plans, k, n) && plans[k].filename in present
  }

  /** The maximum the matcher computes is the greatest size below, and that
      key is the only one that is. */
  lemma MaxBelowIsGreatest(plans: Sizes, n: nat, k: string)
    requires CanonicalSizes(plans)
    ensures GreatestBelow(plans, k, n)
      <==> SizesBelow(plans, n) != {} && k == NatToString(Max(SizesBelow(plans, n)))
  {
    var below := SizesBelow(plans, n);
    if GreatestBelow(plans, k, n) {
      assert ParseNat(k) in below;
      var m := Max(below);
      KeyOfSize(plans, m);
      CanonicalRoundTrip(k);
    }
    if below != {} && k == NatToString(Max(below)) {
      var m := Max(below);
      KeyOfSize(plans, m);
      forall j | j in plans && ParseNat(j) < n
        ensures ParseNat(j) <= m
      {
        assert ParseNat(j) in below;
      }
    }
  }

  /** The minimum the matcher computes is the least size above, and that key
      is the only one that is. */
  lemma MinAboveIsLeast(plans: Sizes, n: nat, k: string)
    requires CanonicalSizes(plans)
    ensures LeastAbove(plans, k, n)
      <==> SizesAbove(plans, n) != {} && k == NatToString(Min(SizesAbove(plans, n)))
  {
    var above := SizesAbove(plans, n);
    if LeastAbove(plans, k, n) {
      assert ParseNat(k) in above;
      var m := Min(above);
      KeyOfSize(plans, m);
      CanonicalRoundTrip(k);
    }
    if above != {} && k == NatToString(Min(above)) {
      var m := Min(above);
      KeyOfSize(plans, m);
      forall j | j in plans && ParseNat(j) > n
        ensures m <= ParseNat(j)
      {
        assert ParseNat(j) in above;
      }
    }
  }

  /** The smaller branch of the matcher answers exactly when `SmallerAvailable` holds. */
  lemma SmallerBranchTaken(plans: Sizes, present: set<string>, n: nat)
    requires CanonicalSizes(plans)
    ensures SmallerAvailable(plans, present, n)
      <==> (var below := SizesBelow(plans, n);
            below != {} && PlanOfSize(plans, Max(below)).filename in present)
  {
    var below := SizesBelow(plans, n);
    if below != {} {
      var k := NatToString(Max(below));
      MaxBelowIsGreatest(plans, n, k);
      forall j | GreatestBelow(plans, j, n)
        ensures j == k
      {
        MaxBelowIsGreatest(plans, n, j);
      }
    } else {
      forall j | j in plans
        ensures !GreatestBelow(plans, j, n)
      {
        MaxBelowIsGreatest(plans, n, j);
      }
    }
  }

  /** The larger branch of the matcher answers exactly when `LargerAvailable` holds. */
  lemma LargerBranchTaken(plans: Sizes, present: set<string>, n: nat)
    requires CanonicalSizes(plans)
    ensures LargerAvailable(plans, present, n)
      <==> (var above := SizesAbove(plans, n);
            above != {} && PlanOfSize(plans, Min(above)).filename in present)
  {
    var above := SizesAbove(plans, n);
    if above != {} {
      var k := NatToString(Min(above));
      MinAboveIsLeast(plans, n, k);
      forall j | LeastAbove(plans, j, n)
        ensures j == k
      {
        MinAboveIsLeast(plans, n, j);
      }
    } else {
      forall j | j in plans
        ensures !LeastAbove(plans, j, n)
      {
        MinAboveIsLeast(plans, n, j);
      }
    }
  }

  /** The request is rejected as invalid exactly when the stripped footage is
      empty or not all digits; the category text never makes it invalid, and
      the catalog and the files are not looked at. Only that rejection is
      answered with 400; every other error is answered with 404. */
  lemma InvalidRequestIff(cat: Catalog, present: set<string>, bedrooms: string, raw: string)
    requires WellFormed(cat)
    ensures MatchPlan(cat, present, bedrooms, raw) == Failure(InvalidRequest) <==>
        !ValidFootage(Strip(raw))
    ensures var r := MatchPlan(cat, present, bedrooms, raw);
      r.Failure? ==> StatusCode(r.error) == if ValidFootage(Strip(raw)) then 404 else 400
  {
  }

  /** An unknown category is reported, with its key, exactly when the footage
      is valid and `"<bedrooms>bhk"` is not a catalog category. */
  lemma UnknownCategoryIff(cat: Catalog, present: set<string>, bedrooms: string, raw: string)
    requires WellFormed(cat)
    ensures var r := MatchPlan(cat, present, bedrooms, raw);
      (r.Failure? && r.error.UnknownCategory? <==>
          ValidFootage(Strip(raw)) && bedrooms + "bhk" !in cat)
      && (r.Failure? && r.error.UnknownCategory? ==> r.error.bhk == bedrooms + "bhk")
  {
  }

  /** A footage string that is itself a size key is answered from that key
      alone: the plan when its file is present, otherwise a missing-file error
      naming it, and no neighbour is tried. */
  lemma ExactKeyAnswer(cat: Catalog, present: set<string>, bedrooms: string, raw: string)
    requires WellFormed(cat)
    requires ValidFootage(Strip(raw))
    requires bedrooms + "bhk" in cat && Strip(raw) in cat[bedrooms + "bhk"]
    ensures var bhk := bedrooms + "bhk";
      var f := Strip(raw);
      var plan := cat[bhk][f];
      var url := "/houseplans/" + plan.filename;
      MatchPlan(cat, present, bedrooms, raw)
        == if plan.filename in present
           then Success(PlanMatch(ExactMatch, bhk, f, f, url, url, plan.description))
           else Failure(PlanFileNotFound(plan.filename))
  {
  }

  /** An exact match is reported exactly when the footage string is a size key
      of the category and that plan's file is present. */
  lemma ExactMatchIff(cat: Catalog, present: set<string>, bedrooms: string, raw: string)
    requires WellFormed(cat)
    ensures var r := MatchPlan(cat, present, bedrooms, raw);
      var bhk := bedrooms + "bhk";
      var f := Strip(raw);
      r.Success? && r.value.kind == ExactMatch <==>
          ValidFootage(f) && bhk in cat && f in cat[bhk] && cat[bhk][f].filename in present
  {
  }

  /** A missing-file error is only ever about the exact key's plan. */
  lemma MissingFileOnlyForExactKey(cat: Catalog, present: set<string>, bedrooms: string, raw: string)
    requires WellFormed(cat)
    ensures var r := MatchPlan(cat, present, bedrooms, raw);
      var bhk := bedrooms + "bhk";
      var f := Strip(raw);
      r.Failure? && r.error.PlanFileNotFound? ==>
          bhk in cat && f in cat[bhk]
            && r.error.filename == cat[bhk][f].filename && r.error.filename !in present
  {
  }

  /** A smaller plan is reported exactly when the footage is valid and not a
      key, and the greatest size below the request has its file present; the
      size reported is that greatest size below. */
  lemma SmallerPlanIff(cat: Catalog, present: set<string>, bedrooms: string, raw: string)
    requires WellFormed(cat)
    ensures var r := MatchPlan(cat, present, bedrooms, raw);
      var bhk := bedrooms + "bhk";
      var f := Strip(raw);
      (r.Success? && r.value.kind == SmallerPlan <==>
          ValidFootage(f) && bhk in cat && f !in cat[bhk]
             && SmallerAvailable(cat[bhk], present, ParseNat(f)))
      && (r.Success? && r.value.kind == SmallerPlan ==>
          GreatestBelow(cat[bhk], r.value.size, ParseNat(f)))
  {
    var bhk := bedrooms + "bhk";
    var f := Strip(raw);
    if ValidFootage(f) && bhk in cat && f !in cat[bhk] {
      var plans := cat[bhk];
      var n := ParseNat(f);
      SmallerBranchTaken(plans, present, n);
      var below := SizesBelow(plans, n);
      if below != {} {
        MaxBelowIsGreatest(plans, n, NatToString(Max(below)));
      }
    }
  }

  /** A larger plan is reported exactly when the footage is valid and not a
      key, the smaller branch cannot answer (no size below, or its file is
      missing), and the least size above the request has its file present;
      the size reported is that least size above. */
  lemma LargerPlanIff(cat: Catalog, present: set<string>, bedrooms: string, raw: string)
    requires WellFormed(cat)
    ensures var r := MatchPlan(cat, present, bedrooms, raw);
      var bhk := bedrooms + "bhk";
      var f := Strip(raw);
      (r.Success? && r.value.kind == LargerPlan <==>
          ValidFootage(f) && bhk in cat && f !in cat[bhk]
             && !SmallerAvailable(cat[bhk], present, ParseNat(f))
             && LargerAvailable(cat[bhk], present, ParseNat(f)))
      && (r.Success? && r.value.kind == LargerPlan ==>
          LeastAbove(cat[bhk], r.value.size, ParseNat(f)))
  {
    var bhk := bedrooms + "bhk";
    var f := Strip(raw);
    if ValidFootage(f) && bhk in cat && f !in cat[bhk] {
      var plans := cat[bhk];
      var n := ParseNat(f);
      SmallerBranchTaken(plans, present, n);
      LargerBranchTaken(plans, present, n);
      var above := SizesAbove(plans, n);
      if above != {} {
        MinAboveIsLeast(plans, n, NatToString(Min(above)));
      }
    }
  }

  /** "No house plans available" for a known category is reported exactly when
      the footage is valid and not a key and neither neighbour branch can
      answer; it carries the category, the request and all the category's sizes. */
  lemma NoPlanNearSizeIff(cat: Catalog, present: set<string>, bedrooms: string, raw: string)
    requires WellFormed(cat)
    ensures var r := MatchPlan(cat, present, bedrooms, raw);
      var bhk := bedrooms + "bhk";
      var f := Strip(raw);
      (r.Failure? && r.error.NoPlanNearSize? <==>
          ValidFootage(f) && bhk in cat && f !in cat[bhk]
             && !SmallerAvailable(cat[bhk], present, ParseNat(f))
             && !LargerAvailable(cat[bhk], present, ParseNat(f)))
      && (r.Failure? && r.error.NoPlanNearSize? ==>
          r.error == NoPlanNearSize(bhk, f, cat[bhk].Keys))
  {
    var bhk := bedrooms + "bhk";
    var f := Strip(raw);
    if ValidFootage(f) && bhk in cat && f !in cat[bhk] {
      SmallerBranchTaken(cat[bhk], present, ParseNat(f));
      LargerBranchTaken(cat[bhk], present, ParseNat(f));
    }
  }

  /** Every successful reply describes a catalog plan of the requested
      category whose file is present: its size is a key, its image URL is the
      image route followed by the plan's filename, its description is the
      plan's, the requested size is the stripped footage text, and the flag
      set agrees with how the size compares with the request. */
  lemma SuccessDescribesCatalogPlan(cat: Catalog, present: set<string>, bedrooms: string, raw: string)
    requires WellFormed(cat)
    ensures var r := MatchPlan(cat, present, bedrooms, raw);
      var bhk := bedrooms + "bhk";
      r.Success? ==>
        var m := r.value;
        && m.bhk == bhk && bhk in cat
        && m.size in cat[bhk]
        && m.requestedSize == Strip(raw) && ValidFootage(m.requestedSize)
        && m.imageUrl == "/houseplans/" + cat[bhk][m.size].filename
        && m.directLink == m.imageUrl
        && m.description == cat[bhk][m.size].description
        && cat[bhk][m.size].filename in present
        && (m.kind == ExactMatch <==> m.size == m.requestedSize)
        && (m.kind == SmallerPlan <==> ParseNat(m.size) < ParseNat(m.requestedSize))
        && (m.kind == LargerPlan <==> ParseNat(m.size) > ParseNat(m.requestedSize))
  {
    var r := MatchPlan(cat, present, bedrooms, raw);
    var bhk := bedrooms + "bhk";
    var f := Strip(raw);
    if r.Success? {
      var plans := cat[bhk];
      var n := ParseNat(f);
      if f !in plans {
        var below := SizesBelow(plans, n);
        var above := SizesAbove(plans, n);
        if below != {} {
          KeyOfSize(plans, Max(below));
        }
        if above != {} {
          KeyOfSize(plans, Min(above));
        }
      }
    }
  }

  /** The reply depends on the folder contents only through the files of the
      requested category's plans. */
  lemma OnlyCategoryFilesMatter(cat: Catalog, present1: set<string>, present2: set<string>,
                                bedrooms: string, raw: string)
    requires WellFormed(cat)
    requires bedrooms + "bhk" in cat ==>
        present1 * PlanFiles(cat[bedrooms + "bhk"]) == present2 * PlanFiles(cat[bedrooms + "bhk"])
    ensures MatchPlan(cat, present1, bedrooms, raw) == MatchPlan(cat, present2, bedrooms, raw)
  {
    var bhk := bedrooms + "bhk";
    var f := Strip(raw);
    if ValidFootage(f) && bhk in cat {
      var plans := cat[bhk];
      forall k | k in plans
        ensures plans[k].filename in present1 <==> plans[k].filename in present2
      {
        var file := plans[k].filename;
        assert file in PlanFiles(plans);
        assert file in present1 ==> file in present1 * PlanFiles(plans);
        assert file in present2 ==> file in present2 * PlanFiles(plans);
      }
      var n := ParseNat(f);
      var below := SizesBelow(plans, n);
      var above := SizesAbove(plans, n);
      if below != {} {
        KeyOfSize(plans, Max(below));
        assert PlanOfSize(plans, Max(below)) == plans[NatToString(Max(below))];
      }
      if above != {} {
        KeyOfSize(plans, Min(above));
        assert PlanOfSize(plans, Min(above)) == plans[NatToString(Min(above))];
      }
    }
  }

  /** A zero-padded footage such as "0500" never matches exactly, even when
      the catalog holds that size: the exact test compares text, and the
      neighbour search skips sizes equal to the request. */
  lemma PaddedFootageNeverExact(cat: Catalog, present: set<string>, bedrooms: string, raw: string)
    requires WellFormed(cat)
    requires |Strip(raw)| > 1 && Strip(raw)[0] == '0'
    ensures var r := MatchPlan(cat, present, bedrooms, raw);
      r.Success? ==> r.value.kind != ExactMatch && ParseNat(r.value.size) != ParseNat(r.value.requestedSize)
  {
    SuccessDescribesCatalogPlan(cat, present, bedrooms, raw);
  }

  /** For a valid footage and a known category, the endpoint's reply is the
      category matcher's reply on the stripped footage. */
  lemma MatchPlanDelegates(cat: Catalog, present: set<string>, bedrooms: string, raw: string)
    requires WellFormed(cat)
    requires ValidFootage(Strip(raw)) && bedrooms + "bhk" in cat
    ensures MatchPlan(cat, present, bedrooms, raw)
      == MatchInCategory(cat[bedrooms + "bhk"], present, bedrooms + "bhk", Strip(raw))
  {
  }

  /** Within a category: a footage that is not a key, whose greatest size
      below has its file present, is answered with that plan, flagged smaller. */
  lemma SmallerAnswer(plans: Sizes, present: set<string>, bhk: string, footage: string, k: string)
    requires CanonicalSizes(plans) && ValidFootage(footage) && footage !in plans
    requires GreatestBelow(plans, k, ParseNat(footage)) && plans[k].filename in present
    ensures var url := "/houseplans/" + plans[k].filename;
      MatchInCategory(plans, present, bhk, footage)
        == Success(PlanMatch(SmallerPlan, bhk, k, footage, url, url, plans[k].description))
  {
    MaxBelowIsGreatest(plans, ParseNat(footage), k);
  }

  /** Within a category: a footage that is not a key, for which the smaller
      branch cannot answer and whose least size above has its file present,
      is answered with that plan, flagged larger. */
  lemma LargerAnswer(plans: Sizes, present: set<string>, bhk: string, footage: string, k: string)
    requires CanonicalSizes(plans) && ValidFootage(footage) && footage !in plans
    requires !SmallerAvailable(plans, present, ParseNat(footage))
    requires LeastAbove(plans, k, ParseNat(footage)) && plans[k].filename in present
    ensures var url := "/houseplans/" + plans[k].filename;
      MatchInCategory(plans, present, bhk, footage)
        == Success(PlanMatch(LargerPlan, bhk, k, footage, url, url, plans[k].description))
  {
    SmallerBranchTaken(plans, present, ParseNat(footage));
    MinAboveIsLeast(plans, ParseNat(footage), k);
  }

  /** Within a category: a footage that is not a key and for which neither
      neighbour branch can answer gets the "no house plans available" error,
      listing all the category's sizes. */
  lemma NoPlanAnswer(plans: Sizes, present: set<string>, bhk: string, footage: string)
    requires CanonicalSizes(plans) && ValidFootage(footage) && footage !in plans
    requires !SmallerAvailable(plans, present, ParseNat(footage))
    requires !LargerAvailable(plans, present, ParseNat(footage))
    ensures MatchInCategory(plans, present, bhk, footage) == Failure(NoPlanNearSize(bhk, footage, plans.Keys))
  {
    SmallerBranchTaken(plans, present, ParseNat(footage));
    LargerBranchTaken(plans, present, ParseNat(footage));
  }
}
