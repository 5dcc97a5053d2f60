/**
 * The plan endpoint's matcher: from a bedroom count and a requested floor
 * area it picks the catalog plan with exactly that size key, or else the
 * largest size below the request, or else the smallest size above it, each
 * only when the plan's image file is present.
 */
module PlanMatcher {
  import opened Wrappers
  import opened Text
  import opened Decimal
  import opened Extrema
  import opened Catalog

  /** Which of the reply flags `exact_match`, `smaller_plan`, `larger_plan` is set. */
  datatype MatchKind = ExactMatch | SmallerPlan | LargerPlan

  /** A successful reply: the matched plan and how it relates to the request. */
  datatype PlanMatch = PlanMatch(
    kind: MatchKind,
    bhk: string,
    size: string,
    requestedSize: string,
    imageUrl: string,
    directLink: string,
    description: string)

  /** The error replies of the plan endpoint. */
  datatype PlanError =
    | InvalidRequest
    | UnknownCategory(bhk: string)
    | PlanFileNotFound(filename: string)
    | NoPlanNearSize(bhk: string, requestedSize: string, availableSizes: set<string>)

  /** The HTTP status each error is answered with. */
  function StatusCode(e: PlanError): nat
  {
    if e.InvalidRequest? then 400 else 404
  }

  /** The route the plan images are served under. */
  const ImageRoute: string := "/houseplans/"

  /** The reply for a plan whose image file is present. */
  function Found(kind: MatchKind, bhk: string, size: string, requested: string, plan: Plan): PlanMatch
  {
    var url := ImageRoute + plan.filename;
    PlanMatch(kind, bhk, size, requested, url, url, plan.description)
  }

  /** The category key the endpoint builds from the `bedrooms` value. */
  function CategoryKey(bedrooms: string): string
  {
    bedrooms + "bhk"
  }

  /** A footage string the endpoint accepts: non-empty and all digits. */
  predicate ValidFootage(footage: string)
  {
    |footage| > 0 && IsDigits(footage)
  }

  /** The sizes of a category, as numbers. */
  function SizeValues(plans: Sizes): set<nat>
    requires CanonicalSizes(plans)
  {
    set k | k in plans :: ParseNat(k)
  }

  /** The sizes strictly below `n`: app.py's `smaller_plans`. */
  function SizesBelow(plans: Sizes, n: nat): set<nat>
    requires CanonicalSizes(plans)
  {
    set m | m in SizeValues(plans) && m < n
  }

  /** The sizes strictly above `n`: app.py's `larger_plans`. */
  function SizesAbove(plans: Sizes, n: nat): set<nat>
    requires CanonicalSizes(plans)
  {
    set m | m in SizeValues(plans) && m > n
  }

  /** A size computed as a number is found again under the key `str(size)`. */
  lemma KeyOfSize(plans: Sizes, m: nat)
    requires CanonicalSizes(plans)
    requires m in SizeValues(plans)
    ensures NatToString(m) in plans
  {
    var k :| k in plans && ParseNat(k) == m;
    CanonicalRoundTrip(k);
  }

  /** The plan stored under the key `str(m)`, for a chosen neighbour size `m`. */
  function PlanOfSize(plans: Sizes, m: nat): Plan
    requires CanonicalSizes(plans)
    requires m in SizeValues(plans)
  {
    KeyOfSize(plans, m);
    plans[NatToString(m)]
  }

  /** Matching within a known category, for a validated footage string. */
  function MatchInCategory(plans: Sizes, present: set<string>, bhk: string, footage: string)
    : Result<PlanMatch, PlanError>
    requires CanonicalSizes(plans)
    requires ValidFootage(footage)
  {
    if footage in plans then
      var plan := plans[footage];
      if plan.filename in present then Success(Found(ExactMatch, bhk, footage, footage, plan))
      else Failure(PlanFileNotFound(plan.filename))
    else
      var requested := ParseNat(footage);
      var below := SizesBelow(plans, requested);
      var above := SizesAbove(plans, requested);
      if below != {} && PlanOfSize(plans, Max(below)).filename in present then
        Success(Found(SmallerPlan, bhk, NatToString(Max(below)), footage, PlanOfSize(plans, Max(below))))
      else if above != {} && PlanOfSize(plans, Min(above)).filename in present then
        Success(Found(LargerPlan, bhk, NatToString(Min(above)), footage, PlanOfSize(plans, Min(above))))
      else
        Failure(NoPlanNearSize(bhk, footage, plans.Keys))
  }

  /** The plan endpoint over catalog `cat`, where `present` is the set of
      image files present in the plan folder, `bedrooms` is the text of the
      request's bedrooms value and `rawFootage` that of its square footage. */
  function MatchPlan(cat: Catalog, present: set<string>, bedrooms: string, rawFootage: string)
    : Result<PlanMatch, PlanError>
    requires WellFormed(cat)
  {
    var footage := Strip(rawFootage);
    var bhk := CategoryKey(bedrooms);
    if bhk == [] || !ValidFootage(footage) then Failure(InvalidRequest)
    else if bhk !in cat then Failure(UnknownCategory(bhk))
    else MatchInCategory(cat[bhk], present, bhk, footage)
  }

  /** The plan endpoint over the fixed catalog. */
  function GetPlan(present: set<string>, bedrooms: string, rawFootage: string)
    : Result<PlanMatch, PlanError>
  {
    HousePlansWellFormed();
    MatchPlan(HousePlans, present, bedrooms, rawFootage)
  }
}
