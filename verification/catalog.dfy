/**
 * The house-plan catalog: bedroom category -> size in square feet (as a
 * string key) -> plan image and description. It is a constant and is never
 * changed.
 */
module Catalog {
  import opened Decimal

  datatype Plan = Plan(filename: string, description: string)

  /** The plans of one bedroom category, keyed by size. */
  type Sizes = map<string, Plan>

  type Catalog = map<string, Sizes>

  /** Every size key is written as `str(n)` would write it. */
  predicate CanonicalSizes(plans: Sizes)
  {
    forall k :: k in plans ==> Canonical(k)
  }

  /** The catalog invariant: every size key of every category is canonical.
      It is what lets a size computed as a number be looked up again as
      `str(size)`. */
  predicate WellFormed(cat: Catalog)
  {
    forall bhk :: bhk in cat ==> CanonicalSizes(cat[bhk])
  }

  /** The filenames a category's plans refer to. */
  function PlanFiles(plans: Sizes): set<string>
  {
    set k | k in plans :: plans[k].filename
  }


  const OneBhk: Sizes := map[
    "400" := Plan("1bhk-400.jpg", "Compact 1BHK with efficient space utilization"),
    "500" := Plan("1bhk-500.jpg", "Spacious 1BHK with balcony"),
    "520" := Plan("1bhk-520.jpg", "Efficient 1BHK with modern layout"),
    "560" := Plan("1bhk-560.png", "Cozy 1BHK with open kitchen"),
    "625" := Plan("1bhk-625.jpg", "Modern 1BHK with extra storage"),
    "760" := Plan("1bhk-760.png", "Luxury 1BHK with premium amenities"),
    "900" := Plan("1bhk-900.png", "Executive 1BHK with spacious design"),
    "1225" := Plan("1bhk-1225.png", "Premium 1BHK with garden view"),
    "1748" := Plan("1bhk-1748.png", "Deluxe 1BHK with rooftop access")
  ]

  const TwoBhk: Sizes := map[
    "500" := Plan("2bhk-500.jpg", "Compact 2BHK with smart space design"),
    "700" := Plan("2bhk-700.png", "Premium 2BHK with balcony and garden view"),
    "800" := Plan("2bhk-800.png", "Spacious 2BHK with utility area"),
    "1060" := Plan("2bhk-1060.png", "Modern 2BHK with open kitchen"),
    "1500" := Plan("2bhk-1500.png", "Luxury 2BHK with master suite")
  ]

  const ThreeBhk: Sizes := map[
    "900" := Plan("3bhk-900.png", "Compact 3BHK with efficient layout"),
    "1400" := Plan("3bhk-1400.png", "Spacious 3BHK with modern amenities"),
    "1450" := Plan("3bhk-1450.png", "Luxury 3BHK with master suite"),
    "1580" := Plan("3bhk-1580.png", "Premium 3BHK with balcony and garden view"),
    "1800" := Plan("3bhk-1800.png", "Deluxe 3BHK with extensive amenities")
  ]

  /** The fixed catalog the plan endpoint serves. */
  const HousePlans: Catalog := map["1bhk" := OneBhk, "2bhk" := TwoBhk, "3bhk" := ThreeBhk]

  lemma OneBhkCanonical()
    ensures CanonicalSizes(OneBhk)
  {
    assert Canonical("400");
    assert Canonical("500");
    assert Canonical("520");
    assert Canonical("560");
    assert Canonical("625");
    assert Canonical("760");
    assert Canonical("900");
    assert Canonical("1225");
    assert Canonical("1748");
  }

  lemma TwoBhkCanonical()
    ensures CanonicalSizes(TwoBhk)
  {
    assert Canonical("500");
    assert Canonical("700");
    assert Canonical("800");
    assert Canonical("1060");
    assert Canonical("1500");
  }

  lemma ThreeBhkCanonical()
    ensures CanonicalSizes(ThreeBhk)
  {
    assert Canonical("900");
    assert Canonical("1400");
    assert Canonical("1450");
    assert Canonical("1580");
    assert Canonical("1800");
  }

  /** The fixed catalog satisfies the catalog invariant. */
  lemma HousePlansWellFormed()
    ensures WellFormed(HousePlans)
  {
    OneBhkCanonical();
    TwoBhkCanonical();
    ThreeBhkCanonical();
  }
}
