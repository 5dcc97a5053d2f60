/**
 * The plan matcher on the fixed catalog: sample requests and the corner
 * cases of the code.
 *
 * Most examples are stated for one category at a time, on
 * `MatchInCategory`; the `GetPlan…` lemmas at the end carry a selection of
 * them to the endpoint itself, for the request texts a client sends.
 */
module PlanExamples {
  import opened Wrappers
  import opened Text
  import opened Decimal
  import opened Catalog
  import opened PlanMatcher
  import opened PlanProperties

  /** `GetPlan` is `MatchPlan` on the fixed catalog, whose categories are the
      three constants the examples name. */
  lemma GetPlanMatchesHousePlans(present: set<string>, bedrooms: string, raw: string)
    ensures WellFormed(HousePlans)
    ensures HousePlans.Keys == {"1bhk", "2bhk", "3bhk"}
    ensures HousePlans["1bhk"] == OneBhk && HousePlans["2bhk"] == TwoBhk && HousePlans["3bhk"] == ThreeBhk
    ensures GetPlan(present, bedrooms, raw) == MatchPlan(HousePlans, present, bedrooms, raw)
  {
    HousePlansWellFormed();
  }

  lemma ThreeDigits(s: string)
    requires |s| == 3 && IsDigits(s)
    ensures ParseNat(s) == 100 * DigitValue(s[0]) + 10 * DigitValue(s[1]) + DigitValue(s[2])
  {
    var p := s[..2];
    var q := p[..1];
    assert p[1] == s[1] && q[0] == s[0];
    assert ParseNat(q) == DigitValue(s[0]);
  }

  lemma FourDigits(s: string)
    requires |s| == 4 && IsDigits(s)
    ensures ParseNat(s)
      == 1000 * DigitValue(s[0]) + 100 * DigitValue(s[1]) + 10 * DigitValue(s[2]) + DigitValue(s[3])
  {
    var p := s[..3];
    assert p[0] == s[0] && p[1] == s[1] && p[2] == s[2];
    ThreeDigits(p);
  }

  lemma OneBhkValues()
    ensures ParseNat("400") == 400 && ParseNat("500") == 500 && ParseNat("520") == 520
    ensures ParseNat("560") == 560 && ParseNat("625") == 625 && ParseNat("760") == 760
    ensures ParseNat("900") == 900 && ParseNat("1225") == 1225 && ParseNat("1748") == 1748
  {
    OneBhkSmallValues();
    FourDigits("1225");
    FourDigits("1748");
  }

  lemma OneBhkSmallValues()
    ensures ParseNat("400") == 400 && ParseNat("500") == 500 && ParseNat("520") == 520
    ensures ParseNat("560") == 560 && ParseNat("625") == 625 && ParseNat("760") == 760
    ensures ParseNat("900") == 900
  {
    ThreeDigits("400");
    ThreeDigits("500");
    ThreeDigits("520");
    ThreeDigits("560");
    ThreeDigits("625");
    ThreeDigits("760");
    ThreeDigits("900");
  }

  lemma TwoBhkValues()
    ensures ParseNat("500") == 500 && ParseNat("700") == 700 && ParseNat("800") == 800
    ensures ParseNat("1060") == 1060 && ParseNat("1500") == 1500
  {
    ThreeDigits("500");
    ThreeDigits("700");
    ThreeDigits("800");
    FourDigits("1060");
    FourDigits("1500");
  }

  lemma ThreeBhkValues()
    ensures ParseNat("900") == 900 && ParseNat("1400") == 1400 && ParseNat("1450") == 1450
    ensures ParseNat("1580") == 1580 && ParseNat("1800") == 1800
  {
    ThreeDigits("900");
    FourDigits("1400");
    FourDigits("1450");
    FourDigits("1580");
    FourDigits("1800");
  }

  /** Below 650 sq ft, the greatest 2BHK size is 500. */
  lemma TwoBhkBelow650()
    ensures IsDigits("650") && ParseNat("650") == 650
    ensures GreatestBelow(TwoBhk, "500", 650)
  {
    TwoBhkValues();
    ThreeDigits("650");
  }

  /** Above 650 sq ft, the least 2BHK size is 700. */
  lemma TwoBhkAbove650()
    ensures IsDigits("650") && ParseNat("650") == 650
    ensures LeastAbove(TwoBhk, "700", 650)
  {
    TwoBhkValues();
    ThreeDigits("650");
  }

  /** Below 100 sq ft there is no 3BHK size; above it, the least is 900. */
  lemma ThreeBhkAround100()
    ensures IsDigits("100") && ParseNat("100") == 100
    ensures forall k :: k in ThreeBhk ==> ParseNat(k) >= 900
    ensures LeastAbove(ThreeBhk, "900", 100)
  {
    ThreeBhkValues();
    ThreeDigits("100");
  }

  /** "0500" is read as 500, and below 500 sq ft the greatest 1BHK size is 400. */
  lemma OneBhkBelowPadded500()
    ensures IsDigits("0500") && ParseNat("0500") == 500
    ensures GreatestBelow(OneBhk, "400", 500)
  {
    OneBhkValues();
    LeadingZeroSameValue("500");
    assert "0" + "500" == "0500";
  }

  /** The 1BHK plans the examples name. */
  lemma OneBhkPlans()
    ensures "500" in OneBhk && OneBhk["500"] == Plan("1bhk-500.jpg", "Spacious 1BHK with balcony")
    ensures "400" in OneBhk && OneBhk["400"] == Plan("1bhk-400.jpg", "Compact 1BHK with efficient space utilization")
  {
  }

  /** "0500" is not a 1BHK key, since every key is canonical. */
  lemma PaddedNotOneBhkKey()
    ensures "0500" !in OneBhk
  {
    OneBhkCanonical();
    assert !Canonical("0500");
  }

  /** "650" is not a 2BHK key; the 2BHK plans the examples name. */
  lemma TwoBhkPlans()
    ensures "650" !in TwoBhk
    ensures "500" in TwoBhk && TwoBhk["500"] == Plan("2bhk-500.jpg", "Compact 2BHK with smart space design")
    ensures "700" in TwoBhk && TwoBhk["700"] == Plan("2bhk-700.png", "Premium 2BHK with balcony and garden view")
  {
  }

  /** "100" is not a 3BHK key; the 3BHK plan the examples name. */
  lemma ThreeBhkPlans()
    ensures "100" !in ThreeBhk
    ensures "900" in ThreeBhk && ThreeBhk["900"] == Plan("3bhk-900.png", "Compact 3BHK with efficient layout")
  {
  }

  /** At 650 sq ft, each 2BHK neighbour branch can answer exactly when its
      plan's image is present. */
  lemma TwoBhkNeighbours650(present: set<string>)
    ensures SmallerAvailable(TwoBhk, present, 650) <==> "2bhk-500.jpg" in present
    ensures LargerAvailable(TwoBhk, present, 650) <==> "2bhk-700.png" in present
  {
    TwoBhkCanonical();
    TwoBhkBelow650();
    TwoBhkAbove650();
    TwoBhkPlans();
    forall k | k in TwoBhk && GreatestBelow(TwoBhk, k, 650)
      ensures k == "500"
    {
      GreatestBelowUnique(TwoBhk, k, "500", 650);
    }
    forall k | k in TwoBhk && LeastAbove(TwoBhk, k, 650)
      ensures k == "700"
    {
      LeastAboveUnique(TwoBhk, k, "700", 650);
    }
  }

  /** 1BHK at "500" with its image present: the exact plan. */
  lemma OneBhkExactExample(present: set<string>)
    requires "1bhk-500.jpg" in present
    ensures MatchInCategory(OneBhk, present, "1bhk", "500")
      == Success(PlanMatch(ExactMatch, "1bhk", "500", "500",
                           "/houseplans/1bhk-500.jpg", "/houseplans/1bhk-500.jpg",
                           "Spacious 1BHK with balcony"))
  {
    OneBhkCanonical();
    OneBhkValues();
    OneBhkPlans();
    assert "/houseplans/" + "1bhk-500.jpg" == "/houseplans/1bhk-500.jpg";
  }

  /** 1BHK at "500" with its image missing: a missing-file error, although the
      400 and 520 sq ft neighbours exist. */
  lemma OneBhkMissingExactExample(present: set<string>)
    requires "1bhk-500.jpg" !in present
    ensures MatchInCategory(OneBhk, present, "1bhk", "500") == Failure(PlanFileNotFound("1bhk-500.jpg"))
  {
    OneBhkCanonical();
    OneBhkValues();
    OneBhkPlans();
  }

  /** 2BHK at "650" with the 500 sq ft image present: the 500 sq ft plan,
      the largest below 650. */
  lemma TwoBhkSmallerExample(present: set<string>)
    requires "2bhk-500.jpg" in present
    ensures MatchInCategory(TwoBhk, present, "2bhk", "650")
      == Success(PlanMatch(SmallerPlan, "2bhk", "500", "650",
                           "/houseplans/2bhk-500.jpg", "/houseplans/2bhk-500.jpg",
                           "Compact 2BHK with smart space design"))
  {
    TwoBhkCanonical();
    TwoBhkBelow650();
    TwoBhkPlans();
    assert "/houseplans/" + "2bhk-500.jpg" == "/houseplans/2bhk-500.jpg";
    SmallerAnswer(TwoBhk, present, "2bhk", "650", "500");
  }

  /** 2BHK at "650" with the 500 sq ft image missing does not fail: it falls
      through to the 700 sq ft plan, the smallest above 650. */
  lemma TwoBhkFallsThroughExample(present: set<string>)
    requires "2bhk-500.jpg" !in present && "2bhk-700.png" in present
    ensures MatchInCategory(TwoBhk, present, "2bhk", "650")
      == Success(PlanMatch(LargerPlan, "2bhk", "700", "650",
                           "/houseplans/2bhk-700.png", "/houseplans/2bhk-700.png",
                           "Premium 2BHK with balcony and garden view"))
  {
    TwoBhkCanonical();
    TwoBhkAbove650();
    TwoBhkPlans();
    TwoBhkNeighbours650(present);
    assert "/houseplans/" + "2bhk-700.png" == "/houseplans/2bhk-700.png";
    LargerAnswer(TwoBhk, present, "2bhk", "650", "700");
  }

  /** 2BHK at "650" with neither neighbour's image present: no plan near that
      size, listing the category's sizes. */
  lemma TwoBhkNoPlanExample(present: set<string>)
    requires "2bhk-500.jpg" !in present && "2bhk-700.png" !in present
    ensures MatchInCategory(TwoBhk, present, "2bhk", "650") == Failure(NoPlanNearSize("2bhk", "650", TwoBhk.Keys))
  {
    TwoBhkCanonical();
    TwoBhkBelow650();
    TwoBhkPlans();
    TwoBhkNeighbours650(present);
    NoPlanAnswer(TwoBhk, present, "2bhk", "650");
  }

  /** 3BHK at "100": no size is below, so the 900 sq ft plan, the smallest above. */
  lemma ThreeBhkLargerExample(present: set<string>)
    requires "3bhk-900.png" in present
    ensures MatchInCategory(ThreeBhk, present, "3bhk", "100")
      == Success(PlanMatch(LargerPlan, "3bhk", "900", "100",
                           "/houseplans/3bhk-900.png", "/houseplans/3bhk-900.png",
                           "Compact 3BHK with efficient layout"))
  {
    ThreeBhkCanonical();
    ThreeBhkAround100();
    ThreeBhkPlans();
    assert "/houseplans/" + "3bhk-900.png" == "/houseplans/3bhk-900.png";
    assert !SmallerAvailable(ThreeBhk, present, 100);
    LargerAnswer(ThreeBhk, present, "3bhk", "100", "900");
  }

  /** 1BHK at "0500": not the key "500"; it is read as 500 sq ft, so the
      500 sq ft plan is skipped and the 400 sq ft plan below it is returned. */
  lemma OneBhkPaddedExample(present: set<string>)
    requires "1bhk-400.jpg" in present
    ensures MatchInCategory(OneBhk, present, "1bhk", "0500")
      == Success(PlanMatch(SmallerPlan, "1bhk", "400", "0500",
                           "/houseplans/1bhk-400.jpg", "/houseplans/1bhk-400.jpg",
                           "Compact 1BHK with efficient space utilization"))
  {
    OneBhkCanonical();
    OneBhkBelowPadded500();
    PaddedNotOneBhkKey();
    OneBhkPlans();
    assert "/houseplans/" + "1bhk-400.jpg" == "/houseplans/1bhk-400.jpg";
    SmallerAnswer(OneBhk, present, "1bhk", "0500", "400");
  }

  /** A footage of "abc" is an invalid request, whatever the category. */
  lemma NonDigitFootageExample(cat: Catalog, present: set<string>, bedrooms: string, raw: string)
    requires WellFormed(cat)
    requires Strip(raw) == "abc"
    ensures MatchPlan(cat, present, bedrooms, raw) == Failure(InvalidRequest)
  {
    assert !IsDigit("abc"[0]);
  }

  /** Surrounding whitespace is not part of the requested size. */
  lemma PaddedFootageStrips()
    ensures Strip(" 0500 ") == "0500"
  {
    assert CoreAt(" 0500 ", "0500", 1);
    StripIsCore(" 0500 ", "0500", 1);
  }

  /** The endpoint, for bedrooms "1" and a valid footage, answers as the
      1BHK category does. */
  lemma GetPlanOneBhk(present: set<string>, raw: string)
    requires ValidFootage(Strip(raw))
    ensures CanonicalSizes(OneBhk) && GetPlan(present, "1", raw) == MatchInCategory(OneBhk, present, "1bhk", Strip(raw))
  {
    GetPlanMatchesHousePlans(present, "1", raw);
    assert "1" + "bhk" == "1bhk";
    MatchPlanDelegates(HousePlans, present, "1", raw);
  }

  /** The endpoint, for bedrooms "2" and a valid footage, answers as the
      2BHK category does. */
  lemma GetPlanTwoBhk(present: set<string>, raw: string)
    requires ValidFootage(Strip(raw))
    ensures CanonicalSizes(TwoBhk) && GetPlan(present, "2", raw) == MatchInCategory(TwoBhk, present, "2bhk", Strip(raw))
  {
    GetPlanMatchesHousePlans(present, "2", raw);
    assert "2" + "bhk" == "2bhk";
    MatchPlanDelegates(HousePlans, present, "2", raw);
  }

  lemma Digits650()
    ensures ValidFootage("650")
  {
    assert IsDigit('6') && IsDigit('5') && IsDigit('0');
  }

  lemma Digits500()
    ensures ValidFootage("500")
  {
    assert IsDigit('5') && IsDigit('0');
  }

  /** The endpoint, for bedrooms "2" and a footage that strips to "650", with
      the 500 sq ft image present: the 500 sq ft 2BHK plan, flagged smaller. */
  lemma GetPlanTwoBhkSmaller(present: set<string>, raw: string)
    requires Strip(raw) == "650" && "2bhk-500.jpg" in present
    ensures GetPlan(present, "2", raw)
      == Success(PlanMatch(SmallerPlan, "2bhk", "500", "650",
                           "/houseplans/2bhk-500.jpg", "/houseplans/2bhk-500.jpg",
                           "Compact 2BHK with smart space design"))
  {
    Digits650();
    GetPlanTwoBhk(present, raw);
    TwoBhkSmallerExample(present);
  }

  /** The endpoint, for bedrooms "2" and "650", with the 500 sq ft image
      missing and the 700 sq ft one present: the 700 sq ft plan, flagged larger. */
  lemma GetPlanTwoBhkFallsThrough(present: set<string>, raw: string)
    requires Strip(raw) == "650"
    requires "2bhk-500.jpg" !in present && "2bhk-700.png" in present
    ensures GetPlan(present, "2", raw)
      == Success(PlanMatch(LargerPlan, "2bhk", "700", "650",
                           "/houseplans/2bhk-700.png", "/houseplans/2bhk-700.png",
                           "Premium 2BHK with balcony and garden view"))
  {
    Digits650();
    GetPlanTwoBhk(present, raw);
    TwoBhkFallsThroughExample(present);
  }

  /** The endpoint, for bedrooms "2" and "650", with neither neighbour image
      present: no plan near that size, answered with 404. */
  lemma GetPlanTwoBhkNoPlan(present: set<string>, raw: string)
    requires Strip(raw) == "650"
    requires "2bhk-500.jpg" !in present && "2bhk-700.png" !in present
    ensures GetPlan(present, "2", raw) == Failure(NoPlanNearSize("2bhk", "650", TwoBhk.Keys))
    ensures StatusCode(GetPlan(present, "2", raw).error) == 404
  {
    Digits650();
    GetPlanTwoBhk(present, raw);
    TwoBhkNoPlanExample(present);
  }

  /** The endpoint, for bedrooms "1" and the footage " 0500 ": the padding
      is stripped, "0500" is not the key "500", and the 400 sq ft plan below
      500 is returned with "0500" as the requested size. */
  lemma GetPlanPaddedFootage(present: set<string>)
    requires "1bhk-400.jpg" in present
    ensures GetPlan(present, "1", " 0500 ")
      == Success(PlanMatch(SmallerPlan, "1bhk", "400", "0500",
                           "/houseplans/1bhk-400.jpg", "/houseplans/1bhk-400.jpg",
                           "Compact 1BHK with efficient space utilization"))
  {
    PaddedFootageStrips();
    OneBhkBelowPadded500();
    GetPlanOneBhk(present, " 0500 ");
    OneBhkPaddedExample(present);
  }

  /** The endpoint, for bedrooms "4" and a valid footage: the category
      "4bhk" is not in the catalog, answered with 404. */
  lemma GetPlanUnknownCategory(present: set<string>, raw: string)
    requires Strip(raw) == "500"
    ensures GetPlan(present, "4", raw) == Failure(UnknownCategory("4bhk"))
    ensures StatusCode(GetPlan(present, "4", raw).error) == 404
  {
    GetPlanMatchesHousePlans(present, "4", raw);
    Digits500();
    assert "4" + "bhk" == "4bhk";
    UnknownCategoryIff(HousePlans, present, "4", raw);
  }

  /** The endpoint, for any bedrooms and a footage that strips to "abc":
      an invalid request, answered with 400. */
  lemma GetPlanNonDigitFootage(present: set<string>, bedrooms: string, raw: string)
    requires Strip(raw) == "abc"
    ensures GetPlan(present, bedrooms, raw) == Failure(InvalidRequest)
    ensures StatusCode(GetPlan(present, bedrooms, raw).error) == 400
  {
    GetPlanMatchesHousePlans(present, bedrooms, raw);
    NonDigitFootageExample(HousePlans, present, bedrooms, raw);
  }
}
