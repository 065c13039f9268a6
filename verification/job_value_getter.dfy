/**
 * scraper/jobs_to_csv/job_value_getter/job_value_getter.py: one job
 * record read block by block. The description and benefits blocks are
 * read under the detail panel `JDCol`, the button block under the
 * clicked listing button, and the company, ratings and reviews blocks
 * under an anchor that may be missing, in which case the whole block is
 * NA. A field whose lookup finds nothing keeps the NA its search starts
 * with.
 */
module JobValueGetter {
  import opened Wrappers
  import opened PyValues
  import opened Records
  import opened Dom
  import opened JobDicts
  import opened XpathTextGetter
  import opened ElementValueGetter
  import opened Fields

  const DescriptionColumns := ["Company_Name", "Rating", "Location", "Job_Title", "Description", "Salary"]
  const ButtonColumns := ["Job_age", "Easy_apply"]
  const CompanyColumns := ["Employees", "Type_of_ownership", "Sector", "Founded", "Industry", "Revenue_USD"]
  const RatingColumns := [
    "Friend_recommend", "CEO_approval", "Career_Opportunities", "Comp_&_Benefits",
    "Culture_&_Values", "Senior_Management", "Work/Life_Balance"]
  const ReviewColumns := ["Pros", "Cons"]
  const BenefitColumns := ["Benefits_rating", "Benefits_reviews"]

  const DescriptionFields := FieldList(DescriptionColumns,
    [EmployerName, DetailRating, JobLocation, JobTitle, JobDescription, DetailSalary], [false, false, false, false, false, false])
  const ButtonFields := FieldList(ButtonColumns, [JobAge, EasyApplyLabel], [false, false])
  const CompanyFields := FieldList(CompanyColumns,
    [SizeValue, TypeValue, SectorValue, FoundedValue, IndustryValue, RevenueValue], [false, false, false, false, false, false])
  const RatingFields := FieldList(RatingColumns,
    [FriendRecommend, CeoApproval, CareerOpportunities, CompBenefits, CultureValues, SeniorManagement, WorkLifeBalance],
    [false, false, false, false, false, false, false])
  const ReviewFields := FieldList(ReviewColumns, [ProsTexts, ConsTexts], [true, true])
  const BenefitFields := FieldList(BenefitColumns, [Query.BenefitsRatingContinued, BenefitsHighlights], [false, true])

  /** The 25 columns of a record, in order. */
  const JobColumns := DescriptionColumns + ButtonColumns + CompanyColumns + RatingColumns + ReviewColumns + BenefitColumns

  /**
   * The values a block of fresh searches yields under `scope`: NA
   * throughout when the scope is missing, otherwise each field's lookup,
   * NA for a single field whose lookup finds nothing.
   */
  function SearchBlock(p: Page, scope: Option<Node>, fields: seq<Field>): (r: Record)
    ensures Keys(r) == Columns(fields)
  {
    if fields == [] then []
    else
      var v := match scope case None => NA case Some(s) => Resolved(p, s, XPath(fields[0].query), fields[0].isList, NA);
      [(fields[0].column, v)] + SearchBlock(p, scope, fields[1..])
  }

  /** Field by field: NA throughout without a scope, each field's own lookup with one. */
  lemma {:induction false} SearchBlockValues(p: Page, scope: Option<Node>, fields: seq<Field>)
    ensures |SearchBlock(p, scope, fields)| == |fields|
    ensures scope.None? ==> AllNA(SearchBlock(p, scope, fields), fields)
    ensures scope.Some? ==> forall i :: 0 <= i < |fields| ==>
              SearchBlock(p, scope, fields)[i] == (fields[i].column, Resolved(p, scope.value, XPath(fields[i].query), fields[i].isList, NA))
    decreases |fields|
  {
    if fields != [] {
      SearchBlockValues(p, scope, fields[1..]);
    }
  }

  /** The schema dict literal: one fresh search per field, holding NA. */
  method NewBlock(fields: seq<Field>) returns (block: Block)
    ensures |block| == |fields| && DistinctSearches(block) && fresh(Searches(block))
    ensures forall i :: 0 <= i < |fields| ==>
              block[i].0 == fields[i].column && block[i].1.value == NA
              && block[i].1.element == XPath(fields[i].query) && block[i].1.listSearch == fields[i].isList
  {
    block := [];
    for i := 0 to |fields|
      invariant |block| == i && DistinctSearches(block) && fresh(Searches(block))
      invariant forall j :: 0 <= j < i ==>
                  block[j].0 == fields[j].column && block[j].1.value == NA
                  && block[j].1.element == XPath(fields[j].query) && block[j].1.listSearch == fields[j].isList
    {
      var search;
      if fields[i].isList {
        search := new XpathSearch.ListSearch(XPath(fields[i].query));
      } else {
        search := new XpathSearch.Single(XPath(fields[i].query));
      }
      ghost var before := block;
      block := block + [(fields[i].column, search)];
      assert Searches(block) == Searches(before) + {search} by {
        forall x | x in Searches(block) ensures x in Searches(before) + {search} {
          var j :| 0 <= j < |block| && block[j].1 == x;
          if j < |before| {
            assert before[j].1 == x;
          }
        }
        forall x | x in Searches(before) ensures x in Searches(block) {
          var j :| 0 <= j < |before| && before[j].1 == x;
          assert block[j].1 == x;
        }
        assert block[|before|].1 == search;
      }
    }
  }

  /**
   * A block filled from its scope (`get_and_add_element_value`) or, when
   * the scope is missing, copied as it was created
   * (`add_values_to_job_from_dict`).
   */
  method FillBlock(job: JobDict, p: Page, scope: Option<Node>, fields: seq<Field>)
    requires job.Valid()
    modifies job
    ensures job.Valid() && job.items == AssignAll(old(job.items), SearchBlock(p, scope, fields))
  {
    var block := NewBlock(fields);
    if scope.Some? {
      GetAndAddElementValue(job, p, scope.value, block);
    } else {
      AddValuesToJob(job, block);
    }
    SearchBlockValues(p, scope, fields);
    assert BlockPairs(block) == SearchBlock(p, scope, fields);
  }

  /** `_get_job_descriptions_values(job, job_post)` */
  method GetJobDescriptionsValues(job: JobDict, p: Page, jobPost: Node)
    requires job.Valid()
    modifies job
    ensures job.Valid() && job.items == AssignAll(old(job.items), SearchBlock(p, Some(jobPost), DescriptionFields))
  {
    FillBlock(job, p, Some(jobPost), DescriptionFields);
  }

  /** `_get_job_button_values(job, job_button)` */
  method GetJobButtonValues(job: JobDict, p: Page, jobButton: Node)
    requires job.Valid()
    modifies job
    ensures job.Valid() && job.items == AssignAll(old(job.items), SearchBlock(p, Some(jobButton), ButtonFields))
  {
    FillBlock(job, p, Some(jobButton), ButtonFields);
  }

  /** `_get_company_description(job, job_post)`: under `EmpBasicInfo`, or NA throughout without it. */
  method GetCompanyDescription(job: JobDict, p: Page, jobPost: Node)
    requires job.Valid()
    modifies job
    ensures job.Valid() && job.items == AssignAll(old(job.items), SearchBlock(p, Anchor(p, jobPost, CompanyAnchor), CompanyFields))
  {
    FillBlock(job, p, Anchor(p, jobPost, CompanyAnchor), CompanyFields);
  }

  /** `_get_company_ratings(job, job_post)`: under the company-ratings element, or NA throughout without it. */
  method GetCompanyRatings(job: JobDict, p: Page, jobPost: Node)
    requires job.Valid()
    modifies job
    ensures job.Valid() && job.items == AssignAll(old(job.items), SearchBlock(p, Anchor(p, jobPost, RatingsAnchor), RatingFields))
  {
    FillBlock(job, p, Anchor(p, jobPost, RatingsAnchor), RatingFields);
  }

  /** `_get_company_reviews_by_job_title(job, job_post)`: under `Reviews`, or NA throughout without it. */
  method GetCompanyReviewsByJobTitle(job: JobDict, p: Page, jobPost: Node)
    requires job.Valid()
    modifies job
    ensures job.Valid() && job.items == AssignAll(old(job.items), SearchBlock(p, Anchor(p, jobPost, ReviewsAnchor), ReviewFields))
  {
    FillBlock(job, p, Anchor(p, jobPost, ReviewsAnchor), ReviewFields);
  }

  /**
   * `_get_company_benefits_review(job, job_post)`: the lookups swallow
   * NoSuchElement one field at a time, so the fallback branch of its
   * `try` is never taken.
   */
  method GetCompanyBenefitsReview(job: JobDict, p: Page, jobPost: Node)
    requires job.Valid()
    modifies job
    ensures job.Valid() && job.items == AssignAll(old(job.items), SearchBlock(p, Some(jobPost), BenefitFields))
  {
    FillBlock(job, p, Some(jobPost), BenefitFields);
  }

  /** The record six block fills build, one after the other, from `{}`. */
  function FillSix(b1: Record, b2: Record, b3: Record, b4: Record, b5: Record, b6: Record): Record
  {
    AssignAll(AssignAll(AssignAll(AssignAll(AssignAll(AssignAll([], b1), b2), b3), b4), b5), b6)
  }

  /** The record of `get_values_for_job`'s six blocks. */
  function JobValues(p: Page, jobPost: Node, jobButton: Node): Record
  {
    FillSix(SearchBlock(p, Some(jobPost), DescriptionFields),
            SearchBlock(p, Some(jobButton), ButtonFields),
            SearchBlock(p, Anchor(p, jobPost, CompanyAnchor), CompanyFields),
            SearchBlock(p, Anchor(p, jobPost, RatingsAnchor), RatingFields),
            SearchBlock(p, Anchor(p, jobPost, ReviewsAnchor), ReviewFields),
            SearchBlock(p, Some(jobPost), BenefitFields))
  }

  /**
   * `get_values_for_job(driver, job_button)`: a Timeout when the detail
   * panel is not on the page, before any field is read; otherwise the
   * record of the six blocks.
   */
  function ValuesForJob(p: Page, root: Node, jobButton: Node): (r: Result<Record, PyError>)
    ensures r.Failure? <==> FindElements(p, root, DetailPanel) == []
    ensures r.Failure? ==> r.error == Timeout
    ensures r.Success? ==> r.value == JobValues(p, FindElement(p, root, DetailPanel).value, jobButton)
  {
    match FindElement(p, root, DetailPanel)
    case Failure(_) => Failure(Timeout)
    case Success(jobPost) => Success(JobValues(p, jobPost, jobButton))
  }

  method GetValuesForJob(p: Page, root: Node, jobButton: Node) returns (r: Result<JobDict, PyError>)
    ensures r.Failure? <==> ValuesForJob(p, root, jobButton).Failure?
    ensures r.Failure? ==> r.error == Timeout
    ensures r.Success? ==> fresh(r.value) && r.value.Valid() && r.value.items == ValuesForJob(p, root, jobButton).value
  {
    var job := new JobDict();
    var jobPost := FindElement(p, root, DetailPanel);
    if jobPost.Failure? {
      return Failure(Timeout);
    }
    GetJobDescriptionsValues(job, p, jobPost.value);
    GetJobButtonValues(job, p, jobButton);
    GetCompanyDescription(job, p, jobPost.value);
    GetCompanyRatings(job, p, jobPost.value);
    GetCompanyReviewsByJobTitle(job, p, jobPost.value);
    GetCompanyBenefitsReview(job, p, jobPost.value);
    r := Success(job);
  }

  /**
   * The record holds the six blocks one after the other, since no block
   * repeats a column of an earlier one: its columns are the 25 of
   * `JobColumns`, in that order, whatever the page holds.
   */
  lemma JobLayout(p: Page, jobPost: Node, jobButton: Node)
    ensures JobValues(p, jobPost, jobButton) ==
              SearchBlock(p, Some(jobPost), DescriptionFields)
              + SearchBlock(p, Some(jobButton), ButtonFields)
              + SearchBlock(p, Anchor(p, jobPost, CompanyAnchor), CompanyFields)
              + SearchBlock(p, Anchor(p, jobPost, RatingsAnchor), RatingFields)
              + SearchBlock(p, Anchor(p, jobPost, ReviewsAnchor), ReviewFields)
              + SearchBlock(p, Some(jobPost), BenefitFields)
    ensures Keys(JobValues(p, jobPost, jobButton)) == JobColumns
  {
    CompanyFits();
    SixBlocks(SearchBlock(p, Some(jobPost), DescriptionFields),
              SearchBlock(p, Some(jobButton), ButtonFields),
              SearchBlock(p, Anchor(p, jobPost, CompanyAnchor), CompanyFields),
              SearchBlock(p, Anchor(p, jobPost, RatingsAnchor), RatingFields),
              SearchBlock(p, Anchor(p, jobPost, ReviewsAnchor), ReviewFields),
              SearchBlock(p, Some(jobPost), BenefitFields), CompanyColumns);
  }

  /**
   * Six blocks with the record's columns, whatever the company block's
   * columns are as long as they fit, are filled in one after the other.
   */
  lemma SixBlocks(b1: Record, b2: Record, b3: Record, b4: Record, b5: Record, b6: Record, company: seq<string>)
    requires CompanyBlockFits(company)
    requires Keys(b1) == DescriptionColumns && Keys(b2) == ButtonColumns && Keys(b3) == company
    requires Keys(b4) == RatingColumns && Keys(b5) == ReviewColumns && Keys(b6) == BenefitColumns
    ensures FillSix(b1, b2, b3, b4, b5, b6) == b1 + b2 + b3 + b4 + b5 + b6
    ensures Keys(b1 + b2 + b3 + b4 + b5 + b6)
            == DescriptionColumns + ButtonColumns + company + RatingColumns + ReviewColumns + BenefitColumns
  {
    LayoutFirstTwo(b1, b2);
    LayoutCompany(b1 + b2, b3, company);
    LayoutRatings(b1 + b2 + b3, b4, company);
    LayoutReviews(b1 + b2 + b3 + b4, b5, company);
    LayoutBenefits(b1 + b2 + b3 + b4 + b5, b6, company);
  }

  /**
   * The company block's columns (which differ between the extractors)
   * repeat neither each other nor a column of another block.
   */
  predicate CompanyBlockFits(company: seq<string>)
  {
    Distinct(company) && Disjoint(company, DescriptionColumns) && Disjoint(company, ButtonColumns)
    && Disjoint(RatingColumns, company) && Disjoint(ReviewColumns, company) && Disjoint(BenefitColumns, company)
  }

  lemma CompanyFits()
    ensures CompanyBlockFits(CompanyColumns)
  {
    CompanyDistinct();
    CompanyAfterDescription();
    CompanyAfterButton();
    RatingAfterCompany();
    ReviewAfterOthers();
    BenefitAfterOthers();
  }

  // The steps of `JobLayout`, one block at a time.
  lemma LayoutFirstTwo(b1: Record, b2: Record)
    requires Keys(b1) == DescriptionColumns && Keys(b2) == ButtonColumns
    ensures AssignAll(AssignAll([], b1), b2) == b1 + b2
    ensures Keys(b1 + b2) == DescriptionColumns + ButtonColumns
  {
    var none: Record := [];
    assert Keys(none) == [] && none + b1 == b1;
    DescriptionDistinct();
    AppendBlock(none, b1, DescriptionColumns);
    ButtonDistinct();
    AppendBlock(b1, b2, ButtonColumns);
  }

  lemma LayoutCompany(r: Record, b: Record, company: seq<string>)
    requires CompanyBlockFits(company)
    requires Keys(r) == DescriptionColumns + ButtonColumns && Keys(b) == company
    ensures AssignAll(r, b) == r + b
    ensures Keys(r + b) == DescriptionColumns + ButtonColumns + company
  {
    DisjointConcat(company, DescriptionColumns, ButtonColumns);
    AppendBlock(r, b, company);
  }

  lemma LayoutRatings(r: Record, b: Record, company: seq<string>)
    requires CompanyBlockFits(company)
    requires Keys(r) == DescriptionColumns + ButtonColumns + company && Keys(b) == RatingColumns
    ensures AssignAll(r, b) == r + b
    ensures Keys(r + b) == DescriptionColumns + ButtonColumns + company + RatingColumns
  {
    RatingDistinct();
    RatingAfterDescription();
    RatingAfterButton();
    DisjointConcat(RatingColumns, DescriptionColumns, ButtonColumns);
    DisjointConcat(RatingColumns, DescriptionColumns + ButtonColumns, company);
    AppendBlock(r, b, RatingColumns);
  }

  lemma LayoutReviews(r: Record, b: Record, company: seq<string>)
    requires CompanyBlockFits(company)
    requires Keys(r) == DescriptionColumns + ButtonColumns + company + RatingColumns
    requires Keys(b) == ReviewColumns
    ensures AssignAll(r, b) == r + b
    ensures Keys(r + b) == DescriptionColumns + ButtonColumns + company + RatingColumns + ReviewColumns
  {
    ReviewAfterDescription();
    ReviewAfterOthers();
    DisjointConcat(ReviewColumns, DescriptionColumns, ButtonColumns);
    DisjointConcat(ReviewColumns, DescriptionColumns + ButtonColumns, company);
    DisjointConcat(ReviewColumns, DescriptionColumns + ButtonColumns + company, RatingColumns);
    AppendBlock(r, b, ReviewColumns);
  }

  lemma LayoutBenefits(r: Record, b: Record, company: seq<string>)
    requires CompanyBlockFits(company)
    requires Keys(r) == DescriptionColumns + ButtonColumns + company + RatingColumns + ReviewColumns
    requires Keys(b) == BenefitColumns
    ensures AssignAll(r, b) == r + b
    ensures Keys(r + b) == DescriptionColumns + ButtonColumns + company + RatingColumns + ReviewColumns + BenefitColumns
  {
    BenefitAfterDescription();
    BenefitAfterOthers();
    BenefitAfterRatings();
    DisjointConcat(BenefitColumns, DescriptionColumns, ButtonColumns);
    DisjointConcat(BenefitColumns, DescriptionColumns + ButtonColumns, company);
    DisjointConcat(BenefitColumns, DescriptionColumns + ButtonColumns + company, RatingColumns);
    DisjointConcat(BenefitColumns, DescriptionColumns + ButtonColumns + company + RatingColumns, ReviewColumns);
    AppendBlock(r, b, BenefitColumns);
  }

  /**
   * A missing company-info, ratings or reviews anchor leaves NA in every
   * column of that block (positions 8-13, 14-20 and 21-22 of the record).
   */
  lemma MissingAnchorsGiveNA(p: Page, jobPost: Node, jobButton: Node)
    ensures |JobValues(p, jobPost, jobButton)| == 25
    ensures Anchor(p, jobPost, CompanyAnchor).None? ==> AllNA(JobValues(p, jobPost, jobButton)[8..14], CompanyFields)
    ensures Anchor(p, jobPost, RatingsAnchor).None? ==> AllNA(JobValues(p, jobPost, jobButton)[14..21], RatingFields)
    ensures Anchor(p, jobPost, ReviewsAnchor).None? ==> AllNA(JobValues(p, jobPost, jobButton)[21..23], ReviewFields)
  {
    JobLayout(p, jobPost, jobButton);
    var b1 := SearchBlock(p, Some(jobPost), DescriptionFields);
    var b2 := SearchBlock(p, Some(jobButton), ButtonFields);
    var b3 := SearchBlock(p, Anchor(p, jobPost, CompanyAnchor), CompanyFields);
    var b4 := SearchBlock(p, Anchor(p, jobPost, RatingsAnchor), RatingFields);
    var b5 := SearchBlock(p, Anchor(p, jobPost, ReviewsAnchor), ReviewFields);
    var b6 := SearchBlock(p, Some(jobPost), BenefitFields);
    SearchBlockValues(p, Anchor(p, jobPost, CompanyAnchor), CompanyFields);
    SearchBlockValues(p, Anchor(p, jobPost, RatingsAnchor), RatingFields);
    SearchBlockValues(p, Anchor(p, jobPost, ReviewsAnchor), ReviewFields);
    MiddleBlocks(b1, b2, b3, b4, b5, b6);
  }

  /** Where the third, fourth and fifth of six blocks sit in their concatenation. */
  lemma MiddleBlocks(b1: Record, b2: Record, b3: Record, b4: Record, b5: Record, b6: Record)
    requires |b1| == 6 && |b2| == 2 && |b3| == 6 && |b4| == 7 && |b5| == 2
    ensures var r := b1 + b2 + b3 + b4 + b5 + b6;
            r[8..14] == b3 && r[14..21] == b4 && r[21..23] == b5
  {
  }

  // No column of a block repeats, or repeats a column of an earlier block.
  lemma DescriptionDistinct() ensures Distinct(DescriptionColumns) {}
  lemma ButtonDistinct() ensures Distinct(ButtonColumns) && Disjoint(ButtonColumns, DescriptionColumns) {}
  lemma CompanyDistinct() ensures Distinct(CompanyColumns) {}
  lemma CompanyAfterDescription() ensures Disjoint(CompanyColumns, DescriptionColumns) {}
  lemma CompanyAfterButton() ensures Disjoint(CompanyColumns, ButtonColumns) {}
  lemma RatingDistinct() ensures Distinct(RatingColumns) {}
  lemma RatingAfterDescription() ensures Disjoint(RatingColumns, DescriptionColumns) {}
  lemma RatingAfterButton() ensures Disjoint(RatingColumns, ButtonColumns) {}
  lemma RatingAfterCompany() ensures Disjoint(RatingColumns, CompanyColumns) {}
  lemma ReviewAfterDescription() ensures Distinct(ReviewColumns) && Disjoint(ReviewColumns, DescriptionColumns) {}
  lemma ReviewAfterOthers()
    ensures Disjoint(ReviewColumns, ButtonColumns) && Disjoint(ReviewColumns, CompanyColumns) && Disjoint(ReviewColumns, RatingColumns) {}
  lemma BenefitAfterDescription() ensures Distinct(BenefitColumns) && Disjoint(BenefitColumns, DescriptionColumns) {}
  lemma BenefitAfterOthers()
    ensures Disjoint(BenefitColumns, ButtonColumns) && Disjoint(BenefitColumns, CompanyColumns) {}
  lemma BenefitAfterRatings()
    ensures Disjoint(BenefitColumns, RatingColumns) && Disjoint(BenefitColumns, ReviewColumns) {}
}
