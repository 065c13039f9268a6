/**
 * What the two helpers copies of `get_one_job` share
 * (scraper/helpers/get_one_job/get_one_job.py and
 * scraper/helpers/get_one_job.py): six schemas of entry dicts, each
 * entry preset to NA, filled under the detail panel, the listing button
 * or an optional anchor. They differ from `get_values_for_job` in the
 * company block's columns ("Size" and "Revenue" where it has "Employees"
 * and "Revenue_USD"), in the benefits-rating query (without the
 * indentation the continuation line adds there) and in the getter
 * (`get_XPATH_text`, which collapses empty results to NA itself).
 */
module OneJobSchemas {
  import opened Wrappers
  import opened PyValues
  import opened Records
  import opened Dom
  import opened Fields
  import opened ValuesFromSource
  import J = JobValueGetter

  const SizeCompanyColumns := ["Size", "Type_of_ownership", "Sector", "Founded", "Industry", "Revenue"]
  const SizeCompanyFields := FieldList(SizeCompanyColumns,
    [SizeValue, TypeValue, SectorValue, FoundedValue, IndustryValue, RevenueValue], [false, false, false, false, false, false])
  const SchemaBenefitFields := FieldList(J.BenefitColumns, [BenefitsRating, BenefitsHighlights], [false, true])

  /** The 25 columns of a helpers record, in order. */
  const OneJobColumns :=
    J.DescriptionColumns + J.ButtonColumns + SizeCompanyColumns + J.RatingColumns + J.ReviewColumns + J.BenefitColumns

  /**
   * The values a freshly built schema holds once its block is filled:
   * NA throughout when the anchor is missing (the schema copied as
   * built), otherwise each entry's lookup, which keeps the preset NA when
   * a single field is missing.
   */
  function EntryBlock(p: Page, scope: Option<Node>, fields: seq<Field>): (r: Record)
    ensures Keys(r) == Columns(fields)
  {
    if fields == [] then []
    else
      var v := match scope case None => NA case Some(s) => ResolvedText(p, s, XPath(fields[0].query), fields[0].isList, NA);
      [(fields[0].column, v)] + EntryBlock(p, scope, fields[1..])
  }

  /** Field by field: NA throughout without a scope, each field's own lookup with one. */
  lemma {:induction false} EntryBlockValues(p: Page, scope: Option<Node>, fields: seq<Field>)
    ensures |EntryBlock(p, scope, fields)| == |fields|
    ensures scope.None? ==> AllNA(EntryBlock(p, scope, fields), fields)
    ensures scope.Some? ==> forall i :: 0 <= i < |fields| ==>
              EntryBlock(p, scope, fields)[i] == (fields[i].column, ResolvedText(p, scope.value, XPath(fields[i].query), fields[i].isList, NA))
    decreases |fields|
  {
    if fields != [] {
      EntryBlockValues(p, scope, fields[1..]);
    }
  }

  /**
   * Within a present block an entry is NA exactly when its lookup finds
   * nothing useful: no match for a single field, or, for a list field,
   * no match at all.
   */
  lemma UnresolvedStaysNA(p: Page, scope: Node, fields: seq<Field>, i: int)
    requires 0 <= i < |fields|
    ensures |EntryBlock(p, Some(scope), fields)| == |fields|
    ensures FindElements(p, scope, ByXPath(XPath(fields[i].query))) == [] ==> EntryBlock(p, Some(scope), fields)[i].1 == NA
  {
    EntryBlockValues(p, Some(scope), fields);
  }

  /** The schema dict literal: one fresh entry per field, its value preset to NA. */
  method NewSchema(fields: seq<Field>) returns (schema: ValuesFromSource.Schema)
    ensures |schema| == |fields| && DistinctEntries(schema) && fresh(Entries(schema))
    ensures forall i :: 0 <= i < |fields| ==>
              schema[i].0 == fields[i].column && schema[i].1.value == NA
              && schema[i].1.element == XPath(fields[i].query) && schema[i].1.isList == fields[i].isList
  {
    schema := [];
    for i := 0 to |fields|
      invariant |schema| == i && DistinctEntries(schema) && fresh(Entries(schema))
      invariant forall j :: 0 <= j < i ==>
                  schema[j].0 == fields[j].column && schema[j].1.value == NA
                  && schema[j].1.element == XPath(fields[j].query) && schema[j].1.isList == fields[j].isList
    {
      var entry := new FieldEntry(XPath(fields[i].query), fields[i].isList);
      ghost var before := schema;
      schema := schema + [(fields[i].column, entry)];
      assert Entries(schema) == Entries(before) + {entry} by {
        forall x | x in Entries(schema) ensures x in Entries(before) + {entry} {
          var j :| 0 <= j < |schema| && schema[j].1 == x;
          if j < |before| {
            assert before[j].1 == x;
          }
        }
        forall x | x in Entries(before) ensures x in Entries(schema) {
          var j :| 0 <= j < |before| && before[j].1 == x;
          assert schema[j].1 == x;
        }
        assert schema[|before|].1 == entry;
      }
    }
  }

  /** After a fill, a fresh schema's pairs are its block's values. */
  lemma FilledSchema(p: Page, scope: Option<Node>, fields: seq<Field>, schema: ValuesFromSource.Schema)
    requires |schema| == |fields|
    requires forall i :: 0 <= i < |fields| ==> schema[i].0 == fields[i].column && schema[i].1.element == XPath(fields[i].query) && schema[i].1.isList == fields[i].isList
    requires scope.None? ==> forall i :: 0 <= i < |fields| ==> schema[i].1.value == NA
    requires scope.Some? ==> forall i :: 0 <= i < |fields| ==>
               schema[i].1.value == ResolvedText(p, scope.value, schema[i].1.element, schema[i].1.isList, NA)
    ensures EntryPairs(schema) == EntryBlock(p, scope, fields)
  {
    EntryBlockValues(p, scope, fields);
  }

  /** The record of a helpers `get_one_job`'s six blocks. */
  function OneJobValues(p: Page, jobPost: Node, jobButton: Node): Record
  {
    J.FillSix(EntryBlock(p, Some(jobPost), J.DescriptionFields),
              EntryBlock(p, Some(jobButton), J.ButtonFields),
              EntryBlock(p, Anchor(p, jobPost, CompanyAnchor), SizeCompanyFields),
              EntryBlock(p, Anchor(p, jobPost, RatingsAnchor), J.RatingFields),
              EntryBlock(p, Anchor(p, jobPost, ReviewsAnchor), J.ReviewFields),
              EntryBlock(p, Some(jobPost), SchemaBenefitFields))
  }

  /**
   * A helpers `get_one_job`: a Timeout when the detail panel does not
   * appear, before any field is read; otherwise the record of its six blocks.
   */
  function OneJob(p: Page, root: Node, jobButton: Node): (r: Result<Record, PyError>)
    ensures r.Failure? <==> FindElements(p, root, DetailPanel) == []
    ensures r.Failure? ==> r.error == Timeout
    ensures r.Success? ==> r.value == OneJobValues(p, FindElement(p, root, DetailPanel).value, jobButton)
  {
    match FindElement(p, root, DetailPanel)
    case Failure(_) => Failure(Timeout)
    case Success(jobPost) => Success(OneJobValues(p, jobPost, jobButton))
  }

  /**
   * The record holds the six blocks one after the other: Company_Name to
   * Salary, Job_age and Easy_apply, Size to Revenue, the seven ratings,
   * Pros and Cons, Benefits_rating and Benefits_reviews.
   */
  lemma OneJobLayout(p: Page, jobPost: Node, jobButton: Node)
    ensures OneJobValues(p, jobPost, jobButton) ==
              EntryBlock(p, Some(jobPost), J.DescriptionFields)
              + EntryBlock(p, Some(jobButton), J.ButtonFields)
              + EntryBlock(p, Anchor(p, jobPost, CompanyAnchor), SizeCompanyFields)
              + EntryBlock(p, Anchor(p, jobPost, RatingsAnchor), J.RatingFields)
              + EntryBlock(p, Anchor(p, jobPost, ReviewsAnchor), J.ReviewFields)
              + EntryBlock(p, Some(jobPost), SchemaBenefitFields)
    ensures Keys(OneJobValues(p, jobPost, jobButton)) == OneJobColumns
  {
    SizeCompanyFits();
    J.SixBlocks(EntryBlock(p, Some(jobPost), J.DescriptionFields),
                EntryBlock(p, Some(jobButton), J.ButtonFields),
                EntryBlock(p, Anchor(p, jobPost, CompanyAnchor), SizeCompanyFields),
                EntryBlock(p, Anchor(p, jobPost, RatingsAnchor), J.RatingFields),
                EntryBlock(p, Anchor(p, jobPost, ReviewsAnchor), J.ReviewFields),
                EntryBlock(p, Some(jobPost), SchemaBenefitFields), SizeCompanyColumns);
  }

  /**
   * A missing company-info, ratings or reviews anchor leaves NA in every
   * column of that block (positions 8-13, 14-20 and 21-22 of the record).
   */
  lemma OneJobMissingAnchorsGiveNA(p: Page, jobPost: Node, jobButton: Node)
    ensures |OneJobValues(p, jobPost, jobButton)| == 25
    ensures Anchor(p, jobPost, CompanyAnchor).None? ==> AllNA(OneJobValues(p, jobPost, jobButton)[8..14], SizeCompanyFields)
    ensures Anchor(p, jobPost, RatingsAnchor).None? ==> AllNA(OneJobValues(p, jobPost, jobButton)[14..21], J.RatingFields)
    ensures Anchor(p, jobPost, ReviewsAnchor).None? ==> AllNA(OneJobValues(p, jobPost, jobButton)[21..23], J.ReviewFields)
  {
    OneJobLayout(p, jobPost, jobButton);
    EntryBlockValues(p, Anchor(p, jobPost, CompanyAnchor), SizeCompanyFields);
    EntryBlockValues(p, Anchor(p, jobPost, RatingsAnchor), J.RatingFields);
    EntryBlockValues(p, Anchor(p, jobPost, ReviewsAnchor), J.ReviewFields);
    J.MiddleBlocks(EntryBlock(p, Some(jobPost), J.DescriptionFields),
                   EntryBlock(p, Some(jobButton), J.ButtonFields),
                   EntryBlock(p, Anchor(p, jobPost, CompanyAnchor), SizeCompanyFields),
                   EntryBlock(p, Anchor(p, jobPost, RatingsAnchor), J.RatingFields),
                   EntryBlock(p, Anchor(p, jobPost, ReviewsAnchor), J.ReviewFields),
                   EntryBlock(p, Some(jobPost), SchemaBenefitFields));
  }

  lemma SizeCompanyFits()
    ensures J.CompanyBlockFits(SizeCompanyColumns)
  {
    SizeDistinct();
    SizeAfterFirstBlocks();
    RatingsAfterSize();
    LaterBlocksAfterSize();
  }

  // No column of the helpers' company block repeats, or repeats a column of another block.
  lemma SizeDistinct() ensures Distinct(SizeCompanyColumns) {}
  lemma SizeAfterFirstBlocks()
    ensures Disjoint(SizeCompanyColumns, J.DescriptionColumns) && Disjoint(SizeCompanyColumns, J.ButtonColumns) {}
  lemma RatingsAfterSize() ensures Disjoint(J.RatingColumns, SizeCompanyColumns) {}
  lemma LaterBlocksAfterSize()
    ensures Disjoint(J.ReviewColumns, SizeCompanyColumns) && Disjoint(J.BenefitColumns, SizeCompanyColumns) {}
}
