/**
 * What the record extractors share: a field of a block is a column name,
 * the XPath query that finds its value and whether the query collects a
 * list; the queries themselves; and how two blocks filled one after the
 * other lay out in the record.
 */
module Fields {
  import opened PyValues
  import opened Records
  import Dom

  datatype Field = Field(column: string, query: Query, isList: bool)

  function Columns(fields: seq<Field>): (cs: seq<string>)
    ensures |cs| == |fields|
    ensures forall i :: 0 <= i < |fields| ==> cs[i] == fields[i].column
  {
    if fields == [] then [] else [fields[0].column] + Columns(fields[1..])
  }

  /** A block's fields from its columns, queries and list flags, position by position. */
  function FieldList(columns: seq<string>, queries: seq<Query>, lists: seq<bool>): (fs: seq<Field>)
    requires |queries| == |columns| && |lists| == |columns|
    ensures |fs| == |columns| && Columns(fs) == columns
  {
    seq(|columns|, i requires 0 <= i < |columns| => Field(columns[i], queries[i], lists[i]))
  }

  /** None of `ks` is among `others`. */
  predicate Disjoint(ks: seq<string>, others: seq<string>)
  {
    forall i :: 0 <= i < |ks| ==> ks[i] !in others
  }

  /**
   * The XPath queries of the extractors' schemas, by name; `XPath` gives
   * each one's text. Naming them keeps the long literals out of the
   * schemas.
   */
  datatype Query =
    | EmployerName
    | DetailRating
    | JobLocation
    | JobTitle
    | JobDescription
    | DetailSalary
    | JobAge
    | EasyApplyLabel
    | SizeValue
    | TypeValue
    | SectorValue
    | FoundedValue
    | IndustryValue
    | RevenueValue
    | FriendRecommend
    | CeoApproval
    | CareerOpportunities
    | CompBenefits
    | CultureValues
    | SeniorManagement
    | WorkLifeBalance
    | ProsTexts
    | ConsTexts
    | BenefitsRating
    | BenefitsHighlights
    | BenefitsRatingContinued

  function XPath(q: Query): string
  {
    match q
    // The description block (read under the detail panel).
    case EmployerName => ".//div[@data-test=\"employerName\"]"
    case DetailRating => ".//span[@data-test=\"detailRating\"]"
    case JobLocation => ".//div[@data-test=\"location\"]"
    case JobTitle => ".//div[@data-test=\"jobTitle\"]"
    case JobDescription => ".//div[@class=\"jobDescriptionContent desc\"]"
    case DetailSalary => ".//span[@data-test=\"detailSalary\"]"
    // The button block (read under the listing button).
    case JobAge => ".//div[@data-test=\"job-age\"]"
    case EasyApplyLabel => ".//div[@class=\"css-pxdlb2\"]/div[1]"
    // The company block (read under `EmpBasicInfo`).
    case SizeValue => ".//div//*[text() = \"Size\"]//following-sibling::*"
    case TypeValue => ".//div//*[text() = \"Type\"]//following-sibling::*"
    case SectorValue => ".//div//*[text() = \"Sector\"]//following-sibling::*"
    case FoundedValue => ".//div//*[text() = \"Founded\"]//following-sibling::*"
    case IndustryValue => ".//div//*[text() = \"Industry\"]//following-sibling::*"
    case RevenueValue => ".//div//*[text() = \"Revenue\"]//following-sibling::*"
    // The ratings block (read under the company-ratings element).
    case FriendRecommend => ".//div[@class=\"css-ztsow4\"]"
    case CeoApproval => ".//div[@class=\"css-ztsow4 ceoApprove\"]"
    case CareerOpportunities => ".//*[text() = \"Career Opportunities\"]/following-sibling::span[2]"
    case CompBenefits => ".//*[text() = \"Comp & Benefits\"]/following-sibling::span[2]"
    case CultureValues => ".//*[text() = \"Culture & Values\"]/following-sibling::span[2]"
    case SeniorManagement => ".//*[text() = \"Senior Management\"]/following-sibling::span[2]"
    case WorkLifeBalance => ".//*[text() = \"Work/Life_Balance\"]/following-sibling::span[2]"
    // The reviews block (read under `Reviews`; both collect lists).
    case ProsTexts => ".//*[text() = \"Pros\"]//parent::div//*[contains(name(), \"p\")]"
    case ConsTexts => ".//*[text() = \"Cons\"]//parent::div//*[contains(name(), \"p\")]"
    // The benefits block (read under the detail panel, no anchor).
    case BenefitsRating => "//div[starts-with(@data-brandviews,\"MODULE:n=jobs-benefitsRating\")]//div//div[@class=\"ratingNum mr-sm\"]"
    case BenefitsHighlights => "//div[starts-with(@data-brandviews,\"MODULE:n=jobs-benefitsHighlights\")]/div"
    // The jobs_to_csv copy of the benefits-rating query: the backslash
    // continuation inside its string literal keeps the next line's
    // sixteen-space indentation in the query.
    case BenefitsRatingContinued =>
      "//div[starts-with(@data-brandviews,\"MODULE:n=jobs-benefitsRating\")]//div"
      + "                " + "//div[@class=\"ratingNum mr-sm\"]"
  }

  // The anchors of the optional blocks, and the detail panel the record waits for.
  const DetailPanel := Dom.ById("JDCol")
  const CompanyAnchor := Dom.ById("EmpBasicInfo")
  const RatingsAnchor := Dom.ByXPath("//div[@data-test=\"company-ratings\"]")
  const ReviewsAnchor := Dom.ById("Reviews")

  /** Every field of a block holding NA (what the block gets when its anchor is missing). */
  predicate AllNA(block: Record, fields: seq<Field>)
  {
    |block| == |fields| && forall i :: 0 <= i < |fields| ==> block[i] == (fields[i].column, NA)
  }

  /** Being disjoint from two lists is being disjoint from their concatenation. */
  lemma DisjointConcat(ks: seq<string>, a: seq<string>, b: seq<string>)
    requires Disjoint(ks, a) && Disjoint(ks, b)
    ensures Disjoint(ks, a + b)
  {
  }

  /**
   * A block whose columns are new to the record so far is appended to it
   * as it stands: the record's columns are the earlier ones followed by
   * the block's.
   */
  lemma AppendBlock(prev: Record, block: Record, columns: seq<string>)
    requires Keys(block) == columns && Distinct(columns) && Disjoint(columns, Keys(prev))
    ensures AssignAll(prev, block) == prev + block
    ensures Keys(prev + block) == Keys(prev) + columns
  {
    assert UniqueKeys(block) by {
      forall i, j | 0 <= i < j < |block| ensures block[i].0 != block[j].0 {
        assert Keys(block)[i] == block[i].0 && Keys(block)[j] == block[j].0;
      }
    }
    forall j | 0 <= j < |block| ensures block[j].0 !in Keys(prev) {
      assert Keys(block)[j] == block[j].0;
    }
    AssignAllFresh(prev, block);
    KeysAppend(prev, block);
  }
}
