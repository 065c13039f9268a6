# Glassdoor job-record pipeline, modelled in Dafny

This project models the record pipeline of the DS_salaries job scraper. That pipeline is everything between the browser and the CSV file:

- **Record extractors.** They read one job posting from the page into an ordered dict of 25 columns. There are three of them:
  - `get_values_for_job` in jobs_to_csv;
  - the helpers `get_one_job` package;
  - the monolithic helpers `get_one_job`.
- **XPath getters.** The extractors use these: two `XpathSearch`/`XpathListSearch` variants and the helpers `get_XPATH_text`, which collapses empty results to NA.
- **Cleaning parsers.** They rewrite the record in place:
  - NA normalisation;
  - revenue, employees and company-name clean-up;
  - numeric and percent coercion;
  - easy-apply truthiness;
  - the salary split, which replaces `Salary` with four columns at the same position.
- **The two parsing pipelines** that chain those parsers.
- **The three collection loops** that click through the listing, plus the next-page decision.
- **The `CSV_Writer` class**, which writes a header once and then one row per observation.
- **URL and path builders** for the configuration.
- **The page loop of the older `glassdoor_scraper`**, with `update_url` and its CSV `fileWriter`.

How the model represents the program:

- A Python dict is a sequence of `(name, Value)` pairs with unique names. Insertion order is the CSV column order.
  - `Records.Assign`, `Records.AssignAll` and `Records.Remove` give the dict semantics of `d[k] = v`, `d.update(...)` and `del d[k]`.
  - The class `JobDicts.JobDict` is the mutable dict that the in-place steps change.
- `Value` is `NA | Str | StrList | Int | Num | Bool`. `NA` is the configured integer -1, so Python's `== -1` and truthiness are defined on it.
- Exceptions are a `PyError` datatype:
  - a step that raises leaves the dict as it was before that step;
  - a pipeline keeps the changes of the steps that ran before the raise.
- The browser is a `Dom.Page`, which maps a scope node and a locator to the nodes matched, in document order, plus the text of each node.
  - The collection loops receive the listings that their passes find as a finite sequence.
  - A run that uses the sequence up ends as `Unfinished`.

Where the documentation and the code disagree, the model follows the code:

- **Percent strings.** The documentation says "92%" becomes 0.92. In the code, a percent string is converted only when its number lies in [0, 1], and the result is that number divided by 100. So "0.5%" becomes 0.005 (`NumericalValuesParser.DecimalPercentExamples`), while "2.5%" (`NumericalValuesParser.DecimalPercentOutOfRange`) and "92%" (`NumericalValuesParser.WholePercentExamples`) stay strings. The docstring of `_get_percent_value` gives "2.5%" → 0.025, but the code strips the "%" and returns 2.5 (`NumericalValuesParser.PercentSuffix`). Decimals use a dot only.
- **Company-name column.** The jobs_to_csv extractor names the column `Company_Name`, but `parse_company_name` reads `Company_name`. So `parse_data` raises `KeyError` on every extracted record that gets that far. Both parsing loops therefore collect nothing (`Collectors.ExtractedRecordsFailToParse`, `Collectors.ParsingLoopsCollectNothing`).
- **Exit message.** The click_next_page message prints the collected count after "Needed" and the target after "got" (`ClickNextPage.ExitMessage`).
- **Click fallback.** jobs_getter has no fallback for an intercepted click, unlike jobs_to_csv (`Collectors.ClickFallback`).

## Model

| member | source | states |
|---|---|---|
| NAValuesParser.IsEmptishString | scraper/helpers/parse_job_data/parse_NA_values.py:42-52 | true exactly for a string whose `strip()` is empty |
| NAValuesParser.IsNAValue | scraper/helpers/parse_job_data/parse_NA_values.py:25-39 | only text and lists can be NA-like, and a list is NA-like exactly when it is empty |
| NAValuesParser.NormalizeValue | scraper/helpers/parse_job_data/parse_NA_values.py:25-52 | a value equal to `[]`, "N/A" or "Unknown / Non-Applicable", or a string that is empty or all whitespace, becomes NA; every other value is returned unchanged |
| NAValuesParser.NormalizeNA | scraper/helpers/parse_job_data/parse_NA_values.py:20-22 | same keys in the same order; each value is its own normalised value |
| NAValuesParser.ParseNAValues | scraper/helpers/parse_job_data/parse_NA_values.py:6-22 | the in-place loop leaves the dict equal to the normalised record |
| NAValuesParser.NormalizeNAIdempotent | scraper/helpers/parse_job_data/parse_NA_values.py:35-39 | a second pass changes nothing (the sentinel -1 is not NA-like) |
| NAValuesParser.NormalizeNAExact | scraper/helpers/parse_job_data/parse_NA_values.py:19-39 | afterwards no value is NA-like, and an entry is NA exactly when it was NA or NA-like before |
| NAValuesParser.OtherStringsSurvive | scraper/helpers/parse_job_data/parse_NA_values.py:35-52 | the comparison is exact ("n/a" survives); whitespace-only text becomes NA; a non-empty list survives |
| FieldSteps.ReplaceStrip | scraper/jobs_to_csv/job_parser/_revenue_parser.py:24-26 | `str.replace` then `strip`: succeeds iff value and token are strings; a non-string value raises AttributeError and a non-string token raises TypeError |
| FieldSteps.CleanField | scraper/jobs_to_csv/job_parser/_revenue_parser.py:24-26 | KeyError exactly when the key is missing, and otherwise only AttributeError or TypeError; an NA value leaves the record as it was; any other value that succeeds becomes the old text with every non-overlapping token removed, then stripped; the key list is unchanged and every other key keeps its value |
| FieldSteps.CleanFieldKeepsNA | scraper/jobs_to_csv/job_parser/_revenue_parser.py:24 | a value equal to NA leaves the record unchanged |
| FieldSteps.CleanFieldResult | scraper/jobs_to_csv/job_parser/_revenue_parser.py:24-26 | a non-NA value is cleaned iff it is text, and the result has no leading or trailing whitespace; the error cases are named |
| FieldSteps.TrailingTokenRemoved | scraper/helpers/parse_job_data/parse_employees.py:19-20 | text followed once by the token is cleaned to the stripped text ("51 to 200 Employees" → "51 to 200") |
| FieldSteps.BoolField | scraper/jobs_to_csv/job_parser/_easy_apply_parser.py:15 | KeyError iff the key is missing; otherwise the value becomes the Python truthiness of the old value and other keys are untouched |
| FieldSteps.BoolFieldValues | scraper/jobs_to_csv/job_parser/_easy_apply_parser.py:15 | NA (-1) maps to True, "" to False, any non-empty string to True |
| FieldSteps.BoolFieldIdempotent | scraper/jobs_to_csv/job_parser/_easy_apply_parser.py:15 | applying the step twice equals applying it once |
| FieldSteps.CleanColumn | scraper/jobs_to_csv/job_parser/_revenue_parser.py:24-26 | the in-place assignment either applies the clean-up or raises with the dict untouched |
| FieldSteps.BoolColumn | scraper/jobs_to_csv/job_parser/_easy_apply_parser.py:15 | the in-place assignment either applies the truthiness step or raises with the dict untouched |
| RevenueParser.ParseRevenue | scraper/jobs_to_csv/job_parser/_revenue_parser.py:10-26 | Revenue_USD loses every "(USD)" and is stripped; NA stays; a missing key raises KeyError; nothing else changes |
| RevenueParser.CurrencyTagRemoved | scraper/jobs_to_csv/job_parser/_revenue_parser.py:24-26 | "$1 to $5 billion (USD)" is cleaned to "$1 to $5 billion" |
| LegacyRevenueParser.ParseRevenue | scraper/helpers/parse_job_data/parse/parse_revenue.py:6-22 | the same clean-up of Revenue_USD in the older twin |
| EmployeesParser.ParseEmployees | scraper/helpers/parse_job_data/parse_employees.py:5-20 | Employees loses every "Employees" and is stripped; NA stays; a missing key raises KeyError |
| EasyApplyParser.ParseEasyApply | scraper/jobs_to_csv/job_parser/_easy_apply_parser.py:7-15 | Easy_apply becomes a bool, the truthiness of its old value; a missing key raises KeyError |
| LegacyEasyApplyParser.ParseEasyApply | scraper/helpers/parse_job_data/parse_easy_apply.py:1-9 | the same truthiness step in the older twin |
| CompanyNameParser.CompanyName | scraper/jobs_to_csv/job_parser/_company_name_parser.py:24-28 | KeyError('Company_name') iff that key is missing; an NA name returns the record unchanged without reading Rating; a non-NA name that succeeds becomes the name with every occurrence of the Rating text removed, then stripped; key list unchanged; only Company_name can change |
| CompanyNameParser.RatingRemovedFromName | scraper/jobs_to_csv/job_parser/_company_name_parser.py:2-4 | "Acme4.0" with the Rating "4.0" becomes "Acme" |
| CompanyNameParser.ParseCompanyName | scraper/jobs_to_csv/job_parser/_company_name_parser.py:10-28 | the in-place assignment applies `CompanyName` or raises with the dict untouched |
| CompanyNameParser.RatingMustBeText | scraper/jobs_to_csv/job_parser/_company_name_parser.py:24-28 | with a text name: missing Rating raises KeyError('Rating'), an NA Rating raises TypeError, a text Rating succeeds |
| NumericalValuesParser.IsNumber | scraper/jobs_to_csv/job_parser/_numerical_values_parser.py:60-84 | every digit string is a number, and no number ends in "%" once stripped |
| NumericalValuesParser.IsPositiveNumber | scraper/jobs_to_csv/job_parser/_numerical_values_parser.py:32-57 | true exactly for a number whose value is ≥ 0; every digit string is one |
| NumericalValuesParser.GetPercentValue | scraper/jobs_to_csv/job_parser/_numerical_values_parser.py:158-187 | for a string that reads as a number, the percent reading is that same number, not the number / 100 |
| NumericalValuesParser.IsPercentValid | scraper/jobs_to_csv/job_parser/_numerical_values_parser.py:118-129 | `_is_percent_valid` is exactly 0.0 ≤ v ≤ 1.0 on the exact value |
| NumericalValuesParser.IsPercentValue | scraper/jobs_to_csv/job_parser/_numerical_values_parser.py:101-115 | true iff the percent reading parses and lies in [0, 1]; for a number string, iff its value lies in [0, 1] |
| NumericalValuesParser.CoerceString | scraper/jobs_to_csv/job_parser/_numerical_values_parser.py:17-29 | a digit string becomes its int; an int is stored only for a digit string; every stored float is ≥ 0; an unconverted string is stored back unchanged |
| NumericalValuesParser.NonNegativeIff | scraper/jobs_to_csv/job_parser/_numerical_values_parser.py:53-55 | a parsed decimal is ≥ 0 exactly when its mantissa is |
| NumericalValuesParser.Hundredth | scraper/jobs_to_csv/job_parser/_numerical_values_parser.py:155 | the exact value divided by 100 |
| NumericalValuesParser.PercentStringToFloat | scraper/jobs_to_csv/job_parser/_numerical_values_parser.py:132-155 | succeeds iff the string is a valid percent value; otherwise ValueError |
| NumericalValuesParser.PercentResultRange | scraper/jobs_to_csv/job_parser/_numerical_values_parser.py:132-155 | a converted percent lies in [0, 0.01] |
| NumericalValuesParser.CoerceValue | scraper/jobs_to_csv/job_parser/_numerical_values_parser.py:17-29 | only strings are rewritten |
| NumericalValuesParser.CoerceNumbers | scraper/jobs_to_csv/job_parser/_numerical_values_parser.py:17-29 | same keys in the same order; each value is coerced |
| NumericalValuesParser.ParseNumericalValues | scraper/jobs_to_csv/job_parser/_numerical_values_parser.py:8-29 | the in-place loop leaves the dict equal to the coerced record |
| NumericalValuesParser.DigitStringBecomesInt | scraper/jobs_to_csv/job_parser/_numerical_values_parser.py:23-24 | a digit-only string becomes the int it spells |
| NumericalValuesParser.NonNegativeNumberBecomesFloat | scraper/jobs_to_csv/job_parser/_numerical_values_parser.py:21-26 | a number ≥ 0 that is not digit-only becomes a float of its value |
| NumericalValuesParser.NegativeNumberStaysString | scraper/jobs_to_csv/job_parser/_numerical_values_parser.py:21-29 | a negative number stays a string |
| NumericalValuesParser.PercentBranchRange | scraper/jobs_to_csv/job_parser/_numerical_values_parser.py:28-29 | a string reaching the percent branch and accepted there becomes a float in [0, 0.01] |
| NumericalValuesParser.PercentBranchValue | scraper/jobs_to_csv/job_parser/_numerical_values_parser.py:28-29 | a non-number percent string becomes value/100 when the value is in [0, 1], and stays a string otherwise |
| NumericalValuesParser.WholePercentNotNumber | scraper/jobs_to_csv/job_parser/_numerical_values_parser.py:60-84 | "<digits>%" is not a number, so only the percent branch can take it |
| NumericalValuesParser.WholePercent | scraper/jobs_to_csv/job_parser/_numerical_values_parser.py:158-187 | "<digits>%" reads as the percent value <digits> |
| NumericalValuesParser.WholePercentExamples | scraper/jobs_to_csv/job_parser/_numerical_values_parser.py:132-155 | "0%" and "1%" become 0.0 and 0.01, and any larger whole percent such as "92%" stays a string |
| NumericalValuesParser.PercentSuffix | scraper/jobs_to_csv/job_parser/_numerical_values_parser.py:184-187 | a string that strips to t + "%" reads as float(t): the "%" is dropped and the number is not divided |
| NumericalValuesParser.PointParse | scraper/jobs_to_csv/job_parser/_numerical_values_parser.py:187 | `"<digits>.<digits>"` parses as the exact decimal its digits spell |
| NumericalValuesParser.PercentOfDecimal | scraper/jobs_to_csv/job_parser/_numerical_values_parser.py:28-29 | a decimal percent "w.f%" becomes its value / 100 when the value lies in [0, 1], and stays a string otherwise |
| NumericalValuesParser.DecimalPercentExamples | scraper/jobs_to_csv/job_parser/_numerical_values_parser.py:132-155 | "0.5%" becomes 0.005 |
| NumericalValuesParser.DecimalPercentOutOfRange | scraper/jobs_to_csv/job_parser/_numerical_values_parser.py:132-155 | "2.5%" reads as 2.5, outside [0, 1], so it stays a string |
| JobParser.ParseDataSpec | scraper/jobs_to_csv/job_parser/job_parser.py:15-33 | whatever step raises, the key list is unchanged (Salary is not split here) |
| JobParser.ParseData | scraper/jobs_to_csv/job_parser/job_parser.py:15-33 | the in-place steps leave the dict and the raised error as the specification says |
| JobParser.CompletedSteps | scraper/jobs_to_csv/job_parser/job_parser.py:28-33 | a run that raises nothing is the six steps in order: NA, revenue, company name, numbers, easy apply, employees |
| JobParser.CompanyBeforeNumbers | scraper/jobs_to_csv/job_parser/job_parser.py:30-31 | company clean-up succeeds on the raw Rating string but would raise TypeError after numeric coercion, so the order matters |
| JobParser.EasyApplyOfNAIsTrue | scraper/jobs_to_csv/job_parser/job_parser.py:28-32 | an empty or NA-like Easy_apply ends as True |
| JobParser.HeadCountText | scraper/jobs_to_csv/job_parser/job_parser.py:28-31 | "<digits> Employees" is neither NA-like nor numeric, so the earlier steps leave it as it is |
| JobParser.HeadCountCleaned | scraper/jobs_to_csv/job_parser/job_parser.py:33 | the employees step turns "<digits> Employees" into "<digits>" |
| JobParser.EmployeesStayText | scraper/jobs_to_csv/job_parser/job_parser.py:31-33 | "51 Employees" ends as the string "51", not an int |
| ParseJobData.ParseJobDataSpec | scraper/helpers/parse_job_data/parse_job_data.py:10-26 | KeyError('Salary') exactly when Salary is missing, and then the NA and numeric rewrites are kept |
| ParseJobData.AfterSalary | scraper/helpers/parse_job_data/parse_job_data.py:24-26 | the steps after the salary split keep the key list |
| ParseJobData.ParseJobDataInPlace | scraper/helpers/parse_job_data/parse_job_data.py:10-26 | the in-place steps (NA, numbers, salary, easy apply, employees, revenue) leave the dict and the error as the specification says |
| ParseJobData.JobDataKeys | scraper/helpers/parse_job_data/parse_job_data.py:19-26 | the salary split is the only key change: Salary is replaced in place by the four salary columns |
| ParseJobData.RevenueStaysText | scraper/helpers/parse_job_data/parse_job_data.py:22-26 | Revenue_USD ends as NA or as stripped text, never a number |
| SalaryParser.FirstRange | scraper/jobs_to_csv/job_parser/_salary_parser.py:165-171 | the leftmost match of the pay-range pattern from a position; no match means no position matches |
| SalaryParser.GetPayScaleRanges | scraper/jobs_to_csv/job_parser/_salary_parser.py:148-175 | IndexError iff the pattern matches nowhere; otherwise the matched text of the first match |
| SalaryParser.ChangeToInteger | scraper/jobs_to_csv/job_parser/_salary_parser.py:262-277 | the int of the side's digits; ValueError when it has none |
| SalaryParser.ParseToInt | scraper/jobs_to_csv/job_parser/_salary_parser.py:242-259 | a side ending in upper-case "K" is its digits ×1000, otherwise just its digits |
| SalaryParser.GetCurrency | scraper/jobs_to_csv/job_parser/_salary_parser.py:199-224 | failure only as IndexError |
| SalaryParser.GetIsProvided | scraper/jobs_to_csv/job_parser/_salary_parser.py:178-196 | True iff "Employer Provided Salary" occurs; else False iff "Glassdoor est" occurs; else NA |
| SalaryParser.SalaryValues | scraper/jobs_to_csv/job_parser/_salary_parser.py:42-58 | the four derived keys in order; an NA salary gives four NAs; a non-NA non-string raises TypeError |
| SalaryParser.RangeAt | scraper/jobs_to_csv/job_parser/_salary_parser.py:165-166 | a well-formed "$a[K] - $b[K]" matches exactly its own extent |
| SalaryParser.RangeShape | scraper/jobs_to_csv/job_parser/_salary_parser.py:165-166 | every match has that shape |
| SalaryParser.RangeParts | scraper/jobs_to_csv/job_parser/_salary_parser.py:49-58 | a matched range splits into its two sides, each side converts with the "K" rule, and the currency is "$" |
| SalaryParser.FirstRangeSkip | scraper/jobs_to_csv/job_parser/_salary_parser.py:165-171 | with no "$" before a match, that match is the first one |
| SalaryParser.StringSalaryFailsOnlyWithoutRange | scraper/jobs_to_csv/job_parser/_salary_parser.py:165-171 | a text salary fails iff no range matches, and then with IndexError |
| SalaryParser.SalaryOfRange | scraper/jobs_to_csv/job_parser/_salary_parser.py:42-58 | "$51K - $81K (Glassdoor est.)" style text gives 51000, 81000, "$" and its provided flag |
| SalaryParser.PayScaleOfRange | scraper/jobs_to_csv/job_parser/_salary_parser.py:148-175 | the first range is returned verbatim |
| SalaryParser.SalarySpec | scraper/jobs_to_csv/job_parser/_salary_parser.py:22-63 | KeyError('Salary') iff it is missing; success only with a salary that parses |
| SalaryParser.InsertKeysValues | scraper/jobs_to_csv/job_parser/_salary_parser.py:121-145 | the dict is rebuilt with the pairs inserted contiguously at the position (clamped to the end), shifting later keys right |
| SalaryParser.InsertDictToDictionary | scraper/jobs_to_csv/job_parser/_salary_parser.py:66-118 | ValueError with the dict untouched when Salary is absent; otherwise insertion at Salary's index |
| SalaryParser.SalaryKeptUntilDelete | scraper/jobs_to_csv/job_parser/_salary_parser.py:61-63 | Salary is still present after the insertion, so the `del` finds it |
| SalaryParser.ParseSalary | scraper/jobs_to_csv/job_parser/_salary_parser.py:22-63 | the in-place steps apply `SalarySpec` or raise with the dict untouched |
| SalaryParser.SalarySplice | scraper/jobs_to_csv/job_parser/_salary_parser.py:61-63 | Salary is replaced at its position by the four derived pairs; every other pair keeps its value and order |
| SalaryParser.SalaryOfNA | scraper/jobs_to_csv/job_parser/_salary_parser.py:42-49 | an NA salary splices in four NAs |
| SalaryParser.SalaryKeys | scraper/jobs_to_csv/job_parser/_salary_parser.py:61-63 | the key list after the split: Salary_low, Salary_high, Currency, Salary_provided at Salary's former index |
| XpathTextGetter.XpathSearch.Single | scraper/jobs_to_csv/elements_query/XPATH_text_getter.py:29-31 | a fresh single search holds NA and its locator |
| XpathTextGetter.XpathSearch.ListSearch | scraper/jobs_to_csv/elements_query/XPATH_text_getter.py:34-38 | a fresh list search holds NA and its locator |
| XpathTextGetter.SearchResult | scraper/jobs_to_csv/elements_query/XPATH_text_getter.py:57-71 | a list search gives all match texts in order (`[]` for none); a single search gives the first match's text, or NoSuchElement when there is none |
| XpathTextGetter.GetAllTexts | scraper/jobs_to_csv/elements_query/XPATH_text_getter.py:74-87 | the append loop yields the texts of the elements in order |
| XpathTextGetter.GetText | scraper/jobs_to_csv/elements_query/XPATH_text_getter.py:90-106 | the first match's text, and NoSuchElement iff there is no match |
| XpathTextGetter.GetXpathValues | scraper/jobs_to_csv/elements_query/XPATH_text_getter.py:41-71 | the dispatch gives `SearchResult`, checking the list kind first |
| JobsGetterXpath.XpathSearch.Single | scraper/jobs_getter/elements_query/get_XPATH_text.py:19-22 | a fresh search holds NA and its locator |
| JobsGetterXpath.XpathSearch.ListSearch | scraper/jobs_getter/elements_query/get_XPATH_text.py:25-26 | a fresh list search holds NA and its locator |
| JobsGetterXpath.GetAllTexts | scraper/jobs_getter/elements_query/get_XPATH_text.py:49-54 | the texts of the elements in order |
| JobsGetterXpath.GetXpathValues | scraper/jobs_getter/elements_query/get_XPATH_text.py:29-60 | behaves exactly as the jobs_to_csv getter |
| HelpersXpathText.SingleText | scraper/helpers/get_XPATH_text.py:35-38 | NA iff the text is "N/A" or blank; otherwise the text unstripped |
| HelpersXpathText.XpathText | scraper/helpers/get_XPATH_text.py:13-38 | list mode never fails and gives NA for no match, otherwise the texts; single mode fails iff there is no match |
| HelpersXpathText.GetXpathText | scraper/helpers/get_XPATH_text.py:13-38 | the append loop and collapse compute `XpathText` |
| HelpersXpathText.CollapsedSearch | scraper/helpers/get_XPATH_text.py:26-36 | this getter is the jobs_to_csv getter followed by the NA collapse |
| ElementValueGetter.GetValuesFromElement | scraper/jobs_to_csv/job_value_getter/_element_value_getter.py:15-26 | one lookup per search: a resolved search takes the text(s), an unresolved one keeps its prior value; the same mapping is returned |
| ElementValueGetter.BlockPairs | scraper/jobs_to_csv/job_value_getter/_element_value_getter.py:18-26 | the block's columns in order with each search's value |
| ElementValueGetter.AddValuesToJob | scraper/jobs_to_csv/job_value_getter/_element_value_getter.py:18-26 | the job takes each block value, as dict assignment does |
| ElementValueGetter.GetAndAddElementValue | scraper/jobs_to_csv/job_value_getter/_element_value_getter.py:15-26 | lookups, then assignment into the job |
| ValuesFromSource.FieldEntry.constructor | scraper/helpers/get_values_from_source.py:11-21 | a schema entry starts at NA with its locator and list flag |
| ValuesFromSource.EntryPairs | scraper/helpers/get_values_from_source.py:14-21 | the schema's columns in order with each entry's value |
| ValuesFromSource.ResolvedText | scraper/helpers/get_values_from_source.py:15-19 | a list entry always resolves; a single entry with no match keeps its previous value |
| ValuesFromSource.GetValuesFromSource | scraper/helpers/get_values_from_source.py:11-21 | one lookup per entry in dict order; the same schema is returned |
| AddValuesFromDict.AddValuesFromDict | scraper/helpers/get_job_values/add_values_from_dict.py:8-26 | the job becomes the old job with each `values_to_add` value assigned in order |
| Records.AssignAllColumns | scraper/helpers/get_job_values/add_values_from_dict.py:25-26 | every added column holds its new value; other columns keep their value and position; new keys are appended in source order |
| AddColumnsToJobFromDict.AddColumnsToJobFromDict | scraper/helpers/add_columns_to_job_from_dict.py:6-10 | the job takes each schema value, as dict assignment does |
| AddColumnsToRowFromDict.AddColumnsToRowFromDict | scraper/helpers/add_columns_to_row_from_dict.py:6-10 | the same loop, returning nothing |
| AddColumnsToJobFromSource.AddColumnsToJobFromSource | scraper/helpers/add_columns_to_job_from_source.py:8-14 | `get_values_from_source` followed by `add_columns_to_job_from_dict` |
| AddColumnsToRowFromSource.AddColumnsToRowFromSource | scraper/helpers/add_columns_to_row_from_source.py:7-13 | `get_values_from_source` followed by `add_columns_to_row_from_dict` |
| JobValueGetter.SearchBlock | scraper/jobs_to_csv/job_value_getter/job_value_getter.py:283-325 | a block's record holds exactly its columns in order |
| JobValueGetter.SearchBlockValues | scraper/jobs_to_csv/job_value_getter/job_value_getter.py:234-247 | without its anchor every field is NA; with it each field is its own lookup |
| JobValueGetter.NewBlock | scraper/jobs_to_csv/job_value_getter/job_value_getter.py:110-117 | the dict literal of fresh searches: NA, its locator, list kind as declared |
| JobValueGetter.FillBlock | scraper/jobs_to_csv/job_value_getter/job_value_getter.py:283-325 | the block's lookups are assigned into the job |
| JobValueGetter.GetJobDescriptionsValues | scraper/jobs_to_csv/job_value_getter/job_value_getter.py:283-325 | the description block, read from the detail panel |
| JobValueGetter.GetJobButtonValues | scraper/jobs_to_csv/job_value_getter/job_value_getter.py:250-280 | Job_age and Easy_apply, read from the listing button |
| JobValueGetter.GetCompanyDescription | scraper/jobs_to_csv/job_value_getter/job_value_getter.py:195-247 | the company block under EmpBasicInfo, NA throughout without it |
| JobValueGetter.GetCompanyRatings | scraper/jobs_to_csv/job_value_getter/job_value_getter.py:136-192 | the ratings block under its anchor, NA throughout without it |
| JobValueGetter.GetCompanyReviewsByJobTitle | scraper/jobs_to_csv/job_value_getter/job_value_getter.py:93-133 | Pros and Cons under Reviews, NA without it |
| JobValueGetter.GetCompanyBenefitsReview | scraper/jobs_to_csv/job_value_getter/job_value_getter.py:55-90 | the un-anchored benefits block |
| JobValueGetter.ValuesForJob | scraper/jobs_to_csv/job_value_getter/job_value_getter.py:18-52 | Timeout iff the detail panel is absent, before any field is read; otherwise the six blocks |
| JobValueGetter.GetValuesForJob | scraper/jobs_to_csv/job_value_getter/job_value_getter.py:18-52 | the in-place block fills produce a fresh dict equal to `ValuesForJob` |
| JobValueGetter.JobLayout | scraper/jobs_to_csv/job_value_getter/job_value_getter.py:43-50 | the record is the six blocks one after another: 25 columns in fixed order |
| JobValueGetter.SixBlocks | scraper/jobs_to_csv/job_value_getter/job_value_getter.py:43-50 | filling six blocks with disjoint columns into an empty dict concatenates them |
| JobValueGetter.MissingAnchorsGiveNA | scraper/jobs_to_csv/job_value_getter/job_value_getter.py:120-247 | a missing EmpBasicInfo, ratings or Reviews anchor leaves NA in every column of that block |
| JobValueGetter.CompanyFits | scraper/jobs_to_csv/job_value_getter/job_value_getter.py:212-232 | the company columns are distinct and disjoint from the other blocks |
| OneJobSchemas.EntryBlock | scraper/helpers/get_one_job/get_one_job.py:332-388 | a schema block's record holds exactly its columns |
| OneJobSchemas.EntryBlockValues | scraper/helpers/get_one_job/get_one_job.py:278-291 | without the anchor every field is NA; with it each field is its lookup |
| OneJobSchemas.UnresolvedStaysNA | scraper/helpers/get_one_job/get_one_job.py:351-382 | a field with no match stays at its preset NA |
| OneJobSchemas.NewSchema | scraper/helpers/get_one_job/get_one_job.py:351-382 | the schema literal: fresh entries preset to NA |
| OneJobSchemas.FilledSchema | scraper/helpers/get_one_job/get_one_job.py:278-291 | after the fill or the fallback, the schema's pairs are the block's values |
| OneJobSchemas.OneJob | scraper/helpers/get_one_job/get_one_job.py:21-58 | Timeout iff the detail panel is absent; otherwise the six schema blocks |
| OneJobSchemas.OneJobLayout | scraper/helpers/get_one_job/get_one_job.py:46-53 | Company_Name…Salary, Job_age, Easy_apply, Size…Revenue, the seven ratings, Pros, Cons, Benefits_rating, Benefits_reviews |
| OneJobSchemas.OneJobMissingAnchorsGiveNA | scraper/helpers/get_one_job/get_one_job.py:278-291 | a missing company, ratings or reviews anchor makes that block NA |
| GetOneJob.GetJobDescriptionsValues | scraper/helpers/get_one_job/get_one_job.py:332-388 | the description block filled from the panel |
| GetOneJob.GetJobButtonValues | scraper/helpers/get_one_job/get_one_job.py:294-329 | Job_age and Easy_apply from the button |
| GetOneJob.GetCompanyDescription | scraper/helpers/get_one_job/get_one_job.py:226-291 | Size…Revenue under EmpBasicInfo, or the NA schema |
| GetOneJob.GetCompanyRatings | scraper/helpers/get_one_job/get_one_job.py:152-223 | the ratings block, or the NA schema |
| GetOneJob.GetCompanyReviewsByJobTitle | scraper/helpers/get_one_job/get_one_job.py:103-149 | Pros and Cons, or the NA schema |
| GetOneJob.GetCompanyBenefitsReview | scraper/helpers/get_one_job/get_one_job.py:61-100 | the benefits block, each field falling back on its own |
| GetOneJob.GetOneJob | scraper/helpers/get_one_job/get_one_job.py:21-58 | the fresh dict equals `OneJob`; debug mode does not change it |
| GetOneJobRow.FillRowSchema | scraper/helpers/get_one_job.py:123-135 | one block fill into the row, or its NA schema |
| GetOneJobRow.GetOneJobRow | scraper/helpers/get_one_job.py:22-245 | the monolithic version builds the same 25-column record |
| Collection.TakeItems | scraper/jobs_to_csv/jobs_to_csv.py:48-73 | the inner loop extends the list, never past the target, and stops on an item's exception |
| Collection.CollectBounded | scraper/jobs_to_csv/jobs_to_csv.py:32-53 | the list never exceeds the target, keeps what it held, and the loop reports the target reached iff the list holds that many records |
| Collection.TakeItemsRecords | scraper/jobs_to_csv/jobs_to_csv.py:48-73 | with succeeding items, a pass appends their records in order from the first item |
| Collection.RepeatedPassRepeatsRecords | scraper/jobs_to_csv/jobs_to_csv.py:32-48 | each pass restarts at the first item, so an unchanged page is collected twice |
| Collection.EmptyPassesNoProgress | scraper/jobs_to_csv/jobs_to_csv.py:32-48 | a listing with zero items adds nothing and the loop never ends by reaching the target |
| Collection.RaisingLoopNeverExits | scraper/helpers/get_jobs.py:18-41 | the helpers loop has no exit path: it ends only by reaching the cap or by an exception |
| Collection.FailingItemsCollectNothing | scraper/jobs_to_csv/jobs_to_csv.py:48-73 | when every item raises, nothing is collected |
| Collection.BlockedMessage | scraper/jobs_to_csv/jobs_to_csv.py:40-44 | the exit text ends with the error text |
| Collectors.Click | scraper/jobs_to_csv/jobs_to_csv.py:55-60 | jobs_to_csv always clicks the same button; the other loops fail iff the click is intercepted |
| Collectors.ParsedValues | scraper/jobs_to_csv/jobs_to_csv.py:66-68 | the extracted record passed through `parse_data` once |
| Collectors.ClickFallback | scraper/jobs_getter/jobs_getter.py:45-64 | interception does not matter to jobs_to_csv and fails the other two loops |
| Collectors.RecordsParsedOnce | scraper/jobs_to_csv/jobs_to_csv.py:66-73 | a collected record is the parsed extract; the helpers loop appends `get_one_job` unparsed |
| Collectors.ExtractedRecordsFailToParse | scraper/jobs_to_csv/job_parser/_company_name_parser.py:24 | every extracted record makes `parse_data` raise; past the revenue step, as KeyError('Company_name') |
| Collectors.CompanyColumnNotExtracted | scraper/jobs_to_csv/job_value_getter/job_value_getter.py:302 | the extractor writes Company_Name, never Company_name |
| Collectors.ParsingLoopItemsFail | scraper/jobs_to_csv/jobs_to_csv.py:66-68 | every item of a parsing loop raises |
| Collectors.ParsingLoopsCollectNothing | scraper/jobs_to_csv/jobs_to_csv.py:32-73 | the two parsing loops collect no record |
| JobsToCsv.ReadItem | scraper/jobs_to_csv/jobs_to_csv.py:55-73 | one item: click with fallback, extract, parse |
| JobsToCsv.GetJobsToCsv | scraper/jobs_to_csv/jobs_to_csv.py:23-73 | the loop ends as `Collect` says, exiting with the blocked message when items cannot be listed |
| JobsGetterLoop.ReadItem | scraper/jobs_getter/jobs_getter.py:51-64 | one item: native click, extract, parse |
| JobsGetterLoop.GetJobs | scraper/jobs_getter/jobs_getter.py:20-64 | the loop ends as `Collect` says |
| HelpersJobsLoop.ReadItem | scraper/helpers/get_jobs.py:33-41 | one item: native click, then `get_one_job` |
| HelpersJobsLoop.GetJobs | scraper/helpers/get_jobs.py:12-41 | the loop ends as `Collect` says, raising when items cannot be listed |
| ClickNextPage.ExitMessage | scraper/jobs_to_csv/actions/click_next_page.py:60-63 | the message starts "Scraping terminated before reaching target number of jobs." |
| ClickNextPage.NextPage | scraper/jobs_to_csv/actions/click_next_page.py:35-48 | exit iff the control is absent or disabled; an intercepted click falls back to a script click |
| ClickNextPage.DecisionIgnoresCounters | scraper/jobs_to_csv/actions/click_next_page.py:35-48 | the decision never depends on the two counters |
| ClickNextPage.ExitMessageReadsBack | scraper/jobs_to_csv/actions/click_next_page.py:60-63 | the message determines both numbers, the counter after "Needed" and the target after "got" |
| CsvWriter.HeaderRow | scraper/jobs_to_csv/CSV_Writer.py:52-60 | the header row is the observation's keys in order |
| CsvWriter.ValuesRow | scraper/jobs_to_csv/CSV_Writer.py:85-86 | a row is the observation's values in key order |
| CsvWriter.FileRows | scraper/jobs_to_csv/CSV_Writer.py:25-32 | the file is the first observation's header followed by one row per observation |
| CsvWriter.Dirname | scraper/jobs_to_csv/CSV_Writer.py:21 | `os.path.dirname` is no longer than the path |
| CsvWriter.DirnameOfJoin | scraper/jobs_to_csv/CSV_Writer.py:21 | the directory of "dir/name" is dir, and a bare name has none |
| CsvWriter.WriteErrorMessage | scraper/jobs_to_csv/CSV_Writer.py:74-83 | the exit text starts with "File:" |
| CsvWriter.Writer.constructor | scraper/jobs_to_csv/CSV_Writer.py:19-23 | the counter starts at 1 with nothing written |
| CsvWriter.Writer.WriteHeader | scraper/jobs_to_csv/CSV_Writer.py:52-72 | creates the directory if needed and truncates the file to the header row, or exits on a csv error |
| CsvWriter.Writer.WriteRow | scraper/jobs_to_csv/CSV_Writer.py:34-50 | FileNotFoundError without a file; otherwise appends exactly one row, or exits on a csv error |
| CsvWriter.Writer.WriteObservation | scraper/jobs_to_csv/CSV_Writer.py:25-32 | header only when the counter is 1; the counter grows by one per observation written and not on failure, so counter−1 is the number written |
| ScraperConfig.GetUrl | scraper/config/get.py:29-36 | base + title + keyword + title + location; KeyError for a missing part |
| ScraperConfig.GetUrlLayout | scraper/config/get.py:32-34 | each part sits at its own offset |
| ScraperConfig.FileName | scraper/config/get.py:49-53 | the file name ends with "_" + the date stamp + "." + extension |
| ScraperConfig.DateStampFields | scraper/config/get.py:51 | the stamp is "%d-%m-%Y_%H-%M": 16 characters with the separators in place and each field's digits |
| ScraperConfig.NoSpaceInTitle | scraper/config/get.py:49 | the title has no space left after the replace |
| ScraperConfig.CsvTarget | scraper/config/get.py:47-56 | the target path ends with the file name |
| ScraperConfig.GetPathCsv | scraper/config/get.py:42-61 | the path is returned iff it exists or sanitising leaves it unchanged, otherwise OSError |
| ScraperConfig.GetPathCsvRaw | scraper/config/get.py:64-65 | the path for the raw subdirectory |
| ScraperConfig.GetPathCsvClean | scraper/config/get.py:68-69 | the path for the clean subdirectory |
| ScraperConfig.RawAndCleanShareFile | scraper/config/get.py:64-69 | the raw and clean paths differ only in the subdirectory |
| ConfigUrl.GetUrl | config/get.py:20-30 | the URL from `config["url"]` and `config["jobs_titles"]["default"]` |
| ConfigUrl.TitleTwice | config/get.py:26-28 | the title appears at its two places between the fixed parts |
| GlassdoorMain.UpdateUrl | glassdoor_scraper/src/main.py:140-151 | a URL without ".htm" is returned unchanged, and for a page after the first so is a URL without "_IP" |
| GlassdoorMain.UpdateUrlStep | glassdoor_scraper/src/main.py:140-151 | page 1 turns the single ".htm" into "_IP1.htm"; page n turns the single "_IP{n-1}.htm" into "_IP{n}.htm" |
| GlassdoorMain.UpdateUrlAbsent | glassdoor_scraper/src/main.py:140-151 | without the substring, the URL is unchanged |
| GlassdoorMain.PageUrlChain | glassdoor_scraper/src/main.py:67-103 | chaining from page 1 to n on a base with one ".htm" and no "_IP" gives ".htm" → "_IP{n}.htm" |
| GlassdoorMain.LoadConfigs | glassdoor_scraper/src/main.py:108-124 | succeeds iff the URL parts and first job and job type exist; target_num is passed through |
| GlassdoorMain.LoadConfigsUrl | glassdoor_scraper/src/main.py:114-122 | base + q(job) + keyword + q(job) + job_type[0] |
| GlassdoorMain.Accepted | glassdoor_scraper/src/main.py:133-138 | only rows the writer accepts, in order |
| GlassdoorMain.AcceptedAppend | glassdoor_scraper/src/main.py:133-138 | writing two batches equals writing them together |
| GlassdoorMain.AllAccepted | glassdoor_scraper/src/main.py:133-138 | with no failing row, all rows are written |
| GlassdoorMain.FileWriter | glassdoor_scraper/src/main.py:126-138 | appends the accepted rows in order and skips the failing ones |
| GlassdoorMain.PageUrlsAt | glassdoor_scraper/src/main.py:67-103 | the i-th fetched URL is the base updated through page i+1 |
| GlassdoorMain.PageStep | glassdoor_scraper/src/main.py:69-103 | one pass of the page loop preserves the loop's invariant |
| GlassdoorMain.PageLoop | glassdoor_scraper/src/main.py:63-104 | runs while the count is ≤ target, adding each page's count, so it stops only once the count exceeds the target |
| GlassdoorMain.Run | glassdoor_scraper/src/main.py:25-104 | arguments override the config; target ≥ maxJobs aborts after the header and before any page is fetched |

## Left out

- Browser plumbing is not modelled: driver start-up, page loading and waits, pop-up closing, random pauses, debug printing and progress bars. Waits become a Timeout when the element is absent, and pop-up clicks are not represented.
- Clocks, the file system and `pathvalidate` are parameters (`ScraperConfig.Env`): the current time, `os.path.exists`, `abspath` and the sanitiser. `os.path.join` and `dirname` are modelled for POSIX paths only.
- ScraperConfig.DateStampFields: stated only for clock readings with a year from 1000 to 9999, where `%Y` has four digits.
- The YAML and JSON configuration loaders are left out. The configuration is given as values, and `int(configurations["target_num"])` is taken as an int already.
- `requestAndParse`, `extract_listing`, `extract_listings` and `extract_maximums` of glassdoor_scraper are environment inputs: pages are given as data, with their row tuples and job counts.
- The listing a loop sees is a finite sequence of passes. A loop that would go on forever in Python ends as `Unfinished` when the sequence runs out.
- The three collection loops return nothing in Python. The model returns how each ended, with the list it built as a ghost out-parameter.
- Python floats are not modelled as floats. A number string is an exact decimal: sign, digits and an optional dot part. Exponents, `inf`, `nan` and underscores are not accepted, and there is no rounding.
- Errors raised by Python's csv module are a parameter (`csvError`, `accepts`). CSV quoting of cells is not modelled: a row is the sequence of its values.
- `urllib.parse.quote` is a parameter of `GlassdoorMain.LoadConfigs`.
- GlassdoorMain.LoadConfigs: the configuration's "003_job_type" and "jobs" entries are always present as lists. So the KeyError main.py raises when either key is missing is not modelled; only the IndexError for an empty list is.
- ScraperConfig.PathWithDefaults: it reads `jobs_titles["default"]` when it is called. In get.py that default is bound when the module is imported, so in Python a missing key fails at import time, not at the call.
- Text.IsSpace and Text.IsDigit: whitespace is the ASCII and Latin-1 subset that `str.strip()` removes, and digits are ASCII only. Python also strips the other Unicode spaces (U+1680, U+2000 to U+200A, U+2028, U+2029, U+202F, U+205F, U+3000). Its `isdigit`, `float`, `\d` and `filter(str.isdigit, ...)` also accept non-ASCII decimal digits. On text holding those characters, `NAValuesParser.NormalizeValue`, `FieldSteps.CleanField`, `NumericalValuesParser.CoerceString` and the salary recognisers (`SalaryParser.FirstRange`, `SalaryParser.ChangeToInteger`) differ from the source.
- scraper/jobs_to_csv/job_parser/_na_values_parser.py and _employees_parser.py are not part of this model. `parse_data` uses the helpers twins parse_NA_values.py and parse_employees.py in their place.
- parse_job_data.py imports its NA, numeric, salary, easy-apply and employees steps from scraper/helpers/parse_job_data/parse. Only parse_revenue.py of that directory is part of this model. `ParseJobData` uses parse_NA_values.py, parse_easy_apply.py and parse_employees.py from the parent directory, and the jobs_to_csv numeric and salary parsers, in their place.
- scraper/helpers/get_one_job/get_one_job.py and get_one_job/get_values_from_source.py import `add_columns_to_job_from_dict`, `add_columns_to_job_from_source` and `get_XPATH_text` from their own package. Those package modules are not part of this model. `GetOneJob` uses the scraper/helpers modules of the same names in their place, including the collapse of "N/A" and blank text to NA done by the helpers `get_XPATH_text`.
- scraper/jobs_getter/job_value_getter and scraper/jobs_getter/job_parser are not part of this model. The jobs_getter loop uses the jobs_to_csv extractor and parser.
- The `_dict_value_adder` and `_element_value_getter_and_adder` modules used by `get_values_for_job` are not part of this model. The model uses the block fill of `get_values_from_element` followed by dict assignment in their place.
- `execute_via_javascript` and `click_via_javascript` are modelled only as a click that cannot be intercepted.
- `get_df_jobs`, the entry scripts, the Flask endpoint and the helpers snapshots that call undefined names are outside the core.
- SalaryParser.GetCurrency: the contract states only the failure kind. The "$" currency of a matched range is proved in `SalaryParser.RangeParts`.
- CsvWriter.Writer.WriteHeader and CsvWriter.Writer.WriteRow: the file's encoding (`get_encoding()`) is not modelled. In the source an unknown encoding raises LookupError and an unencodable character raises UnicodeEncodeError; both escape `except csv.Error` and are not turned into the exit message, but neither can occur in the model.
- CsvWriter.Dirname: the contract states only the length bound. Its value on a joined path is proved in `CsvWriter.DirnameOfJoin`.
