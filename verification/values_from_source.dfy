/**
 * scraper/helpers/get_values_from_source.py: the helpers' schema is a
 * dict of dicts, each entry holding an XPath query (`element`), a list
 * flag (`is_list`) and the `value` found, preset to NA. One lookup per
 * entry, in dict order; a lookup that raises NoSuchElement leaves the
 * entry's value as it was.
 */
module ValuesFromSource {
  import opened Wrappers
  import opened PyValues
  import opened Records
  import opened Dom
  import opened HelpersXpathText

  /** One entry of the schema: `{"value": ..., "element": ..., "is_list": ...}`; only `value` changes. */
  class FieldEntry {
    var value: Value
    const element: string
    const isList: bool

    constructor (element: string, isList: bool)
      ensures this.value == NA && this.element == element && this.isList == isList
    {
      this.value := NA;
      this.element := element;
      this.isList := isList;
    }
  }

  /** A schema: column name to entry, in dict order. */
  type Schema = seq<(string, FieldEntry)>

  function Entries(schema: Schema): set<FieldEntry>
  {
    set i | 0 <= i < |schema| :: schema[i].1
  }

  /** No entry dict sits under two columns. */
  predicate DistinctEntries(schema: Schema)
  {
    forall i, j :: 0 <= i < j < |schema| ==> schema[i].1 != schema[j].1
  }

  /**
   * The schema's columns with the values their entries hold now. This
   * module mirrors get_values_from_source.py, whose entries play the part
   * of the searches of get_values_from_element.py, so this reading is the
   * same as `ElementValueGetter.BlockPairs`.
   */
  function EntryPairs(schema: Schema): (r: Record)
    reads Entries(schema)
    ensures |r| == |schema|
    ensures forall i :: 0 <= i < |schema| ==> r[i] == (schema[i].0, schema[i].1.value)
  {
    if schema == [] then [] else [(schema[0].0, schema[0].1.value)] + EntryPairs(schema[1..])
  }

  /** The value an entry holds after its lookup: the getter's result, or what it held when the lookup raised. */
  function ResolvedText(p: Page, scope: Node, element: string, isList: bool, prior: Value): (v: Value)
    ensures isList ==> v == XpathText(p, scope, element, true).value
    ensures !isList && FindElements(p, scope, ByXPath(element)) == [] ==> v == prior
  {
    match XpathText(p, scope, element, isList)
    case Success(v) => v
    case Failure(_) => prior
  }

  /** `get_values_from_source(source_html, job_values)` */
  method GetValuesFromSource(p: Page, scope: Node, schema: Schema) returns (res: Schema)
    requires DistinctEntries(schema)
    modifies Entries(schema)
    ensures res == schema
    ensures forall i :: 0 <= i < |schema| ==>
              schema[i].1.value == ResolvedText(p, scope, schema[i].1.element, schema[i].1.isList, old(schema[i].1.value))
  {
    for i := 0 to |schema|
      invariant forall j :: 0 <= j < i ==>
                  schema[j].1.value == ResolvedText(p, scope, schema[j].1.element, schema[j].1.isList, old(schema[j].1.value))
      invariant forall j :: i <= j < |schema| ==> schema[j].1.value == old(schema[j].1.value)
    {
      var entry := schema[i].1;
      var r := GetXpathText(p, scope, entry.element, entry.isList);
      if r.Success? {
        entry.value := r.value;
      }
    }
    res := schema;
  }
}
