/** The search request built for one experimental method: a JSON object of fixed shape. */
module Query {
  import opened Wrappers

  /** A JSON value; an object keeps its members in the order they are written. */
  datatype Json =
    | JNull
    | JBool(b: bool)
    | JInt(n: int)
    | JString(s: string)
    | JArray(items: seq<Json>)
    | JObject(members: seq<(string, Json)>)

  /** One step of a path into a JSON value: an object key or an array index. */
  datatype Step = Key(name: string) | Index(i: nat)

  /** The value of the first member called `name`, as `d[name]` finds it. */
  function Member(members: seq<(string, Json)>, name: string): Option<Json>
  {
    if members == [] then None
    else if members[0].0 == name then Some(members[0].1)
    else Member(members[1..], name)
  }

  /** The value found by following `path` from `j`, or None when a step does not exist. */
  function Get(j: Json, path: seq<Step>): Option<Json>
    decreases |path|
  {
    if path == [] then Some(j)
    else match path[0]
      case Key(name) =>
        if j.JObject? then
          match Member(j.members, name)
          case None => None
          case Some(child) => Get(child, path[1..])
        else None
      case Index(i) =>
        if j.JArray? && i < |j.items| then Get(j.items[i], path[1..]) else None
  }

  /** Following two paths one after the other is following their concatenation. */
  lemma {:induction false} GetConcat(j: Json, p: seq<Step>, q: seq<Step>)
    ensures Get(j, p + q) == match Get(j, p) case None => None case Some(c) => Get(c, q)
    decreases |p|
  {
    if p == [] {
      assert p + q == q;
    } else {
      assert (p + q)[0] == p[0] && (p + q)[1..] == p[1..] + q;
      match p[0]
      case Key(name) =>
        if j.JObject? && Member(j.members, name).Some? {
          GetConcat(Member(j.members, name).value, p[1..], q);
        }
      case Index(i) =>
        if j.JArray? && i < |j.items| {
          GetConcat(j.items[i], p[1..], q);
        }
    }
  }

  /** A one-key path looks the key up. */
  lemma GetKey(j: Json, name: string)
    ensures Get(j, [Key(name)]) == if j.JObject? then Member(j.members, name) else None
  {
  }

  /** A one-index path selects the element. */
  lemma GetIndex(j: Json, i: nat)
    ensures Get(j, [Index(i)]) == if j.JArray? && i < |j.items| then Some(j.items[i]) else None
  {
  }

  /** The text filter: an exact match of the experimental-method attribute against `methodName`. */
  function TerminalNode(methodName: string): Json {
    JObject([
      ("type", JString("terminal")),
      ("service", JString("text")),
      ("parameters", Parameters(methodName))
    ])
  }

  /** The filter's parameters: which attribute, how it is compared, and with what. */
  function Parameters(methodName: string): Json {
    JObject([
      ("attribute", JString("rcsb_entry_info.experimental_method")),
      ("operator", JString("exact_match")),
      ("value", JString(methodName))
    ])
  }

  /** The inner facet: entries of one year bucketed by experimental method. */
  function MethodFacet(): Json {
    JObject([
      ("name", JString("Experimental Method")),
      ("aggregation_type", JString("terms")),
      ("attribute", JString("rcsb_entry_info.experimental_method")),
      ("min_interval_population", JInt(1))
    ])
  }

  /** The outer facet: entries bucketed by year of initial release. */
  function ReleaseDateFacet(): Json {
    JObject([
      ("name", JString("Release Date")),
      ("aggregation_type", JString("date_histogram")),
      ("attribute", JString("rcsb_accession_info.initial_release_date")),
      ("interval", JString("year")),
      ("min_interval_population", JInt(1)),
      ("facets", JArray([MethodFacet()]))
    ])
  }

  /** The group node holding the one text filter. */
  function GroupNode(methodName: string): Json {
    JObject([
      ("type", JString("group")),
      ("nodes", JArray([TerminalNode(methodName)])),
      ("logical_operator", JString("or"))
    ])
  }

  /** Zero-row pagination (only the facets are wanted) and the nested facets. */
  function RequestOptions(): Json {
    JObject([
      ("paginate", JObject([("rows", JInt(0))])),
      ("facets", JArray([ReleaseDateFacet()]))
    ])
  }

  const RowsPath: seq<Step> := [Key("request_options"), Key("paginate"), Key("rows")]
  const YearFacetPath: seq<Step> := [Key("request_options"), Key("facets"), Index(0)]
  const MethodFacetPath: seq<Step> := YearFacetPath + [Key("facets"), Index(0)]
  const ParametersPath: seq<Step> := [Key("query"), Key("nodes"), Index(0), Key("parameters")]
  const ValuePath: seq<Step> := ParametersPath + [Key("value")]
  const OperatorPath: seq<Step> := ParametersPath + [Key("operator")]
  const AttributePath: seq<Step> := ParametersPath + [Key("attribute")]

  /** The query dictionary sent for one method. */
  function BuildQuery(methodName: string): Json {
    JObject([
      ("query", GroupNode(methodName)),
      ("return_type", JString("entry")),
      ("request_options", RequestOptions())
    ])
  }

  const ToFacet: seq<Step> := [Key("facets"), Index(0)]

  lemma TopLevelShape(methodName: string)
    ensures Get(BuildQuery(methodName), [Key("query")]) == Some(GroupNode(methodName))
    ensures Get(BuildQuery(methodName), [Key("return_type")]) == Some(JString("entry"))
    ensures Get(BuildQuery(methodName), [Key("request_options")]) == Some(RequestOptions())
  {
    var members := BuildQuery(methodName).members;
    GetKey(BuildQuery(methodName), "query");
    GetKey(BuildQuery(methodName), "return_type");
    GetKey(BuildQuery(methodName), "request_options");
    assert members[1..][1..] == members[2..];
    assert Member(members[2..], "request_options") == Some(RequestOptions());
    assert Member(members[1..], "request_options") == Some(RequestOptions());
  }

  lemma ParametersShape(methodName: string)
    ensures Get(Parameters(methodName), [Key("attribute")]) == Some(JString("rcsb_entry_info.experimental_method"))
    ensures Get(Parameters(methodName), [Key("operator")]) == Some(JString("exact_match"))
    ensures Get(Parameters(methodName), [Key("value")]) == Some(JString(methodName))
  {
    var members := Parameters(methodName).members;
    assert members[1..][1..] == members[2..];
    assert Member(members[2..], "value") == Some(JString(methodName));
    assert Member(members[1..], "value") == Some(JString(methodName));
    GetKey(Parameters(methodName), "attribute");
    GetKey(Parameters(methodName), "operator");
    GetKey(Parameters(methodName), "value");
  }

  lemma GroupNodeShape(methodName: string)
    ensures Get(GroupNode(methodName), [Key("nodes"), Index(0), Key("parameters")]) == Some(Parameters(methodName))
  {
    var node := TerminalNode(methodName);
    assert node.members[1..][1..] == node.members[2..];
    assert Member(node.members[2..], "parameters") == Some(Parameters(methodName));
    assert Member(node.members[1..], "parameters") == Some(Parameters(methodName));
    GetKey(node, "parameters");
    var nodes := JArray([node]);
    GetIndex(nodes, 0);
    GetKey(GroupNode(methodName), "nodes");
    GetConcat(nodes, [Index(0)], [Key("parameters")]);
    GetConcat(GroupNode(methodName), [Key("nodes")], [Index(0), Key("parameters")]);
  }

  lemma RequestOptionsShape()
    ensures Get(RequestOptions(), [Key("paginate"), Key("rows")]) == Some(JInt(0))
    ensures Get(RequestOptions(), ToFacet) == Some(ReleaseDateFacet())
  {
  }

  lemma ReleaseDateFacetShape()
    ensures Get(ReleaseDateFacet(), [Key("aggregation_type")]) == Some(JString("date_histogram"))
    ensures Get(ReleaseDateFacet(), [Key("interval")]) == Some(JString("year"))
    ensures Get(ReleaseDateFacet(), [Key("min_interval_population")]) == Some(JInt(1))
    ensures Get(ReleaseDateFacet(), ToFacet) == Some(MethodFacet())
  {
  }

  lemma MethodFacetShape()
    ensures Get(MethodFacet(), [Key("aggregation_type")]) == Some(JString("terms"))
    ensures Get(MethodFacet(), [Key("min_interval_population")]) == Some(JInt(1))
  {
  }

  /** The paging option and the two nested facets, found from the top of the query. */
  lemma FacetPaths(methodName: string)
    ensures Get(BuildQuery(methodName), RowsPath) == Some(JInt(0))
    ensures Get(BuildQuery(methodName), YearFacetPath) == Some(ReleaseDateFacet())
    ensures Get(BuildQuery(methodName), MethodFacetPath) == Some(MethodFacet())
  {
    var q := BuildQuery(methodName);
    var toOptions := [Key("request_options")];
    TopLevelShape(methodName);
    RequestOptionsShape();
    ReleaseDateFacetShape();
    assert RowsPath == toOptions + [Key("paginate"), Key("rows")];
    GetConcat(q, toOptions, [Key("paginate"), Key("rows")]);
    assert YearFacetPath == toOptions + ToFacet;
    GetConcat(q, toOptions, ToFacet);
    assert MethodFacetPath == YearFacetPath + ToFacet;
    GetConcat(q, YearFacetPath, ToFacet);
  }

  /** The filter's parameters, found from the top of the query. */
  lemma FilterPath(methodName: string)
    ensures Get(BuildQuery(methodName), ParametersPath) == Some(Parameters(methodName))
  {
    TopLevelShape(methodName);
    GroupNodeShape(methodName);
    assert ParametersPath == [Key("query")] + [Key("nodes"), Index(0), Key("parameters")];
    GetConcat(BuildQuery(methodName), [Key("query")], [Key("nodes"), Index(0), Key("parameters")]);
  }

  /** Whatever the method, the query asks for zero rows, for year buckets holding method buckets,
      never for an empty bucket, and filters on exactly that method. */
  lemma QueryShape(methodName: string)
    ensures Get(BuildQuery(methodName), RowsPath) == Some(JInt(0))
    ensures Get(BuildQuery(methodName), YearFacetPath + [Key("min_interval_population")]) == Some(JInt(1))
    ensures Get(BuildQuery(methodName), YearFacetPath + [Key("aggregation_type")]) == Some(JString("date_histogram"))
    ensures Get(BuildQuery(methodName), YearFacetPath + [Key("interval")]) == Some(JString("year"))
    ensures Get(BuildQuery(methodName), MethodFacetPath + [Key("min_interval_population")]) == Some(JInt(1))
    ensures Get(BuildQuery(methodName), MethodFacetPath + [Key("aggregation_type")]) == Some(JString("terms"))
    ensures Get(BuildQuery(methodName), ValuePath) == Some(JString(methodName))
    ensures Get(BuildQuery(methodName), OperatorPath) == Some(JString("exact_match"))
    ensures Get(BuildQuery(methodName), AttributePath) == Some(JString("rcsb_entry_info.experimental_method"))
    ensures Get(BuildQuery(methodName), [Key("return_type")]) == Some(JString("entry"))
  {
    var q := BuildQuery(methodName);
    TopLevelShape(methodName);
    FacetPaths(methodName);
    FilterPath(methodName);
    ParametersShape(methodName);
    ReleaseDateFacetShape();
    MethodFacetShape();
    GetConcat(q, YearFacetPath, [Key("min_interval_population")]);
    GetConcat(q, YearFacetPath, [Key("interval")]);
    GetConcat(q, YearFacetPath, [Key("aggregation_type")]);
    GetConcat(q, MethodFacetPath, [Key("min_interval_population")]);
    GetConcat(q, MethodFacetPath, [Key("aggregation_type")]);
    GetConcat(q, ParametersPath, [Key("value")]);
    GetConcat(q, ParametersPath, [Key("operator")]);
    GetConcat(q, ParametersPath, [Key("attribute")]);
  }

  /** Different methods get different queries: the query identifies the method it asks about. */
  lemma BuildQueryInjective(m1: string, m2: string)
    requires BuildQuery(m1) == BuildQuery(m2)
    ensures m1 == m2
  {
  }
}
