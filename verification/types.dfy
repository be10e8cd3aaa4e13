/** The records of the hierarchy document (types.ts), as immutable datatypes.
    Optional TypeScript fields become `Option`; an absent `children` or
    `dependencies` array behaves exactly like an empty one everywhere the
    viewer reads it, so those two are plain sequences. */
module Types {

  datatype Option<+T> = None | Some(value: T)

  /** The six node type tags of `HierarchyNode.type`. */
  datatype NodeType = Platform | Domain | Module | Component | Service | Data

  /** The HTTP verbs an `ApiSpecification` may carry. */
  datatype HttpMethod = GET | POST | PUT | DELETE | PATCH

  datatype ApiParameter = ApiParameter(
    name: string,
    paramType: string,
    required: bool,
    description: Option<string>)

  datatype ApiSpec = ApiSpec(
    httpMethod: HttpMethod,
    endpoint: string,
    summary: string,
    parameters: Option<seq<ApiParameter>>,
    response: string)

  datatype SchemaColumn = SchemaColumn(
    name: string,
    columnType: string,
    constraints: Option<seq<string>>,
    description: Option<string>)

  /** A table schema: its name and its columns in declared order. */
  datatype DataSchema = DataSchema(
    tableName: string,
    description: Option<string>,
    columns: seq<SchemaColumn>)

  /** One node of the hierarchy. `apiSpecs` stays an `Option` because an
      empty array is truthy in the outline view but counts as "no API" in
      the explorer. */
  datatype Node = Node(
    name: string,
    kind: NodeType,
    code: Option<string>,
    children: seq<Node>,
    description: Option<string>,
    dependencies: seq<string>,
    apiSpecs: Option<seq<ApiSpec>>,
    dataSchema: Option<DataSchema>)

  /** The code a node is indexed and highlighted under. The views test
      `node.code` for truthiness, so an empty code counts as no code. */
  function CodeKey(n: Node): (k: Option<string>)
    ensures k.Some? <==> n.code.Some? && n.code.value != ""
    ensures k.Some? ==> k.value == n.code.value
  {
    if n.code.Some? && n.code.value != "" then n.code else None
  }

  /** The detail-panel tabs of the explorer. */
  datatype Tab = Info | Api | Schema

  datatype ProjectPhase = ProjectPhase(
    id: int,
    name: string,
    startWeek: int,
    endWeek: int,
    budget: int,
    status: string,
    description: string,
    deliverables: seq<string>)

  /** `Metric.value` is `string | number`. */
  datatype MetricValue = Text(text: string) | Number(number: int)

  datatype Trend = Up | Down | Neutral

  datatype Metric = Metric(
    labelText: string,
    value: MetricValue,
    icon: string,
    change: Option<string>,
    trend: Option<Trend>)

  datatype DomainInfo = DomainInfo(
    id: string,
    name: string,
    description: string,
    modules: int,
    color: string)

  datatype GlossaryTerm = GlossaryTerm(
    term: string,
    definition: string,
    category: string,
    hierarchy: Option<string>,
    related: Option<seq<string>>)
}
