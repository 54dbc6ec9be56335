/**
 * The records both engines exchange: parsed query conditions, parse results,
 * structured differences and the comparison result.
 */
module Types {
  import opened Wrappers
  import opened JsonValues

  /** The connective written after a condition, upper-cased. */
  datatype LogicalOperator = And | Or

  /** The comparison operators of the query language. */
  datatype Operator =
    | GreaterOrEqual | LessOrEqual | NotEqual | Equal | Greater | Less
    | Contains | StartsWith | EndsWith | Includes
    | Exists | NotExists | In | NotIn

  /** How an operator is written in a query, in lower case. */
  function OperatorText(op: Operator): string {
    match op
    case GreaterOrEqual => ">="
    case LessOrEqual => "<="
    case NotEqual => "!="
    case Equal => "="
    case Greater => ">"
    case Less => "<"
    case Contains => "contains"
    case StartsWith => "startswith"
    case EndsWith => "endswith"
    case Includes => "includes"
    case Exists => "exists"
    case NotExists => "not exists"
    case In => "in"
    case NotIn => "not in"
  }

  /** One `property operator value` clause of a query. */
  datatype QueryCondition = QueryCondition(
    property: string,
    operator: Operator,
    value: Json,
    logicalOperator: Option<LogicalOperator>)

  /** Why a condition could not be parsed; each stands for one thrown message. */
  datatype ParseError =
    | NoOperator(condition: string)
    | MissingProperty(condition: string)
    | MissingValue(operator: Operator)
    | ArrayValueRequired(operator: Operator)

  /** The outcome of parsing a query text: failure is reported as data. */
  datatype ParsedQuery = ParsedQuery(
    conditions: seq<QueryCondition>,
    isValid: bool,
    error: Option<ParseError>)

  /** One difference between two values, located by its path. */
  datatype Difference =
    | TypeChanged(path: string, fromType: string, toType: string)
    | ValueChanged(path: string, fromValue: Json, toValue: Json)
    | LengthChanged(path: string, fromLength: nat, toLength: nat)
    | ItemAdded(path: string)
    | ItemRemoved(path: string)
    | PropertyAdded(path: string, added: Json)
    | PropertyRemoved(path: string, removed: Json)

  /** An item of the first array and the different item it was matched with. */
  datatype ModifiedItem = ModifiedItem(original: Json, modified: Json, differences: seq<Difference>)

  datatype Queries = Queries(array1: ParsedQuery, array2: ParsedQuery)

  datatype ComparisonResult = ComparisonResult(
    additions: seq<Json>,
    deletions: seq<Json>,
    modifications: seq<ModifiedItem>,
    identical: seq<Json>,
    originalCount: nat,
    filteredCount: nat,
    queries: Queries)

  datatype DiffType = Addition | Deletion | Modification | Identical

  /** One row of the comparison view. */
  datatype DiffItem = DiffItem(
    kind: DiffType,
    item: Json,
    differences: Option<seq<Difference>>,
    original: Option<Json>)
}
