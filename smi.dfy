/** The loader's object model as the generator sees it: modules, nodes of
    the five generated kinds (plus the kinds it never asks for), and types. */
module Smi {
  import opened Wrappers
  import Identifiers

  /** `types.NodeKind`; `OtherKind` stands for every kind outside
      `allowedNodeKinds` (object identities, groups, compliances, ...). */
  datatype NodeKind = Scalar | Table | Row | Column | Notification | OtherKind

  /** The `%s` rendering of a generated kind, as in `models.ScalarNode`. */
  function KindName(k: NodeKind): string
  {
    match k
    case Scalar => "Scalar"
    case Table => "Table"
    case Row => "Row"
    case Column => "Column"
    case Notification => "Notification"
    case OtherKind => "Unknown"
  }

  /** Membership in `allowedNodeKinds`. */
  predicate Eligible(k: NodeKind)
  {
    k != OtherKind
  }

  datatype NamedNumber = NamedNumber(name: string, value: int)

  datatype Enum = Enum(baseType: string, values: seq<NamedNumber>)

  datatype Range = Range(baseType: string, minValue: int, maxValue: int)

  /** `models.Type`: the base type is held as its rendered name
      (`Integer32`, `OctetString`, ...); an empty format or units string
      means the hint is absent, as in the Go struct. */
  datatype Type = Type(
    name: string,
    baseType: string,
    enum: Option<Enum>,
    format: string,
    ranges: seq<Range>,
    units: string)

  /** A notification object: its name and its own kind. */
  datatype ObjectRef = ObjectRef(name: string, kind: NodeKind)

  /** What the loader exposes for each kind: the type of a scalar or column,
      the row of a table, the column order and index of a row, the objects
      of a notification. */
  datatype Payload =
    | ScalarData(nodeType: Type)
    | ColumnData(nodeType: Type)
    | TableData(row: string)
    | RowData(columns: seq<string>, index: seq<string>)
    | NotificationData(objects: seq<ObjectRef>)
    | NoData

  /** A node with its OID, its reported OID length and its dotted rendering. */
  datatype Node = Node(
    name: string,
    oid: seq<nat>,
    oidLen: nat,
    oidFormatted: string,
    payload: Payload)
  {
    function Kind(): NodeKind
    {
      match payload
      case ScalarData(_) => Scalar
      case ColumnData(_) => Column
      case TableData(_) => Table
      case RowData(_, _) => Row
      case NotificationData(_) => Notification
      case NoData => OtherKind
    }
  }

  datatype Module = Module(name: string, nodes: seq<Node>)

  /** `module.GetNodes(allowedNodeKinds)`: the nodes of generated kinds, in
      the loader's order. */
  function EligibleNodes(nodes: seq<Node>): (r: seq<Node>)
    ensures |r| <= |nodes|
    ensures forall n :: n in r <==> n in nodes && Eligible(n.Kind())
  {
    if nodes == [] then []
    else (if Eligible(nodes[0].Kind()) then [nodes[0]] else []) + EligibleNodes(nodes[1..])
  }

  /** The filter keeps load order: filtering two runs of nodes one after
      the other is filtering each run. */
  lemma {:induction false} EligibleNodesAppend(a: seq<Node>, b: seq<Node>)
    ensures EligibleNodes(a + b) == EligibleNodes(a) + EligibleNodes(b)
    decreases |a|
  {
    if a == [] {
      assert a + b == b;
    } else {
      assert (a + b)[0] == a[0] && (a + b)[1..] == a[1..] + b;
      EligibleNodesAppend(a[1..], b);
    }
  }

  /** The names every emitter formats are non-empty (`name[:1]` panics on
      an empty one). */
  predicate WellFormedNode(n: Node)
  {
    && n.name != ""
    && match n.payload
       case ScalarData(t) => t.name != ""
       case ColumnData(t) => t.name != ""
       case TableData(row) => row != ""
       case RowData(columns, index) =>
         (forall i :: 0 <= i < |columns| ==> columns[i] != "")
         && (forall i :: 0 <= i < |index| ==> index[i] != "")
       case NotificationData(objects) => forall i :: 0 <= i < |objects| ==> objects[i].name != ""
       case NoData => true
  }

  predicate WellFormedNodes(nodes: seq<Node>)
  {
    forall i :: 0 <= i < |nodes| ==> WellFormedNode(nodes[i])
  }

  /** A module the generator can format: its emitted nodes are well formed,
      and when it has any, its name splits into non-empty segments. */
  predicate WellFormedModule(m: Module)
  {
    var nodes := EligibleNodes(m.nodes);
    WellFormedNodes(nodes) && (nodes != [] ==> Identifiers.WellFormedModuleName(m.name))
  }

  /** The type a Scalar or Column node refers to; none for other kinds. */
  function NodeTypes(n: Node): seq<Type>
  {
    match n.payload
    case ScalarData(t) => [t]
    case ColumnData(t) => [t]
    case _ => []
  }

  /** The types the Scalar and Column nodes refer to, in node order. */
  function ReferencedTypes(nodes: seq<Node>): seq<Type>
  {
    if nodes == [] then [] else NodeTypes(nodes[0]) + ReferencedTypes(nodes[1..])
  }

  lemma {:induction false} ReferencedTypesNamed(nodes: seq<Node>)
    requires WellFormedNodes(nodes)
    ensures forall i :: 0 <= i < |ReferencedTypes(nodes)| ==> ReferencedTypes(nodes)[i].name != ""
  {
    if nodes != [] {
      ReferencedTypesNamed(nodes[1..]);
    }
  }
}
