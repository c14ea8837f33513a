/** What the generator writes, as the sequence of fragments its `Fprintf`
    calls append to a buffer, one element per call, in order. The Go
    literal renderers (`%q`, `%#v`) are left opaque in `Literals`. */
module Fragments {
  import opened Wrappers
  import opened Strings
  import opened Identifiers
  import opened Smi
  import opened Registry

  /** `%q` of a string and `%#v` of an OID, a named number and a range
      bound (an `int64`), as total functions whose results are not modelled. */
  datatype Literals = Literals(
    quote: string -> string,
    oidLiteral: seq<nat> -> string,
    namedNumberLiteral: NamedNumber -> string,
    int64Literal: int -> string)

  function DigitChar(d: nat): char
    requires d < 10
  {
    ('0' as int + d) as char
  }

  /** `%d` of a non-negative integer. */
  function Decimal(n: nat): string
  {
    if n < 10 then [DigitChar(n)] else Decimal(n / 10) + [DigitChar(n % 10)]
  }

  /** The number a string of decimal digits denotes, read left to right. */
  function DecimalValue(s: string): int
  {
    if s == [] then 0 else DecimalValue(s[..|s| - 1]) * 10 + (s[|s| - 1] as int - '0' as int)
  }

  /** `%d` writes digits only, and reading them back gives the number. */
  lemma {:induction false} DecimalRoundTrip(n: nat)
    ensures |Decimal(n)| >= 1
    ensures forall i :: 0 <= i < |Decimal(n)| ==> '0' <= Decimal(n)[i] <= '9'
    ensures DecimalValue(Decimal(n)) == n
  {
    if n >= 10 {
      DecimalRoundTrip(n / 10);
      var p := Decimal(n / 10);
      assert (p + [DigitChar(n % 10)])[..|p|] == p;
    }
  }

  // ---------------------------------------------------------------- types

  /** The fields of a `models.Type` literal that `generateTypeBlock` writes. */
  datatype Field = BaseTypeField | EnumField | FormatField | NameField | RangesField | UnitsField

  /** The fixed position of each field in the literal. */
  function Rank(f: Field): nat
  {
    match f
    case BaseTypeField => 0
    case EnumField => 1
    case FormatField => 2
    case NameField => 3
    case RangesField => 4
    case UnitsField => 5
  }

  /** Every field, in the order `generateTypeBlock` considers them. */
  const AllFields: seq<Field> :=
    [BaseTypeField, EnumField, FormatField, NameField, RangesField, UnitsField]

  /** Whether `t` has field `f`: BaseType and Name always, the others when set. */
  predicate Has(t: Type, f: Field)
  {
    match f
    case BaseTypeField => true
    case EnumField => t.enum.Some?
    case FormatField => t.format != ""
    case NameField => true
    case RangesField => |t.ranges| > 0
    case UnitsField => t.units != ""
  }

  function FilterFields(t: Type, fs: seq<Field>): (r: seq<Field>)
    ensures forall f :: f in r <==> f in fs && Has(t, f)
  {
    if fs == [] then [] else (if Has(t, fs[0]) then [fs[0]] else []) + FilterFields(t, fs[1..])
  }

  predicate StrictlyRanked(fs: seq<Field>)
  {
    forall i, j :: 0 <= i < j < |fs| ==> Rank(fs[i]) < Rank(fs[j])
  }

  lemma {:induction false} FilterFieldsRanked(t: Type, fs: seq<Field>)
    requires StrictlyRanked(fs)
    ensures StrictlyRanked(FilterFields(t, fs))
  {
    if fs != [] {
      FilterFieldsRanked(t, fs[1..]);
      var rest := FilterFields(t, fs[1..]);
      forall f | f in rest ensures Rank(fs[0]) < Rank(f) {
        var j :| 1 <= j < |fs| && fs[j] == f;
      }
    }
  }

  /** The fields present in `t`, in the order they are written. */
  function PresentFields(t: Type): seq<Field>
  {
    FilterFields(t, AllFields)
  }

  /** The fields come in the fixed order BaseType, Enum, Format, Name,
      Ranges, Units; BaseType and Name always appear and each optional field
      appears exactly when `t` has it. */
  lemma PresentFieldsOrdered(t: Type)
    ensures var fs := PresentFields(t);
      && StrictlyRanked(fs)
      && BaseTypeField in fs && NameField in fs
      && (EnumField in fs <==> t.enum.Some?)
      && (FormatField in fs <==> t.format != "")
      && (RangesField in fs <==> |t.ranges| > 0)
      && (UnitsField in fs <==> t.units != "")
  {
    assert AllFields[0] == BaseTypeField && AllFields[1] == EnumField && AllFields[2] == FormatField;
    assert AllFields[3] == NameField && AllFields[4] == RangesField && AllFields[5] == UnitsField;
    assert forall i :: 0 <= i < |AllFields| ==> Rank(AllFields[i]) == i;
    FilterFieldsRanked(t, AllFields);
  }

  function ValueLine(lit: Literals, v: NamedNumber): string
  {
    "\t\t\t" + lit.namedNumberLiteral(v) + ",\n"
  }

  /** One line per enum value, in order. */
  function ValueLines(lit: Literals, values: seq<NamedNumber>): (r: seq<string>)
    ensures |r| == |values|
    ensures forall i {:trigger r[i]} :: 0 <= i < |values| ==> r[i] == ValueLine(lit, values[i])
  {
    if values == [] then [] else [ValueLine(lit, values[0])] + ValueLines(lit, values[1..])
  }

  function EnumLines(lit: Literals, e: Enum): seq<string>
  {
    ["\tEnum: &models.Enum{\n",
     "\t\tBaseType: types.BaseType" + e.baseType + ",\n",
     "\t\tValues: []models.NamedNumber{\n"]
    + ValueLines(lit, e.values)
    + ["\t\t},\n", "\t},\n"]
  }

  function RangeLine(lit: Literals, r: Range): string
  {
    "\t\tmodels.Range{BaseType: types.BaseType" + r.baseType
    + ", MinValue: " + lit.int64Literal(r.minValue)
    + ", MaxValue: " + lit.int64Literal(r.maxValue) + "},\n"
  }

  /** One line per range, in order. */
  function RangeLines(lit: Literals, ranges: seq<Range>): (r: seq<string>)
    ensures |r| == |ranges|
    ensures forall i {:trigger r[i]} :: 0 <= i < |ranges| ==> r[i] == RangeLine(lit, ranges[i])
  {
    if ranges == [] then [] else [RangeLine(lit, ranges[0])] + RangeLines(lit, ranges[1..])
  }

  /** The lines written for field `f` of `t`: none when `t` lacks it. */
  function FieldLines(lit: Literals, t: Type, f: Field): seq<string>
  {
    match f
    case BaseTypeField => ["\tBaseType: types.BaseType" + t.baseType + ",\n"]
    case EnumField => (match t.enum case Some(e) => EnumLines(lit, e) case None => [])
    case FormatField => if t.format != "" then ["\tFormat: " + lit.quote(t.format) + ",\n"] else []
    case NameField => ["\tName: " + lit.quote(t.name) + ",\n"]
    case RangesField =>
      if |t.ranges| > 0 then ["\tRanges: []models.Range{\n"] + RangeLines(lit, t.ranges) + ["\t},\n"] else []
    case UnitsField => if t.units != "" then ["\tUnits: " + lit.quote(t.units) + ",\n"] else []
  }

  function FieldsLines(lit: Literals, t: Type, fs: seq<Field>): seq<string>
  {
    if fs == [] then [] else FieldLines(lit, t, fs[0]) + FieldsLines(lit, t, fs[1..])
  }

  lemma FieldsLinesCons(lit: Literals, t: Type, f: Field, fs: seq<Field>)
    ensures FieldsLines(lit, t, [f] + fs) == FieldLines(lit, t, f) + FieldsLines(lit, t, fs)
  {
    assert ([f] + fs)[0] == f;
    assert ([f] + fs)[1..] == fs;
  }

  lemma FieldsLinesLastThree(lit: Literals, t: Type)
    ensures FieldsLines(lit, t, [NameField, RangesField, UnitsField])
      == FieldLines(lit, t, NameField) + (FieldLines(lit, t, RangesField) + FieldLines(lit, t, UnitsField))
  {
    FieldsLinesCons(lit, t, UnitsField, []);
    FieldsLinesCons(lit, t, RangesField, [UnitsField]);
    assert [RangesField] + [UnitsField] == [RangesField, UnitsField];
    FieldsLinesCons(lit, t, NameField, [RangesField, UnitsField]);
    assert [NameField] + [RangesField, UnitsField] == [NameField, RangesField, UnitsField];
  }

  /** The six fields one after another. */
  lemma FieldsLinesAll(lit: Literals, t: Type)
    ensures FieldsLines(lit, t, AllFields)
      == FieldLines(lit, t, BaseTypeField) + FieldLines(lit, t, EnumField)
         + FieldLines(lit, t, FormatField) + FieldLines(lit, t, NameField)
         + FieldLines(lit, t, RangesField) + FieldLines(lit, t, UnitsField)
  {
    var b, e, f, n, r, u :=
      FieldLines(lit, t, BaseTypeField), FieldLines(lit, t, EnumField), FieldLines(lit, t, FormatField),
      FieldLines(lit, t, NameField), FieldLines(lit, t, RangesField), FieldLines(lit, t, UnitsField);
    FieldsLinesLastThree(lit, t);
    FieldsLinesCons(lit, t, FormatField, [NameField, RangesField, UnitsField]);
    assert [FormatField] + [NameField, RangesField, UnitsField] == [FormatField, NameField, RangesField, UnitsField];
    FieldsLinesCons(lit, t, EnumField, [FormatField, NameField, RangesField, UnitsField]);
    assert [EnumField] + [FormatField, NameField, RangesField, UnitsField]
      == [EnumField, FormatField, NameField, RangesField, UnitsField];
    FieldsLinesCons(lit, t, BaseTypeField, [EnumField, FormatField, NameField, RangesField, UnitsField]);
    assert [BaseTypeField] + [EnumField, FormatField, NameField, RangesField, UnitsField] == AllFields;
    assert FieldsLines(lit, t, AllFields) == b + (e + (f + (n + (r + u))));
    Regroup(b, e, f + (n + (r + u)));
    Regroup(b + e, f, n + (r + u));
    Regroup(b + e + f, n, r + u);
    Regroup(b + e + f + n, r, u);
  }

  /** A field contributes lines exactly when `t` has it. */
  lemma FieldLinesPresence(lit: Literals, t: Type, f: Field)
    ensures FieldLines(lit, t, f) == [] <==> !Has(t, f)
  {
  }

  lemma {:induction false} FieldsLinesOfPresent(lit: Literals, t: Type, fs: seq<Field>)
    ensures FieldsLines(lit, t, fs) == FieldsLines(lit, t, FilterFields(t, fs))
  {
    if fs != [] {
      FieldsLinesOfPresent(lit, t, fs[1..]);
      FieldLinesPresence(lit, t, fs[0]);
      var rest := FilterFields(t, fs[1..]);
      if Has(t, fs[0]) {
        assert FilterFields(t, fs) == [fs[0]] + rest;
        assert ([fs[0]] + rest)[0] == fs[0];
        assert ([fs[0]] + rest)[1..] == rest;
      } else {
        assert FilterFields(t, fs) == rest;
      }
    }
  }

  /** A named `var ...Type` declaration, or an inline `Type:` field. */
  function TypeBlockOpening(t: Type, asVar: bool): string
    requires asVar ==> t.name != ""
  {
    if asVar then "var " + TypeRef(t.name) + " = models.Type{\n" else "Type: models.Type{\n"
  }

  function TypeBlockClosing(asVar: bool): string
  {
    if asVar then "}\n\n" else "},\n"
  }

  /** What `generateTypeBlock(buf, t, asVar)` writes. */
  function TypeBlock(lit: Literals, t: Type, asVar: bool): seq<string>
    requires asVar ==> t.name != ""
  {
    [TypeBlockOpening(t, asVar)]
    + FieldLines(lit, t, BaseTypeField) + FieldLines(lit, t, EnumField)
    + FieldLines(lit, t, FormatField) + FieldLines(lit, t, NameField)
    + FieldLines(lit, t, RangesField) + FieldLines(lit, t, UnitsField)
    + [TypeBlockClosing(asVar)]
  }

  /** A type block is its opening line, the lines of exactly the fields
      `t` has, in their fixed order, and its closing line. */
  lemma TypeBlockOfPresentFields(lit: Literals, t: Type, asVar: bool)
    requires asVar ==> t.name != ""
    ensures TypeBlock(lit, t, asVar)
      == [TypeBlockOpening(t, asVar)] + FieldsLines(lit, t, PresentFields(t)) + [TypeBlockClosing(asVar)]
  {
    FieldsLinesAll(lit, t);
    FieldsLinesOfPresent(lit, t, AllFields);
    PrependSix([TypeBlockOpening(t, asVar)],
      FieldLines(lit, t, BaseTypeField), FieldLines(lit, t, EnumField), FieldLines(lit, t, FormatField),
      FieldLines(lit, t, NameField), FieldLines(lit, t, RangesField), FieldLines(lit, t, UnitsField));
  }

  lemma PrependSix<T>(o: seq<T>, b: seq<T>, e: seq<T>, f: seq<T>, n: seq<T>, r: seq<T>, u: seq<T>)
    ensures o + b + e + f + n + r + u == o + (b + e + f + n + r + u)
  {
    Regroup(o, b, e);
    Regroup(o, b + e, f);
    Regroup(o, b + e + f, n);
    Regroup(o, b + e + f + n, r);
    Regroup(o, b + e + f + n + r, u);
  }

  // ------------------------------------------------------------ base node

  /** The OID, dotted OID and OID length a node is emitted with. */
  datatype Address = Address(oid: seq<nat>, formatted: string, len: nat)

  /** A scalar is addressed by its instance: sub-identifier 0 is appended. */
  function EmittedAddress(n: Node): Address
  {
    if n.Kind() == Scalar then Address(n.oid + [0], n.oidFormatted + ".0", n.oidLen + 1)
    else Address(n.oid, n.oidFormatted, n.oidLen)
  }

  function BaseNodeLines(lit: Literals, n: Node): seq<string>
  {
    var a := EmittedAddress(n);
    ["\tBaseNode: models.BaseNode{\n",
     "\t\tName: " + lit.quote(n.name) + ",\n",
     "\t\tOid: " + lit.oidLiteral(a.oid) + ",\n",
     "\t\tOidFormatted: " + lit.quote(a.formatted) + ",\n",
     "\t\tOidLen: " + Decimal(a.len) + ",\n",
     "\t},\n"]
  }

  /** A scalar's base node carries its OID with 0 appended, its dotted OID
      with ".0" appended and its length plus one; every other kind, columns
      included, carries the loader's values unchanged. */
  lemma ScalarInstanceAdjustment(lit: Literals, n: Node)
    ensures var lines := BaseNodeLines(lit, n);
      && |lines| == 6
      && (n.Kind() == Scalar ==>
           && lines[2] == "\t\tOid: " + lit.oidLiteral(n.oid + [0]) + ",\n"
           && lines[3] == "\t\tOidFormatted: " + lit.quote(n.oidFormatted + ".0") + ",\n"
           && lines[4] == "\t\tOidLen: " + Decimal(n.oidLen + 1) + ",\n")
      && (n.Kind() != Scalar ==>
           && lines[2] == "\t\tOid: " + lit.oidLiteral(n.oid) + ",\n"
           && lines[3] == "\t\tOidFormatted: " + lit.quote(n.oidFormatted) + ",\n"
           && lines[4] == "\t\tOidLen: " + Decimal(n.oidLen) + ",\n")
  {
  }

  /** When the loader's length is the length of its OID, the emitted length
      is the length of the emitted OID, which extends the loader's OID. */
  lemma EmittedAddressConsistent(n: Node)
    requires n.oidLen == |n.oid|
    ensures var a := EmittedAddress(n);
      && a.len == |a.oid|
      && a.oid[..|n.oid|] == n.oid
      && (n.Kind() == Scalar <==> |a.oid| == |n.oid| + 1)
      && (n.Kind() == Scalar ==> a.oid[|n.oid|] == 0)
  {
  }

  // ---------------------------------------------------------------- kinds

  /** A primitive type is inlined; any other is referred to by name. */
  function ScalarLines(lit: Literals, t: Type): seq<string>
    requires t.name != ""
  {
    if IsPrimitive(t.name) then TypeBlock(lit, t, false) else ["\tType: " + TypeRef(t.name) + ",\n"]
  }

  function TableLines(row: string): seq<string>
    requires row != ""
  {
    ["\tRow: " + FormatNodeVarName(row) + ",\n"]
  }

  function RefLine(name: string): string
    requires name != ""
  {
    "\t\t" + FormatNodeVarName(name) + ",\n"
  }

  /** One reference per name, in the order given. */
  function RefLines(names: seq<string>): (r: seq<string>)
    requires forall i :: 0 <= i < |names| ==> names[i] != ""
    ensures |r| == |names|
    ensures forall i {:trigger r[i]} :: 0 <= i < |names| ==> r[i] == RefLine(names[i])
  {
    if names == [] then [] else [RefLine(names[0])] + RefLines(names[1..])
  }

  function RowLines(columns: seq<string>, index: seq<string>): seq<string>
    requires forall i :: 0 <= i < |columns| ==> columns[i] != ""
    requires forall i :: 0 <= i < |index| ==> index[i] != ""
  {
    ["\tColumns: []models.ColumnNode{\n"] + RefLines(columns) + ["\t},\n"]
    + ["\tIndex: []models.ColumnNode{\n"] + RefLines(index) + ["\t},\n"]
  }

  /** A row lists its columns and then its index, each in the loader's order. */
  lemma RowOrder(columns: seq<string>, index: seq<string>)
    requires forall i :: 0 <= i < |columns| ==> columns[i] != ""
    requires forall i :: 0 <= i < |index| ==> index[i] != ""
    ensures var lines := RowLines(columns, index);
      && |lines| == |columns| + |index| + 4
      && lines[0] == "\tColumns: []models.ColumnNode{\n"
      && (forall i :: 0 <= i < |columns| ==> lines[1 + i] == RefLine(columns[i]))
      && lines[|columns| + 1] == "\t},\n"
      && lines[|columns| + 2] == "\tIndex: []models.ColumnNode{\n"
      && (forall j :: 0 <= j < |index| ==> lines[|columns| + 3 + j] == RefLine(index[j]))
      && lines[|lines| - 1] == "\t},\n"
  {
  }

  /** A scalar object is listed as is; any other is cast to a scalar node. */
  function ObjectLine(o: ObjectRef): string
    requires o.name != ""
  {
    if o.kind == Scalar then RefLine(o.name)
    else "\t\tmodels.ScalarNode(" + FormatNodeVarName(o.name) + "),\n"
  }

  function ObjectLines(objects: seq<ObjectRef>): (r: seq<string>)
    requires forall i :: 0 <= i < |objects| ==> objects[i].name != ""
    ensures |r| == |objects|
    ensures forall i {:trigger r[i]} :: 0 <= i < |objects| ==> r[i] == ObjectLine(objects[i])
  {
    if objects == [] then [] else [ObjectLine(objects[0])] + ObjectLines(objects[1..])
  }

  function NotificationLines(objects: seq<ObjectRef>): seq<string>
    requires forall i :: 0 <= i < |objects| ==> objects[i].name != ""
  {
    ["\tObjects: []models.ScalarNode{\n"] + ObjectLines(objects) + ["\t},\n"]
  }

  /** The objects of a notification keep their order, and exactly those that
      are not scalars are wrapped in a `models.ScalarNode(...)` cast. */
  lemma NotificationCasts(objects: seq<ObjectRef>)
    requires forall i :: 0 <= i < |objects| ==> objects[i].name != ""
    ensures var lines := NotificationLines(objects);
      && |lines| == |objects| + 2
      && forall i :: 0 <= i < |objects| ==>
           && (lines[1 + i] == "\t\tmodels.ScalarNode(" + FormatNodeVarName(objects[i].name) + "),\n"
               <==> objects[i].kind != Scalar)
           && (lines[1 + i] == "\t\t" + FormatNodeVarName(objects[i].name) + ",\n"
               <==> objects[i].kind == Scalar)
  {
    var lines := NotificationLines(objects);
    forall i | 0 <= i < |objects|
      ensures (lines[1 + i] == "\t\tmodels.ScalarNode(" + FormatNodeVarName(objects[i].name) + "),\n"
               <==> objects[i].kind != Scalar)
      ensures (lines[1 + i] == "\t\t" + FormatNodeVarName(objects[i].name) + ",\n"
               <==> objects[i].kind == Scalar)
    {
      var v := FormatNodeVarName(objects[i].name);
      var cast, plain := "\t\tmodels.ScalarNode(" + v + "),\n", "\t\t" + v + ",\n";
      assert lines[1 + i] == ObjectLines(objects)[i];
      assert |cast| != |plain|;
      if objects[i].kind == Scalar {
        assert lines[1 + i] == plain;
      } else {
        assert lines[1 + i] == cast;
      }
    }
  }

  /** The kind-specific part of a node var. */
  function KindLines(lit: Literals, n: Node): seq<string>
    requires WellFormedNode(n)
  {
    match n.payload
    case ScalarData(t) => ScalarLines(lit, t)
    case ColumnData(t) => ScalarLines(lit, t)
    case TableData(row) => TableLines(row)
    case RowData(columns, index) => RowLines(columns, index)
    case NotificationData(objects) => NotificationLines(objects)
    case NoData => []
  }

  function NodeVarOpening(n: Node): string
    requires n.name != ""
  {
    "var " + FormatNodeVarName(n.name) + " = models." + KindName(n.Kind()) + "Node{\n"
  }

  /** What `generateNodeVar` writes for one node. */
  function NodeVar(lit: Literals, n: Node): seq<string>
    requires WellFormedNode(n)
  {
    [NodeVarOpening(n)] + BaseNodeLines(lit, n) + KindLines(lit, n) + ["}\n"]
  }

  function NodeVars(lit: Literals, nodes: seq<Node>): seq<string>
    requires WellFormedNodes(nodes)
  {
    if nodes == [] then [] else NodeVar(lit, nodes[0]) + NodeVars(lit, nodes[1..])
  }

  // --------------------------------------------------------------- module

  function FieldDecl(n: Node): string
    requires n.name != ""
  {
    "\t" + FormatNodeName(n.name) + "\tmodels." + KindName(n.Kind()) + "Node\n"
  }

  /** One struct field per node, in node order. */
  function FieldDecls(nodes: seq<Node>): (r: seq<string>)
    requires WellFormedNodes(nodes)
    ensures |r| == |nodes|
    ensures forall i {:trigger r[i]} :: 0 <= i < |nodes| ==> r[i] == FieldDecl(nodes[i])
  {
    if nodes == [] then [] else [FieldDecl(nodes[0])] + FieldDecls(nodes[1..])
  }

  function FieldInit(n: Node): string
    requires n.name != ""
  {
    "\t" + FormatNodeName(n.name) + ":\t" + FormatNodeVarName(n.name) + ",\n"
  }

  /** One field initialiser per node, in node order. */
  function FieldInits(nodes: seq<Node>): (r: seq<string>)
    requires WellFormedNodes(nodes)
    ensures |r| == |nodes|
    ensures forall i {:trigger r[i]} :: 0 <= i < |nodes| ==> r[i] == FieldInit(nodes[i])
  {
    if nodes == [] then [] else [FieldInit(nodes[0])] + FieldInits(nodes[1..])
  }

  /** What `generateModuleStruct` writes: the struct type is named with
      `formatModuleVarName`. */
  function ModuleStruct(moduleName: string, nodes: seq<Node>): seq<string>
    requires WellFormedModuleName(moduleName) && WellFormedNodes(nodes)
  {
    ["type " + FormatModuleVarName(moduleName) + " struct {\n"] + FieldDecls(nodes) + ["}\n\n"]
  }

  /** What `generateModuleVar` writes: the var is named with
      `formatModuleName` and has the struct type. */
  function ModuleVar(moduleName: string, nodes: seq<Node>): seq<string>
    requires WellFormedModuleName(moduleName) && WellFormedNodes(nodes)
  {
    ["var " + FormattedModuleName(moduleName) + " = " + FormatModuleVarName(moduleName) + " {\n"]
    + FieldInits(nodes) + ["}\n\n"]
  }

  /** What `generateMibFile` writes for a module: nothing when it has no
      eligible nodes. */
  function MibFile(lit: Literals, m: Module): seq<string>
    requires WellFormedModule(m)
  {
    var nodes := EligibleNodes(m.nodes);
    if nodes == [] then [] else ModuleStruct(m.name, nodes) + ModuleVar(m.name, nodes) + NodeVars(lit, nodes)
  }

  /** The text of a module is empty exactly when it has no eligible node. */
  lemma MibFileEmptyIff(lit: Literals, m: Module)
    requires WellFormedModule(m)
    ensures Concat(MibFile(lit, m)) == [] <==> EligibleNodes(m.nodes) == []
  {
    var nodes := EligibleNodes(m.nodes);
    if nodes != [] {
      var frags := MibFile(lit, m);
      assert frags[0] == "type " + FormatModuleVarName(m.name) + " struct {\n";
      assert Concat(frags) == frags[0] + Concat(frags[1..]);
    }
  }

  /** A non-empty module's text is its struct, its var and its node vars. */
  lemma MibFileParts(lit: Literals, m: Module)
    requires WellFormedModule(m)
    requires EligibleNodes(m.nodes) != []
    ensures var nodes := EligibleNodes(m.nodes);
      && MibFile(lit, m) == ModuleStruct(m.name, nodes) + ModuleVar(m.name, nodes) + NodeVars(lit, nodes)
      && |ModuleStruct(m.name, nodes)| == |nodes| + 2
      && |ModuleVar(m.name, nodes)| == |nodes| + 2
      && |NodeVars(lit, nodes)| > 0
  {
    var nodes := EligibleNodes(m.nodes);
    assert NodeVars(lit, nodes) == NodeVar(lit, nodes[0]) + NodeVars(lit, nodes[1..]);
  }

  lemma ModuleStructLine(moduleName: string, nodes: seq<Node>, i: nat)
    requires WellFormedModuleName(moduleName) && WellFormedNodes(nodes)
    requires i < |nodes|
    ensures ModuleStruct(moduleName, nodes)[1 + i] == FieldDecl(nodes[i])
  {
  }

  lemma ModuleVarLine(moduleName: string, nodes: seq<Node>, i: nat)
    requires WellFormedModuleName(moduleName) && WellFormedNodes(nodes)
    requires i < |nodes|
    ensures ModuleVar(moduleName, nodes)[1 + i] == FieldInit(nodes[i])
  {
  }

  lemma ThreeIndex(a: seq<string>, b: seq<string>, c: seq<string>, i: nat, j: nat)
    requires i < |a| && j < |b|
    ensures (a + b + c)[i] == a[i] && (a + b + c)[|a| + j] == b[j]
  {
  }

  /** The module struct declares one field per eligible node, the module var
      has that struct type and sets field `i` to the var that node `i`'s
      own declaration introduces. */
  lemma ModuleLayout(lit: Literals, m: Module, i: nat)
    requires WellFormedModule(m)
    requires i < |EligibleNodes(m.nodes)|
    ensures var nodes := EligibleNodes(m.nodes);
      var frags := MibFile(lit, m);
      var k := |nodes|;
      && |frags| > 2 * k + 4
      && frags[0] == "type " + FormatModuleVarName(m.name) + " struct {\n"
      && frags[1 + i] == "\t" + FormatNodeName(nodes[i].name) + "\tmodels." + KindName(nodes[i].Kind()) + "Node\n"
      && frags[k + 2] == "var " + FormattedModuleName(m.name) + " = " + FormatModuleVarName(m.name) + " {\n"
      && frags[k + 3 + i] == "\t" + FormatNodeName(nodes[i].name) + ":\t" + FormatNodeVarName(nodes[i].name) + ",\n"
  {
    var nodes := EligibleNodes(m.nodes);
    MibFileParts(lit, m);
    var structLines := ModuleStruct(m.name, nodes);
    var varLines := ModuleVar(m.name, nodes);
    ModuleStructLine(m.name, nodes, i);
    ModuleVarLine(m.name, nodes, i);
    ThreeIndex(structLines, varLines, NodeVars(lit, nodes), 0, 0);
    ThreeIndex(structLines, varLines, NodeVars(lit, nodes), 1 + i, 1 + i);
  }

  /** The declaration of node `n` introduces the var the module var refers
      to, with the node type of its kind. */
  lemma NodeVarFirstLine(lit: Literals, n: Node)
    requires WellFormedNode(n)
    ensures NodeVar(lit, n)[0] == "var " + FormatNodeVarName(n.name) + " = models." + KindName(n.Kind()) + "Node{\n"
  {
  }

  // ---------------------------------------------------------- types file

  /** One `var ...Type` block per key, in the order of the keys. */
  function TypesFile(lit: Literals, types: map<string, Type>, keys: seq<string>): seq<string>
    requires ValidTypes(types)
    requires forall i :: 0 <= i < |keys| ==> keys[i] in types
  {
    if keys == [] then [] else TypeBlock(lit, types[keys[0]], true) + TypesFile(lit, types, keys[1..])
  }

  /** A registered type's block declares the very identifier that
      `ScalarLines` refers to for that type's name. */
  lemma TypeBlockDeclaresReference(lit: Literals, types: map<string, Type>, t: Type)
    requires ValidTypes(types) && t.name != "" && !IsPrimitive(t.name)
    requires t.name in types
    ensures ScalarLines(lit, t) == ["\tType: " + TypeRef(t.name) + ",\n"]
    ensures TypeBlock(lit, types[t.name], true)[0] == "var " + TypeRef(t.name) + " = models.Type{\n"
  {
  }
}
