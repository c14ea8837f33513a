/** The emitters of generate.go, step by step: each appends to a shared
    buffer while it walks the nodes, columns, index entries, objects, enum
    values and ranges, and registers non-primitive types as it meets them.
    Each one is proved to write exactly the fragments its counterpart in
    `Fragments` describes. */
module Generate {
  import opened Strings
  import opened Identifiers
  import opened Smi
  import opened Registry
  import opened Fragments

  /** A `bytes.Buffer`, seen as the fragments written into it. */
  class Buffer {
    var frags: seq<string>

    constructor ()
      ensures frags == []
    {
      frags := [];
    }

    /** One `fmt.Fprintf` into the buffer. */
    method Write(s: string)
      modifies this
      ensures frags == old(frags) + [s]
    {
      frags := frags + [s];
    }

    /** `buf.Bytes()`. */
    function Bytes(): string
      reads this
    {
      Concat(frags)
    }
  }

  /** The `Enum` field of `generateTypeBlock`: its base type, then one
      line per named number, in order. */
  method GenerateEnum(buf: Buffer, lit: Literals, e: Enum)
    modifies buf
    ensures buf.frags == old(buf.frags) + EnumLines(lit, e)
  {
    ghost var start := buf.frags;
    buf.Write("\tEnum: &models.Enum{\n");
    buf.Write("\t\tBaseType: types.BaseType" + e.baseType + ",\n");
    buf.Write("\t\tValues: []models.NamedNumber{\n");
    ghost var opening := ["\tEnum: &models.Enum{\n", "\t\tBaseType: types.BaseType" + e.baseType + ",\n",
                          "\t\tValues: []models.NamedNumber{\n"];
    assert buf.frags == start + opening;
    ghost var head := buf.frags;
    for i := 0 to |e.values|
      invariant buf.frags + ValueLines(lit, e.values[i..]) == head + ValueLines(lit, e.values)
    {
      assert ValueLines(lit, e.values[i..]) == [ValueLine(lit, e.values[i])] + ValueLines(lit, e.values[i + 1..]) by {
        assert e.values[i..][1..] == e.values[i + 1..];
      }
      ghost var pre := buf.frags;
      buf.Write("\t\t\t" + lit.namedNumberLiteral(e.values[i]) + ",\n");
      Regroup(pre, [ValueLine(lit, e.values[i])], ValueLines(lit, e.values[i + 1..]));
    }
    assert buf.frags == head + ValueLines(lit, e.values);
    Regroup(start, opening, ValueLines(lit, e.values));
    buf.Write("\t\t},\n");
    Regroup(start, opening + ValueLines(lit, e.values), ["\t\t},\n"]);
    buf.Write("\t},\n");
    Regroup(start, opening + ValueLines(lit, e.values) + ["\t\t},\n"], ["\t},\n"]);
    assert opening + ValueLines(lit, e.values) + ["\t\t},\n"] + ["\t},\n"] == EnumLines(lit, e);
  }

  /** The `Ranges` field of `generateTypeBlock`: one line per range, in order. */
  method GenerateRanges(buf: Buffer, lit: Literals, ranges: seq<Range>)
    modifies buf
    ensures buf.frags == old(buf.frags) + ["\tRanges: []models.Range{\n"] + RangeLines(lit, ranges) + ["\t},\n"]
  {
    ghost var start := buf.frags;
    buf.Write("\tRanges: []models.Range{\n");
    ghost var head := buf.frags;
    for i := 0 to |ranges|
      invariant buf.frags + RangeLines(lit, ranges[i..]) == head + RangeLines(lit, ranges)
    {
      assert RangeLines(lit, ranges[i..]) == [RangeLine(lit, ranges[i])] + RangeLines(lit, ranges[i + 1..]) by {
        assert ranges[i..][1..] == ranges[i + 1..];
      }
      var typeRange := ranges[i];
      ghost var pre := buf.frags;
      buf.Write("\t\tmodels.Range{BaseType: types.BaseType" + typeRange.baseType
        + ", MinValue: " + lit.int64Literal(typeRange.minValue)
        + ", MaxValue: " + lit.int64Literal(typeRange.maxValue) + "},\n");
      Regroup(pre, [RangeLine(lit, ranges[i])], RangeLines(lit, ranges[i + 1..]));
    }
    assert buf.frags == head + RangeLines(lit, ranges);
    Regroup(start, ["\tRanges: []models.Range{\n"], RangeLines(lit, ranges));
    buf.Write("\t},\n");
    Regroup(start, ["\tRanges: []models.Range{\n"] + RangeLines(lit, ranges), ["\t},\n"]);
  }

  /** One of the six field sections of `generateTypeBlock`: BaseType and
      Name always, the others only when the type has them. */
  method GenerateField(buf: Buffer, lit: Literals, t: Type, f: Field)
    modifies buf
    ensures buf.frags == old(buf.frags) + FieldLines(lit, t, f)
  {
    match f {
      case BaseTypeField =>
        buf.Write("\tBaseType: types.BaseType" + t.baseType + ",\n");
      case EnumField =>
        if t.enum.Some? {
          GenerateEnum(buf, lit, t.enum.value);
        }
      case FormatField =>
        if t.format != "" {
          buf.Write("\tFormat: " + lit.quote(t.format) + ",\n");
        }
      case NameField =>
        buf.Write("\tName: " + lit.quote(t.name) + ",\n");
      case RangesField =>
        if |t.ranges| > 0 {
          GenerateRanges(buf, lit, t.ranges);
        }
      case UnitsField =>
        if t.units != "" {
          buf.Write("\tUnits: " + lit.quote(t.units) + ",\n");
        }
    }
  }

  /** `generateTypeBlock`: the opening line, the six field sections in
      their fixed order, the closing line. */
  method GenerateTypeBlock(buf: Buffer, lit: Literals, t: Type, asVar: bool)
    requires asVar ==> t.name != ""
    modifies buf
    ensures buf.frags == old(buf.frags) + TypeBlock(lit, t, asVar)
  {
    ghost var start := buf.frags;
    if asVar {
      buf.Write("var " + FormatNodeName(t.name) + "Type = models.Type{\n");
      assert "var " + FormatNodeName(t.name) + "Type = models.Type{\n" == TypeBlockOpening(t, asVar);
    } else {
      buf.Write("Type: models.Type{\n");
    }
    ghost var written := [TypeBlockOpening(t, asVar)];
    GenerateField(buf, lit, t, BaseTypeField);
    Regroup(start, written, FieldLines(lit, t, BaseTypeField));
    written := written + FieldLines(lit, t, BaseTypeField);
    GenerateField(buf, lit, t, EnumField);
    Regroup(start, written, FieldLines(lit, t, EnumField));
    written := written + FieldLines(lit, t, EnumField);
    GenerateField(buf, lit, t, FormatField);
    Regroup(start, written, FieldLines(lit, t, FormatField));
    written := written + FieldLines(lit, t, FormatField);
    GenerateField(buf, lit, t, NameField);
    Regroup(start, written, FieldLines(lit, t, NameField));
    written := written + FieldLines(lit, t, NameField);
    GenerateField(buf, lit, t, RangesField);
    Regroup(start, written, FieldLines(lit, t, RangesField));
    written := written + FieldLines(lit, t, RangesField);
    GenerateField(buf, lit, t, UnitsField);
    Regroup(start, written, FieldLines(lit, t, UnitsField));
    written := written + FieldLines(lit, t, UnitsField);
    if asVar {
      buf.Write("}\n\n");
    } else {
      buf.Write("},\n");
    }
    Regroup(start, written, [TypeBlockClosing(asVar)]);
  }

  /** `generateNodePartBaseNode`: a scalar's OID, dotted OID and length are
      adjusted to its instance before they are written. */
  method GenerateNodePartBaseNode(buf: Buffer, lit: Literals, n: Node)
    modifies buf
    ensures buf.frags == old(buf.frags) + BaseNodeLines(lit, n)
  {
    var oid := n.oid;
    var oidFormatted := n.oidFormatted;
    var oidLen := n.oidLen;
    if n.Kind() == Scalar {
      oid := oid + [0];
      oidFormatted := oidFormatted + ".0";
      oidLen := oidLen + 1;
    }
    buf.Write("\tBaseNode: models.BaseNode{\n");
    buf.Write("\t\tName: " + lit.quote(n.name) + ",\n");
    buf.Write("\t\tOid: " + lit.oidLiteral(oid) + ",\n");
    buf.Write("\t\tOidFormatted: " + lit.quote(oidFormatted) + ",\n");
    buf.Write("\t\tOidLen: " + Decimal(oidLen) + ",\n");
    buf.Write("\t},\n");
  }

  /** `generateNodePartScalar`: inline a primitive type, or register the
      type and refer to it by name. */
  method GenerateNodePartScalar(buf: Buffer, lit: Literals, t: Type, reg: TypeRegistry)
    requires t.name != "" && reg.Valid()
    modifies buf, reg
    ensures reg.Valid()
    ensures buf.frags == old(buf.frags) + ScalarLines(lit, t)
    ensures reg.types == Registered(old(reg.types), t)
  {
    if IsPrimitive(t.name) {
      GenerateTypeBlock(buf, lit, t, false);
    } else {
      reg.Register(t);
      buf.Write("\tType: " + FormatNodeName(t.name) + "Type,\n");
      assert "\tType: " + FormatNodeName(t.name) + "Type,\n" == "\tType: " + TypeRef(t.name) + ",\n";
    }
  }

  /** `generateNodePartTable`. */
  method GenerateNodePartTable(buf: Buffer, row: string)
    requires row != ""
    modifies buf
    ensures buf.frags == old(buf.frags) + TableLines(row)
  {
    buf.Write("\tRow: " + FormatNodeVarName(row) + ",\n");
  }

  /** `generateNodePartRow`: the columns, then the index, each in order. */
  method GenerateNodePartRow(buf: Buffer, columns: seq<string>, index: seq<string>)
    requires forall i :: 0 <= i < |columns| ==> columns[i] != ""
    requires forall i :: 0 <= i < |index| ==> index[i] != ""
    modifies buf
    ensures buf.frags == old(buf.frags) + RowLines(columns, index)
  {
    ghost var start := buf.frags;
    buf.Write("\tColumns: []models.ColumnNode{\n");
    ghost var head := buf.frags;
    for i := 0 to |columns|
      invariant buf.frags + RefLines(columns[i..]) == head + RefLines(columns)
    {
      assert RefLines(columns[i..]) == [RefLine(columns[i])] + RefLines(columns[i + 1..]) by {
        assert columns[i..][1..] == columns[i + 1..];
      }
      ghost var pre := buf.frags;
      buf.Write("\t\t" + FormatNodeVarName(columns[i]) + ",\n");
      Regroup(pre, [RefLine(columns[i])], RefLines(columns[i + 1..]));
    }
    assert buf.frags == head + RefLines(columns);
    Regroup(start, ["\tColumns: []models.ColumnNode{\n"], RefLines(columns));
    ghost var written := ["\tColumns: []models.ColumnNode{\n"] + RefLines(columns);
    buf.Write("\t},\n");
    Regroup(start, written, ["\t},\n"]);
    written := written + ["\t},\n"];
    buf.Write("\tIndex: []models.ColumnNode{\n");
    Regroup(start, written, ["\tIndex: []models.ColumnNode{\n"]);
    written := written + ["\tIndex: []models.ColumnNode{\n"];
    head := buf.frags;
    for i := 0 to |index|
      invariant buf.frags + RefLines(index[i..]) == head + RefLines(index)
    {
      assert RefLines(index[i..]) == [RefLine(index[i])] + RefLines(index[i + 1..]) by {
        assert index[i..][1..] == index[i + 1..];
      }
      ghost var pre := buf.frags;
      buf.Write("\t\t" + FormatNodeVarName(index[i]) + ",\n");
      Regroup(pre, [RefLine(index[i])], RefLines(index[i + 1..]));
    }
    assert buf.frags == head + RefLines(index);
    Regroup(start, written, RefLines(index));
    written := written + RefLines(index);
    buf.Write("\t},\n");
    Regroup(start, written, ["\t},\n"]);
    assert written + ["\t},\n"] == RowLines(columns, index);
  }

  /** `generateNodePartNotification`: non-scalar objects are cast. */
  method GenerateNodePartNotification(buf: Buffer, objects: seq<ObjectRef>)
    requires forall i :: 0 <= i < |objects| ==> objects[i].name != ""
    modifies buf
    ensures buf.frags == old(buf.frags) + NotificationLines(objects)
  {
    ghost var start := buf.frags;
    buf.Write("\tObjects: []models.ScalarNode{\n");
    ghost var head := buf.frags;
    for i := 0 to |objects|
      invariant buf.frags + ObjectLines(objects[i..]) == head + ObjectLines(objects)
    {
      assert ObjectLines(objects[i..]) == [ObjectLine(objects[i])] + ObjectLines(objects[i + 1..]) by {
        assert objects[i..][1..] == objects[i + 1..];
      }
      var obj := objects[i];
      ghost var pre := buf.frags;
      if obj.kind == Scalar {
        buf.Write("\t\t" + FormatNodeVarName(obj.name) + ",\n");
      } else {
        buf.Write("\t\tmodels.ScalarNode(" + FormatNodeVarName(obj.name) + "),\n");
      }
      Regroup(pre, [ObjectLine(objects[i])], ObjectLines(objects[i + 1..]));
    }
    assert buf.frags == head + ObjectLines(objects);
    Regroup(start, ["\tObjects: []models.ScalarNode{\n"], ObjectLines(objects));
    buf.Write("\t},\n");
    Regroup(start, ["\tObjects: []models.ScalarNode{\n"] + ObjectLines(objects), ["\t},\n"]);
  }

  /** `generateNodeVar`: the base node, then the part of the node's kind. */
  method GenerateNodeVar(buf: Buffer, lit: Literals, n: Node, reg: TypeRegistry)
    requires WellFormedNode(n) && reg.Valid()
    modifies buf, reg
    ensures reg.Valid()
    ensures buf.frags == old(buf.frags) + NodeVar(lit, n)
    ensures reg.types == RegisterAll(old(reg.types), NodeTypes(n))
  {
    ghost var start := buf.frags;
    buf.Write("var " + FormatNodeVarName(n.name) + " = models." + KindName(n.Kind()) + "Node{\n");
    ghost var written := [NodeVarOpening(n)];
    GenerateNodePartBaseNode(buf, lit, n);
    Regroup(start, written, BaseNodeLines(lit, n));
    written := written + BaseNodeLines(lit, n);
    ghost var mark := buf.frags;
    match n.payload {
      case ScalarData(t) =>
        GenerateNodePartScalar(buf, lit, t, reg);
      case ColumnData(t) =>
        GenerateNodePartScalar(buf, lit, t, reg);
      case TableData(row) =>
        GenerateNodePartTable(buf, row);
      case RowData(columns, index) =>
        GenerateNodePartRow(buf, columns, index);
      case NotificationData(objects) =>
        GenerateNodePartNotification(buf, objects);
      case NoData =>
    }
    assert buf.frags == mark + KindLines(lit, n);
    Regroup(start, written, KindLines(lit, n));
    written := written + KindLines(lit, n);
    buf.Write("}\n");
    Regroup(start, written, ["}\n"]);
  }

  /** One node of the loop of `generateModuleStruct`. */
  lemma FieldDeclsAdvance(nodes: seq<Node>, i: nat, pre: seq<string>, head: seq<string>)
    requires WellFormedNodes(nodes) && i < |nodes|
    requires pre + FieldDecls(nodes[i..]) == head + FieldDecls(nodes)
    ensures (pre + [FieldDecl(nodes[i])]) + FieldDecls(nodes[i + 1..]) == head + FieldDecls(nodes)
  {
    assert nodes[i..][0] == nodes[i] && nodes[i..][1..] == nodes[i + 1..];
    assert WellFormedNodes(nodes[i..]) && WellFormedNodes(nodes[i + 1..]);
    assert FieldDecls(nodes[i..]) == [FieldDecl(nodes[i])] + FieldDecls(nodes[i + 1..]);
    Regroup(pre, [FieldDecl(nodes[i])], FieldDecls(nodes[i + 1..]));
  }

  /** One node of the loop of `generateModuleVar`. */
  lemma FieldInitsAdvance(nodes: seq<Node>, i: nat, pre: seq<string>, head: seq<string>)
    requires WellFormedNodes(nodes) && i < |nodes|
    requires pre + FieldInits(nodes[i..]) == head + FieldInits(nodes)
    ensures (pre + [FieldInit(nodes[i])]) + FieldInits(nodes[i + 1..]) == head + FieldInits(nodes)
  {
    assert nodes[i..][0] == nodes[i] && nodes[i..][1..] == nodes[i + 1..];
    assert WellFormedNodes(nodes[i..]) && WellFormedNodes(nodes[i + 1..]);
    assert FieldInits(nodes[i..]) == [FieldInit(nodes[i])] + FieldInits(nodes[i + 1..]);
    Regroup(pre, [FieldInit(nodes[i])], FieldInits(nodes[i + 1..]));
  }

  /** `generateModuleStruct`. */
  method GenerateModuleStruct(buf: Buffer, moduleName: string, nodes: seq<Node>)
    requires WellFormedModuleName(moduleName) && WellFormedNodes(nodes)
    modifies buf
    ensures buf.frags == old(buf.frags) + ModuleStruct(moduleName, nodes)
  {
    ghost var start := buf.frags;
    var formattedModuleVarName := FormatModuleVarName(moduleName);
    buf.Write("type " + formattedModuleVarName + " struct {\n");
    ghost var opening := ["type " + formattedModuleVarName + " struct {\n"];
    ghost var head := buf.frags;
    for i := 0 to |nodes|
      invariant buf.frags + FieldDecls(nodes[i..]) == head + FieldDecls(nodes)
    {
      var node := nodes[i];
      ghost var pre := buf.frags;
      buf.Write("\t" + FormatNodeName(node.name) + "\tmodels." + KindName(node.Kind()) + "Node\n");
      FieldDeclsAdvance(nodes, i, pre, head);
    }
    assert nodes[|nodes|..] == [];
    assert buf.frags == head + FieldDecls(nodes);
    Regroup(start, opening, FieldDecls(nodes));
    buf.Write("}\n\n");
    Regroup(start, opening + FieldDecls(nodes), ["}\n\n"]);
  }

  /** `generateModuleVar`. */
  method GenerateModuleVar(buf: Buffer, moduleName: string, nodes: seq<Node>)
    requires WellFormedModuleName(moduleName) && WellFormedNodes(nodes)
    modifies buf
    ensures buf.frags == old(buf.frags) + ModuleVar(moduleName, nodes)
  {
    ghost var start := buf.frags;
    var formattedModuleName := FormatModuleName(moduleName);
    var formattedModuleVarName := FormatModuleVarName(moduleName);
    buf.Write("var " + formattedModuleName + " = " + formattedModuleVarName + " {\n");
    ghost var opening := ["var " + formattedModuleName + " = " + formattedModuleVarName + " {\n"];
    ghost var head := buf.frags;
    for i := 0 to |nodes|
      invariant buf.frags + FieldInits(nodes[i..]) == head + FieldInits(nodes)
    {
      var node := nodes[i];
      ghost var pre := buf.frags;
      buf.Write("\t" + FormatNodeName(node.name) + ":\t" + FormatNodeVarName(node.name) + ",\n");
      FieldInitsAdvance(nodes, i, pre, head);
    }
    assert nodes[|nodes|..] == [];
    assert buf.frags == head + FieldInits(nodes);
    Regroup(start, opening, FieldInits(nodes));
    buf.Write("}\n\n");
    Regroup(start, opening + FieldInits(nodes), ["}\n\n"]);
  }

  /** One node of the loop of `generateMibFile`: what is left to write
      and to register after node `i` is done. */
  lemma NodeVarsAdvance(lit: Literals, nodes: seq<Node>, i: nat, pre: seq<string>, head: seq<string>,
                        before: map<string, Type>, after: map<string, Type>, target: map<string, Type>)
    requires WellFormedNodes(nodes) && i < |nodes|
    requires pre + NodeVars(lit, nodes[i..]) == head + NodeVars(lit, nodes)
    requires RegisterAll(before, ReferencedTypes(nodes[i..])) == target
    requires after == RegisterAll(before, NodeTypes(nodes[i]))
    ensures (pre + NodeVar(lit, nodes[i])) + NodeVars(lit, nodes[i + 1..]) == head + NodeVars(lit, nodes)
    ensures RegisterAll(after, ReferencedTypes(nodes[i + 1..])) == target
  {
    assert nodes[i..][1..] == nodes[i + 1..];
    assert NodeVars(lit, nodes[i..]) == NodeVar(lit, nodes[i]) + NodeVars(lit, nodes[i + 1..]);
    assert ReferencedTypes(nodes[i..]) == NodeTypes(nodes[i]) + ReferencedTypes(nodes[i + 1..]);
    Regroup(pre, NodeVar(lit, nodes[i]), NodeVars(lit, nodes[i + 1..]));
    RegisterAllAppend(before, NodeTypes(nodes[i]), ReferencedTypes(nodes[i + 1..]));
  }

  /** The loop of `generateMibFile` over the nodes: one var per node, in
      order, registering each Scalar and Column type on the way. */
  method GenerateNodeVars(buf: Buffer, lit: Literals, nodes: seq<Node>, reg: TypeRegistry)
    requires WellFormedNodes(nodes) && reg.Valid()
    modifies buf, reg
    ensures reg.Valid()
    ensures buf.frags == old(buf.frags) + NodeVars(lit, nodes)
    ensures reg.types == RegisterAll(old(reg.types), ReferencedTypes(nodes))
  {
    ghost var head := buf.frags;
    ghost var target := RegisterAll(reg.types, ReferencedTypes(nodes));
    for i := 0 to |nodes|
      invariant reg.Valid()
      invariant buf.frags + NodeVars(lit, nodes[i..]) == head + NodeVars(lit, nodes)
      invariant RegisterAll(reg.types, ReferencedTypes(nodes[i..])) == target
    {
      ghost var before := reg.types;
      ghost var pre := buf.frags;
      GenerateNodeVar(buf, lit, nodes[i], reg);
      NodeVarsAdvance(lit, nodes, i, pre, head, before, reg.types, target);
    }
    assert nodes[|nodes|..] == [];
  }

  /** `generateMibFile`: nothing for a module without eligible nodes;
      otherwise its struct, its var and one var per node, registering the
      types the nodes use. */
  method GenerateMibFile(buf: Buffer, lit: Literals, m: Module, reg: TypeRegistry)
    requires WellFormedModule(m) && reg.Valid()
    modifies buf, reg
    ensures reg.Valid()
    ensures buf.frags == old(buf.frags) + MibFile(lit, m)
    ensures reg.types == RegisterAll(old(reg.types), ReferencedTypes(EligibleNodes(m.nodes)))
  {
    var nodes := EligibleNodes(m.nodes);
    if |nodes| == 0 {
      return;
    }
    ghost var start := buf.frags;
    GenerateModuleStruct(buf, m.name, nodes);
    GenerateModuleVar(buf, m.name, nodes);
    Regroup(start, ModuleStruct(m.name, nodes), ModuleVar(m.name, nodes));
    GenerateNodeVars(buf, lit, nodes, reg);
    Regroup(start, ModuleStruct(m.name, nodes) + ModuleVar(m.name, nodes), NodeVars(lit, nodes));
    MibFileParts(lit, m);
  }
}
