/** Identifier formatting: how module and node names become Go identifiers
    (`formatModuleName`, `formatModuleVarName`, `formatNodeName`,
    `formatNodeVarName`). Case mapping is ASCII only. */
module Identifiers {
  import opened Strings

  predicate NonEmptyParts(parts: seq<string>)
  {
    forall i :: 0 <= i < |parts| ==> parts[i] != ""
  }

  /** A module name whose `-`-separated segments are all non-empty; on an
      empty segment `part[:1]` panics. */
  predicate WellFormedModuleName(moduleName: string)
  {
    NonEmptyParts(Split(moduleName, '-'))
  }

  /** One segment: first character upper case, the rest lower case. */
  function Capitalize(part: string): string
    requires part != ""
  {
    ToUpper(part[..1]) + ToLower(part[1..])
  }

  function CapitalizeAll(parts: seq<string>): string
    requires NonEmptyParts(parts)
  {
    if parts == [] then "" else Capitalize(parts[0]) + CapitalizeAll(parts[1..])
  }

  /** The value of `formatModuleName(moduleName)`. */
  function FormattedModuleName(moduleName: string): string
    requires WellFormedModuleName(moduleName)
  {
    CapitalizeAll(Split(moduleName, '-'))
  }

  /** `formatModuleName`: the loop over the segments, appending each one capitalized. */
  method FormatModuleName(moduleName: string) returns (formattedName: string)
    requires WellFormedModuleName(moduleName)
    ensures formattedName == FormattedModuleName(moduleName)
  {
    var parts := Split(moduleName, '-');
    formattedName := "";
    for i := 0 to |parts|
      invariant formattedName + CapitalizeAll(parts[i..]) == CapitalizeAll(parts)
    {
      assert parts[i..][1..] == parts[i + 1..];
      formattedName := formattedName + Capitalize(parts[i]);
    }
  }

  lemma {:induction false} CapitalizeAllIgnoringCase(parts: seq<string>)
    requires NonEmptyParts(parts)
    ensures ToLower(CapitalizeAll(parts)) == ToLower(Concat(parts))
  {
    if parts != [] {
      var p := parts[0];
      CapitalizeAllIgnoringCase(parts[1..]);
      ToLowerAppend(Capitalize(p), CapitalizeAll(parts[1..]));
      ToLowerAppend(ToUpper(p[..1]), ToLower(p[1..]));
      ToLowerToUpper(p[..1]);
      ToLowerToLower(p[1..]);
      ToLowerAppend(p[..1], p[1..]);
      assert p[..1] + p[1..] == p;
      ToLowerAppend(p, Concat(parts[1..]));
    }
  }

  lemma {:induction false} WithoutJoin(parts: seq<string>, sep: char)
    requires |parts| >= 1
    requires forall i :: 0 <= i < |parts| ==> sep !in parts[i]
    ensures Without(Join(parts, sep), sep) == Concat(parts)
  {
    WithoutAbsent(parts[0], sep);
    if |parts| == 1 {
      assert Concat(parts) == parts[0] + Concat([]);
    } else {
      var rest := parts[1..];
      assert forall i :: 0 <= i < |rest| ==> sep !in rest[i] by {
        forall i | 0 <= i < |rest| ensures sep !in rest[i] {
          assert rest[i] == parts[i + 1];
        }
      }
      calc {
        Without(Join(parts, sep), sep);
        Without(parts[0] + [sep] + Join(rest, sep), sep);
        { WithoutAppend(parts[0] + [sep], Join(rest, sep), sep); }
        Without(parts[0] + [sep], sep) + Without(Join(rest, sep), sep);
        { WithoutAppend(parts[0], [sep], sep); WithoutJoin(rest, sep); }
        Without(parts[0], sep) + Without([sep], sep) + Concat(rest);
        { assert [sep][1..] == []; }
        parts[0] + [] + Concat(rest);
        { assert parts[0] + [] == parts[0]; }
        Concat(parts);
      }
    }
  }

  /** Ignoring case, the formatted module name is the module name with its
      dashes removed; so it is as long as the module name minus its dashes. */
  lemma ModuleNameIgnoringCase(moduleName: string)
    requires WellFormedModuleName(moduleName)
    ensures ToLower(FormattedModuleName(moduleName)) == ToLower(Without(moduleName, '-'))
    ensures |FormattedModuleName(moduleName)| == |moduleName| - Count(moduleName, '-')
  {
    var parts := Split(moduleName, '-');
    CapitalizeAllIgnoringCase(parts);
    WithoutJoin(parts, '-');
  }

  /** The formatted module name starts with the module name's first
      character in upper case. */
  lemma ModuleNameCapitalized(moduleName: string)
    requires WellFormedModuleName(moduleName)
    ensures moduleName != ""
    ensures |FormattedModuleName(moduleName)| > 0
    ensures FormattedModuleName(moduleName)[0] == UpperChar(moduleName[0])
  {
    var parts := Split(moduleName, '-');
    assert parts[0] != "";
    assert Join(parts, '-')[..|parts[0]|] == parts[0];
  }

  /** `formatModuleVarName`: the formatted module name with its first
      character lower-cased, followed by "Module". */
  function FormatModuleVarName(moduleName: string): string
    requires WellFormedModuleName(moduleName)
  {
    var formatted := FormattedModuleName(moduleName);
    ModuleNameCapitalized(moduleName);
    ToLower(formatted[..1]) + formatted[1..] + "Module"
  }

  /** The struct type name ends in "Module" and, with its first character put
      back in upper case and that suffix removed, is the module var's name. */
  lemma ModuleVarNameRecoversModuleName(moduleName: string)
    requires WellFormedModuleName(moduleName)
    ensures var v := FormatModuleVarName(moduleName);
      && |v| == |FormattedModuleName(moduleName)| + 6
      && v[|v| - 6..] == "Module"
      && v[0] == LowerChar(moduleName[0])
      && ToUpper(v[..1]) + v[1..|v| - 6] == FormattedModuleName(moduleName)
  {
    ModuleNameCapitalized(moduleName);
    var m := FormattedModuleName(moduleName);
    var v := FormatModuleVarName(moduleName);
    CaseMapping(moduleName[0]);
    CaseMapping(LowerChar(moduleName[0]));
    assert ToUpper(v[..1]) == m[..1];
    assert v[1..|v| - 6] == m[1..];
  }

  /** `formatNodeName`. */
  function FormatNodeName(nodeName: string): string
    requires nodeName != ""
  {
    ToUpper(nodeName[..1]) + nodeName[1..]
  }

  /** `formatNodeVarName`. */
  function FormatNodeVarName(nodeName: string): string
    requires nodeName != ""
  {
    ToLower(nodeName[..1]) + nodeName[1..] + "Node"
  }

  /** The identifier under which a registered type is declared and referenced. */
  function TypeRef(typeName: string): string
    requires typeName != ""
  {
    FormatNodeName(typeName) + "Type"
  }

  /** `formatNodeName` changes index 0 only, to upper case, and applying it
      twice changes nothing more. */
  lemma NodeNameShape(nodeName: string)
    requires nodeName != ""
    ensures var r := FormatNodeName(nodeName);
      && |r| == |nodeName|
      && r[0] == UpperChar(nodeName[0])
      && (forall i :: 0 < i < |nodeName| ==> r[i] == nodeName[i])
      && FormatNodeName(r) == r
  {
    CaseMapping(nodeName[0]);
  }

  /** `formatNodeVarName` lower-cases index 0, keeps the rest and appends
      "Node"; the field name of a node is recovered from its var name. */
  lemma NodeVarNameShape(nodeName: string)
    requires nodeName != ""
    ensures var v := FormatNodeVarName(nodeName);
      && |v| == |nodeName| + 4
      && v[0] == LowerChar(nodeName[0])
      && (forall i :: 0 < i < |nodeName| ==> v[i] == nodeName[i])
      && v[|nodeName|..] == "Node"
      && FormatNodeName(v[..|nodeName|]) == FormatNodeName(nodeName)
  {
    CaseMapping(nodeName[0]);
  }
}
