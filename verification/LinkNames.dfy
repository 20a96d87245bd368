/** The names under which entities are linked. */
module LinkNames {
  import opened Wrappers

  datatype LinkUnitType =
    | Lib | Type | Function | Method | VariationMethod | StaticFunction | ValueMethod | Constructor
    | FromConvertor | ToConvertor | DefaultConstructor | CopyConstructor | CopyAssignment | MoveConstructor
    | MoveAssignment | NormalBinaryOperator | VariationBinaryOperator | UnaryOperator | Destructor
    | StaticField | Choice | Mix | GenericList | GenericPrerunValue | GenericTypeValue | Region | Skill
    | DoType | DoSkill | Name | TypeName | Global | Toggle

  datatype LinkNameUnit = LinkNameUnit(name: string, unitType: LinkUnitType, subNames: seq<LinkNames>)

  /** `inForeign` are the kinds of foreign modules that the parent module is in. */
  datatype LinkNames = LinkNames(
    units: seq<LinkNameUnit>, linkAlias: Option<string>, foreignID: Option<string>, inForeign: set<string>)
  {
    predicate IsForeign(id: string) {
      if foreignID.Some? then foreignID.value == id else id in inForeign
    }

    predicate IsNative() {
      !IsForeign("C") && !IsForeign("C++")
    }

    function AddUnit(unit: LinkNameUnit, entityForeignID: Option<string>): LinkNames {
      this.(units := units + [unit], foreignID := if entityForeignID.Some? then entityForeignID else foreignID)
    }
  }

  predicate IsBare(t: LinkUnitType) {
    t.Name? || t.GenericTypeValue? || t.GenericPrerunValue?
  }

  /** The unit types that print their first list of sub-units. */
  predicate PrintsFirstSub(t: LinkUnitType) {
    t.DoType? || t.DoSkill? || t.NormalBinaryOperator? || t.VariationBinaryOperator?
  }

  /** What printing takes for granted: lists whose first or last element is read are not empty. */
  ghost predicate Printable(n: LinkNames)
    decreases n
  {
    && (n.IsForeign("C") ==> n.units != [])
    && (n.IsNative() ==> forall i :: 0 <= i < |n.units| ==> PrintableUnit(n.units[i]))
  }

  ghost predicate PrintableUnit(u: LinkNameUnit)
    decreases u
  {
    && (PrintsFirstSub(u.unitType) ==> u.subNames != [])
    && forall i :: 0 <= i < |u.subNames| ==> Printable(u.subNames[i])
  }

  // ---------------------------------------------------------------------------
  // Printing

  function ToName(n: LinkNames): string
    requires Printable(n)
    decreases n, 2
  {
    if n.IsForeign("C") then
      var last := n.units[|n.units| - 1];
      var cand := if n.linkAlias.Some? then n.linkAlias.value else last.name;
      if last.unitType.Type? then "struct." + cand
      else if last.unitType.Toggle? then "union." + cand
      else cand
    else if n.IsForeign("C++") then ""
    else Prefix(n.units) + UnitTexts(n, |n.units|)
  }

  function Prefix(units: seq<LinkNameUnit>): string {
    if units != [] && IsBare(units[0].unitType) then "" else "qat'"
  }

  /** The text of the first `k` units. */
  function UnitTexts(n: LinkNames, k: nat): string
    requires Printable(n) && n.IsNative() && k <= |n.units|
    decreases n, 1, k
  {
    if k == 0 then ""
    else
      UnitTexts(n, k - 1) + Separator(n.units[k - 1], k - 1) + UnitText(n.units[k - 1])
  }

  function Separator(u: LinkNameUnit, i: nat): string {
    if i != 0 && !u.unitType.GenericList? then ":" else ""
  }

  function UnitText(u: LinkNameUnit): string
    requires PrintableUnit(u)
    decreases u, 1
  {
    match u.unitType
    case Lib => "lib_" + u.name
    case Type => "type_" + u.name
    case Choice => "type_choice_" + u.name
    case Mix => "type_mix_" + u.name
    case StaticField => "static_" + u.name
    case Region => "region_" + u.name
    case DoType => "do_type:[" + ToName(u.subNames[0]) + "]"
    case Skill => "skill_" + u.name
    case DoSkill => "do_skill:[" + u.name + "]:for_type:[" + ToName(u.subNames[0]) + "]"
    case Function => "fn_" + u.name
    case StaticFunction => "staticfn_" + u.name
    case VariationMethod => "variation_" + u.name
    case Method => "method_" + u.name
    case ValueMethod => "valuedfn_" + u.name
    case DefaultConstructor => "constructor_default"
    case FromConvertor => "convertor_from:[" + u.name + "]"
    case ToConvertor => "convertor_to:[" + u.name + "]"
    case Constructor => "constructor_from:[" + SubTexts(u, |u.subNames|) + "]"
    case CopyConstructor => "constructor_copy"
    case CopyAssignment => "operator_copy"
    case MoveConstructor => "constructor_move"
    case MoveAssignment => "operator_move"
    case NormalBinaryOperator => "operator_binary(" + u.name + "):[" + ToName(u.subNames[0]) + "]"
    case VariationBinaryOperator => "operator_binary_variation(" + u.name + "):[" + ToName(u.subNames[0]) + "]"
    case UnaryOperator => "operator_unary(" + u.name + ")" + "destructor"
    case Destructor => "destructor"
    case Global => "global_" + u.name
    case GenericList => ":[" + SubTexts(u, |u.subNames|) + "]"
    case Name => u.name
    case TypeName => u.name
    case GenericPrerunValue => u.name
    case GenericTypeValue => u.name
    case Toggle => "type_toggle_" + u.name
  }

  /** The texts of the first `k` sub-lists, with commas between all of them and after all but the last. */
  function SubTexts(u: LinkNameUnit, k: nat): string
    requires PrintableUnit(u) && k <= |u.subNames|
    decreases u, 0, k
  {
    if k == 0 then ""
    else
      SubTexts(u, k - 1) + ToName(u.subNames[k - 1]) + if k - 1 != |u.subNames| - 1 then "," else ""
  }

  /** An entity of a C module, by its own mark or, if it has none, by the module it is in. */
  ghost predicate IsC(n: LinkNames) {
    n.units != [] && (n.foreignID == Some("C") || (n.foreignID.None? && "C" in n.inForeign))
  }

  ghost function LastUnit(n: LinkNames): LinkNameUnit
    requires n.units != []
  {
    n.units[|n.units| - 1]
  }

  /** Neither a type nor a toggle type. */
  ghost predicate IsCommon(n: LinkNames)
    requires n.units != []
  {
    LastUnit(n).unitType !in {Type, Toggle}
  }

  /** The name, appended to piece by piece. */
  method PrintName(n: LinkNames) returns (result: string)
    requires Printable(n)
    ensures result == ToName(n)
    ensures IsC(n) && n.linkAlias.Some? && IsCommon(n) ==> result == n.linkAlias.value
    ensures IsC(n) && n.linkAlias.None? && IsCommon(n) ==> result == LastUnit(n).name
    ensures IsC(n) && LastUnit(n).unitType == Type ==>
      result == "struct." + (if n.linkAlias.Some? then n.linkAlias.value else LastUnit(n).name)
    ensures IsC(n) && LastUnit(n).unitType == Toggle ==>
      result == "union." + (if n.linkAlias.Some? then n.linkAlias.value else LastUnit(n).name)
    ensures !IsC(n) && (n.foreignID == Some("C++") || (n.foreignID.None? && "C++" in n.inForeign)) ==> result == ""
    decreases n, 2
  {
    hide UnitText;
    if n.IsForeign("C") {
      var last := n.units[|n.units| - 1];
      var cand := if n.linkAlias.Some? then n.linkAlias.value else last.name;
      if last.unitType.Type? {
        return "struct." + cand;
      } else if last.unitType.Toggle? {
        return "union." + cand;
      } else {
        return cand;
      }
    } else if n.IsForeign("C++") {
      return "";
    }
    result := Prefix(n.units);
    for i := 0 to |n.units|
      invariant result == Prefix(n.units) + UnitTexts(n, i)
    {
      var unit := n.units[i];
      if i != 0 && !unit.unitType.GenericList? {
        result := result + ":";
      }
      var text := PrintUnit(unit);
      result := result + text;
    }
  }

  method PrintUnit(u: LinkNameUnit) returns (text: string)
    requires PrintableUnit(u)
    ensures text == UnitText(u)
    decreases u, 1
  {
    hide ToName, SubTexts;
    match u.unitType {
      case Lib => text := "lib_" + u.name;
      case Type => text := "type_" + u.name;
      case Choice => text := "type_choice_" + u.name;
      case Mix => text := "type_mix_" + u.name;
      case StaticField => text := "static_" + u.name;
      case Region => text := "region_" + u.name;
      case DoType =>
        var sub := PrintName(u.subNames[0]);
        text := "do_type:[" + sub + "]";
      case Skill => text := "skill_" + u.name;
      case DoSkill =>
        var sub := PrintName(u.subNames[0]);
        text := "do_skill:[" + u.name + "]:for_type:[" + sub + "]";
      case Function => text := "fn_" + u.name;
      case StaticFunction => text := "staticfn_" + u.name;
      case VariationMethod => text := "variation_" + u.name;
      case Method => text := "method_" + u.name;
      case ValueMethod => text := "valuedfn_" + u.name;
      case DefaultConstructor => text := "constructor_default";
      case FromConvertor => text := "convertor_from:[" + u.name + "]";
      case ToConvertor => text := "convertor_to:[" + u.name + "]";
      case Constructor =>
        var subs := PrintSubs(u);
        text := "constructor_from:[" + subs + "]";
      case CopyConstructor => text := "constructor_copy";
      case CopyAssignment => text := "operator_copy";
      case MoveConstructor => text := "constructor_move";
      case MoveAssignment => text := "operator_move";
      case NormalBinaryOperator =>
        var sub := PrintName(u.subNames[0]);
        text := "operator_binary(" + u.name + "):[" + sub + "]";
      case VariationBinaryOperator =>
        var sub := PrintName(u.subNames[0]);
        text := "operator_binary_variation(" + u.name + "):[" + sub + "]";
      case UnaryOperator =>
        text := "operator_unary(" + u.name + ")";
        text := text + "destructor";        // falls through to the next case
      case Destructor => text := "destructor";
      case Global => text := "global_" + u.name;
      case GenericList =>
        var subs := PrintSubs(u);
        text := ":[" + subs + "]";
      case Toggle => text := "type_toggle_" + u.name;
      case _ => text := u.name;
    }
  }

  method PrintSubs(u: LinkNameUnit) returns (text: string)
    requires PrintableUnit(u)
    ensures text == SubTexts(u, |u.subNames|)
    decreases u, 0
  {
    text := "";
    for j := 0 to |u.subNames|
      invariant text == SubTexts(u, j)
    {
      var sub := PrintName(u.subNames[j]);
      text := text + sub;
      if j != |u.subNames| - 1 {
        text := text + ",";
      }
    }
  }
}
