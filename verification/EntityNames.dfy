/** The lists of units that modules, functions and methods get, and what their names tell. */
module EntityNames {
  import opened Wrappers
  import opened BracketedText
  import opened LinkNames
  import opened Demangling

  // ---------------------------------------------------------------------------
  // Modules and functions

  /** A module on the way from the root module; only libraries are named. */
  datatype ModInfo = ModInfo(name: string, isLib: bool, foreignId: Option<string>)

  /** The list of a module, from the path that leads to it. */
  function ModLinkNames(path: seq<ModInfo>): LinkNames {
    if path == [] then LinkNames([], None, None, {})
    else if |path| == 1 then
      LinkNames(if path[0].isLib then [LinkNameUnit(path[0].name, Lib, [])] else [], None, path[0].foreignId, {})
    else
      var last := path[|path| - 1];
      var parentVal := ModLinkNames(path[..|path| - 1]);
      if last.isLib then parentVal.AddUnit(LinkNameUnit(last.name, Lib, []), last.foreignId) else parentVal
  }

  function FunctionLinkNames(path: seq<ModInfo>, name: string): LinkNames {
    DeclaredLinkNames(path, name, None, None)
  }

  /**
   The list of a function whose declaration may say what it belongs to and what to link it as. If it
   does not say what it belongs to, the module that it is in does.
   */
  function DeclaredLinkNames(
      path: seq<ModInfo>, name: string, foreign: Option<string>, linkAs: Option<string>): LinkNames {
    var ofModule := if path == [] then None else path[|path| - 1].foreignId;
    var unit, foreignId := LinkNameUnit(name, Function, []), if foreign.Some? then foreign else ofModule;
    ModLinkNames(path).AddUnit(unit, foreignId).(linkAlias := linkAs)
  }

  /** A function of C is linked under the name it asks for or its own, whatever modules are around it. */
  lemma ForeignFunctionsKeepTheirNames(
      path: seq<ModInfo>, name: string, foreign: Option<string>, linkAs: Option<string>)
    requires path != []
    requires foreign == Some("C") || (foreign.None? && path[|path| - 1].foreignId == Some("C"))
    ensures Printable(DeclaredLinkNames(path, name, foreign, linkAs))
    ensures ToName(DeclaredLinkNames(path, name, foreign, linkAs)) == if linkAs.Some? then linkAs.value else name
  {
    var n := DeclaredLinkNames(path, name, foreign, linkAs);
    assert n.units[|n.units| - 1] == LinkNameUnit(name, Function, []);
  }

  /** What a native function asks to be linked as makes no difference. */
  lemma NativeFunctionsIgnoreAliases(path: seq<ModInfo>, name: string, linkAs: Option<string>)
    requires NativePath(path) && Clean(':', name)
    ensures Printable(FunctionLinkNames(path, name)) && Printable(DeclaredLinkNames(path, name, None, linkAs))
    ensures ToName(DeclaredLinkNames(path, name, None, linkAs)) == ToName(FunctionLinkNames(path, name))
  {
    FunctionIsWellBuilt(path, name);
    var n, a := FunctionLinkNames(path, name), DeclaredLinkNames(path, name, None, linkAs);
    assert a == n.(linkAlias := linkAs);
    ToNameIsInjective(n, a);
  }

  /** The names of the libraries on a path. */
  function LibNames(path: seq<ModInfo>): seq<string> {
    if path == [] then []
    else LibNames(path[..|path| - 1]) + if path[|path| - 1].isLib then [path[|path| - 1].name] else []
  }

  function LibUnits(names: seq<string>): seq<LinkNameUnit> {
    seq(|names|, i requires 0 <= i < |names| => LinkNameUnit(names[i], Lib, []))
  }

  /** A path without foreign modules, in whose names brackets match and colons are inside brackets. */
  ghost predicate NativePath(path: seq<ModInfo>) {
    forall m :: m in path ==> Clean(':', m.name) && m.foreignId.None?
  }

  lemma {:induction false} ModUnitsAreLibs(path: seq<ModInfo>)
    requires NativePath(path)
    ensures ModLinkNames(path) == LinkNames(LibUnits(LibNames(path)), None, None, {})
    ensures forall i :: 0 <= i < |LibNames(path)| ==> Clean(':', LibNames(path)[i])
    decreases |path|
  {
    if path != [] {
      var shorter, last := path[..|path| - 1], path[|path| - 1];
      assert last in path;
      ModUnitsAreLibs(shorter);
      if last.isLib {
        assert LibUnits(LibNames(shorter) + [last.name]) ==
          LibUnits(LibNames(shorter)) + [LinkNameUnit(last.name, Lib, [])];
      }
      if |path| == 1 {
        assert shorter == [];
      }
    }
  }

  lemma FunctionIsWellBuilt(path: seq<ModInfo>, name: string)
    requires NativePath(path) && Clean(':', name)
    ensures WellBuilt(FunctionLinkNames(path, name))
    ensures NormalForm(FunctionLinkNames(path, name).units) ==
      LibUnits(LibNames(path)) + [LinkNameUnit(name, Function, [])]
  {
    ModUnitsAreLibs(path);
    assert path != [] ==> path[|path| - 1] in path;
    var units := FunctionLinkNames(path, name).units;
    assert units == LibUnits(LibNames(path)) + [LinkNameUnit(name, Function, [])];
    assert forall i :: 0 <= i < |units| ==> NormalUnit(units[i]) == units[i];
    assert NormalForm(units) == units;
  }

  /**
   Two functions have the same link name exactly when their names and the names of the libraries
   around them are the same. Which file or folder module a function is in makes no difference.
   */
  lemma FunctionNamesTellLibraries(path: seq<ModInfo>, name: string, path': seq<ModInfo>, name': string)
    requires NativePath(path) && Clean(':', name) && NativePath(path') && Clean(':', name')
    ensures Printable(FunctionLinkNames(path, name)) && Printable(FunctionLinkNames(path', name'))
    ensures ToName(FunctionLinkNames(path, name)) == ToName(FunctionLinkNames(path', name')) <==>
      name == name' && LibNames(path) == LibNames(path')
  {
    hide ToName, NormalForm, WellBuilt, Printable, FunctionLinkNames;
    FunctionIsWellBuilt(path, name);
    FunctionIsWellBuilt(path', name');
    ToNameIsInjective(FunctionLinkNames(path, name), FunctionLinkNames(path', name'));
    LibUnitsTell(LibNames(path), name, LibNames(path'), name');
  }

  /** Functions of the same name in two files of one library have the same link name. */
  lemma FilesOfLibraryCollide(library: seq<ModInfo>, file: string, file': string, name: string)
    requires NativePath(library) && Clean(':', file) && Clean(':', file') && Clean(':', name)
    requires file != file'
    ensures var path, path' := library + [ModInfo(file, false, None)], library + [ModInfo(file', false, None)];
      && path != path'
      && Printable(FunctionLinkNames(path, name)) && Printable(FunctionLinkNames(path', name))
      && ToName(FunctionLinkNames(path, name)) == ToName(FunctionLinkNames(path', name))
  {
    hide Clean, ToName, Printable, FunctionLinkNames;
    var last, last' := ModInfo(file, false, None), ModInfo(file', false, None);
    var path, path' := library + [last], library + [last'];
    assert path[|library|] == last && path'[|library|] == last';
    assert path[..|library|] == library && path'[..|library|] == library;
    FunctionNamesTellLibraries(path, name, path', name);
  }

  lemma LibUnitsTell(a: seq<string>, x: string, b: seq<string>, y: string)
    ensures LibUnits(a) + [LinkNameUnit(x, Function, [])] == LibUnits(b) + [LinkNameUnit(y, Function, [])] <==>
      a == b && x == y
  {
    SnocTells(LibUnits(a), LinkNameUnit(x, Function, []), LibUnits(b), LinkNameUnit(y, Function, []));
    if LibUnits(a) == LibUnits(b) {
      assert |a| == |LibUnits(a)| == |LibUnits(b)| == |b|;
      forall i | 0 <= i < |a|
        ensures a[i] == b[i]
      {
        assert LibUnits(a)[i] == LinkNameUnit(a[i], Lib, []) && LibUnits(b)[i] == LinkNameUnit(b[i], Lib, []);
      }
    }
  }

  // ---------------------------------------------------------------------------
  // Methods

  datatype MethodType =
    | Normal | ValueMethod | StaticFn | FromConvertor | ToConvertor | Constructor | CopyConstructor
    | MoveConstructor | CopyAssignment | MoveAssignment | Destructor | BinaryOperator | UnaryOperator
    | DefaultConstructor

  /** A method; arguments and result are given by the link names of their types, the instance first. */
  datatype MethodInfo = MethodInfo(fnType: MethodType, name: string, isVar: bool, args: seq<string>, retTy: string)

  /** The methods that read the type of their second argument have one. */
  predicate HasArguments(m: MethodInfo) {
    (m.fnType.FromConvertor? || m.fnType.BinaryOperator?) ==> |m.args| > 1
  }

  function MethodUnit(m: MethodInfo): LinkNameUnit
    requires HasArguments(m)
  {
    match m.fnType
    case StaticFn => LinkNameUnit(m.name, LinkUnitType.StaticFunction, [])
    case Normal => LinkNameUnit(m.name, if m.isVar then VariationMethod else LinkUnitType.Method, [])
    case ValueMethod => LinkNameUnit(m.name, LinkUnitType.ValueMethod, [])
    case FromConvertor => LinkNameUnit(m.args[1], LinkUnitType.FromConvertor, [])
    case ToConvertor => LinkNameUnit(m.retTy, LinkUnitType.ToConvertor, [])
    case Constructor => LinkNameUnit("", LinkUnitType.Constructor, ArgumentNames(m.args))
    case CopyConstructor => LinkNameUnit("", LinkUnitType.CopyConstructor, [])
    case MoveConstructor => LinkNameUnit("", LinkUnitType.MoveConstructor, [])
    case CopyAssignment => LinkNameUnit("", LinkUnitType.CopyAssignment, [])
    case MoveAssignment => LinkNameUnit("", LinkUnitType.MoveAssignment, [])
    case Destructor => LinkNameUnit("", LinkUnitType.Destructor, [])
    case BinaryOperator =>
      LinkNameUnit(m.name, if m.isVar then VariationBinaryOperator else NormalBinaryOperator,
                   [Single(m.args[1], TypeName)])
    case UnaryOperator => LinkNameUnit(m.name, LinkUnitType.UnaryOperator, [])
    case DefaultConstructor => LinkNameUnit("", LinkUnitType.DefaultConstructor, [])
  }

  /** The types of the arguments after the instance. */
  function ArgumentNames(args: seq<string>): seq<LinkNames> {
    if |args| <= 1 then [] else seq(|args| - 1, i requires 0 <= i < |args| - 1 => Single(args[i + 1], TypeName))
  }

  /** The list of a method of the type, or of the skill done for a type, that has the list `parent`. */
  method GetLinkNamesFrom(parent: LinkNames, m: MethodInfo) returns (linkNames: LinkNames)
    requires HasArguments(m)
    ensures linkNames == parent.AddUnit(MethodUnit(m), None)
  {
    linkNames := parent;
    match m.fnType {
      case StaticFn =>
        linkNames := linkNames.AddUnit(LinkNameUnit(m.name, LinkUnitType.StaticFunction, []), None);
      case Normal =>
        var unitType := if m.isVar then VariationMethod else LinkUnitType.Method;
        linkNames := linkNames.AddUnit(LinkNameUnit(m.name, unitType, []), None);
      case ValueMethod =>
        linkNames := linkNames.AddUnit(LinkNameUnit(m.name, LinkUnitType.ValueMethod, []), None);
      case FromConvertor =>
        linkNames := linkNames.AddUnit(LinkNameUnit(m.args[1], LinkUnitType.FromConvertor, []), None);
      case ToConvertor =>
        linkNames := linkNames.AddUnit(LinkNameUnit(m.retTy, LinkUnitType.ToConvertor, []), None);
      case Constructor =>
        var argLinkNames := GetArgumentNames(m.args);
        linkNames := linkNames.AddUnit(LinkNameUnit("", LinkUnitType.Constructor, argLinkNames), None);
      case CopyConstructor =>
        linkNames := linkNames.AddUnit(LinkNameUnit("", LinkUnitType.CopyConstructor, []), None);
      case MoveConstructor =>
        linkNames := linkNames.AddUnit(LinkNameUnit("", LinkUnitType.MoveConstructor, []), None);
      case CopyAssignment =>
        linkNames := linkNames.AddUnit(LinkNameUnit("", LinkUnitType.CopyAssignment, []), None);
      case MoveAssignment =>
        linkNames := linkNames.AddUnit(LinkNameUnit("", LinkUnitType.MoveAssignment, []), None);
      case Destructor =>
        linkNames := linkNames.AddUnit(LinkNameUnit("", LinkUnitType.Destructor, []), None);
      case BinaryOperator =>
        var unitType := if m.isVar then VariationBinaryOperator else NormalBinaryOperator;
        linkNames := linkNames.AddUnit(LinkNameUnit(m.name, unitType, [Single(m.args[1], TypeName)]), None);
      case UnaryOperator =>
        linkNames := linkNames.AddUnit(LinkNameUnit(m.name, LinkUnitType.UnaryOperator, []), None);
      case DefaultConstructor =>
        linkNames := linkNames.AddUnit(LinkNameUnit("", LinkUnitType.DefaultConstructor, []), None);
    }
  }

  /** The names of the types of the arguments after the instance. */
  method GetArgumentNames(args: seq<string>) returns (argLinkNames: seq<LinkNames>)
    ensures argLinkNames == ArgumentNames(args)
  {
    argLinkNames := [];
    var i := 1;
    while i < |args|
      invariant 1 <= i && |argLinkNames| == i - 1 && (i <= |args| || i == 1)
      invariant forall k :: 0 <= k < i - 1 ==> argLinkNames[k] == Single(args[k + 1], TypeName)
    {
      argLinkNames := argLinkNames + [Single(args[i], TypeName)];
      i := i + 1;
    }
  }

  /** The text that a method adds to the name of its parent. */
  lemma MethodText(m: MethodInfo)
    requires WellNamed(m)
    ensures PrintableUnit(MethodUnit(m))
    ensures UnitText(MethodUnit(m)) ==
      match m.fnType
      case StaticFn => "staticfn_" + m.name
      case Normal => (if m.isVar then "variation_" else "method_") + m.name
      case ValueMethod => "valuedfn_" + m.name
      case FromConvertor => "convertor_from:[" + m.args[1] + "]"
      case ToConvertor => "convertor_to:[" + m.retTy + "]"
      case Constructor => "constructor_from:[" + Join(',', Qualified(m.args)) + "]"
      case CopyConstructor => "constructor_copy"
      case MoveConstructor => "constructor_move"
      case CopyAssignment => "operator_copy"
      case MoveAssignment => "operator_move"
      case Destructor => "destructor"
      case BinaryOperator =>
        (if m.isVar then "operator_binary_variation(" else "operator_binary(") + m.name + "):[qat'" + m.args[1] + "]"
      case UnaryOperator => "operator_unary(" + m.name + ")destructor"
      case DefaultConstructor => "constructor_default"
  {
    hide Clean, Balanced, Join, ToName, SubTexts;
    if m.fnType.Constructor? {
      ConstructorText(m);
    } else if m.fnType.BinaryOperator? {
      BinaryText(m);
    }
  }

  lemma ConstructorText(m: MethodInfo)
    requires WellNamed(m) && m.fnType.Constructor?
    ensures PrintableUnit(MethodUnit(m))
    ensures UnitText(MethodUnit(m)) == "constructor_from:[" + Join(',', Qualified(m.args)) + "]"
  {
    hide Clean, Balanced, Join, ToName, SubTexts, WellBuiltUnit, PrintableUnit;
    var u := MethodUnit(m);
    MethodUnitIsWellBuilt(m);
    SubsArePrintable(u);
    SubTextsAreJoined(u, |u.subNames|);
    AllSubs(u);
    assert SubPrints(u) == Qualified(m.args);
  }

  lemma BinaryText(m: MethodInfo)
    requires WellNamed(m) && m.fnType.BinaryOperator?
    ensures PrintableUnit(MethodUnit(m))
    ensures UnitText(MethodUnit(m)) ==
      (if m.isVar then "operator_binary_variation(" else "operator_binary(") + m.name + "):[qat'" + m.args[1] + "]"
  {
    hide Clean, Balanced, Join, ToName, SubTexts, PrintableUnit;
    MethodUnitIsWellBuilt(m);
    SubsArePrintable(MethodUnit(m));
    assert ToName(MethodUnit(m).subNames[0]) == "qat'" + m.args[1];
    assert "):[" + ("qat'" + m.args[1]) + "]" == "):[qat'" + m.args[1] + "]";
  }

  /** The types of the arguments after the instance, as they are printed. */
  function Qualified(args: seq<string>): seq<string> {
    if |args| <= 1 then [] else seq(|args| - 1, i requires 0 <= i < |args| - 1 => "qat'" + args[i + 1])
  }

  /** The names and types of a method are such that its unit is well built. */
  predicate WellNamed(m: MethodInfo) {
    && HasArguments(m)
    && (UsesName(m.fnType) ==> Clean(':', m.name))
    && (m.fnType.ToConvertor? ==> Balanced(m.retTy))
    && (m.fnType.FromConvertor? || m.fnType.BinaryOperator? ==> Balanced(m.args[1]))
    && (m.fnType.Constructor? ==> forall i :: 1 <= i < |m.args| ==> Clean(',', m.args[i]))
  }

  lemma MethodUnitIsWellBuilt(m: MethodInfo)
    requires WellNamed(m)
    ensures WellBuiltUnit(MethodUnit(m)) && NormalUnit(MethodUnit(m)) == MethodUnit(m)
    ensures !MethodUnit(m).unitType.GenericList?
  {
    hide Balanced, Clean;
    assert NormalUnit(MethodUnit(m)).subNames == MethodUnit(m).subNames;
  }

  /** The name of the index operator consists of brackets, and is among the names that are covered. */
  lemma IndexOperatorIsWellNamed(isVar: bool, args: seq<string>, retTy: string)
    requires |args| > 1 && Balanced(args[1])
    ensures WellNamed(MethodInfo(BinaryOperator, "[]", isVar, args, retTy)) && !Plain("[]")
  {
    BracketsAreClean(':', "");
    assert "[" + "" + "]" == "[]";
    assert "[]"[0] == '[';
  }

  predicate UsesName(t: MethodType) {
    t.Normal? || t.ValueMethod? || t.StaticFn? || t.BinaryOperator? || t.UnaryOperator?
  }

  /** What distinguishes two methods of the same parent for the linker. */
  ghost predicate SameForLinking(m: MethodInfo, m': MethodInfo)
    requires HasArguments(m) && HasArguments(m')
  {
    && m.fnType == m'.fnType
    && (m.fnType in {MethodType.Normal, MethodType.BinaryOperator} ==> m.isVar == m'.isVar)
    && (UsesName(m.fnType) ==> m.name == m'.name)
    && (m.fnType in {MethodType.FromConvertor, MethodType.BinaryOperator} ==> m.args[1] == m'.args[1])
    && (m.fnType.ToConvertor? ==> m.retTy == m'.retTy)
    && (m.fnType.Constructor? ==> ArgumentTypes(m) == ArgumentTypes(m'))
  }

  function ArgumentTypes(m: MethodInfo): seq<string> {
    if |m.args| <= 1 then [] else m.args[1..]
  }

  lemma UnitsTellMethods(m: MethodInfo, m': MethodInfo)
    requires HasArguments(m) && HasArguments(m')
    ensures MethodUnit(m) == MethodUnit(m') <==> SameForLinking(m, m')
  {
    if m.fnType.Constructor? && m'.fnType.Constructor? {
      ArgumentNamesTell(m.args, m'.args);
    }
  }

  lemma ArgumentNamesTell(a: seq<string>, b: seq<string>)
    ensures ArgumentNames(a) == ArgumentNames(b) <==>
      (if |a| <= 1 then [] else a[1..]) == (if |b| <= 1 then [] else b[1..])
  {
    var x, y := ArgumentNames(a), ArgumentNames(b);
    if x == y && |a| > 1 {
      assert |a| - 1 == |x| == |y|;
      forall i | 0 <= i < |a| - 1
        ensures a[1..][i] == b[1..][i]
      {
        assert x[i] == Single(a[i + 1], TypeName) && y[i] == Single(b[i + 1], TypeName);
        assert x[i].units[0].name == y[i].units[0].name;
      }
    }
    if |a| > 1 && |b| > 1 && a[1..] == b[1..] {
      assert |a| == |b|;
      assert forall i :: 0 <= i < |a| - 1 ==> a[1..][i] == a[i + 1] && b[1..][i] == b[i + 1];
      assert x == y;
    }
  }

  /**
   Two methods have the same link name exactly when their parents have the same units and the
   methods agree in kind and in the names and types that count for that kind.
   */
  lemma MethodNamesTell(parent: LinkNames, m: MethodInfo, parent': LinkNames, m': MethodInfo)
    requires WellBuilt(parent) && WellBuilt(parent') && WellNamed(m) && WellNamed(m')
    ensures var a, b := parent.AddUnit(MethodUnit(m), None), parent'.AddUnit(MethodUnit(m'), None);
      && Printable(a) && Printable(b)
      && (ToName(a) == ToName(b) <==>
            NormalForm(parent.units) == NormalForm(parent'.units) && SameForLinking(m, m'))
  {
    hide ToName, NormalForm, WellBuilt, Printable, MethodUnit, SameForLinking;
    var a, b := parent.AddUnit(MethodUnit(m), None), parent'.AddUnit(MethodUnit(m'), None);
    AddedIsWellBuilt(parent, m);
    AddedIsWellBuilt(parent', m');
    ToNameIsInjective(a, b);
    SnocTells(NormalForm(parent.units), MethodUnit(m), NormalForm(parent'.units), MethodUnit(m'));
    UnitsTellMethods(m, m');
  }

  lemma SnocTells(a: seq<LinkNameUnit>, x: LinkNameUnit, b: seq<LinkNameUnit>, y: LinkNameUnit)
    ensures a + [x] == b + [y] <==> a == b && x == y
  {
    if a + [x] == b + [y] {
      assert |a| + 1 == |a + [x]| == |b + [y]| == |b| + 1;
      assert (a + [x])[|a|] == x && (b + [y])[|b|] == y;
      assert (a + [x])[..|a|] == a && (b + [y])[..|b|] == b;
    }
  }

  lemma AddedIsWellBuilt(parent: LinkNames, m: MethodInfo)
    requires WellBuilt(parent) && WellNamed(m)
    ensures var a := parent.AddUnit(MethodUnit(m), None);
      WellBuilt(a) && NormalForm(a.units) == NormalForm(parent.units) + [MethodUnit(m)]
  {
    hide MethodUnit, WellBuiltUnit, NormalUnit;
    MethodUnitIsWellBuilt(m);
    var a := parent.AddUnit(MethodUnit(m), None);
    assert a.IsNative();
  }
}
