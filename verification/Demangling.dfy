/** Link names can be read back: the names of native entities tell their units. */
module Demangling {
  import opened Wrappers
  import opened BracketedText
  import opened LinkNames

  // ---------------------------------------------------------------------------
  // The lists that the compiler builds

  /** A list for one type or value, as it is built for arguments and candidates. */
  function Single(name: string, t: LinkUnitType): LinkNames {
    LinkNames([LinkNameUnit(name, t, [])], None, None, {})
  }

  predicate IsSingle(n: LinkNames) {
    |n.units| == 1 && n == Single(n.units[0].name, n.units[0].unitType)
  }

  /** The text that a single list stands for. */
  function SingleText(n: LinkNames): string {
    if n.units == [] then "" else n.units[0].name
  }

  /** The unit types that print a keyword and then a name. */
  predicate IsNamed(t: LinkUnitType) {
    t.Lib? || t.Type? || t.Choice? || t.Mix? || t.Toggle? || t.StaticField? || t.Region? || t.Skill? || t.Function?
    || t.StaticFunction? || t.VariationMethod? || t.Method? || t.ValueMethod? || t.UnaryOperator? || t.Global?
  }

  /** The unit types that print a keyword alone. */
  predicate IsNameless(t: LinkUnitType) {
    t.DefaultConstructor? || t.CopyConstructor? || t.CopyAssignment? || t.MoveConstructor? || t.MoveAssignment?
    || t.Destructor?
  }

  /** A type name that does not read as the keyword of another kind of type. */
  predicate IsTypeName(name: string) {
    !("choice_" <= name) && !("mix_" <= name) && !("toggle_" <= name)
  }

  predicate OneSub(u: LinkNameUnit, t: LinkUnitType) {
    |u.subNames| == 1 && IsSingle(u.subNames[0]) && u.subNames[0].units[0].unitType == t
    && Balanced(SingleText(u.subNames[0]))
  }

  predicate IsArgument(n: LinkNames) {
    IsSingle(n) && n.units[0].unitType.TypeName? && Clean(',', SingleText(n))
  }

  predicate IsGenericArgument(n: LinkNames) {
    && IsSingle(n) && (n.units[0].unitType.GenericTypeValue? || n.units[0].unitType.GenericPrerunValue?)
    && Clean(',', SingleText(n))
  }

  /** A unit as the compiler builds it for an entity it declares. */
  predicate WellBuiltUnit(u: LinkNameUnit) {
    if IsNamed(u.unitType) then
      Clean(':', u.name) && u.subNames == [] && (u.unitType.Type? ==> IsTypeName(u.name))
    else if IsNameless(u.unitType) then u.name == "" && u.subNames == []
    else
      match u.unitType
      case DoType => u.name == "" && OneSub(u, Name)
      case DoSkill => Balanced(u.name) && OneSub(u, Name)
      case FromConvertor => Balanced(u.name) && u.subNames == []
      case ToConvertor => Balanced(u.name) && u.subNames == []
      case Constructor => u.name == "" && forall i :: 0 <= i < |u.subNames| ==> IsArgument(u.subNames[i])
      case NormalBinaryOperator => Clean(':', u.name) && OneSub(u, TypeName)
      case VariationBinaryOperator => Clean(':', u.name) && OneSub(u, TypeName)
      case GenericList =>
        u.name == "" && u.subNames != [] && forall i :: 0 <= i < |u.subNames| ==> IsGenericArgument(u.subNames[i])
      case _ => false
  }

  /** The list of units of a native entity. */
  ghost predicate WellBuilt(n: LinkNames) {
    && n.IsNative()
    && (forall i :: 0 <= i < |n.units| ==> WellBuiltUnit(n.units[i]))
    && (n.units != [] ==> !n.units[0].unitType.GenericList?)
  }

  /** Generic arguments up to whether they are types or values: the text does not tell. */
  function NormalSub(n: LinkNames): LinkNames {
    if |n.units| == 1 && IsBare(n.units[0].unitType) then Single(n.units[0].name, Name) else n
  }

  function NormalUnit(u: LinkNameUnit): LinkNameUnit {
    u.(subNames := seq(|u.subNames|, i requires 0 <= i < |u.subNames| => NormalSub(u.subNames[i])))
  }

  function NormalForm(units: seq<LinkNameUnit>): seq<LinkNameUnit> {
    seq(|units|, i requires 0 <= i < |units| => NormalUnit(units[i]))
  }

  // ---------------------------------------------------------------------------
  // The parts of a name

  function Bracketed(s: string): string {
    "[" + s + "]"
  }

  function SubPrint(n: LinkNames): string {
    if |n.units| == 1 && IsBare(n.units[0].unitType) then SingleText(n) else "qat'" + SingleText(n)
  }

  function SubPrints(u: LinkNameUnit): seq<string> {
    seq(|u.subNames|, i requires 0 <= i < |u.subNames| => SubPrint(u.subNames[i]))
  }

  function Keyword(t: LinkUnitType): string {
    match t
    case Lib => "lib_"
    case Type => "type_"
    case Choice => "type_choice_"
    case Mix => "type_mix_"
    case Toggle => "type_toggle_"
    case StaticField => "static_"
    case Region => "region_"
    case DoType => "do_type"
    case Skill => "skill_"
    case DoSkill => "do_skill"
    case Function => "fn_"
    case StaticFunction => "staticfn_"
    case VariationMethod => "variation_"
    case Method => "method_"
    case ValueMethod => "valuedfn_"
    case DefaultConstructor => "constructor_default"
    case FromConvertor => "convertor_from"
    case ToConvertor => "convertor_to"
    case Constructor => "constructor_from"
    case CopyConstructor => "constructor_copy"
    case CopyAssignment => "operator_copy"
    case MoveConstructor => "constructor_move"
    case MoveAssignment => "operator_move"
    case NormalBinaryOperator => "operator_binary("
    case VariationBinaryOperator => "operator_binary_variation("
    case UnaryOperator => "operator_unary("
    case Destructor => "destructor"
    case Global => "global_"
    case _ => ""
  }

  /** The parts of the text of a unit between colons outside brackets. */
  function Tokens(u: LinkNameUnit): seq<string> {
    match u.unitType
    case DoType => [Keyword(DoType), Bracketed(Only(u))]
    case DoSkill => [Keyword(DoSkill), Bracketed(u.name), "for_type", Bracketed(Only(u))]
    case FromConvertor => [Keyword(FromConvertor), Bracketed(u.name)]
    case ToConvertor => [Keyword(ToConvertor), Bracketed(u.name)]
    case Constructor => [Keyword(Constructor), Bracketed(Join(',', SubPrints(u)))]
    case NormalBinaryOperator => [Keyword(NormalBinaryOperator) + u.name + ")", Bracketed(Only(u))]
    case VariationBinaryOperator => [Keyword(VariationBinaryOperator) + u.name + ")", Bracketed(Only(u))]
    case UnaryOperator => [Keyword(UnaryOperator) + u.name + ")destructor"]
    case GenericList => [Bracketed(Join(',', SubPrints(u)))]
    case _ => [Keyword(u.unitType) + u.name]
  }

  function Only(u: LinkNameUnit): string {
    if u.subNames == [] then "" else SubPrint(u.subNames[0])
  }

  function AllTokens(units: seq<LinkNameUnit>): seq<string> {
    if units == [] then [] else AllTokens(units[..|units| - 1]) + Tokens(units[|units| - 1])
  }

  // ---------------------------------------------------------------------------
  // Printing joins the parts

  lemma BareTextIsName(u: LinkNameUnit)
    requires u.subNames == [] && u.unitType in {Name, TypeName, GenericTypeValue, GenericPrerunValue}
    ensures PrintableUnit(u) && UnitText(u) == u.name
  {
    hide ToName, SubTexts;
  }

  lemma SingleIsPrintable(n: LinkNames)
    requires IsSingle(n) && n.units[0].unitType in {Name, TypeName, GenericTypeValue, GenericPrerunValue}
    ensures Printable(n) && ToName(n) == SubPrint(n)
  {
    hide UnitText;
    BareTextIsName(n.units[0]);
    assert UnitTexts(n, 1) == UnitTexts(n, 0) + Separator(n.units[0], 0) + UnitText(n.units[0]);
    assert UnitTexts(n, 1) == n.units[0].name;
  }

  lemma {:induction false} SubsArePrintable(u: LinkNameUnit)
    requires WellBuiltUnit(u)
    ensures PrintableUnit(u)
    ensures forall i :: 0 <= i < |u.subNames| ==> ToName(u.subNames[i]) == SubPrint(u.subNames[i])
  {
    forall i | 0 <= i < |u.subNames|
      ensures Printable(u.subNames[i]) && ToName(u.subNames[i]) == SubPrint(u.subNames[i])
    {
      SingleIsPrintable(u.subNames[i]);
    }
  }

  /** Sub-lists are joined with commas. */
  lemma {:induction false} SubTextsAreJoined(u: LinkNameUnit, k: nat)
    requires WellBuiltUnit(u) && PrintableUnit(u) && k <= |u.subNames|
    ensures SubTexts(u, k) ==
      Join(',', SubPrints(u)[..k]) + if 0 < k < |u.subNames| then "," else ""
  {
    hide WellBuiltUnit, PrintableUnit, SubPrint, ToName;
    SubsArePrintable(u);
    if k > 0 {
      SubTextsAreJoined(u, k - 1);
      var prints := SubPrints(u);
      assert prints[..k] == prints[..k - 1] + [prints[k - 1]];
      if k > 1 {
        JoinAppend(',', prints[..k - 1], [prints[k - 1]]);
      }
      assert ToName(u.subNames[k - 1]) == prints[k - 1];
    }
  }

  lemma JoinTwo(a: string, b: string)
    ensures Join(':', [a]) == a && Join(':', [a, b]) == a + ":" + b
  {
    assert [a, b][1..] == [b];
  }

  lemma JoinFour(a: string, b: string, c: string, d: string)
    ensures Join(':', [a, b, c, d]) == a + ":" + b + ":" + c + ":" + d
  {
    assert [a, b, c, d][1..] == [b, c, d] && [b, c, d][1..] == [c, d];
    JoinTwo(c, d);
    assert Join(':', [b, c, d]) == b + ":" + (c + ":" + d);
    assert a + ":" + (b + ":" + (c + ":" + d)) == a + ":" + b + ":" + c + ":" + d;
  }

  lemma AllSubs(u: LinkNameUnit)
    ensures SubPrints(u)[..|u.subNames|] == SubPrints(u)
  {
  }

  lemma NamelessIsToken(u: LinkNameUnit)
    requires IsNameless(u.unitType) && PrintableUnit(u) && u.name == ""
    ensures Join(':', Tokens(u)) == UnitText(u)
  {
    hide Join, ToName, SubTexts, SubPrints, Only, Bracketed, PrintableUnit;
    JoinTwo(Tokens(u)[0], "");
    assert Keyword(u.unitType) + "" == Keyword(u.unitType);
  }

  lemma NamedIsToken(u: LinkNameUnit)
    requires IsNamed(u.unitType) && PrintableUnit(u)
    ensures Join(':', Tokens(u)) == UnitText(u)
  {
    hide Join, ToName, SubTexts, SubPrints, Only, Bracketed, PrintableUnit;
    JoinTwo(Tokens(u)[0], "");
  }

  lemma ConversionIsTokens(u: LinkNameUnit)
    requires u.unitType.FromConvertor? || u.unitType.ToConvertor?
    ensures PrintableUnit(u) ==> Join(':', Tokens(u)) == UnitText(u)
  {
    JoinTwo(Tokens(u)[0], Bracketed(u.name));
  }

  lemma OneSubIsTokens(u: LinkNameUnit)
    requires u.unitType.DoType? || u.unitType.NormalBinaryOperator? || u.unitType.VariationBinaryOperator?
    requires u.subNames != [] && PrintableUnit(u) && ToName(u.subNames[0]) == Only(u)
    ensures Join(':', Tokens(u)) == UnitText(u)
  {
    hide ToName, SubPrint, SubTexts, Join, Only;
    JoinTwo(Tokens(u)[0], Bracketed(Only(u)));
  }

  lemma DoSkillIsTokens(u: LinkNameUnit)
    requires u.unitType.DoSkill? && u.subNames != [] && PrintableUnit(u) && ToName(u.subNames[0]) == Only(u)
    ensures Join(':', Tokens(u)) == UnitText(u)
  {
    hide ToName, SubPrint, SubTexts, Join, Only;
    JoinFour("do_skill", Bracketed(u.name), "for_type", Bracketed(Only(u)));
  }

  lemma ListIsTokens(u: LinkNameUnit)
    requires u.unitType.Constructor? || u.unitType.GenericList?
    requires PrintableUnit(u) && SubTexts(u, |u.subNames|) == Join(',', SubPrints(u))
    ensures UnitText(u) == (if u.unitType.GenericList? then ":" else "") + Join(':', Tokens(u))
  {
    hide SubTexts, SubPrints, SubPrint;
    var inner := Join(',', SubPrints(u));
    JoinTwo(Tokens(u)[0], Bracketed(inner));
  }

  /** The text of a unit is its parts, joined with colons. */
  lemma {:induction false} UnitIsTokens(u: LinkNameUnit)
    requires WellBuiltUnit(u)
    ensures PrintableUnit(u)
    ensures UnitText(u) == (if u.unitType.GenericList? then ":" else "") + Join(':', Tokens(u))
  {
    hide ToName, Join, SubPrint, SubTexts, UnitText, Tokens;
    SubsArePrintable(u);
    if IsNamed(u.unitType) {
      NamedIsToken(u);
    } else if IsNameless(u.unitType) {
      NamelessIsToken(u);
    } else if u.unitType.FromConvertor? || u.unitType.ToConvertor? {
      ConversionIsTokens(u);
    } else if u.unitType.Constructor? || u.unitType.GenericList? {
      AllSubs(u);
      SubTextsAreJoined(u, |u.subNames|);
      ListIsTokens(u);
    } else if u.unitType.DoSkill? {
      DoSkillIsTokens(u);
    } else {
      OneSubIsTokens(u);
    }
  }

  // ---------------------------------------------------------------------------
  // The parts can be told apart

  lemma PlainIsClean(sep: char, s: string)
    requires Plain(s) && (sep == ':' || sep == ',')
    ensures Clean(sep, s) && Balanced(s)
  {
    PlainScan(Some(sep), s, 0);
    PlainScan(None, s, 0);
  }

  lemma PunctuationIsPlain()
    ensures Plain("for_type") && Plain("qat'") && Plain(")") && Plain(")destructor") && Plain("")
  {
  }

  lemma TypeKeywordsArePlain(t: LinkUnitType)
    requires t.Lib? || t.Type? || t.Choice? || t.Mix? || t.Toggle? || t.Region? || t.Skill? || t.StaticField?
    ensures Plain(Keyword(t))
  {
  }

  lemma FunctionKeywordsArePlain(t: LinkUnitType)
    requires t.Function? || t.StaticFunction? || t.VariationMethod? || t.Method? || t.ValueMethod? || t.Global?
    ensures Plain(Keyword(t))
  {
  }

  lemma NamelessKeywordsArePlain(t: LinkUnitType)
    requires IsNameless(t)
    ensures Plain(Keyword(t))
  {
  }

  lemma OperatorKeywordsArePlain(t: LinkUnitType)
    requires t.UnaryOperator? || t.NormalBinaryOperator? || t.VariationBinaryOperator?
    ensures Plain(Keyword(t))
  {
  }

  lemma ListedKeywordsArePlain(t: LinkUnitType)
    requires !IsNamed(t) && !IsNameless(t) && !t.NormalBinaryOperator? && !t.VariationBinaryOperator?
    ensures Plain(Keyword(t))
  {
  }

  lemma {:induction false} KeywordsArePlain(t: LinkUnitType)
    ensures Plain(Keyword(t))
  {
    hide Keyword, Plain;
    if t.UnaryOperator? || t.NormalBinaryOperator? || t.VariationBinaryOperator? {
      OperatorKeywordsArePlain(t);
    } else if IsNameless(t) {
      NamelessKeywordsArePlain(t);
    } else if !IsNamed(t) {
      ListedKeywordsArePlain(t);
    } else if t.Function? || t.StaticFunction? || t.VariationMethod? || t.Method? || t.ValueMethod? || t.Global? {
      FunctionKeywordsArePlain(t);
    } else {
      TypeKeywordsArePlain(t);
    }
  }

  lemma SubsAreClean(u: LinkNameUnit)
    requires WellBuiltUnit(u) && (u.unitType.Constructor? || u.unitType.GenericList?)
    ensures forall i :: 0 <= i < |SubPrints(u)| ==> Clean(',', SubPrints(u)[i]) && Balanced(SubPrints(u)[i])
    ensures Balanced(Join(',', SubPrints(u)))
  {
    forall i | 0 <= i < |u.subNames|
      ensures Clean(',', SubPrint(u.subNames[i])) && Balanced(SubPrint(u.subNames[i]))
    {
      var text := SingleText(u.subNames[i]);
      PunctuationIsPlain();
      PlainIsClean(',', "qat'");
      CleanAppend(',', "qat'", text);
      CleanIsBalanced(',', SubPrint(u.subNames[i]), 0);
    }
    JoinIsBalanced(',', SubPrints(u));
  }

  lemma OnlyIsBalanced(u: LinkNameUnit, t: LinkUnitType)
    requires OneSub(u, t)
    ensures Balanced(Only(u))
  {
    PunctuationIsPlain();
    PlainIsClean(',', "qat'");
    ScanAppend(None, "qat'", SingleText(u.subNames[0]), 0);
  }

  lemma KeywordAndName(t: LinkUnitType, name: string, tail: string)
    requires Clean(':', name) && Plain(tail)
    ensures Clean(':', Keyword(t) + name + tail)
    ensures Clean(':', Keyword(t) + name)
    ensures Clean(':', Keyword(t))
  {
    KeywordsArePlain(t);
    PlainIsClean(':', Keyword(t));
    PlainIsClean(':', tail);
    CleanAppend(':', Keyword(t), name);
    CleanAppend(':', Keyword(t) + name, tail);
  }

  ghost predicate AllClean(tokens: seq<string>) {
    forall i :: 0 <= i < |tokens| ==> Clean(':', tokens[i]) && tokens[i] != ""
  }

  lemma NamedTokensAreClean(u: LinkNameUnit)
    requires WellBuiltUnit(u) && (IsNamed(u.unitType) || IsNameless(u.unitType))
    ensures Clean(':', Tokens(u)[0])
  {
    hide Clean, Plain;
    PunctuationIsPlain();
    PlainIsClean(':', "");
    if u.unitType.UnaryOperator? {
      KeywordAndName(UnaryOperator, u.name, ")destructor");
    } else {
      KeywordAndName(u.unitType, u.name, "");
    }
  }

  lemma SubTokensAreClean(u: LinkNameUnit)
    requires OneSub(u, Name) || OneSub(u, TypeName)
    ensures Clean(':', Bracketed(Only(u)))
  {
    OnlyIsBalanced(u, if OneSub(u, Name) then Name else TypeName);
    BracketsAreClean(':', Only(u));
  }

  lemma ListTokensAreClean(u: LinkNameUnit)
    requires WellBuiltUnit(u) && (u.unitType.Constructor? || u.unitType.GenericList?)
    ensures Clean(':', Bracketed(Join(',', SubPrints(u))))
  {
    SubsAreClean(u);
    BracketsAreClean(':', Join(',', SubPrints(u)));
  }

  lemma OperatorTokensAreClean(u: LinkNameUnit)
    requires u.unitType.NormalBinaryOperator? || u.unitType.VariationBinaryOperator?
    requires Clean(':', u.name)
    ensures Clean(':', Tokens(u)[0])
  {
    hide Clean, Plain;
    PunctuationIsPlain();
    KeywordAndName(u.unitType, u.name, ")");
  }

  lemma KeywordIsNotEmpty(t: LinkUnitType)
    requires !IsBare(t) && !t.TypeName? && !t.GenericList?
    ensures |Keyword(t)| > 0
  {
  }

  lemma TokensAreClean(u: LinkNameUnit)
    requires WellBuiltUnit(u)
    ensures AllClean(Tokens(u)) && Tokens(u) != []
  {
    hide Clean, Balanced, Plain, Join, SubPrints, SubPrint, Keyword;
    PunctuationIsPlain();
    PlainIsClean(':', "for_type");
    KeywordsArePlain(u.unitType);
    PlainIsClean(':', Keyword(u.unitType));
    if !u.unitType.GenericList? {
      KeywordIsNotEmpty(u.unitType);
    }
    if IsNamed(u.unitType) || IsNameless(u.unitType) {
      NamedTokensAreClean(u);
    } else if u.unitType.FromConvertor? || u.unitType.ToConvertor? {
      BracketsAreClean(':', u.name);
    } else if u.unitType.Constructor? || u.unitType.GenericList? {
      ListTokensAreClean(u);
    } else {
      SubTokensAreClean(u);
      if u.unitType.DoSkill? {
        BracketsAreClean(':', u.name);
      } else if !u.unitType.DoType? {
        OperatorTokensAreClean(u);
      }
    }
  }

  lemma {:induction false} AllTokensAreClean(units: seq<LinkNameUnit>)
    requires forall i :: 0 <= i < |units| ==> WellBuiltUnit(units[i])
    ensures AllClean(AllTokens(units)) && (units != [] ==> AllTokens(units) != [])
  {
    if units != [] {
      AllTokensAreClean(units[..|units| - 1]);
      TokensAreClean(units[|units| - 1]);
    }
  }

  lemma OneMoreUnit(n: LinkNames, k: nat)
    requires WellBuilt(n) && Printable(n) && 0 < k <= |n.units|
    ensures k == 1 ==> UnitTexts(n, k) == Join(':', Tokens(n.units[0]))
    ensures k > 1 ==> UnitTexts(n, k) == UnitTexts(n, k - 1) + ":" + Join(':', Tokens(n.units[k - 1]))
  {
    hide UnitText, Tokens, WellBuiltUnit, Join;
    var u := n.units[k - 1];
    UnitIsTokens(u);
    var before, text := UnitTexts(n, k - 1), Join(':', Tokens(u));
    assert UnitTexts(n, k) == before + Separator(u, k - 1) + UnitText(u);
    if u.unitType.GenericList? {
      assert before + "" + (":" + text) == before + ":" + text;
    } else if k == 1 {
      assert "" + "" + text == text;
    }
  }

  /** The units of a name print as all their parts joined with colons. */
  lemma {:induction false} UnitsAreTokens(n: LinkNames, k: nat)
    requires WellBuilt(n) && Printable(n) && 0 < k <= |n.units|
    ensures AllTokens(n.units[..k]) != []
    ensures UnitTexts(n, k) == Join(':', AllTokens(n.units[..k]))
  {
    hide UnitText, UnitTexts, Tokens, WellBuiltUnit;
    var u := n.units[k - 1];
    OneMoreUnit(n, k);
    TokensAreClean(u);
    assert n.units[..k][..k - 1] == n.units[..k - 1] && n.units[..k][k - 1] == u;
    assert AllTokens(n.units[..k]) == AllTokens(n.units[..k - 1]) + Tokens(u);
    if k == 1 {
      assert AllTokens(n.units[..0]) == [];
      assert [] + Tokens(u) == Tokens(u);
    } else {
      UnitsAreTokens(n, k - 1);
      JoinAppend(':', AllTokens(n.units[..k - 1]), Tokens(u));
    }
  }

  lemma {:induction false} WellBuiltIsPrintable(n: LinkNames)
    requires WellBuilt(n)
    ensures Printable(n)
  {
    forall i | 0 <= i < |n.units|
      ensures PrintableUnit(n.units[i])
    {
      SubsArePrintable(n.units[i]);
    }
  }

  lemma {:induction false} NameIsTokens(n: LinkNames)
    requires WellBuilt(n)
    ensures Printable(n)
    ensures n.units == [] ==> ToName(n) == "qat'"
    ensures n.units != [] ==> ToName(n) == "qat'" + Join(':', AllTokens(n.units))
  {
    hide UnitText, Tokens, Join, WellBuiltUnit, Printable;
    WellBuiltIsPrintable(n);
    FirstIsNotBare(n);
    if n.units != [] {
      UnitsAreTokens(n, |n.units|);
      assert n.units[..|n.units|] == n.units;
    }
  }

  lemma FirstIsNotBare(n: LinkNames)
    requires WellBuilt(n)
    ensures Prefix(n.units) == "qat'"
  {
    assert n.units != [] ==> WellBuiltUnit(n.units[0]);
  }

  // ---------------------------------------------------------------------------
  // Reading a name back

  function CharAt(s: string, i: nat): char {
    if i < |s| then s[i] else ' '
  }

  predicate HasAt(s: string, i: nat, word: string) {
    i <= |s| && word <= s[i..]
  }

  function Drop(s: string, n: nat): string {
    if n <= |s| then s[n..] else ""
  }

  function Chop(s: string, n: nat): string {
    if n <= |s| then s[..|s| - n] else ""
  }

  function Inner(s: string): string {
    if |s| >= 2 then s[1..|s| - 1] else ""
  }

  function Part(tokens: seq<string>, i: nat): string {
    if i < |tokens| then tokens[i] else ""
  }

  /** The type of the unit whose first part is `s`. */
  function TypeOf(s: string): LinkUnitType {
    match CharAt(s, 0)
    case 'l' => Lib
    case 'r' => Region
    case 'f' => Function
    case 'm' => Method
    case 'g' => Global
    case 't' =>
      if HasAt(s, 5, "choice_") then Choice
      else if HasAt(s, 5, "mix_") then Mix
      else if HasAt(s, 5, "toggle_") then Toggle
      else Type
    case 's' => if CharAt(s, 1) == 'k' then Skill else if CharAt(s, 6) == '_' then StaticField else StaticFunction
    case 'v' => if CharAt(s, 2) == 'r' then VariationMethod else ValueMethod
    case 'd' => if CharAt(s, 1) == 'e' then Destructor else if CharAt(s, 3) == 't' then DoType else DoSkill
    case 'c' => ConversionOf(s)
    case 'o' => OperatorOf(s)
    case _ => GenericList
  }

  function ConversionOf(s: string): LinkUnitType {
    if CharAt(s, 3) == 'v' then if CharAt(s, 10) == 'f' then FromConvertor else ToConvertor
    else
      match CharAt(s, 12)
      case 'd' => DefaultConstructor
      case 'f' => Constructor
      case 'c' => CopyConstructor
      case _ => MoveConstructor
  }

  function OperatorOf(s: string): LinkUnitType {
    match CharAt(s, 9)
    case 'c' => CopyAssignment
    case 'm' => MoveAssignment
    case 'u' => UnaryOperator
    case _ => if CharAt(s, 15) == '(' then NormalBinaryOperator else VariationBinaryOperator
  }

  /** How many parts a unit takes up. */
  function Width(t: LinkUnitType): nat {
    match t
    case DoSkill => 4
    case DoType => 2
    case FromConvertor => 2
    case ToConvertor => 2
    case Constructor => 2
    case NormalBinaryOperator => 2
    case VariationBinaryOperator => 2
    case _ => 1
  }

  function ReadList(s: string, t: LinkUnitType): seq<LinkNames> {
    var parts := Split(',', s);
    seq(|parts|, i requires 0 <= i < |parts| => Single(if t.TypeName? then Drop(parts[i], 4) else parts[i], t))
  }

  /** The unit that starts at the first of several parts. */
  function ReadUnit(tokens: seq<string>): LinkNameUnit {
    var first := Part(tokens, 0);
    var t := TypeOf(first);
    var name := Drop(first, |Keyword(t)|);
    var inner := Inner(Part(tokens, 1));
    match t
    case DoType => LinkNameUnit("", t, [Single(inner, Name)])
    case DoSkill => LinkNameUnit(inner, t, [Single(Inner(Part(tokens, 3)), Name)])
    case FromConvertor => LinkNameUnit(inner, t, [])
    case ToConvertor => LinkNameUnit(inner, t, [])
    case Constructor => LinkNameUnit("", t, if inner == "" then [] else ReadList(inner, TypeName))
    case NormalBinaryOperator => LinkNameUnit(Chop(name, 1), t, [Single(Drop(inner, 4), TypeName)])
    case VariationBinaryOperator => LinkNameUnit(Chop(name, 1), t, [Single(Drop(inner, 4), TypeName)])
    case UnaryOperator => LinkNameUnit(Chop(name, 11), t, [])
    case GenericList => LinkNameUnit("", t, ReadList(Inner(first), Name))
    case _ => LinkNameUnit(name, t, [])
  }

  function ReadUnits(tokens: seq<string>): seq<LinkNameUnit>
    decreases |tokens|
  {
    if tokens == [] then []
    else
      var width := Width(TypeOf(tokens[0]));
      [ReadUnit(tokens)] + ReadUnits(if width <= |tokens| then tokens[width..] else [])
  }

  /** The units of the native entity with a given link name. */
  function Demangle(s: string): seq<LinkNameUnit> {
    if Drop(s, 4) == "" then [] else ReadUnits(Split(':', Drop(s, 4)))
  }

  lemma AfterKeyword(k: string, name: string)
    ensures Drop(k + name, |k|) == name
    ensures forall i :: 0 <= i < |k| ==> CharAt(k + name, i) == k[i]
  {
  }

  lemma ChoiceTells(name: string)
    ensures TypeOf(Keyword(Choice) + name) == Choice
  {
    assert (Keyword(Choice) + name)[5..] == "choice_" + name;
  }

  lemma MixTells(name: string)
    ensures TypeOf(Keyword(Mix) + name) == Mix
  {
    assert (Keyword(Mix) + name)[5..] == "mix_" + name;
    assert ("mix_" + name)[0] != "choice_"[0];
  }

  lemma ToggleTells(name: string)
    ensures TypeOf(Keyword(Toggle) + name) == Toggle
  {
    assert (Keyword(Toggle) + name)[5..] == "toggle_" + name;
    assert ("toggle_" + name)[0] != "choice_"[0] && ("toggle_" + name)[0] != "mix_"[0];
  }

  lemma TypeTells(name: string)
    requires IsTypeName(name)
    ensures TypeOf(Keyword(Type) + name) == Type
  {
    assert (Keyword(Type) + name)[5..] == name;
  }

  lemma NamedKeywordTells(t: LinkUnitType, name: string)
    requires IsNamed(t) && !t.UnaryOperator? && (t.Type? ==> IsTypeName(name))
    ensures TypeOf(Keyword(t) + name) == t
  {
    if t.Type? {
      TypeTells(name);
    } else if t.Choice? {
      ChoiceTells(name);
    } else if t.Mix? {
      MixTells(name);
    } else if t.Toggle? {
      ToggleTells(name);
    } else {
      OtherKeywordTells(t, name);
    }
  }

  lemma OtherKeywordTells(t: LinkUnitType, name: string)
    requires IsNamed(t) && !t.UnaryOperator? && !t.Type? && !t.Choice? && !t.Mix? && !t.Toggle?
    ensures TypeOf(Keyword(t) + name) == t
  {
    AfterKeyword(Keyword(t), name);
  }

  lemma NamelessKeywordTells(t: LinkUnitType)
    requires IsNameless(t)
    ensures TypeOf(Keyword(t)) == t
  {
  }

  lemma OperatorTells(t: LinkUnitType, name: string)
    requires t.UnaryOperator? || t.NormalBinaryOperator? || t.VariationBinaryOperator?
    ensures TypeOf(Keyword(t) + name) == t
  {
    AfterKeyword(Keyword(t), name);
  }

  lemma ListedKeywordTells(t: LinkUnitType)
    requires t.DoType? || t.DoSkill? || t.FromConvertor? || t.ToConvertor? || t.Constructor?
    ensures TypeOf(Keyword(t)) == t
  {
  }

  lemma BracketTells(s: string)
    ensures TypeOf(Bracketed(s)) == GenericList && Inner(Bracketed(s)) == s
  {
  }

  // ---------------------------------------------------------------------------
  // Unit by unit

  /** Reading the parts of a unit, whatever follows them, gives the unit. */
  ghost predicate ReadsBack(u: LinkNameUnit, rest: seq<string>) {
    var tokens := Tokens(u) + rest;
    && Tokens(u) != [] && ReadUnit(tokens) == NormalUnit(u)
    && Width(TypeOf(tokens[0])) == |Tokens(u)|
  }

  lemma NoSubsIsNormal(u: LinkNameUnit)
    requires u.subNames == []
    ensures NormalUnit(u) == u
  {
    assert NormalUnit(u).subNames == u.subNames;
  }

  lemma {:induction false} NamedReadsBack(u: LinkNameUnit, rest: seq<string>)
    requires u.subNames == [] && IsNamed(u.unitType) && !u.unitType.UnaryOperator?
    requires u.unitType.Type? ==> IsTypeName(u.name)
    ensures ReadsBack(u, rest)
  {
    hide TypeOf, Keyword, IsTypeName, Drop, NormalUnit;
    NoSubsIsNormal(u);
    AfterKeyword(Keyword(u.unitType), u.name);
    NamedKeywordTells(u.unitType, u.name);
    assert (Tokens(u) + rest)[0] == Keyword(u.unitType) + u.name;
  }

  lemma {:induction false} NamelessReadsBack(u: LinkNameUnit, rest: seq<string>)
    requires u.subNames == [] && u.name == "" && IsNameless(u.unitType)
    ensures ReadsBack(u, rest)
  {
    hide TypeOf, Keyword, Drop, NormalUnit;
    NoSubsIsNormal(u);
    AfterKeyword(Keyword(u.unitType), "");
    NamelessKeywordTells(u.unitType);
    assert Keyword(u.unitType) + "" == Keyword(u.unitType);
    assert (Tokens(u) + rest)[0] == Keyword(u.unitType);
  }

  lemma {:induction false} ConversionReadsBack(u: LinkNameUnit, rest: seq<string>)
    requires WellBuiltUnit(u) && (u.unitType.FromConvertor? || u.unitType.ToConvertor?)
    ensures ReadsBack(u, rest)
  {
    hide TypeOf, Keyword, Balanced, NormalUnit, Drop, Bracketed, Inner;
    NoSubsIsNormal(u);
    ListedKeywordTells(u.unitType);
    BracketTells(u.name);
  }

  lemma UnaryReadsBack(u: LinkNameUnit, rest: seq<string>)
    requires WellBuiltUnit(u) && u.unitType.UnaryOperator?
    ensures ReadsBack(u, rest)
  {
    hide TypeOf, Keyword, Clean, NormalUnit, Drop;
    NoSubsIsNormal(u);
    var k, tail := Keyword(UnaryOperator), u.name + ")destructor";
    assert Tokens(u)[0] == k + tail;
    OperatorTells(UnaryOperator, tail);
    AfterKeyword(k, tail);
    assert Chop(tail, 11) == u.name;
  }

  /** The only sub-list of a unit can be read from its text. */
  lemma OnlyReadsBack(u: LinkNameUnit, t: LinkUnitType)
    requires OneSub(u, t) && (t.Name? || t.TypeName?)
    ensures NormalUnit(u) == u && Inner(Bracketed(Only(u))) == Only(u)
    ensures u.subNames == [Single(if t.TypeName? then Drop(Only(u), 4) else Only(u), t)]
  {
    hide Balanced;
    BracketTells(Only(u));
    var text := SingleText(u.subNames[0]);
    assert ("qat'" + text)[4..] == text;
    assert NormalUnit(u).subNames == u.subNames;
  }

  lemma ReadBinary(first: string, second: string, rest: seq<string>, t: LinkUnitType, name: string)
    requires (t.NormalBinaryOperator? || t.VariationBinaryOperator?) && TypeOf(first) == t
    requires Drop(first, |Keyword(t)|) == name + ")"
    ensures ReadUnit([first, second] + rest) == LinkNameUnit(name, t, [Single(Drop(Inner(second), 4), TypeName)])
  {
    hide TypeOf, Keyword, Inner, Drop;
    var tokens := [first, second] + rest;
    assert tokens[0] == first && tokens[1] == second;
    assert Chop(name + ")", 1) == name;
  }

  lemma {:induction false} BinaryReadsBack(u: LinkNameUnit, rest: seq<string>)
    requires WellBuiltUnit(u) && (u.unitType.NormalBinaryOperator? || u.unitType.VariationBinaryOperator?)
    ensures ReadsBack(u, rest)
  {
    hide TypeOf, Keyword, Clean, Balanced, Only, Bracketed, Inner, ReadUnit, Drop;
    OnlyReadsBack(u, TypeName);
    var k, tail := Keyword(u.unitType), u.name + ")";
    assert k + u.name + ")" == k + tail;
    assert Tokens(u) == [k + tail, Bracketed(Only(u))];
    OperatorTells(u.unitType, tail);
    AfterKeyword(k, tail);
    ReadBinary(k + tail, Bracketed(Only(u)), rest, u.unitType, u.name);
  }

  lemma {:induction false} DoneSkillReadsBack(u: LinkNameUnit, rest: seq<string>)
    requires WellBuiltUnit(u) && (u.unitType.DoType? || u.unitType.DoSkill?)
    ensures ReadsBack(u, rest)
  {
    hide TypeOf, Keyword, Balanced, Only, Bracketed, Inner;
    OnlyReadsBack(u, Name);
    ListedKeywordTells(u.unitType);
    BracketTells(u.name);
  }

  lemma FirstPart(parts: seq<string>)
    requires parts != [] && "qat'" <= parts[0]
    ensures Join(',', parts) != ""
  {
  }

  lemma {:induction false} ConstructorReadsBack(u: LinkNameUnit, rest: seq<string>)
    requires WellBuiltUnit(u) && u.unitType.Constructor?
    ensures ReadsBack(u, rest)
  {
    hide TypeOf, Keyword, Clean, Balanced, Split, Join, Bracketed, Inner;
    ListedKeywordTells(Constructor);
    var prints := SubPrints(u);
    BracketTells(Join(',', prints));
    if u.subNames == [] {
      JoinNothing(prints);
      assert NormalUnit(u) == u;
    } else {
      SubsAreClean(u);
      SplitJoin(',', prints);
      FirstPart(prints);
      assert forall i :: 0 <= i < |prints| ==> Drop(prints[i], 4) == SingleText(u.subNames[i]);
      assert ReadList(Join(',', prints), TypeName) == NormalUnit(u).subNames;
    }
  }

  lemma JoinNothing(parts: seq<string>)
    requires parts == []
    ensures Join(',', parts) == ""
  {
  }

  lemma {:induction false} GenericListReadsBack(u: LinkNameUnit, rest: seq<string>)
    requires WellBuiltUnit(u) && u.unitType.GenericList?
    ensures ReadsBack(u, rest)
  {
    hide Keyword, Clean, Balanced, Split, Join, Bracketed, Inner, TypeOf;
    var prints := SubPrints(u);
    BracketTells(Join(',', prints));
    SubsAreClean(u);
    SplitJoin(',', prints);
    assert ReadList(Join(',', prints), Name) == NormalUnit(u).subNames;
  }

  lemma {:induction false} UnitReadsBack(u: LinkNameUnit, rest: seq<string>)
    requires WellBuiltUnit(u)
    ensures ReadsBack(u, rest)
  {
    hide ReadsBack;
    if IsNamed(u.unitType) && !u.unitType.UnaryOperator? {
      NamedReadsBack(u, rest);
      return;
    } else if IsNameless(u.unitType) {
      NamelessReadsBack(u, rest);
      return;
    }
    match u.unitType {
      case DoType => DoneSkillReadsBack(u, rest);
      case DoSkill => DoneSkillReadsBack(u, rest);
      case FromConvertor => ConversionReadsBack(u, rest);
      case ToConvertor => ConversionReadsBack(u, rest);
      case Constructor => ConstructorReadsBack(u, rest);
      case NormalBinaryOperator => BinaryReadsBack(u, rest);
      case VariationBinaryOperator => BinaryReadsBack(u, rest);
      case UnaryOperator => UnaryReadsBack(u, rest);
      case GenericList => GenericListReadsBack(u, rest);
    }
  }

  lemma ReadUnitsStep(u: LinkNameUnit, rest: seq<string>)
    requires ReadsBack(u, rest)
    ensures ReadUnits(Tokens(u) + rest) == [NormalUnit(u)] + ReadUnits(rest)
  {
    hide ReadUnit, Tokens, NormalUnit, TypeOf, Width;
    assert (Tokens(u) + rest)[|Tokens(u)|..] == rest;
  }

  lemma {:induction false} UnitsReadBack(units: seq<LinkNameUnit>)
    requires forall i :: 0 <= i < |units| ==> WellBuiltUnit(units[i])
    ensures ReadUnits(AllTokens(units)) == NormalForm(units)
    decreases |units|
  {
    hide ReadUnit, Tokens, WellBuiltUnit, NormalUnit, TypeOf, Width, ReadsBack;
    if units != [] {
      var rest := AllTokens(units[1..]);
      AllTokensFirst(units);
      UnitReadsBack(units[0], rest);
      UnitsReadBack(units[1..]);
      ReadUnitsStep(units[0], rest);
      assert NormalForm(units) == [NormalUnit(units[0])] + NormalForm(units[1..]);
    }
  }

  lemma AllTokensSnoc(units: seq<LinkNameUnit>, last: LinkNameUnit)
    ensures AllTokens(units + [last]) == AllTokens(units) + Tokens(last)
    ensures AllTokens([]) == []
  {
    assert (units + [last])[..|units|] == units;
  }

  lemma {:induction false} AllTokensFirst(units: seq<LinkNameUnit>)
    requires units != []
    ensures AllTokens(units) == Tokens(units[0]) + AllTokens(units[1..])
    decreases |units|
  {
    hide Tokens, AllTokens;
    var n := |units| - 1;
    var last := units[n];
    AllTokensSnoc(units[..n], last);
    assert units[..n] + [last] == units;
    if n == 0 {
      assert units[..0] == [] && units[1..] == [];
    } else {
      var middle := units[1..n];
      AllTokensFirst(units[..n]);
      assert units[..n][1..] == middle && middle + [last] == units[1..];
      AllTokensSnoc(middle, last);
    }
  }

  // ---------------------------------------------------------------------------
  // Names tell entities apart

  /** The link name of a native entity can be read back. */
  lemma {:induction false} DemangleToName(n: LinkNames)
    requires WellBuilt(n)
    ensures Printable(n) && Demangle(ToName(n)) == NormalForm(n.units)
  {
    hide ToName, Split, Join, ReadUnits, AllTokens, Clean, WellBuiltUnit, Printable;
    NameIsTokens(n);
    if n.units == [] {
      NothingToRead(ToName(n));
    } else {
      var tokens := AllTokens(n.units);
      AllTokensAreClean(n.units);
      SplitJoin(':', tokens);
      JoinIsNotEmpty(tokens);
      UnitsReadBack(n.units);
      assert ("qat'" + Join(':', tokens))[4..] == Join(':', tokens);
    }
  }

  lemma NothingToRead(s: string)
    requires s == "qat'"
    ensures Demangle(s) == []
  {
  }

  lemma JoinIsNotEmpty(tokens: seq<string>)
    requires AllClean(tokens) && tokens != []
    ensures Join(':', tokens) != ""
  {
  }

  /**
   Different native entities have different link names: if the names of two are the same, their
   units agree in number, type and name, and so do the units of their sub-lists, up to whether a
   generic argument is a type or a value.
   */
  lemma {:induction false} ToNameIsInjective(a: LinkNames, b: LinkNames)
    requires WellBuilt(a) && WellBuilt(b)
    ensures Printable(a) && Printable(b)
    ensures ToName(a) == ToName(b) <==> NormalForm(a.units) == NormalForm(b.units)
  {
    hide ToName, Demangle, NormalForm, WellBuilt, Printable;
    DemangleToName(a);
    DemangleToName(b);
    if NormalForm(a.units) == NormalForm(b.units) {
      SameNormalSameName(a, b);
    }
  }

  lemma {:induction false} SameNormalSameName(a: LinkNames, b: LinkNames)
    requires WellBuilt(a) && WellBuilt(b) && NormalForm(a.units) == NormalForm(b.units)
    ensures Printable(a) && Printable(b) && ToName(a) == ToName(b)
  {
    NameIsTokens(a);
    NameIsTokens(b);
    SameNormalSameTokens(a.units, b.units);
  }

  lemma {:induction false} SameNormalSameTokens(a: seq<LinkNameUnit>, b: seq<LinkNameUnit>)
    requires NormalForm(a) == NormalForm(b)
    ensures |a| == |b| && AllTokens(a) == AllTokens(b)
  {
    assert |a| == |NormalForm(a)| == |NormalForm(b)| == |b|;
    if a != [] {
      var n := |a| - 1;
      assert NormalForm(a[..n]) == NormalForm(a)[..n] && NormalForm(b[..n]) == NormalForm(b)[..n];
      SameNormalSameTokens(a[..n], b[..n]);
      assert NormalUnit(a[n]) == NormalForm(a)[n] == NormalForm(b)[n] == NormalUnit(b[n]);
      SamePrints(a[n], b[n]);
    }
  }

  lemma SamePrints(u: LinkNameUnit, v: LinkNameUnit)
    requires NormalUnit(u) == NormalUnit(v)
    ensures Tokens(u) == Tokens(v)
  {
    assert |u.subNames| == |NormalUnit(u).subNames| == |v.subNames|;
    forall i | 0 <= i < |u.subNames|
      ensures SubPrint(u.subNames[i]) == SubPrint(v.subNames[i])
    {
      assert NormalSub(u.subNames[i]) == NormalUnit(u).subNames[i] == NormalUnit(v).subNames[i]
          == NormalSub(v.subNames[i]);
    }
    assert SubPrints(u) == SubPrints(v);
  }

  /** Without the condition on type names, types and choice, mix and toggle types can collide. */
  lemma KeywordPrefixCollides(x: string, n: LinkNames, t: LinkUnitType, prefix: string)
    requires n.IsNative() && Printable(n)
    requires (t, prefix) in {(Choice, "choice_"), (Mix, "mix_"), (Toggle, "toggle_")}
    ensures var a := n.AddUnit(LinkNameUnit(prefix + x, Type, []), None);
      var b := n.AddUnit(LinkNameUnit(x, t, []), None);
      Printable(a) && Printable(b) && ToName(a) == ToName(b) && NormalForm(a.units) != NormalForm(b.units)
  {
    hide ToName, Printable;
    var u, v := LinkNameUnit(prefix + x, Type, []), LinkNameUnit(x, t, []);
    AddedUnit(n, u);
    AddedUnit(n, v);
    TypePrefix(x, t, prefix);
    var a, b := n.AddUnit(u, None), n.AddUnit(v, None);
    assert NormalForm(a.units)[|n.units|] == u && NormalForm(b.units)[|n.units|] == v;
  }

  lemma TypePrefix(x: string, t: LinkUnitType, prefix: string)
    requires (t, prefix) in {(Choice, "choice_"), (Mix, "mix_"), (Toggle, "toggle_")}
    ensures PrintableUnit(LinkNameUnit(prefix + x, Type, [])) && PrintableUnit(LinkNameUnit(x, t, []))
    ensures UnitText(LinkNameUnit(prefix + x, Type, [])) == UnitText(LinkNameUnit(x, t, []))
  {
    assert "type_" + ("choice_" + x) == "type_choice_" + x;
    assert "type_" + ("mix_" + x) == "type_mix_" + x;
    assert "type_" + ("toggle_" + x) == "type_toggle_" + x;
  }

  /** Adding a unit adds its text, after a colon unless it is the first one. */
  lemma AddedUnit(n: LinkNames, u: LinkNameUnit)
    requires n.IsNative() && Printable(n) && PrintableUnit(u) && !u.unitType.GenericList? && !IsBare(u.unitType)
    ensures Printable(n.AddUnit(u, None))
    ensures ToName(n.AddUnit(u, None)) == ToName(n) + (if n.units == [] then "" else ":") + UnitText(u)
  {
    var m := n.AddUnit(u, None);
    assert m.IsNative() && Printable(m);
    SameTexts(n, m, |n.units|);
    assert m.units[|n.units|] == u;
    var texts, colon := UnitTexts(n, |n.units|), if n.units == [] then "" else ":";
    assert UnitTexts(m, |m.units|) == texts + colon + UnitText(u);
    assert Prefix(m.units) + (texts + colon + UnitText(u)) == Prefix(m.units) + texts + colon + UnitText(u);
  }

  lemma {:induction false} SameTexts(n: LinkNames, m: LinkNames, k: nat)
    requires n.IsNative() && m.IsNative() && Printable(n) && Printable(m)
    requires k <= |n.units| <= |m.units| && m.units[..|n.units|] == n.units
    ensures UnitTexts(n, k) == UnitTexts(m, k)
  {
    if k > 0 {
      SameTexts(n, m, k - 1);
      assert m.units[k - 1] == m.units[..|n.units|][k - 1];
    }
  }
}
