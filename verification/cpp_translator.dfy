/** The entity translators of `CppTranslator`: methods, classes and enums
    become the flat records the header templates consume. */
module CppTranslator {
  import opened Wrappers
  import opened Ascii
  import opened Strings
  import opened AbstractApi
  import opened CppNames
  import opened CppTypes
  import opened Errors

  /** `{'prototype': ...}` */
  datatype MethodDict = MethodDict(prototype: string)

  /** `{'name': ..., 'methods': [...], 'staticMethods': [...]}` */
  datatype ClassDict = ClassDict(name: string, methods: seq<MethodDict>, staticMethods: seq<MethodDict>)

  /** `{'name': ..., 'notLast': ...}` */
  datatype EnumValueDict = EnumValueDict(name: string, notLast: bool)

  /** `{'name': ..., 'values': [...]}` */
  datatype EnumDict = EnumDict(name: string, values: seq<EnumValueDict>)

  const StaticToken: string := "static "
  const CallSuffix: string := "();"

  /** `'{0} {1}();'.format(ret, name)`, with `static ` in front when asked. */
  function FormatPrototype(isStatic: bool, ret: string, name: string): (r: string)
  {
    (if isStatic then StaticToken else "") + ret + " " + name + CallSuffix
  }

  /** `translate_method`: the prototype of the translated return type and
      method name, prefixed with `static ` for a class method. */
  function TranslateMethod(m: Method): (r: Result<MethodDict, Error>)
    ensures r.Success? <==> TranslateType(m.returnType).Success?
    ensures r.Failure? ==> r.error == TranslateType(m.returnType).error
    ensures r.Success? ==>
      && (StartsWith(r.value.prototype, StaticToken) <==> m.kind == ClassMethod)
      && EndsWith(r.value.prototype, " " + TranslateMethodName(m.name) + CallSuffix)
  {
    match TranslateType(m.returnType)
    case Failure(e) => Failure(e)
    case Success(ret) =>
      TranslatedTypeNotStatic(m.returnType);
      var name := TranslateMethodName(m.name);
      PrototypeShape(m.kind == ClassMethod, ret, name);
      Success(MethodDict(FormatPrototype(m.kind == ClassMethod, ret, name)))
  }

  /** A prototype starts with `static ` exactly when it was asked to (no
      return type starts with "sta") and ends with the name and `();`. */
  lemma PrototypeShape(isStatic: bool, ret: string, name: string)
    requires |ret| >= 3 && ret[..3] != "sta"
    ensures StartsWith(FormatPrototype(isStatic, ret, name), StaticToken) <==> isStatic
    ensures EndsWith(FormatPrototype(isStatic, ret, name), " " + name + CallSuffix)
  {
    var p := FormatPrototype(isStatic, ret, name);
    var tail := ret + " " + name + CallSuffix;
    assert p == (if isStatic then StaticToken else "") + tail;
    assert tail[..3] == ret[..3];
    if !isStatic && |StaticToken| <= |p| {
      assert p[..|StaticToken|][..3] == ret[..3];
    }
    assert p[|p| - |" " + name + CallSuffix|..] == " " + name + CallSuffix;
  }

  /** A prototype split into its parts. */
  datatype Prototype = Prototype(isStatic: bool, returnType: string, name: string)

  /** Reads a prototype back: an optional `static `, then everything up to
      the last space is the return type, then the name before `();`. */
  function ParsePrototype(p: string): (r: Option<Prototype>)
  {
    var isStatic := StartsWith(p, StaticToken);
    match SplitDeclaration(if isStatic then p[|StaticToken|..] else p)
    case Some((ret, name)) => Some(Prototype(isStatic, ret, name))
    case None => None
  }

  /** Splits `ret name();` at its last space. */
  function SplitDeclaration(p: string): (r: Option<(string, string)>)
  {
    if !EndsWith(p, CallSuffix) then None
    else
      var body := p[..|p| - |CallSuffix|];
      if ' ' !in body then None
      else
        var k := LastIndexOf(body, ' ');
        Some((body[..k], body[k + 1..]))
  }

  lemma SplitDeclarationRoundTrip(ret: string, name: string)
    requires ' ' !in name
    ensures SplitDeclaration(ret + " " + name + CallSuffix) == Some((ret, name))
  {
    var p := ret + " " + name + CallSuffix;
    assert EndsWith(p, CallSuffix);
    var body := p[..|p| - |CallSuffix|];
    assert body == ret + [' '] + name;
    LastIndexOfBeforeSuffix(ret, ' ', name);
    assert body[..|ret|] == ret && body[|ret| + 1..] == name;
  }

  lemma FormatPrototypeRoundTrip(isStatic: bool, ret: string, name: string)
    requires |ret| >= 3 && ret[..3] != "sta"
    requires ' ' !in name
    ensures ParsePrototype(FormatPrototype(isStatic, ret, name)) == Some(Prototype(isStatic, ret, name))
  {
    var p := FormatPrototype(isStatic, ret, name);
    PrototypeShape(isStatic, ret, name);
    var p1 := ret + " " + name + CallSuffix;
    assert (if isStatic then p[|StaticToken|..] else p) == p1;
    SplitDeclarationRoundTrip(ret, name);
  }

  /** A translated prototype records the method kind, the translated return
      type and the method name, and each can be read back from it. */
  lemma PrototypeRoundTrip(m: Method)
    requires WellFormedName(m.name)
    requires TranslateMethod(m).Success?
    ensures ParsePrototype(TranslateMethod(m).value.prototype)
         == Some(Prototype(m.kind == ClassMethod, TranslateType(m.returnType).value, TranslateMethodName(m.name)))
  {
    var name := TranslateMethodName(m.name);
    MethodNameVsClassName(m.name);
    assert ' ' !in name by { assert forall i :: 0 <= i < |name| ==> IsLetter(name[i]); }
    TranslatedTypeNotStatic(m.returnType);
    FormatPrototypeRoundTrip(m.kind == ClassMethod, TranslateType(m.returnType).value, name);
  }

  /** The loop of `translate_class` over one method list: each method is
      translated in order, and the first failure propagates. */
  function TranslateMethods(ms: seq<Method>): (r: Result<seq<MethodDict>, Error>)
    ensures r.Success? <==> forall i :: 0 <= i < |ms| ==> TranslateMethod(ms[i]).Success?
    ensures r.Success? ==>
      && |r.value| == |ms|
      && forall i :: 0 <= i < |ms| ==> TranslateMethod(ms[i]) == Success(r.value[i])
    ensures r.Failure? ==> exists i :: FirstFailureAt(ms, TranslateMethod, i, r.error)
  {
    MapResults(ms, TranslateMethod)
  }

  /** `translate_class`: the class name, then the instance methods and the
      class methods, each list translated element-wise in declaration order.
      The first failing instance method decides the error, then the first
      failing class method. */
  function TranslateClass(c: Class): (r: Result<ClassDict, Error>)
    ensures r.Success? <==>
      && (forall i :: 0 <= i < |c.instanceMethods| ==> TranslateMethod(c.instanceMethods[i]).Success?)
      && (forall i :: 0 <= i < |c.classMethods| ==> TranslateMethod(c.classMethods[i]).Success?)
    ensures r.Success? ==>
      && r.value.name == TranslateClassName(c.name)
      && |r.value.methods| == |c.instanceMethods|
      && (forall i :: 0 <= i < |c.instanceMethods| ==>
            TranslateMethod(c.instanceMethods[i]) == Success(r.value.methods[i]))
      && |r.value.staticMethods| == |c.classMethods|
      && (forall i :: 0 <= i < |c.classMethods| ==>
            TranslateMethod(c.classMethods[i]) == Success(r.value.staticMethods[i]))
    ensures r.Failure? ==>
      || (exists i :: FirstFailureAt(c.instanceMethods, TranslateMethod, i, r.error))
      || ((forall i :: 0 <= i < |c.instanceMethods| ==> TranslateMethod(c.instanceMethods[i]).Success?)
          && exists i :: FirstFailureAt(c.classMethods, TranslateMethod, i, r.error))
  {
    var methods :- TranslateMethods(c.instanceMethods);
    var staticMethods :- TranslateMethods(c.classMethods);
    Success(ClassDict(TranslateClassName(c.name), methods, staticMethods))
  }

  /** The record `translate_enum` builds for `e`: the enum name, and one
      entry per value in order whose `notLast` is false exactly at the last
      position. */
  predicate IsEnumTranslation(e: Enum, d: EnumDict) {
    && d.name == TranslateEnumName(e.name)
    && |d.values| == |e.values|
    && forall i :: 0 <= i < |e.values| ==>
         d.values[i] == EnumValueDict(TranslateEnumValueName(e.values[i].name), i != |e.values| - 1)
  }

  /** The enum record is determined by the enum: two translations of the
      same enum are equal. */
  lemma EnumTranslationUnique(e: Enum, d1: EnumDict, d2: EnumDict)
    requires IsEnumTranslation(e, d1) && IsEnumTranslation(e, d2)
    ensures d1 == d2
  {
    assert d1.values == d2.values;
  }

  /** `translate_enum` */
  method TranslateEnum(e: Enum) returns (d: EnumDict)
    ensures IsEnumTranslation(e, d)
    ensures |e.values| > 0 ==>
      && !d.values[|d.values| - 1].notLast
      && forall i :: 0 <= i < |d.values| - 1 ==> d.values[i].notLast
  {
    var values: seq<EnumValueDict> := [];
    var i := 0;
    while i < |e.values|
      invariant 0 <= i <= |e.values|
      invariant |values| == i
      invariant forall j :: 0 <= j < i ==>
        values[j] == EnumValueDict(TranslateEnumValueName(e.values[j].name), j != |e.values| - 1)
    {
      var valueDict := EnumValueDict(TranslateEnumValueName(e.values[i].name), i != |e.values| - 1);
      values := values + [valueDict];
      i := i + 1;
    }
    d := EnumDict(TranslateEnumName(e.name), values);
  }
}
