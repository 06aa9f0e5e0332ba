/** The type mapping of `CppTranslator` (`translate_type` and the base-type
    table `__abstract_base_type_to_cpp`), with a reader for the C++ type
    expressions it produces. */
module CppTypes {
  import opened Wrappers
  import opened Ascii
  import opened Strings
  import opened AbstractApi
  import opened CppNames
  import opened Errors

  const ConstToken: string := "const "
  const ReferenceToken: string := " &"
  const SharedPtrOpen: string := "std::shared_ptr<"
  const SharedPtrClose: string := ">"

  /** `__abstract_base_type_to_cpp`: the five primitive keys and nothing else. */
  function AbstractBaseTypeToCpp(atype: string): (r: Result<string, Error>)
    ensures r.Failure? ==> r.error == NotABaseType(atype)
  {
    if atype == "boolean" then Success("bool")
    else if atype == "character" then Success("char")
    else if atype == "integer" then Success("int")
    else if atype == "floatant" then Success("float")
    else if atype == "string" then Success("std::string")
    else Failure(NotABaseType(atype))
  }

  /** The C++ tokens of the table read back to their keys. */
  function CppToAbstractBaseType(token: string): (r: Option<string>)
  {
    match token
    case "bool" => Some("boolean")
    case "char" => Some("character")
    case "int" => Some("integer")
    case "float" => Some("floatant")
    case "std::string" => Some("string")
    case _ => None
  }

  /** The table is exactly the five listed pairs and it is a bijection
      between the keys and the tokens. */
  lemma BaseTypeTable(atype: string, token: string)
    ensures AbstractBaseTypeToCpp(atype).Success? <==>
      atype in {"boolean", "character", "integer", "floatant", "string"}
    ensures AbstractBaseTypeToCpp(atype) == Success(token) <==> CppToAbstractBaseType(token) == Some(atype)
  {
  }

  /** A table token with its optional qualifiers. */
  function QualifyPrimitive(isconst: bool, token: string, isreference: bool): (r: string)
  {
    (if isconst then ConstToken else "") + token + (if isreference then ReferenceToken else "")
  }

  /** The qualifiers of a primitive can be read off its translation: no table
      token starts like `const `, `static ` or the shared pointer, or ends
      like ` &`. */
  lemma QualifiedPrimitiveShape(isconst: bool, token: string, isreference: bool)
    requires CppToAbstractBaseType(token).Some?
    ensures var s := QualifyPrimitive(isconst, token, isreference);
      && (StartsWith(s, ConstToken) <==> isconst)
      && (EndsWith(s, ReferenceToken) <==> isreference)
      && !StartsWith(s, SharedPtrOpen)
      && s[..3] != "sta"
      && s != "void"
  {
    var s1 := token + (if isreference then ReferenceToken else "");
    var s := QualifyPrimitive(isconst, token, isreference);
    assert s == (if isconst then ConstToken else "") + s1;
    assert |token| >= 3 && token[|token| - 1] != '&';
    assert token[0] != 'c' || token[1] != 'o';
    assert token[0] == 's' ==> token[2] == 'd';
    if isconst {
      assert s[..|ConstToken|] == ConstToken;
      assert s[1] != 't';
    } else {
      assert s[0] == token[0] && s[1] == token[1];
      assert |s| >= 3 ==> s[2] == token[2];
    }
    if isreference {
      assert s[|s| - |ReferenceToken|..] == ReferenceToken;
    } else {
      assert s[|s| - 1] == token[|token| - 1];
    }
  }

  /** `translate_type`: `void` for an absent type, a shared pointer (with the
      `const` inside it) for an object type, and the table entry with the
      optional `const ` and ` &` for a primitive. */
  function TranslateType(t: Option<Type>): (r: Result<string, Error>)
    ensures t.None? ==> r == Success("void")
    ensures r.Failure? <==>
      t.Some? && t.value.base.PrimitiveType? && AbstractBaseTypeToCpp(t.value.base.atype).Failure?
    ensures r.Failure? ==> r.error == NotABaseType(t.value.base.atype)
    ensures t.Some? && t.value.base.ObjectType? ==>
      StartsWith(r.value, SharedPtrOpen) && EndsWith(r.value, SharedPtrClose)
    ensures t.Some? && t.value.base.ObjectType? ==>
      r == Success(SharedPtrOpen + (if t.value.isconst then ConstToken else "")
                   + TranslateClassName(t.value.base.className) + SharedPtrClose)
    ensures t.Some? && t.value.base.PrimitiveType? && r.Success? ==>
      (StartsWith(r.value, ConstToken) <==> t.value.isconst) &&
      (EndsWith(r.value, ReferenceToken) <==> t.value.isreference)
  {
    match t
    case None => Success("void")
    case Some(ty) =>
      match ty.base
      case ObjectType(className) =>
        var qualifier := if ty.isconst then ConstToken else "";
        var inner := qualifier + TranslateClassName(className);
        assert SharedPtrOpen + inner + SharedPtrClose
            == SharedPtrOpen + qualifier + TranslateClassName(className) + SharedPtrClose;
        Success(SharedPtrOpen + inner + SharedPtrClose)
      case PrimitiveType(atype) =>
        var token :- AbstractBaseTypeToCpp(atype);
        BaseTypeTable(atype, token);
        QualifiedPrimitiveShape(ty.isconst, token, ty.isreference);
        Success(QualifyPrimitive(ty.isconst, token, ty.isreference))
  }

  /** What `TranslateType` is expected to preserve: object types lose their
      `isreference` flag and the letter case of their class name. */
  function Normalize(t: Option<Type>): (r: Option<Type>)
  {
    match t
    case None => None
    case Some(ty) =>
      match ty.base
      case ObjectType(n) => Some(Type(ObjectType(Name(LowerWords(n.words))), ty.isconst, false))
      case PrimitiveType(_) => t
  }

  /** Reads a C++ type expression of the shapes `TranslateType` produces back
      into an abstract type (`Some(None)` for `void`). */
  function ParseCppType(s: string): (r: Option<Option<Type>>)
  {
    if s == "void" then Some(None)
    else if StartsWith(s, SharedPtrOpen) && |s| > |SharedPtrOpen| && EndsWith(s, SharedPtrClose) then
      var inner := s[|SharedPtrOpen|..|s| - 1];
      var isconst := StartsWith(inner, ConstToken);
      var name := if isconst then inner[|ConstToken|..] else inner;
      Some(Some(Type(ObjectType(Name(SplitPascal(name))), isconst, false)))
    else
      var isconst := StartsWith(s, ConstToken);
      var s1 := if isconst then s[|ConstToken|..] else s;
      var isreference := EndsWith(s1, ReferenceToken);
      var s2 := if isreference then s1[..|s1| - |ReferenceToken|] else s1;
      match CppToAbstractBaseType(s2)
      case Some(atype) => Some(Some(Type(PrimitiveType(atype), isconst, isreference)))
      case None => None
  }

  lemma ObjectTypeRoundTrip(ty: Type)
    requires ty.base.ObjectType? && WellFormedName(ty.base.className)
    ensures TranslateType(Some(ty)).Success?
    ensures ParseCppType(TranslateType(Some(ty)).value) == Some(Normalize(Some(ty)))
  {
    var n := ty.base.className;
    var c := TranslateClassName(n);
    ClassNameShape(n);
    ClassNameRoundTrip(n);
    var inner := (if ty.isconst then ConstToken else "") + c;
    var s := SharedPtrOpen + inner + SharedPtrClose;
    assert TranslateType(Some(ty)) == Success(s);
    assert s != "void" by { assert |s| > 4; }
    assert StartsWith(s, SharedPtrOpen) && EndsWith(s, SharedPtrClose);
    assert s[|SharedPtrOpen|..|s| - 1] == inner;
    if ty.isconst {
      assert inner[..|ConstToken|] == ConstToken;
      assert inner[|ConstToken|..] == c;
    } else {
      assert !StartsWith(inner, ConstToken) by { assert inner[0] != 'c'; }
    }
    assert StartsWith(inner, ConstToken) == ty.isconst;
    var name := if ty.isconst then inner[|ConstToken|..] else inner;
    assert name == c;
    assert ParseCppType(s) == Some(Some(Type(ObjectType(Name(SplitPascal(c))), ty.isconst, false)));
  }

  /** The ` &` suffix of a qualified table token can be read off and
      stripped. */
  lemma ReadReference(token: string, isreference: bool)
    requires CppToAbstractBaseType(token).Some?
    ensures var s1 := token + (if isreference then ReferenceToken else "");
      && (EndsWith(s1, ReferenceToken) <==> isreference)
      && (isreference ==> s1[..|s1| - |ReferenceToken|] == token)
      && !StartsWith(s1, ConstToken)
  {
    var s1 := token + (if isreference then ReferenceToken else "");
    QualifiedPrimitiveShape(false, token, isreference);
    assert QualifyPrimitive(false, token, isreference) == s1;
    if isreference {
      assert s1[..|s1| - |ReferenceToken|] == token;
    }
  }

  /** A table token with its qualifiers reads back to its key and the same
      qualifiers. */
  lemma ParseQualifiedPrimitive(isconst: bool, token: string, isreference: bool)
    requires CppToAbstractBaseType(token).Some?
    ensures ParseCppType(QualifyPrimitive(isconst, token, isreference))
         == Some(Some(Type(PrimitiveType(CppToAbstractBaseType(token).value), isconst, isreference)))
  {
    var s := QualifyPrimitive(isconst, token, isreference);
    QualifiedPrimitiveShape(isconst, token, isreference);
    ReadReference(token, isreference);
    var s1 := token + (if isreference then ReferenceToken else "");
    assert s == (if isconst then ConstToken else "") + s1;
    var rest := if StartsWith(s, ConstToken) then s[|ConstToken|..] else s;
    assert rest == s1;
    var s2 := if EndsWith(rest, ReferenceToken) then rest[..|rest| - |ReferenceToken|] else rest;
    assert s2 == token;
  }

  lemma PrimitiveTypeRoundTrip(ty: Type)
    requires ty.base.PrimitiveType? && TranslateType(Some(ty)).Success?
    ensures ParseCppType(TranslateType(Some(ty)).value) == Some(Normalize(Some(ty)))
  {
    var token := AbstractBaseTypeToCpp(ty.base.atype).value;
    BaseTypeTable(ty.base.atype, token);
    assert TranslateType(Some(ty)) == Success(QualifyPrimitive(ty.isconst, token, ty.isreference));
    ParseQualifiedPrimitive(ty.isconst, token, ty.isreference);
  }

  /** Every type `TranslateType` accepts is read back by `ParseCppType` up to
      `Normalize`: nothing but the object types' reference flag and name
      case is lost. */
  lemma TranslateTypeRoundTrip(t: Option<Type>)
    requires t.Some? && t.value.base.ObjectType? ==> WellFormedName(t.value.base.className)
    requires TranslateType(t).Success?
    ensures ParseCppType(TranslateType(t).value) == Some(Normalize(t))
  {
    match t
    case None =>
    case Some(ty) =>
      if ty.base.ObjectType? {
        ObjectTypeRoundTrip(ty);
      } else {
        PrimitiveTypeRoundTrip(ty);
      }
  }

  /** The reference flag has no effect on an object type. */
  lemma ObjectTypeIgnoresReference(n: Name, isconst: bool)
    ensures TranslateType(Some(Type(ObjectType(n), isconst, true)))
         == TranslateType(Some(Type(ObjectType(n), isconst, false)))
  {
  }

  /** No translated type starts with `static `, so a prototype's `static `
      prefix can only come from the method kind. */
  lemma TranslatedTypeNotStatic(t: Option<Type>)
    requires TranslateType(t).Success?
    ensures |TranslateType(t).value| >= 3 && TranslateType(t).value[..3] != "sta"
  {
    match t
    case None =>
      assert TranslateType(t).value[0] == 'v';
    case Some(ty) =>
      match ty.base
      case ObjectType(n) =>
        assert TranslateType(t).value[..3] == "std";
      case PrimitiveType(atype) =>
        var token := AbstractBaseTypeToCpp(atype).value;
        BaseTypeTable(atype, token);
        QualifiedPrimitiveShape(ty.isconst, token, ty.isreference);
  }
}
