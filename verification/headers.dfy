/** The header assembly of wrapper/cpp/genheaders.py: `ClassHeader` (include
    guard, file name, include sets), `EnumsHeader`, and the per-class loop of
    the driver with its failure isolation. */
module Headers {
  import opened Wrappers
  import opened Ascii
  import opened Strings
  import opened AbstractApi
  import opened Errors
  import opened CppNames
  import opened CppTypes
  import opened CppTranslator

  const GuardSuffix: string := "_HH"
  const HeaderExtension: string := ".hh"
  const MemoryInclude: string := "memory"

  /** `'_' + w.upper()` for every word, concatenated. */
  function UnderscoreUpperWords(ws: seq<string>): (r: string)
    ensures |r| == SumLengths(ws) + |ws|
    ensures (forall k :: 0 <= k < |ws| ==> IsWord(ws[k])) ==>
      forall i :: 0 <= i < |r| ==> r[i] == '_' || IsUpper(r[i])
  {
    if |ws| == 0 then "" else "_" + Upper(ws[0]) + UnderscoreUpperWords(ws[1..])
  }

  /** `_class_name_to_define`: the include-guard token, `_POINT_STYLE_HH`. */
  function ClassNameToDefine(n: Name): (r: string)
    ensures StartsWith(r, "_") && EndsWith(r, GuardSuffix)
    ensures |r| == SumLengths(n.words) + |n.words| + |GuardSuffix|
  {
    UnderscoreUpperWords(n.words) + GuardSuffix
  }

  /** The words lower-cased, with `_` before every word but the first. */
  function LowerWordsJoined(ws: seq<string>, first: bool): (r: string)
  {
    if |ws| == 0 then ""
    else (if first then "" else "_") + Lower(ws[0]) + LowerWordsJoined(ws[1..], false)
  }

  /** `_class_name_to_filename`: the header file name, `point_style.hh`. */
  function ClassNameToFilename(n: Name): (r: string)
    ensures EndsWith(r, HeaderExtension)
  {
    LowerWordsJoined(n.words, true) + HeaderExtension
  }

  /** The name `update_includes` records for a class: `'_'.join(words)`,
      neither lower-cased nor given an extension. */
  function IncludeName(n: Name): (r: string)
  {
    Join(n.words, "_")
  }

  lemma {:induction false} UnderscoreUpperIsJoin(ws: seq<string>)
    requires |ws| > 0
    ensures UnderscoreUpperWords(ws) == "_" + Join(UpperWords(ws), "_")
    decreases |ws|
  {
    if |ws| > 1 {
      UnderscoreUpperIsJoin(ws[1..]);
      assert UpperWords(ws[1..]) == UpperWords(ws)[1..];
    }
  }

  lemma UpperWordsHaveNoUnderscore(ws: seq<string>)
    requires forall k :: 0 <= k < |ws| ==> IsWord(ws[k])
    ensures forall k :: 0 <= k < |ws| ==> '_' !in UpperWords(ws)[k]
  {
    forall k | 0 <= k < |ws|
      ensures '_' !in UpperWords(ws)[k]
    {
      assert forall i :: 0 <= i < |ws[k]| ==> IsLetter(ws[k][i]);
    }
  }

  /** The guard token is `_`, the upper-cased words joined by `_`, and
      `_HH`; splitting its middle at `_` gives back the upper-cased words. */
  lemma DefineRoundTrip(n: Name)
    requires WellFormedName(n)
    ensures var r := ClassNameToDefine(n);
      && r == "_" + Join(UpperWords(n.words), "_") + GuardSuffix
      && Split(r[1..|r| - |GuardSuffix|], '_') == UpperWords(n.words)
      && forall i :: 0 <= i < |r| ==> r[i] == '_' || IsUpper(r[i])
  {
    var r := ClassNameToDefine(n);
    UnderscoreUpperIsJoin(n.words);
    UpperWordsHaveNoUnderscore(n.words);
    var joined := Join(UpperWords(n.words), "_");
    assert r[1..|r| - |GuardSuffix|] == joined;
    SplitJoin(UpperWords(n.words), '_');
  }

  lemma {:induction false} LowerWordsJoinedIsJoin(ws: seq<string>)
    requires |ws| > 0
    ensures LowerWordsJoined(ws, true) == Join(LowerWords(ws), "_")
    decreases |ws|
  {
    if |ws| > 1 {
      LowerWordsJoinedIsJoin(ws[1..]);
      assert LowerWords(ws[1..]) == LowerWords(ws)[1..];
      assert LowerWordsJoined(ws[1..], false) == "_" + LowerWordsJoined(ws[1..], true);
    }
  }

  lemma LowerWordsHaveNoUnderscore(ws: seq<string>)
    requires forall k :: 0 <= k < |ws| ==> IsWord(ws[k])
    ensures forall k :: 0 <= k < |ws| ==> '_' !in LowerWords(ws)[k] && IsWord(LowerWords(ws)[k])
  {
    forall k | 0 <= k < |ws|
      ensures '_' !in LowerWords(ws)[k] && IsWord(LowerWords(ws)[k])
    {
      assert forall i :: 0 <= i < |ws[k]| ==> IsLetter(ws[k][i]);
    }
  }

  lemma {:induction false} SumLengthsLower(ws: seq<string>)
    ensures SumLengths(LowerWords(ws)) == SumLengths(ws)
    decreases |ws|
  {
    if |ws| > 0 {
      SumLengthsLower(ws[1..]);
      assert LowerWords(ws[1..]) == LowerWords(ws)[1..];
    }
  }

  /** The file name is the lower-cased words joined by exactly one `_`
      between consecutive words (n - 1 underscores for n words), then `.hh`;
      splitting its stem at `_` gives back the lower-cased words. */
  lemma FilenameRoundTrip(n: Name)
    requires WellFormedName(n)
    ensures var r := ClassNameToFilename(n);
      && r == Join(LowerWords(n.words), "_") + HeaderExtension
      && Split(r[..|r| - |HeaderExtension|], '_') == LowerWords(n.words)
      && Count(r, '_') == |n.words| - 1
      && |r| == SumLengths(n.words) + |n.words| - 1 + |HeaderExtension|
  {
    var r := ClassNameToFilename(n);
    var lw := LowerWords(n.words);
    LowerWordsJoinedIsJoin(n.words);
    LowerWordsHaveNoUnderscore(n.words);
    assert r[..|r| - |HeaderExtension|] == Join(lw, "_");
    SplitJoin(lw, '_');
    JoinCountsSeparators(lw, '_');
    SumLengthsLower(n.words);
    CountConcat(Join(lw, "_"), HeaderExtension, '_');
    assert Count(HeaderExtension, '_') == 0;
  }

  /** Splitting an include name at `_` gives back the words of the class. */
  lemma IncludeNameRoundTrip(n: Name)
    requires WellFormedName(n)
    ensures Split(IncludeName(n), '_') == n.words
  {
    forall k | 0 <= k < |n.words|
      ensures '_' !in n.words[k]
    {
      assert forall i :: 0 <= i < |n.words[k]| ==> IsLetter(n.words[k][i]);
    }
    SplitJoin(n.words, '_');
  }

  /** For a lower-case name the include name is the file name without its
      `.hh`. */
  lemma IncludeNameIsFilenameStem(n: Name)
    requires LowerCaseName(n)
    ensures ClassNameToFilename(n) == IncludeName(n) + HeaderExtension
  {
    LowerCaseNameIsWellFormed(n);
    FilenameRoundTrip(n);
  }

  /** Whether `update_includes` sees an object return type. */
  predicate ReturnsObject(m: Method) {
    m.returnType.Some? && m.returnType.value.base.ObjectType?
  }

  /** The include name of the class a method returns. */
  function ReturnedInclude(m: Method): (r: string)
    requires ReturnsObject(m)
  {
    IncludeName(m.returnType.value.base.className)
  }

  /** The internal includes the class methods `ms` call for. */
  ghost function ObjectIncludes(ms: seq<Method>): set<string>
  {
    set i | 0 <= i < |ms| && ReturnsObject(ms[i]) :: ReturnedInclude(ms[i])
  }

  ghost predicate AnyReturnsObject(ms: seq<Method>) {
    exists i :: 0 <= i < |ms| && ReturnsObject(ms[i])
  }

  datatype Includes = Includes(internal: set<string>, external: set<string>)

  /** `update_includes`: scans the class methods only. A method without a
      return type raises (`.isobject` of `None`); an object return type adds
      `memory` to the external includes and the class's include name to the
      internal ones. */
  function UpdateIncludes(ms: seq<Method>): (r: Result<Includes, Error>)
    ensures r.Success? <==> forall i :: 0 <= i < |ms| ==> ms[i].returnType.Some?
    ensures r.Failure? ==> r.error == NoneHasNoIsObject
    ensures r.Success? ==> r.value.internal == ObjectIncludes(ms)
    ensures r.Success? ==>
      r.value.external == if AnyReturnsObject(ms) then {MemoryInclude} else {}
  {
    if |ms| == 0 then Success(Includes({}, {}))
    else if ms[0].returnType.None? then Failure(NoneHasNoIsObject)
    else
      var rest :- UpdateIncludes(ms[1..]);
      assert forall i :: 1 <= i < |ms| ==> ms[i] == ms[1..][i - 1];
      assert ObjectIncludes(ms) == ObjectIncludes(ms[1..]) + (if ReturnsObject(ms[0]) then {ReturnedInclude(ms[0])} else {}) by {
        forall x | x in ObjectIncludes(ms)
          ensures x in ObjectIncludes(ms[1..]) + (if ReturnsObject(ms[0]) then {ReturnedInclude(ms[0])} else {})
        {
          var i :| 0 <= i < |ms| && ReturnsObject(ms[i]) && ReturnedInclude(ms[i]) == x;
          if i > 0 {
            assert ms[1..][i - 1] == ms[i];
          }
        }
      }
      if ReturnsObject(ms[0]) then
        Success(Includes(rest.internal + {ReturnedInclude(ms[0])}, rest.external + {MemoryInclude}))
      else
        Success(rest)
  }

  /** Number of methods in `ms` that return an object. */
  function ObjectReturnCount(ms: seq<Method>): (k: nat)
    ensures k <= |ms|
  {
    if |ms| == 0 then 0 else (if ReturnsObject(ms[0]) then 1 else 0) + ObjectReturnCount(ms[1..])
  }

  /** The include sets hold no duplicates: there are never more internal
      includes than class methods returning an object, and at most one
      external include. */
  lemma {:induction false} IncludesBounded(ms: seq<Method>)
    requires UpdateIncludes(ms).Success?
    ensures |UpdateIncludes(ms).value.internal| <= ObjectReturnCount(ms)
    ensures |UpdateIncludes(ms).value.external| <= 1
    decreases |ms|
  {
    if |ms| > 0 {
      IncludesBounded(ms[1..]);
      var rest := UpdateIncludes(ms[1..]).value;
      if ReturnsObject(ms[0]) {
        assert |rest.internal + {ReturnedInclude(ms[0])}| <= |rest.internal| + 1;
      }
    }
  }

  /** Two class methods returning the same class give one internal include. */
  lemma SharedReturnTypeIncludedOnce()
    ensures var ret := Some(Type(ObjectType(Name(["point", "style"])), false, false));
      UpdateIncludes([Method(Name(["create"]), ret, ClassMethod), Method(Name(["clone"]), ret, ClassMethod)])
        == Success(Includes({"point_style"}, {MemoryInclude}))
  {
    var ret := Some(Type(ObjectType(Name(["point", "style"])), false, false));
    assert IncludeName(Name(["point", "style"])) == "point_style";
    var ms := [Method(Name(["create"]), ret, ClassMethod), Method(Name(["clone"]), ret, ClassMethod)];
    assert ms[1..][1..] == [];
    assert UpdateIncludes(ms[1..][1..]) == Success(Includes({}, {}));
    assert ms[1..][0] == ms[1] && ReturnsObject(ms[1]) && ms[1].returnType.Some?;
    assert ReturnedInclude(ms[1]) == "point_style";
    assert {} + {"point_style"} == {"point_style"};
    assert UpdateIncludes(ms[1..]) == Success(Includes({"point_style"}, {MemoryInclude}));
  }

  /** The renderable unit of one class (`ClassHeader`). */
  datatype ClassHeader = ClassHeader(
    cls: ClassDict,
    define: string,
    filename: string,
    internalIncludes: set<string>,
    externalIncludes: set<string>)

  /** `ClassHeader.__init__`: translate the class (which may raise), compute
      the guard and the file name, then the includes (which may raise). */
  function MakeClassHeader(c: Class): (r: Result<ClassHeader, Error>)
    ensures r.Success? <==>
      TranslateClass(c).Success? && forall i :: 0 <= i < |c.classMethods| ==> c.classMethods[i].returnType.Some?
    ensures r.Failure? ==>
      if TranslateClass(c).Failure? then r.error == TranslateClass(c).error else r.error == NoneHasNoIsObject
    ensures r.Success? ==>
      && r.value.cls == TranslateClass(c).value
      && r.value.define == ClassNameToDefine(c.name)
      && r.value.filename == ClassNameToFilename(c.name)
      && r.value.internalIncludes == ObjectIncludes(c.classMethods)
      && r.value.externalIncludes == (if AnyReturnsObject(c.classMethods) then {MemoryInclude} else {})
  {
    var cls :- TranslateClass(c);
    var includes :- UpdateIncludes(c.classMethods);
    Success(ClassHeader(cls, ClassNameToDefine(c.name), ClassNameToFilename(c.name),
                        includes.internal, includes.external))
  }

  /** Instance methods never contribute includes: two classes with the same
      class methods get the same include sets. */
  lemma InstanceMethodsDoNotAffectIncludes(c: Class, instanceMethods: seq<Method>)
    ensures var h, h' := MakeClassHeader(c), MakeClassHeader(c.(instanceMethods := instanceMethods));
      h.Success? && h'.Success? ==>
        h'.value.internalIncludes == h.value.internalIncludes &&
        h'.value.externalIncludes == h.value.externalIncludes
  {
  }

  /** A class method without a return type translates to a `void`
      prototype, but the include scan still rejects its class. */
  lemma VoidClassMethodRejected()
    ensures var m := Method(Name(["reset"]), None, ClassMethod);
      && TranslateMethod(m) == Success(MethodDict("static void reset();"))
      && MakeClassHeader(Class(Name(["core"]), [], [m])) == Failure(NoneHasNoIsObject)
  {
    var m := Method(Name(["reset"]), None, ClassMethod);
    assert TranslateMethodName(m.name) == "reset";
    assert FormatPrototype(true, "void", "reset") == "static void reset();";
  }

  lemma PointStyleTitles()
    ensures Title("point") == "Point" && Title("style") == "Style"
  {
    TitleOfWord("point");
    assert "point"[1..] == "oint";
    LowerOfLowerWord("oint");
    TitleOfWord("style");
    assert "style"[1..] == "tyle";
    LowerOfLowerWord("tyle");
  }

  lemma PointStyleUppers()
    ensures Upper("point") == "POINT" && Upper("style") == "STYLE"
  {
    assert forall i :: 0 <= i < 5 ==> Upper("point")[i] == "POINT"[i];
    assert forall i :: 0 <= i < 5 ==> Upper("style")[i] == "STYLE"[i];
  }

  lemma PointStyleLowers()
    ensures Lower("point") == "point" && Lower("style") == "style"
  {
    LowerOfLowerWord("point");
    LowerOfLowerWord("style");
  }

  lemma PointStyleClassName()
    ensures TranslateClassName(Name(["point", "style"])) == "PointStyle"
  {
    PointStyleTitles();
    var ws: seq<string> := ["point", "style"];
    assert ws[1..] == ["style"] && ["style"][1..] == [];
    assert TitleCaseWords(["style"]) == "Style" + TitleCaseWords([]);
    assert TitleCaseWords(ws) == "Point" + "Style";
  }

  lemma PointStyleDefine()
    ensures ClassNameToDefine(Name(["point", "style"])) == "_POINT_STYLE_HH"
  {
    PointStyleUppers();
    var ws: seq<string> := ["point", "style"];
    assert ws[1..] == ["style"] && ["style"][1..] == [];
    var tail := UnderscoreUpperWords(["style"]);
    assert tail == "_" + "STYLE" + UnderscoreUpperWords([]);
    assert tail == "_STYLE";
    var u := UnderscoreUpperWords(ws);
    assert u == "_" + "POINT" + tail;
    assert u + GuardSuffix == "_POINT_STYLE_HH";
  }

  lemma PointStyleFilename()
    ensures ClassNameToFilename(Name(["point", "style"])) == "point_style.hh"
  {
    PointStyleLowers();
    var ws: seq<string> := ["point", "style"];
    assert ws[1..] == ["style"] && ["style"][1..] == [];
    var tail := LowerWordsJoined(["style"], false);
    assert tail == "_" + "style" + LowerWordsJoined([], false);
    assert tail == "_style";
    var stem := LowerWordsJoined(ws, true);
    assert stem == "" + "point" + tail;
    assert stem + HeaderExtension == "point_style.hh";
  }

  lemma PointStyleIncludeName()
    ensures IncludeName(Name(["point", "style"])) == "point_style"
  {
    assert ["point", "style"][1..] == ["style"];
  }

  /** The class method `[create]` returning a `[point, style]` object. */
  function PointStyleCreate(): (r: Method)
  {
    Method(Name(["create"]), Some(Type(ObjectType(Name(["point", "style"])), false, false)), ClassMethod)
  }

  /** A plain (non-const) object type translates to a bare shared pointer. */
  lemma PlainObjectType(n: Name, isreference: bool)
    ensures TranslateType(Some(Type(ObjectType(n), false, isreference)))
         == Success(SharedPtrOpen + TranslateClassName(n) + SharedPtrClose)
  {
    assert "" + TranslateClassName(n) == TranslateClassName(n);
  }

  lemma PointStyleSharedPtr()
    ensures SharedPtrOpen + "PointStyle" + SharedPtrClose == "std::shared_ptr<PointStyle>"
  {
  }

  lemma PointStyleCreateReturnType()
    ensures TranslateType(PointStyleCreate().returnType) == Success("std::shared_ptr<PointStyle>")
  {
    var n := Name(["point", "style"]);
    PlainObjectType(n, false);
    PointStyleClassName();
    PointStyleSharedPtr();
  }

  lemma PointStyleCreateName()
    ensures TranslateMethodName(PointStyleCreate().name) == "create"
    ensures FormatPrototype(true, "std::shared_ptr<PointStyle>", "create")
         == "static std::shared_ptr<PointStyle> create();"
  {
    assert ["create"][1..] == [];
  }

  lemma PointStyleCreatePrototype()
    ensures TranslateMethod(PointStyleCreate())
         == Success(MethodDict("static std::shared_ptr<PointStyle> create();"))
  {
    PointStyleCreateReturnType();
    PointStyleCreateName();
  }

  lemma PointStyleCreateIncludes()
    ensures UpdateIncludes([PointStyleCreate()]) == Success(Includes({"point_style"}, {MemoryInclude}))
  {
    PointStyleIncludeName();
    var ms := [PointStyleCreate()];
    assert ms[1..] == [];
    assert UpdateIncludes(ms[1..]) == Success(Includes({}, {}));
    assert ReturnsObject(ms[0]);
    assert ReturnedInclude(ms[0]) == "point_style";
    assert {} + {"point_style"} == {"point_style"};
    assert {} + {MemoryInclude} == {MemoryInclude};
  }

  lemma PointStyleClassDict()
    ensures TranslateClass(Class(Name(["point", "style"]), [], [PointStyleCreate()]))
         == Success(ClassDict("PointStyle", [], [MethodDict("static std::shared_ptr<PointStyle> create();")]))
  {
    var ms := [PointStyleCreate()];
    PointStyleClassName();
    PointStyleCreatePrototype();
    assert ms[1..] == [];
    assert TranslateMethods(ms[1..]) == Success([]);
    var d := MethodDict("static std::shared_ptr<PointStyle> create();");
    assert TranslateMethod(ms[0]) == Success(d);
    assert [d] + [] == [d];
    assert TranslateMethods(ms) == Success([MethodDict("static std::shared_ptr<PointStyle> create();")]);
  }

  /** The class `[point, style]` with one class method `[create]` returning
      its own type: a static shared-pointer prototype, the guard, the file
      name and the two includes. */
  lemma PointStyleHeader()
    ensures MakeClassHeader(Class(Name(["point", "style"]), [], [PointStyleCreate()])) == Success(ClassHeader(
        ClassDict("PointStyle", [], [MethodDict("static std::shared_ptr<PointStyle> create();")]),
        "_POINT_STYLE_HH", "point_style.hh", {"point_style"}, {MemoryInclude}))
  {
    PointStyleClassDict();
    PointStyleDefine();
    PointStyleFilename();
    PointStyleCreateIncludes();
  }

  /** The unit aggregating all enums (`EnumsHeader`). */
  datatype EnumsHeader = EnumsHeader(enums: seq<EnumDict>)

  /** `EnumsHeader.add_enum` */
  method AddEnum(h: EnumsHeader, e: Enum) returns (h': EnumsHeader)
    ensures |h'.enums| == |h.enums| + 1
    ensures h'.enums[..|h.enums|] == h.enums
    ensures IsEnumTranslation(e, h'.enums[|h.enums|])
  {
    var d := TranslateEnum(e);
    h' := EnumsHeader(h.enums + [d]);
  }

  /** Appending the next enum's translation keeps the aggregate in step
      with the enums. */
  lemma TranslationsExtend(es: seq<Enum>, ds: seq<EnumDict>, d: EnumDict)
    requires |ds| < |es|
    requires forall j :: 0 <= j < |ds| ==> IsEnumTranslation(es[j], ds[j])
    requires IsEnumTranslation(es[|ds|], d)
    ensures forall j :: 0 <= j <= |ds| ==> IsEnumTranslation(es[j], (ds + [d])[j])
  {
    forall j | 0 <= j <= |ds|
      ensures IsEnumTranslation(es[j], (ds + [d])[j])
    {
      if j < |ds| {
        assert (ds + [d])[j] == ds[j];
      }
    }
  }

  /** The driver's enum loop: one translated enum per enum, in order. */
  method BuildEnumsHeader(es: seq<Enum>) returns (h: EnumsHeader)
    ensures |h.enums| == |es|
    ensures forall i :: 0 <= i < |es| ==> IsEnumTranslation(es[i], h.enums[i])
  {
    h := EnumsHeader([]);
    var i := 0;
    while i < |es|
      invariant 0 <= i <= |es|
      invariant |h.enums| == i
      invariant forall j :: 0 <= j < i ==> IsEnumTranslation(es[j], h.enums[j])
    {
      var h0 := h;
      h := AddEnum(h, es[i]);
      assert h.enums == h0.enums + [h.enums[i]];
      TranslationsExtend(es, h0.enums, h.enums[i]);
      i := i + 1;
    }
  }

  /** What a loop with per-item failure isolation produces: the results of
      the items that succeeded, in order, and the items that failed with
      their errors, in order. */
  datatype Report<T, U, E> = Report(built: seq<U>, skipped: seq<(T, E)>)

  /** Applies `f` to every item, keeping going after a failure. */
  function RunIsolated<T, U, E>(xs: seq<T>, f: T -> Result<U, E>): (r: Report<T, U, E>)
    ensures |r.built| + |r.skipped| == |xs|
  {
    if |xs| == 0 then Report([], [])
    else
      var rest := RunIsolated(xs[1..], f);
      match f(xs[0])
      case Success(u) => Report([u] + rest.built, rest.skipped)
      case Failure(e) => Report(rest.built, [(xs[0], e)] + rest.skipped)
  }

  /** Every item that succeeds has its result in the report, every item
      that fails is reported with its error, and nothing else is built. */
  lemma {:induction false} RunIsolatedKeepsGoing<T, U, E>(xs: seq<T>, f: T -> Result<U, E>)
    ensures var r := RunIsolated(xs, f);
      && (forall i :: 0 <= i < |xs| && f(xs[i]).Success? ==> f(xs[i]).value in r.built)
      && (forall i :: 0 <= i < |xs| && f(xs[i]).Failure? ==> (xs[i], f(xs[i]).error) in r.skipped)
      && (forall u :: u in r.built ==> exists i :: 0 <= i < |xs| && f(xs[i]) == Success(u))
      && (forall p :: p in r.skipped ==> p.0 in xs && f(p.0) == Failure(p.1))
    decreases |xs|
  {
    if |xs| > 0 {
      RunIsolatedKeepsGoing(xs[1..], f);
      var r := RunIsolated(xs, f);
      var rest := RunIsolated(xs[1..], f);
      forall i | 1 <= i < |xs|
        ensures xs[i] == xs[1..][i - 1]
      {
      }
      forall p | p in r.skipped
        ensures p.0 in xs && f(p.0) == Failure(p.1)
      {
        if p !in rest.skipped {
          assert p == (xs[0], f(xs[0]).error);
        } else {
          assert p.0 in xs[1..];
        }
      }
      forall u | u in r.built
        ensures exists i :: 0 <= i < |xs| && f(xs[i]) == Success(u)
      {
        if u !in rest.built {
          assert f(xs[0]) == Success(u);
        } else {
          var i :| 0 <= i < |xs[1..]| && f(xs[1..][i]) == Success(u);
          assert f(xs[i + 1]) == Success(u);
        }
      }
    }
  }

  /** The loop is a left-to-right fold: running two batches one after the
      other gives the concatenation of their reports. */
  lemma {:induction false} RunIsolatedAppend<T, U, E>(a: seq<T>, b: seq<T>, f: T -> Result<U, E>)
    ensures RunIsolated(a + b, f).built == RunIsolated(a, f).built + RunIsolated(b, f).built
    ensures RunIsolated(a + b, f).skipped == RunIsolated(a, f).skipped + RunIsolated(b, f).skipped
    decreases |a|
  {
    if |a| == 0 {
      assert a + b == b;
    } else {
      assert (a + b)[1..] == a[1..] + b;
      assert (a + b)[0] == a[0];
      RunIsolatedAppend(a[1..], b, f);
    }
  }

  /** Positions listed in strictly increasing order. */
  ghost predicate Increasing(idx: seq<int>)
  {
    forall j, k :: 0 <= j < k < |idx| ==> idx[j] < idx[k]
  }

  /** `idx` lists, in increasing order, exactly the positions of the items
      `f` accepts, and `built` holds their results at those positions. */
  ghost predicate BuiltInOrder<T, U, E>(xs: seq<T>, f: T -> Result<U, E>, built: seq<U>, idx: seq<int>)
  {
    && |idx| == |built|
    && (forall j :: 0 <= j < |idx| ==> 0 <= idx[j] < |xs| && f(xs[idx[j]]) == Success(built[j]))
    && Increasing(idx)
    && (forall i :: 0 <= i < |xs| && f(xs[i]).Success? ==> i in idx)
  }

  /** `idx` lists, in increasing order, exactly the positions of the items
      `f` rejects, and `skipped` pairs each of them with its error. */
  ghost predicate SkippedInOrder<T, U, E>(xs: seq<T>, f: T -> Result<U, E>, skipped: seq<(T, E)>, idx: seq<int>)
  {
    && |idx| == |skipped|
    && (forall j :: 0 <= j < |idx| ==>
          0 <= idx[j] < |xs| && skipped[j].0 == xs[idx[j]] && f(xs[idx[j]]) == Failure(skipped[j].1))
    && Increasing(idx)
    && (forall i :: 0 <= i < |xs| && f(xs[i]).Failure? ==> i in idx)
  }

  /** Every position moved one item to the right. */
  function Shift(idx: seq<int>): (r: seq<int>)
    ensures |r| == |idx| && forall j :: 0 <= j < |idx| ==> r[j] == idx[j] + 1
  {
    seq(|idx|, j requires 0 <= j < |idx| => idx[j] + 1)
  }

  /** Shifting keeps the order, and position 0 can go in front of it. */
  lemma ShiftIncreasing(idx: seq<int>)
    requires Increasing(idx) && forall j :: 0 <= j < |idx| ==> 0 <= idx[j]
    ensures Increasing(Shift(idx)) && Increasing([0] + Shift(idx))
  {
    var sh := Shift(idx);
    var ix := [0] + sh;
    forall j, k | 0 <= j < k < |ix|
      ensures ix[j] < ix[k]
    {
      assert ix[k] == sh[k - 1];
      if j > 0 {
        assert ix[j] == sh[j - 1];
      }
    }
  }

  /** The positions of the tail, shifted, are the tail's positions in the
      whole sequence. */
  lemma {:induction false} ShiftedPositions<T, U, E>(xs: seq<T>, f: T -> Result<U, E>, idx: seq<int>, ok: bool)
    requires |xs| > 0
    requires forall j :: 0 <= j < |idx| ==> 0 <= idx[j] < |xs| - 1
    requires forall i :: 0 <= i < |xs| - 1 && f(xs[1..][i]).Success? == ok ==> i in idx
    ensures forall j :: 0 <= j < |idx| ==> xs[Shift(idx)[j]] == xs[1..][idx[j]]
    ensures forall i :: 1 <= i < |xs| && f(xs[i]).Success? == ok ==> i in Shift(idx)
  {
    var sh := Shift(idx);
    forall i | 1 <= i < |xs| && f(xs[i]).Success? == ok
      ensures i in sh
    {
      assert xs[i] == xs[1..][i - 1];
      var j :| 0 <= j < |idx| && idx[j] == i - 1;
      assert sh[j] == i;
    }
  }

  /** The positions and results of the tail, with the accepted first item
      in front, still match item by item. */
  lemma {:induction false} AcceptedPositions<T, U, E>(xs: seq<T>, f: T -> Result<U, E>, built: seq<U>, idx: seq<int>)
    requires |xs| > 0 && f(xs[0]).Success? && BuiltInOrder(xs[1..], f, built, idx)
    ensures var ix, b := [0] + Shift(idx), [f(xs[0]).value] + built;
      forall j :: 0 <= j < |ix| ==> 0 <= ix[j] < |xs| && f(xs[ix[j]]) == Success(b[j])
  {
    var sh := Shift(idx);
    var b := [f(xs[0]).value] + built;
    var ix := [0] + sh;
    forall j | 0 <= j < |ix|
      ensures 0 <= ix[j] < |xs| && f(xs[ix[j]]) == Success(b[j])
    {
      if j > 0 {
        assert ix[j] == sh[j - 1] && b[j] == built[j - 1];
        assert xs[sh[j - 1]] == xs[1..][idx[j - 1]];
      }
    }
  }

  /** An accepted first item goes in front of the tail's results. */
  lemma {:induction false} BuiltAcceptedStep<T, U, E>(xs: seq<T>, f: T -> Result<U, E>, built: seq<U>, idx: seq<int>)
    requires |xs| > 0 && f(xs[0]).Success? && BuiltInOrder(xs[1..], f, built, idx)
    ensures BuiltInOrder(xs, f, [f(xs[0]).value] + built, [0] + Shift(idx))
  {
    var sh := Shift(idx);
    ShiftIncreasing(idx);
    ShiftedPositions(xs, f, idx, true);
    AcceptedPositions(xs, f, built, idx);
    var ix := [0] + sh;
    forall i | 0 <= i < |xs| && f(xs[i]).Success?
      ensures i in ix
    {
      if i == 0 {
        assert ix[0] == 0;
      } else {
        assert i in sh && ix[1..] == sh;
      }
    }
  }

  /** A rejected first item adds no result. */
  lemma {:induction false} BuiltRejectedStep<T, U, E>(xs: seq<T>, f: T -> Result<U, E>, built: seq<U>, idx: seq<int>)
    requires |xs| > 0 && f(xs[0]).Failure? && BuiltInOrder(xs[1..], f, built, idx)
    ensures BuiltInOrder(xs, f, built, Shift(idx))
  {
    ShiftIncreasing(idx);
    ShiftedPositions(xs, f, idx, true);
  }

  /** The positions and entries of the tail, with the rejected first item
      in front, still match item by item. */
  lemma {:induction false} RejectedPositions<T, U, E>(xs: seq<T>, f: T -> Result<U, E>, skipped: seq<(T, E)>, idx: seq<int>)
    requires |xs| > 0 && f(xs[0]).Failure? && SkippedInOrder(xs[1..], f, skipped, idx)
    ensures var ix, sk := [0] + Shift(idx), [(xs[0], f(xs[0]).error)] + skipped;
      forall j :: 0 <= j < |ix| ==>
        0 <= ix[j] < |xs| && sk[j].0 == xs[ix[j]] && f(xs[ix[j]]) == Failure(sk[j].1)
  {
    var sh := Shift(idx);
    var sk := [(xs[0], f(xs[0]).error)] + skipped;
    var ix := [0] + sh;
    forall j | 0 <= j < |ix|
      ensures 0 <= ix[j] < |xs| && sk[j].0 == xs[ix[j]] && f(xs[ix[j]]) == Failure(sk[j].1)
    {
      if j > 0 {
        assert ix[j] == sh[j - 1] && sk[j] == skipped[j - 1];
        assert xs[sh[j - 1]] == xs[1..][idx[j - 1]];
      }
    }
  }

  /** A rejected first item goes in front of the tail's skipped entries. */
  lemma {:induction false} SkippedRejectedStep<T, U, E>(xs: seq<T>, f: T -> Result<U, E>, skipped: seq<(T, E)>, idx: seq<int>)
    requires |xs| > 0 && f(xs[0]).Failure? && SkippedInOrder(xs[1..], f, skipped, idx)
    ensures SkippedInOrder(xs, f, [(xs[0], f(xs[0]).error)] + skipped, [0] + Shift(idx))
  {
    var sh := Shift(idx);
    ShiftIncreasing(idx);
    ShiftedPositions(xs, f, idx, false);
    RejectedPositions(xs, f, skipped, idx);
    var ix := [0] + sh;
    forall i | 0 <= i < |xs| && f(xs[i]).Failure?
      ensures i in ix
    {
      if i == 0 {
        assert ix[0] == 0;
      } else {
        assert i in sh && ix[1..] == sh;
      }
    }
  }

  /** An accepted first item adds no skipped entry. */
  lemma {:induction false} SkippedAcceptedStep<T, U, E>(xs: seq<T>, f: T -> Result<U, E>, skipped: seq<(T, E)>, idx: seq<int>)
    requires |xs| > 0 && f(xs[0]).Success? && SkippedInOrder(xs[1..], f, skipped, idx)
    ensures SkippedInOrder(xs, f, skipped, Shift(idx))
  {
    ShiftIncreasing(idx);
    ShiftedPositions(xs, f, idx, false);
  }

  /** The report keeps item order: `built` is the results of the accepted
      items and `skipped` the rejected items with their errors, each in the
      order the items were given. */
  lemma {:induction false} RunIsolatedInOrder<T, U, E>(xs: seq<T>, f: T -> Result<U, E>)
    ensures exists idx :: BuiltInOrder(xs, f, RunIsolated(xs, f).built, idx)
    ensures exists idx :: SkippedInOrder(xs, f, RunIsolated(xs, f).skipped, idx)
    decreases |xs|
  {
    if |xs| == 0 {
      assert RunIsolated(xs, f) == Report([], []);
      assert BuiltInOrder(xs, f, [], []);
      assert SkippedInOrder(xs, f, [], []);
    } else {
      RunIsolatedInOrder(xs[1..], f);
      var rest := RunIsolated(xs[1..], f);
      var bi :| BuiltInOrder(xs[1..], f, rest.built, bi);
      var si :| SkippedInOrder(xs[1..], f, rest.skipped, si);
      if f(xs[0]).Success? {
        BuiltAcceptedStep(xs, f, rest.built, bi);
        SkippedAcceptedStep(xs, f, rest.skipped, si);
        assert BuiltInOrder(xs, f, RunIsolated(xs, f).built, [0] + Shift(bi));
        assert SkippedInOrder(xs, f, RunIsolated(xs, f).skipped, Shift(si));
      } else {
        BuiltRejectedStep(xs, f, rest.built, bi);
        SkippedRejectedStep(xs, f, rest.skipped, si);
        assert BuiltInOrder(xs, f, RunIsolated(xs, f).built, Shift(bi));
        assert SkippedInOrder(xs, f, RunIsolated(xs, f).skipped, [0] + Shift(si));
      }
    }
  }

  /** The driver's `try`/`except` loop over the classes: a class whose
      header cannot be built is recorded with its error and skipped. */
  function GenerateClassHeaders(classes: seq<Class>): (r: Report<Class, ClassHeader, Error>)
    ensures |r.built| + |r.skipped| == |classes|
  {
    RunIsolated(classes, MakeClassHeader)
  }

  /** One failing item does not stop the others (three items, the middle
      one failing: the other two are still built, in order, and only the
      middle one is skipped). */
  lemma OneFailingOfThree<T, U, E>(a: T, b: T, c: T, f: T -> Result<U, E>)
    requires f(a).Success? && f(b).Failure? && f(c).Success?
    ensures RunIsolated([a, b, c], f).built == [f(a).value, f(c).value]
    ensures RunIsolated([a, b, c], f).skipped == [(b, f(b).error)]
  {
    var rc := RunIsolated([c], f);
    assert [c][1..] == [];
    assert rc == Report([f(c).value], []);
    var rbc := RunIsolated([b, c], f);
    assert [b, c][1..] == [c];
    assert rbc == Report([f(c).value], [(b, f(b).error)]);
    assert [a, b, c][1..] == [b, c];
  }
}
