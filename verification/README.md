# C++ header translation layer of the linphone wrapper generator

This project is a Dafny model of the translation layer in
`wrapper/cpp/genheaders.py`. That layer takes an abstract, language-neutral
API (names as word sequences, object and primitive types, instance and class
methods, enums) and turns it into the flat records that the C++ header
templates render. The model covers:

- the name conventions of `CppTranslator`: PascalCase for classes, enums and
  enum values (`[point, style]` → `PointStyle`), and lowerCamelCase for
  methods (`[set, delay]` → `setDelay`);
- the type mapper `translate_type` and its five-entry base-type table;
- the entity translators for methods, classes and enums;
- `ClassHeader`, which computes the include guard (`_POINT_STYLE_HH`), the
  file name (`point_style.hh`) and the internal and external include sets;
- `EnumsHeader`, which aggregates the enums;
- the driver's per-class loop, which skips a class that fails and goes on.

Every operation is a pure function or a short method over immutable
datatypes (module `AbstractApi`). The two exceptions the Python code can
raise are values of `Errors.Error`, carried in a `Wrappers.Result`:

- `NotABaseType` is the `RuntimeError` raised for an unknown primitive key.
- `NoneHasNoIsObject` is the `AttributeError` raised when the include scan
  reads `.isobject` on an absent return type.

The model assumes that each word of a name is a non-empty run of ASCII
letters (`AbstractApi.WellFormedName`). Under that assumption, Python's
`str.title()` upper-cases the first letter and lower-cases the rest
(`Ascii.TitleOfWord`). The conversions are still defined on every string:
they follow Python on ASCII strings and leave every other character
unchanged.

Each convention is paired with an inverse, and lemmas prove the round trips:

- `SplitPascal` reads a PascalCase class, enum or enum-value name back into
  its words, and a lowerCamelCase method name of a lower-case name too.
- `Split` on `_` reads back the guard, the file name and the include names.
- `ParseCppType` reads back a C++ type.
- `ParsePrototype` reads back a method prototype.

The round trips show what each convention keeps and what it drops. The class
name keeps the words and drops only letter case. The type keeps everything
except, for an object type, its reference flag and the letter case of its
class name.

The model keeps these behaviours of the code as written:

- `const` goes inside the wrapper: `std::shared_ptr<const Foo>`.
- The floating-point key is `floatant`.
- The method convention keeps the first word exactly as written; it does not
  lower-case it.
- The internal include of a class is `'_'.join(words)`, with no lower-casing
  and no `.hh` (for example `point_style`, not `point_style.hh`). For a
  lower-case name this is the file name without `.hh`
  (`Headers.IncludeNameIsFilenameStem`).
- Only class methods are scanned for includes.
- A class method without a return type translates to a `static void …();`
  prototype. The include scan then fails on that method, so the driver skips
  the whole class. The model keeps this behaviour
  (`Headers.VoidClassMethodRejected`).

## Model

| member | source | states |
|---|---|---|
| Ascii.TitleFrom | wrapper/cpp/genheaders.py:69 | `title()` keeps the length of the word, and a character is a letter after `title()` exactly when it was one before |
| Ascii.TitleOfWord | wrapper/cpp/genheaders.py:69 | on a word of ASCII letters, `title()` upper-cases the first letter and lower-cases the rest |
| CppNames.TitleOfLowerWord | wrapper/cpp/genheaders.py:69 | on a lower-case word, `title()` changes only the first letter, and lower-casing that capital gives the letter back |
| CppNames.TranslateClassName | wrapper/cpp/genheaders.py:66-70 | the class name is as long as all the words together |
| CppNames.ClassNameRoundTrip | wrapper/cpp/genheaders.py:66-70 | splitting the class name at its capitals gives back the words, lower-cased: the convention loses only letter case |
| CppNames.ClassNameInjective | wrapper/cpp/genheaders.py:66-70 | two lower-case names with the same class name are the same name |
| CppNames.ClassNameShape | wrapper/cpp/genheaders.py:66-70 | a well-formed name gives a non-empty class name of letters that starts with a capital |
| CppNames.TranslateEnumName | wrapper/cpp/genheaders.py:72-73 | the enum name uses the class convention: for a well-formed name it is a non-empty run of letters starting with a capital, as long as the words, that reads back to the lower-cased words |
| CppNames.TranslateEnumValueName | wrapper/cpp/genheaders.py:75-76 | the enum-value name uses the class convention: for a well-formed name it is a non-empty run of letters starting with a capital, as long as the words, that reads back to the lower-cased words |
| CppNames.TranslateMethodName | wrapper/cpp/genheaders.py:78-87 | the method name is as long as all the words together and starts with the first word unchanged |
| CppNames.MethodNameVsClassName | wrapper/cpp/genheaders.py:78-87 | the method name is as long as the class name, keeps the first word verbatim, equals the class name after it, and is made of letters |
| CppNames.MethodNameOfLowerFirstWord | wrapper/cpp/genheaders.py:78-87 | for a lower-case first word, the method name is the class name with its first letter lower-cased |
| CppNames.MethodNameRoundTrip | wrapper/cpp/genheaders.py:78-87 | for a lower-case name, splitting the method name at its capitals gives back the words |
| CppTypes.AbstractBaseTypeToCpp | wrapper/cpp/genheaders.py:89-102 | a failed lookup raises the error that names the unknown key |
| CppTypes.BaseTypeTable | wrapper/cpp/genheaders.py:89-102 | the lookup succeeds for exactly boolean, character, integer, floatant and string; it maps them to bool, char, int, float and std::string, and the table is a bijection with its inverse |
| CppTypes.QualifiedPrimitiveShape | wrapper/cpp/genheaders.py:56-62 | a translated primitive starts with `const ` exactly when the type is const and ends with ` &` exactly when it is a reference |
| CppTypes.TranslateType | wrapper/cpp/genheaders.py:47-64 | an absent type gives `void`; an object type always gives `std::shared_ptr<` + `const ` (for a const type) + the class name + `>`; translation fails exactly on an unknown primitive key, with that key as the error; for a primitive, the const and reference flags can be read off the result |
| CppTypes.TranslateTypeRoundTrip | wrapper/cpp/genheaders.py:47-64 | reading a translated type back gives the type, except that an object type loses its reference flag and the letter case of its class name |
| CppTypes.ObjectTypeIgnoresReference | wrapper/cpp/genheaders.py:50-55 | the reference flag has no effect on an object type |
| CppTranslator.TranslateMethod | wrapper/cpp/genheaders.py:40-45 | a method translates exactly when its return type does, with the same error; the prototype starts with `static ` exactly for a class method and ends with the method name and `();` |
| CppTranslator.PrototypeRoundTrip | wrapper/cpp/genheaders.py:40-45 | the method kind, the translated return type and the method name can all be read back from the prototype |
| CppTranslator.TranslateMethods | wrapper/cpp/genheaders.py:32-37 | a method list translates exactly when every method does; the result has one record per method, in order; on failure, the error is that of the first failing method |
| CppTranslator.TranslateClass | wrapper/cpp/genheaders.py:27-38 | the class record has the class name; `methods` and `staticMethods` are the element-wise translations of the instance and class methods, with the same lengths and order; the error is that of the first failing instance method, else of the first failing class method |
| CppTranslator.TranslateEnum | wrapper/cpp/genheaders.py:10-25 | the enum record keeps the count and order of the values; `notLast` is false exactly at the last value |
| CppTranslator.EnumTranslationUnique | wrapper/cpp/genheaders.py:10-20 | an enum has exactly one translation |
| Headers.ClassNameToDefine | wrapper/cpp/genheaders.py:137-144 | the guard starts with `_`, ends with `_HH`, and has length Σ(len(w)+1)+3 |
| Headers.DefineRoundTrip | wrapper/cpp/genheaders.py:137-144 | the guard is `_`, then the upper-cased words joined by `_`, then `_HH`; it contains only capitals and `_`; splitting its middle at `_` gives back the upper-cased words |
| Headers.ClassNameToFilename | wrapper/cpp/genheaders.py:146-159 | the file name ends with `.hh` |
| Headers.FilenameRoundTrip | wrapper/cpp/genheaders.py:146-159 | the file name is the lower-cased words joined by exactly one `_` (n-1 underscores for n words), then `.hh`; splitting its stem gives back the lower-cased words |
| Headers.IncludeNameRoundTrip | wrapper/cpp/genheaders.py:129 | splitting an internal include name at `_` gives back the class's words unchanged |
| Headers.IncludeNameIsFilenameStem | wrapper/cpp/genheaders.py:129 | for a lower-case name, the include name is the file name without `.hh` |
| Headers.UpdateIncludes | wrapper/cpp/genheaders.py:123-135 | the scan fails exactly when some class method has no return type; otherwise the internal includes are exactly the include names of the classes the methods return as objects, and the external includes are `{memory}` exactly when some method returns an object, else empty |
| Headers.IncludesBounded | wrapper/cpp/genheaders.py:123-135 | there are no duplicate includes: never more internal includes than methods returning an object, and at most one external include |
| Headers.SharedReturnTypeIncludedOnce | wrapper/cpp/genheaders.py:123-135 | two class methods returning the same class give one internal include and one `memory` |
| Headers.InstanceMethodsDoNotAffectIncludes | wrapper/cpp/genheaders.py:126 | instance methods never contribute includes |
| Headers.VoidClassMethodRejected | wrapper/cpp/genheaders.py:126-127 | a class method without a return type gets a `static void` prototype, but its class fails with the `.isobject` error |
| Headers.MakeClassHeader | wrapper/cpp/genheaders.py:115-121 | a header is built exactly when the class translates and every class method has a return type; a translation error is reported before an include error; the header holds the class record, guard, file name and include sets |
| Headers.PointStyleHeader | wrapper/cpp/genheaders.py:114-159 | the class `[point, style]` with class method `[create]` returning itself gives `static std::shared_ptr<PointStyle> create();`, `_POINT_STYLE_HH`, `point_style.hh`, `{point_style}` and `{memory}` |
| Headers.AddEnum | wrapper/cpp/genheaders.py:110-111 | adding an enum keeps the earlier enums and appends that enum's translation |
| Headers.BuildEnumsHeader | wrapper/cpp/genheaders.py:169-175 | the enum aggregate holds one translation per enum, in order |
| Headers.RunIsolated | wrapper/cpp/genheaders.py:181-189 | every item ends up either built or skipped |
| Headers.RunIsolatedKeepsGoing | wrapper/cpp/genheaders.py:181-189 | every success is kept and every failure is recorded with its error; nothing is built that did not come from an item, and every skipped entry is an item that failed with exactly that error |
| Headers.RunIsolatedInOrder | wrapper/cpp/genheaders.py:181-189 | `built` holds the results of exactly the items that succeed, and `skipped` exactly the items that fail with their errors, each in the order the items were given |
| Headers.RunIsolatedAppend | wrapper/cpp/genheaders.py:181-189 | the loop is a left-to-right fold: two batches in a row give the concatenation of their reports |
| Headers.GenerateClassHeaders | wrapper/cpp/genheaders.py:181-189 | each class gives either a header or a skipped entry |
| Headers.OneFailingOfThree | wrapper/cpp/genheaders.py:181-189 | when the middle of three classes fails, the other two headers are still built, in order, and only the failing class is skipped with its error |

## Left out

- Rendering through `pystache` and the template text (genheaders.py:177-179, 187). This is an external library whose contract is not visible.
- Writing files and the fixed input and output directories (genheaders.py:164, 178, 186). This is I/O.
- Building the abstract model (`initFromDir`, `check`, `set_from_c`). The `genapixml` and `abstractapi` modules are not part of this model, so `Name`, `Type`, `Method`, `Class` and `Enum` are taken as given datatypes. How `Name.translate` picks a naming convention is assumed: class, enum, enum-value and method names each use their own `translate_*_name`, and an object type's name uses the class convention.
- Printing the diagnostic line of a skipped class. `Headers.RunIsolated` records the skipped class with its error instead. The Python line names the C class, which the model does not have.
- `Headers.RunIsolated`: the driver's `except` also catches failures from `set_from_c` and from writing the file. Those steps are not modelled.
- Headers.UpdateIncludes: the include sets are Dafny sets, not lists. The iteration order of a Python `set` decides the order of the rendered includes, and that order is not modelled.
- Unicode case mapping in `title()`, `upper()` and `lower()`. Only ASCII letters are cased here, and every other character is left as it is.
- A failure of the enum aggregate aborts the run. It is not modelled because translating an enum only formats names and cannot fail.
- `EnumsHeader.add_enum` uses the module-level `translator` rather than its own. The model has one stateless translator, so the two are the same.
- The misspelled `exteranlIncludes` attribute set in `ClassHeader.__init__`. It is never read, and `update_includes` sets `externalIncludes` right after it.
