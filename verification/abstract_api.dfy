/** The language-neutral API model the translator consumes. Its construction
    from the C documentation (the `genapixml` and `abstractapi` modules) is
    not part of this model: values of these types are taken as given. */
module AbstractApi {
  import opened Wrappers
  import opened Ascii

  /** A name as a sequence of words (`name.words`). */
  datatype Name = Name(words: seq<string>)

  /** What a type refers to (`type.type`): the name of a class when the type
      is an object type (`type.isobject`), otherwise the key of a primitive
      such as "integer". */
  datatype BaseType = ObjectType(className: Name) | PrimitiveType(atype: string)

  datatype Type = Type(base: BaseType, isconst: bool, isreference: bool)

  /** `Method.Type.Instance` or `Method.Type.Class`. */
  datatype MethodKind = InstanceMethod | ClassMethod

  /** An absent return type (Python `None`) is `returnType == None`. */
  datatype Method = Method(name: Name, returnType: Option<Type>, kind: MethodKind)

  datatype Class = Class(name: Name, instanceMethods: seq<Method>, classMethods: seq<Method>)

  datatype EnumValue = EnumValue(name: Name)

  datatype Enum = Enum(name: Name, values: seq<EnumValue>)

  /** The assumption the model makes about names: at least one word, and
      every word a non-empty run of ASCII letters. */
  predicate WellFormedName(n: Name) {
    |n.words| > 0 && forall k :: 0 <= k < |n.words| ==> IsWord(n.words[k])
  }

  /** A well-formed name whose words are all lower-case, the form the
      abstract model produces. */
  predicate LowerCaseName(n: Name) {
    |n.words| > 0 && forall k :: 0 <= k < |n.words| ==> IsLowerWord(n.words[k])
  }

  /** Every word of the name lower-cased. */
  function LowerWords(ws: seq<string>): (r: seq<string>)
  {
    seq(|ws|, k requires 0 <= k < |ws| => Lower(ws[k]))
  }

  /** Every word of the name upper-cased. */
  function UpperWords(ws: seq<string>): (r: seq<string>)
  {
    seq(|ws|, k requires 0 <= k < |ws| => Upper(ws[k]))
  }

  lemma LowerCaseNameIsWellFormed(n: Name)
    requires LowerCaseName(n)
    ensures WellFormedName(n)
    ensures LowerWords(n.words) == n.words
  {
    forall k | 0 <= k < |n.words|
      ensures IsWord(n.words[k]) && Lower(n.words[k]) == n.words[k]
    {
      LowerOfLowerWord(n.words[k]);
    }
  }
}
