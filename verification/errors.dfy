/** The two exceptions the translation of one class can raise. */
module Errors {

  datatype Error =
      /** `RuntimeError` from `__abstract_base_type_to_cpp` on an unknown key. */
    | NotABaseType(atype: string)
      /** `AttributeError` from reading `.isobject` of an absent return type
          while collecting includes. */
    | NoneHasNoIsObject
}
