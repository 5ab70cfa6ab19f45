/** Parsed Thrift files, as far as the gateway looks at them. */
module ThriftAst {
  import opened Prelude
  import GoPath

  /** A type reference; `value` is the element type of list, set and map. */
  datatype Type = Type(name: string, value: Option<Type>)

  /** `key` is the JSON name of the field, `jsConv` the annotation `api.js_conv = "true"`; `bound` says
      that an annotation places the field in the query, path, headers or cookies. */
  datatype Field = Field(key: string, typ: Type, required: bool, jsConv: bool, bound: bool, comment: string)

  datatype StructLike = StructLike(name: string, fields: seq<Field>)

  datatype Typedef = Typedef(alias: string, typ: Type)

  datatype Enum = Enum(name: string, values: seq<int>)

  datatype Thrift = Thrift(includes: seq<string>, typedefs: seq<Typedef>, enums: seq<Enum>,
                           structs: seq<StructLike>, unions: seq<StructLike>, exceptions: seq<StructLike>,
                           services: nat)

  type Archive = map<string, Thrift>

  /** The file an include refers to. */
  function Target(file: string, inc: string): string {
    GoPath.Clean(GoPath.Join(GoPath.Dir(file), inc))
  }
}
