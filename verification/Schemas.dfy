/** Message types as the codec sees them (lualib-src/pbc/src/proto.h, context.h). */
module Schemas {
  import opened Words

  /** `PTYPE_*`; `Group` is the one that no part of the codec handles. */
  datatype PType =
    | Double | Float | Int64 | UInt64 | Int32 | Fixed64 | Fixed32 | Bool | String | Group
    | Message | Bytes | UInt32 | Enum | SFixed32 | SFixed64 | SInt32 | SInt64

  datatype Label = Optional | Required | Repeated | Packed

  /** What the two tables of an enum answer: the number for a name, and the name for a number. */
  datatype EnumNames = EnumNames(ids: map<string, i32>, names: map<i32, string>)

  /** `struct _field`. The default is the two words of the union, or the bytes of a string; an enum has both,
      the bytes being its name. `values` is the enum that the field points to. */
  datatype Field = Field(
    id: i32,
    name: string,
    ptype: PType,
    rule: Label,
    default: LongLong,
    defaultText: seq<byte>,
    typeName: string,
    values: EnumNames
  )

  /** `struct _message`: the same fields found by name and by id. */
  datatype MessageType = MessageType(names: map<string, Field>, ids: map<int, Field>) {
    /** The two indexes agree field by field. */
    ghost predicate Coherent() {
      && (forall k :: k in names ==> names[k].name == k && names[k].id in ids && ids[names[k].id] == names[k])
      && (forall i :: i in ids ==> ids[i].id == i && ids[i].name in names && names[ids[i].name] == ids[i])
    }
  }

  /** `struct pbc_env`, as far as message types go. */
  type Env = map<string, MessageType>

  /** Ids are such that a tag fits an int, and sub-messages have a known type. */
  ghost predicate WellFormed(env: Env) {
    forall t :: t in env ==>
      && env[t].Coherent()
      && forall k :: k in env[t].names ==>
           && 0 < env[t].names[k].id < 0x1000_0000
           && (env[t].names[k].ptype == Message ==> env[t].names[k].typeName in env)
  }
}
