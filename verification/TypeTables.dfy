/** The tables that a caller's names are looked up in: the fields of a message type by name, and the
    message types of an environment (lualib-src/pbc/src/proto.c). */
module TypeTables {
  import opened Words
  import opened Schemas
  import opened StringMaps

  /** A map as a table of pointers holds it. */
  function Pointers<V>(names: map<string, V>): map<string, Option<V>> { map k <- names :: Some(names[k]) }

  /** `m->name` of a message type. */
  ghost predicate FieldsOf(names: StringMap<Field>, t: MessageType)
    reads names, names.slot
  {
    names.Valid() && names.Model() == Pointers(t.names)
  }

  /** `p->msgs`; a type is known by its name. */
  ghost predicate TypesOf(msgs: StringMap<string>, env: Env)
    reads msgs, msgs.slot
  {
    && msgs.Valid() && msgs.Model().Keys == env.Keys
    && forall k <- msgs.Model() :: msgs.Model()[k] == Some(k)
  }

  /** The query for a field that the calls of writers and getters begin with. */
  method FindField(names: StringMap<Field>, ghost t: MessageType, key: string) returns (f: Option<Field>)
    requires FieldsOf(names, t) && names.CanAsk(key)
    ensures f == if key in t.names then Some(t.names[key]) else None
  {
    hide StringMap.Valid;
    hide StringMap.Model;
    f := names.Query(key);
  }

  /** `_pbcP_get_message` */
  method GetMessage(msgs: StringMap<string>, env: Env, typeName: string) returns (found: bool)
    requires TypesOf(msgs, env) && msgs.CanAsk(typeName)
    ensures found <==> typeName in env
  {
    hide StringMap.Valid;
    hide StringMap.Model;
    var t := msgs.Query(typeName);
    found := t.Some?;
  }

  /** The table of a type without fields cannot be asked for the empty name, whose hash is zero: the query
      compares with a NULL key. So may that of any type, as long as no field has taken the first slot. */
  lemma NoFieldNamed(names: StringMap<Field>, t: MessageType)
    requires FieldsOf(names, t) && names.calcHash("") == 0
    ensures names.slot.Length > 0
    ensures !names.CanAsk("") <==> names.slot[0].key.None?
    ensures !names.CanAsk("") <==> ComparesNull(names.slot[..], names.calcHash, "")
    ensures t.names == map[] ==> !names.CanAsk("")
  {
    names.ValidFacts();
    NullCompared(names.slot[..], names.calcHash, names.shape, "");
    KeepsFirst(names.slot[..], names.calcHash, names.shape);
    hide *;
    PointersOf(t.names);
    names.CanAskMeans("");
    assert names.slot[..][0] == names.slot[0];
    FieldsAre(names, t);
    names.ModelKeys();
  }

  lemma PointersOf<V>(names: map<string, V>)
    ensures Pointers(names).Keys == names.Keys && forall k <- names :: Pointers(names)[k] == Some(names[k])
  {
  }

  lemma FieldsAre(names: StringMap<Field>, t: MessageType)
    ensures FieldsOf(names, t) <==> names.Valid() && names.Model() == Pointers(t.names)
  {
  }
}
