/** Reading the fields of a parsed value, as every file of the engine does. */
module JsonFields {
  import opened Texts
  import opened JsonText

  /** `v[key]`, where `None` is undefined. A key that occurs twice would hold its last value. */
  function Field(v: Json, key: Text): Option<Json> {
    if v.Obj? then LastOf(v.props, key) else None
  }

  function LastOf(props: seq<Prop>, key: Text): Option<Json> {
    if props == [] then None
    else
      var rest := LastOf(props[1..], key);
      if rest.Some? then rest else if props[0].key == key then Some(props[0].value) else None
  }

  predicate Truthy(v: Option<Json>) {
    v.Some? && match v.value
               case Null => false
               case Bool(b) => b
               case Num(t) => t != [ZERO]
               case Str(s) => s != []
               case _ => true
  }

  /** `v && v[key]`. */
  function AndField(v: Option<Json>, key: Text): Option<Json> {
    if Truthy(v) then Field(v.value, key) else v
  }

  /** `Array.isArray(v) ? v : []`. */
  function ItemsOf(v: Option<Json>): seq<Json> {
    if v.Some? && v.value.Arr? then v.value.items else []
  }

  /** `v && typeof v === 'object'`. */
  predicate IsObject(v: Option<Json>) {
    v.Some? && (v.value.Obj? || v.value.Arr?)
  }
}
