/**
 * The run-time description of the data models: their fields, what these refer to, and what a delete of the model
 * cascades to.
 */
module ModelMeta {
  import opened Optional
  import opened Json

  /** From an id field of the related model to the local field holding it. */
  datatype KeyPair = KeyPair(id: string, fk: string)

  /** `defaultValue` is the first argument of a `@default` attribute, Undefined if it has none. */
  datatype FieldInfo = FieldInfo(
    name: string,
    type_: string,
    isDataModel: bool,
    defaultValue: Option<Json>,
    isUpdatedAt: bool,
    foreignKeyMapping: Option<seq<KeyPair>>)

  /** The unique constraints are lists of field names; the first one is the id. */
  datatype ModelInfo = ModelInfo(
    fields: seq<FieldInfo>,
    baseTypes: seq<string>,
    uniqueConstraints: seq<seq<string>>)

  datatype ModelMeta = ModelMeta(models: map<string, ModelInfo>, deleteCascade: map<string, seq<string>>)

  function FindField(fields: seq<FieldInfo>, name: string): (r: Option<FieldInfo>)
    ensures r.Some? ==> r.value in fields && r.value.name == name
  {
    if fields == [] then None
    else if fields[0].name == name then Some(fields[0])
    else FindField(fields[1..], name)
  }

  function ResolveField(meta: ModelMeta, model: string, name: string): (r: Option<FieldInfo>)
    ensures r.Some? ==> r.value.name == name
  {
    if model in meta.models then FindField(meta.models[model].fields, name) else None
  }

  predicate IsRelation(meta: ModelMeta, model: string, name: string) {
    var f := ResolveField(meta, model, name);
    f.Some? && f.value.isDataModel
  }

  function IdNames(meta: ModelMeta, model: string): seq<string> {
    if model in meta.models && meta.models[model].uniqueConstraints != [] then meta.models[model].uniqueConstraints[0]
    else []
  }

  /** The mark that an optimistic update leaves on a record. */
  const OPTIMISTIC := "$optimistic"

  /**
   * Fields have distinct names, none called like the mark; foreign keys and ids are declared scalar fields;
   * relation fields have no defaults.
   */
  ghost predicate ValidMeta(meta: ModelMeta) {
    forall m | m in meta.models ::
      && ResolveField(meta, m, OPTIMISTIC).None?
      && (forall f | f in meta.models[m].fields :: ValidField(meta, m, f))
      && (forall name | name in IdNames(meta, m) :: ResolveField(meta, m, name).Some? && !IsRelation(meta, m, name))
  }

  ghost predicate ValidField(meta: ModelMeta, model: string, f: FieldInfo) {
    && ResolveField(meta, model, f.name) == Some(f)
    && (f.isDataModel ==> f.defaultValue.None? && !f.isUpdatedAt && f.type_ != "DateTime")
    && (f.foreignKeyMapping.Some? ==> forall p | p in f.foreignKeyMapping.value :: !IsRelation(meta, model, p.fk))
  }
}
