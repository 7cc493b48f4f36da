/** JSON values and the merge patch of section 2 of RFC 7396. */
module JsonMerge {
  import opened Prelude

  type Fields = map<string, Json>

  /** A text that is an RFC 3339 time is kept as its instant, in nanoseconds, and the form it
      is spelled in; every other text is a `Str`. */
  datatype Json =
    | Null | Bool(b: bool) | Num(n: int) | Str(s: string) | Stamp(instant: int, form: string)
    | Arr(items: seq<Json>) | Obj(fields: map<string, Json>)

  function MergePatch(target: Json, patch: Json): Json
    decreases patch
  {
    if !patch.Obj? then patch
    else
      var base := if target.Obj? then target.fields else map[];
      Obj(map k | k in base.Keys + patch.fields.Keys && !(k in patch.fields && patch.fields[k].Null?) ::
            if k in patch.fields then MergePatch(if k in base then base[k] else Null, patch.fields[k]) else base[k])
  }

  /** Patching with values that are neither null nor objects overwrites just those keys. */
  lemma MergeFlat(base: Fields, patch: Fields)
    requires forall k :: k in patch ==> !patch[k].Null? && !patch[k].Obj?
    ensures MergePatch(Obj(base), Obj(patch)) == Obj(base + patch)
    ensures MergePatch(Null, Obj(patch)) == Obj(patch)
  {
  }

  function Field(f: Fields, k: string): Option<Json> {
    if k in f then Some(f[k]) else None
  }
}
