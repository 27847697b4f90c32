/** JSON values as stored in the JSONB columns, and the shallow object spread
    `{...base, ...partial}` used to patch the resume. */
module Json {

  /** A JSON value. Numbers are integers here: floating point is not modelled. */
  datatype Json =
    | JNull
    | JBool(b: bool)
    | JNumber(n: int)
    | JString(s: string)
    | JArray(items: seq<Json>)
    | JObject(fields: map<string, Json>)

  /** A resume document: a JSON object. JSONB does not keep key order, so a map is exact. */
  type Doc = map<string, Json>

  /** `{}` */
  const EmptyDoc: Doc := map[]

  /** `{...base, ...partial}`: a right-biased, shallow merge of two objects. */
  function Spread(base: Doc, partial: Doc): (r: Doc)
    ensures r.Keys == base.Keys + partial.Keys
    ensures forall k :: k in partial ==> r[k] == partial[k]
    ensures forall k :: k in base && k !in partial ==> r[k] == base[k]
  {
    base + partial
  }

  /** The merge is shallow: a nested object in the partial replaces the nested object
      of the base wholesale, its own keys are not merged into the old ones. */
  lemma SpreadIsShallow(base: Doc, partial: Doc, k: string)
    requires k in base && base[k].JObject?
    requires k in partial && partial[k].JObject?
    ensures Spread(base, partial)[k] == partial[k]
    ensures forall x :: x in base[k].fields && x !in partial[k].fields ==> x !in Spread(base, partial)[k].fields
  {
  }

  /** Applying the same patch twice is the same as applying it once. */
  lemma SpreadIdempotent(base: Doc, partial: Doc)
    ensures Spread(Spread(base, partial), partial) == Spread(base, partial)
  {
  }

  /** Two successive patches equal one patch with the second merged over the first. */
  lemma SpreadCompose(base: Doc, p1: Doc, p2: Doc)
    ensures Spread(Spread(base, p1), p2) == Spread(base, Spread(p1, p2))
  {
  }

  /** A one-key patch sets that key and keeps the rest. */
  lemma SpreadOneKey(base: Doc, k: string, v: Json)
    ensures Spread(base, map[k := v]) == base[k := v]
  {
  }

  /** The empty patch changes nothing. */
  lemma SpreadEmpty(base: Doc)
    ensures Spread(base, EmptyDoc) == base
  {
  }
}
