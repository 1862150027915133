/** The bookkeeping that Volume and Comic share (scuzzie/resources.py): an
    order list of slugs next to a map from slug to entity. */
module Registry {
  import opened Wrappers
  import opened Errors

  predicate NoDup(order: seq<string>) {
    forall i, j | 0 <= i < j < |order| :: order[i] != order[j]
  }

  /** Every key of the map is in the order list. */
  predicate Listed(order: seq<string>, keys: set<string>) {
    forall k | k in keys :: k in order
  }

  /** The order list after `add_*`: the slug is appended only when absent. */
  function AddSlug(order: seq<string>, slug: string): seq<string> {
    if slug in order then order else order + [slug]
  }

  /** `[slug for slug in order if slug not in keys]`. */
  function Missing(order: seq<string>, keys: set<string>): (r: seq<string>)
    ensures forall s :: s in r <==> s in order && s !in keys
    ensures |r| <= |order|
  {
    if order == [] then []
    else if order[0] in keys then Missing(order[1..], keys)
    else [order[0]] + Missing(order[1..], keys)
  }

  /** What the `each_*` generators yield: the entity of every listed slug, in
      list order, or the KeyError of the first listed slug that has none. */
  function Each<V>(order: seq<string>, m: map<string, V>): (r: Result<seq<V>, Error>)
    ensures r.Success? <==> forall i | 0 <= i < |order| :: order[i] in m
    ensures r.Success? ==> |r.value| == |order| && forall i | 0 <= i < |order| :: r.value[i] == m[order[i]]
    ensures r.Failure? ==> exists i | 0 <= i < |order| ::
      order[i] !in m && r.error == KeyError(order[i]) && forall j | 0 <= j < i :: order[j] in m
  {
    if order == [] then Success([])
    else if order[0] !in m then Failure(KeyError(order[0]))
    else match Each(order[1..], m)
      case Success(rest) => Success([m[order[0]]] + rest)
      case Failure(e) => Failure(e)
  }

  /** `add_*` keeps the listed slugs where they were and appends the new one
      at the end, exactly when it was not listed yet. */
  lemma AddSlugExtends(order: seq<string>, slug: string)
    ensures slug in AddSlug(order, slug)
    ensures AddSlug(order, slug)[..|order|] == order
    ensures |AddSlug(order, slug)| == |order| + (if slug in order then 0 else 1)
    ensures slug !in order ==> AddSlug(order, slug)[|order|] == slug
  {
  }

  /** `add_*` keeps "every key is listed" and "no slug is listed twice". */
  lemma AddSlugPreserves(order: seq<string>, keys: set<string>, slug: string)
    ensures Listed(order, keys) ==> Listed(AddSlug(order, slug), keys + {slug})
    ensures NoDup(order) ==> NoDup(AddSlug(order, slug))
  {
    var r := AddSlug(order, slug);
    if NoDup(order) && slug !in order {
      forall i, j | 0 <= i < j < |r| ensures r[i] != r[j] {
        if j == |order| {
          assert r[i] == order[i];
        }
      }
    }
  }

  /** The missing-pages check passes exactly when every listed slug has an
      entity; together with `Listed` the list then covers the keys exactly. */
  lemma {:induction false} NoneMissing(order: seq<string>, keys: set<string>)
    ensures Missing(order, keys) == [] <==> forall s | s in order :: s in keys
    ensures Missing(order, keys) == [] && Listed(order, keys) ==> (set s | s in order) == keys
  {
    if Missing(order, keys) != [] {
      assert Missing(order, keys)[0] in Missing(order, keys);
    }
  }

  /** The missing slugs keep their order: they are the listed slugs that have
      no entity, taken left to right. */
  lemma {:induction false} MissingIsFilter(order: seq<string>, keys: set<string>, s: string)
    ensures Missing(order + [s], keys) == Missing(order, keys) + (if s in keys then [] else [s])
  {
    if order == [] {
      assert order + [s] == [s];
    } else {
      assert (order + [s])[1..] == order[1..] + [s];
      MissingIsFilter(order[1..], keys, s);
    }
  }
}
