/**
 * Response shaping: flattening the join-row wrappers `labelLinks: [{label}]` and
 * `commentLinks: [{comment}]` of a fetched record into plain `labels` and
 * `comments` arrays.
 */
module Normalizers {
  import opened Js

  /** A fetched entity: an object's own properties. */
  type Record = map<string, Value>

  /** `links.map((link) => link?.[key])`. */
  function Pluck(links: seq<Value>, key: string): (r: seq<Value>)
    ensures |r| == |links|
    ensures forall i :: 0 <= i < |links| ==> r[i] == Member(links[i], key)
  {
    seq(|links|, i requires 0 <= i < |links| => Member(links[i], key))
  }

  /** `vs.filter(Boolean)`: the truthy values, and only those. */
  function FilterTruthy(vs: seq<Value>): (r: seq<Value>)
    ensures |r| <= |vs|
    ensures forall v :: v in r <==> v in vs && IsTruthy(v)
  {
    if vs == [] then []
    else if IsTruthy(vs[0]) then [vs[0]] + FilterTruthy(vs[1..])
    else FilterTruthy(vs[1..])
  }

  /** Filtering works piece by piece, so it keeps the order of the values it keeps. */
  lemma {:induction false} FilterTruthyAppend(a: seq<Value>, b: seq<Value>)
    ensures FilterTruthy(a + b) == FilterTruthy(a) + FilterTruthy(b)
  {
    if a == [] {
      assert a + b == b;
    } else {
      assert (a + b)[0] == a[0];
      assert (a + b)[1..] == a[1..] + b;
      FilterTruthyAppend(a[1..], b);
    }
  }

  /** Filtering again changes nothing. */
  lemma {:induction false} FilterTruthyIdempotent(vs: seq<Value>)
    ensures FilterTruthy(FilterTruthy(vs)) == FilterTruthy(vs)
  {
    if vs != [] {
      FilterTruthyIdempotent(vs[1..]);
      if IsTruthy(vs[0]) {
        var r := [vs[0]] + FilterTruthy(vs[1..]);
        assert r[0] == vs[0] && r[1..] == FilterTruthy(vs[1..]);
      }
    }
  }

  /** The flattened contents of the link array under `linksKey`: the truthy `key`
      property of every link, in order; `[]` when the property is missing or is not
      an array (`Array.isArray`). */
  function Linked(entity: Record, linksKey: string, key: string): seq<Value> {
    if linksKey in entity && entity[linksKey].Arr? then
      FilterTruthy(Pluck(entity[linksKey].items, key))
    else
      []
  }

  /** `normalizeWithLabels`: drops `labelLinks`, (over)writes `labels` with the
      flattened labels, and keeps every other property as it was. */
  function NormalizeWithLabels(entity: Record): (r: Record)
    ensures "labelLinks" !in r
    ensures "labels" in r && r["labels"] == Arr(Linked(entity, "labelLinks", "label"))
    ensures forall k :: k in entity && k != "labelLinks" && k != "labels" ==> k in r && r[k] == entity[k]
    ensures r.Keys == entity.Keys - {"labelLinks"} + {"labels"}
  {
    (entity - {"labelLinks"})["labels" := Arr(Linked(entity, "labelLinks", "label"))]
  }

  /** The labels are exactly the truthy `label` entries of `labelLinks`, in order;
      in particular a link whose `label` is `null` or missing contributes nothing. */
  lemma {:induction false} LabelsOfLinks(entity: Record, before: seq<Value>, link: Value, after: seq<Value>)
    requires "labelLinks" in entity && entity["labelLinks"] == Arr(before + [link] + after)
    ensures NormalizeWithLabels(entity)["labels"].items ==
      Linked(entity - {"labelLinks"} + map["labelLinks" := Arr(before)], "labelLinks", "label")
      + (if IsTruthy(Member(link, "label")) then [Member(link, "label")] else [])
      + Linked(entity - {"labelLinks"} + map["labelLinks" := Arr(after)], "labelLinks", "label")
  {
    var all := before + [link] + after;
    assert Pluck(all, "label") == Pluck(before, "label") + Pluck([link], "label") + Pluck(after, "label");
    FilterTruthyAppend(Pluck(before, "label") + Pluck([link], "label"), Pluck(after, "label"));
    FilterTruthyAppend(Pluck(before, "label"), Pluck([link], "label"));
    assert Pluck([link], "label") == [Member(link, "label")];
    assert FilterTruthy([Member(link, "label")])
      == (if IsTruthy(Member(link, "label")) then [Member(link, "label")] else []) by {
      assert [Member(link, "label")][1..] == [];
    }
  }

  /** A record without an array under `labelLinks` gets `labels: []`. */
  lemma NoLinksNoLabels(entity: Record)
    requires "labelLinks" !in entity || !entity["labelLinks"].Arr?
    ensures NormalizeWithLabels(entity)["labels"] == Arr([])
  {
  }

  /** Normalising twice discards the labels found the first time: the second pass
      sees no `labelLinks` and resets `labels` to `[]`. */
  lemma NormalizeTwiceResetsLabels(entity: Record)
    ensures NormalizeWithLabels(NormalizeWithLabels(entity))["labels"] == Arr([])
  {
  }

  /** So the normaliser is not idempotent: one label link shows it. */
  lemma NormalizeWithLabelsNotIdempotent()
    ensures var e := map["labelLinks" := Arr([Obj(map["label" := Obj(map["name" := Str("Bug")])])])];
      NormalizeWithLabels(NormalizeWithLabels(e)) != NormalizeWithLabels(e)
  {
    var e := map["labelLinks" := Arr([Obj(map["label" := Obj(map["name" := Str("Bug")])])])];
    var bug := Obj(map["name" := Str("Bug")]);
    assert Pluck(e["labelLinks"].items, "label") == [bug];
    assert FilterTruthy([bug]) == [bug] by {
      assert [bug][1..] == [];
    }
    assert NormalizeWithLabels(e)["labels"] == Arr([bug]);
    NormalizeTwiceResetsLabels(e);
  }

  /** `normalizeManyWithLabels`: element-wise, same length and order. */
  function NormalizeManyWithLabels(entities: seq<Record>): (r: seq<Record>)
    ensures |r| == |entities|
    ensures forall i :: 0 <= i < |entities| ==> r[i] == NormalizeWithLabels(entities[i])
  {
    seq(|entities|, i requires 0 <= i < |entities| => NormalizeWithLabels(entities[i]))
  }

  /** `normalizeWithLabelsAndComments`: labels as in `normalizeWithLabels`, the
      truthy `comment` entries of `commentLinks` in order as `comments`, both link
      properties dropped and every other property kept. */
  function NormalizeWithLabelsAndComments(entity: Record): (r: Record)
    ensures "labelLinks" !in r && "commentLinks" !in r
    ensures "labels" in r && r["labels"] == NormalizeWithLabels(entity)["labels"]
    ensures "comments" in r && r["comments"] == Arr(Linked(entity, "commentLinks", "comment"))
    ensures forall k :: k in entity && k !in {"labelLinks", "commentLinks", "labels", "comments"} ==>
      k in r && r[k] == entity[k]
    ensures r.Keys == entity.Keys - {"labelLinks", "commentLinks"} + {"labels", "comments"}
  {
    var normalizedLabels := NormalizeWithLabels(entity);
    (normalizedLabels - {"commentLinks"})["comments" := Arr(Linked(entity, "commentLinks", "comment"))]
  }

  /** `normalizeManyWithLabelsAndComments`: element-wise, same length and order. */
  function NormalizeManyWithLabelsAndComments(entities: seq<Record>): (r: seq<Record>)
    ensures |r| == |entities|
    ensures forall i :: 0 <= i < |entities| ==> r[i] == NormalizeWithLabelsAndComments(entities[i])
  {
    seq(|entities|, i requires 0 <= i < |entities| => NormalizeWithLabelsAndComments(entities[i]))
  }

  /** The list normalisers distribute over concatenation: a page of results can be
      normalised in pieces. */
  lemma NormalizeManyAppend(a: seq<Record>, b: seq<Record>)
    ensures NormalizeManyWithLabels(a + b) == NormalizeManyWithLabels(a) + NormalizeManyWithLabels(b)
    ensures NormalizeManyWithLabelsAndComments(a + b)
         == NormalizeManyWithLabelsAndComments(a) + NormalizeManyWithLabelsAndComments(b)
  {
    var l, r := NormalizeManyWithLabels(a + b), NormalizeManyWithLabels(a) + NormalizeManyWithLabels(b);
    assert forall i | 0 <= i < |l| :: l[i] == r[i] by {
      forall i | 0 <= i < |l| ensures l[i] == r[i] {
        if i < |a| { assert (a + b)[i] == a[i]; } else { assert (a + b)[i] == b[i - |a|]; }
      }
    }
    var l', r' := NormalizeManyWithLabelsAndComments(a + b),
      NormalizeManyWithLabelsAndComments(a) + NormalizeManyWithLabelsAndComments(b);
    forall i | 0 <= i < |l'| ensures l'[i] == r'[i] {
      if i < |a| { assert (a + b)[i] == a[i]; } else { assert (a + b)[i] == b[i - |a|]; }
    }
  }
}
