/**
 * The POI catalog the endpoint and the map read (`src/data/pois.json`, as
 * the build step writes it), and the endpoint's projection of it into the
 * candidate list the model is allowed to reference.
 */
module Catalog {
  import opened JsValue
  import Text

  /**
   * A catalog entry. The build step guarantees a non-empty string id and
   * name and finite coordinates; `tags` is whatever the front matter held
   * (an empty array by default) and `description` the trimmed body.
   */
  datatype Poi = Poi(id: string, name: string, lat: real, lng: real, tags: Value, description: string)

  /** The reduced entry sent to the model. */
  datatype ModelPoi = ModelPoi(id: string, name: string, lat: real, lng: real, tags: Value, description: string)

  const DESCRIPTION_LIMIT: nat := 200
  const DESCRIPTION_CUT: nat := 197
  const ELLIPSIS: char := '…'

  /** No white space but single spaces, and never two in a row. */
  predicate Collapsed(s: string) {
    && (forall i :: 0 <= i < |s| && Text.IsSpace(s[i]) ==> s[i] == ' ')
    && (forall i :: 0 <= i < |s| - 1 ==> !(Text.IsSpace(s[i]) && Text.IsSpace(s[i + 1])))
  }

  /**
   * The description with white space collapsed and trimmed, before any cut:
   * its words, in order, separated by single spaces.
   */
  function CleanDescription(d: string): (c: string)
    ensures c == Text.JoinWith(Text.Words(d), " ")
    ensures Collapsed(c)
    ensures c == [] || (!Text.IsSpace(c[0]) && !Text.IsSpace(c[|c| - 1]))
    ensures Text.NonSpace(c) == Text.NonSpace(d)
  {
    Text.CollapseTrimIsJoinedWords(d);
    CleanIsCollapsed(d);
    CleanKeepsText(d);
    Text.Trim(Text.CollapseSpaces(d))
  }

  lemma CleanIsCollapsed(d: string)
    ensures Collapsed(Text.Trim(Text.CollapseSpaces(d)))
  {
    CollapseIsCollapsed(d);
    TrimKeepsCollapsed(Text.CollapseSpaces(d));
  }

  lemma CollapseIsCollapsed(d: string)
    ensures Collapsed(Text.CollapseSpaces(d))
  {
  }

  /** Trimming cuts a stretch out of the string, so it keeps it collapsed. */
  lemma TrimKeepsCollapsed(s: string)
    requires Collapsed(s)
    ensures Collapsed(Text.Trim(s))
  {
    var a := Text.LeadingSpaces(s);
    var t := Text.Trim(s);
    assert a + |t| <= |s| && t == s[a..a + |t|];
    CollapsedWindow(s, a, t);
  }

  lemma CollapsedWindow(s: string, a: nat, t: string)
    requires Collapsed(s) && a + |t| <= |s| && t == s[a..a + |t|]
    ensures Collapsed(t)
  {
    CollapsedInfix(s, a, a + |t|);
  }

  lemma CleanKeepsText(d: string)
    ensures Text.NonSpace(Text.Trim(Text.CollapseSpaces(d))) == Text.NonSpace(d)
  {
    Text.CollapseKeepsText(d);
    Text.TrimKeepsText(Text.CollapseSpaces(d));
  }

  /** Any stretch of a collapsed string is collapsed. */
  lemma CollapsedInfix(s: string, i: nat, j: nat)
    requires i <= j <= |s| && Collapsed(s)
    ensures Collapsed(s[i..j])
  {
    var t := s[i..j];
    assert forall k :: 0 <= k < |t| ==> t[k] == s[i + k];
  }

  /**
   * The description as the model sees it: cleaned, and when longer than
   * `DESCRIPTION_LIMIT` cut to its first `DESCRIPTION_CUT` characters
   * followed by a one-character ellipsis, 198 characters in all.
   */
  function ShortDescription(d: string): (r: string)
    ensures |r| <= DESCRIPTION_LIMIT
    ensures |CleanDescription(d)| <= DESCRIPTION_LIMIT ==> r == CleanDescription(d)
    ensures |CleanDescription(d)| > DESCRIPTION_LIMIT ==>
      |r| == DESCRIPTION_CUT + 1 && r[..DESCRIPTION_CUT] == CleanDescription(d)[..DESCRIPTION_CUT] && r[DESCRIPTION_CUT] == ELLIPSIS
    ensures Collapsed(r)
  {
    var c := CleanDescription(d);
    if |c| > DESCRIPTION_LIMIT then
      var r := c[..DESCRIPTION_CUT] + [ELLIPSIS];
      assert r[..DESCRIPTION_CUT] == c[..DESCRIPTION_CUT];
      assert !Text.IsSpace(ELLIPSIS);
      CollapsedCut(c, DESCRIPTION_CUT, ELLIPSIS);
      r
    else c
  }

  /** A prefix of a collapsed string followed by a non-space character is collapsed. */
  lemma CollapsedCut(c: string, n: nat, x: char)
    requires Collapsed(c) && n <= |c| && !Text.IsSpace(x)
    ensures Collapsed(c[..n] + [x])
  {
    CollapsedInfix(c, 0, n);
    var r := c[..n] + [x];
    assert forall i :: 0 <= i < n ==> r[i] == c[..n][i];
  }

  /** Projecting an already projected description changes nothing. */
  lemma ShortDescriptionIdempotent(d: string)
    ensures ShortDescription(ShortDescription(d)) == ShortDescription(d)
  {
    var r := ShortDescription(d);
    var c := CleanDescription(d);
    Text.CollapseFixesCollapsed(r);
    if |c| > DESCRIPTION_LIMIT {
      assert r[0] == c[0];
      assert !Text.IsSpace(r[|r| - 1]);
    }
    Text.TrimUntrimmed(r);
    assert CleanDescription(r) == r;
  }

  /** `pickPoiForModel`: identity and coordinates copied, tags defaulted, description shortened. */
  function PickForModel(p: Poi): (m: ModelPoi)
    ensures m.id == p.id && m.name == p.name && m.lat == p.lat && m.lng == p.lng
    ensures m.tags == (if Truthy(p.tags) then p.tags else Arr([]))
    ensures m.description == ShortDescription(p.description) && |m.description| <= DESCRIPTION_LIMIT
  {
    ModelPoi(p.id, p.name, p.lat, p.lng, OrElse(p.tags, Arr([])), ShortDescription(p.description))
  }

  /** `excludeSet.has(id)`, where a non-array `exclude_poi_ids` gives the empty set. */
  predicate Excluded(exclude: Value, id: string) {
    exclude.Arr? && Str(id) in exclude.items
  }

  /** The catalog entries that survive the exclusion filter, in catalog order. */
  function Kept(catalog: seq<Poi>, exclude: Value): (r: seq<Poi>)
    ensures |r| <= |catalog|
  {
    if catalog == [] then [] else KeepOne(catalog[0], exclude) + Kept(catalog[1..], exclude)
  }

  /** What the filter keeps of one entry. */
  function KeepOne(p: Poi, exclude: Value): seq<Poi> {
    if Excluded(exclude, p.id) then [] else [p]
  }

  /** Only catalog entries whose id is not excluded are kept. */
  lemma {:induction false} KeptSound(catalog: seq<Poi>, exclude: Value, p: Poi)
    requires p in Kept(catalog, exclude)
    ensures p in catalog && !Excluded(exclude, p.id)
  {
    if catalog != [] {
      if p != catalog[0] || Excluded(exclude, catalog[0].id) {
        KeptSound(catalog[1..], exclude, p);
      }
    }
  }

  /** Every catalog entry whose id is not excluded is kept. */
  lemma {:induction false} KeptComplete(catalog: seq<Poi>, exclude: Value, p: Poi)
    requires p in catalog && !Excluded(exclude, p.id)
    ensures p in Kept(catalog, exclude)
  {
    if catalog[0] != p {
      KeptComplete(catalog[1..], exclude, p);
    }
  }

  /** The filter keeps catalog order: it distributes over concatenation. */
  lemma {:induction false} KeptAppend(a: seq<Poi>, b: seq<Poi>, exclude: Value)
    ensures Kept(a + b, exclude) == Kept(a, exclude) + Kept(b, exclude)
  {
    if a == [] {
      assert a + b == b;
    } else {
      var head := KeepOne(a[0], exclude);
      calc {
        Kept(a + b, exclude);
        { assert (a + b)[0] == a[0] && (a + b)[1..] == a[1..] + b; }
        head + Kept(a[1..] + b, exclude);
        { KeptAppend(a[1..], b, exclude); }
        head + (Kept(a[1..], exclude) + Kept(b, exclude));
        (head + Kept(a[1..], exclude)) + Kept(b, exclude);
        Kept(a, exclude) + Kept(b, exclude);
      }
    }
  }

  /** A non-array `exclude_poi_ids` excludes nothing. */
  lemma {:induction false} KeptWithoutExclusions(catalog: seq<Poi>, exclude: Value)
    requires !exclude.Arr?
    ensures Kept(catalog, exclude) == catalog
  {
    if catalog != [] {
      KeptWithoutExclusions(catalog[1..], exclude);
    }
  }

  /** The candidate list: kept entries, each projected for the model. */
  function Candidates(catalog: seq<Poi>, exclude: Value): (r: seq<ModelPoi>)
    ensures |r| == |Kept(catalog, exclude)|
    ensures forall i :: 0 <= i < |r| ==> r[i] == PickForModel(Kept(catalog, exclude)[i])
  {
    var kept := Kept(catalog, exclude);
    seq(|kept|, i requires 0 <= i < |kept| => PickForModel(kept[i]))
  }

  /** The candidate list is empty exactly when the exclusions cover the whole catalog. */
  lemma NoCandidates(catalog: seq<Poi>, exclude: Value)
    ensures Candidates(catalog, exclude) == [] <==> forall p :: p in catalog ==> Excluded(exclude, p.id)
  {
    var kept := Kept(catalog, exclude);
    if kept != [] {
      KeptSound(catalog, exclude, kept[0]);
      assert Candidates(catalog, exclude)[0] == PickForModel(kept[0]);
    } else {
      forall p | p in catalog
        ensures Excluded(exclude, p.id)
      {
        if !Excluded(exclude, p.id) {
          KeptComplete(catalog, exclude, p);
        }
      }
    }
  }

  /** The ids a candidate list offers the model. */
  function Ids(candidates: seq<ModelPoi>): set<string> {
    set m | m in candidates :: m.id
  }

  /**
   * Every candidate id is the id of a catalog entry that was not excluded,
   * and every such entry's id is a candidate id.
   */
  lemma CandidateIdsTraceable(catalog: seq<Poi>, exclude: Value)
    ensures Ids(Candidates(catalog, exclude)) == set p | p in catalog && !Excluded(exclude, p.id) :: p.id
  {
    var kept := Kept(catalog, exclude);
    var cands := Candidates(catalog, exclude);
    forall id | id in Ids(cands)
      ensures id in set p | p in catalog && !Excluded(exclude, p.id) :: p.id
    {
      var m :| m in cands && m.id == id;
      var i :| 0 <= i < |cands| && cands[i] == m;
      assert kept[i] in kept;
      KeptSound(catalog, exclude, kept[i]);
    }
    forall id | id in set p | p in catalog && !Excluded(exclude, p.id) :: p.id
      ensures id in Ids(cands)
    {
      var p :| p in catalog && !Excluded(exclude, p.id) && p.id == id;
      KeptComplete(catalog, exclude, p);
      var i :| 0 <= i < |kept| && kept[i] == p;
      assert cands[i] in cands;
    }
  }

  /** The model-facing entry as the JSON object sent in the prompt. */
  function ModelPoiValue(m: ModelPoi): Value {
    Obj([("id", Str(m.id)), ("name", Str(m.name)), ("lat", Num(m.lat)), ("lng", Num(m.lng)),
         ("tags", m.tags), ("description", Str(m.description))])
  }

  /** The ids found in a `pois` array of the prompt: the `id` strings of its objects. */
  function IdsInValue(pois: Value): set<string> {
    if pois.Arr? then
      set i, s | 0 <= i < |pois.items| && s in StrId(pois.items[i]) :: s
    else {}
  }

  function StrId(v: Value): set<string> {
    var id := Get(v, "id");
    if id.Str? then {id.s} else {}
  }

  /** Reading the ids back from the prompt's `pois` array gives the candidate ids. */
  lemma IdsInPromptArray(cands: seq<ModelPoi>)
    ensures IdsInValue(Arr(seq(|cands|, i requires 0 <= i < |cands| => ModelPoiValue(cands[i])))) == Ids(cands)
  {
    var v := Arr(seq(|cands|, i requires 0 <= i < |cands| => ModelPoiValue(cands[i])));
    forall i | 0 <= i < |cands|
      ensures StrId(v.items[i]) == {cands[i].id}
    {
      assert Get(ModelPoiValue(cands[i]), "id") == Str(cands[i].id);
    }
    forall s | s in IdsInValue(v) ensures s in Ids(cands) {
      var i :| 0 <= i < |v.items| && s in StrId(v.items[i]);
      assert cands[i] in cands;
    }
    forall s | s in Ids(cands) ensures s in IdsInValue(v) {
      var m :| m in cands && m.id == s;
      var i :| 0 <= i < |cands| && cands[i] == m;
      assert s in StrId(v.items[i]);
    }
  }
}
