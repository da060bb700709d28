/** meta-defaults.ts: the recursive merge of JSON metadata over defaults. */
module MetaDefaults {
  import opened Results
  import opened Decimal

  datatype Json = Null | Bool(b: bool) | Num(n: real) | Str(s: string) | Arr(items: seq<Json>) | Obj(fields: map<string, Json>)

  type Fields = map<string, Json>

  /** JavaScript's truthiness; a missing value is modelled as Null. */
  predicate Truthy(j: Json) {
    match j
    case Null => false
    case Bool(b) => b
    case Num(n) => n != 0.0
    case Str(s) => s != ""
    case Arr(_) => true
    case Obj(_) => true
  }

  /** Everything is truthy but the missing value, false, zero and the empty string. */
  lemma FalsyValues(j: Json)
    ensures Truthy(j) <==> j != Null && j != Bool(false) && j != Num(0.0) && j != Str("")
  {
  }

  function IndexFields(items: seq<Json>): (fields: Fields)
    ensures forall k | k in fields :: fields[k] in items
  {
    if items == [] then map[]
    else
      var last := |items| - 1;
      IndexFields(items[..last])[Print(last) := items[last]]
  }

  function Characters(s: string): (items: seq<Json>)
    ensures forall j | j in items :: j.Str?
  {
    seq(|s|, i requires 0 <= i < |s| => Str([s[i]]))
  }

  /** The own enumerable properties that `{ ...j }` copies and `Object.keys(j)` lists. */
  function Spread(j: Json): (fields: Fields)
    ensures forall k | k in fields && fields[k].Obj? :: fields[k] < j
  {
    match j
    case Obj(fields) => fields
    case Arr(items) => IndexFields(items)
    case Str(s) => IndexFields(Characters(s))
    case _ => map[]
  }

  /** The fields are the items by position. */
  ghost predicate ByPosition(fields: Fields, items: seq<Json>) {
    && (forall k | k in fields :: IsPosition(k, |items|))
    && (forall i | 0 <= i < |items| :: Print(i) in fields && fields[Print(i)] == items[i])
  }

  ghost predicate IsPosition(k: string, n: nat) {
    exists i: nat :: i < n && k == Print(i)
  }

  lemma PositionsDiffer(i: nat, j: nat)
    requires Print(i) == Print(j)
    ensures i == j
  {
    hide *;
    ParsePrint(i);
    ParsePrint(j);
  }

  lemma IsPositionLater(k: string, n: nat)
    requires IsPosition(k, n)
    ensures IsPosition(k, n + 1)
  {
  }

  lemma OneMorePosition(fields: Fields, items: seq<Json>, last: Json)
    requires ByPosition(fields, items)
    ensures ByPosition(fields[Print(|items|) := last], items + [last])
  {
    hide Print, IsPosition;
    var n := |items|;
    var key := Print(n);
    var after := fields[key := last];
    forall k | k in after
      ensures IsPosition(k, n + 1)
    {
      if k == key {
        LastPosition(n);
      } else {
        IsPositionLater(k, n);
      }
    }
    forall i | 0 <= i < n + 1
      ensures Print(i) in after && after[Print(i)] == (items + [last])[i]
    {
      if i < n && Print(i) == key {
        PositionsDiffer(i, n);
      }
    }
  }

  lemma LastPosition(n: nat)
    ensures IsPosition(Print(n), n + 1)
  {
    hide Print;
  }

  lemma IndexOneMore(items: seq<Json>, last: Json)
    ensures IndexFields(items + [last]) == IndexFields(items)[Print(|items|) := last]
  {
    hide Print;
    assert (items + [last])[..|items|] == items;
  }

  lemma NothingIndexed()
    ensures ByPosition(IndexFields([]), [])
  {
  }

  lemma {:induction false} IndexedByPosition(items: seq<Json>)
    ensures ByPosition(IndexFields(items), items)
  {
    hide *;
    if items == [] {
      NothingIndexed();
    } else {
      var init, last := items[..|items| - 1], items[|items| - 1];
      assert init + [last] == items;
      IndexedByPosition(init);
      IndexOneMore(init, last);
      OneMorePosition(IndexFields(init), init, last);
    }
  }

  /** An array spreads into its items and a string into its characters, by position; numbers and booleans have nothing to spread. */
  lemma SpreadByPosition(j: Json)
    ensures j.Arr? ==> ByPosition(Spread(j), j.items)
    ensures j.Str? ==> exists items :: |items| == |j.s| && (forall i | 0 <= i < |items| :: items[i] == Str([j.s[i]])) && ByPosition(Spread(j), items)
    ensures j.Null? || j.Bool? || j.Num? ==> Spread(j) == map[]
  {
    hide ByPosition, IndexFields;
    if j.Arr? {
      IndexedByPosition(j.items);
    } else if j.Str? {
      var items := Characters(j.s);
      IndexedByPosition(items);
      assert forall i | 0 <= i < |items| :: items[i] == Str([j.s[i]]);
    }
  }

  /** `result[key] ?? {}` */
  function OrEmpty(fields: Fields, key: string): Json {
    if key !in fields || fields[key] == Null then Obj(map[]) else fields[key]
  }

  /** The merge: every key of the override wins, and objects merge into what the base holds under the key. */
  function Merge(base: Json, override: Json): (r: Json)
    decreases override
  {
    if !Truthy(override) then base
    else
      var b, o := Spread(base), Spread(override);
      Obj(map k | k in b.Keys + o.Keys ::
        if k !in o then b[k] else if o[k].Obj? then Merge(OrEmpty(b, k), o[k]) else o[k])
  }

  /** The keys of `o` outside `keys` have their merged value; every other key still has the base's. */
  ghost predicate PartlyMerged(b: Fields, o: Fields, merged: Fields, keys: set<string>, result: Fields) {
    && keys <= o.Keys && merged.Keys == b.Keys + o.Keys
    && result.Keys == b.Keys + (o.Keys - keys)
    && (forall k | k in result :: result[k] == if k in o && k !in keys then merged[k] else b[k])
  }

  lemma MergeKey(b: Fields, o: Fields, merged: Fields, keys: set<string>, result: Fields, key: string)
    requires PartlyMerged(b, o, merged, keys, result) && key in keys
    ensures PartlyMerged(b, o, merged, keys - {key}, result[key := merged[key]])
    ensures OrEmpty(result, key) == OrEmpty(b, key)
  {
  }

  lemma MergeStarts(base: Json, override: Json)
    requires Truthy(override)
    ensures var b, o := Spread(base), Spread(override);
      PartlyMerged(b, o, Merge(base, override).fields, o.Keys, b)
  {
  }

  lemma AllMerged(b: Fields, o: Fields, merged: Fields, result: Fields)
    requires PartlyMerged(b, o, merged, {}, result) && forall k | k in b && k !in o :: k in merged && merged[k] == b[k]
    ensures result == merged
  {
  }

  lemma UntouchedKeys(base: Json, override: Json)
    requires Truthy(override)
    ensures var b, o, merged := Spread(base), Spread(override), Merge(base, override).fields;
      forall k | k in b && k !in o :: k in merged && merged[k] == b[k]
  {
    hide Spread, OrEmpty;
  }

  lemma MergeEnds(base: Json, override: Json, result: Fields)
    requires Truthy(override)
    requires PartlyMerged(Spread(base), Spread(override), Merge(base, override).fields, {}, result)
    ensures Obj(result) == Merge(base, override)
  {
    UntouchedKeys(base, override);
    hide PartlyMerged, Spread;
    AllMerged(Spread(base), Spread(override), Merge(base, override).fields, result);
  }

  lemma MergedValue(base: Json, override: Json, key: string)
    requires Truthy(override) && key in Spread(override)
    ensures var o := Spread(override);
      Merge(base, override).fields[key] == if o[key].Obj? then Merge(OrEmpty(Spread(base), key), o[key]) else o[key]
  {
  }

  /** The merge as deepMergeMeta computes it: copy the base, then take the override's keys one by one. */
  method DeepMergeMeta(base: Json, override: Json) returns (r: Json)
    ensures r == Merge(base, override)
    decreases override
  {
    if !Truthy(override) {
      return base;
    }
    var b, o := Spread(base), Spread(override);
    ghost var merged := Merge(base, override).fields;
    var result, keys := b, o.Keys;
    MergeStarts(base, override);
    hide Merge, Spread, Truthy, PartlyMerged, OrEmpty;
    KeysAre(b, o, merged, keys, result);
    while keys != {}
      invariant keys <= o.Keys && PartlyMerged(b, o, merged, keys, result)
      decreases |keys|
    {
      var key: string :| key in keys;
      MergeKey(b, o, merged, keys, result, key);
      MergedValue(base, override, key);
      if o[key].Obj? {
        var value := DeepMergeMeta(OrEmpty(result, key), o[key]);
        result := result[key := value];
      } else {
        result := result[key := o[key]];
      }
      keys := keys - {key};
    }
    MergeEnds(base, override, result);
    return Obj(result);
  }

  lemma KeysAre(b: Fields, o: Fields, merged: Fields, keys: set<string>, result: Fields)
    requires PartlyMerged(b, o, merged, keys, result)
    ensures keys <= o.Keys && merged.Keys == b.Keys + o.Keys
  {
  }

  const DEFAULT_META: Json := Obj(map[
    "color" := Str("#6A4BBC"),
    "visible" := Bool(true),
    "locked" := Bool(false),
    "spacing" := Num(50.0),
    "radius" := Num(120.0),
    "shape" := Str("circle")
  ])

  method PrepareMeta(inputMeta: Json) returns (meta: Json)
    ensures meta == Prepared(inputMeta)
  {
    meta := DeepMergeMeta(DEFAULT_META, inputMeta);
  }

  function Prepared(inputMeta: Json): Json {
    Merge(DEFAULT_META, inputMeta)
  }

  /** An object merged over itself is itself. */
  lemma {:induction false} MergeSelf(x: Json)
    requires x.Obj?
    ensures Merge(x, x) == x
  {
    forall k | k in x.fields && x.fields[k].Obj?
      ensures Merge(x.fields[k], x.fields[k]) == x.fields[k]
    {
      MergeSelf(x.fields[k]);
    }
    assert Merge(x, x).fields == x.fields;
  }

  /** Merging an object in twice is merging it in once, also over strings, arrays and other bases that get spread. */
  lemma {:induction false} MergeTwice(base: Json, override: Json)
    requires Truthy(override)
    ensures Merge(base, Merge(base, override)) == Merge(base, override)
    decreases override
  {
    var b, o := Spread(base), Spread(override);
    var once := Merge(base, override);
    var twice := Merge(base, once);
    assert twice.fields.Keys == once.fields.Keys;
    forall k | k in once.fields
      ensures twice.fields[k] == once.fields[k]
    {
      if k in o && o[k].Obj? {
        MergeTwice(OrEmpty(b, k), o[k]);
      } else if k !in o && b[k].Obj? {
        MergeSelf(b[k]);
      }
    }
    assert twice.fields == once.fields;
  }

  /**
   Merging is idempotent except in one case: an override that JavaScript counts as false leaves the
   base alone, and merging a base that is neither an object nor false over itself rebuilds it as an object.
   */
  lemma MergeIdempotentIff(base: Json, override: Json)
    ensures Merge(base, Merge(base, override)) == Merge(base, override)
       <==> Truthy(override) || base.Obj? || !Truthy(base)
  {
    if Truthy(override) {
      MergeTwice(base, override);
    } else if base.Obj? {
      MergeSelf(base);
    }
  }

  /** Metadata that has been prepared once is left unchanged when it is prepared again, as cloning does. */
  lemma PreparedIsStable(inputMeta: Json)
    ensures Prepared(Prepared(inputMeta)) == Prepared(inputMeta)
    ensures Prepared(inputMeta).Obj? && DEFAULT_META.fields.Keys <= Prepared(inputMeta).fields.Keys
  {
    MergeIdempotentIff(DEFAULT_META, inputMeta);
  }

  type Path = seq<string>

  /** The value at a path through nested objects. */
  function Get(j: Json, path: Path): (v: Json)
    requires Has(j, path)
    decreases path
  {
    if path == [] then j else Get(j.fields[path[0]], path[1..])
  }

  predicate Has(j: Json, path: Path)
    decreases path
  {
    path == [] || (j.Obj? && path[0] in j.fields && Has(j.fields[path[0]], path[1..]))
  }

  /** Some object along the path does not mention the next key. */
  predicate Silent(j: Json, path: Path)
    decreases path
  {
    path != [] && j.Obj? && (path[0] !in j.fields || Silent(j.fields[path[0]], path[1..]))
  }

  /** Where the override has a value that is not an object, the merge has that value. */
  lemma {:induction false} OverrideWins(base: Json, override: Json, path: Path)
    requires path != [] && Has(override, path) && !Get(override, path).Obj?
    ensures Has(Merge(base, override), path) && Get(Merge(base, override), path) == Get(override, path)
    decreases path
  {
    var key, rest := path[0], path[1..];
    var value := override.fields[key];
    if rest != [] {
      OverrideWins(OrEmpty(Spread(base), key), value, rest);
      assert Merge(base, override).fields[key] == Merge(OrEmpty(Spread(base), key), value);
    }
  }

  /** Where the override is silent, the merge keeps what the base has. */
  lemma {:induction false} BaseIsKept(base: Json, override: Json, path: Path)
    requires Silent(override, path) && Has(base, path)
    ensures Has(Merge(base, override), path) && Get(Merge(base, override), path) == Get(base, path)
    decreases path
  {
    var key, rest := path[0], path[1..];
    if key in override.fields {
      BaseIsKept(base.fields[key], override.fields[key], rest);
      assert base.fields[key].Obj?;
      assert Merge(base, override).fields[key] == Merge(base.fields[key], override.fields[key]);
    }
  }

  /** The value that a path of keys leads to, strings and arrays seen through the properties that spreading gives them. */
  function At(j: Json, path: Path): (v: Option<Json>)
    decreases path
  {
    if path == [] then Some(j)
    else if path[0] in Spread(j) then At(Spread(j)[path[0]], path[1..])
    else None
  }

  lemma {:induction false} HasIsAt(j: Json, path: Path)
    requires Has(j, path)
    ensures At(j, path) == Some(Get(j, path))
    decreases path
  {
    if path != [] {
      HasIsAt(j.fields[path[0]], path[1..]);
    }
  }

  /** Nothing else appears: every value of the merge that is not an object stands at its path in the override or in the base. */
  lemma {:induction false} MergeAddsNothing(base: Json, override: Json, path: Path)
    requires path != [] && Has(Merge(base, override), path) && !Get(Merge(base, override), path).Obj?
    ensures var v := Some(Get(Merge(base, override), path)); At(override, path) == v || At(base, path) == v
    decreases path
  {
    var key, rest := path[0], path[1..];
    var b, o := Spread(base), Spread(override);
    if !Truthy(override) {
      HasIsAt(base, path);
    } else if key !in o {
      HasIsAt(b[key], rest);
    } else if o[key].Obj? {
      assert Merge(base, override).fields[key] == Merge(OrEmpty(b, key), o[key]);
      MergeAddsNothing(OrEmpty(b, key), o[key], rest);
    } else {
      assert rest == [];
    }
  }

  /** Prepared metadata has what the input says, the defaults where it says nothing, and only the defaults when there is none. */
  lemma PreparedFills(inputMeta: Json, path: Path)
    ensures path != [] && Has(inputMeta, path) && !Get(inputMeta, path).Obj? ==>
      Has(Prepared(inputMeta), path) && Get(Prepared(inputMeta), path) == Get(inputMeta, path)
    ensures Silent(inputMeta, path) && Has(DEFAULT_META, path) ==>
      Has(Prepared(inputMeta), path) && Get(Prepared(inputMeta), path) == Get(DEFAULT_META, path)
    ensures !Truthy(inputMeta) ==> Prepared(inputMeta) == DEFAULT_META
  {
    hide Has, Get, Silent, Truthy;
    if path != [] && Has(inputMeta, path) && !Get(inputMeta, path).Obj? {
      OverrideWins(DEFAULT_META, inputMeta, path);
    }
    if Silent(inputMeta, path) && Has(DEFAULT_META, path) {
      BaseIsKept(DEFAULT_META, inputMeta, path);
    }
  }

  /** A string merged with nothing, and merged with the result again, is turned into an object of its characters. */
  lemma StringIsNotIdempotent()
    ensures var base := Str("x"); Merge(base, Merge(base, Null)) != Merge(base, Null)
  {
    MergeIdempotentIff(Str("x"), Null);
  }
}
