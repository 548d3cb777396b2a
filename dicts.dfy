/**
 * Python dictionaries from strings to JSON values, as the station directory
 * builds them: a dict remembers the order in which its keys were first
 * inserted, and `stations.items()` lists them in that order.
 */
module Dicts {
  import opened JsonValues

  /** No element of `s` occurs twice. */
  predicate Distinct(s: seq<string>) {
    forall i, j :: 0 <= i < j < |s| ==> s[i] != s[j]
  }

  /** A dict: its keys in insertion order, and what each key maps to. */
  datatype Dict = Dict(keys: seq<string>, vals: map<string, Json>)

  ghost predicate Valid(d: Dict) {
    Distinct(d.keys) && forall k :: k in d.vals <==> k in d.keys
  }

  /** `{}` */
  const Empty: Dict := Dict([], map[])

  /** The distinct elements of `s`, in order of first occurrence. */
  function Dedup(s: seq<string>): (r: seq<string>)
    ensures Distinct(r)
    ensures forall k :: k in r <==> k in s
    decreases |s|
  {
    if s == [] then []
    else
      var d := Dedup(s[..|s| - 1]);
      assert s == s[..|s| - 1] + [s[|s| - 1]];
      if s[|s| - 1] in d then d else d + [s[|s| - 1]]
  }

  lemma {:induction false} DedupOfDistinct(s: seq<string>)
    requires Distinct(s)
    ensures Dedup(s) == s
    decreases |s|
  {
    if s != [] {
      DedupOfDistinct(s[..|s| - 1]);
    }
  }

  /** One more element goes last unless it was already there. */
  lemma {:induction false} DedupSnoc(s: seq<string>, x: string)
    ensures Dedup(s + [x]) == if x in Dedup(s) then Dedup(s) else Dedup(s) + [x]
  {
    assert (s + [x])[..|s + [x]| - 1] == s;
  }

  /** Removing repetitions early does not change the final order. */
  lemma {:induction false} DedupAppend(a: seq<string>, b: seq<string>)
    ensures Dedup(Dedup(a) + b) == Dedup(a + b)
    decreases |b|
  {
    if b == [] {
      assert a + b == a;
      assert Dedup(a) + b == Dedup(a);
      DedupOfDistinct(Dedup(a));
    } else {
      var b', x := b[..|b| - 1], b[|b| - 1];
      DedupAppend(a, b');
      assert Dedup(a) + b == (Dedup(a) + b') + [x];
      assert a + b == (a + b') + [x];
      DedupSnoc(Dedup(a) + b', x);
      DedupSnoc(a + b', x);
    }
  }

  /** One step of a left-to-right fold of insertions. */
  lemma {:induction false} DedupStep(a: seq<string>, c: string, rest: seq<string>)
    ensures Dedup(Dedup(a + [c]) + rest) == Dedup(a + ([c] + rest))
  {
    DedupAppend(a + [c], rest);
    assert a + [c] + rest == a + ([c] + rest);
  }

  /** The same step, for a non-empty rest of the sequence. */
  lemma {:induction false} DedupCons(a: seq<string>, s: seq<string>)
    requires s != []
    ensures Dedup(Dedup(a + [s[0]]) + s[1..]) == Dedup(a + s)
  {
    DedupStep(a, s[0], s[1..]);
    assert [s[0]] + s[1..] == s;
  }

  /** `d[k] = v`: a new key goes last, an existing key keeps its place. */
  function Set(d: Dict, k: string, v: Json): (r: Dict)
    requires Valid(d)
    ensures Valid(r)
    ensures r.vals == d.vals[k := v]
    ensures r.keys == Dedup(d.keys + [k])
  {
    DedupOfDistinct(d.keys);
    assert (d.keys + [k])[..|d.keys|] == d.keys;
    if k in d.vals then Dict(d.keys, d.vals[k := v])
    else Dict(d.keys + [k], d.vals[k := v])
  }

  /** `d.setdefault(k, v)`: adds `k` with `v` only when `k` is missing. */
  function SetDefault(d: Dict, k: string, v: Json): (r: Dict)
    requires Valid(d)
    ensures Valid(r)
    ensures r.vals == if k in d.vals then d.vals else d.vals[k := v]
    ensures r.keys == Dedup(d.keys + [k])
  {
    DedupOfDistinct(d.keys);
    assert (d.keys + [k])[..|d.keys|] == d.keys;
    if k in d.vals then d else Set(d, k, v)
  }

  /** `{c: v for c in ks}` */
  function FromKeys(ks: seq<string>, v: Json): (r: Dict)
    ensures Valid(r)
    ensures r.keys == Dedup(ks)
    ensures forall k :: k in r.vals <==> k in ks
    ensures forall k :: k in r.vals ==> r.vals[k] == v
  {
    Dict(Dedup(ks), map k | k in ks :: v)
  }

  /** `d.items()`, in insertion order. */
  function Items(d: Dict): (r: seq<(string, Json)>)
    requires Valid(d)
    ensures |r| == |d.keys|
    ensures forall i :: 0 <= i < |r| ==> r[i] == (d.keys[i], d.vals[d.keys[i]])
  {
    seq(|d.keys|, i requires 0 <= i < |d.keys| => (d.keys[i], d.vals[d.keys[i]]))
  }
}
