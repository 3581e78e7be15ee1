/** The parameter dictionaries: the simulator parameters and the optimiser
    bounds are both built with `dict(zip(keys, values))` from lists in the
    configuration, and the simulator configuration is the merge of the
    rounded parameters with the particle count. A Python dict is modelled
    with its insertion order, because that order decides which template key
    matches first and in which order a row is written. */
module SimParams {
  import opened Base
  import opened Text

  /** A Python dict with string keys: the keys in insertion order and the
      value stored under each. */
  datatype Dict<V> = Dict(order: seq<string>, at: map<string, V>)

  predicate Distinct(s: seq<string>) {
    forall i, j :: 0 <= i < j < |s| ==> s[i] != s[j]
  }

  /** Every key appears once in the order, and the order lists the stored keys. */
  ghost predicate Valid<V>(d: Dict<V>) {
    Distinct(d.order) && forall k :: k in d.at <==> k in d.order
  }

  function Min(a: nat, b: nat): nat {
    if a <= b then a else b
  }

  /** `d[k] = v`: a key already present keeps its place, a new key goes last. */
  function Store<V>(d: Dict<V>, k: string, v: V): (r: Dict<V>)
    requires Valid(d)
    ensures Valid(r)
    ensures r.at == d.at[k := v]
    ensures |r.order| == |d.order| + (if k in d.at then 0 else 1)
    ensures r.order[..|d.order|] == d.order
  {
    if k in d.at then Dict(d.order, d.at[k := v]) else Dict(d.order + [k], d.at[k := v])
  }

  // ---------------------------------------------------------------------
  // dict(zip(keys, values))
  // ---------------------------------------------------------------------

  /** `dict(zip(ks, vs))`: the pairs at the same position, up to the shorter
      list, stored from left to right. */
  function ZipDict<V>(ks: seq<string>, vs: seq<V>): (d: Dict<V>)
    ensures Valid(d)
    ensures |d.order| <= Min(|ks|, |vs|)
    decreases |ks|
  {
    var n := Min(|ks|, |vs|);
    if n == 0 then Dict([], map[])
    else Store(ZipDict(ks[..n - 1], vs[..n - 1]), ks[n - 1], vs[n - 1])
  }

  /** The keys of the zipped dict are exactly the keys paired with a value. */
  lemma {:induction false} ZipKeys<V>(ks: seq<string>, vs: seq<V>, k: string)
    ensures k in ZipDict(ks, vs).at <==> exists i :: 0 <= i < Min(|ks|, |vs|) && ks[i] == k
    decreases |ks|
  {
    var n := Min(|ks|, |vs|);
    if n > 0 {
      var ps := ks[..n - 1];
      var p := ZipDict(ps, vs[..n - 1]);
      ZipKeys(ps, vs[..n - 1], k);
      assert Min(|ps|, |vs[..n - 1]|) == n - 1;
      assert ZipDict(ks, vs).at == p.at[ks[n - 1] := vs[n - 1]];
      if k in p.at {
        var i :| 0 <= i < n - 1 && ps[i] == k;
        assert ks[i] == k;
      } else if k != ks[n - 1] {
        forall i | 0 <= i < n
          ensures ks[i] != k
        {
          if i < n - 1 {
            assert ps[i] == ks[i];
          }
        }
      }
    }
  }

  /** Pairing is by position and the last pair with a key wins: a key's
      value is the value at its last position. */
  lemma {:induction false} ZipLastWins<V>(ks: seq<string>, vs: seq<V>, i: nat)
    requires i < Min(|ks|, |vs|)
    requires forall j :: i < j < Min(|ks|, |vs|) ==> ks[j] != ks[i]
    ensures ks[i] in ZipDict(ks, vs).at && ZipDict(ks, vs).at[ks[i]] == vs[i]
    decreases |ks|
  {
    var n := Min(|ks|, |vs|);
    var p := ZipDict(ks[..n - 1], vs[..n - 1]);
    assert ZipDict(ks, vs).at == p.at[ks[n - 1] := vs[n - 1]];
    if i < n - 1 {
      var ps := ks[..n - 1];
      assert Min(|ps|, |vs[..n - 1]|) == n - 1;
      assert forall j :: i < j < n - 1 ==> ps[j] != ps[i];
      ZipLastWins(ps, vs[..n - 1], i);
      assert ks[n - 1] != ks[i];
    }
  }

  /** With distinct keys the dict is the zip itself: the keys in list order
      (up to the shorter list), each with the value at its position. */
  lemma ZipDistinct<V>(ks: seq<string>, vs: seq<V>)
    requires Distinct(ks)
    ensures ZipDict(ks, vs).order == ks[..Min(|ks|, |vs|)]
    ensures forall i :: 0 <= i < Min(|ks|, |vs|) ==> ZipDict(ks, vs).at[ks[i]] == vs[i]
  {
    ZipDistinctOrder(ks, vs);
    forall i | 0 <= i < Min(|ks|, |vs|)
      ensures ZipDict(ks, vs).at[ks[i]] == vs[i]
    {
      ZipLastWins(ks, vs, i);
    }
  }

  lemma {:induction false} ZipDistinctOrder<V>(ks: seq<string>, vs: seq<V>)
    requires Distinct(ks)
    ensures ZipDict(ks, vs).order == ks[..Min(|ks|, |vs|)]
    decreases |ks|
  {
    var n := Min(|ks|, |vs|);
    if n > 0 {
      var ps, qs := ks[..n - 1], vs[..n - 1];
      var d := ZipDict(ps, qs);
      assert d.order == ps && ks[n - 1] !in d.at by {
        DistinctPrefix(ks, n - 1);
        ZipDistinctOrder(ps, qs);
        assert Min(|ps|, |qs|) == n - 1 && ps[..n - 1] == ps;
      }
      StoreFreshAppends(d, ps, ks[n - 1], vs[n - 1]);
      ZipStep(ks, vs);
      LastAppended(ks, n);
    }
  }

  /** Storing a key the dict lacks appends it to the order. */
  lemma StoreFreshAppends<V>(d: Dict<V>, ps: seq<string>, k: string, v: V)
    requires Valid(d) && d.order == ps && k !in d.at
    ensures Store(d, k, v).order == ps + [k]
  {
  }

  /** A prefix is the shorter prefix and its last element. */
  lemma LastAppended<T>(s: seq<T>, n: nat)
    requires 0 < n <= |s|
    ensures s[..n] == s[..n - 1] + [s[n - 1]]
  {
  }

  /** One step of the zip: the last pair is stored into the zip of the rest. */
  lemma ZipStep<V>(ks: seq<string>, vs: seq<V>)
    requires Min(|ks|, |vs|) > 0
    ensures var n := Min(|ks|, |vs|);
            ZipDict(ks, vs) == Store(ZipDict(ks[..n - 1], vs[..n - 1]), ks[n - 1], vs[n - 1])
  {
  }

  /** A prefix of a list without repeats has none, and misses every later element. */
  lemma DistinctPrefix(ks: seq<string>, m: nat)
    requires Distinct(ks) && m < |ks|
    ensures Distinct(ks[..m]) && ks[m] !in ks[..m]
  {
    var ps := ks[..m];
    assert forall j :: 0 <= j < m ==> ps[j] == ks[j];
  }

  /** Storing a new key appends it to the order. */
  lemma StoreNew<V>(d: Dict<V>, k: string, v: V)
    requires Valid(d) && k !in d.order
    ensures Store(d, k, v).order == d.order + [k]
  {
  }

  /** The insertion order depends on the keys and on how many pairs there
      are, never on the values. */
  lemma {:induction false} ZipOrderFromKeys<V, W>(ks: seq<string>, vs: seq<V>, ws: seq<W>)
    requires Min(|ks|, |vs|) == Min(|ks|, |ws|)
    ensures ZipDict(ks, vs).order == ZipDict(ks, ws).order
    ensures ZipDict(ks, vs).at.Keys == ZipDict(ks, ws).at.Keys
    decreases |ks|
  {
    var n := Min(|ks|, |vs|);
    if n > 0 {
      ZipOrderFromKeys(ks[..n - 1], vs[..n - 1], ws[..n - 1]);
    }
  }

  /** `get_sim_params_keys_values_dict_impl` and `get_sim_params_kv_dict_impl`:
      the simulator parameters keyed by the configured names. The two
      methods are the same expression, so both are this one function. */
  function ParamsDict<V>(k: seq<string>, v: seq<V>): (d: Dict<V>)
    ensures Valid(d)
    ensures forall key :: key in d.at ==> exists i :: 0 <= i < |k| && i < |v| && k[i] == key
  {
    var d := ZipDict(k, v);
    forall key | key in d.at
      ensures exists i :: 0 <= i < |k| && i < |v| && k[i] == key
    {
      ZipKeys(k, v, key);
    }
    d
  }

  /** `get_parameter_bounds_dict_impl`: the bounds keyed by the same names. */
  function BoundsDict<B>(k: seq<string>, b: seq<B>): (d: Dict<B>)
    ensures Valid(d)
    ensures |d.order| <= Min(|k|, |b|)
    ensures forall key :: key in d.at ==> exists i :: 0 <= i < |k| && i < |b| && k[i] == key
  {
    ParamsDict(k, b)
  }

  /** When both value lists cover every key, the bounds dict and the
      parameter dict have the same keys in the same order, so the startup
      check on their keys passes. */
  lemma BoundsMatchParams<V, B>(k: seq<string>, v: seq<V>, b: seq<B>)
    requires |v| >= |k| && |b| >= |k|
    ensures BoundsDict(k, b).order == ParamsDict(k, v).order
    ensures BoundsDict(k, b).at.Keys == ParamsDict(k, v).at.Keys
  {
    ZipOrderFromKeys(k, v, b);
  }

  /** `get_particles_key_value_dict_impl`: a single entry, the particle key
      with int() of the configured particle count. */
  function ParticlesDict(kparticles: string, vparticles: string): (r: Result<Dict<int>>)
    ensures r.Ok? <==> ParseInt(vparticles).Ok?
    ensures r.Raise? ==> r.exc.ValueError?
    ensures r.Ok? ==> r.value.order == [kparticles] && r.value.at == map[kparticles := ParseInt(vparticles).value]
  {
    var n :- ParseInt(vparticles);
    Ok(Dict([kparticles], map[kparticles := n]))
  }

  /** A count written in decimal is read back as that count. */
  lemma ParticlesOfCount(kparticles: string, n: nat)
    ensures ParticlesDict(kparticles, NatToString(n)) == Ok(Dict([kparticles], map[kparticles := n]))
  {
    ParseNatToString(n);
  }

  // ---------------------------------------------------------------------
  // {k: f(v) for k, v in d.items()} and {**a, **b}
  // ---------------------------------------------------------------------

  /** The values of `ks` under `f`, in key order; the first key whose
      conversion raises stops the comprehension. */
  function MapOver<V, W>(ks: seq<string>, m: map<string, V>, f: V -> Result<W>): (r: Result<map<string, W>>)
    requires forall i :: 0 <= i < |ks| ==> ks[i] in m
    ensures r.Ok? <==> forall i :: 0 <= i < |ks| ==> f(m[ks[i]]).Ok?
    ensures r.Ok? ==> forall k :: k in r.value <==> k in ks
    ensures r.Ok? ==> forall i :: 0 <= i < |ks| ==> r.value[ks[i]] == f(m[ks[i]]).value
    ensures r.Raise? ==> exists i :: 0 <= i < |ks| && f(m[ks[i]]) == Raise(r.exc)
                                    && forall j :: 0 <= j < i ==> f(m[ks[j]]).Ok?
    decreases |ks|
  {
    if |ks| == 0 then Ok(map[])
    else
      match f(m[ks[0]])
      case Raise(e) => Raise(e)
      case Ok(w) =>
        var rest := MapOver(ks[1..], m, f);
        assert forall i :: 1 <= i < |ks| ==> ks[1..][i - 1] == ks[i];
        match rest
        case Raise(e) =>
          assert exists i :: 1 <= i < |ks| && f(m[ks[i]]) == Raise(e) && forall j :: 0 <= j < i ==> f(m[ks[j]]).Ok? by {
            var i :| 0 <= i < |ks[1..]| && f(m[ks[1..][i]]) == Raise(e)
                     && forall j :: 0 <= j < i ==> f(m[ks[1..][j]]).Ok?;
            assert forall j :: 1 <= j < i + 1 ==> ks[j] == ks[1..][j - 1];
          }
          Raise(e)
        case Ok(mm) =>
          assert forall i :: 1 <= i < |ks| ==> ks[i] in ks[1..];
          Ok(mm[ks[0] := w])
  }

  /** The dict comprehension `{k: f(v) for k, v in d.items()}`. */
  function MapValues<V, W>(d: Dict<V>, f: V -> Result<W>): (r: Result<Dict<W>>)
    requires Valid(d)
    ensures r.Ok? <==> forall i :: 0 <= i < |d.order| ==> f(d.at[d.order[i]]).Ok?
    ensures r.Ok? ==> Valid(r.value) && r.value.order == d.order
    ensures r.Ok? ==> forall k :: k in d.at ==> r.value.at[k] == f(d.at[k]).value
  {
    var m :- MapOver(d.order, d.at, f);
    Ok(Dict(d.order, m))
  }

  /** Storing the keys `ks` of `m` into `a`, one after the other. */
  function StoreAll<V>(a: Dict<V>, ks: seq<string>, m: map<string, V>): (r: Dict<V>)
    requires Valid(a)
    requires forall i :: 0 <= i < |ks| ==> ks[i] in m
    ensures Valid(r)
    decreases |ks|
  {
    if |ks| == 0 then a
    else StoreAll(Store(a, ks[0], m[ks[0]]), ks[1..], m)
  }

  lemma InTail(ks: seq<string>, k: string)
    requires |ks| > 0
    ensures k in ks <==> k == ks[0] || k in ks[1..]
  {
    assert ks == [ks[0]] + ks[1..];
  }

  /** After the stores a key is present when it was before or was stored,
      and holds the stored value when it was stored. */
  lemma {:induction false} StoreAllAt<V>(a: Dict<V>, ks: seq<string>, m: map<string, V>, k: string)
    requires Valid(a)
    requires forall i :: 0 <= i < |ks| ==> ks[i] in m
    ensures k in StoreAll(a, ks, m).at <==> k in a.at || k in ks
    ensures k in StoreAll(a, ks, m).at ==> StoreAll(a, ks, m).at[k] == if k in ks then m[k] else a.at[k]
    decreases |ks|
  {
    if |ks| > 0 {
      var s := Store(a, ks[0], m[ks[0]]);
      assert StoreAll(a, ks, m) == StoreAll(s, ks[1..], m);
      StoreAllAt(s, ks[1..], m, k);
      InTail(ks, k);
    }
  }

  /** The stores never move a key that was already there. */
  lemma {:induction false} StoreAllKeepsOrder<V>(a: Dict<V>, ks: seq<string>, m: map<string, V>)
    requires Valid(a)
    requires forall i :: 0 <= i < |ks| ==> ks[i] in m
    ensures |a.order| <= |StoreAll(a, ks, m).order|
    ensures StoreAll(a, ks, m).order[..|a.order|] == a.order
    decreases |ks|
  {
    if |ks| > 0 {
      var s := Store(a, ks[0], m[ks[0]]);
      StoreAllKeepsOrder(s, ks[1..], m);
      var r := StoreAll(a, ks, m);
      assert r.order[..|a.order|] == r.order[..|s.order|][..|a.order|];
    }
  }

  /** `{**a, **b}`: the keys of `a` in their places, then the new keys of
      `b`; on a shared key the value of `b` wins. */
  function Merge<V>(a: Dict<V>, b: Dict<V>): (r: Dict<V>)
    requires Valid(a) && Valid(b)
    ensures Valid(r)
  {
    StoreAll(a, b.order, b.at)
  }

  /** The merge keeps every key of both, takes a shared key's value from
      the right-hand dict, and keeps the left-hand keys first. */
  lemma MergeRightWins<V>(a: Dict<V>, b: Dict<V>)
    requires Valid(a) && Valid(b)
    ensures forall k :: k in Merge(a, b).at <==> k in a.at || k in b.at
    ensures forall k :: k in b.at ==> Merge(a, b).at[k] == b.at[k]
    ensures forall k :: k in a.at && k !in b.at ==> Merge(a, b).at[k] == a.at[k]
    ensures |a.order| <= |Merge(a, b).order| && Merge(a, b).order[..|a.order|] == a.order
  {
    forall k
      ensures k in Merge(a, b).at <==> k in a.at || k in b.at
      ensures k in Merge(a, b).at ==> Merge(a, b).at[k] == if k in b.at then b.at[k] else a.at[k]
    {
      StoreAllAt(a, b.order, b.at, k);
    }
    StoreAllKeepsOrder(a, b.order, b.at);
  }

  /** Storing keys the dict does not hold appends them in their order. */
  lemma {:induction false} StoreAllFresh<V>(a: Dict<V>, ks: seq<string>, m: map<string, V>)
    requires Valid(a) && Distinct(ks)
    requires forall i :: 0 <= i < |ks| ==> ks[i] in m && ks[i] !in a.at
    ensures StoreAll(a, ks, m).order == a.order + ks
    decreases |ks|
  {
    if |ks| > 0 {
      var k, tail := ks[0], ks[1..];
      var s := Store(a, k, m[k]);
      StoreFresh(a, k, m[k]);
      FreshTail(a.at, ks, m);
      calc {
        StoreAll(a, ks, m).order;
        { StoreAllStep(a, ks, m); }
        StoreAll(s, tail, m).order;
        { StoreAllFresh(s, tail, m); }
        s.order + tail;
        a.order + [k] + tail;
        { assert [k] + tail == ks; }
        a.order + ks;
      }
    }
  }

  lemma StoreFresh<V>(a: Dict<V>, k: string, v: V)
    requires Valid(a) && k !in a.at
    ensures Store(a, k, v).order == a.order + [k] && Store(a, k, v).at == a.at[k := v]
  {
  }

  lemma StoreAllStep<V>(a: Dict<V>, ks: seq<string>, m: map<string, V>)
    requires Valid(a) && |ks| > 0
    requires forall i :: 0 <= i < |ks| ==> ks[i] in m
    ensures StoreAll(a, ks, m) == StoreAll(Store(a, ks[0], m[ks[0]]), ks[1..], m)
  {
  }

  /** What StoreAllFresh needs of the keys after the first one stored. */
  lemma FreshTail<V>(at: map<string, V>, ks: seq<string>, m: map<string, V>)
    requires |ks| > 0 && Distinct(ks)
    requires forall i :: 0 <= i < |ks| ==> ks[i] in m && ks[i] !in at
    ensures Distinct(ks[1..])
    ensures forall i :: 0 <= i < |ks[1..]| ==> ks[1..][i] in m && ks[1..][i] !in at[ks[0] := m[ks[0]]]
  {
    assert forall i :: 0 <= i < |ks[1..]| ==> ks[1..][i] == ks[i + 1];
  }

  /** The first position of `ks` whose key `m` holds, None when there is none. */
  function FirstShared<V>(ks: seq<string>, m: map<string, V>): (r: Option<nat>)
    ensures r.None? <==> forall i :: 0 <= i < |ks| ==> ks[i] !in m
    ensures r.Some? ==> r.value < |ks| && ks[r.value] in m && forall j :: 0 <= j < r.value ==> ks[j] !in m
    decreases |ks|
  {
    if |ks| == 0 then None
    else if ks[0] in m then Some(0)
    else
      var r := FirstShared(ks[1..], m);
      assert forall i :: 1 <= i < |ks| ==> ks[1..][i - 1] == ks[i];
      if r.None? then None else Some(r.value + 1)
  }

  function MultipleValues(k: string): string {
    "dict() got multiple values for keyword argument '" + k + "'"
  }

  /** The two halves of `dict(**a, **b)` after `a` is in: the keys of `b` go
      in one by one, and the first one `a` already holds raises TypeError.
      With no key shared the result holds both dicts, `a`'s keys first. */
  function KeywordMerge<V>(a: Dict<V>, b: Dict<V>): (r: Result<Dict<V>>)
    requires Valid(a) && Valid(b)
    ensures r.Ok? <==> forall k :: k in b.at ==> k !in a.at
    ensures r.Ok? ==> Valid(r.value) && r.value.order == a.order + b.order && r.value.at == a.at + b.at
    ensures r.Raise? ==> exists i :: 0 <= i < |b.order| && b.order[i] in a.at
                                     && r.exc == TypeError(MultipleValues(b.order[i]))
                                     && forall j :: 0 <= j < i ==> b.order[j] !in a.at
  {
    match FirstShared(b.order, a.at)
    case Some(i) => Raise(TypeError(MultipleValues(b.order[i])))
    case None =>
      MergeDisjoint(a, b);
      Ok(Merge(a, b))
  }

  /** Merging a dict that shares no key appends its keys and joins the maps. */
  lemma MergeDisjoint<V>(a: Dict<V>, b: Dict<V>)
    requires Valid(a) && Valid(b)
    requires forall i :: 0 <= i < |b.order| ==> b.order[i] !in a.at
    ensures Merge(a, b) == Dict(a.order + b.order, a.at + b.at)
  {
    StoreAllFresh(a, b.order, b.at);
    MergeJoinsMaps(a, b);
  }

  lemma MergeJoinsMaps<V>(a: Dict<V>, b: Dict<V>)
    requires Valid(a) && Valid(b)
    ensures Merge(a, b).at == a.at + b.at
  {
    var r := Merge(a, b);
    forall k
      ensures k in r.at <==> k in a.at + b.at
      ensures k in r.at ==> r.at[k] == (a.at + b.at)[k]
    {
      StoreAllAt(a, b.order, b.at, k);
    }
  }

  // ---------------------------------------------------------------------
  // The simulator configuration built from parameters and particles
  // ---------------------------------------------------------------------

  /** How one optimiser value becomes text. `round` is
      `round(np.float32(v), decimal_precision)`, which raises for a value
      that is not a number; the rounded float32 is then rendered two ways.
      `written` is the f-string `f'{v}'` of the template rewriter, which
      numpy formats through Python's float (0.12 is written as
      "0.11999999731779099"); `shown` is `str()` of the value, numpy's
      shortest float32 text ("0.12"), which the result row uses. Both
      renderings are opaque here. */
  datatype Rounding<!V, !F> = Rounding(round: V -> Result<F>, written: F -> string, shown: F -> string)

  /** A rendering applied to a rounding that may have raised. */
  function Render<F>(r: Result<F>, text: F -> string): Result<string> {
    match r
    case Ok(x) => Ok(text(x))
    case Raise(e) => Raise(e)
  }

  /** The text the template rewriter writes for a value. */
  function ConfigText<V, F>(rd: Rounding<V, F>): V -> Result<string> {
    v => Render(rd.round(v), rd.written)
  }

  /** The text the result row shows for a value. */
  function RowText<V, F>(rd: Rounding<V, F>): V -> Result<string> {
    v => Render(rd.round(v), rd.shown)
  }

  /** Both texts come from the one rounding: either every value rounds and
      then each key is written and shown from the same rounded value, or
      neither text exists. */
  lemma RoundOnce<V, F>(d: Dict<V>, rd: Rounding<V, F>)
    requires Valid(d)
    ensures MapValues(d, ConfigText(rd)).Ok? <==> forall k :: k in d.at ==> rd.round(d.at[k]).Ok?
    ensures MapValues(d, RowText(rd)).Ok? <==> MapValues(d, ConfigText(rd)).Ok?
    ensures MapValues(d, ConfigText(rd)).Ok? ==>
              var w, s := MapValues(d, ConfigText(rd)).value, MapValues(d, RowText(rd)).value;
              && w.order == d.order && s.order == d.order
              && (forall k :: k in d.at ==> w.at[k] == rd.written(rd.round(d.at[k]).value))
              && (forall k :: k in d.at ==> s.at[k] == rd.shown(rd.round(d.at[k]).value))
  {
  }

  /** The text the template rewriter writes for a value: `rounded` stands
      for `ConfigText` of the parameters' `Rounding`, `f'{v}'` of the
      rounded float32, which raises when the rounding does; the particle
      count is written as the int it is. */
  function Config2Params<V>(params: Dict<V>, rounded: V -> Result<string>, particles: Dict<int>): (r: Result<Dict<string>>)
    requires Valid(params) && Valid(particles)
    ensures r.Ok? <==> forall i :: 0 <= i < |params.order| ==> rounded(params.at[params.order[i]]).Ok?
    ensures r.Ok? ==> Valid(r.value)
  {
    var args :- MapValues(params, rounded);
    var pt := MapValues(particles, (n: int) => Ok(IntToString(n)));
    assert pt.Ok?;
    Ok(Merge(args, pt.value))
  }

  /** In the merged configuration a particle key always carries the
      particle count, even when the optimiser has a parameter of the same
      name; every other parameter carries its rounded text, and the
      parameters keep their order ahead of the particle key. */
  lemma ParticlesWin<V>(params: Dict<V>, rounded: V -> Result<string>, particles: Dict<int>)
    requires Valid(params) && Valid(particles)
    requires Config2Params(params, rounded, particles).Ok?
    ensures var c := Config2Params(params, rounded, particles).value;
            && (forall k :: k in c.at <==> k in params.at || k in particles.at)
            && (forall k :: k in particles.at ==> c.at[k] == IntToString(particles.at[k]))
            && (forall k :: k in params.at && k !in particles.at ==> c.at[k] == rounded(params.at[k]).value)
            && |params.order| <= |c.order| && c.order[..|params.order|] == params.order
  {
    var args := MapValues(params, rounded).value;
    var pt := MapValues(particles, (n: int) => Ok(IntToString(n))).value;
    MergeRightWins(args, pt);
  }
}
