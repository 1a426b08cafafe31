/** The `memoize` wrapper and its module-level cache (Unknown.js:161-170).
    The cache is one map shared by every memoized function, keyed only by
    the serialised arguments. The key (`JSON.stringify(args)`) and the value
    the wrapped function would return are parameters. */
module Memo {

  /** The JavaScript values a memoized function may return. Numbers are
      integers here (NaN is not modelled); objects are opaque and truthy. */
  datatype JsValue = Undefined | Null | Bool(b: bool) | Num(n: int) | Str(s: string) | Obj(id: nat)

  /** JavaScript truthiness: `undefined`, `null`, `false`, `0` and `''` are falsy. */
  predicate Truthy(v: JsValue) {
    match v
    case Undefined => false
    case Null => false
    case Bool(b) => b
    case Num(n) => n != 0
    case Str(s) => s != []
    case Obj(_) => true
  }

  type Cache = map<string, JsValue>

  /** The result of one call of a memoized function: the value returned,
      the cache afterwards, and whether the wrapped function was called. */
  datatype MemoStep = MemoStep(value: JsValue, cache: Cache, computed: bool)

  /** One call with serialised arguments `key`; `result` is what the wrapped
      function returns when it is called. A hit needs a TRUTHY cached value. */
  function MemoCall(cache: Cache, key: string, result: JsValue): (r: MemoStep)
    ensures key in cache && Truthy(cache[key]) ==>
      r.value == cache[key] && r.cache == cache && !r.computed
    ensures !(key in cache && Truthy(cache[key])) ==>
      r.value == result && r.computed && r.cache == cache[key := result]
    ensures r.cache.Keys == cache.Keys + {key}
    ensures forall k :: k in cache && k != key ==> r.cache[k] == cache[k]
    ensures key in r.cache && r.cache[key] == r.value
  {
    if key in cache && Truthy(cache[key]) then MemoStep(cache[key], cache, false)
    else MemoStep(result, cache[key := result], true)
  }

  /** A falsy result is stored but never served: the next call with the
      same key calls the wrapped function again. */
  lemma FalsyResultRecomputed(cache: Cache, key: string, result: JsValue, later: JsValue)
    requires !(key in cache && Truthy(cache[key]))
    requires !Truthy(result)
    ensures var first := MemoCall(cache, key, result);
      first.computed &&
      MemoCall(first.cache, key, later) == MemoStep(later, first.cache[key := later], true)
  {
  }

  /** A truthy value is served from then on, whatever function asks for the
      same key: the cache is shared by all memoized functions. */
  lemma TruthyValueServed(cache: Cache, key: string, result: JsValue, other: JsValue)
    requires Truthy(MemoCall(cache, key, result).value)
    ensures var first := MemoCall(cache, key, result);
      MemoCall(first.cache, key, other) == MemoStep(first.value, first.cache, false)
  {
  }

  /** One call in a sequence of calls: its key and the wrapped function's result. */
  datatype Request = Request(key: string, result: JsValue)

  function KeysOf(reqs: seq<Request>): set<string> {
    set i | 0 <= i < |reqs| :: reqs[i].key
  }

  /** A run of calls, threading the cache; the values returned, in order,
      and the final cache. */
  function MemoRun(cache: Cache, reqs: seq<Request>): (r: (seq<JsValue>, Cache))
    ensures |r.0| == |reqs|
    decreases |reqs|
  {
    if reqs == [] then ([], cache)
    else
      var step := MemoCall(cache, reqs[0].key, reqs[0].result);
      var rest := MemoRun(step.cache, reqs[1..]);
      ([step.value] + rest.0, rest.1)
  }

  /** The cache never shrinks: after a run it holds exactly the keys it held
      before plus every key asked for, and an entry is only ever replaced
      by a call with its own key. */
  lemma {:induction false} RunGrowsCache(cache: Cache, reqs: seq<Request>)
    ensures MemoRun(cache, reqs).1.Keys == cache.Keys + KeysOf(reqs)
    ensures forall k :: k in cache && k !in KeysOf(reqs) ==> MemoRun(cache, reqs).1[k] == cache[k]
    decreases |reqs|
  {
    if reqs != [] {
      var step := MemoCall(cache, reqs[0].key, reqs[0].result);
      RunGrowsCache(step.cache, reqs[1..]);
      assert KeysOf(reqs) == {reqs[0].key} + KeysOf(reqs[1..]) by {
        forall k | k in KeysOf(reqs) ensures k in {reqs[0].key} + KeysOf(reqs[1..]) {
          var i :| 0 <= i < |reqs| && reqs[i].key == k;
          if i > 0 {
            assert reqs[1..][i - 1].key == k;
          }
        }
        forall k | k in KeysOf(reqs[1..]) ensures k in KeysOf(reqs) {
          var i :| 0 <= i < |reqs[1..]| && reqs[1..][i].key == k;
          assert reqs[i + 1].key == k;
        }
      }
    }
  }

  /** Every value a run returns is the wrapped function's own result for
      that call, or a truthy value cached under the same key: either before
      the run or by an earlier call of the run. */
  lemma {:induction false} RunValuesAreFreshOrCached(cache: Cache, reqs: seq<Request>, i: nat)
    requires i < |reqs|
    ensures var v := MemoRun(cache, reqs).0[i];
      v == reqs[i].result ||
      (Truthy(v) &&
       ((reqs[i].key in cache && cache[reqs[i].key] == v) ||
        exists j :: 0 <= j < i && reqs[j].key == reqs[i].key && reqs[j].result == v))
    decreases |reqs|
  {
    var step := MemoCall(cache, reqs[0].key, reqs[0].result);
    if i > 0 {
      RunValuesAreFreshOrCached(step.cache, reqs[1..], i - 1);
      var v := MemoRun(cache, reqs).0[i];
      assert v == MemoRun(step.cache, reqs[1..]).0[i - 1];
      assert reqs[1..][i - 1] == reqs[i];
      if v != reqs[i].result {
        if reqs[i].key in step.cache && step.cache[reqs[i].key] == v {
          if reqs[i].key == reqs[0].key && step.computed {
            assert reqs[0].key == reqs[i].key && reqs[0].result == v;
          }
        } else {
          var j :| 0 <= j < i - 1 && reqs[1..][j].key == reqs[i].key && reqs[1..][j].result == v;
          assert reqs[j + 1].key == reqs[i].key && reqs[j + 1].result == v;
        }
      }
    }
  }
}
