/** Python dicts with string keys and values, as they are used here: insertion-ordered,
    one entry per key, an assignment to a present key overwriting it where it stands. */
module PyDict {
  import opened Wrappers

  type Dict = seq<(string, string)>

  predicate UniqueKeys(d: Dict) {
    forall i, j :: 0 <= i < j < |d| ==> d[i].0 != d[j].0
  }

  /** `d[k]`, or None when `k` is not a key. */
  function Get(d: Dict, k: string): Option<string> {
    if d == [] then None
    else if d[0].0 == k then Some(d[0].1)
    else Get(d[1..], k)
  }

  /** `d[k] = v`: overwrites the entry of `k` where it stands, or appends a new one. */
  function Put(d: Dict, k: string, v: string): Dict {
    if d == [] then [(k, v)]
    else if d[0].0 == k then [(k, v)] + d[1..]
    else [d[0]] + Put(d[1..], k, v)
  }

  lemma {:induction false} PutGet(d: Dict, k: string, v: string, k': string)
    ensures Get(Put(d, k, v), k') == if k' == k then Some(v) else Get(d, k')
  {
    if d != [] && d[0].0 != k {
      PutGet(d[1..], k, v, k');
    }
  }

  lemma {:induction false} PutKeys(d: Dict, k: string, v: string)
    requires UniqueKeys(d)
    ensures UniqueKeys(Put(d, k, v))
    ensures forall x :: x in Put(d, k, v) ==> x.0 == k || x in d
  {
    if d != [] && d[0].0 != k {
      PutKeys(d[1..], k, v);
      var r := Put(d, k, v);
      forall i, j | 0 <= i < j < |r| ensures r[i].0 != r[j].0 {
        if i == 0 {
          assert r[j] in Put(d[1..], k, v);
          assert d[0].0 != k;
          if r[j] in d[1..] {
            var t :| 0 <= t < |d[1..]| && d[1..][t] == r[j];
            assert d[1 + t] == r[j];
          }
        }
      }
    }
  }

  /** The value paired with `k` at its last occurrence in `ps`. */
  function LastValue(ps: seq<(string, string)>, k: string): Option<string> {
    if ps == [] then None
    else if ps[|ps| - 1].0 == k then Some(ps[|ps| - 1].1)
    else LastValue(ps[..|ps| - 1], k)
  }

  /** `{name: value for name, value in ps}`. */
  function FromPairs(ps: seq<(string, string)>): Dict {
    if ps == [] then [] else Put(FromPairs(ps[..|ps| - 1]), ps[|ps| - 1].0, ps[|ps| - 1].1)
  }

  /** The dict has one entry per name, and the value of a name is the last one paired with it. */
  lemma {:induction false} FromPairsSpec(ps: seq<(string, string)>)
    ensures UniqueKeys(FromPairs(ps))
    ensures forall k :: Get(FromPairs(ps), k) == LastValue(ps, k)
  {
    if ps != [] {
      var init := ps[..|ps| - 1];
      FromPairsSpec(init);
      PutKeys(FromPairs(init), ps[|ps| - 1].0, ps[|ps| - 1].1);
      forall k ensures Get(FromPairs(ps), k) == LastValue(ps, k) {
        PutGet(FromPairs(init), ps[|ps| - 1].0, ps[|ps| - 1].1, k);
      }
    }
  }

  /** With distinct names the dict is the list of pairs itself, in order. */
  lemma {:induction false} FromPairsDistinct(ps: seq<(string, string)>)
    requires UniqueKeys(ps)
    ensures FromPairs(ps) == ps
  {
    if ps != [] {
      var init := ps[..|ps| - 1];
      assert UniqueKeys(init);
      FromPairsDistinct(init);
      PutAbsent(init, ps[|ps| - 1].0, ps[|ps| - 1].1);
      assert init + [ps[|ps| - 1]] == ps;
    }
  }

  lemma {:induction false} PutAbsent(d: Dict, k: string, v: string)
    requires forall i :: 0 <= i < |d| ==> d[i].0 != k
    ensures Put(d, k, v) == d + [(k, v)]
  {
    if d != [] {
      PutAbsent(d[1..], k, v);
    }
  }
}
