/** The pairwise-judge bookkeeping of the GRPO trainer in rca/grpo.py: the rollouts of a
    batch are grouped in chunks of `n_rollouts`, every rollout is paired with up to
    `n_compare` others of its chunk, a judge answers `\boxed{A}` or `\boxed{B}` for each pair,
    and a rollout's reward is the sum of its verdicts. */
module Grpo {
  import opened Wrappers

  /** The exceptions the bookkeeping can raise. */
  datatype PyError = ValueError | TypeError | KeyError

  function Min(a: int, b: int): int {
    if a <= b then a else b
  }

  // ---------------------------------------------------------------------------------------
  // extract_boxed_content: the group of the last match of `\\boxed\{([^}]+)\}`

  const Opener: string := "\\boxed{"

  /** The pattern matches from `p` with its closing brace at `q`: `\boxed{`, one or more
      characters that are not `}`, then `}`. */
  predicate IsMatch(text: string, p: nat, q: nat) {
    && p + |Opener| < q < |text|
    && text[p..p + |Opener|] == Opener
    && text[q] == '}'
    && forall k :: p + |Opener| <= k < q ==> text[k] != '}'
  }

  /** The first `}` at or after `from`. */
  function FirstClose(text: string, from: nat): (r: Option<nat>)
    ensures r.Some? ==> from <= r.value < |text| && text[r.value] == '}'
    ensures r.Some? ==> forall k :: from <= k < r.value ==> text[k] != '}'
    ensures r.None? ==> forall k :: from <= k < |text| ==> text[k] != '}'
    decreases |text| - from
  {
    if from >= |text| then None
    else if text[from] == '}' then Some(from)
    else FirstClose(text, from + 1)
  }

  /** Trying the pattern at `p`: `[^}]+` takes everything up to the first `}`, so there is
      a match exactly when `\boxed{` is at `p` and a `}` follows that is not the next
      character. */
  function MatchEnd(text: string, p: nat): (r: Option<nat>)
    ensures r.Some? ==> p + |Opener| < r.value
  {
    if p + |Opener| <= |text| && text[p..p + |Opener|] == Opener then
      match FirstClose(text, p + |Opener|)
      case Some(q) => if q > p + |Opener| then Some(q) else None
      case None => None
    else None
  }

  /** `MatchEnd` finds the match at `p` when there is one, and only then. */
  lemma MatchEndSpec(text: string, p: nat)
    ensures MatchEnd(text, p).Some? ==> IsMatch(text, p, MatchEnd(text, p).value)
    ensures MatchEnd(text, p).None? ==> forall q: nat :: !IsMatch(text, p, q)
  {
  }

  /** `re.finditer` from `pos`: the matches, left to right, the search resuming after the
      closing brace of each. */
  function Matches(text: string, pos: nat): (r: seq<(nat, nat)>)
    ensures forall k :: 0 <= k < |r| ==> pos <= r[k].0
    decreases |text| - pos
  {
    if pos >= |text| then []
    else
      match MatchEnd(text, pos)
      case Some(q) => [(pos, q)] + Matches(text, q + 1)
      case None => Matches(text, pos + 1)
  }

  /** `extract_boxed_content(text)`: the group of the last match, None when there is none. */
  function ExtractBoxed(text: string): (r: Option<string>)
    ensures r.Some? ==> r.value != [] && '}' !in r.value
  {
    var ms := Matches(text, 0);
    if ms == [] then None
    else
      var m := ms[|ms| - 1];
      MatchesSound(text, 0, |ms| - 1);
      MatchEndSpec(text, m.0);
      Some(text[m.0 + |Opener|..m.1])
  }

  /** Every match found is a match of the pattern: trying the pattern at its start finds it. */
  lemma {:induction false} MatchesSound(text: string, pos: nat, k: nat)
    requires k < |Matches(text, pos)|
    ensures MatchEnd(text, Matches(text, pos)[k].0) == Some(Matches(text, pos)[k].1)
    decreases |text| - pos, 1
  {
    if pos >= |text| {
      assert false;
    } else if MatchEnd(text, pos).Some? {
      SoundFound(text, pos, k);
    } else {
      assert Matches(text, pos) == Matches(text, pos + 1);
      MatchesSound(text, pos + 1, k);
    }
  }

  /** The step of `MatchesSound` where a match starts at `pos`. */
  lemma {:induction false} SoundFound(text: string, pos: nat, k: nat)
    requires pos < |text| && MatchEnd(text, pos).Some?
    requires k < |Matches(text, pos)|
    ensures MatchEnd(text, Matches(text, pos)[k].0) == Some(Matches(text, pos)[k].1)
    decreases |text| - pos, 0
  {
    var e := MatchEnd(text, pos).value;
    MatchesFound(text, pos);
    var rest := Matches(text, e + 1);
    var m := Matches(text, pos)[k];
    assert Matches(text, pos) == [(pos, e)] + rest;
    if k == 0 {
      assert m == (pos, e);
    } else {
      assert m == rest[k - 1];
      MatchesSound(text, e + 1, k - 1);
    }
  }

  /** No match from `pos` on exactly when the pattern matches nowhere from `pos` on. */
  lemma MatchesEmpty(text: string, pos: nat)
    ensures Matches(text, pos) == [] <==> forall p: nat, q: nat :: pos <= p ==> !IsMatch(text, p, q)
  {
    var ms := Matches(text, pos);
    if ms == [] {
      forall p: nat, q: nat | pos <= p ensures !IsMatch(text, p, q) {
        NoMatchInEmpty(text, pos, p);
        MatchEndSpec(text, p);
      }
    } else {
      MatchesSound(text, pos, 0);
      MatchEndSpec(text, ms[0].0);
      assert IsMatch(text, ms[0].0, ms[0].1);
    }
  }

  /** With no match found from `pos` on, the pattern matches at no `p` from `pos` on. */
  lemma {:induction false} NoMatchInEmpty(text: string, pos: nat, p: nat)
    requires Matches(text, pos) == [] && pos <= p
    ensures MatchEnd(text, p).None?
    decreases |text| - pos
  {
    if pos < |text| {
      var me := MatchEnd(text, pos);
      if me.None? {
        assert Matches(text, pos) == Matches(text, pos + 1);
        if pos < p {
          NoMatchInEmpty(text, pos + 1, p);
        }
      } else {
        assert false;
      }
    }
  }

  /** After the last match found, the pattern matches nowhere: one position at a time. */
  lemma {:induction false} NoMatchAfterLast(text: string, pos: nat, p: nat)
    requires Matches(text, pos) != [] && Matches(text, pos)[|Matches(text, pos)| - 1].1 < p
    ensures MatchEnd(text, p).None?
    decreases |text| - pos, 1
  {
    if pos >= |text| {
      assert false;
    } else if MatchEnd(text, pos).Some? {
      AfterLastFound(text, pos, p);
    } else {
      assert Matches(text, pos) == Matches(text, pos + 1);
      NoMatchAfterLast(text, pos + 1, p);
    }
  }

  /** The step of `NoMatchAfterLast` where a match starts at `pos`. */
  lemma {:induction false} AfterLastFound(text: string, pos: nat, p: nat)
    requires pos < |text| && MatchEnd(text, pos).Some?
    requires Matches(text, pos) != [] && Matches(text, pos)[|Matches(text, pos)| - 1].1 < p
    ensures MatchEnd(text, p).None?
    decreases |text| - pos, 0
  {
    var e := MatchEnd(text, pos).value;
    var rest := Matches(text, e + 1);
    MatchesFound(text, pos);
    LastOfCons((pos, e), rest);
    if rest == [] {
      NoMatchInEmpty(text, e + 1, p);
    } else {
      NoMatchAfterLast(text, e + 1, p);
    }
  }

  /** `finditer` resumes after the closing brace of a match. */
  lemma MatchesFound(text: string, pos: nat)
    requires pos < |text| && MatchEnd(text, pos).Some?
    ensures pos < MatchEnd(text, pos).value
    ensures Matches(text, pos) == [(pos, MatchEnd(text, pos).value)] + Matches(text, MatchEnd(text, pos).value + 1)
  {
  }

  lemma LastOfCons<T>(x: T, r: seq<T>)
    ensures ([x] + r)[|r|] == if r == [] then x else r[|r| - 1]
  {
  }

  /** After the last match found, the pattern matches nowhere. */
  lemma MatchesLast(text: string, pos: nat)
    requires Matches(text, pos) != []
    ensures forall p: nat, q: nat :: Matches(text, pos)[|Matches(text, pos)| - 1].1 < p ==> !IsMatch(text, p, q)
  {
    forall p: nat, q: nat | Matches(text, pos)[|Matches(text, pos)| - 1].1 < p ensures !IsMatch(text, p, q) {
      NoMatchAfterLast(text, pos, p);
      MatchEndSpec(text, p);
    }
  }

  /** A match spans `\boxed{`, its group and `}`. */
  lemma MatchText(text: string, p: nat, q: nat)
    requires IsMatch(text, p, q)
    ensures text[p..q + 1] == Opener + text[p + |Opener|..q] + "}"
  {
    assert text[p..q + 1] == text[p..p + |Opener|] + text[p + |Opener|..q] + [text[q]];
  }

  /** `extract_boxed_content` returns None exactly when the pattern matches nowhere. */
  lemma ExtractBoxedNone(text: string)
    ensures ExtractBoxed(text).None? <==> forall p: nat, q: nat :: !IsMatch(text, p, q)
  {
    MatchesEmpty(text, 0);
  }

  /** The last match found: `\boxed{r}` occurs there, and no match starts after it. */
  lemma ExtractBoxedLast(text: string)
    requires Matches(text, 0) != []
    ensures var m := Matches(text, 0)[|Matches(text, 0)| - 1];
      && IsMatch(text, m.0, m.1)
      && ExtractBoxed(text) == Some(text[m.0 + |Opener|..m.1])
      && text[m.0..m.1 + 1] == Opener + text[m.0 + |Opener|..m.1] + "}"
      && forall p': nat, q': nat :: m.1 < p' ==> !IsMatch(text, p', q')
  {
    var m := LastMatch(text);
    MatchText(text, m.0, m.1);
    MatchesLast(text, 0);
  }

  /** The last match found is a match, and its group is the value. */
  lemma LastMatch(text: string) returns (m: (nat, nat))
    requires Matches(text, 0) != []
    ensures m == Matches(text, 0)[|Matches(text, 0)| - 1]
    ensures IsMatch(text, m.0, m.1) && ExtractBoxed(text) == Some(text[m.0 + |Opener|..m.1])
  {
    var ms := Matches(text, 0);
    m := ms[|ms| - 1];
    MatchesSound(text, 0, |ms| - 1);
    MatchEndSpec(text, m.0);
  }

  /** `extract_boxed_content` returns None exactly when the pattern matches nowhere;
      otherwise it returns the group of a match, `\boxed{r}` occurs in the text there, and
      no match starts after it. */
  lemma ExtractBoxedSpec(text: string)
    ensures ExtractBoxed(text).None? <==> forall p: nat, q: nat :: !IsMatch(text, p, q)
    ensures ExtractBoxed(text).Some? ==> exists p: nat, q: nat ::
      && IsMatch(text, p, q)
      && text[p..q + 1] == Opener + ExtractBoxed(text).value + "}"
      && forall p': nat, q': nat :: q < p' ==> !IsMatch(text, p', q')
  {
    ExtractBoxedNone(text);
    if Matches(text, 0) != [] {
      ExtractBoxedLast(text);
      var m := Matches(text, 0)[|Matches(text, 0)| - 1];
      assert IsMatch(text, m.0, m.1) && text[m.0..m.1 + 1] == Opener + ExtractBoxed(text).value + "}";
    }
  }

  /** The last box wins. */
  lemma ExtractBoxedSample()
    ensures ExtractBoxed("\\boxed{B}, so \\boxed{A}") == Some("A")
  {
    var t := "\\boxed{B}, so \\boxed{A}";
    assert t[0..7] == Opener;
    assert FirstClose(t, 7) == Some(8);
    assert MatchEnd(t, 0) == Some(8);
    SampleTail(t);
    assert Matches(t, 0) == [(0, 8), (14, 22)];
    assert t[21..22] == "A";
  }

  /** An empty box is no match. */
  lemma ExtractBoxedEmptySample()
    ensures ExtractBoxed("\\boxed{}") == None
  {
    var t := "\\boxed{}";
    assert FirstClose(t, 7) == Some(7);
    assert MatchEnd(t, 0) == None;
    assert Matches(t, 0) == Matches(t, 1);
    forall p | 1 <= p <= 8 ensures MatchEnd(t, p) == None {
    }
    assert Matches(t, 1) == [];
  }

  /** After the first box of the sample, finditer finds only the second. */
  lemma SampleTail(t: string)
    requires t == "\\boxed{B}, so \\boxed{A}"
    ensures Matches(t, 9) == [(14, 22)]
  {
    assert t[14..21] == Opener;
    assert FirstClose(t, 21) == Some(22);
    assert MatchEnd(t, 14) == Some(22);
    assert Matches(t, 23) == [];
    assert Matches(t, 14) == [(14, 22)];
    forall p | 9 <= p < 14 ensures MatchEnd(t, p) == None {
      assert t[p..p + 7][0] == t[p] != '\\';
    }
    assert Matches(t, 13) == Matches(t, 14);
    assert Matches(t, 12) == Matches(t, 13);
    assert Matches(t, 11) == Matches(t, 12);
    assert Matches(t, 10) == Matches(t, 11);
  }

  // ---------------------------------------------------------------------------------------
  // The chunks: `[range_bs[i:i+n_rollouts] for i in range(0, len(range_bs), n_rollouts)]`

  /** `list(range(a, b))`. */
  function Range(a: nat, b: nat): (r: seq<nat>)
    requires a <= b
    ensures |r| == b - a && forall k :: 0 <= k < |r| ==> r[k] == a + k
  {
    seq(b - a, k requires 0 <= k < b - a => a + k)
  }

  predicate Increasing(s: seq<nat>) {
    forall a, b :: 0 <= a < b < |s| ==> s[a] < s[b]
  }

  /** The slices from `start` on: each holds the next `n` indices, the last one what is
      left. */
  function ChunksFrom(bs: nat, n: nat, start: nat): (r: seq<seq<nat>>)
    requires n > 0
    ensures forall c :: 0 <= c < |r| ==> 0 < |r[c]| <= n && Increasing(r[c])
    ensures forall c :: 0 <= c < |r| - 1 ==> |r[c]| == n
    ensures forall c :: 0 <= c < |r| ==> forall x :: x in r[c] ==> start <= x < bs
    decreases bs - start
  {
    if start >= bs then []
    else [Range(start, Min(start + n, bs))] + ChunksFrom(bs, n, start + n)
  }

  /** The chunks of a batch of `bs`: a step of 0 is a ValueError of `range`, a negative
      step gives no chunk. */
  function Chunks(bs: nat, nRollouts: int): (r: Result<seq<seq<nat>>, PyError>)
    ensures r.Err? <==> nRollouts == 0
    ensures r.Ok? && nRollouts < 0 ==> r.value == []
  {
    if nRollouts == 0 then Err(ValueError)
    else if nRollouts < 0 then Ok([])
    else Ok(ChunksFrom(bs, nRollouts, 0))
  }

  /** The chunks one after the other. */
  function Flatten(cs: seq<seq<nat>>): seq<nat>
    decreases |cs|
  {
    if cs == [] then [] else Flatten(cs[..|cs| - 1]) + cs[|cs| - 1]
  }

  lemma {:induction false} FlattenAppend(a: seq<seq<nat>>, b: seq<seq<nat>>)
    ensures Flatten(a + b) == Flatten(a) + Flatten(b)
    decreases |b|
  {
    if b == [] {
      assert a + b == a;
      assert Flatten(b) == [];
    } else {
      var ab := a + b;
      assert ab[..|ab| - 1] == a + b[..|b| - 1];
      assert ab[|ab| - 1] == b[|b| - 1];
      FlattenAppend(a, b[..|b| - 1]);
      assert Flatten(ab) == Flatten(a + b[..|b| - 1]) + b[|b| - 1];
      assert Flatten(b) == Flatten(b[..|b| - 1]) + b[|b| - 1];
    }
  }

  /** The chunks cover `start..bs-1` in order. */
  lemma {:induction false} ChunksCover(bs: nat, n: nat, start: nat)
    requires n > 0 && start <= bs
    ensures Flatten(ChunksFrom(bs, n, start)) == Range(start, bs)
    decreases bs - start
  {
    if start < bs {
      var end := Min(start + n, bs);
      var head := Range(start, end);
      var rest := ChunksFrom(bs, n, start + n);
      assert ChunksFrom(bs, n, start) == [head] + rest;
      if start + n < bs {
        ChunksCover(bs, n, start + n);
        assert Flatten(rest) == Range(end, bs);
      } else {
        assert rest == [];
      }
      FlattenAppend([head], rest);
      assert [head] + rest == ChunksFrom(bs, n, start);
      var single: seq<seq<nat>> := [head];
      assert single[..0] == [];
      assert Flatten([head]) == head;
      RangeJoin(start, end, bs);
    } else {
      assert ChunksFrom(bs, n, start) == [];
    }
  }

  lemma RangeJoin(a: nat, b: nat, c: nat)
    requires a <= b <= c
    ensures Range(a, b) + Range(b, c) == Range(a, c)
  {
  }

  /** When `n` divides what is left, every chunk is full. */
  lemma {:induction false} ChunksFull(bs: nat, n: nat, start: nat, m: nat)
    requires n > 0 && start <= bs && bs - start == n * m
    ensures forall c :: 0 <= c < |ChunksFrom(bs, n, start)| ==> |ChunksFrom(bs, n, start)[c]| == n
    decreases m
  {
    if start < bs {
      assert m >= 1;
      assert bs - (start + n) == n * (m - 1);
      ChunksFull(bs, n, start + n, m - 1);
      var r := ChunksFrom(bs, n, start);
      assert r == [Range(start, start + n)] + ChunksFrom(bs, n, start + n);
    }
  }

  /** Two indices of the same chunk. */
  predicate SameChunk(cs: seq<seq<nat>>, i: nat, j: nat) {
    exists c :: 0 <= c < |cs| && i in cs[c] && j in cs[c]
  }

  // ---------------------------------------------------------------------------------------
  // The pairs: `for chunk ...: for i in chunk: ...` with `random.sample`

  /** `[j for j in chunk if j != i]`. */
  function Others(chunk: seq<nat>, i: nat): (r: seq<nat>)
    ensures forall j :: j in r <==> j in chunk && j != i
    ensures |r| <= |chunk|
    decreases |chunk|
  {
    if chunk == [] then []
    else Others(chunk[..|chunk| - 1], i) + (if chunk[|chunk| - 1] != i then [chunk[|chunk| - 1]] else [])
  }

  /** Leaving out one member of a duplicate-free chunk leaves all the others. */
  lemma {:induction false} OthersLength(chunk: seq<nat>, i: nat)
    requires Increasing(chunk) && i in chunk
    ensures |Others(chunk, i)| == |chunk| - 1
    decreases |chunk|
  {
    var n := |chunk| - 1;
    var init := chunk[..n];
    assert Increasing(init);
    if chunk[n] == i {
      assert i !in init by {
        forall k | 0 <= k < n ensures init[k] != i {
          assert chunk[k] < chunk[n];
        }
      }
      OthersAbsent(init, i);
    } else {
      assert i in init by {
        var k :| 0 <= k < |chunk| && chunk[k] == i;
        assert k < n && init[k] == i;
      }
      OthersLength(init, i);
    }
  }

  /** Leaving out one member of an increasing chunk keeps the rest increasing. */
  lemma {:induction false} OthersIncreasing(chunk: seq<nat>, i: nat)
    requires Increasing(chunk)
    ensures Increasing(Others(chunk, i))
    decreases |chunk|
  {
    if chunk != [] {
      var n := |chunk| - 1;
      var init := chunk[..n];
      assert Increasing(init);
      OthersIncreasing(init, i);
      var r := Others(init, i);
      forall a | 0 <= a < |r| ensures r[a] < chunk[n] {
        assert r[a] in init;
        var k :| 0 <= k < n && init[k] == r[a];
        assert chunk[k] < chunk[n];
      }
    }
  }

  lemma {:induction false} OthersAbsent(chunk: seq<nat>, i: nat)
    requires i !in chunk
    ensures |Others(chunk, i)| == |chunk|
    decreases |chunk|
  {
    if chunk != [] {
      var init := chunk[..|chunk| - 1];
      forall k | 0 <= k < |init| ensures init[k] != i {
        assert init[k] == chunk[k];
      }
      OthersAbsent(init, i);
    }
  }

  /** One turn of the inner loop: index `i` and the population it samples from. */
  datatype Entry = Entry(i: nat, others: seq<nat>)

  /** The turns for the first `t` members of a chunk. */
  function ChunkEntries(chunk: seq<nat>, t: nat): (r: seq<Entry>)
    requires t <= |chunk|
    ensures |r| == t
    ensures forall u :: 0 <= u < t ==> r[u] == Entry(chunk[u], Others(chunk, chunk[u]))
    decreases t
  {
    if t == 0 then [] else ChunkEntries(chunk, t - 1) + [Entry(chunk[t - 1], Others(chunk, chunk[t - 1]))]
  }

  /** The turns of both loops over the given chunks, in order. */
  function Entries(cs: seq<seq<nat>>): seq<Entry>
    decreases |cs|
  {
    if cs == [] then [] else Entries(cs[..|cs| - 1]) + ChunkEntries(cs[|cs| - 1], |cs[|cs| - 1]|)
  }

  /** The turn of an index of chunk `c`: the others of that chunk. */
  predicate EntryOf(cs: seq<seq<nat>>, e: Entry) {
    exists c :: 0 <= c < |cs| && e.i in cs[c] && e.others == Others(cs[c], e.i)
  }

  /** The turns visit the indices of the chunks in order, each with the rest of its chunk. */
  lemma {:induction false} EntriesShape(cs: seq<seq<nat>>)
    ensures |Entries(cs)| == |Flatten(cs)|
    ensures forall t :: 0 <= t < |Entries(cs)| ==> Entries(cs)[t].i == Flatten(cs)[t]
    ensures forall t :: 0 <= t < |Entries(cs)| ==> EntryOf(cs, Entries(cs)[t])
    decreases |cs|
  {
    if cs != [] {
      var n := |cs| - 1;
      var init := cs[..n];
      EntriesShape(init);
      var es, fl := Entries(cs), Flatten(cs);
      var a := |Entries(init)|;
      forall t | 0 <= t < |es| ensures es[t].i == fl[t] && EntryOf(cs, es[t]) {
        if t < a {
          assert es[t] == Entries(init)[t] && fl[t] == Flatten(init)[t];
          var c :| 0 <= c < |init| && es[t].i in init[c] && es[t].others == Others(init[c], es[t].i);
          assert cs[c] == init[c];
        } else {
          assert es[t] == ChunkEntries(cs[n], |cs[n]|)[t - a];
          assert fl[t] == cs[n][t - a];
          assert es[t].i in cs[n];
        }
      }
    }
  }

  /** One round of the loops so far: the current `n_compare` and the pairs built. */
  datatype Pairing = Pairing(nCompare: int, pairs: seq<(nat, nat)>)

  /** `random.sample`, as a choice that may depend on how many draws came before: the
      draw number, the population and the sample size give the sample. */
  type Sampler = (nat, seq<nat>, nat) -> seq<nat>

  /** `k` members of the population taken from distinct positions: no value is drawn more
      often than the population holds it. */
  predicate IsSample(s: seq<nat>, population: seq<nat>, k: nat) {
    |s| == k && multiset(s) <= multiset(population)
  }

  /** Every draw the sampler makes is a sample of the requested size. */
  ghost predicate ValidSampler(pick: Sampler) {
    forall call: nat, population: seq<nat>, k: nat ::
      k <= |population| ==> IsSample(pick(call, population, k), population, k)
  }

  /** The sampler that takes the first `k` members of the population. */
  function TakeFirst(call: nat, population: seq<nat>, k: nat): (r: seq<nat>)
    ensures k <= |population| ==> r == population[..k]
  {
    if k <= |population| then population[..k] else []
  }

  /** Samplers exist: taking the first `k` members is one. */
  lemma SamplerExists()
    ensures ValidSampler(TakeFirst)
  {
    forall call: nat, population: seq<nat>, k: nat | k <= |population|
      ensures IsSample(TakeFirst(call, population, k), population, k)
    {
      assert population == population[..k] + population[k..];
    }
  }

  /** No value occurs twice. */
  predicate Distinct(s: seq<nat>) {
    forall a, b :: 0 <= a < b < |s| ==> s[a] != s[b]
  }

  /** Every member of a sample is a member of its population. */
  lemma SampleMembers(s: seq<nat>, population: seq<nat>, k: nat)
    requires IsSample(s, population, k)
    ensures forall a :: 0 <= a < |s| ==> s[a] in population
  {
    forall a | 0 <= a < |s| ensures s[a] in population {
      assert s[a] in multiset(s);
    }
  }

  /** A sample of a population without repeats has no repeats. */
  lemma SampleDistinct(s: seq<nat>, population: seq<nat>, k: nat)
    requires IsSample(s, population, k) && Distinct(population)
    ensures Distinct(s)
  {
    DistinctOnce(population);
    OnceDistinct(s);
  }

  lemma {:induction false} DistinctOnce(s: seq<nat>)
    requires Distinct(s)
    ensures forall x :: multiset(s)[x] <= 1
    decreases |s|
  {
    if s != [] {
      var n := |s| - 1;
      var init := s[..n];
      assert s == init + [s[n]];
      assert Distinct(init);
      DistinctOnce(init);
      assert s[n] !in init by {
        forall a | 0 <= a < n ensures init[a] != s[n] {
          assert init[a] == s[a];
        }
      }
    }
  }

  lemma {:induction false} OnceDistinct(s: seq<nat>)
    requires forall x :: multiset(s)[x] <= 1
    ensures Distinct(s)
    decreases |s|
  {
    if s != [] {
      var n := |s| - 1;
      var init := s[..n];
      assert s == init + [s[n]];
      assert multiset(s) == multiset(init) + multiset{s[n]};
      assert forall x :: multiset(init)[x] <= multiset(s)[x];
      OnceDistinct(init);
      assert s[n] !in init by {
        assert multiset(init)[s[n]] + 1 == multiset(s)[s[n]];
      }
      forall a, b | 0 <= a < b < |s| ensures s[a] != s[b] {
        assert s[a] == init[a];
        if b < n {
          assert s[b] == init[b];
        }
      }
    }
  }

  /** `[(i, j) for j in js]`. */
  function WithFirst(i: nat, js: seq<nat>): (r: seq<(nat, nat)>)
    ensures |r| == |js| && forall k :: 0 <= k < |js| ==> r[k] == (i, js[k])
  {
    seq(|js|, k requires 0 <= k < |js| => (i, js[k]))
  }

  /** The turns taken in order: `n_compare = min(n_compare, len(_chunk))`, a sample of that
      size (a ValueError of `random.sample` when it is negative), and its pairs appended. */
  function PairFold(es: seq<Entry>, nCompare: int, pick: Sampler): Result<Pairing, PyError>
    decreases |es|
  {
    if es == [] then Ok(Pairing(nCompare, []))
    else
      match PairFold(es[..|es| - 1], nCompare, pick)
      case Err(e) => Err(e)
      case Ok(p) =>
        var e := es[|es| - 1];
        var k := Min(p.nCompare, |e.others|);
        if k < 0 then Err(ValueError)
        else Ok(Pairing(k, p.pairs + WithFirst(e.i, pick(|es| - 1, e.others, k))))
  }

  /** `pairwise_idx` for a batch of `bs`, `n_rollouts` and an integer `n_compare`. */
  function Pairs(bs: nat, nRollouts: int, nCompare: int, pick: Sampler): (r: Result<seq<(nat, nat)>, PyError>)
    ensures nRollouts == 0 ==> r == Err(ValueError)
  {
    match Chunks(bs, nRollouts)
    case Err(e) => Err(e)
    case Ok(cs) =>
      match PairFold(Entries(cs), nCompare, pick)
      case Err(e) => Err(e)
      case Ok(p) => Ok(p.pairs)
  }

  /** Once a turn fails, every later turn is skipped. */
  lemma {:induction false} FoldErrorSticks(a: seq<Entry>, b: seq<Entry>, nCompare: int, pick: Sampler)
    requires a <= b && PairFold(a, nCompare, pick).Err?
    ensures PairFold(b, nCompare, pick) == PairFold(a, nCompare, pick)
    decreases |b|
  {
    if |b| > |a| {
      assert a <= b[..|b| - 1];
      FoldErrorSticks(a, b[..|b| - 1], nCompare, pick);
    } else {
      assert a == b;
    }
  }

  lemma {:induction false} ChunkEntriesPrefix(chunk: seq<nat>, t: nat, u: nat)
    requires t <= u <= |chunk|
    ensures ChunkEntries(chunk, t) <= ChunkEntries(chunk, u)
    decreases u
  {
    if t < u {
      ChunkEntriesPrefix(chunk, t, u - 1);
    }
  }

  lemma {:induction false} EntriesPrefix(cs: seq<seq<nat>>, c: nat)
    requires c <= |cs|
    ensures Entries(cs[..c]) <= Entries(cs)
    decreases |cs|
  {
    if c < |cs| {
      var init := cs[..|cs| - 1];
      assert init[..c] == cs[..c];
      EntriesPrefix(init, c);
    } else {
      assert cs[..c] == cs;
    }
  }

  /** The turns done after `t` members of chunk `c` come first among all the turns. */
  lemma TurnsSoFar(cs: seq<seq<nat>>, c: nat, t: nat)
    requires c < |cs| && t <= |cs[c]|
    ensures Entries(cs[..c]) + ChunkEntries(cs[c], t) <= Entries(cs)
  {
    assert cs[..c + 1][..c] == cs[..c];
    ChunkEntriesPrefix(cs[c], t, |cs[c]|);
    EntriesPrefix(cs, c + 1);
  }

  /** One more turn after turns that succeeded. */
  lemma FoldStep(es: seq<Entry>, e: Entry, nCompare: int, pick: Sampler)
    requires PairFold(es, nCompare, pick).Ok?
    ensures var p := PairFold(es, nCompare, pick).value;
      var k := Min(p.nCompare, |e.others|);
      PairFold(es + [e], nCompare, pick)
        == if k < 0 then Err(ValueError) else Ok(Pairing(k, p.pairs + WithFirst(e.i, pick(|es|, e.others, k))))
  {
    assert (es + [e])[..|es|] == es;
  }

  lemma EntriesStep(cs: seq<seq<nat>>, c: nat)
    requires c < |cs|
    ensures Entries(cs[..c + 1]) == Entries(cs[..c]) + ChunkEntries(cs[c], |cs[c]|)
  {
    assert cs[..c + 1][..c] == cs[..c];
  }

  /** The turns before member `t` of chunk `c`. */
  function TurnsBefore(cs: seq<seq<nat>>, c: nat, t: nat): seq<Entry>
    requires c < |cs| && t <= |cs[c]|
  {
    Entries(cs[..c]) + ChunkEntries(cs[c], t)
  }

  /** A chunk's turns start after the earlier chunks' and end where the next chunk starts. */
  lemma ChunkBounds(cs: seq<seq<nat>>, c: nat)
    requires c < |cs|
    ensures TurnsBefore(cs, c, 0) == Entries(cs[..c])
    ensures TurnsBefore(cs, c, |cs[c]|) == Entries(cs[..c + 1])
  {
    assert Entries(cs[..c]) + [] == Entries(cs[..c]);
    EntriesStep(cs, c);
  }

  /** One turn of the inner loop: a negative clamp fails the whole construction, any other
      adds the turn's pairs. */
  lemma InnerStep(cs: seq<seq<nat>>, c: nat, t: nat, nCompare: int, pick: Sampler, n: int, pairs: seq<(nat, nat)>, calls: nat)
    requires c < |cs| && t < |cs[c]|
    requires calls == |TurnsBefore(cs, c, t)|
    requires PairFold(TurnsBefore(cs, c, t), nCompare, pick) == Ok(Pairing(n, pairs))
    ensures calls + 1 == |TurnsBefore(cs, c, t + 1)|
    ensures var others := Others(cs[c], cs[c][t]);
      Min(n, |others|) < 0 ==> PairFold(Entries(cs), nCompare, pick) == Err(ValueError)
    ensures var others := Others(cs[c], cs[c][t]);
      var k := Min(n, |others|);
      k >= 0 ==> PairFold(TurnsBefore(cs, c, t + 1), nCompare, pick)
                 == Ok(Pairing(k, pairs + WithFirst(cs[c][t], pick(calls, others, k))))
  {
    var e := Entry(cs[c][t], Others(cs[c], cs[c][t]));
    var before, after := TurnsBefore(cs, c, t), TurnsBefore(cs, c, t + 1);
    assert before + [e] == after;
    FoldStep(before, e, nCompare, pick);
    var k := Min(n, |e.others|);
    assert PairFold(after, nCompare, pick)
      == if k < 0 then Err(ValueError) else Ok(Pairing(k, pairs + WithFirst(e.i, pick(calls, e.others, k))));
    if k < 0 {
      TurnsSoFar(cs, c, t + 1);
      FoldErrorSticks(after, Entries(cs), nCompare, pick);
    }
  }

  /** The loops of `_switch_chat_template` (lines 120-125) and of `fit` (lines 357-362),
      for an integer `n_compare`. */
  method BuildPairs(bs: nat, nRollouts: int, nCompare: int, pick: Sampler) returns (r: Result<seq<(nat, nat)>, PyError>)
    ensures r == Pairs(bs, nRollouts, nCompare, pick)
  {
    var chunks := Chunks(bs, nRollouts);
    if chunks.Err? {
      return Err(chunks.error);
    }
    var done := PairChunks(chunks.value, nCompare, pick);
    r := if done.Ok? then Ok(done.value.pairs) else Err(done.error);
  }

  /** The outer loop over given chunks: the final `n_compare` and the pairs, or the error
      of `random.sample`. */
  method PairChunks(cs: seq<seq<nat>>, nCompare: int, pick: Sampler) returns (r: Result<Pairing, PyError>)
    ensures r == PairFold(Entries(cs), nCompare, pick)
  {
    var n := nCompare;
    var pairs: seq<(nat, nat)> := [];
    var c := 0;
    while c < |cs|
      invariant 0 <= c <= |cs|
      invariant PairFold(Entries(cs[..c]), nCompare, pick) == Ok(Pairing(n, pairs))
    {
      var step := PairChunk(cs, c, nCompare, pick, n, pairs);
      if step.Err? {
        return Err(step.error);
      }
      n, pairs := step.value.nCompare, step.value.pairs;
      c := c + 1;
    }
    assert cs[..c] == cs;
    return Ok(Pairing(n, pairs));
  }

  /** The inner loop over chunk `c`, from the state the earlier chunks left: each member is
      paired with a sample of the others, the draw number counting every earlier draw. */
  method PairChunk(cs: seq<seq<nat>>, c: nat, nCompare: int, pick: Sampler, n0: int, pairs0: seq<(nat, nat)>)
    returns (r: Result<Pairing, PyError>)
    requires c < |cs|
    requires PairFold(Entries(cs[..c]), nCompare, pick) == Ok(Pairing(n0, pairs0))
    ensures r.Ok? ==> r == PairFold(Entries(cs[..c + 1]), nCompare, pick)
    ensures r.Err? ==> r == PairFold(Entries(cs), nCompare, pick)
  {
    var chunk := cs[c];
    var n, pairs := n0, pairs0;
    var calls := |Entries(cs[..c])|;
    var t := 0;
    ChunkBounds(cs, c);
    while t < |chunk|
      invariant chunk == cs[c]
      invariant 0 <= t <= |chunk|
      invariant calls == |TurnsBefore(cs, c, t)|
      invariant PairFold(TurnsBefore(cs, c, t), nCompare, pick) == Ok(Pairing(n, pairs))
    {
      var i := chunk[t];
      var others := Others(chunk, i);
      InnerStep(cs, c, t, nCompare, pick, n, pairs, calls);
      n := Min(n, |others|);
      if n < 0 {
        return Err(ValueError);
      }
      pairs := pairs + WithFirst(i, pick(calls, others, n));
      calls := calls + 1;
      t := t + 1;
    }
    return Ok(Pairing(n, pairs));
  }

  // ---------------------------------------------------------------------------------------
  // What the pairs are

  /** The turns visit strictly increasing indices. */
  predicate IncreasingTurns(es: seq<Entry>) {
    forall a, b :: 0 <= a < b < |es| ==> es[a].i < es[b].i
  }

  /** No turn's population repeats an index. */
  predicate DistinctOthers(es: seq<Entry>) {
    forall t :: 0 <= t < |es| ==> Distinct(es[t].others)
  }

  /** Some turn is for index `x`. */
  predicate HasTurn(es: seq<Entry>, x: nat) {
    exists t :: 0 <= t < |es| && es[t].i == x
  }

  /** How many pairs have `x` as their first index. */
  function CountFirst(pairs: seq<(nat, nat)>, x: nat): nat
    decreases |pairs|
  {
    if pairs == [] then 0
    else CountFirst(pairs[..|pairs| - 1], x) + (if pairs[|pairs| - 1].0 == x then 1 else 0)
  }

  lemma {:induction false} CountAppend(a: seq<(nat, nat)>, b: seq<(nat, nat)>, x: nat)
    ensures CountFirst(a + b, x) == CountFirst(a, x) + CountFirst(b, x)
    decreases |b|
  {
    if b == [] {
      assert a + b == a;
    } else {
      assert (a + b)[..|a + b| - 1] == a + b[..|b| - 1];
      CountAppend(a, b[..|b| - 1], x);
    }
  }

  lemma {:induction false} CountWithFirst(i: nat, js: seq<nat>, x: nat)
    ensures CountFirst(WithFirst(i, js), x) == if x == i then |js| else 0
    decreases |js|
  {
    if js != [] {
      var n := |js| - 1;
      assert WithFirst(i, js)[..n] == WithFirst(i, js[..n]);
      CountWithFirst(i, js[..n], x);
    }
  }

  /** The turns fail exactly when there is one and `n_compare` starts negative; after a
      turn `n_compare` is no longer negative, and it never exceeds its initial value. */
  lemma {:induction false} FoldError(es: seq<Entry>, nCompare: int, pick: Sampler)
    ensures PairFold(es, nCompare, pick).Err? <==> es != [] && nCompare < 0
    ensures PairFold(es, nCompare, pick).Ok? ==> PairFold(es, nCompare, pick).value.nCompare <= nCompare
    ensures PairFold(es, nCompare, pick).Ok? && es != [] ==> PairFold(es, nCompare, pick).value.nCompare >= 0
    decreases |es|
  {
    if es != [] {
      FoldError(es[..|es| - 1], nCompare, pick);
    }
  }

  /** `n_compare = min(n_compare, len(_chunk))` never lets it grow: after more turns it is
      at most what it was after fewer. */
  lemma {:induction false} ClampNeverIncreases(es: seq<Entry>, nCompare: int, pick: Sampler, a: nat)
    requires a <= |es| && PairFold(es, nCompare, pick).Ok?
    ensures PairFold(es[..a], nCompare, pick).Ok?
    ensures PairFold(es, nCompare, pick).value.nCompare <= PairFold(es[..a], nCompare, pick).value.nCompare
    decreases |es|
  {
    if a == |es| {
      assert es[..a] == es;
    } else {
      var init := es[..|es| - 1];
      assert init[..a] == es[..a];
      ClampNeverIncreases(init, nCompare, pick, a);
    }
  }

  /** Each pair comes from one turn: its first index is the turn's and its second is in the
      turn's population; the first indices never decrease, and the pairs of one first
      index have distinct second indices. */
  lemma FoldFacts(es: seq<Entry>, nCompare: int, pick: Sampler)
    requires ValidSampler(pick) && IncreasingTurns(es) && DistinctOthers(es) && PairFold(es, nCompare, pick).Ok?
    ensures var ps := PairFold(es, nCompare, pick).value.pairs;
      forall k :: 0 <= k < |ps| ==> exists t :: 0 <= t < |es| && ps[k].0 == es[t].i && ps[k].1 in es[t].others
    ensures var ps := PairFold(es, nCompare, pick).value.pairs;
      forall a, b :: 0 <= a < b < |ps| ==> ps[a].0 <= ps[b].0
    ensures var ps := PairFold(es, nCompare, pick).value.pairs;
      forall a, b :: 0 <= a < b < |ps| && ps[a].0 == ps[b].0 ==> ps[a].1 != ps[b].1
  {
    var ps := PairFold(es, nCompare, pick).value.pairs;
    forall k | 0 <= k < |ps| ensures exists t :: 0 <= t < |es| && ps[k].0 == es[t].i && ps[k].1 in es[t].others {
      var t := PairOrigin(es, nCompare, pick, k);
    }
    FoldOrdered(es, nCompare, pick);
  }

  /** The last turn of a fold that succeeded: the earlier turns succeeded, the clamp is not
      negative, and the turn appends its index paired with a sample of its population. */
  lemma FoldLast(es: seq<Entry>, nCompare: int, pick: Sampler)
    requires ValidSampler(pick) && es != [] && PairFold(es, nCompare, pick).Ok?
    ensures PairFold(es[..|es| - 1], nCompare, pick).Ok?
    ensures var p := PairFold(es[..|es| - 1], nCompare, pick).value;
      var e := es[|es| - 1];
      var k := Min(p.nCompare, |e.others|);
      && 0 <= k <= |e.others|
      && IsSample(pick(|es| - 1, e.others, k), e.others, k)
      && PairFold(es, nCompare, pick).value == Pairing(k, p.pairs + WithFirst(e.i, pick(|es| - 1, e.others, k)))
  {
  }

  /** The turn pair `x` comes from. */
  lemma {:induction false} PairOrigin(es: seq<Entry>, nCompare: int, pick: Sampler, x: nat) returns (t: nat)
    requires ValidSampler(pick) && PairFold(es, nCompare, pick).Ok?
    requires x < |PairFold(es, nCompare, pick).value.pairs|
    ensures t < |es|
    ensures PairFold(es, nCompare, pick).value.pairs[x].0 == es[t].i
    ensures PairFold(es, nCompare, pick).value.pairs[x].1 in es[t].others
    decreases |es|
  {
    if es == [] {
      assert false;
    } else {
      var n := |es| - 1;
      FoldLast(es, nCompare, pick);
      var p := PairFold(es[..n], nCompare, pick).value;
      var e := es[n];
      var js := pick(n, e.others, Min(p.nCompare, |e.others|));
      var ps := PairFold(es, nCompare, pick).value.pairs;
      var m := |p.pairs|;
      if x < m {
        assert ps[x] == p.pairs[x];
        t := PairOrigin(es[..n], nCompare, pick, x);
        assert es[..n][t] == es[t];
      } else {
        SampleMembers(js, e.others, Min(p.nCompare, |e.others|));
        assert ps[x] == (e.i, js[x - m]);
        t := n;
      }
    }
  }

  /** The first indices never decrease, and one first index never gets a partner twice. */
  lemma {:induction false} FoldOrdered(es: seq<Entry>, nCompare: int, pick: Sampler)
    requires ValidSampler(pick) && IncreasingTurns(es) && DistinctOthers(es) && PairFold(es, nCompare, pick).Ok?
    ensures var ps := PairFold(es, nCompare, pick).value.pairs;
      forall a, b :: 0 <= a < b < |ps| ==> ps[a].0 <= ps[b].0 && (ps[a].0 == ps[b].0 ==> ps[a].1 != ps[b].1)
    decreases |es|
  {
    if es != [] {
      var n := |es| - 1;
      var init := es[..n];
      FoldLast(es, nCompare, pick);
      assert DistinctOthers(init) by {
        forall t | 0 <= t < n ensures Distinct(init[t].others) {
          assert init[t] == es[t];
        }
      }
      FoldOrdered(init, nCompare, pick);
      var p := PairFold(init, nCompare, pick).value;
      var e := es[n];
      var js := pick(n, e.others, Min(p.nCompare, |e.others|));
      SampleDistinct(js, e.others, Min(p.nCompare, |e.others|));
      var ps := PairFold(es, nCompare, pick).value.pairs;
      var m := |p.pairs|;
      forall a, b | 0 <= a < b < |ps| ensures ps[a].0 <= ps[b].0 && (ps[a].0 == ps[b].0 ==> ps[a].1 != ps[b].1) {
        if b < m {
          assert ps[a] == p.pairs[a] && ps[b] == p.pairs[b];
        } else if a < m {
          var t := PairOrigin(init, nCompare, pick, a);
          assert init[t].i == es[t].i < es[n].i;
          assert ps[a] == p.pairs[a] && ps[b].0 == e.i;
        } else {
          assert ps[a] == (e.i, js[a - m]) && ps[b] == (e.i, js[b - m]);
        }
      }
    }
  }

  /** The state after turn `t`. */
  function After(es: seq<Entry>, nCompare: int, pick: Sampler, t: nat): Result<Pairing, PyError>
    requires t < |es|
  {
    PairFold(es[..t + 1], nCompare, pick)
  }

  lemma AfterPrefix(es: seq<Entry>, nCompare: int, pick: Sampler, t: nat, n: nat)
    requires t < n <= |es|
    ensures After(es, nCompare, pick, t) == After(es[..n], nCompare, pick, t)
  {
    assert es[..n][..t + 1] == es[..t + 1];
  }

  /** The last turn adds its clamped number of pairs, all for its own index. */
  lemma CountsStep(es: seq<Entry>, nCompare: int, pick: Sampler)
    requires ValidSampler(pick) && es != [] && PairFold(es, nCompare, pick).Ok?
    ensures var n := |es| - 1;
      forall x: nat :: CountFirst(PairFold(es, nCompare, pick).value.pairs, x)
        == CountFirst(PairFold(es[..n], nCompare, pick).value.pairs, x)
           + (if x == es[n].i then PairFold(es, nCompare, pick).value.nCompare else 0)
  {
    var n := |es| - 1;
    var e := es[n];
    var p := PairFold(es[..n], nCompare, pick).value;
    var k := Min(p.nCompare, |e.others|);
    var js := pick(n, e.others, k);
    assert IsSample(js, e.others, k);
    var ps := PairFold(es, nCompare, pick).value.pairs;
    assert ps == p.pairs + WithFirst(e.i, js);
    forall x: nat ensures CountFirst(ps, x) == CountFirst(p.pairs, x) + (if x == e.i then k else 0) {
      CountAppend(p.pairs, WithFirst(e.i, js), x);
      CountWithFirst(e.i, js, x);
    }
  }

  /** An index no turn visits gets no pair. */
  lemma {:induction false} CountOfNonTurn(es: seq<Entry>, nCompare: int, pick: Sampler, x: nat)
    requires ValidSampler(pick) && PairFold(es, nCompare, pick).Ok? && !HasTurn(es, x)
    ensures CountFirst(PairFold(es, nCompare, pick).value.pairs, x) == 0
    decreases |es|
  {
    if es != [] {
      var n := |es| - 1;
      var init := es[..n];
      assert !HasTurn(init, x) by {
        forall t | 0 <= t < |init| ensures init[t].i != x {
          assert init[t] == es[t];
        }
      }
      CountOfNonTurn(init, nCompare, pick, x);
      CountsStep(es, nCompare, pick);
      assert es[n].i != x;
    }
  }

  lemma IncreasingInit(es: seq<Entry>)
    requires IncreasingTurns(es) && es != []
    ensures IncreasingTurns(es[..|es| - 1])
    ensures !HasTurn(es[..|es| - 1], es[|es| - 1].i)
  {
    var init := es[..|es| - 1];
    forall a, b | 0 <= a < b < |init| ensures init[a].i < init[b].i {
      assert init[a] == es[a] && init[b] == es[b];
    }
    forall u | 0 <= u < |init| ensures init[u].i != es[|es| - 1].i {
      assert init[u] == es[u];
    }
  }

  /** The index of turn `t` gets as many pairs as `n_compare` was after its clamp. */
  lemma {:induction false} CountOfTurn(es: seq<Entry>, nCompare: int, pick: Sampler, t: nat)
    requires ValidSampler(pick) && IncreasingTurns(es) && PairFold(es, nCompare, pick).Ok? && t < |es|
    ensures After(es, nCompare, pick, t).Ok?
    ensures CountFirst(PairFold(es, nCompare, pick).value.pairs, es[t].i) == After(es, nCompare, pick, t).value.nCompare
    decreases |es|
  {
    var n := |es| - 1;
    IncreasingInit(es);
    CountsStep(es, nCompare, pick);
    if t < n {
      CountOfTurn(es[..n], nCompare, pick, t);
      AfterPrefix(es, nCompare, pick, t, n);
      assert es[..n][t] == es[t];
    } else {
      assert es[..t + 1] == es;
      CountOfNonTurn(es[..n], nCompare, pick, es[n].i);
    }
  }

  /** Each turn's index gets as many pairs as `n_compare` was after its clamp; no other
      index gets any. */
  lemma CountsAreClamps(es: seq<Entry>, nCompare: int, pick: Sampler)
    requires ValidSampler(pick) && IncreasingTurns(es) && PairFold(es, nCompare, pick).Ok?
    ensures forall t :: 0 <= t < |es| ==> After(es, nCompare, pick, t).Ok?
    ensures forall t :: 0 <= t < |es| ==>
      CountFirst(PairFold(es, nCompare, pick).value.pairs, es[t].i) == After(es, nCompare, pick, t).value.nCompare
    ensures forall x: nat :: !HasTurn(es, x) ==> CountFirst(PairFold(es, nCompare, pick).value.pairs, x) == 0
  {
    forall t | 0 <= t < |es|
      ensures After(es, nCompare, pick, t).Ok?
      ensures CountFirst(PairFold(es, nCompare, pick).value.pairs, es[t].i) == After(es, nCompare, pick, t).value.nCompare
    {
      CountOfTurn(es, nCompare, pick, t);
    }
    forall x: nat | !HasTurn(es, x) ensures CountFirst(PairFold(es, nCompare, pick).value.pairs, x) == 0 {
      CountOfNonTurn(es, nCompare, pick, x);
    }
  }

  /** A turn's index gets at most the initial `n_compare` pairs and at most one per member
      of its population. */
  lemma TurnCountBounded(es: seq<Entry>, nCompare: int, pick: Sampler, t: nat)
    requires ValidSampler(pick) && IncreasingTurns(es) && PairFold(es, nCompare, pick).Ok? && t < |es|
    ensures CountFirst(PairFold(es, nCompare, pick).value.pairs, es[t].i) <= nCompare
    ensures CountFirst(PairFold(es, nCompare, pick).value.pairs, es[t].i) <= |es[t].others|
  {
    CountOfTurn(es, nCompare, pick, t);
    var pre := es[..t + 1];
    var clamp := After(es, nCompare, pick, t).value.nCompare;
    FoldError(pre, nCompare, pick);
    assert clamp <= nCompare;
    assert pre[..t] + [es[t]] == pre;
    FoldStep(pre[..t], es[t], nCompare, pick);
    assert clamp <= |es[t].others|;
  }

  /** When every population has `m` members and `n_compare` starts at a non-negative
      value, the clamp settles at `min(n_compare, m)` from the first turn on. */
  lemma {:induction false} UniformClamp(es: seq<Entry>, nCompare: int, pick: Sampler, m: nat)
    requires nCompare >= 0 && es != [] && forall t :: 0 <= t < |es| ==> |es[t].others| == m
    ensures PairFold(es, nCompare, pick).Ok?
    ensures PairFold(es, nCompare, pick).value.nCompare == Min(nCompare, m)
    decreases |es|
  {
    FoldError(es, nCompare, pick);
    if |es| > 1 {
      UniformClamp(es[..|es| - 1], nCompare, pick, m);
    } else {
      assert es[..0] == [];
    }
  }

  /** The turns of a batch of `bs` with a positive `n_rollouts`: one per index, in order,
      each with the rest of its chunk. */
  lemma BatchTurns(bs: nat, n: nat)
    requires n > 0
    ensures |Entries(ChunksFrom(bs, n, 0))| == bs
    ensures forall t :: 0 <= t < bs ==> Entries(ChunksFrom(bs, n, 0))[t].i == t
    ensures forall t :: 0 <= t < bs ==> EntryOf(ChunksFrom(bs, n, 0), Entries(ChunksFrom(bs, n, 0))[t])
    ensures IncreasingTurns(Entries(ChunksFrom(bs, n, 0)))
  {
    ChunksCover(bs, n, 0);
    EntriesShape(ChunksFrom(bs, n, 0));
  }

  /** No population of a batch's turns repeats an index. */
  lemma BatchOthersDistinct(bs: nat, n: nat)
    requires n > 0
    ensures DistinctOthers(Entries(ChunksFrom(bs, n, 0)))
  {
    var cs := ChunksFrom(bs, n, 0);
    var es := Entries(cs);
    EntriesShape(cs);
    forall t | 0 <= t < |es| ensures Distinct(es[t].others) {
      assert EntryOf(cs, es[t]);
      var c :| 0 <= c < |cs| && es[t].i in cs[c] && es[t].others == Others(cs[c], es[t].i);
      OthersIncreasing(cs[c], es[t].i);
    }
  }

  /** `pairwise_idx` raises exactly when `range` gets a zero step, or when there is an
      index to pair and `n_compare` is negative (`random.sample` refuses the size). */
  lemma PairsError(bs: nat, nRollouts: int, nCompare: int, pick: Sampler)
    ensures Pairs(bs, nRollouts, nCompare, pick).Err? <==> nRollouts == 0 || (nRollouts > 0 && bs > 0 && nCompare < 0)
  {
    if nRollouts > 0 {
      BatchTurns(bs, nRollouts);
      FoldError(Entries(ChunksFrom(bs, nRollouts, 0)), nCompare, pick);
    } else if nRollouts < 0 {
      FoldError([], nCompare, pick);
    }
  }

  /** Every pair joins two different indices of the batch from the same chunk; the pairs
      come grouped by ascending first index; and an index is never paired twice with the
      same partner. */
  lemma PairsWellFormed(bs: nat, nRollouts: int, nCompare: int, pick: Sampler, pairs: seq<(nat, nat)>)
    requires ValidSampler(pick) && Pairs(bs, nRollouts, nCompare, pick) == Ok(pairs)
    ensures forall k :: 0 <= k < |pairs| ==>
      && pairs[k].0 < bs && pairs[k].1 < bs && pairs[k].0 != pairs[k].1
      && SameChunk(Chunks(bs, nRollouts).value, pairs[k].0, pairs[k].1)
    ensures forall a, b :: 0 <= a < b < |pairs| ==> pairs[a].0 <= pairs[b].0
    ensures forall a, b :: 0 <= a < b < |pairs| && pairs[a].0 == pairs[b].0 ==> pairs[a].1 != pairs[b].1
  {
    var cs := Chunks(bs, nRollouts).value;
    var es := Entries(cs);
    if nRollouts < 0 {
      assert es == [];
    } else {
      BatchTurns(bs, nRollouts);
      BatchOthersDistinct(bs, nRollouts);
      FoldOrdered(es, nCompare, pick);
      forall k | 0 <= k < |pairs|
        ensures pairs[k].0 < bs && pairs[k].1 < bs && pairs[k].0 != pairs[k].1
        ensures SameChunk(cs, pairs[k].0, pairs[k].1)
      {
        PairInBatch(bs, nRollouts, nCompare, pick, pairs, k);
      }
    }
  }

  /** Pair `k` joins two different indices of one chunk of the batch. */
  lemma PairInBatch(bs: nat, nRollouts: int, nCompare: int, pick: Sampler, pairs: seq<(nat, nat)>, k: nat)
    requires ValidSampler(pick) && nRollouts > 0 && Pairs(bs, nRollouts, nCompare, pick) == Ok(pairs)
    requires k < |pairs|
    ensures pairs[k].0 < bs && pairs[k].1 < bs && pairs[k].0 != pairs[k].1
    ensures SameChunk(Chunks(bs, nRollouts).value, pairs[k].0, pairs[k].1)
  {
    var cs := Chunks(bs, nRollouts).value;
    var es := Entries(cs);
    assert cs == ChunksFrom(bs, nRollouts, 0);
    assert PairFold(es, nCompare, pick).value.pairs == pairs;
    BatchTurns(bs, nRollouts);
    var t := PairOrigin(es, nCompare, pick, k);
    assert es[t].i == t;
    assert EntryOf(cs, es[t]);
    var c :| 0 <= c < |cs| && es[t].i in cs[c] && es[t].others == Others(cs[c], es[t].i);
    var j := pairs[k].1;
    assert j in Others(cs[c], es[t].i);
    assert j in cs[c] && j != t;
  }

  /** Index `i` of a batch gets at most `n_compare` pairs and at most one per other
      member of its chunk; an index outside the batch gets none, and a negative
      `n_rollouts` gives no pair at all. */
  lemma PairCountsBounded(bs: nat, nRollouts: int, nCompare: int, pick: Sampler, pairs: seq<(nat, nat)>, i: nat)
    requires ValidSampler(pick) && Pairs(bs, nRollouts, nCompare, pick) == Ok(pairs)
    ensures nRollouts < 0 ==> pairs == []
    ensures nRollouts > 0 && i < bs ==> CountFirst(pairs, i) <= nCompare && CountFirst(pairs, i) <= nRollouts - 1
    ensures i >= bs ==> CountFirst(pairs, i) == 0
  {
    var cs := Chunks(bs, nRollouts).value;
    var es := Entries(cs);
    if nRollouts < 0 {
      assert es == [] && pairs == [];
    } else {
      BatchTurns(bs, nRollouts);
      if i < bs {
        assert es[i].i == i;
        TurnCountBounded(es, nCompare, pick, i);
        var c :| 0 <= c < |cs| && es[i].i in cs[c] && es[i].others == Others(cs[c], es[i].i);
        OthersLength(cs[c], i);
      } else {
        CountsAreClamps(es, nCompare, pick);
        assert !HasTurn(es, i);
      }
    }
  }

  /** When every population has `m` members and `n_compare` starts non-negative, every
      turn's index gets `min(n_compare, m)` pairs. */
  lemma UniformCounts(es: seq<Entry>, nCompare: int, pick: Sampler, m: nat)
    requires ValidSampler(pick) && IncreasingTurns(es) && nCompare >= 0
    requires forall t :: 0 <= t < |es| ==> |es[t].others| == m
    ensures PairFold(es, nCompare, pick).Ok?
    ensures forall t :: 0 <= t < |es| ==> CountFirst(PairFold(es, nCompare, pick).value.pairs, es[t].i) == Min(nCompare, m)
    ensures forall x: nat :: !HasTurn(es, x) ==> CountFirst(PairFold(es, nCompare, pick).value.pairs, x) == 0
  {
    FoldError(es, nCompare, pick);
    CountsAreClamps(es, nCompare, pick);
    forall t | 0 <= t < |es| ensures After(es, nCompare, pick, t).value.nCompare == Min(nCompare, m) {
      var pre := es[..t + 1];
      assert forall u :: 0 <= u < |pre| ==> pre[u] == es[u];
      UniformClamp(pre, nCompare, pick, m);
    }
  }

  /** With full chunks (`n_rollouts` divides the batch) and a non-negative `n_compare`,
      every index of the batch gets exactly `min(n_compare, n_rollouts - 1)` pairs. */
  lemma UniformPairCounts(bs: nat, nRollouts: int, nCompare: int, pick: Sampler)
    requires ValidSampler(pick) && nRollouts >= 1 && bs % nRollouts == 0 && nCompare >= 0
    ensures Pairs(bs, nRollouts, nCompare, pick).Ok?
    ensures forall i: nat ::
      CountFirst(Pairs(bs, nRollouts, nCompare, pick).value, i) == if i < bs then Min(nCompare, nRollouts - 1) else 0
  {
    var es := Entries(ChunksFrom(bs, nRollouts, 0));
    UniformTurns(bs, nRollouts);
    UniformCounts(es, nCompare, pick, nRollouts - 1);
    var ps := Pairs(bs, nRollouts, nCompare, pick).value;
    forall i: nat ensures CountFirst(ps, i) == if i < bs then Min(nCompare, nRollouts - 1) else 0 {
      if i < bs {
        assert es[i].i == i;
      } else {
        assert !HasTurn(es, i);
      }
    }
  }

  lemma ExactQuotient(x: nat, n: nat)
    requires n > 0 && x % n == 0
    ensures x == n * (x / n)
  {
  }

  /** With full chunks every index is paired from the `n_rollouts - 1` others of its chunk. */
  lemma UniformTurns(bs: nat, n: nat)
    requires n >= 1 && bs % n == 0
    ensures |Entries(ChunksFrom(bs, n, 0))| == bs
    ensures forall t :: 0 <= t < bs ==> Entries(ChunksFrom(bs, n, 0))[t].i == t
    ensures forall t :: 0 <= t < bs ==> |Entries(ChunksFrom(bs, n, 0))[t].others| == n - 1
    ensures IncreasingTurns(Entries(ChunksFrom(bs, n, 0)))
  {
    var cs := ChunksFrom(bs, n, 0);
    var es := Entries(cs);
    BatchTurns(bs, n);
    ExactQuotient(bs, n);
    ChunksFull(bs, n, 0, bs / n);
    forall t | 0 <= t < |es| ensures |es[t].others| == n - 1 {
      var c :| 0 <= c < |cs| && es[t].i in cs[c] && es[t].others == Others(cs[c], es[t].i);
      OthersLength(cs[c], es[t].i);
    }
  }

  /** The pairs are sampled anew in `fit`, yet the first indices do not depend on the
      draws: for any two samplers the pairs have the same first index at every position. */
  lemma {:induction false} FirstsIgnoreDraws(es: seq<Entry>, nCompare: int, pick1: Sampler, pick2: Sampler)
    requires ValidSampler(pick1) && ValidSampler(pick2)
    ensures PairFold(es, nCompare, pick1).Ok? <==> PairFold(es, nCompare, pick2).Ok?
    ensures PairFold(es, nCompare, pick1).Ok? ==>
      var p1, p2 := PairFold(es, nCompare, pick1).value, PairFold(es, nCompare, pick2).value;
      && p1.nCompare == p2.nCompare && |p1.pairs| == |p2.pairs|
      && forall k :: 0 <= k < |p1.pairs| ==> p1.pairs[k].0 == p2.pairs[k].0
    decreases |es|
  {
    if es != [] {
      var n := |es| - 1;
      FirstsIgnoreDraws(es[..n], nCompare, pick1, pick2);
      if PairFold(es[..n], nCompare, pick1).Ok? {
        var p1, p2 := PairFold(es[..n], nCompare, pick1).value, PairFold(es[..n], nCompare, pick2).value;
        var k := Min(p1.nCompare, |es[n].others|);
        if k >= 0 {
          assert IsSample(pick1(n, es[n].others, k), es[n].others, k);
          assert IsSample(pick2(n, es[n].others, k), es[n].others, k);
        }
      }
    }
  }

  // ---------------------------------------------------------------------------------------
  // n_compare = None

  /** `_switch_chat_template` (lines 117-118): None stands for `n_rollouts`. */
  function PairsWithDefault(bs: nat, nRollouts: int, nCompare: Option<int>, pick: Sampler): Result<seq<(nat, nat)>, PyError> {
    Pairs(bs, nRollouts, if nCompare.None? then nRollouts else nCompare.value, pick)
  }

  /** `fit` as written (lines 336-362): None is kept, and `min(None, len(_chunk))` raises a
      TypeError at the first index. */
  function FitPairs(bs: nat, nRollouts: int, nCompare: Option<int>, pick: Sampler): Result<seq<(nat, nat)>, PyError> {
    if nCompare.Some? then Pairs(bs, nRollouts, nCompare.value, pick)
    else
      match Chunks(bs, nRollouts)
      case Err(e) => Err(e)
      case Ok(cs) => if cs == [] then Ok([]) else Err(TypeError)
  }

  /** With `n_compare` unset, the judge prompts are built but `fit` then fails. */
  lemma FitWithoutCompare(bs: nat, nRollouts: int, pick: Sampler)
    requires bs > 0 && nRollouts > 0
    ensures FitPairs(bs, nRollouts, None, pick) == Err(TypeError)
    ensures PairsWithDefault(bs, nRollouts, None, pick).Ok?
  {
    PairsError(bs, nRollouts, nRollouts, pick);
  }

  /** With the default applied in `fit` too, the pairs `fit` scores and the pairs the judge
      was shown have the same first index at every position, whatever the draws, so each
      verdict is credited to the response shown as A. */
  lemma JudgedPairsAlign(bs: nat, nRollouts: int, nCompare: Option<int>, shown: Sampler, scored: Sampler)
    requires ValidSampler(shown) && ValidSampler(scored)
    ensures PairsWithDefault(bs, nRollouts, nCompare, shown).Ok? <==> PairsWithDefault(bs, nRollouts, nCompare, scored).Ok?
    ensures PairsWithDefault(bs, nRollouts, nCompare, shown).Ok? ==>
      var a, b := PairsWithDefault(bs, nRollouts, nCompare, shown).value, PairsWithDefault(bs, nRollouts, nCompare, scored).value;
      |a| == |b| && forall k :: 0 <= k < |a| ==> a[k].0 == b[k].0
  {
    var n := if nCompare.None? then nRollouts else nCompare.value;
    if nRollouts != 0 {
      FirstsIgnoreDraws(Entries(Chunks(bs, nRollouts).value), n, shown, scored);
    }
  }

  /** The sampler that takes the last `k` members of the population. */
  function TakeLast(call: nat, population: seq<nat>, k: nat): (r: seq<nat>)
    ensures k <= |population| ==> r == population[|population| - k..]
  {
    if k <= |population| then population[|population| - k..] else []
  }

  /** Samplers exist that draw differently: taking the last `k` members is another. */
  lemma OtherSamplerExists()
    ensures ValidSampler(TakeLast)
  {
    forall call: nat, population: seq<nat>, k: nat | k <= |population|
      ensures IsSample(TakeLast(call, population, k), population, k)
    {
      assert population == population[..|population| - k] + population[|population| - k..];
    }
  }

  /** One chunk of three with `n_compare = 1`: the two samplers pick different partners,
      yet each index comes first exactly once and in the same place. */
  lemma DrawsExample()
    ensures PairsWithDefault(3, 3, Some(1), TakeFirst) == Ok([(0, 1), (1, 0), (2, 0)])
    ensures PairsWithDefault(3, 3, Some(1), TakeLast) == Ok([(0, 2), (1, 2), (2, 1)])
  {
    assert TakeFirst(0, [1, 2], 1) == [1] && TakeFirst(1, [0, 2], 1) == [0] && TakeFirst(2, [0, 1], 1) == [0];
    ExampleFold(TakeFirst, 1, 0, 0);
    assert TakeLast(0, [1, 2], 1) == [2] && TakeLast(1, [0, 2], 1) == [2] && TakeLast(2, [0, 1], 1) == [1];
    ExampleFold(TakeLast, 2, 2, 1);
  }

  /** The first two turns of one chunk of three with `n_compare = 1`, for a sampler that
      draws `a` and `b`. */
  lemma ExampleTwoTurns(pick: Sampler, a: nat, b: nat)
    requires pick(0, [1, 2], 1) == [a] && pick(1, [0, 2], 1) == [b]
    ensures PairFold([Entry(0, [1, 2]), Entry(1, [0, 2])], 1, pick) == Ok(Pairing(1, [(0, a), (1, b)]))
  {
    var e0, e1 := Entry(0, [1, 2]), Entry(1, [0, 2]);
    var none: seq<Entry> := [];
    var start: seq<(nat, nat)> := [];
    assert [e0] == none + [e0] && [e0, e1] == [e0] + [e1];
    FoldStep(none, e0, 1, pick);
    assert WithFirst(0, [a]) == [(0, a)] && start + [(0, a)] == [(0, a)];
    FoldStep([e0], e1, 1, pick);
    assert WithFirst(1, [b]) == [(1, b)] && [(0, a)] + [(1, b)] == [(0, a), (1, b)];
  }

  /** The turns of one chunk of three with `n_compare = 1`, for a sampler that draws `a`,
      `b` and `c`. */
  lemma ExampleFold(pick: Sampler, a: nat, b: nat, c: nat)
    requires pick(0, [1, 2], 1) == [a] && pick(1, [0, 2], 1) == [b] && pick(2, [0, 1], 1) == [c]
    ensures Pairs(3, 3, 1, pick) == Ok([(0, a), (1, b), (2, c)])
  {
    var es := ExampleTurns();
    var e2 := Entry(2, [0, 1]);
    ExampleTwoTurns(pick, a, b);
    assert es == es[..2] + [e2];
    FoldStep(es[..2], e2, 1, pick);
    assert WithFirst(2, [c]) == [(2, c)] && [(0, a), (1, b)] + [(2, c)] == [(0, a), (1, b), (2, c)];
  }

  /** The turns of one chunk of three. */
  lemma ExampleTurns() returns (es: seq<Entry>)
    ensures es == Entries(Chunks(3, 3).value)
    ensures es == [Entry(0, [1, 2]), Entry(1, [0, 2]), Entry(2, [0, 1])]
  {
    var chunk := Range(0, 3);
    assert chunk == [0, 1, 2];
    assert ChunksFrom(3, 3, 3) == [];
    assert ChunksFrom(3, 3, 0) == [chunk];
    assert Others(chunk, 0) == [1, 2] by {
      assert chunk[..2] == [0, 1] && chunk[..1] == [0] && chunk[..0] == [];
    }
    assert Others(chunk, 1) == [0, 2] by {
      assert chunk[..2] == [0, 1] && chunk[..1] == [0] && chunk[..0] == [];
    }
    assert Others(chunk, 2) == [0, 1] by {
      assert chunk[..2] == [0, 1] && chunk[..1] == [0] && chunk[..0] == [];
    }
    var cs: seq<seq<nat>> := [chunk];
    assert cs[..0] == [];
    es := Entries(cs);
  }

  // ---------------------------------------------------------------------------------------
  // Scores

  /** The score of one judge response: `\boxed{A}` as its last box scores 1, `\boxed{B}`
      scores -1, anything else (another answer, no box) 0. */
  function Verdict(response: string): (r: int)
    ensures -1 <= r <= 1
    ensures r == 1 <==> ExtractBoxed(response) == Some("A")
    ensures r == -1 <==> ExtractBoxed(response) == Some("B")
  {
    match ExtractBoxed(response)
    case Some(w) => if w == "A" then 1 else if w == "B" then -1 else 0
    case None => 0
  }

  /** `response_idx` over the first `|pairs|` pairs and responses: each verdict appended to
      the list of its pair's first index. */
  function Collect(pairs: seq<(nat, nat)>, responses: seq<string>): map<nat, seq<int>>
    requires |pairs| == |responses|
    decreases |pairs|
  {
    if pairs == [] then map[]
    else
      var n := |pairs| - 1;
      var m := Collect(pairs[..n], responses[..n]);
      var i := pairs[n].0;
      m[i := (if i in m then m[i] else []) + [Verdict(responses[n])]]
  }

  /** `response_idx` after the loop over `zip(pairwise_idx, judge_responses)`, which stops
      at the shorter of the two. */
  function ResponseIdx(pairs: seq<(nat, nat)>, responses: seq<string>): map<nat, seq<int>> {
    var n := Min(|pairs|, |responses|);
    Collect(pairs[..n], responses[..n])
  }

  /** The verdicts on the pairs whose first index is `i`, in order. */
  function ScoresFor(pairs: seq<(nat, nat)>, responses: seq<string>, i: nat): (r: seq<int>)
    requires |pairs| == |responses|
    ensures |r| == CountFirst(pairs, i)
    ensures forall k :: 0 <= k < |r| ==> -1 <= r[k] <= 1
    decreases |pairs|
  {
    if pairs == [] then []
    else
      var n := |pairs| - 1;
      ScoresFor(pairs[..n], responses[..n], i) + (if pairs[n].0 == i then [Verdict(responses[n])] else [])
  }

  /** Index `i` has a list exactly when some pair has it first, and the list holds the
      verdicts on its pairs in order. */
  lemma {:induction false} CollectSpec(pairs: seq<(nat, nat)>, responses: seq<string>)
    requires |pairs| == |responses|
    ensures forall i: nat :: i in Collect(pairs, responses) <==> CountFirst(pairs, i) > 0
    ensures forall i: nat :: i in Collect(pairs, responses) ==> Collect(pairs, responses)[i] == ScoresFor(pairs, responses, i)
    decreases |pairs|
  {
    if pairs != [] {
      var n := |pairs| - 1;
      CollectSpec(pairs[..n], responses[..n]);
    }
  }

  lemma CollectStep(pairs: seq<(nat, nat)>, responses: seq<string>, t: nat)
    requires t < |pairs| && t < |responses|
    ensures var m := Collect(pairs[..t], responses[..t]);
      var i := pairs[t].0;
      Collect(pairs[..t + 1], responses[..t + 1]) == m[i := (if i in m then m[i] else []) + [Verdict(responses[t])]]
  {
    assert pairs[..t + 1][..t] == pairs[..t] && responses[..t + 1][..t] == responses[..t];
    assert pairs[..t + 1][t] == pairs[t] && responses[..t + 1][t] == responses[t];
  }

  /** The scoring loop of `fit` (lines 364-377). */
  method CollectScores(pairs: seq<(nat, nat)>, responses: seq<string>) returns (m: map<nat, seq<int>>)
    ensures m == ResponseIdx(pairs, responses)
  {
    var n := Min(|pairs|, |responses|);
    m := map[];
    var t := 0;
    while t < n
      invariant 0 <= t <= n
      invariant m == Collect(pairs[..t], responses[..t])
    {
      CollectStep(pairs, responses, t);
      var i := pairs[t].0;
      var score := Verdict(responses[t]);
      if i in m {
        m := m[i := m[i] + [score]];
      } else {
        assert [score] == [] + [score];
        m := m[i := [score]];
      }
      assert m == Collect(pairs[..t + 1], responses[..t + 1]);
      t := t + 1;
    }
  }

  function Sum(s: seq<int>): int
    decreases |s|
  {
    if s == [] then 0 else Sum(s[..|s| - 1]) + s[|s| - 1]
  }

  /** A sum of scores between -1 and 1 is bounded by their number. */
  lemma {:induction false} SumBound(s: seq<int>)
    requires forall k :: 0 <= k < |s| ==> -1 <= s[k] <= 1
    ensures -|s| <= Sum(s) <= |s|
    decreases |s|
  {
    if s != [] {
      SumBound(s[..|s| - 1]);
    }
  }

  /** `torch.tensor([response_idx[i] for i in range(len(response_idx))]).sum(dim=-1)`: a
      KeyError when an index below the number of lists has none, a ValueError when the
      lists differ in length, otherwise the sum of each list. */
  function ResponseScores(m: map<nat, seq<int>>): Result<seq<int>, PyError> {
    var n := |m|;
    if exists i :: 0 <= i < n && i !in m then Err(KeyError)
    else if exists i :: 0 <= i < n && |m[i]| != |m[0]| then Err(ValueError)
    else Ok(seq(n, i requires 0 <= i < n => Sum(m[i])))
  }

  /** `set(range(n))`. */
  function Below(n: nat): (r: set<nat>)
    ensures forall i: nat :: i in r <==> i < n
    ensures |r| == n
  {
    if n == 0 then {} else Below(n - 1) + {n - 1}
  }

  /** When no index has a pair, nothing is collected and the reward vector is empty. */
  lemma NoPairsNoRewards(pairs: seq<(nat, nat)>, responses: seq<string>)
    requires |pairs| == |responses|
    requires forall i: nat :: CountFirst(pairs, i) == 0
    ensures ResponseScores(Collect(pairs, responses)) == Ok([])
  {
    var m := Collect(pairs, responses);
    CollectSpec(pairs, responses);
    assert m.Keys == {};
    assert m == map[];
    var r := ResponseScores(m);
    assert r.Ok? && |r.value| == 0;
  }

  /** When the indices below `bs` have `k > 0` pairs each and no other index has any,
      there are `bs` lists of `k` verdicts and each reward is a list's sum. */
  lemma UniformRewards(pairs: seq<(nat, nat)>, responses: seq<string>, bs: nat, k: nat)
    requires |pairs| == |responses| && k > 0
    requires forall i: nat :: CountFirst(pairs, i) == if i < bs then k else 0
    ensures var r := ResponseScores(Collect(pairs, responses));
      && r.Ok? && |r.value| == bs
      && forall i :: 0 <= i < bs ==>
           && |ScoresFor(pairs, responses, i)| == k
           && r.value[i] == Sum(ScoresFor(pairs, responses, i))
           && -(k as int) <= r.value[i] <= k
  {
    var m := Collect(pairs, responses);
    CollectSpec(pairs, responses);
    assert m.Keys == Below(bs);
    forall i | 0 <= i < bs ensures i in m && m[i] == ScoresFor(pairs, responses, i) {
    }
    FullMapScores(m, bs, k);
    forall i | 0 <= i < bs ensures -(k as int) <= Sum(ScoresFor(pairs, responses, i)) <= k {
      SumBound(ScoresFor(pairs, responses, i));
    }
  }

  /** The lists of indices `0..n-1`, all of length `k`, give one sum per index. */
  lemma FullMapScores(m: map<nat, seq<int>>, n: nat, k: nat)
    requires m.Keys == Below(n) && forall i :: 0 <= i < n ==> i in m && |m[i]| == k
    ensures ResponseScores(m).Ok? && |ResponseScores(m).value| == n
    ensures forall i :: 0 <= i < n ==> ResponseScores(m).value[i] == Sum(m[i])
  {
    assert |m| == |m.Keys| == n;
  }

  /** Whatever the pairs: when the reward vector exists, it has one entry per index that
      comes first in some scored pair, those indices are `0..|r|-1`, and each reward is the
      sum of that index's verdicts, so it lies between minus and plus its number of pairs. */
  lemma RewardsAreSums(pairs: seq<(nat, nat)>, responses: seq<string>, r: seq<int>)
    requires ResponseScores(ResponseIdx(pairs, responses)) == Ok(r)
    ensures var n := Min(|pairs|, |responses|);
      forall i: nat :: CountFirst(pairs[..n], i) > 0 <==> i < |r|
    ensures var n := Min(|pairs|, |responses|);
      forall i :: 0 <= i < |r| ==>
        && r[i] == Sum(ScoresFor(pairs[..n], responses[..n], i))
        && -(CountFirst(pairs[..n], i) as int) <= r[i] <= CountFirst(pairs[..n], i)
  {
    var n := Min(|pairs|, |responses|);
    var p, q := pairs[..n], responses[..n];
    assert ResponseIdx(pairs, responses) == Collect(p, q);
    CollectSpec(p, q);
    ScoresOfMap(Collect(p, q), r);
    forall i | 0 <= i < |r|
      ensures -(CountFirst(p, i) as int) <= Sum(ScoresFor(p, q, i)) <= CountFirst(p, i)
    {
      SumBound(ScoresFor(p, q, i));
    }
  }

  /** A reward vector that exists has one sum per key, and the keys are `0..|r|-1`. */
  lemma ScoresOfMap(m: map<nat, seq<int>>, r: seq<int>)
    requires ResponseScores(m) == Ok(r)
    ensures |r| == |m| && m.Keys == Below(|m|)
    ensures forall i :: 0 <= i < |r| ==> r[i] == Sum(m[i])
  {
    KeysAreBelow(m);
  }

  /** A map that has every index below its size has no other key. */
  lemma KeysAreBelow(m: map<nat, seq<int>>)
    requires forall i :: 0 <= i < |m| ==> i in m
    ensures m.Keys == Below(|m|)
  {
    var b := Below(|m|);
    assert b <= m.Keys;
    assert m.Keys == b + (m.Keys - b);
    assert |m.Keys| == |m|;
  }

  /** With full chunks, a non-negative `n_compare` and one judge response per pair, every
      rollout of the batch gets `min(n_compare, n_rollouts - 1)` verdicts and its reward is
      their sum, so it lies between minus and plus that number; when that number is 0 no
      index has a list and the reward vector is empty. */
  lemma Rewards(bs: nat, nRollouts: int, nCompare: int, pick: Sampler, pairs: seq<(nat, nat)>, responses: seq<string>)
    requires ValidSampler(pick) && nRollouts >= 1 && bs % nRollouts == 0 && nCompare >= 0
    requires Pairs(bs, nRollouts, nCompare, pick) == Ok(pairs) && |responses| == |pairs|
    ensures var k := Min(nCompare, nRollouts - 1);
      k == 0 || bs == 0 ==> ResponseScores(ResponseIdx(pairs, responses)) == Ok([])
    ensures var k := Min(nCompare, nRollouts - 1);
      var r := ResponseScores(ResponseIdx(pairs, responses));
      k > 0 ==>
        && r.Ok? && |r.value| == bs
        && forall i :: 0 <= i < bs ==>
             && |ScoresFor(pairs, responses, i)| == k
             && r.value[i] == Sum(ScoresFor(pairs, responses, i))
             && -(k as int) <= r.value[i] <= k
  {
    UniformPairCounts(bs, nRollouts, nCompare, pick);
    assert pairs[..|pairs|] == pairs && responses[..|responses|] == responses;
    assert ResponseIdx(pairs, responses) == Collect(pairs, responses);
    var k := Min(nCompare, nRollouts - 1);
    if k == 0 || bs == 0 {
      NoPairsNoRewards(pairs, responses);
    } else {
      UniformRewards(pairs, responses, bs, k);
    }
  }
}
