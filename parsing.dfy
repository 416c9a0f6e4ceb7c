/** The action parsers for model responses (rca/utils/parsing.py). A response carries a
    tool call `<function=NAME>BODY</function>` whose body holds arguments
    `<parameter=KEY>VALUE</parameter>`. The source finds them with the non-greedy,
    dot-all regular expression `<T=(.*?)>(.*?)</T>`; here that search is an explicit scan
    (the first opener, the first `>` after it, the first closer after that) and is proved
    to pick the very match the regular expression picks: among all matches, the one with
    the leftmost start, then the shortest first group, then the shortest second group. */
module Parsing {
  import opened Wrappers
  import opened PyStr
  import opened PyDict

  function Opener(tag: string): string { "<" + tag + "=" }

  function Closer(tag: string): string { "</" + tag + ">" }

  /** A match of `<T=(.*?)>(.*?)</T>`: where the opener starts, where the `>` that ends
      the first group is, and where the closer starts. */
  datatype Span = Span(start: nat, gt: nat, end: nat)

  /** `m` is a match of the pattern for `tag` in `s` (any match, not only the chosen one). */
  predicate IsMatch(s: string, tag: string, m: Span) {
    && OccursAt(s, Opener(tag), m.start)
    && m.start + |Opener(tag)| <= m.gt < m.end
    && OccursAt(s, Closer(tag), m.end)
    && s[m.gt] == '>'
  }

  /** The backtracking order of a leftmost search with two lazy groups. */
  predicate LexLe(a: Span, b: Span) {
    a.start < b.start
    || (a.start == b.start && (a.gt < b.gt || (a.gt == b.gt && a.end <= b.end)))
  }

  lemma OccursAtChar(s: string, c: char, k: nat)
    ensures OccursAt(s, [c], k) <==> k < |s| && s[k] == c
  {
    if k < |s| {
      assert s[k..k + 1] == [s[k]];
    }
  }

  /** `re.search(pattern, s, re.DOTALL)` as a scan. */
  function Search(s: string, tag: string): (r: Option<Span>)
    ensures r.Some? ==> IsMatch(s, tag, r.value)
    ensures r.Some? ==> forall m :: IsMatch(s, tag, m) ==> LexLe(r.value, m)
    ensures r.None? ==> forall m :: !IsMatch(s, tag, m)
  {
    var op := Opener(tag);
    match IndexOf(s, op, 0)
    case None => None
    case Some(p) =>
      match IndexOf(s, ">", p + |op|)
      case None =>
        assert forall m :: IsMatch(s, tag, m) ==> OccursAt(s, ">", m.gt) by {
          forall m | IsMatch(s, tag, m) ensures OccursAt(s, ">", m.gt) {
            OccursAtChar(s, '>', m.gt);
          }
        }
        None
      case Some(e) =>
        OccursAtChar(s, '>', e);
        assert forall m :: IsMatch(s, tag, m) ==> OccursAt(s, ">", m.gt) by {
          forall m | IsMatch(s, tag, m) ensures OccursAt(s, ">", m.gt) {
            OccursAtChar(s, '>', m.gt);
          }
        }
        match IndexOf(s, Closer(tag), e + 1)
        case None => None
        case Some(q) => Some(Span(p, e, q))
  }

  /** A match that precedes every match is the one the search returns. */
  lemma SearchUnique(s: string, tag: string, m: Span)
    requires IsMatch(s, tag, m)
    requires forall m' :: IsMatch(s, tag, m') ==> LexLe(m, m')
    ensures Search(s, tag) == Some(m)
  {
  }

  /** The first group, the function or parameter name. */
  function Group1(s: string, tag: string, m: Span): string
    requires IsMatch(s, tag, m)
  {
    s[m.start + |Opener(tag)|..m.gt]
  }

  /** The second group, the body or the value. */
  function Group2(s: string, tag: string, m: Span): string
    requires IsMatch(s, tag, m)
  {
    s[m.gt + 1..m.end]
  }

  /** `f"<{tag}={g1}>{g2}</{tag}>"` on the groups of a match. */
  function Rebuild(s: string, tag: string, m: Span): string
    requires IsMatch(s, tag, m)
  {
    Opener(tag) + Group1(s, tag, m) + ">" + Group2(s, tag, m) + Closer(tag)
  }

  /** Rebuilding from the groups gives exactly the text the match covers. */
  lemma RebuildIsMatchedText(s: string, tag: string, m: Span)
    requires IsMatch(s, tag, m)
    ensures Rebuild(s, tag, m) == s[m.start..m.end + |Closer(tag)|]
  {
    var a, b, c, d := m.start, m.start + |Opener(tag)|, m.gt, m.end;
    var e := m.end + |Closer(tag)|;
    assert s[a..e] == s[a..b] + s[b..c] + s[c..c + 1] + s[c + 1..d] + s[d..e];
    assert s[c..c + 1] == ">";
  }

  /** The chosen first group has no `>`: a `>` inside it would give an earlier match. */
  lemma Group1HasNoGt(s: string, tag: string)
    requires Search(s, tag).Some?
    ensures '>' !in Group1(s, tag, Search(s, tag).value)
  {
    var m := Search(s, tag).value;
    var g := Group1(s, tag, m);
    if '>' in g {
      var i :| 0 <= i < |g| && g[i] == '>';
      var m' := Span(m.start, m.start + |Opener(tag)| + i, m.end);
      assert IsMatch(s, tag, m');
    }
  }

  /** The chosen second group holds no closer: one inside it would give an earlier match. */
  lemma Group2HasNoCloser(s: string, tag: string)
    requires Search(s, tag).Some?
    ensures forall j :: Search(s, tag).value.gt < j < Search(s, tag).value.end
              ==> !OccursAt(s, Closer(tag), j)
  {
  }

  /** Tags that a Python regular expression reads literally. */
  predicate IsLiteralTag(tag: string) {
    forall i :: 0 <= i < |tag| ==> tag[i] !in ".^$*+?{}[]\\|()"
  }

  /** `parse_string_between_tags(response, tag)`: the first match, rebuilt, or None. */
  function ParseStringBetweenTags(response: string, tag: string): (r: Option<string>)
    requires IsLiteralTag(tag)
    ensures r.None? <==> forall m :: !IsMatch(response, tag, m)
    ensures r.Some? ==> exists m ::
              && IsMatch(response, tag, m)
              && (forall m' :: IsMatch(response, tag, m') ==> LexLe(m, m'))
              && r.value == response[m.start..m.end + |Closer(tag)|]
  {
    match Search(response, tag)
    case None => None
    case Some(m) =>
      RebuildIsMatchedText(response, tag, m);
      Some(Rebuild(response, tag, m))
  }

  // ---------------------------------------------------------------------------
  // findall and parse_action

  /** `re.findall(pattern, s, re.DOTALL)`: the groups of the leftmost non-overlapping
      matches; the search resumes right after each match. */
  function FindAll(s: string, tag: string): seq<(string, string)>
    decreases |s|
  {
    match Search(s, tag)
    case None => []
    case Some(m) =>
      [(Group1(s, tag, m), Group2(s, tag, m))] + FindAll(s[m.end + |Closer(tag)|..], tag)
  }

  /** The arguments of a call body: the parameter matches in the stripped body, values
      stripped, names kept as written, a later name overwriting an earlier one. */
  function Params(body: string): Dict {
    var found := FindAll(Strip(body), "parameter");
    FromPairs(seq(|found|, i requires 0 <= i < |found| => (found[i].0, Strip(found[i].1))))
  }

  /** The argument of `parse_action`: the source also receives values that are no string. */
  datatype PyValue = Str(text: string) | NotStr

  /** What `parse_action` returns: None, the rebuilt call text (`string_only`), or the
      pair of the name and the argument dict. */
  datatype Action = NoAction | ActionText(text: string) | ActionCall(name: string, params: Dict)

  /** `parse_action(response, string_only)` of rca/utils/parsing.py. */
  function ParseAction(response: PyValue, stringOnly: bool): (r: Action)
    ensures r == NoAction <==> response.NotStr? || forall m :: !IsMatch(response.text, "function", m)
    ensures r.ActionText? <==> r != NoAction && stringOnly
  {
    match response
    case NotStr => NoAction
    case Str(s) =>
      match Search(s, "function")
      case None => NoAction
      case Some(m) =>
        if stringOnly then ActionText(Rebuild(s, "function", m))
        else ActionCall(Group1(s, "function", m), Params(Group2(s, "function", m)))
  }

  /** In `string_only` mode the result is the text of the chosen match, and its name part
      has no `>`. */
  lemma StringOnlyIsMatchedText(s: string)
    requires ParseAction(Str(s), true).ActionText?
    ensures Search(s, "function").Some?
    ensures var m := Search(s, "function").value;
      && ParseAction(Str(s), true).text == s[m.start..m.end + |Closer("function")|]
      && '>' !in Group1(s, "function", m)
  {
    var r := Search(s, "function");
    assert r.Some?;
    var m := r.value;
    assert ParseAction(Str(s), true).text == Rebuild(s, "function", m);
    RebuildIsMatchedText(s, "function", m);
    Group1HasNoGt(s, "function");
  }

  lemma OccursInSlice(s: string, a: nat, b: nat, p: string, k: nat)
    requires a <= b <= |s| && OccursAt(s[a..b], p, k)
    ensures OccursAt(s, p, a + k)
  {
    var t := s[a..b];
    assert forall i :: 0 <= i < |p| ==> s[a + k + i] == t[k + i] == p[i];
    assert s[a + k..a + k + |p|] == p;
  }

  /** A match inside a slice is a match of the whole string, shifted. */
  lemma MatchInSlice(s: string, a: nat, b: nat, tag: string, m: Span)
    requires a <= b <= |s| && IsMatch(s[a..b], tag, m)
    ensures IsMatch(s, tag, Span(a + m.start, a + m.gt, a + m.end))
  {
    OccursInSlice(s, a, b, Opener(tag), m.start);
    OccursInSlice(s, a, b, Closer(tag), m.end);
    assert s[a + m.gt] == s[a..b][m.gt];
  }

  /** A match's own text, cut out of the string, still holds that match. */
  lemma MatchOfCut(s: string, tag: string, m: Span)
    requires IsMatch(s, tag, m)
    ensures IsMatch(s[m.start..m.end + |Closer(tag)|], tag, Span(0, m.gt - m.start, m.end - m.start))
  {
    var cl := |Closer(tag)|;
    var op := |Opener(tag)|;
    var t := s[m.start..m.end + cl];
    assert t[0..op] == s[m.start..m.start + op];
    assert t[m.end - m.start..m.end - m.start + cl] == s[m.end..m.end + cl];
    assert t[m.gt - m.start] == s[m.gt];
  }

  /** The text a match covers, searched again, is matched as a whole. */
  lemma ReSearchMatchedText(s: string, tag: string, m: Span)
    requires Search(s, tag) == Some(m)
    ensures Search(s[m.start..m.end + |Closer(tag)|], tag) == Some(Span(0, m.gt - m.start, m.end - m.start))
  {
    var t := s[m.start..m.end + |Closer(tag)|];
    var m0 := Span(0, m.gt - m.start, m.end - m.start);
    MatchOfCut(s, tag, m);
    CutMatchFirst(s, tag, m, t);
    SearchUnique(t, tag, m0);
  }

  /** In the text `t` a chosen match covers, that match precedes every other. */
  lemma CutMatchFirst(s: string, tag: string, m: Span, t: string)
    requires Search(s, tag) == Some(m) && t == s[m.start..m.end + |Closer(tag)|]
    ensures forall m' :: IsMatch(t, tag, m') ==> LexLe(Span(0, m.gt - m.start, m.end - m.start), m')
  {
    forall m' | IsMatch(t, tag, m') ensures LexLe(Span(0, m.gt - m.start, m.end - m.start), m') {
      CutMatchBefore(s, tag, m, t, m');
    }
  }

  lemma CutMatchBefore(s: string, tag: string, m: Span, t: string, m': Span)
    requires Search(s, tag) == Some(m) && t == s[m.start..m.end + |Closer(tag)|]
    requires IsMatch(t, tag, m')
    ensures LexLe(Span(0, m.gt - m.start, m.end - m.start), m')
  {
    MatchInSlice(s, m.start, m.end + |Closer(tag)|, tag, m');
    assert LexLe(m, Span(m.start + m'.start, m.start + m'.gt, m.start + m'.end));
  }

  /** Rebuilding the match found in the rebuilt text gives the same text. */
  lemma RebuildIdempotent(s: string, tag: string)
    requires Search(s, tag).Some?
    ensures var m := Search(s, tag).value;
      && Search(Rebuild(s, tag, m), tag).Some?
      && Rebuild(Rebuild(s, tag, m), tag, Search(Rebuild(s, tag, m), tag).value) == Rebuild(s, tag, m)
  {
    var m := Search(s, tag).value;
    RebuildIsMatchedText(s, tag, m);
    var t := s[m.start..m.end + |Closer(tag)|];
    ReSearchMatchedText(s, tag, m);
    var m0 := Span(0, m.gt - m.start, m.end - m.start);
    GroupsOfCut(s, tag, m, t, m0);
  }

  /** The match moved to the start of the text it covers keeps its groups. */
  lemma GroupsOfCut(s: string, tag: string, m: Span, t: string, m0: Span)
    requires IsMatch(s, tag, m)
    requires t == s[m.start..m.end + |Closer(tag)|] && m0 == Span(0, m.gt - m.start, m.end - m.start)
    ensures IsMatch(t, tag, m0)
    ensures Group1(t, tag, m0) == Group1(s, tag, m) && Group2(t, tag, m0) == Group2(s, tag, m)
  {
    MatchOfCut(s, tag, m);
    CutOfCut(s, m.start, m.end + |Closer(tag)|, |Opener(tag)|, m.gt - m.start);
    CutOfCut(s, m.start, m.end + |Closer(tag)|, m.gt - m.start + 1, m.end - m.start);
  }

  lemma CutOfCut(s: string, a: nat, b: nat, i: nat, j: nat)
    requires a <= b <= |s| && i <= j <= b - a
    ensures s[a..b][i..j] == s[a + i..a + j]
  {
    forall k | 0 <= k < j - i ensures s[a..b][i..j][k] == s[a + i..a + j][k] {
      assert s[a..b][i..j][k] == s[a + i + k];
    }
  }

  /** `string_only` parsing is idempotent: parsing its output gives the output back. */
  lemma StringOnlyIdempotent(s: string)
    requires ParseAction(Str(s), true).ActionText?
    ensures ParseAction(Str(ParseAction(Str(s), true).text), true) == ParseAction(Str(s), true)
  {
    RebuildIdempotent(s, "function");
  }

  // ---------------------------------------------------------------------------
  // Round trip: a call written in the format the parser expects is parsed back.

  lemma OccursShift(pre: string, x: string, p: string, k: nat)
    ensures OccursAt(pre + x, p, |pre| + k) <==> OccursAt(x, p, k)
  {
    if k + |p| <= |x| {
      assert (pre + x)[|pre| + k..|pre| + k + |p|] == x[k..k + |p|];
    }
  }

  /** No opener starts inside a prefix free of `<`. */
  lemma NoOpenerInPrefix(pre: string, x: string, tag: string, j: nat)
    requires '<' !in pre && j < |pre|
    ensures !OccursAt(pre + x, Opener(tag), j)
  {
    var s := pre + x;
    var op := Opener(tag);
    assert s[j] == pre[j] && s[j] != '<';
    if j + |op| <= |s| {
      assert s[j..j + |op|][0] == s[j];
      assert op[0] == '<';
    }
  }

  /** A match behind a prefix free of `<` lies wholly after the prefix. */
  lemma MatchSkipBack(pre: string, x: string, tag: string, m: Span)
    requires '<' !in pre && IsMatch(pre + x, tag, m)
    ensures m.start >= |pre| && IsMatch(x, tag, Span(m.start - |pre|, m.gt - |pre|, m.end - |pre|))
  {
    if m.start < |pre| {
      NoOpenerInPrefix(pre, x, tag, m.start);
    }
    OccursShift(pre, x, Opener(tag), m.start - |pre|);
    OccursShift(pre, x, Closer(tag), m.end - |pre|);
    assert (pre + x)[m.gt] == x[m.gt - |pre|];
  }

  /** A match of `x` is a match of `pre + x`, shifted by `|pre|`. */
  lemma MatchSkipForward(pre: string, x: string, tag: string, m: Span)
    requires IsMatch(x, tag, m)
    ensures IsMatch(pre + x, tag, Span(m.start + |pre|, m.gt + |pre|, m.end + |pre|))
  {
    OccursShift(pre, x, Opener(tag), m.start);
    OccursShift(pre, x, Closer(tag), m.end);
    assert (pre + x)[m.gt + |pre|] == x[m.gt];
  }

  function ShiftSpan(r: Option<Span>, d: nat): Option<Span> {
    match r
    case None => None
    case Some(m) => Some(Span(m.start + d, m.gt + d, m.end + d))
  }

  /** Text free of `<` in front of a string does not change what is found, only where. */
  lemma SearchSkip(pre: string, x: string, tag: string)
    requires '<' !in pre
    ensures Search(pre + x, tag) == ShiftSpan(Search(x, tag), |pre|)
  {
    var r := Search(x, tag);
    if r.Some? {
      SearchSkipFound(pre, x, tag, r.value);
    } else {
      SearchSkipNone(pre, x, tag);
    }
  }

  lemma SearchSkipFound(pre: string, x: string, tag: string, mx: Span)
    requires '<' !in pre && Search(x, tag) == Some(mx)
    ensures Search(pre + x, tag) == Some(Span(mx.start + |pre|, mx.gt + |pre|, mx.end + |pre|))
  {
    SkipFirstMatch(pre, x, tag, mx);
  }

  /** The first match of `x`, shifted, is the first match of `pre + x`. */
  lemma SkipFirstMatch(pre: string, x: string, tag: string, mx: Span)
    requires '<' !in pre && IsMatch(x, tag, mx)
    requires forall m :: IsMatch(x, tag, m) ==> LexLe(mx, m)
    ensures Search(pre + x, tag) == Some(Span(mx.start + |pre|, mx.gt + |pre|, mx.end + |pre|))
  {
    MatchSkipForward(pre, x, tag, mx);
    SkipAllLater(pre, x, tag, mx);
    SearchUnique(pre + x, tag, Span(mx.start + |pre|, mx.gt + |pre|, mx.end + |pre|));
  }

  /** Every match of `pre + x` comes at or after the first match of `x`, shifted. */
  lemma SkipAllLater(pre: string, x: string, tag: string, mx: Span)
    requires '<' !in pre
    requires forall m :: IsMatch(x, tag, m) ==> LexLe(mx, m)
    ensures forall m' :: IsMatch(pre + x, tag, m') ==> LexLe(Span(mx.start + |pre|, mx.gt + |pre|, mx.end + |pre|), m')
  {
    var d := |pre|;
    forall m' | IsMatch(pre + x, tag, m') ensures LexLe(Span(mx.start + d, mx.gt + d, mx.end + d), m') {
      MatchSkipBack(pre, x, tag, m');
      assert LexLe(mx, Span(m'.start - d, m'.gt - d, m'.end - d));
    }
  }

  lemma SearchSkipNone(pre: string, x: string, tag: string)
    requires '<' !in pre && Search(x, tag).None?
    ensures Search(pre + x, tag).None?
  {
    var s := pre + x;
    forall m' ensures !IsMatch(s, tag, m') {
      if IsMatch(s, tag, m') {
        MatchSkipBack(pre, x, tag, m');
      }
    }
  }

  /** One step of findall: the groups of the first match, then findall after it. */
  lemma FindAllStep(s: string, tag: string, m: Span)
    requires Search(s, tag) == Some(m)
    ensures FindAll(s, tag) == [(Group1(s, tag, m), Group2(s, tag, m))] + FindAll(s[m.end + |Closer(tag)|..], tag)
  {
  }

  /** findall ignores text free of `<` in front. */
  lemma FindAllSkip(pre: string, x: string, tag: string)
    requires '<' !in pre
    ensures FindAll(pre + x, tag) == FindAll(x, tag)
  {
    var r := Search(x, tag);
    if r.Some? {
      FindAllSkipFound(pre, x, tag, r.value);
    } else {
      SearchSkipNone(pre, x, tag);
    }
  }

  lemma FindAllSkipFound(pre: string, x: string, tag: string, mx: Span)
    requires '<' !in pre && Search(x, tag) == Some(mx)
    ensures FindAll(pre + x, tag) == FindAll(x, tag)
  {
    FindAllShifted(pre, x, tag, mx);
    FindAllStep(x, tag, mx);
  }

  /** findall behind a prefix free of `<` starts with the groups of the first match of `x`
      and resumes where findall on `x` resumes. */
  lemma FindAllShifted(pre: string, x: string, tag: string, mx: Span)
    requires '<' !in pre && Search(x, tag) == Some(mx)
    ensures FindAll(pre + x, tag) == [(Group1(x, tag, mx), Group2(x, tag, mx))] + FindAll(x[mx.end + |Closer(tag)|..], tag)
  {
    var s := pre + x;
    var m := Span(mx.start + |pre|, mx.gt + |pre|, mx.end + |pre|);
    SearchSkipFound(pre, x, tag, mx);
    GroupsSkip(pre, x, tag, mx);
    var g1, g2, rest := Group1(s, tag, m), Group2(s, tag, m), s[m.end + |Closer(tag)|..];
    assert g1 == Group1(x, tag, mx) && g2 == Group2(x, tag, mx) && rest == x[mx.end + |Closer(tag)|..];
    FindAllStep(s, tag, m);
    assert FindAll(s, tag) == [(g1, g2)] + FindAll(rest, tag);
  }

  /** The groups of a shifted match are those of the original one. */
  lemma GroupsSkip(pre: string, x: string, tag: string, mx: Span)
    requires IsMatch(x, tag, mx)
    ensures var m := Span(mx.start + |pre|, mx.gt + |pre|, mx.end + |pre|);
      && IsMatch(pre + x, tag, m)
      && Group1(pre + x, tag, m) == Group1(x, tag, mx)
      && Group2(pre + x, tag, m) == Group2(x, tag, mx)
      && (pre + x)[m.end + |Closer(tag)|..] == x[mx.end + |Closer(tag)|..]
  {
    MatchSkipForward(pre, x, tag, mx);
  }

  /** Every `<` of `x` is followed, inside `x`, by something other than the start `</c`
      of a closer whose tag begins with `c`. */
  predicate CloserSafe(x: string, c: char) {
    forall j :: 0 <= j < |x| && x[j] == '<' ==> j + 2 < |x| && (x[j + 1] != '/' || x[j + 2] != c)
  }

  lemma CloserSafeConcat(a: string, b: string, c: char)
    requires CloserSafe(a, c) && CloserSafe(b, c)
    ensures CloserSafe(a + b, c)
  {
    var s := a + b;
    forall j | 0 <= j < |s| && s[j] == '<' ensures j + 2 < |s| && (s[j + 1] != '/' || s[j + 2] != c) {
      if j < |a| {
        assert a[j] == '<';
        assert s[j + 1] == a[j + 1] && s[j + 2] == a[j + 2];
      } else {
        assert b[j - |a|] == '<';
        assert s[j + 1] == b[j - |a| + 1] && s[j + 2] == b[j - |a| + 2];
      }
    }
  }

  /** No closer starts inside a closer-safe prefix. */
  lemma NoCloserInSafe(x: string, y: string, tag: string, j: nat)
    requires tag != [] && CloserSafe(x, tag[0]) && j < |x|
    ensures !OccursAt(x + y, Closer(tag), j)
  {
    var s := x + y;
    var cl := Closer(tag);
    assert cl[0] == '<' && cl[1] == '/' && cl[2] == tag[0];
    assert s[j] == x[j];
    if x[j] == '<' {
      assert s[j + 1] == x[j + 1] && s[j + 2] == x[j + 2];
    }
    if j + |cl| <= |s| {
      var w := s[j..j + |cl|];
      assert w[0] == s[j] && w[1] == s[j + 1] && w[2] == s[j + 2];
    }
  }

  /** One element `<T=k>v</T>`. */
  function Element(tag: string, k: string, v: string): string {
    Opener(tag) + k + ">" + v + Closer(tag)
  }

  /** The span an element covers at the head of `Element(tag, k, v) + rest`. */
  function ElementSpan(tag: string, k: string, v: string): Span {
    Span(0, |Opener(tag)| + |k|, |Opener(tag)| + |k| + 1 + |v|)
  }

  /** The element's own span is a match, with its name and value as groups. */
  lemma ElementMatch(tag: string, k: string, v: string, rest: string)
    ensures var s := Element(tag, k, v) + rest;
      var m := ElementSpan(tag, k, v);
      && IsMatch(s, tag, m)
      && Group1(s, tag, m) == k && Group2(s, tag, m) == v
      && s[m.end + |Closer(tag)|..] == rest
  {
    var op, cl := Opener(tag), Closer(tag);
    var s := Element(tag, k, v) + rest;
    var m := ElementSpan(tag, k, v);
    assert s == (op + k + ">" + v) + (cl + rest);
    OccursShift(op + k + ">" + v, cl + rest, cl, 0);
    assert (cl + rest)[0..|cl|] == cl;
    assert s[0..|op|] == op;
    assert s[m.gt] == '>';
    assert s[|op|..m.gt] == k;
    assert s[m.gt + 1..m.end] == v;
    assert s[m.end + |cl|..] == rest;
  }

  /** No match of `Element(tag, k, v) + rest` comes before the element's own span. */
  lemma ElementFirst(tag: string, k: string, v: string, rest: string, m': Span)
    requires tag != [] && '>' !in k && CloserSafe(v, tag[0])
    requires IsMatch(Element(tag, k, v) + rest, tag, m')
    ensures LexLe(ElementSpan(tag, k, v), m')
  {
    var op, cl := Opener(tag), Closer(tag);
    var head := op + k + ">";
    var s := Element(tag, k, v) + rest;
    var gt := |op| + |k|;
    if m'.start == 0 && m'.gt == gt && m'.end < gt + 1 + |v| {
      assert s == head + (v + (cl + rest));
      OccursShift(head, v + (cl + rest), cl, m'.end - |head|);
      NoCloserInSafe(v, cl + rest, tag, m'.end - |head|);
    }
  }

  /** A search over an element followed by anything finds that element. */
  lemma SearchElement(tag: string, k: string, v: string, rest: string)
    requires tag != [] && '>' !in k && CloserSafe(v, tag[0])
    ensures Search(Element(tag, k, v) + rest, tag) == Some(ElementSpan(tag, k, v))
  {
    var s := Element(tag, k, v) + rest;
    ElementMatch(tag, k, v, rest);
    forall m' | IsMatch(s, tag, m') ensures LexLe(ElementSpan(tag, k, v), m') {
      ElementFirst(tag, k, v, rest, m');
    }
    SearchUnique(s, tag, ElementSpan(tag, k, v));
  }

  /** findall over an element followed by anything: the element's pair, then the rest. */
  lemma FindAllElement(tag: string, k: string, v: string, rest: string)
    requires tag != [] && '>' !in k && CloserSafe(v, tag[0])
    ensures FindAll(Element(tag, k, v) + rest, tag) == [(k, v)] + FindAll(rest, tag)
  {
    SearchElement(tag, k, v, rest);
    ElementMatch(tag, k, v, rest);
    FindAllStep(Element(tag, k, v) + rest, tag, ElementSpan(tag, k, v));
  }

  /** Elements written one after another, `sep` between two of them. */
  function Joined(tag: string, ps: seq<(string, string)>, sep: string): string
    decreases |ps|
  {
    if ps == [] then ""
    else if |ps| == 1 then Element(tag, ps[0].0, ps[0].1)
    else Element(tag, ps[0].0, ps[0].1) + sep + Joined(tag, ps[1..], sep)
  }

  /** What the round trip needs of a call's text: no `<` in the separator, in the names
      or in the values, and no `>` in the names. */
  predicate Writable(ps: seq<(string, string)>, sep: string) {
    && '<' !in sep
    && forall i :: 0 <= i < |ps| ==> '<' !in ps[i].0 && '>' !in ps[i].0 && '<' !in ps[i].1
  }

  lemma ConsSplit<T>(s: seq<T>)
    requires s != []
    ensures s == [s[0]] + s[1..]
  {
  }

  lemma SearchEmpty(tag: string)
    ensures Search("", tag) == None
  {
  }

  /** findall over written parameters gives back the written pairs, in order. */
  lemma {:induction false} FindAllJoined(tag: string, ps: seq<(string, string)>, sep: string)
    requires tag != [] && Writable(ps, sep)
    ensures FindAll(Joined(tag, ps, sep), tag) == ps
    decreases |ps|
  {
    SearchEmpty(tag);
    if ps != [] {
      var k, v := ps[0].0, ps[0].1;
      var rest := if |ps| == 1 then "" else sep + Joined(tag, ps[1..], sep);
      assert Joined(tag, ps, sep) == Element(tag, k, v) + rest;
      assert '<' !in v;
      FindAllElement(tag, k, v, rest);
      if |ps| > 1 {
        assert Writable(ps[1..], sep);
        FindAllSkip(sep, Joined(tag, ps[1..], sep), tag);
        FindAllJoined(tag, ps[1..], sep);
        assert FindAll(rest, tag) == ps[1..];
      } else {
        assert FindAll(rest, tag) == [];
      }
      ConsSplit(ps);
    }
  }



  lemma CloserSafeNoLt(x: string, c: char)
    requires '<' !in x
    ensures CloserSafe(x, c)
  {
  }

  /** An element is closer-safe for any `c` other than its own tag's first character. */
  lemma CloserSafeElement(tag: string, k: string, v: string, c: char)
    requires tag != [] && '<' !in tag && tag[0] != '/' && tag[0] != c
    requires '<' !in k && '<' !in v
    ensures CloserSafe(Element(tag, k, v), c)
  {
    var op, cl := Opener(tag), Closer(tag);
    assert op[1] == tag[0];
    forall j | 0 < j < |op| ensures op[j] != '<' {
      if j <= |tag| { assert op[j] == tag[j - 1]; }
    }
    assert CloserSafe(op, c);
    assert cl[1] == '/' && cl[2] == tag[0];
    forall j | 0 < j < |cl| ensures cl[j] != '<' {
      if 2 <= j < |tag| + 2 { assert cl[j] == tag[j - 2]; }
    }
    assert CloserSafe(cl, c);
    CloserSafeNoLt(k, c);
    CloserSafeNoLt(">", c);
    CloserSafeNoLt(v, c);
    CloserSafeConcat(op, k, c);
    CloserSafeConcat(op + k, ">", c);
    CloserSafeConcat(op + k + ">", v, c);
    CloserSafeConcat(op + k + ">" + v, cl, c);
  }

  lemma {:induction false} CloserSafeJoined(tag: string, ps: seq<(string, string)>, sep: string, c: char)
    requires tag != [] && '<' !in tag && tag[0] != '/' && tag[0] != c && Writable(ps, sep)
    ensures CloserSafe(Joined(tag, ps, sep), c)
    decreases |ps|
  {
    if ps != [] {
      CloserSafeElement(tag, ps[0].0, ps[0].1, c);
      if |ps| > 1 {
        assert Writable(ps[1..], sep);
        CloserSafeJoined(tag, ps[1..], sep, c);
        CloserSafeNoLt(sep, c);
        CloserSafeConcat(Element(tag, ps[0].0, ps[0].1), sep, c);
        CloserSafeConcat(Element(tag, ps[0].0, ps[0].1) + sep, Joined(tag, ps[1..], sep), c);
      }
    }
  }

  /** Joined elements start with `<` and end with `>`. */
  lemma {:induction false} JoinedEnds(tag: string, ps: seq<(string, string)>, sep: string)
    requires ps != []
    ensures var j := Joined(tag, ps, sep); j != [] && j[0] == '<' && j[|j| - 1] == '>'
    decreases |ps|
  {
    var e := Element(tag, ps[0].0, ps[0].1);
    assert e[0] == '<';
    assert e[|e| - 1] == Closer(tag)[|Closer(tag)| - 1] == '>';
    if |ps| > 1 {
      JoinedEnds(tag, ps[1..], sep);
    }
  }

  lemma {:induction false} StripAllSpace(s: string)
    requires forall k :: 0 <= k < |s| ==> IsSpace(s[k])
    ensures Strip(s) == ""
  {
    LeadingAllSpace(s);
  }

  lemma {:induction false} LeadingAllSpace(s: string)
    requires forall k :: 0 <= k < |s| ==> IsSpace(s[k])
    ensures LeadingSpace(s) == |s|
  {
    if s != [] {
      LeadingAllSpace(s[1..]);
    }
  }

  /** Values with no whitespace at either end, as `strip` leaves them. */
  predicate Trimmed(v: string) {
    v != [] ==> !IsSpace(v[0]) && !IsSpace(v[|v| - 1])
  }

  predicate AllSpace(s: string) {
    forall k :: 0 <= k < |s| ==> IsSpace(s[k])
  }

  /** The body of a written call: the parameters between two separators. */
  function CallBody(ps: seq<(string, string)>, sep: string): string {
    sep + Joined("parameter", ps, sep) + sep
  }

  /** A call as a model writes it: free text, `<function=NAME>`, the parameters one per
      separator, `</function>`, free text. */
  function RenderCall(pre: string, name: string, ps: seq<(string, string)>, sep: string, post: string): string {
    pre + (Element("function", name, CallBody(ps, sep)) + post)
  }

  /** The parameters of a written body are the written pairs. */
  lemma FindAllBody(ps: seq<(string, string)>, sep: string)
    requires Writable(ps, sep) && AllSpace(sep)
    ensures FindAll(Strip(CallBody(ps, sep)), "parameter") == ps
  {
    var j := Joined("parameter", ps, sep);
    if ps == [] {
      assert CallBody(ps, sep) == sep + sep;
      StripAllSpace(sep + sep);
      SearchEmpty("parameter");
    } else {
      JoinedEnds("parameter", ps, sep);
      StripPadded(sep, j, sep);
      FindAllJoined("parameter", ps, sep);
    }
  }

  lemma {:induction false} StripValues(ps: seq<(string, string)>)
    requires forall i :: 0 <= i < |ps| ==> Trimmed(ps[i].1)
    ensures seq(|ps|, i requires 0 <= i < |ps| => (ps[i].0, Strip(ps[i].1))) == ps
  {
    forall i | 0 <= i < |ps| ensures Strip(ps[i].1) == ps[i].1 {
      StripTrimmed(ps[i].1);
    }
  }

  /** The arguments parsed back from a written body: the written pairs as a dict. */
  lemma ParamsOfBody(ps: seq<(string, string)>, sep: string)
    requires Writable(ps, sep) && AllSpace(sep)
    requires forall i :: 0 <= i < |ps| ==> Trimmed(ps[i].1)
    ensures Params(CallBody(ps, sep)) == FromPairs(ps)
  {
    FindAllBody(ps, sep);
    StripValues(ps);
  }

  /** Where the element of `pre + Element(tag, name, body) + post` lies. */
  function ShiftedElementSpan(tag: string, pre: string, name: string, body: string): Span {
    var e := ElementSpan(tag, name, body);
    Span(e.start + |pre|, e.gt + |pre|, e.end + |pre|)
  }

  /** The element of a written call is found, behind any text free of `<`. */
  lemma {:induction false} SearchRendered(s: string, tag: string, pre: string, name: string, body: string, post: string)
    requires s == pre + (Element(tag, name, body) + post)
    requires tag != [] && '<' !in pre && '>' !in name && CloserSafe(body, tag[0])
    ensures Search(s, tag) == Some(ShiftedElementSpan(tag, pre, name, body))
    ensures IsMatch(s, tag, ShiftedElementSpan(tag, pre, name, body))
    ensures Group1(s, tag, ShiftedElementSpan(tag, pre, name, body)) == name
    ensures Group2(s, tag, ShiftedElementSpan(tag, pre, name, body)) == body
  {
    var x := Element(tag, name, body) + post;
    var e := ElementSpan(tag, name, body);
    SearchElement(tag, name, body, post);
    ElementMatch(tag, name, body, post);
    SearchSkipFound(pre, x, tag, e);
    GroupsSkip(pre, x, tag, e);
    assert ShiftedElementSpan(tag, pre, name, body) == Span(e.start + |pre|, e.gt + |pre|, e.end + |pre|);
  }

  /** What `parse_action` returns once the function match is known. */
  lemma ParseActionFound(s: string, m: Span)
    requires Search(s, "function") == Some(m)
    ensures ParseAction(Str(s), false) == ActionCall(Group1(s, "function", m), Params(Group2(s, "function", m)))
  {
  }

  /** Round trip: a call written with a `<`-free lead-in, a name without `>`, separators
      of whitespace and names and values without `<` (values already stripped) is parsed
      back into its name and its parameters, a repeated name keeping its last value. */
  lemma {:induction false} ParseRenderedCall(pre: string, name: string, ps: seq<(string, string)>, sep: string, post: string)
    requires '<' !in pre && '>' !in name && Writable(ps, sep) && AllSpace(sep)
    requires forall i :: 0 <= i < |ps| ==> Trimmed(ps[i].1)
    ensures ParseAction(Str(RenderCall(pre, name, ps, sep, post)), false) == ActionCall(name, FromPairs(ps))
  {
    var body := CallBody(ps, sep);
    var j := Joined("parameter", ps, sep);
    CloserSafeJoined("parameter", ps, sep, 'f');
    CloserSafeNoLt(sep, 'f');
    CloserSafeConcat(sep, j, 'f');
    CloserSafeConcat(sep + j, sep, 'f');
    assert "function"[0] == 'f';
    var s := RenderCall(pre, name, ps, sep, post);
    SearchRendered(s, "function", pre, name, body, post);
    ParseActionFound(s, ShiftedElementSpan("function", pre, name, body));
    ParamsOfBody(ps, sep);
  }

  /** The first line of the example response, its indentation in front. */
  const SampleLead: string := "\n    This is an example" + " response with a function call."

  const SampleSep: string := "\n    "

  /** The example response of rca/utils/parsing.py: each line after the first is the
      indentation followed by its text, written here in the pieces of the call format. */
  const SampleResponse: string :=
    SampleLead
    + "\n    " + "<function=" + "str_replace_editor" + ">"
    + "\n    " + "<parameter=" + "command" + ">" + "view" + "</parameter>"
    + "\n    " + "<parameter=" + "path" + ">" + "/testbed/conan/tools/files/files.py" + "</parameter>"
    + "\n    " + "<parameter=" + "view_range" + ">" + "[432, 455]" + "</parameter>"
    + "\n    " + "</function>"
    + "\n    "

  const SampleParams: seq<(string, string)> :=
    [("command", "view"), ("path", "/testbed/conan/tools/files/files.py"), ("view_range", "[432, 455]")]

  /** A call with three parameters, written out piece by piece. */
  lemma RenderThree(pre: string, name: string, ps: seq<(string, string)>, sep: string, post: string)
    requires |ps| == 3
    ensures RenderCall(pre, name, ps, sep, post)
      == pre + Opener("function") + name + ">"
         + sep + Opener("parameter") + ps[0].0 + ">" + ps[0].1 + Closer("parameter")
         + sep + Opener("parameter") + ps[1].0 + ">" + ps[1].1 + Closer("parameter")
         + sep + Opener("parameter") + ps[2].0 + ">" + ps[2].1 + Closer("parameter")
         + sep + Closer("function")
         + post
  {
    var e0, e1, e2 := Element("parameter", ps[0].0, ps[0].1), Element("parameter", ps[1].0, ps[1].1), Element("parameter", ps[2].0, ps[2].1);
    JoinedThree("parameter", ps, sep);
    FlattenCall(pre, sep, Opener("function"), name, Closer("function"), e0, e1, e2, post);
    var p0 := pre + Opener("function") + name + ">" + sep;
    Splice5(p0, Opener("parameter"), ps[0].0, ">", ps[0].1, Closer("parameter"));
    var p1 := p0 + Opener("parameter") + ps[0].0 + ">" + ps[0].1 + Closer("parameter") + sep;
    Splice5(p1, Opener("parameter"), ps[1].0, ">", ps[1].1, Closer("parameter"));
    var p2 := p1 + Opener("parameter") + ps[1].0 + ">" + ps[1].1 + Closer("parameter") + sep;
    Splice5(p2, Opener("parameter"), ps[2].0, ">", ps[2].1, Closer("parameter"));
  }

  lemma FlattenCall(pre: string, sep: string, o: string, name: string, c: string, e0: string, e1: string, e2: string, post: string)
    ensures pre + ((o + name + ">" + (sep + (e0 + sep + e1 + sep + e2) + sep) + c) + post)
         == pre + o + name + ">" + sep + e0 + sep + e1 + sep + e2 + sep + c + post
  {
  }

  lemma Splice5(p: string, a: string, b: string, c: string, d: string, e: string)
    ensures p + (a + b + c + d + e) == p + a + b + c + d + e
  {
  }

  lemma JoinedThree(tag: string, ps: seq<(string, string)>, sep: string)
    requires |ps| == 3
    ensures Joined(tag, ps, sep)
      == Element(tag, ps[0].0, ps[0].1) + sep + Element(tag, ps[1].0, ps[1].1) + sep + Element(tag, ps[2].0, ps[2].1)
  {
    assert ps[1..][1..] == [ps[2]];
    assert Joined(tag, ps[1..], sep) == Element(tag, ps[1].0, ps[1].1) + sep + Element(tag, ps[2].0, ps[2].1);
  }

  lemma SampleTags()
    ensures Opener("function") == "<function=" && Closer("function") == "</function>"
    ensures Opener("parameter") == "<parameter=" && Closer("parameter") == "</parameter>"
  {
  }

  lemma SampleIsRendered()
    ensures SampleResponse
      == RenderCall(SampleLead + SampleSep, "str_replace_editor", SampleParams, SampleSep, SampleSep)
  {
    RenderThree(SampleLead + SampleSep, "str_replace_editor", SampleParams, SampleSep, SampleSep);
    SampleTags();
  }

  lemma SampleLeadPlain()
    ensures '<' !in SampleLead + SampleSep
  {
    assert '<' !in "\n    This is an example";
    assert '<' !in " response with a function call.";
  }

  lemma SamplePathPlain()
    ensures '<' !in "/testbed/conan/tools/files/files.py"
  {
  }

  lemma SampleWritable()
    ensures Writable(SampleParams, SampleSep) && AllSpace(SampleSep)
  {
    SamplePathPlain();
  }

  lemma SampleTrimmed()
    ensures forall i :: 0 <= i < |SampleParams| ==> Trimmed(SampleParams[i].1)
    ensures UniqueKeys(SampleParams)
  {
  }

  /** The sample response parses to the editor call with its three arguments, in the
      order written. */
  lemma SampleParsed()
    ensures ParseAction(Str(SampleResponse), false) == ActionCall("str_replace_editor", SampleParams)
  {
    SampleRoundTrip();
    SampleTrimmed();
    FromPairsDistinct(SampleParams);
  }

  lemma SampleRoundTrip()
    ensures ParseAction(Str(SampleResponse), false) == ActionCall("str_replace_editor", FromPairs(SampleParams))
  {
    SampleIsRendered();
    SampleLeadPlain();
    SampleWritable();
    SampleTrimmed();
    ParseRenderedCall(SampleLead + SampleSep, "str_replace_editor", SampleParams, SampleSep, SampleSep);
  }
}
