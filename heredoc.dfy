/** How bash reads a here-document with a quoted delimiter (`cmd <<'D'`), the framing
    rca/utils/mini_swe.py uses to hand a patch to `git apply` and a script to `bash`: the
    lines after the command line, up to the first line that is exactly `D`, each with its
    newline, are the command's input; with no such line, every remaining line is. */
module Heredoc {

  /** `s.split("\n")`: the lines of `s`, at least one. */
  function Lines(s: string): (r: seq<string>)
    ensures |r| >= 1
    decreases |s|
  {
    if s == [] then [""]
    else if s[0] == '\n' then [""] + Lines(s[1..])
    else
      var t := Lines(s[1..]);
      [[s[0]] + t[0]] + t[1..]
  }

  /** The lines written out again, each followed by a newline. */
  function Unlines(ls: seq<string>): string
    decreases |ls|
  {
    if ls == [] then "" else ls[0] + "\n" + Unlines(ls[1..])
  }

  /** The lines before the first one equal to `d`; all of them when none is. */
  function UpToDelimiter(ls: seq<string>, d: string): (r: seq<string>)
    ensures |r| <= |ls| && r == ls[..|r|]
    ensures d !in r
    ensures |r| < |ls| ==> ls[|r|] == d
    decreases |ls|
  {
    if ls == [] || ls[0] == d then [] else [ls[0]] + UpToDelimiter(ls[1..], d)
  }

  /** The input of the command on the first line of `script`, read as a here-document
      ended by `d`. */
  function HereDocInput(script: string, d: string): string {
    Unlines(UpToDelimiter(Lines(script)[1..], d))
  }

  /** The first line: the command itself. */
  function CommandLine(script: string): string {
    Lines(script)[0]
  }

  /** Splitting, then writing the lines out, gives the text back with a final newline. */
  lemma {:induction false} UnlinesLines(s: string)
    ensures Unlines(Lines(s)) == s + "\n"
    decreases |s|
  {
    if s == [] {
      assert Unlines([""]) == "" + "\n" + Unlines([]);
    } else if s[0] == '\n' {
      UnlinesLines(s[1..]);
      assert Unlines(Lines(s)) == "" + "\n" + Unlines(Lines(s[1..]));
      assert s == "\n" + s[1..];
    } else {
      UnlinesLines(s[1..]);
      UnlinesExtend(s[0], Lines(s[1..]));
      assert s == [s[0]] + s[1..];
    }
  }

  /** Putting a character in front of the first line puts it in front of the text. */
  lemma {:induction false} UnlinesExtend(c: char, t: seq<string>)
    requires |t| >= 1
    ensures Unlines([[c] + t[0]] + t[1..]) == [c] + Unlines(t)
  {
    var ls := [[c] + t[0]] + t[1..];
    var u := Unlines(t[1..]);
    assert ls[0] == [c] + t[0] && ls[1..] == t[1..];
    assert Unlines(ls) == ([c] + t[0]) + "\n" + u;
    assert Unlines(t) == t[0] + "\n" + u;
    assert ([c] + t[0]) + "\n" + u == [c] + (t[0] + "\n" + u);
  }

  /** A newline between two texts separates their lines. */
  lemma {:induction false} LinesJoin(a: string, b: string)
    ensures Lines(a + "\n" + b) == Lines(a) + Lines(b)
    decreases |a|
  {
    var s := a + "\n" + b;
    if a == [] {
      assert s == "\n" + b;
      assert s[1..] == b;
    } else {
      assert s[0] == a[0];
      assert s[1..] == a[1..] + "\n" + b;
      LinesJoin(a[1..], b);
    }
  }

  /** A text without newline is one line. */
  lemma {:induction false} LinesSingle(d: string)
    requires '\n' !in d
    ensures Lines(d) == [d]
    decreases |d|
  {
    if d != [] {
      LinesSingle(d[1..]);
      assert d == [d[0]] + d[1..];
    }
  }

  lemma {:induction false} UnlinesAppend(a: seq<string>, b: seq<string>)
    ensures Unlines(a + b) == Unlines(a) + Unlines(b)
    decreases |a|
  {
    if a != [] {
      assert (a + b)[1..] == a[1..] + b;
      UnlinesAppend(a[1..], b);
    } else {
      assert a + b == b;
    }
  }

  lemma {:induction false} UnlinesLength(ls: seq<string>)
    ensures |Unlines(ls)| >= |ls|
    decreases |ls|
  {
    if ls != [] {
      UnlinesLength(ls[1..]);
    }
  }

  /** The command `head <<'d'`, the body, and the closing line `d`. */
  function Framed(head: string, body: string, d: string): string {
    head + "\n" + body + "\n" + d
  }

  lemma FramedLines(head: string, body: string, d: string)
    requires '\n' !in head && '\n' !in d
    ensures Lines(Framed(head, body, d)) == [head] + Lines(body) + [d]
  {
    LinesJoin(head, body + "\n" + d);
    assert head + "\n" + (body + "\n" + d) == Framed(head, body, d);
    LinesJoin(body, d);
    LinesSingle(head);
    LinesSingle(d);
  }

  /** What a framed command reads: the body's lines up to the delimiter. */
  lemma FramedInput(head: string, body: string, d: string)
    requires '\n' !in head && '\n' !in d
    ensures CommandLine(Framed(head, body, d)) == head
    ensures HereDocInput(Framed(head, body, d), d) == Unlines(UpToDelimiter(Lines(body) + [d], d))
  {
    FramedLines(head, body, d);
    var all := Lines(Framed(head, body, d));
    assert all[1..] == Lines(body) + [d];
  }

  /** A framed body reaches the command intact, with its final newline, exactly when no
      line of it is the delimiter; otherwise the command gets a strictly shorter text. */
  lemma FramedDelivers(head: string, body: string, d: string)
    requires '\n' !in head && '\n' !in d
    ensures CommandLine(Framed(head, body, d)) == head
    ensures HereDocInput(Framed(head, body, d), d) == body + "\n" <==> d !in Lines(body)
    ensures d in Lines(body) ==> |HereDocInput(Framed(head, body, d), d)| < |body| + 1
  {
    FramedInput(head, body, d);
    if d !in Lines(body) {
      DeliversWhole(body, d);
    } else {
      DeliversLess(body, d);
    }
  }

  lemma DeliversWhole(body: string, d: string)
    requires d !in Lines(body)
    ensures Unlines(UpToDelimiter(Lines(body) + [d], d)) == body + "\n"
  {
    KeepAllBefore(Lines(body), d);
    UnlinesLines(body);
  }

  lemma DeliversLess(body: string, d: string)
    requires d in Lines(body)
    ensures |Unlines(UpToDelimiter(Lines(body) + [d], d))| < |body| + 1
  {
    var ls := Lines(body);
    var k := |UpToDelimiter(ls, d)|;
    UpToDelimiterPrefix(ls, [d], d);
    assert k < |ls|;
    UnlinesLines(body);
    assert ls == ls[..k] + ls[k..];
    UnlinesAppend(ls[..k], ls[k..]);
    UnlinesLength(ls[k..]);
  }

  lemma {:induction false} KeepAllBefore(ls: seq<string>, d: string)
    requires d !in ls
    ensures UpToDelimiter(ls + [d], d) == ls
    decreases |ls|
  {
    if ls == [] {
      assert ls + [d] == [d];
    } else {
      assert (ls + [d])[1..] == ls[1..] + [d];
      KeepAllBefore(ls[1..], d);
    }
  }

  lemma {:induction false} UpToDelimiterPrefix(a: seq<string>, b: seq<string>, d: string)
    requires d in a
    ensures UpToDelimiter(a + b, d) == UpToDelimiter(a, d)
    decreases |a|
  {
    if a[0] != d {
      assert (a + b)[1..] == a[1..] + b;
      UpToDelimiterPrefix(a[1..], b, d);
    }
  }
}
