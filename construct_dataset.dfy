/** The action parser of rca/construct_dataset.py: the same search as rca/utils/parsing.py,
    but a response without a tool call gives the pair `(None, {})` instead of None. */
module ConstructDataset {
  import opened Wrappers
  import opened PyStr
  import opened PyDict
  import opened Parsing

  /** `parse_action(response)`: the function name, or None, and the argument dict. */
  function ParseActionPair(response: string): (r: (Option<string>, Dict))
    ensures r.0.None? <==> forall m :: !IsMatch(response, "function", m)
    ensures r.0.None? ==> r.1 == []
    ensures r.0.Some? ==> '>' !in r.0.value
    ensures UniqueKeys(r.1)
  {
    match Search(response, "function")
    case None => (None, [])
    case Some(m) =>
      Group1HasNoGt(response, "function");
      FindAllUnique(Group2(response, "function", m));
      (Some(Group1(response, "function", m)), Params(Group2(response, "function", m)))
  }

  lemma FindAllUnique(body: string)
    ensures UniqueKeys(Params(body))
  {
    var found := FindAll(Strip(body), "parameter");
    FromPairsSpec(seq(|found|, i requires 0 <= i < |found| => (found[i].0, Strip(found[i].1))));
  }

  /** The two parsers agree: the pair is `(None, {})` exactly when the other one returns
      None, and otherwise holds the same name and the same dict. */
  lemma AgreesWithParseAction(response: string)
    ensures ParseAction(Str(response), false).NoAction? <==> ParseActionPair(response) == (None, [])
    ensures ParseAction(Str(response), false).ActionCall? ==>
      ParseActionPair(response)
        == (Some(ParseAction(Str(response), false).name), ParseAction(Str(response), false).params)
  {
  }

  /** The values are stripped, and each name keeps the value of its last occurrence. */
  lemma ParamsLastValue(response: string, k: string)
    requires Search(response, "function").Some?
    ensures var body := Strip(Group2(response, "function", Search(response, "function").value));
      var found := FindAll(body, "parameter");
      Get(ParseActionPair(response).1, k)
        == LastValue(seq(|found|, i requires 0 <= i < |found| => (found[i].0, Strip(found[i].1))), k)
  {
    var m := Search(response, "function").value;
    var found := FindAll(Strip(Group2(response, "function", m)), "parameter");
    FromPairsSpec(seq(|found|, i requires 0 <= i < |found| => (found[i].0, Strip(found[i].1))));
  }

  /** The example response of rca/construct_dataset.py, in the pieces of the call format. */
  const Sample: string :=
    "\n" + "<function=" + "str_replace_editor" + ">"
    + "\n" + "<parameter=" + "command" + ">" + "view" + "</parameter>"
    + "\n" + "<parameter=" + "path" + ">" + "/testbed/conan/tools/files/files.py" + "</parameter>"
    + "\n" + "<parameter=" + "view_range" + ">" + "[432, 455]" + "</parameter>"
    + "\n" + "</function>"
    + "\n"

  /** It gives the editor call with its three arguments. */
  lemma SampleParsed()
    ensures ParseActionPair(Sample) == (Some("str_replace_editor"), SampleParams)
    ensures |ParseActionPair(Sample).1| == 3
  {
    SampleCall();
    SampleTrimmed();
    FromPairsDistinct(SampleParams);
    AgreesWithParseAction(Sample);
  }

  lemma SampleCall()
    ensures ParseAction(Str(Sample), false) == ActionCall("str_replace_editor", FromPairs(SampleParams))
  {
    RenderThree("\n", "str_replace_editor", SampleParams, "\n", "\n");
    SampleTags();
    SampleWritable();
    SampleTrimmed();
    assert AllSpace("\n");
    assert Writable(SampleParams, "\n");
    ParseRenderedCall("\n", "str_replace_editor", SampleParams, "\n", "\n");
  }
}
