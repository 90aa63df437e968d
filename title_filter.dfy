/** The title step of the pre-processing script: the page text extracted for a company is
    normalised to one string, cut on the two-character sequence backslash-n, and the pieces
    that start with the company name become the config's `titles` list (quotes stripped,
    duplicates dropped, first occurrences kept in order). No matching piece is an error,
    and then the config is not rewritten. */
module TitleFilter {
  import opened Wrappers
  import opened Text
  import opened Seqs
  import opened Json

  /** What the extraction call returned, as far as the normalisation tells values apart. */
  datatype PyValue =
    | PyStr(s: string)
    | PyDict(entries: map<string, PyValue>)
    | PyList(items: seq<PyValue>)
    | PyOther(repr: string)

  /** Python's `str()` is passed in by the caller: it must render a string as that string;
      for other values it gives their repr, which is not modelled. */
  ghost predicate IsPyStr(str: PyValue -> string) {
    forall s :: str(PyStr(s)) == s
  }

  /** The separator the content is cut on: a backslash followed by the letter n (two
      characters, not a newline). */
  const Separator: string := ['\\', 'n']

  const Quote: set<char> := {'\''}

  /** Normalisation of the extracted content to one string (inputJson.py:58-65). */
  function ContentText(content: PyValue, str: PyValue -> string): string
  {
    match content
    case PyDict(entries) => str(if "text" in entries then entries["text"] else content)
    case PyList(items) => JoinWith(seq(|items|, i requires 0 <= i < |items| => str(items[i])), "\n")
    case _ => str(content)
  }

  /** A string or a dictionary with a string `text` field normalises to that string; a
      dictionary without a `text` field is rendered whole; a one-element list is its
      element's rendering. */
  lemma ContentTextCases(content: PyValue, str: PyValue -> string)
    requires IsPyStr(str)
    ensures content.PyStr? ==> ContentText(content, str) == content.s
    ensures content.PyDict? && "text" in content.entries && content.entries["text"].PyStr?
      ==> ContentText(content, str) == content.entries["text"].s
    ensures content.PyDict? && "text" !in content.entries ==> ContentText(content, str) == str(content)
    ensures content.PyList? && |content.items| == 1 ==> ContentText(content, str) == str(content.items[0])
    ensures content.PyOther? ==> ContentText(content, str) == str(content)
  {
  }

  /** The split pieces that start with the company name, in order. */
  function MatchingPieces(text: string, companyName: string): (ps: seq<string>)
    ensures forall p :: p in ps <==> p in SplitOn(text, Separator) && companyName <= p
  {
    Filter(SplitOn(text, Separator), p => companyName <= p)
  }

  function StripQuotes(pieces: seq<string>): (r: seq<string>)
    ensures |r| == |pieces|
    ensures forall k :: 0 <= k < |r| ==> r[k] == Strip(pieces[k], Quote)
  {
    seq(|pieces|, k requires 0 <= k < |pieces| => Strip(pieces[k], Quote))
  }

  /** The title list of inputJson.py:68-73: the stripped matching pieces, each kept once
      (see the lemmas below for what that means in terms of the split pieces). */
  function ExtractTitles(text: string, companyName: string): (titles: seq<string>)
    ensures NoDuplicates(titles)
    ensures forall t :: t in titles <==> t in StripQuotes(MatchingPieces(text, companyName))
  {
    Dedupe(StripQuotes(MatchingPieces(text, companyName)))
  }

  /** Every stored title is a split piece that starts with the company name, with its
      leading and trailing `'` characters removed. */
  lemma TitleComesFromMatchingPiece(text: string, companyName: string, t: string)
    requires t in ExtractTitles(text, companyName)
    ensures exists p :: p in SplitOn(text, Separator) && companyName <= p && t == Strip(p, Quote)
  {
    var matching := MatchingPieces(text, companyName);
    var stripped := StripQuotes(matching);
    var k :| 0 <= k < |stripped| && stripped[k] == t;
    assert matching[k] in matching;
  }

  /** Every split piece that starts with the company name gives a stored title. */
  lemma MatchingPieceGivesTitle(text: string, companyName: string, p: string)
    requires p in SplitOn(text, Separator) && companyName <= p
    ensures Strip(p, Quote) in ExtractTitles(text, companyName)
  {
    var matching := MatchingPieces(text, companyName);
    var k :| 0 <= k < |matching| && matching[k] == p;
    assert StripQuotes(matching)[k] == Strip(p, Quote);
  }

  /** The titles keep the order in which their (stripped) pieces first occur. */
  lemma TitlesInFirstOccurrenceOrder(text: string, companyName: string, i: nat, j: nat)
    requires i < j < |ExtractTitles(text, companyName)|
    ensures var stripped := StripQuotes(MatchingPieces(text, companyName));
      var titles := ExtractTitles(text, companyName);
      titles[i] in stripped && titles[j] in stripped &&
      FirstIndex(stripped, titles[i]) < FirstIndex(stripped, titles[j])
  {
  }

  lemma {:induction false} NoBackslashInJoin(pieces: seq<string>)
    requires forall k :: 0 <= k < |pieces| ==> '\\' !in pieces[k]
    ensures '\\' !in JoinWith(pieces, "\n")
    decreases |pieces|
  {
    if |pieces| > 1 {
      NoBackslashInJoin(pieces[1..]);
    }
  }

  lemma NoBackslashNoSeparator(s: string)
    requires '\\' !in s
    ensures !Contains(s, Separator)
  {
    forall i | 0 <= i <= |s| - |Separator| ensures !OccursAt(s, Separator, i) {
      assert s[i] in s;
    }
  }

  /** Content that arrives as a list is joined with real newlines, which the split does
      not cut on: when no item's rendering holds a backslash, the whole joined text is a
      single piece, so it gives one title if it starts with the company name and none
      otherwise. */
  lemma ListItemsAreNotSeparated(items: seq<PyValue>, str: PyValue -> string, companyName: string)
    requires forall k :: 0 <= k < |items| ==> '\\' !in str(items[k])
    ensures var text := ContentText(PyList(items), str);
      && SplitOn(text, Separator) == [text]
      && ExtractTitles(text, companyName) == if companyName <= text then [Strip(text, Quote)] else []
  {
    var rendered := seq(|items|, i requires 0 <= i < |items| => str(items[i]));
    NoBackslashInJoin(rendered);
    var text := JoinWith(rendered, "\n");
    NoBackslashNoSeparator(text);
    SplitWithoutSeparator(text, Separator);
    var matching := MatchingPieces(text, companyName);
    assert matching == if companyName <= text then [text] else [];
    if companyName <= text {
      var one := [Strip(text, Quote)];
      assert StripQuotes(matching) == one;
      assert one[..0] == [];
      assert Dedupe(one) == one;
    }
  }

  /** Why the config's titles could not be stored. */
  datatype TitleError =
    | ConfigNotObject          // indexing a non-object config raises
    | MissingKey(key: string)  // `config_data['target_url']` / `['companyName']` raise
    | CompanyNameNotText       // `startswith` with a non-string argument raises
    | NoTitlesFound(companyName: string)

  /** The company name the title step filters on, when the config has the keys it reads
      and the name is a string. */
  function CompanyName(config: Json): (r: Option<string>)
    ensures r.Some? <==>
      config.JObj? && "target_url" in config.fields && "companyName" in config.fields
      && config.fields["companyName"].JStr?
    ensures r.Some? ==> config.fields["companyName"] == JStr(r.value)
  {
    if config.JObj? && "target_url" in config.fields && "companyName" in config.fields
       && config.fields["companyName"].JStr?
    then Some(config.fields["companyName"].s)
    else None
  }

  function TitlesJson(titles: seq<string>): Json {
    JArr(seq(|titles|, i requires 0 <= i < |titles| => JStr(titles[i])))
  }

  /** The new content of the config file after the title step (inputJson.py:30-31,
      58-83), or the error that leaves the file as it was. On success only `titles`
      changes, and it holds the non-empty title list; it fails for lack of titles exactly
      when the company name is readable and no piece starts with it. */
  function StoreTitles(config: Json, content: PyValue, str: PyValue -> string): (r: Result<Json, TitleError>)
    ensures r.Success? ==> CompanyName(config).Some? && r.value.JObj?
    ensures r.Success? ==> r.value.fields.Keys == config.fields.Keys + {"titles"}
    ensures r.Success? ==> forall k :: k in config.fields && k != "titles" ==> r.value.fields[k] == config.fields[k]
    ensures r.Success? ==>
      var titles := ExtractTitles(ContentText(content, str), CompanyName(config).value);
      titles != [] && r.value.fields["titles"] == TitlesJson(titles)
    ensures r.Success? <==>
      CompanyName(config).Some? && ExtractTitles(ContentText(content, str), CompanyName(config).value) != []
    ensures (r.Failure? && r.error.NoTitlesFound?) <==>
      CompanyName(config).Some? && ExtractTitles(ContentText(content, str), CompanyName(config).value) == []
    ensures r.Failure? && r.error.NoTitlesFound? ==> r.error.companyName == CompanyName(config).value
    ensures r == Failure(ConfigNotObject) <==> !config.JObj?
    ensures r == Failure(MissingKey("target_url")) <==> config.JObj? && "target_url" !in config.fields
    ensures r == Failure(MissingKey("companyName")) <==>
      config.JObj? && "target_url" in config.fields && "companyName" !in config.fields
    ensures r == Failure(CompanyNameNotText) <==>
      config.JObj? && "target_url" in config.fields && "companyName" in config.fields
      && !config.fields["companyName"].JStr?
  {
    if !config.JObj? then Failure(ConfigNotObject)
    else if "target_url" !in config.fields then Failure(MissingKey("target_url"))
    else if "companyName" !in config.fields then Failure(MissingKey("companyName"))
    else if !config.fields["companyName"].JStr? then Failure(CompanyNameNotText)
    else
      var companyName := config.fields["companyName"].s;
      var titles := ExtractTitles(ContentText(content, str), companyName);
      if titles == [] then Failure(NoTitlesFound(companyName))
      else Success(JObj(config.fields["titles" := TitlesJson(titles)]))
  }
}
