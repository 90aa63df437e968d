/** The analysis script: it picks a language-model provider from the environment, checks
    that the PDF exists and that the config targets the one supported site, builds the
    prompt (for DeepSeek, from the text of every page, or a placeholder for a scanned
    document), and saves the model's answer as `data/<stem>.md`. Run without a path it
    does this for every PDF of `./data`. The model services, the PDF reader and the file
    system are parameters. */
module Analyzer {
  import opened Wrappers
  import opened Text
  import opened Seqs
  import opened Json

  const ProviderVar: string := "LLM_PROVIDER"
  const DefaultProvider: string := "gemini"
  const GeminiKeyVar: string := "GEMINI_API_KEY"
  const DeepSeekKeyVar: string := "DEEPSEEK_API_KEY"

  /** The request used when the config has no `require` or there is no config (callLLM.py:56, 59). */
  const DefaultRequest: string := "请分析此文档并提取关键内容。"

  /** The only site whose announcements may be analysed (callLLM.py:52, 134). */
  const AllowedPrefix: string := "https://www.cninfo.com.cn"

  /** What DeepSeek is sent instead of the text of a PDF with no extractable text. */
  const ScannedPlaceholder: string := "[无法从PDF中提取文本内容，可能是扫描版PDF]"

  /** The answer layout both prompts end with. */
  const ResultFormat: string :=
    "## 公告编号\n[文档内的公告编号] \n\n## 公告日期\n[文档最后的一行的日期]  \n\n## 文档摘要\n[文档的核心内容摘要]\n\n## 关键信息\n- [要点1]\n- [要点2]\n- [要点3]\n\n## 详细内容\n[文档的详细分析]"

  const GeminiLead: string := "\n\n请分析附件中的 PDF 文档并按以下格式返回结果：\n\n"
  const DocumentIntro: string := "\n\n文档内容如下:\n"
  const DeepSeekLead: string := "\n\n请分析文档并按以下格式返回结果：\n\n"

  /** `get_llm_provider` (callLLM.py:25-29): the `LLM_PROVIDER` setting, lower-cased, or
      `gemini` when it is not set. */
  function Provider(vars: map<string, string>): (p: string)
    ensures IsLower(p)
    ensures ProviderVar !in vars ==> p == DefaultProvider
    ensures ProviderVar in vars ==>
      |p| == |vars[ProviderVar]| && forall i :: 0 <= i < |p| ==> LowerChar(vars[ProviderVar][i]) == p[i]
  {
    if ProviderVar in vars then Lower(vars[ProviderVar]) else DefaultProvider
  }

  /** A key counts as configured when it is set to a non-empty value (`if not KEY`). */
  predicate HasKey(vars: map<string, string>, name: string) {
    name in vars && vars[name] != ""
  }

  /** Where `call_llm_analyze_pdf` sends a document. */
  datatype Route = UseGemini | UseDeepSeek | KeyNotSet(keyVar: string) | Unsupported(provider: string)

  /** The dispatch of callLLM.py:199-218. */
  function Dispatch(vars: map<string, string>): (r: Route)
    ensures r == UseGemini <==> Provider(vars) == "gemini" && HasKey(vars, GeminiKeyVar)
    ensures r == UseDeepSeek <==> Provider(vars) == "deepseek" && HasKey(vars, DeepSeekKeyVar)
    ensures r == KeyNotSet(GeminiKeyVar) <==> Provider(vars) == "gemini" && !HasKey(vars, GeminiKeyVar)
    ensures r == KeyNotSet(DeepSeekKeyVar) <==> Provider(vars) == "deepseek" && !HasKey(vars, DeepSeekKeyVar)
    ensures r.Unsupported? <==> Provider(vars) != "gemini" && Provider(vars) != "deepseek"
    ensures r.Unsupported? ==> r.provider == Provider(vars)
  {
    var provider := Provider(vars);
    if provider == "gemini" then
      if HasKey(vars, GeminiKeyVar) then UseGemini else KeyNotSet(GeminiKeyVar)
    else if provider == "deepseek" then
      if HasKey(vars, DeepSeekKeyVar) then UseDeepSeek else KeyNotSet(DeepSeekKeyVar)
    else Unsupported(provider)
  }

  /** The provider name is matched without regard to the case of its ASCII letters: two
      environments that differ only in the letter case of the `LLM_PROVIDER` setting
      are dispatched alike (so `DeepSeek` and `DEEPSEEK` both select DeepSeek). */
  lemma ProviderNameIgnoresCase(vars: map<string, string>, other: map<string, string>)
    requires ProviderVar in vars && ProviderVar in other
    requires vars - {ProviderVar} == other - {ProviderVar}
    requires |vars[ProviderVar]| == |other[ProviderVar]|
    requires forall i :: 0 <= i < |vars[ProviderVar]| ==>
      LowerChar(vars[ProviderVar][i]) == LowerChar(other[ProviderVar][i])
    ensures Provider(vars) == Provider(other)
    ensures Dispatch(vars) == Dispatch(other)
  {
    assert Lower(vars[ProviderVar]) == Lower(other[ProviderVar]);
    forall key | key != ProviderVar ensures (key in vars <==> key in other) && (key in vars ==> vars[key] == other[key]) {
      assert key in vars <==> key in vars - {ProviderVar};
      assert key in other <==> key in other - {ProviderVar};
      if key in vars {
        assert vars[key] == (vars - {ProviderVar})[key];
        assert other[key] == (other - {ProviderVar})[key];
      }
    }
  }

  /** The last component of a path. */
  function FileName(path: string): (r: string)
    ensures EndsWith(path, r) && '/' !in r
  {
    match LastIndexOf(path, '/')
    case None =>
      assert path[|path| - |path|..] == path;
      path
    case Some(i) =>
      var r := path[i + 1..];
      assert forall k :: 0 <= k < |r| ==> r[k] == path[i + 1 + k];
      r
  }

  /** `PurePath.stem`: the name without its last suffix, where a suffix starts at the last
      dot, provided that dot is neither the first nor the last character. */
  function Stem(name: string): (r: string)
    ensures r <= name
  {
    match LastIndexOf(name, '.')
    case Some(i) => if 0 < i < |name| - 1 then name[..i] else name
    case None => name
  }

  /** `Path("./data") / (pdf_path.stem + ".md")` (callLLM.py:93-94, 180-181). */
  function OutputPath(pdfPath: string): (r: string)
    ensures "data/" <= r && EndsWith(r, ".md")
  {
    var r := "data/" + Stem(FileName(pdfPath)) + ".md";
    assert r[|r| - 3..] == ".md";
    r
  }

  /** The file name of `dir/name` is `name` when `name` has no slash. */
  lemma FileNameAfterSlash(dir: string, name: string)
    requires '/' !in name
    ensures FileName(dir + "/" + name) == name
  {
    var path := dir + "/" + name;
    forall k | |dir| < k < |path| ensures path[k] != '/' {
      assert path[k] == name[k - |dir| - 1];
    }
    LastIndexOfAt(path, '/', |dir|);
    assert path[|dir| + 1..] == name;
  }

  /** The stem of `<stem>.pdf` or `<stem>.PDF` is `<stem>` when it is not empty. */
  lemma StemOfPdf(stem: string, ext: string)
    requires ext == ".pdf" || ext == ".PDF"
    requires stem != ""
    ensures Stem(stem + ext) == stem
  {
    var name := stem + ext;
    LastIndexOfAt(name, '.', |stem|);
    assert name[..|stem|] == stem;
  }

  /** A PDF `<stem>.pdf` or `<stem>.PDF` with a non-empty stem is written to
      `data/<stem>.md`, whatever directory it is in. */
  lemma OutputOfPdf(dir: string, stem: string, ext: string)
    requires ext == ".pdf" || ext == ".PDF"
    requires stem != "" && '/' !in stem
    ensures OutputPath(dir + "/" + stem + ext) == "data/" + stem + ".md"
  {
    var name := stem + ext;
    assert '/' !in name by {
      forall k | 0 <= k < |name| ensures name[k] != '/' {
        if k < |stem| { assert stem[k] in stem; }
      }
    }
    assert dir + "/" + stem + ext == dir + "/" + name;
    FileNameAfterSlash(dir, name);
    StemOfPdf(stem, ext);
  }

  /** Two PDFs whose names differ only in the case of the extension are written to the
      same file, so the later analysis overwrites the earlier one. */
  lemma CaseVariantsShareOutput(dir: string, stem: string)
    requires stem != "" && '/' !in stem
    ensures OutputPath(dir + "/" + stem + ".pdf") == OutputPath(dir + "/" + stem + ".PDF")
  {
    OutputOfPdf(dir, stem, ".pdf");
    OutputOfPdf(dir, stem, ".PDF");
  }

  /** A file named just `.pdf` has no suffix, so its answer goes to `data/.pdf.md`. */
  lemma BareExtensionKeepsName()
    ensures OutputPath("data/.pdf") == "data/.pdf.md"
  {
    LastIndexOfAt("data/.pdf", '/', 4);
    assert FileName("data/.pdf") == ".pdf";
    LastIndexOfAt(".pdf", '.', 0);
  }

  /** What one analysis leaves behind. */
  datatype Analysis =
    | PdfMissing                            // the PDF path does not exist
    | TargetRejected                        // the config targets another site
    | Raised                                // an exception, caught and printed
    | EmptyReply                            // Gemini answered with no text: nothing written
    | Saved(path: string, content: string)  // the answer written to `path`
    | Truncated(path: string)               // DeepSeek sent no content: `path` opened for writing, then the write raised
    | KeyMissing(keyVar: string)            // the chosen provider's key is not set
    | ProviderUnsupported(provider: string)

  /** The outcome of the checks that precede either model call. */
  datatype Gate = Stop(outcome: Analysis) | Proceed(request: Json)

  /** `config_data.get("target_url", "")` on a config object. */
  function TargetUrl(fields: map<string, Json>): Json {
    if "target_url" in fields then fields["target_url"] else JStr("")
  }

  /** A config object whose `target_url` is a string on the allowed site. */
  predicate Accepts(config: Json) {
    config.JObj? && TargetUrl(config.fields).JStr? && AllowedPrefix <= TargetUrl(config.fields).s
  }

  /** The checks of callLLM.py:41-59 (and 123-141): the PDF must exist; a config, when
      there is one, must be an object whose `target_url` is a string starting with the
      allowed site, and its `require` (or the default request) is what the model is asked.
      Anything that makes the script raise (an unreadable config, a config that is not an
      object, a `target_url` that is not a string) ends in `Raised`. */
  function Preflight(pdfExists: bool, config: StoredJson): (g: Gate)
    ensures !pdfExists <==> g == Stop(PdfMissing)
    ensures pdfExists && config.Missing? ==> g == Proceed(JStr(DefaultRequest))
    ensures g.Proceed? <==> pdfExists && (config.Missing? || (config.Parsed? && Accepts(config.doc)))
    ensures g == Stop(TargetRejected) <==>
      pdfExists && config.Parsed? && config.doc.JObj? && TargetUrl(config.doc.fields).JStr? && !Accepts(config.doc)
    ensures g == Stop(Raised) <==>
      pdfExists && (config.Unparsable? || (config.Parsed? && (!config.doc.JObj? || !TargetUrl(config.doc.fields).JStr?)))
    ensures g.Proceed? && config.Parsed? ==>
      g.request == if "require" in config.doc.fields then config.doc.fields["require"] else JStr(DefaultRequest)
  {
    if !pdfExists then Stop(PdfMissing)
    else match config
      case Missing => Proceed(JStr(DefaultRequest))
      case Unparsable => Stop(Raised)
      case Parsed(JObj(fields)) =>
        var url := TargetUrl(fields);
        if !url.JStr? then Stop(Raised)
        else if !(AllowedPrefix <= url.s) then Stop(TargetRejected)
        else Proceed(if "require" in fields then fields["require"] else JStr(DefaultRequest))
      case Parsed(_) => Stop(Raised)
  }

  /** A config without `target_url` is rejected: the default `""` does not start with the
      allowed site. */
  lemma MissingTargetIsRejected(fields: map<string, Json>)
    requires "target_url" !in fields
    ensures Preflight(true, Parsed(JObj(fields))) == Stop(TargetRejected)
  {
    assert !(AllowedPrefix <= "");
  }

  /** The request as the prompt's f-string renders it; `str` is Python's `str()` for a
      value that is not a string, which is not modelled. */
  function RequestText(request: Json, str: Json -> string): string {
    if request.JStr? then request.s else str(request)
  }

  function GeminiPrompt(request: string): string {
    request + GeminiLead + ResultFormat
  }

  function DeepSeekPrompt(request: string, text: string): string {
    request + DocumentIntro + text + DeepSeekLead + ResultFormat
  }

  /** For a given request the DeepSeek prompt determines the document text it carries. */
  lemma DeepSeekPromptDeterminesText(request: string, t1: string, t2: string)
    requires DeepSeekPrompt(request, t1) == DeepSeekPrompt(request, t2)
    ensures t1 == t2
  {
    var p1, p2 := DeepSeekPrompt(request, t1), DeepSeekPrompt(request, t2);
    var lo := |request| + |DocumentIntro|;
    assert |t1| == |t2|;
    assert p1[lo..lo + |t1|] == t1;
    assert p2[lo..lo + |t2|] == t2;
  }

  /** The text the page loop of callLLM.py:147-149 accumulates: each page's text followed
      by a newline. */
  function DocumentText(pages: seq<string>): string
  {
    if pages == [] then "" else DocumentText(pages[..|pages| - 1]) + pages[|pages| - 1] + "\n"
  }

  /** The accumulated text is blank exactly when every page's text is (the added newlines
      are themselves white space). */
  lemma {:induction false} BlankDocumentIffBlankPages(pages: seq<string>)
    ensures AllIn(DocumentText(pages), PyWhitespace) <==>
      forall i :: 0 <= i < |pages| ==> AllIn(pages[i], PyWhitespace)
  {
    if pages != [] {
      var front, last := pages[..|pages| - 1], pages[|pages| - 1];
      BlankDocumentIffBlankPages(front);
      var d, t := DocumentText(front), DocumentText(pages);
      assert t == d + last + "\n";
      if AllIn(t, PyWhitespace) {
        forall i | 0 <= i < |pages| ensures AllIn(pages[i], PyWhitespace) {
          forall k | 0 <= k < |d| ensures d[k] in PyWhitespace { assert t[k] == d[k]; }
          forall k | 0 <= k < |last| ensures last[k] in PyWhitespace { assert t[|d| + k] == last[k]; }
          if i < |pages| - 1 { assert pages[i] == front[i]; }
        }
      } else {
        var k :| 0 <= k < |t| && t[k] !in PyWhitespace;
        if k < |d| {
          assert t[k] == d[k];
        } else if k < |d| + |last| {
          assert t[k] == last[k - |d|];
        }
      }
      if forall i :: 0 <= i < |pages| ==> AllIn(pages[i], PyWhitespace) {
        assert forall i :: 0 <= i < |front| ==> front[i] == pages[i];
      }
    }
  }

  /** The text DeepSeek is given: the accumulated page text, or the placeholder when that
      text is blank (callLLM.py:152-154). */
  function ExtractedText(pages: seq<string>): string {
    var text := DocumentText(pages);
    if AllIn(text, PyWhitespace) then ScannedPlaceholder else text
  }

  /** The placeholder is sent exactly when no page has any non-blank text (including a
      PDF with no pages); otherwise the pages' text is sent unchanged. */
  lemma PlaceholderIffNoText(pages: seq<string>)
    ensures ExtractedText(pages) == ScannedPlaceholder <==>
      forall i :: 0 <= i < |pages| ==> AllIn(pages[i], PyWhitespace)
    ensures ExtractedText(pages) != ScannedPlaceholder ==> ExtractedText(pages) == DocumentText(pages)
  {
    BlankDocumentIffBlankPages(pages);
    var text := DocumentText(pages);
    if pages != [] {
      assert text[|text| - 1] == '\n';
      assert ScannedPlaceholder[|ScannedPlaceholder| - 1] == ']';
    }
  }

  /** The page loop and blank check of callLLM.py:145-154. */
  method GatherText(pages: seq<string>) returns (text: string)
    ensures text == ExtractedText(pages)
  {
    text := "";
    for i := 0 to |pages|
      invariant text == DocumentText(pages[..i])
    {
      assert pages[..i + 1][..i] == pages[..i];
      text := text + pages[i] + "\n";
    }
    assert pages[..|pages|] == pages;
    StripTrims(text, PyWhitespace);
    if Strip(text, PyWhitespace) == "" {
      text := ScannedPlaceholder;
    }
  }

  /** What DeepSeek's chat completion gives back. */
  datatype Reply = Answered(text: string) | NoContent | CallRaised

  /** Everything an analysis depends on besides the PDF itself: the environment, the
      config file, Python's `str()` for non-string requests, and the two model services.
      Gemini is sent the prompt together with the PDF, so its answer is a function of
      both (`None` when reading the file, the upload or the call raises); DeepSeek is
      sent the prompt alone. */
  datatype Setup = Setup(
    vars: map<string, string>,
    config: StoredJson,
    str: Json -> string,
    gemini: (string, string) -> Option<string>,
    deepseek: string -> Reply)

  /** One PDF as the analysis finds it: whether the path exists, the text its pages yield
      (`None` when the reader raises), and whether Gemini's processing of the upload
      ends in the `FAILED` state. */
  datatype Pdf = Pdf(exists_: bool, pages: Option<seq<string>>, uploadFailed: bool)

  /** `call_gemini_analyze_pdf` (callLLM.py:31-111). */
  function GeminiOutcome(path: string, pdf: Pdf, setup: Setup): (r: Analysis)
    ensures r.Saved? <==>
      && Preflight(pdf.exists_, setup.config).Proceed? && !pdf.uploadFailed
      && var answer := setup.gemini(GeminiPrompt(RequestText(Preflight(pdf.exists_, setup.config).request, setup.str)), path);
         answer.Some? && answer.value != ""
    ensures r.Saved? ==> r.path == OutputPath(path) && r.content != ""
    ensures r.Saved? ==>
      r.content == setup.gemini(GeminiPrompt(RequestText(Preflight(pdf.exists_, setup.config).request, setup.str)), path).value
    ensures r == EmptyReply <==>
      && Preflight(pdf.exists_, setup.config).Proceed? && !pdf.uploadFailed
      && setup.gemini(GeminiPrompt(RequestText(Preflight(pdf.exists_, setup.config).request, setup.str)), path) == Some("")
    ensures Preflight(pdf.exists_, setup.config).Proceed? ==>
      (r == Raised <==>
        (pdf.uploadFailed
         || setup.gemini(GeminiPrompt(RequestText(Preflight(pdf.exists_, setup.config).request, setup.str)), path).None?))
    ensures Preflight(pdf.exists_, setup.config).Stop? ==> r == Preflight(pdf.exists_, setup.config).outcome
    ensures !r.Truncated?
  {
    match Preflight(pdf.exists_, setup.config)
    case Stop(outcome) => outcome
    case Proceed(request) =>
      if pdf.uploadFailed then Raised
      else match setup.gemini(GeminiPrompt(RequestText(request, setup.str)), path)
        case None => Raised
        case Some(text) => if text == "" then EmptyReply else Saved(OutputPath(path), text)
  }

  /** `call_deepseek_analyze_pdf` (callLLM.py:113-196), with the page text given by
      `ExtractedText`. */
  function DeepSeekOutcome(path: string, pdf: Pdf, setup: Setup): (r: Analysis)
    ensures r.Saved? || r.Truncated? <==>
      Preflight(pdf.exists_, setup.config).Proceed? && pdf.pages.Some?
      && !setup.deepseek(DeepSeekPrompt(RequestText(Preflight(pdf.exists_, setup.config).request, setup.str),
                                        ExtractedText(pdf.pages.value))).CallRaised?
    ensures r.Saved? <==>
      Preflight(pdf.exists_, setup.config).Proceed? && pdf.pages.Some?
      && setup.deepseek(DeepSeekPrompt(RequestText(Preflight(pdf.exists_, setup.config).request, setup.str),
                                       ExtractedText(pdf.pages.value))).Answered?
    ensures r.Saved? ==>
      r.content == setup.deepseek(DeepSeekPrompt(RequestText(Preflight(pdf.exists_, setup.config).request, setup.str),
                                                 ExtractedText(pdf.pages.value))).text
    ensures r.Truncated? <==>
      Preflight(pdf.exists_, setup.config).Proceed? && pdf.pages.Some?
      && setup.deepseek(DeepSeekPrompt(RequestText(Preflight(pdf.exists_, setup.config).request, setup.str),
                                       ExtractedText(pdf.pages.value))).NoContent?
    ensures Preflight(pdf.exists_, setup.config).Proceed? ==>
      (r == Raised <==>
        (pdf.pages.None?
         || setup.deepseek(DeepSeekPrompt(RequestText(Preflight(pdf.exists_, setup.config).request, setup.str),
                                          ExtractedText(pdf.pages.value))).CallRaised?))
    ensures r.Saved? ==> r.path == OutputPath(path)
    ensures r.Truncated? ==> r.path == OutputPath(path)
    ensures Preflight(pdf.exists_, setup.config).Stop? ==> r == Preflight(pdf.exists_, setup.config).outcome
    ensures r != EmptyReply
  {
    match Preflight(pdf.exists_, setup.config)
    case Stop(outcome) => outcome
    case Proceed(request) =>
      if pdf.pages.None? then Raised
      else match setup.deepseek(DeepSeekPrompt(RequestText(request, setup.str), ExtractedText(pdf.pages.value)))
        case Answered(text) => Saved(OutputPath(path), text)
        case NoContent => Truncated(OutputPath(path))
        case CallRaised => Raised
  }

  /** The two providers treat an empty answer differently: Gemini writes nothing, DeepSeek
      writes an empty file. */
  lemma EmptyAnswerDiffers(path: string, pdf: Pdf, setup: Setup)
    requires Preflight(pdf.exists_, setup.config).Proceed? && pdf.pages.Some? && !pdf.uploadFailed
    requires forall prompt, file :: setup.gemini(prompt, file) == Some("")
    requires forall prompt :: setup.deepseek(prompt) == Answered("")
    ensures GeminiOutcome(path, pdf, setup) == EmptyReply
    ensures DeepSeekOutcome(path, pdf, setup) == Saved(OutputPath(path), "")
  {
  }

  /** A PDF whose pages yield no text is analysed by DeepSeek from the placeholder alone. */
  lemma ScannedPdfSendsPlaceholder(path: string, pdf: Pdf, setup: Setup)
    requires Preflight(pdf.exists_, setup.config).Proceed? && pdf.pages.Some?
    requires forall i :: 0 <= i < |pdf.pages.value| ==> AllIn(pdf.pages.value[i], PyWhitespace)
    ensures var request := RequestText(Preflight(pdf.exists_, setup.config).request, setup.str);
      setup.deepseek(DeepSeekPrompt(request, ExtractedText(pdf.pages.value)))
        == setup.deepseek(DeepSeekPrompt(request, ScannedPlaceholder))
  {
    PlaceholderIffNoText(pdf.pages.value);
  }

  /** `call_llm_analyze_pdf` (callLLM.py:199-218) as a specification. */
  function AnalysisOf(path: string, pdf: Pdf, setup: Setup): (r: Analysis)
    ensures r.KeyMissing? <==> Dispatch(setup.vars).KeyNotSet?
    ensures r.KeyMissing? ==> r.keyVar == Dispatch(setup.vars).keyVar
    ensures r.ProviderUnsupported? <==> Dispatch(setup.vars).Unsupported?
    ensures r.ProviderUnsupported? ==> r.provider == Provider(setup.vars)
    ensures r == EmptyReply ==> Dispatch(setup.vars) == UseGemini
    ensures r.Truncated? ==> Dispatch(setup.vars) == UseDeepSeek
    ensures Dispatch(setup.vars) == UseGemini ==> r == GeminiOutcome(path, pdf, setup)
    ensures Dispatch(setup.vars) == UseDeepSeek ==> r == DeepSeekOutcome(path, pdf, setup)
  {
    match Dispatch(setup.vars)
    case UseGemini => GeminiOutcome(path, pdf, setup)
    case UseDeepSeek => DeepSeekOutcome(path, pdf, setup)
    case KeyNotSet(keyVar) => KeyMissing(keyVar)
    case Unsupported(provider) => ProviderUnsupported(provider)
  }

  /** An answer is only ever saved under `data/<stem>.md` of the analysed PDF, and only
      once the PDF exists, the config (if any) targets the allowed site and the chosen
      provider's key is set. */
  lemma SavedOnlyWhenAllowed(path: string, pdf: Pdf, setup: Setup)
    requires AnalysisOf(path, pdf, setup).Saved? || AnalysisOf(path, pdf, setup).Truncated?
    ensures AnalysisOf(path, pdf, setup).path == OutputPath(path)
    ensures pdf.exists_ && Preflight(pdf.exists_, setup.config).Proceed?
    ensures Dispatch(setup.vars) == UseGemini || Dispatch(setup.vars) == UseDeepSeek
  {
  }

  /** `call_llm_analyze_pdf`, running the DeepSeek page loop for real. */
  method AnalyzePdf(path: string, pdf: Pdf, setup: Setup) returns (r: Analysis)
    ensures r == AnalysisOf(path, pdf, setup)
  {
    match Dispatch(setup.vars)
    case UseGemini =>
      r := GeminiOutcome(path, pdf, setup);
    case UseDeepSeek =>
      var gate := Preflight(pdf.exists_, setup.config);
      if gate.Stop? {
        r := gate.outcome;
      } else if pdf.pages.None? {
        r := Raised;
      } else {
        var text := GatherText(pdf.pages.value);
        match setup.deepseek(DeepSeekPrompt(RequestText(gate.request, setup.str), text))
        case Answered(answer) =>
          r := Saved(OutputPath(path), answer);
        case NoContent =>
          r := Truncated(OutputPath(path));
        case CallRaised =>
          r := Raised;
      }
    case KeyNotSet(keyVar) =>
      r := KeyMissing(keyVar);
    case Unsupported(provider) =>
      r := ProviderUnsupported(provider);
  }

  /** A directory argument as `process_pdf_files` finds it. */
  datatype Folder = NoSuchPath | NotADirectory | Listing(names: seq<string>)

  predicate LowerPdf(name: string) { EndsWith(name, ".pdf") }
  predicate UpperPdf(name: string) { EndsWith(name, ".PDF") }

  /** `list(dir.glob("*.pdf")) + list(dir.glob("*.PDF"))` on a case-sensitive file
      system: the lower-case matches in listing order, then the upper-case ones. */
  function PdfGlob(names: seq<string>): (r: seq<string>)
    ensures forall n :: n in r <==> n in names && (EndsWith(n, ".pdf") || EndsWith(n, ".PDF"))
    ensures NoDuplicates(names) ==> NoDuplicates(r)
  {
    var lower, upper := Filter(names, LowerPdf), Filter(names, UpperPdf);
    if NoDuplicates(names) then
      GlobHalvesDisjoint(names);
      lower + upper
    else
      lower + upper
  }

  /** The two halves of the glob hold distinct names when the listing does. */
  lemma GlobHalvesDisjoint(names: seq<string>)
    requires NoDuplicates(names)
    ensures NoDuplicates(Filter(names, LowerPdf) + Filter(names, UpperPdf))
  {
    var lower, upper := Filter(names, LowerPdf), Filter(names, UpperPdf);
    FilterNoDuplicates(names, LowerPdf);
    FilterNoDuplicates(names, UpperPdf);
    forall i, j | 0 <= i < |lower| && 0 <= j < |upper| ensures lower[i] != upper[j] {
      assert LowerPdf(lower[i]) && UpperPdf(upper[j]);
    }
  }

  /** The paths `process_pdf_files("./data/")` analyses, in order. */
  function DataPdfPaths(data: Folder): seq<string> {
    match data
    case Listing(names) =>
      var pdfs := PdfGlob(names);
      seq(|pdfs|, i requires 0 <= i < |pdfs| => "data/" + pdfs[i])
    case _ => []
  }

  /** What `process_pdf_files` reports. */
  datatype Processing = FolderUnusable | NoPdfFiles | Processed(results: seq<(string, Analysis)>)

  /** `process_pdf_files` (callLLM.py:224-253) on `./data/`: every matched PDF is
      analysed in glob order; `files` says how each one is found. */
  method ProcessPdfFiles(data: Folder, files: string -> Pdf, setup: Setup) returns (r: Processing)
    ensures data.NoSuchPath? || data.NotADirectory? <==> r == FolderUnusable
    ensures r == NoPdfFiles <==> data.Listing? && DataPdfPaths(data) == []
    ensures r.Processed? ==> |r.results| == |DataPdfPaths(data)| > 0
    ensures r.Processed? ==> forall i :: 0 <= i < |r.results| ==>
      r.results[i] == (DataPdfPaths(data)[i], AnalysisOf(DataPdfPaths(data)[i], files(DataPdfPaths(data)[i]), setup))
  {
    if !data.Listing? {
      return FolderUnusable;
    }
    var paths := DataPdfPaths(data);
    if |paths| == 0 {
      return NoPdfFiles;
    }
    var results := AnalyzeEach(paths, files, setup);
    return Processed(results);
  }

  /** The loop of callLLM.py:247-253: each path with its analysis, in order. */
  method AnalyzeEach(paths: seq<string>, files: string -> Pdf, setup: Setup) returns (results: seq<(string, Analysis)>)
    ensures |results| == |paths|
    ensures forall i :: 0 <= i < |paths| ==> results[i] == (paths[i], AnalysisOf(paths[i], files(paths[i]), setup))
  {
    results := [];
    for i := 0 to |paths|
      invariant |results| == i
      invariant forall k :: 0 <= k < i ==> results[k] == (paths[k], AnalysisOf(paths[k], files(paths[k]), setup))
    {
      var outcome := AnalyzePdf(paths[i], files(paths[i]), setup);
      results := results + [(paths[i], outcome)];
    }
  }

  /** Each PDF of a listing without repeated names is analysed exactly once. */
  lemma EachDataPdfOnce(names: seq<string>)
    requires NoDuplicates(names)
    ensures NoDuplicates(DataPdfPaths(Listing(names)))
    ensures forall n :: "data/" + n in DataPdfPaths(Listing(names)) <==>
      n in names && (EndsWith(n, ".pdf") || EndsWith(n, ".PDF"))
  {
    var pdfs := PdfGlob(names);
    var paths := DataPdfPaths(Listing(names));
    forall i, j | 0 <= i < j < |paths| ensures paths[i] != paths[j] {
      assert pdfs[i] == paths[i][5..] && pdfs[j] == paths[j][5..];
    }
    forall n ensures "data/" + n in paths <==> n in pdfs {
      if "data/" + n in paths {
        var i :| 0 <= i < |paths| && paths[i] == "data/" + n;
        assert pdfs[i] == paths[i][5..] == n;
      }
      if n in pdfs {
        var i :| 0 <= i < |pdfs| && pdfs[i] == n;
        assert paths[i] == "data/" + n;
      }
    }
  }

  /** The script's entry point as written (callLLM.py:255-273): `main()` is called with no
      argument, so whatever path is on the command line, every PDF of `./data` is
      analysed. The result is the list of paths analysed. */
  function MainAsWritten(argv: seq<string>, data: Folder): (paths: seq<string>)
    ensures forall p :: p in paths ==> "data/" <= p
    ensures |argv| >= 2 && !("data/" <= argv[1]) ==> argv[1] !in paths
  {
    DataPathsUnderData(data);
    DataPdfPaths(data)
  }

  /** Every path `process_pdf_files("./data/")` analyses lies in `data`. */
  lemma DataPathsUnderData(data: Folder)
    ensures forall p :: p in DataPdfPaths(data) ==> "data/" <= p
  {
    if data.Listing? {
      var paths := DataPdfPaths(data);
      forall p | p in paths ensures "data/" <= p {
        var i :| 0 <= i < |paths| && paths[i] == p;
        assert p == "data/" + PdfGlob(data.names)[i];
      }
    }
  }

  /** The entry point as intended: the path given on the command line, when there is one,
      is the only PDF analysed; without one, all PDFs of `./data` are. */
  function Main(argv: seq<string>, data: Folder): (paths: seq<string>)
    ensures |argv| >= 2 && argv[1] != "" ==> paths == [argv[1]]
    ensures !(|argv| >= 2 && argv[1] != "") ==> paths == DataPdfPaths(data)
  {
    if |argv| >= 2 && argv[1] != "" then [argv[1]] else DataPdfPaths(data)
  }

  /** Asked to analyse `data/a.pdf` in a directory that also holds `b.pdf`, the script as
      written analyses both; the intended entry point analyses only the one asked for. */
  lemma MainIgnoresItsArgument()
    ensures MainAsWritten(["callLLM.py", "data/a.pdf"], Listing(["a.pdf", "b.pdf"])) == ["data/a.pdf", "data/b.pdf"]
    ensures Main(["callLLM.py", "data/a.pdf"], Listing(["a.pdf", "b.pdf"])) == ["data/a.pdf"]
  {
    var names := ["a.pdf", "b.pdf"];
    assert EndsWith("a.pdf", ".pdf") && EndsWith("b.pdf", ".pdf");
    assert !EndsWith("a.pdf", ".PDF") && !EndsWith("b.pdf", ".PDF");
    assert Filter(names, LowerPdf) == names by {
      assert names[1..] == ["b.pdf"];
      assert Filter(["b.pdf"], LowerPdf) == ["b.pdf"] by { assert ["b.pdf"][1..] == []; }
    }
    assert Filter(names, UpperPdf) == [] by {
      assert names[1..] == ["b.pdf"];
      assert Filter(["b.pdf"], UpperPdf) == [] by { assert ["b.pdf"][1..] == []; }
    }
    assert PdfGlob(names) == names;
    assert "data/" + "a.pdf" == "data/a.pdf" && "data/" + "b.pdf" == "data/b.pdf";
  }
}
