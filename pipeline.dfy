/** How the pieces meet when the server runs the whole job (server.js:173-246): the config
    the server writes is what the title step and the analyser read, and after the move
    the server starts the analyser once per PDF of `data`, passing that PDF's path. */
module Pipeline {
  import opened Wrappers
  import opened Json
  import opened Text
  import opened Seqs
  import Server
  import TitleFilter
  import Analyzer

  /** A config written by `/api/config` has no `companyName`, so the title step's
      `config_data['companyName']` (inputJson.py:31), which runs outside any handler,
      raises whatever the page holds: a job started right after creating a config stops
      at its first script. */
  lemma ServerConfigStopsTitleStep(body: Json, existing: Option<Json>, content: TitleFilter.PyValue,
                                   str: TitleFilter.PyValue -> string)
    requires Server.CreateConfig(body, existing).reply.Success?
    ensures TitleFilter.StoreTitles(Server.CreateConfig(body, existing).configFile.value, content, str)
      == Failure(TitleFilter.MissingKey("companyName"))
  {
  }

  /** The analyser accepts a config written by `/api/config` exactly when the trimmed
      `targetUrl` starts with the allowed site, and then asks the model for the stored
      `require`: the server's own default prompt when the form left it empty, never the
      analyser's default. */
  lemma ServerConfigReachesAnalyser(body: Json, existing: Option<Json>)
    requires Server.CreateConfig(body, existing).reply.Success?
    ensures var config := Server.CreateConfig(body, existing).configFile.value;
      var url := Strip(Field(body, "targetUrl").value.s, JsWhitespace);
      var gate := Analyzer.Preflight(true, Parsed(config));
      && (gate.Proceed? <==> Analyzer.AllowedPrefix <= url)
      && (!(Analyzer.AllowedPrefix <= url) ==> gate == Analyzer.Stop(Analyzer.TargetRejected))
      && (gate.Proceed? ==>
            gate.request == if Truthy(Field(body, "require")) then Field(body, "require").value else JStr(Server.DefaultRequire))
  {
    var config := Server.CreateConfig(body, existing).configFile.value;
    assert Analyzer.TargetUrl(config.fields) == config.fields["target_url"];
  }

  /** The paths the job passes to the analyser, one run each (server.js:222-231):
      `path.join('./data', name)` for every PDF name of the `data` listing. */
  function RunPaths(listing: seq<string>): seq<string> {
    var pdfs := Server.PdfNames(listing);
    seq(|pdfs|, i requires 0 <= i < |pdfs| => "data/" + pdfs[i])
  }

  function Flatten(parts: seq<seq<string>>): seq<string>
  {
    if parts == [] then [] else parts[0] + Flatten(parts[1..])
  }

  /** What each run of the job analyses, when the analyser is given `["callLLM.py", path]`
      and finds the listing in `./data`. */
  function RunResults(listing: seq<string>, main: (seq<string>, Analyzer.Folder) -> seq<string>): (r: seq<seq<string>>)
    ensures |r| == |RunPaths(listing)|
    ensures forall i :: 0 <= i < |r| ==> r[i] == main(["callLLM.py", RunPaths(listing)[i]], Analyzer.Listing(listing))
  {
    var paths := RunPaths(listing);
    seq(|paths|, i requires 0 <= i < |paths| => main(["callLLM.py", paths[i]], Analyzer.Listing(listing)))
  }

  /** Every path analysed during the job, run after run. */
  function JobAnalyses(listing: seq<string>, main: (seq<string>, Analyzer.Folder) -> seq<string>): seq<string> {
    Flatten(RunResults(listing, main))
  }

  lemma {:induction false} FlattenEqualParts(parts: seq<seq<string>>, part: seq<string>)
    requires forall i :: 0 <= i < |parts| ==> parts[i] == part
    ensures |Flatten(parts)| == |parts| * |part|
  {
    if parts != [] {
      FlattenEqualParts(parts[1..], part);
    }
  }

  /** Joining `n` copies of one part holds each string `n` times as often as the part does. */
  lemma {:induction false} FlattenEqualCount(parts: seq<seq<string>>, part: seq<string>, p: string)
    requires forall i :: 0 <= i < |parts| ==> parts[i] == part
    ensures multiset(Flatten(parts))[p] == |parts| * multiset(part)[p]
  {
    if parts != [] {
      var rest := parts[1..];
      assert forall i :: 0 <= i < |rest| ==> rest[i] == parts[i + 1];
      FlattenEqualCount(rest, part, p);
      var c, tail := multiset(part)[p], Flatten(rest);
      assert Flatten(parts) == part + tail;
      assert multiset(part + tail) == multiset(part) + multiset(tail);
      MultiplySucc(|rest|, c);
    }
  }

  lemma MultiplySucc(n: nat, c: nat)
    ensures (n + 1) * c == c + n * c
  {
  }

  /** The server's PDF test passes a name exactly when one of the analyser's two globs
      matches it, and never both, so both pick the same number of files. */
  lemma {:induction false} PdfTestCountsBothGlobs(names: seq<string>)
    ensures |Server.PdfNames(names)| == |Filter(names, Analyzer.LowerPdf)| + |Filter(names, Analyzer.UpperPdf)|
  {
    if names != [] {
      PdfTestCountsBothGlobs(names[1..]);
      var n := names[0];
      assert !(Analyzer.LowerPdf(n) && Analyzer.UpperPdf(n)) by {
        if Analyzer.LowerPdf(n) {
          assert n[|n| - 4..] == ".pdf";
        }
      }
    }
  }

  lemma {:induction false} FlattenSingletons(parts: seq<seq<string>>, whole: seq<string>)
    requires |parts| == |whole|
    requires forall i :: 0 <= i < |parts| ==> parts[i] == [whole[i]]
    ensures Flatten(parts) == whole
  {
    if parts != [] {
      FlattenSingletons(parts[1..], whole[1..]);
    }
  }

  /** As written, each run ignores its path and analyses every PDF of `data`: the job
      starts one run per PDF, so a job over `n` PDFs analyses each of them `n` times. */
  lemma JobAsWrittenRepeats(listing: seq<string>)
    ensures |RunPaths(listing)| == |Analyzer.DataPdfPaths(Analyzer.Listing(listing))|
    ensures |JobAnalyses(listing, Analyzer.MainAsWritten)|
      == |RunPaths(listing)| * |Analyzer.DataPdfPaths(Analyzer.Listing(listing))|
    ensures forall p :: (multiset(JobAnalyses(listing, Analyzer.MainAsWritten))[p]
      == |RunPaths(listing)| * multiset(Analyzer.DataPdfPaths(Analyzer.Listing(listing)))[p])
    ensures NoDuplicates(listing) ==>
      forall p :: (p in Analyzer.DataPdfPaths(Analyzer.Listing(listing)) ==>
        multiset(JobAnalyses(listing, Analyzer.MainAsWritten))[p] == |RunPaths(listing)|)
  {
    var parts := RunResults(listing, Analyzer.MainAsWritten);
    var all := Analyzer.DataPdfPaths(Analyzer.Listing(listing));
    PdfTestCountsBothGlobs(listing);
    assert |all| == |Analyzer.PdfGlob(listing)|;
    forall i | 0 <= i < |parts| ensures parts[i] == all {
      assert parts[i] == Analyzer.MainAsWritten(["callLLM.py", RunPaths(listing)[i]], Analyzer.Listing(listing));
    }
    FlattenEqualParts(parts, all);
    forall p ensures multiset(JobAnalyses(listing, Analyzer.MainAsWritten))[p] == |parts| * multiset(all)[p] {
      FlattenEqualCount(parts, all, p);
    }
    if NoDuplicates(listing) {
      Analyzer.EachDataPdfOnce(listing);
      forall p | p in all ensures multiset(all)[p] == 1 {
        CountInNoDuplicates(all, p);
      }
    }
  }

  /** The job starts one run per PDF name, each with its own path. */
  lemma RunPathsDistinct(listing: seq<string>)
    requires NoDuplicates(listing)
    ensures NoDuplicates(RunPaths(listing))
  {
    var paths, pdfs := RunPaths(listing), Server.PdfNames(listing);
    FilterNoDuplicates(listing, Server.IsPdfName);
    forall i, j | 0 <= i < j < |paths| ensures paths[i] != paths[j] {
      assert pdfs[i] == paths[i][5..] && pdfs[j] == paths[j][5..];
    }
  }

  /** The server's PDF test and the analyser's glob pick the same files of `data`. */
  lemma RunPathsAreAnalyserPaths(listing: seq<string>)
    requires NoDuplicates(listing)
    ensures forall p :: p in RunPaths(listing) <==> p in Analyzer.DataPdfPaths(Analyzer.Listing(listing))
  {
    var paths, pdfs := RunPaths(listing), Server.PdfNames(listing);
    var globbed := Analyzer.DataPdfPaths(Analyzer.Listing(listing));
    Analyzer.EachDataPdfOnce(listing);
    forall p | p in paths ensures p in globbed {
      var i :| 0 <= i < |paths| && paths[i] == p;
      assert pdfs[i] in pdfs && p == "data/" + pdfs[i];
    }
    forall p | p in globbed ensures p in paths {
      var i :| 0 <= i < |globbed| && globbed[i] == p;
      var n := Analyzer.PdfGlob(listing)[i];
      assert p == "data/" + n && n in Analyzer.PdfGlob(listing);
      var j :| 0 <= j < |pdfs| && pdfs[j] == n;
      assert paths[j] == p;
    }
  }

  /** With the corrected entry point each run analyses exactly the PDF it is given, so
      over the whole job every PDF of a listing without repeated names is analysed once,
      and these are exactly the PDFs the analyser itself would pick from `data`. */
  lemma JobAnalysesEachPdfOnce(listing: seq<string>)
    requires NoDuplicates(listing)
    ensures JobAnalyses(listing, Analyzer.Main) == RunPaths(listing)
    ensures NoDuplicates(JobAnalyses(listing, Analyzer.Main))
    ensures forall p :: p in JobAnalyses(listing, Analyzer.Main) <==> p in Analyzer.DataPdfPaths(Analyzer.Listing(listing))
  {
    var paths := RunPaths(listing);
    var parts := RunResults(listing, Analyzer.Main);
    forall i | 0 <= i < |parts| ensures parts[i] == [paths[i]] {
      var argv := ["callLLM.py", paths[i]];
      assert parts[i] == Analyzer.Main(argv, Analyzer.Listing(listing));
      assert |argv| >= 2 && argv[1] == paths[i] != [];
    }
    FlattenSingletons(parts, paths);
    RunPathsDistinct(listing);
    RunPathsAreAnalyserPaths(listing);
  }
}
